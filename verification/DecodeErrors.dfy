/** What a failed decode leaves in its target, and which position its error names. */
module DecodeErrors {
  import opened Optional
  import opened PathPrinter
  import opened Values
  import opened Decoder
  import opened DecodeMeaning

  // ---- meanings are unique ----

  /** A value has at most one meaning for a given target. */
  lemma {:induction false} MeansUnique(env: Env, v: Nix, t: GoType, was: Go, a: Go, b: Go)
    requires HasType(t, was)
    requires Means(env, v, t, was, a) && Means(env, v, t, was, b)
    ensures a == b
    decreases v, t, 1
  {
    match t
    case TPointer(elem) =>
      if !v.NixNull? {
        MeansUnique(env, v, elem, Pointee(elem, was), a.target, b.target);
      }
    case TStruct(_) =>
      forall i | 0 <= i < |t.fields| ensures a.fields[i] == b.fields[i] {
        FieldUnique(env, v, t, i, was.fields[i], a.fields[i], b.fields[i]);
      }
      assert a.fields == b.fields;
    case TMap(_, elem) => EntriesUnique(env, v, elem, a.entries, b.entries);
    case TSlice(elem) =>
      forall i | 0 <= i < |v.items| ensures a.items[i] == b.items[i] {
        ItemUnique(env, v, elem, i, Zero(elem), a.items[i], b.items[i]);
      }
      assert a.items == b.items;
    case TArray(_, elem) =>
      forall i | 0 <= i < |v.items| ensures a.items[i] == b.items[i] {
        ItemUnique(env, v, elem, i, was.items[i], a.items[i], b.items[i]);
      }
      assert a.items == b.items;
    case _ =>
  }

  lemma {:induction false} FieldUnique(env: Env, v: Nix, t: GoType, i: nat, was: Go, a: Go, b: Go)
    requires v.NixAttrs? && t.TStruct? && i < |t.fields| && HasType(t.fields[i].typ, was)
    requires MeansField(env, v, t, i, was, a) && MeansField(env, v, t, i, was, b)
    ensures a == b
    decreases v, t, 0
  {
    var f := t.fields[i];
    var k := Find(v.attrs, f.attr);
    if Active(f) && k.Some? {
      MeansUnique(env, v.attrs[k.value].value, f.typ, was, a, b);
    }
  }

  lemma {:induction false} ItemUnique(env: Env, v: Nix, elem: GoType, i: nat, was: Go, a: Go, b: Go)
    requires v.NixList? && i < |v.items| && HasType(elem, was)
    requires MeansItem(env, v, elem, i, was, a) && MeansItem(env, v, elem, i, was, b)
    ensures a == b
    decreases v, elem, 2
  {
    MeansUnique(env, v.items[i], elem, was, a, b);
  }

  lemma {:induction false} EntriesUnique(env: Env, v: Nix, elem: GoType, a: map<string, Go>, b: map<string, Go>)
    requires v.NixAttrs?
    requires forall name :: MeansKey(env, v, elem, map[], 0, |v.attrs|, a, name)
    requires forall name :: MeansKey(env, v, elem, map[], 0, |v.attrs|, b, name)
    ensures a == b
    decreases v, elem, 2
  {
    forall name ensures (name in a <==> name in b) && (name in a ==> a[name] == b[name]) {
      assert MeansKey(env, v, elem, map[], 0, |v.attrs|, a, name)
        && MeansKey(env, v, elem, map[], 0, |v.attrs|, b, name);
      match FindLast(v.attrs, name, 0, |v.attrs|)
      case None =>
      case Some(k) => MeansUnique(env, v.attrs[k].value, elem, Zero(elem), a[name], b[name]);
    }
  }

  // ---- frame on error ----

  /** Field `k` is the first that does not fit: those before it are decoded, those after it untouched. */
  ghost predicate StoppedAtField(env: Env, v: Nix, t: GoType, was: Go, g: Go, at: seq<nat>, segs: seq<Segment>, k: nat)
    requires HasType(t, was) && HasType(t, g)
  {
    && v.NixAttrs? && t.TStruct? && k < |t.fields|
    && !FitsField(env, v, t, k, at)
    && (forall j | 0 <= j < k :: FitsField(env, v, t, j, at) && MeansField(env, v, t, j, was.fields[j], g.fields[j]))
    && (forall j | k < j < |t.fields| :: g.fields[j] == was.fields[j])
    && g.fields[k] == DecodeField(env, v, t, k, was.fields[k], at, segs).val
  }

  ghost predicate StoppedAtItem(env: Env, v: Nix, t: GoType, was: Go, g: Go, at: seq<nat>, segs: seq<Segment>, k: nat)
    requires HasType(t, was) && HasType(t, g)
  {
    && v.NixList? && t.TArray? && |v.items| == t.len && k < t.len && AllOfType(t.elem, was.items)
    && !FitsItem(env, v, t.elem, k, at)
    && (forall j | 0 <= j < k ::
          FitsItem(env, v, t.elem, j, at) && MeansItem(env, v, t.elem, j, was.items[j], g.items[j]))
    && (forall j | k < j < t.len :: g.items[j] == was.items[j])
    && g.items[k] == DecodeItem(env, v, t.elem, k, was.items[k], at, segs).val
  }

  /** What a failed decode leaves: slices, maps and scalars keep their contents; a struct or an
      array whose value has the right shape is decoded up to its first misfit, and otherwise kept;
      a followed pointer holds what its pointee was left with. */
  lemma FrameOnError(env: Env, v: Nix, t: GoType, was: Go, at: seq<nat>, segs: seq<Segment>)
    requires HasType(t, was)
    requires Decode(env, v, t, was, at, segs).err.Some?
    ensures var g := Decode(env, v, t, was, at, segs).val;
      if !(Works(env, at, Force) && Works(env, at, TypeOf)) then g == was
      else if t.TPointer? then
        !v.NixNull? && g == GoPointer(Decode(env, v, t.elem, Pointee(t.elem, was), at + [0], segs).val)
      else if t.TStruct? && v.NixAttrs? then exists k :: StoppedAtField(env, v, t, was, g, at, segs, k)
      else if t.TArray? && v.NixList? && Works(env, at, ListLen) && |v.items| == t.len then
        exists k :: StoppedAtItem(env, v, t, was, g, at, segs, k)
      else g == was
  {
    if Works(env, at, Force) && Works(env, at, TypeOf) {
      if t.TStruct? && v.NixAttrs? {
        StructFrame(env, v, t, was, at, segs);
      } else if t.TArray? && v.NixList? && Works(env, at, ListLen) && |v.items| == t.len {
        ArrayFrame(env, v, t, was, at, segs);
      } else if !t.TPointer? {
        WholeKept(env, v, t, was, at, segs);
      }
    }
  }

  lemma WholeKept(env: Env, v: Nix, t: GoType, was: Go, at: seq<nat>, segs: seq<Segment>)
    requires HasType(t, was) && Works(env, at, Force) && Works(env, at, TypeOf) && !t.TPointer?
    requires !(t.TStruct? && v.NixAttrs?)
    requires !(t.TArray? && v.NixList? && Works(env, at, ListLen) && |v.items| == t.len)
    requires Decode(env, v, t, was, at, segs).err.Some?
    ensures Decode(env, v, t, was, at, segs).val == was
  {}

  lemma StructFrame(env: Env, v: Nix, t: GoType, was: Go, at: seq<nat>, segs: seq<Segment>)
    requires HasType(t, was) && Works(env, at, Force) && Works(env, at, TypeOf) && t.TStruct? && v.NixAttrs?
    requires Decode(env, v, t, was, at, segs).err.Some?
    ensures exists k :: StoppedAtField(env, v, t, was, Decode(env, v, t, was, at, segs).val, at, segs, k)
  {
    var k := FieldsStop(env, v, t, was.fields, 0, at, segs);
    assert StoppedAtField(env, v, t, was, Decode(env, v, t, was, at, segs).val, at, segs, k);
  }

  lemma ArrayFrame(env: Env, v: Nix, t: GoType, was: Go, at: seq<nat>, segs: seq<Segment>)
    requires HasType(t, was) && Works(env, at, Force) && Works(env, at, TypeOf)
    requires t.TArray? && v.NixList? && Works(env, at, ListLen) && |v.items| == t.len
    requires Decode(env, v, t, was, at, segs).err.Some?
    ensures exists k :: StoppedAtItem(env, v, t, was, Decode(env, v, t, was, at, segs).val, at, segs, k)
  {
    var k := ItemsStop(env, v, t.elem, was.items, 0, at, segs);
    assert StoppedAtItem(env, v, t, was, Decode(env, v, t, was, at, segs).val, at, segs, k);
  }

  // ---- error location ----

  /** The verdict on one check of the traversal; None when it passes. */
  type Verdict = Option<Err>

  function Check(env: Env, at: seq<nat>, op: Op, path: seq<Segment>): Verdict {
    if env.fails(Call(at, op)) then Some(ApiError(op, path)) else None
  }

  /** The verdict on a value alone, children aside, once it was forced. */
  function Shape(v: Nix, t: GoType, path: seq<Segment>): Verdict {
    match t
    case TPointer(_) => None
    case TStruct(_) => if v.NixAttrs? then None else Some(TypeMismatch(OfKind(v), t, path))
    case TMap(key, _) =>
      if !v.NixAttrs? then Some(TypeMismatch(OfKind(v), t, path))
      else if !key.TString? then Some(Unsupported(t, path))
      else None
    case TSlice(_) => if v.NixList? then None else Some(TypeMismatch(OfKind(v), t, path))
    case TArray(_, _) => if v.NixList? then None else Some(TypeMismatch(OfKind(v), t, path))
    case TInterface => if v.NixNull? then Some(TypeMismatch(OfKind(v), t, path)) else Some(Unsupported(t, path))
    case TOther => if v.NixNull? then Some(TypeMismatch(OfKind(v), t, path)) else Some(Unsupported(t, path))
    case _ =>
      if FitsScalar(v, t) || (v.NixInt? && (t.TInt? || t.TUint?)) || (v.NixFloat? && t.TFloat?) then None
      else Some(TypeMismatch(OfKind(v), t, path))
  }

  /** The verdict on a number that was read: does the target type hold it? */
  function Range(v: Nix, t: GoType, path: seq<Segment>): Verdict {
    if FitsScalar(v, t) then None
    else
      match v
      case NixInt(i) => Some(TypeMismatch(OfInteger(i), t, path))
      case NixFloat(f) => Some(TypeMismatch(OfFloat(f), t, path))
      case _ => None
  }

  /** The first verdict that is a failure. */
  function FirstFailure(vs: seq<Verdict>): Verdict {
    if vs == [] then None else if vs[0].Some? then vs[0] else FirstFailure(vs[1..])
  }

  /** Every check of a depth-first traversal, in order, each judged as if all others passed.
      Checks below a value whose shape is wrong do not exist. */
  function Verdicts(env: Env, v: Nix, t: GoType, at: seq<nat>, segs: seq<Segment>): seq<Verdict>
    decreases v, t, 1, 0
  {
    [Check(env, at, Force, segs), Check(env, at, TypeOf, segs)] + Body(env, v, t, at, segs)
  }

  function Body(env: Env, v: Nix, t: GoType, at: seq<nat>, segs: seq<Segment>): seq<Verdict>
    decreases v, t, 0, 1
  {
    if v.NixNull? && t.TPointer? then []
    else if t.TPointer? then Verdicts(env, v, t.elem, at + [0], segs)
    else [Shape(v, t, segs)] + (if Shape(v, t, segs).Some? then [] else Inside(env, v, t, at, segs))
  }

  function Inside(env: Env, v: Nix, t: GoType, at: seq<nat>, segs: seq<Segment>): seq<Verdict>
    requires !t.TPointer? && Shape(v, t, segs).None?
    decreases v, t, 0, 0
  {
    match t
    case TStruct(_) => FieldVerdicts(env, v, t, 0, at, segs)
    case TMap(_, elem) => [Check(env, at, AttrLen, segs)] + EntryVerdicts(env, v, elem, 0, at, segs)
    case TSlice(elem) => [Check(env, at, ListLen, segs)] + ItemVerdicts(env, v, elem, 0, at, segs)
    case TArray(len, elem) =>
      [Check(env, at, ListLen, segs)] +
      (if |v.items| != len then [Some(TypeMismatch(OfLength(|v.items|), t, segs))]
       else ItemVerdicts(env, v, elem, 0, at, segs))
    case _ => [Check(env, at, Getter, segs), Range(v, t, segs)]
  }

  function FieldVerdicts(env: Env, v: Nix, t: GoType, i: nat, at: seq<nat>, segs: seq<Segment>): seq<Verdict>
    requires v.NixAttrs? && t.TStruct? && i <= |t.fields|
    decreases v, t.fields, |t.fields| - i
  {
    if i == |t.fields| then []
    else
      var f := t.fields[i];
      if Active(f) then ActiveFieldVerdicts(env, v, t, i, at, segs) + FieldVerdicts(env, v, t, i + 1, at, segs)
      else FieldVerdicts(env, v, t, i + 1, at, segs)
  }

  function ActiveFieldVerdicts(env: Env, v: Nix, t: GoType, i: nat, at: seq<nat>, segs: seq<Segment>): seq<Verdict>
    requires v.NixAttrs? && t.TStruct? && i < |t.fields|
    decreases v, t.fields, 0
  {
    var f := t.fields[i];
    var path := segs + [Attr(f.attr)];
    match Find(v.attrs, f.attr)
    case None =>
      if f.required then [Check(env, at, HasAttr(i), segs), Some(MissingAttr(f.attr, path))]
      else [Check(env, at, HasAttr(i), segs)]
    case Some(k) =>
      [Check(env, at, HasAttr(i), segs), Check(env, at, GetAttr(i), segs)]
      + Verdicts(env, v.attrs[k].value, f.typ, at + [i], path)
      + [Check(env, at, CloseChild(i), segs)]
  }

  function EntryVerdicts(env: Env, v: Nix, elem: GoType, i: nat, at: seq<nat>, segs: seq<Segment>): seq<Verdict>
    requires v.NixAttrs? && i <= |v.attrs|
    decreases v, elem, 0, |v.attrs| - i + 1
  {
    if i == |v.attrs| then []
    else
      OneEntryVerdicts(env, v, elem, i, at, segs) + EntryVerdicts(env, v, elem, i + 1, at, segs)
  }

  function OneEntryVerdicts(env: Env, v: Nix, elem: GoType, i: nat, at: seq<nat>, segs: seq<Segment>): seq<Verdict>
    requires v.NixAttrs? && i < |v.attrs|
    decreases v, elem, 0, 0
  {
    [Check(env, at, AttrName(i), segs), Check(env, at, AttrByIndex(i), segs)]
    + Verdicts(env, v.attrs[i].value, elem, at + [i], segs + [Attr(v.attrs[i].name)])
    + [Check(env, at, CloseChild(i), segs)]
  }

  function ItemVerdicts(env: Env, v: Nix, elem: GoType, i: nat, at: seq<nat>, segs: seq<Segment>): seq<Verdict>
    requires v.NixList? && i <= |v.items|
    decreases v, elem, 0, |v.items| - i + 1
  {
    if i == |v.items| then []
    else OneItemVerdicts(env, v, elem, i, at, segs) + ItemVerdicts(env, v, elem, i + 1, at, segs)
  }

  function OneItemVerdicts(env: Env, v: Nix, elem: GoType, i: nat, at: seq<nat>, segs: seq<Segment>): seq<Verdict>
    requires v.NixList? && i < |v.items|
    decreases v, elem, 0, 0
  {
    var path := segs + [Index(i)];
    [Check(env, at, GetIndex(i), path)]
    + Verdicts(env, v.items[i], elem, at + [i], path)
    + [Check(env, at, CloseChild(i), path)]
  }

  lemma {:induction false} FirstFailureConcat(a: seq<Verdict>, b: seq<Verdict>)
    ensures FirstFailure(a + b) == if FirstFailure(a).Some? then FirstFailure(a) else FirstFailure(b)
  {
    if a == [] {
      assert a + b == b;
    } else {
      assert (a + b)[1..] == a[1..] + b;
      FirstFailureConcat(a[1..], b);
    }
  }

  /** The first failure is one of the verdicts, and everything visited before it passes. */
  lemma {:induction false} FirstFailureIsFirst(vs: seq<Verdict>) returns (k: nat)
    ensures FirstFailure(vs).None? ==> k == |vs|
    ensures FirstFailure(vs).Some? ==> k < |vs| && vs[k] == FirstFailure(vs)
    ensures k <= |vs| && forall j | 0 <= j < k :: vs[j].None?
  {
    if vs == [] || vs[0].Some? {
      k := 0;
    } else {
      k := FirstFailureIsFirst(vs[1..]);
      k := k + 1;
    }
  }

  lemma First1(x: Verdict)
    ensures FirstFailure([x]) == x
  {
    assert [x][1..] == [];
  }

  lemma First2(x: Verdict, y: Verdict)
    ensures FirstFailure([x, y]) == if x.Some? then x else y
  {
    assert [x, y] == [x] + [y];
    FirstFailureConcat([x], [y]);
    First1(x);
    First1(y);
  }

  /** A child's verdicts between the checks around it. */
  lemma ChildFirst(head: seq<Verdict>, child: seq<Verdict>, close: Verdict)
    ensures FirstFailure(head + child + [close]) ==
      if FirstFailure(head).Some? then FirstFailure(head)
      else if FirstFailure(child).Some? then FirstFailure(child)
      else close
  {
    FirstFailureConcat(head, child);
    FirstFailureConcat(head + child, [close]);
    First1(close);
  }

  lemma ScalarFirst(env: Env, v: Nix, t: GoType, was: Go, at: seq<nat>, segs: seq<Segment>)
    requires HasType(t, was)
    requires t.TBool? || t.TString? || t.TInt? || t.TUint? || t.TFloat? || t.TInterface? || t.TOther?
    ensures DecodeScalar(env, v, t, was, at, segs).err ==
            if v.NixNull? then DecodeScalar(env, v, t, was, at, segs).err
            else if Shape(v, t, segs).Some? then Shape(v, t, segs)
            else FirstFailure(Inside(env, v, t, at, segs))
  {
    if Shape(v, t, segs).None? {
      First2(Check(env, at, Getter, segs), Range(v, t, segs));
    }
  }

  /** The error returned is the first failure of the depth-first traversal: every check made
      before it passes, and its path is that of the failing check. */
  lemma {:induction false} ErrorIsFirstFailure(env: Env, v: Nix, t: GoType, was: Go, at: seq<nat>, segs: seq<Segment>)
    requires HasType(t, was)
    ensures Decode(env, v, t, was, at, segs).err == FirstFailure(Verdicts(env, v, t, at, segs))
    decreases v, t, 1, 0
  {
    var force, typeOf := Check(env, at, Force, segs), Check(env, at, TypeOf, segs);
    First2(force, typeOf);
    FirstFailureConcat([force, typeOf], Body(env, v, t, at, segs));
    if Works(env, at, Force) && Works(env, at, TypeOf) {
      BodyFirst(env, v, t, was, at, segs);
    }
  }

  /** Said on the list of checks: every check before the `k`-th passes, and the error is the verdict of
      the `k`-th, or there is none and `k` is the end. */
  lemma ErrorIsAtFirstFailure(env: Env, v: Nix, t: GoType, was: Go, at: seq<nat>, segs: seq<Segment>) returns (k: nat)
    requires HasType(t, was)
    ensures var vs, err := Verdicts(env, v, t, at, segs), Decode(env, v, t, was, at, segs).err;
      && k <= |vs| && (forall j | 0 <= j < k :: vs[j].None?)
      && (if err.Some? then k < |vs| && vs[k] == err else k == |vs|)
  {
    ErrorIsFirstFailure(env, v, t, was, at, segs);
    k := FirstFailureIsFirst(Verdicts(env, v, t, at, segs));
  }

  lemma {:induction false} BodyFirst(env: Env, v: Nix, t: GoType, was: Go, at: seq<nat>, segs: seq<Segment>)
    requires HasType(t, was) && Works(env, at, Force) && Works(env, at, TypeOf)
    ensures Decode(env, v, t, was, at, segs).err == FirstFailure(Body(env, v, t, at, segs))
    decreases v, t, 0, 1
  {
    if t.TPointer? {
      if !v.NixNull? {
        ErrorIsFirstFailure(env, v, t.elem, Pointee(t.elem, was), at + [0], segs);
      }
    } else {
      var shape := Shape(v, t, segs);
      First1(shape);
      if shape.Some? {
        FirstFailureConcat([shape], []);
        ShapeFirst(env, v, t, was, at, segs);
      } else {
        FirstFailureConcat([shape], Inside(env, v, t, at, segs));
        InsideFirst(env, v, t, was, at, segs);
      }
    }
  }

  lemma ShapeFirst(env: Env, v: Nix, t: GoType, was: Go, at: seq<nat>, segs: seq<Segment>)
    requires HasType(t, was) && Works(env, at, Force) && Works(env, at, TypeOf)
    requires Shape(v, t, segs).Some?
    ensures Decode(env, v, t, was, at, segs).err == Shape(v, t, segs)
  {
    assert !t.TPointer?;
  }

  /** The same below a value of the right shape. */
  lemma {:induction false} InsideFirst(env: Env, v: Nix, t: GoType, was: Go, at: seq<nat>, segs: seq<Segment>)
    requires HasType(t, was) && !t.TPointer? && Shape(v, t, segs).None?
    requires Works(env, at, Force) && Works(env, at, TypeOf)
    ensures Decode(env, v, t, was, at, segs).err == FirstFailure(Inside(env, v, t, at, segs))
    decreases v, t, 0, 0
  {
    match t
    case TStruct(_) => FieldsFirst(env, v, t, was.fields, 0, at, segs);
    case TMap(_, elem) =>
      var rest := EntryVerdicts(env, v, elem, 0, at, segs);
      First1(Check(env, at, AttrLen, segs));
      FirstFailureConcat([Check(env, at, AttrLen, segs)], rest);
      EntriesFirst(env, v, elem, map[], 0, at, segs);
    case TSlice(elem) =>
      var rest := ItemVerdicts(env, v, elem, 0, at, segs);
      First1(Check(env, at, ListLen, segs));
      FirstFailureConcat([Check(env, at, ListLen, segs)], rest);
      ItemsFirst(env, v, elem, Repeat(Zero(elem), |v.items|), 0, at, segs);
    case TArray(len, elem) =>
      First1(Check(env, at, ListLen, segs));
      if |v.items| != len {
        First2(Check(env, at, ListLen, segs), Some(TypeMismatch(OfLength(|v.items|), t, segs)));
        assert [Check(env, at, ListLen, segs), Some(TypeMismatch(OfLength(|v.items|), t, segs))]
            == [Check(env, at, ListLen, segs)] + [Some(TypeMismatch(OfLength(|v.items|), t, segs))];
      } else {
        FirstFailureConcat([Check(env, at, ListLen, segs)], ItemVerdicts(env, v, elem, 0, at, segs));
        ItemsFirst(env, v, elem, was.items, 0, at, segs);
      }
    case _ => ScalarFirst(env, v, t, was, at, segs);
  }

  lemma {:induction false} FieldsFirst(env: Env, v: Nix, t: GoType, vals: seq<Go>, i: nat, at: seq<nat>,
                                       segs: seq<Segment>)
    requires v.NixAttrs? && t.TStruct? && i <= |t.fields| && HasType(t, GoStruct(vals))
    ensures DecodeFields(env, v, t, vals, i, at, segs).1 == FirstFailure(FieldVerdicts(env, v, t, i, at, segs))
    decreases v, t.fields, |t.fields| - i
  {
    if i < |t.fields| {
      var f := t.fields[i];
      var rest := FieldVerdicts(env, v, t, i + 1, at, segs);
      var r := DecodeField(env, v, t, i, vals[i], at, segs);
      if r.err.None? {
        FieldsFirst(env, v, t, vals[i := r.val], i + 1, at, segs);
      }
      if Active(f) {
        FieldFirst(env, v, t, i, vals[i], at, segs);
        FirstFailureConcat(ActiveFieldVerdicts(env, v, t, i, at, segs), rest);
      }
    }
  }

  lemma {:induction false} FieldFirst(env: Env, v: Nix, t: GoType, i: nat, was: Go, at: seq<nat>, segs: seq<Segment>)
    requires v.NixAttrs? && t.TStruct? && i < |t.fields| && Active(t.fields[i]) && HasType(t.fields[i].typ, was)
    ensures DecodeField(env, v, t, i, was, at, segs).err == FirstFailure(ActiveFieldVerdicts(env, v, t, i, at, segs))
    decreases v, t.fields, 0, 1
  {
    var f := t.fields[i];
    match Find(v.attrs, f.attr)
    case None =>
      First1(Check(env, at, HasAttr(i), segs));
      First2(Check(env, at, HasAttr(i), segs), Some(MissingAttr(f.attr, segs + [Attr(f.attr)])));
    case Some(k) =>
      MatchedFirst(env, v, t, i, k, was, at, segs);
  }

  lemma {:induction false} MatchedFirst(env: Env, v: Nix, t: GoType, i: nat, k: nat, was: Go, at: seq<nat>,
                                        segs: seq<Segment>)
    requires v.NixAttrs? && t.TStruct? && i < |t.fields| && Active(t.fields[i]) && HasType(t.fields[i].typ, was)
    requires Find(v.attrs, t.fields[i].attr) == Some(k)
    ensures DecodeField(env, v, t, i, was, at, segs).err == FirstFailure(ActiveFieldVerdicts(env, v, t, i, at, segs))
    decreases v, t.fields, 0, 0
  {
    var f := t.fields[i];
    var path := segs + [Attr(f.attr)];
    var has, get := Check(env, at, HasAttr(i), segs), Check(env, at, GetAttr(i), segs);
    First2(has, get);
    ErrorIsFirstFailure(env, v.attrs[k].value, f.typ, was, at + [i], path);
    ChildFirst([has, get], Verdicts(env, v.attrs[k].value, f.typ, at + [i], path), Check(env, at, CloseChild(i), segs));
  }

  lemma {:induction false} EntriesFirst(env: Env, v: Nix, elem: GoType, entries: map<string, Go>, i: nat, at: seq<nat>,
                                        segs: seq<Segment>)
    requires v.NixAttrs? && i <= |v.attrs|
    requires forall n | n in entries :: HasType(elem, entries[n])
    ensures DecodeEntries(env, v, elem, entries, i, at, segs).1
      == FirstFailure(EntryVerdicts(env, v, elem, i, at, segs))
    decreases v, elem, 0, |v.attrs| - i + 2
  {
    if i < |v.attrs| {
      var next, err := EntryTurn(env, v, elem, entries, i, at, segs);
      if err.None? {
        EntriesFirst(env, v, elem, next, i + 1, at, segs);
      }
    }
  }

  /** One turn of the loop over a map's attributes. */
  lemma {:induction false} EntryTurn(env: Env, v: Nix, elem: GoType, entries: map<string, Go>, i: nat, at: seq<nat>,
                                     segs: seq<Segment>)
    returns (next: map<string, Go>, err: Option<Err>)
    requires v.NixAttrs? && i < |v.attrs|
    requires forall n | n in entries :: HasType(elem, entries[n])
    ensures forall n | n in next :: HasType(elem, next[n])
    ensures DecodeEntries(env, v, elem, entries, i, at, segs)
      == if err.Some? then (entries, err) else DecodeEntries(env, v, elem, next, i + 1, at, segs)
    ensures FirstFailure(EntryVerdicts(env, v, elem, i, at, segs))
      == if err.Some? then err else FirstFailure(EntryVerdicts(env, v, elem, i + 1, at, segs))
    decreases v, elem, 0, 1
  {
    var r := DecodeEntry(env, v, elem, i, at, segs);
    next, err := entries[v.attrs[i].name := r.val], r.err;
    EntryFirst(env, v, elem, i, at, segs);
    FirstFailureConcat(OneEntryVerdicts(env, v, elem, i, at, segs), EntryVerdicts(env, v, elem, i + 1, at, segs));
  }

  lemma {:induction false} EntryFirst(env: Env, v: Nix, elem: GoType, i: nat, at: seq<nat>, segs: seq<Segment>)
    requires v.NixAttrs? && i < |v.attrs|
    ensures DecodeEntry(env, v, elem, i, at, segs).err == FirstFailure(OneEntryVerdicts(env, v, elem, i, at, segs))
    decreases v, elem, 0, 0
  {
    var name, value := v.attrs[i].name, v.attrs[i].value;
    var path := segs + [Attr(name)];
    var head := [Check(env, at, AttrName(i), segs), Check(env, at, AttrByIndex(i), segs)];
    First2(head[0], head[1]);
    ErrorIsFirstFailure(env, value, elem, Zero(elem), at + [i], path);
    ChildFirst(head, Verdicts(env, value, elem, at + [i], path), Check(env, at, CloseChild(i), segs));
  }

  lemma {:induction false} ItemsFirst(env: Env, v: Nix, elem: GoType, vals: seq<Go>, i: nat, at: seq<nat>,
                                      segs: seq<Segment>)
    requires v.NixList? && i <= |v.items| == |vals| && AllOfType(elem, vals)
    ensures DecodeItems(env, v, elem, vals, i, at, segs).1 == FirstFailure(ItemVerdicts(env, v, elem, i, at, segs))
    decreases v, elem, 0, |v.items| - i + 2
  {
    if i < |v.items| {
      var next, err := ItemTurn(env, v, elem, vals, i, at, segs);
      if err.None? {
        ItemsFirst(env, v, elem, next, i + 1, at, segs);
      }
    }
  }

  /** One turn of the loop over list elements. */
  lemma {:induction false} ItemTurn(env: Env, v: Nix, elem: GoType, vals: seq<Go>, i: nat, at: seq<nat>,
                                    segs: seq<Segment>)
    returns (next: seq<Go>, err: Option<Err>)
    requires v.NixList? && i < |v.items| == |vals| && AllOfType(elem, vals)
    ensures |next| == |vals| && AllOfType(elem, next)
    ensures DecodeItems(env, v, elem, vals, i, at, segs)
      == if err.Some? then (next, err) else DecodeItems(env, v, elem, next, i + 1, at, segs)
    ensures FirstFailure(ItemVerdicts(env, v, elem, i, at, segs))
      == if err.Some? then err else FirstFailure(ItemVerdicts(env, v, elem, i + 1, at, segs))
    decreases v, elem, 0, 1
  {
    var r := DecodeItem(env, v, elem, i, vals[i], at, segs);
    next, err := vals[i := r.val], r.err;
    ItemFirst(env, v, elem, i, vals[i], at, segs);
    FirstFailureConcat(OneItemVerdicts(env, v, elem, i, at, segs), ItemVerdicts(env, v, elem, i + 1, at, segs));
  }

  lemma {:induction false} ItemFirst(env: Env, v: Nix, elem: GoType, i: nat, was: Go, at: seq<nat>, segs: seq<Segment>)
    requires v.NixList? && i < |v.items| && HasType(elem, was)
    ensures DecodeItem(env, v, elem, i, was, at, segs).err == FirstFailure(OneItemVerdicts(env, v, elem, i, at, segs))
    decreases v, elem, 0, 0
  {
    var path := segs + [Index(i)];
    var get := Check(env, at, GetIndex(i), path);
    First1(get);
    ErrorIsFirstFailure(env, v.items[i], elem, was, at + [i], path);
    ChildFirst([get], Verdicts(env, v.items[i], elem, at + [i], path), Check(env, at, CloseChild(i), path));
  }

  // ---- the position an error names ----

  /** Following `rel` from a value decoded into a `t` for position `at` leads to `w`, decoded into a
      `u` for position `pos`. */
  ghost predicate Leads(v: Nix, t: GoType, at: seq<nat>, rel: seq<Segment>, w: Nix, u: GoType, pos: seq<nat>)
    decreases v, t
  {
    || (rel == [] && v == w && t == u && at == pos)
    || (t.TPointer? && !v.NixNull? && Leads(v, t.elem, at + [0], rel, w, u, pos))
    || (t.TStruct? && v.NixAttrs? && exists i | 0 <= i < |t.fields| :: LeadsField(v, t, i, at, rel, w, u, pos))
    || (t.TMap? && v.NixAttrs? && exists i | 0 <= i < |v.attrs| :: LeadsEntry(v, t, i, at, rel, w, u, pos))
    || ((t.TSlice? || t.TArray?) && v.NixList?
        && exists i | 0 <= i < |v.items| :: LeadsItem(v, t, i, at, rel, w, u, pos))
  }

  ghost predicate LeadsField(v: Nix, t: GoType, i: nat, at: seq<nat>, rel: seq<Segment>, w: Nix, u: GoType,
                             pos: seq<nat>)
    requires t.TStruct? && v.NixAttrs? && i < |t.fields|
    decreases v, t, 0
  {
    var f, k := t.fields[i], Find(v.attrs, t.fields[i].attr);
    && Active(f) && k.Some? && rel != [] && rel[0] == Attr(f.attr)
    && Leads(v.attrs[k.value].value, f.typ, at + [i], rel[1..], w, u, pos)
  }

  ghost predicate LeadsEntry(v: Nix, t: GoType, i: nat, at: seq<nat>, rel: seq<Segment>, w: Nix, u: GoType,
                             pos: seq<nat>)
    requires t.TMap? && v.NixAttrs? && i < |v.attrs|
    decreases v, t, 0
  {
    rel != [] && rel[0] == Attr(v.attrs[i].name) && Leads(v.attrs[i].value, t.elem, at + [i], rel[1..], w, u, pos)
  }

  ghost predicate LeadsItem(v: Nix, t: GoType, i: nat, at: seq<nat>, rel: seq<Segment>, w: Nix, u: GoType,
                            pos: seq<nat>)
    requires (t.TSlice? || t.TArray?) && v.NixList? && i < |v.items|
    decreases v, t, 0
  {
    rel != [] && rel[0] == Index(i) && Leads(v.items[i], t.elem, at + [i], rel[1..], w, u, pos)
  }

  /** A target of type `u` may receive values of `w`'s kind. Unsupported targets refuse null like any
      other target and everything else for what they are. */
  predicate Receives(u: GoType, w: Nix) {
    match u
    case TPointer(_) => true
    case TBool => w.NixBool?
    case TString => w.NixString? || w.NixPath?
    case TInt(_) => w.NixInt?
    case TUint(_) => w.NixInt?
    case TFloat(_) => w.NixFloat?
    case TStruct(_) => w.NixAttrs?
    case TMap(_, _) => w.NixAttrs?
    case TSlice(_) => w.NixList?
    case TArray(_, _) => w.NixList?
    case TInterface => !w.NixNull?
    case TOther => !w.NixNull?
  }

  /** Decoding `w` into a `u` obtains an `i`-th child: an attribute for a field or an entry, or an item. */
  predicate HasChild(u: GoType, w: Nix, i: nat) {
    || (u.TStruct? && w.NixAttrs? && i < |u.fields| && Active(u.fields[i]) && Find(w.attrs, u.fields[i].attr).Some?)
    || (u.TMap? && w.NixAttrs? && i < |w.attrs|)
    || ((u.TSlice? || u.TArray?) && w.NixList? && i < |w.items|)
  }

  /** An operation that decoding `w` into a `u` may come to. */
  predicate Applies(op: Op, u: GoType, w: Nix) {
    match op
    case Force => true
    case TypeOf => true
    case Getter => Receives(u, w) && (u.TBool? || u.TString? || u.TInt? || u.TUint? || u.TFloat?)
    case AttrLen => u.TMap? && w.NixAttrs?
    case ListLen => (u.TSlice? || u.TArray?) && w.NixList?
    case HasAttr(i) => u.TStruct? && w.NixAttrs? && i < |u.fields| && Active(u.fields[i])
    case GetAttr(i) => u.TStruct? && HasChild(u, w, i)
    case AttrName(i) => u.TMap? && HasChild(u, w, i)
    case AttrByIndex(i) => u.TMap? && HasChild(u, w, i)
    case GetIndex(i) => (u.TSlice? || u.TArray?) && HasChild(u, w, i)
    case CloseChild(i) => HasChild(u, w, i)
  }

  /** The error is true of decoding `w` into a `u` for position `pos`. */
  ghost predicate Blames(env: Env, e: Err, w: Nix, u: GoType, pos: seq<nat>) {
    match e
    case TypeMismatch(OfKind(found), t, _) => found == w && t == u && !Receives(u, w)
    case TypeMismatch(OfLength(n), t, _) => t == u && w.NixList? && |w.items| == n && u.TArray? && u.len != n
    case TypeMismatch(OfInteger(i), t, _) =>
      t == u && w == NixInt(i)
        && ((u.TInt? && OverflowInt(u.bits, i)) || (u.TUint? && (i < 0 || OverflowUint(u.bits, i))))
    case TypeMismatch(OfFloat(f), t, _) => t == u && w == NixFloat(f) && u.TFloat? && OverflowFloat(u.bits, f)
    case Unsupported(t, _) =>
      t == u && !w.NixNull? && (u.TInterface? || u.TOther? || (u.TMap? && !u.key.TString? && w.NixAttrs?))
    case MissingAttr(name, _) =>
      w.NixAttrs? && Find(w.attrs, name).None? && u.TStruct?
      && exists i | 0 <= i < |u.fields| :: Requires(u.fields[i], name)
    case ApiError(op, _) => env.fails(Call(pos, op)) && Applies(op, u, w)
  }

  predicate Requires(f: Field, name: string) {
    Active(f) && f.required && f.attr == name
  }

  /** Where an error about the value at `path` is reported: a missing attribute and a failed list
      access one step below it. */
  function Reported(e: Err, u: GoType, path: seq<Segment>): seq<Segment> {
    if e.MissingAttr? then path + [Attr(e.attr)]
    else if e.ApiError? && e.op.GetIndex? then path + [Index(e.op.i)]
    else if e.ApiError? && e.op.CloseChild? && (u.TSlice? || u.TArray?) then path + [Index(e.op.i)]
    else path
  }

  /** The error is about the value that `rel` leads to, true of it, and reported there. */
  ghost predicate About(env: Env, v: Nix, t: GoType, at: seq<nat>, segs: seq<Segment>, e: Err,
                        rel: seq<Segment>, w: Nix, u: GoType, pos: seq<nat>) {
    Leads(v, t, at, rel, w, u, pos) && Blames(env, e, w, u, pos) && e.path == Reported(e, u, segs + rel)
  }

  ghost predicate Denotes(env: Env, v: Nix, t: GoType, at: seq<nat>, segs: seq<Segment>, e: Err) {
    exists rel, w, u, pos :: About(env, v, t, at, segs, e, rel, w, u, pos)
  }

  lemma DenotesHere(env: Env, v: Nix, t: GoType, at: seq<nat>, segs: seq<Segment>, e: Err)
    requires Blames(env, e, v, t, at) && e.path == Reported(e, t, segs)
    ensures Denotes(env, v, t, at, segs, e)
  {
    assert segs + [] == segs;
    assert About(env, v, t, at, segs, e, [], v, t, at);
  }

  lemma DenotesPointee(env: Env, v: Nix, t: GoType, at: seq<nat>, segs: seq<Segment>, e: Err)
    requires t.TPointer? && !v.NixNull? && Denotes(env, v, t.elem, at + [0], segs, e)
    ensures Denotes(env, v, t, at, segs, e)
  {
    var rel, w, u, pos :| About(env, v, t.elem, at + [0], segs, e, rel, w, u, pos);
    assert About(env, v, t, at, segs, e, rel, w, u, pos);
  }

  /** The same one segment further up. */
  lemma ReportedBelow(e: Err, u: GoType, segs: seq<Segment>, seg: Segment, rel: seq<Segment>)
    ensures Reported(e, u, segs + [seg] + rel) == Reported(e, u, segs + ([seg] + rel))
    ensures ([seg] + rel)[0] == seg && ([seg] + rel)[1..] == rel
  {
    assert segs + [seg] + rel == segs + ([seg] + rel);
  }

  lemma DenotesField(env: Env, v: Nix, t: GoType, i: nat, at: seq<nat>, segs: seq<Segment>, e: Err)
    requires t.TStruct? && v.NixAttrs? && i < |t.fields| && Active(t.fields[i]) && Find(v.attrs, t.fields[i].attr).Some?
    requires var f := t.fields[i];
      Denotes(env, v.attrs[Find(v.attrs, f.attr).value].value, f.typ, at + [i], segs + [Attr(f.attr)], e)
    ensures Denotes(env, v, t, at, segs, e)
  {
    var f := t.fields[i];
    var child, seg := v.attrs[Find(v.attrs, f.attr).value].value, Attr(f.attr);
    var rel, w, u, pos :| About(env, child, f.typ, at + [i], segs + [seg], e, rel, w, u, pos);
    ReportedBelow(e, u, segs, seg, rel);
    assert LeadsField(v, t, i, at, [seg] + rel, w, u, pos);
    assert About(env, v, t, at, segs, e, [seg] + rel, w, u, pos);
  }

  lemma DenotesEntry(env: Env, v: Nix, t: GoType, i: nat, at: seq<nat>, segs: seq<Segment>, e: Err)
    requires t.TMap? && v.NixAttrs? && i < |v.attrs|
    requires Denotes(env, v.attrs[i].value, t.elem, at + [i], segs + [Attr(v.attrs[i].name)], e)
    ensures Denotes(env, v, t, at, segs, e)
  {
    var seg := Attr(v.attrs[i].name);
    var rel, w, u, pos :| About(env, v.attrs[i].value, t.elem, at + [i], segs + [seg], e, rel, w, u, pos);
    ReportedBelow(e, u, segs, seg, rel);
    assert LeadsEntry(v, t, i, at, [seg] + rel, w, u, pos);
    assert About(env, v, t, at, segs, e, [seg] + rel, w, u, pos);
  }

  lemma DenotesItem(env: Env, v: Nix, t: GoType, i: nat, at: seq<nat>, segs: seq<Segment>, e: Err)
    requires (t.TSlice? || t.TArray?) && v.NixList? && i < |v.items|
    requires Denotes(env, v.items[i], t.elem, at + [i], segs + [Index(i)], e)
    ensures Denotes(env, v, t, at, segs, e)
  {
    var seg := Index(i);
    var rel, w, u, pos :| About(env, v.items[i], t.elem, at + [i], segs + [seg], e, rel, w, u, pos);
    ReportedBelow(e, u, segs, seg, rel);
    assert LeadsItem(v, t, i, at, [seg] + rel, w, u, pos);
    assert About(env, v, t, at, segs, e, [seg] + rel, w, u, pos);
  }

  /** The path of an error leads through value and type to the decoding step the error is true of. */
  lemma {:induction false} ErrorDenotesPosition(env: Env, v: Nix, t: GoType, was: Go, at: seq<nat>, segs: seq<Segment>)
    requires HasType(t, was)
    requires Decode(env, v, t, was, at, segs).err.Some?
    ensures Denotes(env, v, t, at, segs, Decode(env, v, t, was, at, segs).err.value)
    decreases v, t, 1, 0
  {
    if !(Works(env, at, Force) && Works(env, at, TypeOf)) || (!t.TPointer? && Shape(v, t, segs).Some?) {
      OwnErrorDenotes(env, v, t, was, at, segs);
    } else if t.TPointer? {
      if !v.NixNull? {
        ErrorDenotesPosition(env, v, t.elem, Pointee(t.elem, was), at + [0], segs);
        DenotesPointee(env, v, t, at, segs, Decode(env, v, t, was, at, segs).err.value);
      }
    } else if t.TStruct? {
      var k := FieldsStop(env, v, t, was.fields, 0, at, segs);
      FieldDenotes(env, v, t, k, was.fields[k], at, segs);
    } else if t.TMap? {
      MapDenotes(env, v, t, was, at, segs);
    } else if t.TSlice? {
      SliceDenotes(env, v, t, was, at, segs);
    } else if t.TArray? {
      ArrayDenotes(env, v, t, was, at, segs);
    } else {
      ScalarDenotes(env, v, t, was, at, segs);
    }
  }

  /** The value cannot be forced or inspected, or has the wrong shape. */
  lemma OwnErrorDenotes(env: Env, v: Nix, t: GoType, was: Go, at: seq<nat>, segs: seq<Segment>)
    requires HasType(t, was)
    requires !(Works(env, at, Force) && Works(env, at, TypeOf)) || (!t.TPointer? && Shape(v, t, segs).Some?)
    ensures var r := Decode(env, v, t, was, at, segs);
      r.err.Some? && Denotes(env, v, t, at, segs, r.err.value)
  {
    var e := Decode(env, v, t, was, at, segs).err;
    if Works(env, at, Force) && Works(env, at, TypeOf) {
      ShapeFirst(env, v, t, was, at, segs);
    }
    DenotesHere(env, v, t, at, segs, e.value);
  }

  lemma ScalarDenotes(env: Env, v: Nix, t: GoType, was: Go, at: seq<nat>, segs: seq<Segment>)
    requires HasType(t, was) && Works(env, at, Force) && Works(env, at, TypeOf) && Shape(v, t, segs).None?
    requires t.TBool? || t.TString? || t.TInt? || t.TUint? || t.TFloat? || t.TInterface? || t.TOther?
    requires Decode(env, v, t, was, at, segs).err.Some?
    ensures Denotes(env, v, t, at, segs, Decode(env, v, t, was, at, segs).err.value)
  {
    DenotesHere(env, v, t, at, segs, DecodeScalar(env, v, t, was, at, segs).err.value);
  }

  lemma {:induction false} MapDenotes(env: Env, v: Nix, t: GoType, was: Go, at: seq<nat>, segs: seq<Segment>)
    requires t.TMap? && HasType(t, was) && Works(env, at, Force) && Works(env, at, TypeOf) && Shape(v, t, segs).None?
    requires Decode(env, v, t, was, at, segs).err.Some?
    ensures Denotes(env, v, t, at, segs, Decode(env, v, t, was, at, segs).err.value)
    decreases v, t, 0, 1
  {
    if env.fails(Call(at, AttrLen)) {
      DenotesHere(env, v, t, at, segs, ApiError(AttrLen, segs));
    } else {
      var k := EntriesStop(env, v, t.elem, map[], 0, at, segs);
      EntryDenotes(env, v, t, k, at, segs);
    }
  }

  lemma {:induction false} SliceDenotes(env: Env, v: Nix, t: GoType, was: Go, at: seq<nat>, segs: seq<Segment>)
    requires t.TSlice? && HasType(t, was) && Works(env, at, Force) && Works(env, at, TypeOf) && v.NixList?
    requires Decode(env, v, t, was, at, segs).err.Some?
    ensures Denotes(env, v, t, at, segs, Decode(env, v, t, was, at, segs).err.value)
    decreases v, t, 0, 1
  {
    if env.fails(Call(at, ListLen)) {
      DenotesHere(env, v, t, at, segs, ApiError(ListLen, segs));
    } else {
      var start := Repeat(Zero(t.elem), |v.items|);
      var k := ItemsStop(env, v, t.elem, start, 0, at, segs);
      ItemDenotes(env, v, t, k, start[k], at, segs);
    }
  }

  lemma {:induction false} ArrayDenotes(env: Env, v: Nix, t: GoType, was: Go, at: seq<nat>, segs: seq<Segment>)
    requires t.TArray? && HasType(t, was) && Works(env, at, Force) && Works(env, at, TypeOf) && v.NixList?
    requires Decode(env, v, t, was, at, segs).err.Some?
    ensures Denotes(env, v, t, at, segs, Decode(env, v, t, was, at, segs).err.value)
    decreases v, t, 0, 1
  {
    if env.fails(Call(at, ListLen)) || |v.items| != t.len {
      DenotesHere(env, v, t, at, segs, Decode(env, v, t, was, at, segs).err.value);
    } else {
      var k := ItemsStop(env, v, t.elem, was.items, 0, at, segs);
      ItemDenotes(env, v, t, k, was.items[k], at, segs);
    }
  }

  lemma {:induction false} FieldDenotes(env: Env, v: Nix, t: GoType, k: nat, was: Go, at: seq<nat>, segs: seq<Segment>)
    requires v.NixAttrs? && t.TStruct? && k < |t.fields| && HasType(t.fields[k].typ, was)
    requires DecodeField(env, v, t, k, was, at, segs).err.Some?
    ensures Denotes(env, v, t, at, segs, DecodeField(env, v, t, k, was, at, segs).err.value)
    decreases v, t, 0, 1
  {
    var f := t.fields[k];
    var e, j := DecodeField(env, v, t, k, was, at, segs).err.value, Find(v.attrs, f.attr);
    if env.fails(Call(at, HasAttr(k))) || j.None? || env.fails(Call(at, GetAttr(k))) {
      assert j.None? && !env.fails(Call(at, HasAttr(k))) ==> Requires(f, f.attr);
      DenotesHere(env, v, t, at, segs, e);
    } else {
      MatchedDenotes(env, v, t, k, j.value, was, at, segs);
    }
  }

  lemma {:induction false} MatchedDenotes(env: Env, v: Nix, t: GoType, k: nat, j: nat, was: Go, at: seq<nat>,
                                          segs: seq<Segment>)
    requires v.NixAttrs? && t.TStruct? && k < |t.fields| && HasType(t.fields[k].typ, was) && Active(t.fields[k])
    requires Works(env, at, HasAttr(k)) && Works(env, at, GetAttr(k)) && Find(v.attrs, t.fields[k].attr) == Some(j)
    requires DecodeField(env, v, t, k, was, at, segs).err.Some?
    ensures Denotes(env, v, t, at, segs, DecodeField(env, v, t, k, was, at, segs).err.value)
    decreases v, t, 0, 0
  {
    var f := t.fields[k];
    var e := DecodeField(env, v, t, k, was, at, segs).err.value;
    if Decode(env, v.attrs[j].value, f.typ, was, at + [k], segs + [Attr(f.attr)]).err.Some? {
      ErrorDenotesPosition(env, v.attrs[j].value, f.typ, was, at + [k], segs + [Attr(f.attr)]);
      DenotesField(env, v, t, k, at, segs, e);
    } else {
      DenotesHere(env, v, t, at, segs, e);
    }
  }

  lemma {:induction false} EntryDenotes(env: Env, v: Nix, t: GoType, k: nat, at: seq<nat>, segs: seq<Segment>)
    requires v.NixAttrs? && t.TMap? && k < |v.attrs|
    requires DecodeEntry(env, v, t.elem, k, at, segs).err.Some?
    ensures Denotes(env, v, t, at, segs, DecodeEntry(env, v, t.elem, k, at, segs).err.value)
    decreases v, t, 0, 0
  {
    var e, child, path := DecodeEntry(env, v, t.elem, k, at, segs).err.value, v.attrs[k].value,
      segs + [Attr(v.attrs[k].name)];
    if env.fails(Call(at, AttrName(k))) || env.fails(Call(at, AttrByIndex(k)))
      || Decode(env, child, t.elem, Zero(t.elem), at + [k], path).err.None? {
      DenotesHere(env, v, t, at, segs, e);
    } else {
      ErrorDenotesPosition(env, child, t.elem, Zero(t.elem), at + [k], path);
      DenotesEntry(env, v, t, k, at, segs, e);
    }
  }

  lemma {:induction false} ItemDenotes(env: Env, v: Nix, t: GoType, k: nat, was: Go, at: seq<nat>, segs: seq<Segment>)
    requires v.NixList? && (t.TSlice? || t.TArray?) && k < |v.items| && HasType(t.elem, was)
    requires DecodeItem(env, v, t.elem, k, was, at, segs).err.Some?
    ensures Denotes(env, v, t, at, segs, DecodeItem(env, v, t.elem, k, was, at, segs).err.value)
    decreases v, t, 0, 0
  {
    var e, child, path := DecodeItem(env, v, t.elem, k, was, at, segs).err.value, v.items[k], segs + [Index(k)];
    if env.fails(Call(at, GetIndex(k))) || Decode(env, child, t.elem, was, at + [k], path).err.None? {
      DenotesHere(env, v, t, at, segs, e);
    } else {
      ErrorDenotesPosition(env, child, t.elem, was, at + [k], path);
      DenotesItem(env, v, t, k, at, segs, e);
    }
  }

  /** What a value that fits is made of fits as well. */
  lemma {:induction false} LeadsToFit(env: Env, v: Nix, t: GoType, at: seq<nat>, rel: seq<Segment>, w: Nix, u: GoType,
                                      pos: seq<nat>)
    requires Leads(v, t, at, rel, w, u, pos) && Fits(env, v, t, at)
    ensures Fits(env, w, u, pos)
    decreases v, t, 1
  {
    if rel == [] && v == w && t == u && at == pos {
    } else if t.TPointer? {
      LeadsToFit(env, v, t.elem, at + [0], rel, w, u, pos);
    } else if t.TStruct? {
      var i :| 0 <= i < |t.fields| && LeadsField(v, t, i, at, rel, w, u, pos);
      FieldLeadsToFit(env, v, t, i, at, rel, w, u, pos);
    } else if t.TMap? {
      var i :| 0 <= i < |v.attrs| && LeadsEntry(v, t, i, at, rel, w, u, pos);
      EntryLeadsToFit(env, v, t, i, at, rel, w, u, pos);
    } else {
      var i :| 0 <= i < |v.items| && LeadsItem(v, t, i, at, rel, w, u, pos);
      ItemLeadsToFit(env, v, t, i, at, rel, w, u, pos);
    }
  }

  lemma {:induction false} FieldLeadsToFit(env: Env, v: Nix, t: GoType, i: nat, at: seq<nat>, rel: seq<Segment>,
                                           w: Nix, u: GoType, pos: seq<nat>)
    requires t.TStruct? && v.NixAttrs? && i < |t.fields| && LeadsField(v, t, i, at, rel, w, u, pos)
    requires FitsField(env, v, t, i, at)
    ensures Fits(env, w, u, pos)
    decreases v, t, 0
  {
    var k := Find(v.attrs, t.fields[i].attr).value;
    LeadsToFit(env, v.attrs[k].value, t.fields[i].typ, at + [i], rel[1..], w, u, pos);
  }

  lemma {:induction false} EntryLeadsToFit(env: Env, v: Nix, t: GoType, i: nat, at: seq<nat>, rel: seq<Segment>,
                                           w: Nix, u: GoType, pos: seq<nat>)
    requires t.TMap? && v.NixAttrs? && i < |v.attrs| && LeadsEntry(v, t, i, at, rel, w, u, pos)
    requires FitsEntry(env, v, t.elem, i, at)
    ensures Fits(env, w, u, pos)
    decreases v, t, 0
  {
    LeadsToFit(env, v.attrs[i].value, t.elem, at + [i], rel[1..], w, u, pos);
  }

  lemma {:induction false} ItemLeadsToFit(env: Env, v: Nix, t: GoType, i: nat, at: seq<nat>, rel: seq<Segment>, w: Nix,
                                          u: GoType, pos: seq<nat>)
    requires (t.TSlice? || t.TArray?) && v.NixList? && i < |v.items| && LeadsItem(v, t, i, at, rel, w, u, pos)
    requires FitsItem(env, v, t.elem, i, at)
    ensures Fits(env, w, u, pos)
    decreases v, t, 0
  {
    LeadsToFit(env, v.items[i], t.elem, at + [i], rel[1..], w, u, pos);
  }

  /** An error that is true of a value says that it does not fit. */
  lemma BlamedDoesNotFit(env: Env, e: Err, w: Nix, u: GoType, pos: seq<nat>)
    requires Blames(env, e, w, u, pos)
    ensures !Fits(env, w, u, pos)
  {
    if e.MissingAttr? {
      var i :| 0 <= i < |u.fields| && Requires(u.fields[i], e.attr);
      assert !FitsField(env, w, u, i, pos);
    } else if e.ApiError? {
      FailedDoesNotFit(env, e.op, w, u, pos);
    }
  }

  lemma FailedDoesNotFit(env: Env, op: Op, w: Nix, u: GoType, pos: seq<nat>)
    requires env.fails(Call(pos, op)) && Applies(op, u, w)
    ensures !Fits(env, w, u, pos)
  {
    if u.TStruct? && (op.HasAttr? || op.GetAttr? || op.CloseChild?) {
      assert !FitsField(env, w, u, op.i, pos);
    } else if u.TMap? && (op.AttrName? || op.AttrByIndex? || op.CloseChild?) {
      assert !FitsEntry(env, w, u.elem, op.i, pos);
    } else if op.GetIndex? || op.CloseChild? {
      assert !FitsItem(env, w, u.elem, op.i, pos);
    }
  }

  /** Only values that do not fit have an error that denotes a position in them: the decoder cannot
      report a false one. */
  lemma DenotesMisfit(env: Env, v: Nix, t: GoType, at: seq<nat>, segs: seq<Segment>, e: Err)
    requires Denotes(env, v, t, at, segs, e)
    ensures !Fits(env, v, t, at)
  {
    var rel, w, u, pos :| About(env, v, t, at, segs, e, rel, w, u, pos);
    BlamedDoesNotFit(env, e, w, u, pos);
    if Fits(env, v, t, at) {
      LeadsToFit(env, v, t, at, rel, w, u, pos);
    }
  }
}
