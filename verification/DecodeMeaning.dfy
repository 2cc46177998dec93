/** When a decode succeeds, what it then stores, and what a failed one leaves behind,
    stated without following the decoder. */
module DecodeMeaning {
  import opened Optional
  import opened PathPrinter
  import opened Values
  import opened Decoder

  // ---- when a decode succeeds ----

  /** The value can be received by a Go type that has no children. */
  predicate FitsScalar(v: Nix, t: GoType) {
    match t
    case TBool => v.NixBool?
    case TString => v.NixString? || v.NixPath?
    case TInt(bits) => v.NixInt? && !OverflowInt(bits, v.i)
    case TUint(bits) => v.NixInt? && 0 <= v.i && !OverflowUint(bits, v.i)
    case TFloat(bits) => v.NixFloat? && !OverflowFloat(bits, v.f)
    case _ => false
  }

  /** The raw call succeeds. */
  predicate Works(env: Env, at: seq<nat>, op: Op) {
    !env.fails(Call(at, op))
  }

  /** `v` at position `at` can be decoded into `t`. */
  ghost predicate Fits(env: Env, v: Nix, t: GoType, at: seq<nat>)
    decreases v, t, 1
  {
    Works(env, at, Force) && Works(env, at, TypeOf) &&
    match t
    case TPointer(elem) => v.NixNull? || Fits(env, v, elem, at + [0])
    case TStruct(fields) => v.NixAttrs? && forall i | 0 <= i < |fields| :: FitsField(env, v, t, i, at)
    case TMap(key, elem) =>
      v.NixAttrs? && key.TString? && Works(env, at, AttrLen)
      && forall i | 0 <= i < |v.attrs| :: FitsEntry(env, v, elem, i, at)
    case TSlice(elem) =>
      v.NixList? && Works(env, at, ListLen) && forall i | 0 <= i < |v.items| :: FitsItem(env, v, elem, i, at)
    case TArray(len, elem) =>
      v.NixList? && |v.items| == len && Works(env, at, ListLen)
      && forall i | 0 <= i < |v.items| :: FitsItem(env, v, elem, i, at)
    case _ => FitsScalar(v, t) && Works(env, at, Getter)
  }

  ghost predicate FitsField(env: Env, v: Nix, t: GoType, i: nat, at: seq<nat>)
    requires v.NixAttrs? && t.TStruct? && i < |t.fields|
    decreases v, t, 0
  {
    var f := t.fields[i];
    Active(f) ==>
      Works(env, at, HasAttr(i)) &&
      match Find(v.attrs, f.attr)
      case None => !f.required
      case Some(k) =>
        Works(env, at, GetAttr(i)) && Works(env, at, CloseChild(i)) && Fits(env, v.attrs[k].value, f.typ, at + [i])
  }

  ghost predicate FitsEntry(env: Env, v: Nix, elem: GoType, i: nat, at: seq<nat>)
    requires v.NixAttrs? && i < |v.attrs|
    decreases v, elem, 0
  {
    Works(env, at, AttrName(i)) && Works(env, at, AttrByIndex(i)) && Works(env, at, CloseChild(i))
      && Fits(env, v.attrs[i].value, elem, at + [i])
  }

  ghost predicate FitsItem(env: Env, v: Nix, elem: GoType, i: nat, at: seq<nat>)
    requires v.NixList? && i < |v.items|
    decreases v, elem, 0
  {
    Works(env, at, GetIndex(i)) && Works(env, at, CloseChild(i)) && Fits(env, v.items[i], elem, at + [i])
  }

  // ---- what a successful decode stores ----

  ghost predicate MeansScalar(env: Env, v: Nix, t: GoType, g: Go) {
    match (t, v)
    case (TBool, NixBool(b)) => g == GoBool(b)
    case (TString, NixString(s)) => g == GoString(s)
    case (TString, NixPath(s)) => g == GoString(s)
    case (TInt(_), NixInt(i)) => g == GoInt(i)
    case (TUint(_), NixInt(i)) => 0 <= i && g == GoUint(i)
    case (TFloat(bits), NixFloat(f)) => g == StoreFloat(env, bits, f)
    case _ => false
  }

  /** `g` is what a target of type `t` that held `was` holds once `v` is decoded into it. */
  ghost predicate Means(env: Env, v: Nix, t: GoType, was: Go, g: Go)
    requires HasType(t, was)
    decreases v, t, 1
  {
    match t
    case TPointer(elem) =>
      if v.NixNull? then g.GoNilPointer? else g.GoPointer? && Means(env, v, elem, Pointee(elem, was), g.target)
    case TStruct(fields) =>
      v.NixAttrs? && g.GoStruct? && |g.fields| == |fields|
      && forall i | 0 <= i < |fields| :: MeansField(env, v, t, i, was.fields[i], g.fields[i])
    case TMap(_, elem) =>
      v.NixAttrs? && g.GoMap? && !g.isNil && forall name :: MeansKey(env, v, elem, map[], 0, |v.attrs|, g.entries, name)
    case TSlice(elem) =>
      v.NixList? && g.GoSlice? && !g.isNil && |g.items| == |v.items|
      && forall i | 0 <= i < |v.items| :: MeansItem(env, v, elem, i, Zero(elem), g.items[i])
    case TArray(len, elem) =>
      v.NixList? && g.GoArray? && |g.items| == |v.items| == len && AllOfType(elem, was.items)
      && forall i | 0 <= i < |v.items| :: MeansItem(env, v, elem, i, was.items[i], g.items[i])
    case _ => MeansScalar(env, v, t, g)
  }

  /** A matched field receives its attribute; every other field keeps its contents. */
  ghost predicate MeansField(env: Env, v: Nix, t: GoType, i: nat, was: Go, g: Go)
    requires v.NixAttrs? && t.TStruct? && i < |t.fields| && HasType(t.fields[i].typ, was)
    decreases v, t, 0
  {
    var f := t.fields[i];
    var k := Find(v.attrs, f.attr);
    if Active(f) && k.Some? then Means(env, v.attrs[k.value].value, f.typ, was, g) else g == was
  }

  ghost predicate MeansItem(env: Env, v: Nix, elem: GoType, i: nat, was: Go, g: Go)
    requires v.NixList? && i < |v.items| && HasType(elem, was)
    decreases v, elem, 0
  {
    Means(env, v.items[i], elem, was, g)
  }

  /** The last attribute called `name` among those from `i` on and before `stop`. */
  function FindLast(attrs: seq<Binding>, name: string, i: nat, stop: nat): (k: Option<nat>)
    requires i <= stop <= |attrs|
    ensures k.Some? ==> i <= k.value < stop && attrs[k.value].name == name
    ensures k.None? ==> forall j | i <= j < stop :: attrs[j].name != name
    decreases stop - i
  {
    if i == stop then None
    else
      match FindLast(attrs, name, i + 1, stop)
      case Some(k) => Some(k)
      case None => if attrs[i].name == name then Some(i) else None
  }

  /** The key `name` of a map that held `was` before attributes `i` up to `stop` were decoded into it. */
  ghost predicate MeansKey(env: Env, v: Nix, elem: GoType, was: map<string, Go>, i: nat, stop: nat,
                           g: map<string, Go>, name: string)
    requires v.NixAttrs? && i <= stop <= |v.attrs|
    decreases v, elem, 0
  {
    match FindLast(v.attrs, name, i, stop)
    case Some(k) => name in g && Means(env, v.attrs[k].value, elem, Zero(elem), g[name])
    case None => (name in g <==> name in was) && (name in g ==> g[name] == was[name])
  }

  // ---- the decoder agrees ----

  lemma LeafCorrect(env: Env, v: Nix, t: GoType, was: Go, at: seq<nat>, segs: seq<Segment>)
    requires HasType(t, was) && Works(env, at, Force) && Works(env, at, TypeOf)
    requires t.TBool? || t.TString? || t.TInt? || t.TUint? || t.TFloat? || t.TInterface? || t.TOther?
    ensures var r := Decode(env, v, t, was, at, segs);
      && (r.err.None? <==> Fits(env, v, t, at))
      && (r.err.None? ==> Means(env, v, t, was, r.val))
  {}

  /** A decode succeeds exactly when the value fits, and then stores exactly its meaning. */
  lemma {:induction false} DecodeCorrect(env: Env, v: Nix, t: GoType, was: Go, at: seq<nat>, segs: seq<Segment>)
    requires HasType(t, was)
    ensures var r := Decode(env, v, t, was, at, segs);
      && (r.err.None? <==> Fits(env, v, t, at))
      && (r.err.None? ==> Means(env, v, t, was, r.val))
    decreases v, t, 1, 1
  {
    if Works(env, at, Force) && Works(env, at, TypeOf) {
      KindCorrect(env, v, t, was, at, segs);
    } else {
      UnreadableFails(env, v, t, was, at, segs);
    }
  }

  lemma UnreadableFails(env: Env, v: Nix, t: GoType, was: Go, at: seq<nat>, segs: seq<Segment>)
    requires HasType(t, was) && !(Works(env, at, Force) && Works(env, at, TypeOf))
    ensures Decode(env, v, t, was, at, segs).err.Some? && !Fits(env, v, t, at)
  {}

  lemma {:induction false} KindCorrect(env: Env, v: Nix, t: GoType, was: Go, at: seq<nat>, segs: seq<Segment>)
    requires HasType(t, was) && Works(env, at, Force) && Works(env, at, TypeOf)
    ensures var r := Decode(env, v, t, was, at, segs);
      && (r.err.None? <==> Fits(env, v, t, at))
      && (r.err.None? ==> Means(env, v, t, was, r.val))
    decreases v, t, 1, 0
  {
    if t.TPointer? {
      PointerCorrect(env, v, t, was, at, segs);
    } else if t.TStruct? {
      StructCorrect(env, v, t, was, at, segs);
    } else if t.TMap? {
      MapCorrect(env, v, t, was, at, segs);
    } else {
      OtherCorrect(env, v, t, was, at, segs);
    }
  }

  lemma {:induction false} OtherCorrect(env: Env, v: Nix, t: GoType, was: Go, at: seq<nat>, segs: seq<Segment>)
    requires !t.TPointer? && !t.TStruct? && !t.TMap?
    requires HasType(t, was) && Works(env, at, Force) && Works(env, at, TypeOf)
    ensures var r := Decode(env, v, t, was, at, segs);
      && (r.err.None? <==> Fits(env, v, t, at))
      && (r.err.None? ==> Means(env, v, t, was, r.val))
    decreases v, t, 0, 1
  {
    if t.TSlice? {
      SliceCorrect(env, v, t, was, at, segs);
    } else if t.TArray? {
      ArrayCorrect(env, v, t, was, at, segs);
    } else {
      LeafCorrect(env, v, t, was, at, segs);
    }
  }

  lemma {:induction false} PointerCorrect(env: Env, v: Nix, t: GoType, was: Go, at: seq<nat>, segs: seq<Segment>)
    requires t.TPointer? && HasType(t, was) && Works(env, at, Force) && Works(env, at, TypeOf)
    ensures var r := Decode(env, v, t, was, at, segs);
      && (r.err.None? <==> Fits(env, v, t, at))
      && (r.err.None? ==> Means(env, v, t, was, r.val))
    decreases v, t, 0, 0
  {
    if !v.NixNull? {
      DecodeCorrect(env, v, t.elem, Pointee(t.elem, was), at + [0], segs);
    }
  }

  lemma {:induction false} StructCorrect(env: Env, v: Nix, t: GoType, was: Go, at: seq<nat>, segs: seq<Segment>)
    requires t.TStruct? && HasType(t, was) && Works(env, at, Force) && Works(env, at, TypeOf)
    ensures var r := Decode(env, v, t, was, at, segs);
      && (r.err.None? <==> Fits(env, v, t, at))
      && (r.err.None? ==> Means(env, v, t, was, r.val))
    decreases v, t, 0, |t.fields| + 2
  {
    if v.NixAttrs? {
      var k := FieldsStop(env, v, t, was.fields, 0, at, segs);
    }
  }

  lemma {:induction false} MapCorrect(env: Env, v: Nix, t: GoType, was: Go, at: seq<nat>, segs: seq<Segment>)
    requires t.TMap? && HasType(t, was) && Works(env, at, Force) && Works(env, at, TypeOf)
    ensures var r := Decode(env, v, t, was, at, segs);
      && (r.err.None? <==> Fits(env, v, t, at))
      && (r.err.None? ==> Means(env, v, t, was, r.val))
    decreases v, t, 0, 0
  {
    if v.NixAttrs? && t.key.TString? && Works(env, at, AttrLen) {
      var k := EntriesStop(env, v, t.elem, map[], 0, at, segs);
    }
  }

  lemma {:induction false} SliceCorrect(env: Env, v: Nix, t: GoType, was: Go, at: seq<nat>, segs: seq<Segment>)
    requires t.TSlice? && HasType(t, was) && Works(env, at, Force) && Works(env, at, TypeOf)
    ensures var r := Decode(env, v, t, was, at, segs);
      && (r.err.None? <==> Fits(env, v, t, at))
      && (r.err.None? ==> Means(env, v, t, was, r.val))
    decreases v, t, 0, 0
  {
    if v.NixList? && Works(env, at, ListLen) {
      var k := ItemsStop(env, v, t.elem, Repeat(Zero(t.elem), |v.items|), 0, at, segs);
    }
  }

  lemma {:induction false} ArrayCorrect(env: Env, v: Nix, t: GoType, was: Go, at: seq<nat>, segs: seq<Segment>)
    requires t.TArray? && HasType(t, was) && Works(env, at, Force) && Works(env, at, TypeOf)
    ensures var r := Decode(env, v, t, was, at, segs);
      && (r.err.None? <==> Fits(env, v, t, at))
      && (r.err.None? ==> Means(env, v, t, was, r.val))
    decreases v, t, 0, 0
  {
    if v.NixList? && Works(env, at, ListLen) && |v.items| == t.len {
      var k := ItemsStop(env, v, t.elem, was.items, 0, at, segs);
    }
  }

  lemma {:induction false} FieldCorrect(env: Env, v: Nix, t: GoType, i: nat, was: Go, at: seq<nat>, segs: seq<Segment>)
    requires v.NixAttrs? && t.TStruct? && i < |t.fields| && HasType(t.fields[i].typ, was)
    ensures var r := DecodeField(env, v, t, i, was, at, segs);
      && (r.err.None? <==> FitsField(env, v, t, i, at))
      && (r.err.None? ==> MeansField(env, v, t, i, was, r.val))
    decreases v, t, 0, 1
  {
    var f := t.fields[i];
    if Active(f) && Works(env, at, HasAttr(i)) && Find(v.attrs, f.attr).Some? {
      MatchedCorrect(env, v, t, i, Find(v.attrs, f.attr).value, was, at, segs);
    }
  }

  lemma {:induction false} MatchedCorrect(env: Env, v: Nix, t: GoType, i: nat, k: nat, was: Go, at: seq<nat>,
                                          segs: seq<Segment>)
    requires v.NixAttrs? && t.TStruct? && i < |t.fields| && HasType(t.fields[i].typ, was)
    requires Active(t.fields[i]) && Works(env, at, HasAttr(i)) && Find(v.attrs, t.fields[i].attr) == Some(k)
    ensures var r := DecodeField(env, v, t, i, was, at, segs);
      && (r.err.None? <==> FitsField(env, v, t, i, at))
      && (r.err.None? ==> MeansField(env, v, t, i, was, r.val))
    decreases v, t, 0, 0
  {
    var f := t.fields[i];
    DecodeCorrect(env, v.attrs[k].value, f.typ, was, at + [i], segs + [Attr(f.attr)]);
  }

  /** Where the struct loop stops: `k` is the first field from `i` on that does not fit, or the
      end. Fields before it hold their meaning, fields after it are untouched. */
  lemma {:induction false} FieldsStop(env: Env, v: Nix, t: GoType, vals: seq<Go>, i: nat, at: seq<nat>,
                                      segs: seq<Segment>)
    returns (k: nat)
    requires v.NixAttrs? && t.TStruct? && i <= |t.fields| && HasType(t, GoStruct(vals))
    ensures i <= k <= |t.fields|
    ensures var (out, err) := DecodeFields(env, v, t, vals, i, at, segs);
      && (err.None? <==> k == |t.fields|)
      && (forall j | i <= j < k :: FitsField(env, v, t, j, at) && MeansField(env, v, t, j, vals[j], out[j]))
      && (forall j | 0 <= j < i || k < j < |t.fields| :: out[j] == vals[j])
      && (k < |t.fields| ==>
            && !FitsField(env, v, t, k, at)
            && Res(out[k], err) == DecodeField(env, v, t, k, vals[k], at, segs))
    decreases v, t, 0, |t.fields| - i + 1
  {
    k := i;
    if i < |t.fields| {
      FieldCorrect(env, v, t, i, vals[i], at, segs);
      var r := DecodeField(env, v, t, i, vals[i], at, segs);
      if r.err.None? {
        k := FieldsStop(env, v, t, vals[i := r.val], i + 1, at, segs);
      }
    }
  }

  lemma {:induction false} ItemCorrect(env: Env, v: Nix, elem: GoType, i: nat, was: Go, at: seq<nat>,
                                       segs: seq<Segment>)
    requires v.NixList? && i < |v.items| && HasType(elem, was)
    ensures var r := DecodeItem(env, v, elem, i, was, at, segs);
      && (r.err.None? <==> FitsItem(env, v, elem, i, at))
      && (r.err.None? ==> MeansItem(env, v, elem, i, was, r.val))
    decreases v, elem, 0, 0
  {
    DecodeCorrect(env, v.items[i], elem, was, at + [i], segs + [Index(i)]);
  }

  /** Where the loop over list elements stops. */
  lemma {:induction false} ItemsStop(env: Env, v: Nix, elem: GoType, vals: seq<Go>, i: nat, at: seq<nat>,
                                     segs: seq<Segment>)
    returns (k: nat)
    requires v.NixList? && i <= |v.items| == |vals| && AllOfType(elem, vals)
    ensures i <= k <= |v.items|
    ensures var (out, err) := DecodeItems(env, v, elem, vals, i, at, segs);
      && (err.None? <==> k == |v.items|)
      && (forall j | i <= j < k :: FitsItem(env, v, elem, j, at) && MeansItem(env, v, elem, j, vals[j], out[j]))
      && (forall j | 0 <= j < i || k < j < |v.items| :: out[j] == vals[j])
      && (k < |v.items| ==>
            && !FitsItem(env, v, elem, k, at)
            && Res(out[k], err) == DecodeItem(env, v, elem, k, vals[k], at, segs))
    decreases v, elem, 0, |v.items| - i + 2, 1
  {
    k := i;
    if i < |v.items| {
      ItemCorrect(env, v, elem, i, vals[i], at, segs);
      var r := DecodeItem(env, v, elem, i, vals[i], at, segs);
      if r.err.None? {
        k := ItemsStopLater(env, v, elem, vals, i, at, segs, r.val);
      }
    }
  }

  lemma {:induction false} ItemsStopLater(env: Env, v: Nix, elem: GoType, vals: seq<Go>, i: nat, at: seq<nat>,
                                          segs: seq<Segment>, g: Go)
    returns (k: nat)
    requires v.NixList? && i < |v.items| == |vals| && AllOfType(elem, vals) && HasType(elem, g)
    requires DecodeItem(env, v, elem, i, vals[i], at, segs) == Res(g, None)
    requires FitsItem(env, v, elem, i, at) && MeansItem(env, v, elem, i, vals[i], g)
    ensures i < k <= |v.items|
    ensures var (out, err) := DecodeItems(env, v, elem, vals, i, at, segs);
      && (err.None? <==> k == |v.items|)
      && (forall j | i <= j < k :: FitsItem(env, v, elem, j, at) && MeansItem(env, v, elem, j, vals[j], out[j]))
      && (forall j | 0 <= j < i || k < j < |v.items| :: out[j] == vals[j])
      && (k < |v.items| ==>
            && !FitsItem(env, v, elem, k, at)
            && Res(out[k], err) == DecodeItem(env, v, elem, k, vals[k], at, segs))
    decreases v, elem, 0, |v.items| - i + 2, 0
  {
    k := ItemsStop(env, v, elem, vals[i := g], i + 1, at, segs);
  }

  lemma {:induction false} EntryCorrect(env: Env, v: Nix, elem: GoType, i: nat, at: seq<nat>, segs: seq<Segment>)
    requires v.NixAttrs? && i < |v.attrs|
    ensures var r := DecodeEntry(env, v, elem, i, at, segs);
      && (r.err.None? <==> FitsEntry(env, v, elem, i, at))
      && (r.err.None? ==> Means(env, v.attrs[i].value, elem, Zero(elem), r.val))
    decreases v, elem, 0, 0
  {
    DecodeCorrect(env, v.attrs[i].value, elem, Zero(elem), at + [i], segs + [Attr(v.attrs[i].name)]);
  }

  lemma MeansKeyStep(env: Env, v: Nix, elem: GoType, entries: map<string, Go>, i: nat, g: Go, j: nat, stop: nat,
                     next: map<string, Go>, out: map<string, Go>)
    requires v.NixAttrs? && i < j == i + 1 <= stop <= |v.attrs| && next == entries[v.attrs[i].name := g]
    requires Means(env, v.attrs[i].value, elem, Zero(elem), g)
    requires forall name :: MeansKey(env, v, elem, next, j, stop, out, name)
    ensures forall name :: MeansKey(env, v, elem, entries, i, stop, out, name)
  {
    forall name ensures MeansKey(env, v, elem, entries, i, stop, out, name) {
      assert MeansKey(env, v, elem, next, j, stop, out, name);
    }
  }

  /** Where the loop over a map's attributes stops: `k` is the first attribute from `i` on that does
      not fit, or the end. The entries collected by then are the meanings of the attributes before it. */
  lemma {:induction false} EntriesStop(env: Env, v: Nix, elem: GoType, entries: map<string, Go>, i: nat, at: seq<nat>,
                                       segs: seq<Segment>)
    returns (k: nat)
    requires v.NixAttrs? && i <= |v.attrs|
    requires forall n | n in entries :: HasType(elem, entries[n])
    ensures i <= k <= |v.attrs|
    ensures var (out, err) := DecodeEntries(env, v, elem, entries, i, at, segs);
      && (err.None? <==> k == |v.attrs|)
      && (forall j | i <= j < k :: FitsEntry(env, v, elem, j, at))
      && (k < |v.attrs| ==>
            && !FitsEntry(env, v, elem, k, at)
            && err == DecodeEntry(env, v, elem, k, at, segs).err)
      && (forall name :: MeansKey(env, v, elem, entries, i, k, out, name))
    decreases v, elem, 0, |v.attrs| - i + 2, 1
  {
    k := i;
    if i < |v.attrs| {
      EntryCorrect(env, v, elem, i, at, segs);
      var r := DecodeEntry(env, v, elem, i, at, segs);
      if r.err.None? {
        k := EntriesStopLater(env, v, elem, entries, i, at, segs, r.val);
      }
    }
  }

  lemma {:induction false} EntriesStopLater(env: Env, v: Nix, elem: GoType, entries: map<string, Go>, i: nat,
                                            at: seq<nat>, segs: seq<Segment>, g: Go)
    returns (k: nat)
    requires v.NixAttrs? && i < |v.attrs| && HasType(elem, g)
    requires forall n | n in entries :: HasType(elem, entries[n])
    requires DecodeEntry(env, v, elem, i, at, segs) == Res(g, None) && FitsEntry(env, v, elem, i, at)
    requires Means(env, v.attrs[i].value, elem, Zero(elem), g)
    ensures i < k <= |v.attrs|
    ensures var (out, err) := DecodeEntries(env, v, elem, entries, i, at, segs);
      && (err.None? <==> k == |v.attrs|)
      && (forall j | i <= j < k :: FitsEntry(env, v, elem, j, at))
      && (k < |v.attrs| ==>
            && !FitsEntry(env, v, elem, k, at)
            && err == DecodeEntry(env, v, elem, k, at, segs).err)
      && (forall name :: MeansKey(env, v, elem, entries, i, k, out, name))
    decreases v, elem, 0, |v.attrs| - i + 2, 0
  {
    var next := entries[v.attrs[i].name := g];
    k := EntriesStop(env, v, elem, next, i + 1, at, segs);
    MeansKeyStep(env, v, elem, entries, i, g, i + 1, k, next, DecodeEntries(env, v, elem, next, i + 1, at, segs).0);
  }
}
