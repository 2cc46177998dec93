/** Which parts of a Go target a decode may change: the fields it must not touch, those that receive
    an attribute, and what new elements start from. */
module TargetFields {
  import opened Optional
  import opened PathPrinter
  import opened Values
  import opened Decoder
  import opened DecodeMeaning

  // ---- fields that are never touched ----

  /** Every unexported or skipped field of `g`, however deep, holds what it held in `was`; the elements
      of a new slice or map, and a new pointee, started from the zero value. */
  ghost predicate KeepsHidden(t: GoType, was: Go, g: Go)
    requires HasType(t, was) && HasType(t, g)
    decreases t, 0
  {
    match t
    case TStruct(fields) => forall i | 0 <= i < |fields| :: KeepsField(fields[i], was.fields[i], g.fields[i])
    case TArray(_, elem) => KeepsElements(elem, was.items, g.items)
    case TPointer(elem) =>
      g.GoPointer? ==> KeepsHidden(elem, if was.GoPointer? then was.target else Zero(elem), g.target)
    case TSlice(elem) => g == was || NewElements(elem, g.items)
    case TMap(_, elem) => g == was || KeepsEntries(elem, g.entries)
    case _ => true
  }

  ghost predicate KeepsField(f: Field, was: Go, g: Go)
    requires HasType(f.typ, was) && HasType(f.typ, g)
    decreases f
  {
    if !f.exported || f.skip then g == was else KeepsHidden(f.typ, was, g)
  }

  ghost predicate KeepsElements(elem: GoType, was: seq<Go>, gs: seq<Go>)
    decreases elem, 1
  {
    && |gs| == |was|
    && forall i | 0 <= i < |gs| :: HasType(elem, was[i]) && HasType(elem, gs[i]) && KeepsHidden(elem, was[i], gs[i])
  }

  ghost predicate NewElements(elem: GoType, gs: seq<Go>)
    decreases elem, 1
  {
    forall i | 0 <= i < |gs| :: HasType(elem, gs[i]) && KeepsHidden(elem, Zero(elem), gs[i])
  }

  ghost predicate KeepsEntries(elem: GoType, entries: map<string, Go>)
    decreases elem, 1
  {
    forall k | k in entries :: HasType(elem, entries[k]) && KeepsHidden(elem, Zero(elem), entries[k])
  }

  lemma {:induction false} KeepsSame(t: GoType, g: Go)
    requires HasType(t, g)
    ensures KeepsHidden(t, g, g)
    decreases t
  {
    match t
    case TStruct(fields) =>
      forall i | 0 <= i < |fields| ensures KeepsField(fields[i], g.fields[i], g.fields[i]) {
        KeepsSame(fields[i].typ, g.fields[i]);
      }
    case TArray(_, elem) =>
      forall i | 0 <= i < |g.items| ensures HasType(elem, g.items[i]) && KeepsHidden(elem, g.items[i], g.items[i]) {
        KeepsSame(elem, g.items[i]);
      }
    case TPointer(elem) =>
      if g.GoPointer? {
        KeepsSame(elem, g.target);
      }
    case _ =>
  }

  /** Whatever the value, the type, the old contents and the failing calls, and whether the decode
      succeeds or not: an unexported or skipped field keeps what it held. */
  lemma {:induction false} HiddenFieldsKept(env: Env, v: Nix, t: GoType, was: Go, at: seq<nat>, segs: seq<Segment>)
    requires HasType(t, was)
    ensures KeepsHidden(t, was, Decode(env, v, t, was, at, segs).val)
    decreases v, t, 1, 0
  {
    var r := Decode(env, v, t, was, at, segs);
    if !Works(env, at, Force) || !Works(env, at, TypeOf) || v.NixNull? || r.val == was {
      KeepsSame(t, was);
    } else {
      match t
      case TPointer(elem) =>
        HiddenFieldsKept(env, v, elem, Pointee(elem, was), at + [0], segs);
      case TStruct(_) =>
        FieldsKept(env, v, t, was.fields, 0, at, segs);
      case TSlice(elem) =>
        SliceKept(env, v, elem, at, segs);
      case TArray(_, elem) =>
        ItemsKept(env, v, elem, was.items, 0, at, segs);
      case TMap(_, elem) =>
        EntriesKept(env, v, elem, map[], 0, at, segs);
      case _ =>
    }
  }

  lemma {:induction false} FieldKept(env: Env, v: Nix, t: GoType, i: nat, was: Go, at: seq<nat>, segs: seq<Segment>)
    requires v.NixAttrs? && t.TStruct? && i < |t.fields| && HasType(t.fields[i].typ, was)
    ensures KeepsField(t.fields[i], was, DecodeField(env, v, t, i, was, at, segs).val)
    decreases v, t, 0, 1
  {
    var f := t.fields[i];
    KeepsSame(f.typ, was);
    if f.exported && !f.skip && Find(v.attrs, f.attr).Some? {
      MatchedKept(env, v, t, i, Find(v.attrs, f.attr).value, was, at, segs);
    }
  }

  lemma {:induction false} MatchedKept(env: Env, v: Nix, t: GoType, i: nat, k: nat, was: Go, at: seq<nat>,
                                       segs: seq<Segment>)
    requires v.NixAttrs? && t.TStruct? && i < |t.fields| && HasType(t.fields[i].typ, was)
    requires t.fields[i].exported && !t.fields[i].skip && Find(v.attrs, t.fields[i].attr) == Some(k)
    ensures KeepsHidden(t.fields[i].typ, was, DecodeField(env, v, t, i, was, at, segs).val)
    decreases v, t, 0, 0
  {
    var f := t.fields[i];
    KeepsSame(f.typ, was);
    HiddenFieldsKept(env, v.attrs[k].value, f.typ, was, at + [i], segs + [Attr(f.attr)]);
  }

  lemma {:induction false} FieldsKept(env: Env, v: Nix, t: GoType, vals: seq<Go>, i: nat, at: seq<nat>,
                                      segs: seq<Segment>)
    requires v.NixAttrs? && t.TStruct? && i <= |t.fields| && HasType(t, GoStruct(vals))
    ensures var out := DecodeFields(env, v, t, vals, i, at, segs).0;
      && (forall j | 0 <= j < |t.fields| :: KeepsField(t.fields[j], vals[j], out[j]))
      && (forall j | 0 <= j < i :: out[j] == vals[j])
    decreases v, t, 0, |t.fields| - i + 2
  {
    forall j | 0 <= j < |t.fields| ensures KeepsField(t.fields[j], vals[j], vals[j]) {
      KeepsSame(t.fields[j].typ, vals[j]);
    }
    if i < |t.fields| {
      FieldKept(env, v, t, i, vals[i], at, segs);
      var r := DecodeField(env, v, t, i, vals[i], at, segs);
      if r.err.None? {
        FieldsKept(env, v, t, vals[i := r.val], i + 1, at, segs);
      }
    }
  }

  /** One turn of the loop over list elements. */
  lemma {:induction false} ItemKept(env: Env, v: Nix, elem: GoType, vals: seq<Go>, i: nat, at: seq<nat>,
                                    segs: seq<Segment>)
    returns (next: seq<Go>, err: Option<Err>)
    requires v.NixList? && i < |v.items| == |vals| && AllOfType(elem, vals)
    ensures |next| == |vals| && AllOfType(elem, next) && forall j | 0 <= j < |vals| && j != i :: next[j] == vals[j]
    ensures KeepsHidden(elem, vals[i], next[i])
    ensures DecodeItems(env, v, elem, vals, i, at, segs)
      == if err.Some? then (next, err) else DecodeItems(env, v, elem, next, i + 1, at, segs)
    decreases v, elem, 0, 0
  {
    var r := DecodeItem(env, v, elem, i, vals[i], at, segs);
    next, err := vals[i := r.val], r.err;
    KeepsSame(elem, vals[i]);
    HiddenFieldsKept(env, v.items[i], elem, vals[i], at + [i], segs + [Index(i)]);
  }

  lemma {:induction false} ItemsKept(env: Env, v: Nix, elem: GoType, vals: seq<Go>, i: nat, at: seq<nat>,
                                     segs: seq<Segment>)
    requires v.NixList? && i <= |v.items| == |vals| && AllOfType(elem, vals)
    ensures var out := DecodeItems(env, v, elem, vals, i, at, segs).0;
      && KeepsElements(elem, vals, out)
      && (forall j | 0 <= j < i :: out[j] == vals[j])
    decreases v, elem, 0, |v.items| - i + 1, 1
  {
    if i == |v.items| {
      ElementsSame(elem, vals);
    } else {
      var next, err := ItemKept(env, v, elem, vals, i, at, segs);
      if err.None? {
        ItemsKeptLater(env, v, elem, vals, i, at, segs, next);
      } else {
        ElementsSame(elem, next);
        KeepsNext(elem, vals, i, next, next);
      }
    }
  }

  lemma {:induction false} ItemsKeptLater(env: Env, v: Nix, elem: GoType, vals: seq<Go>, i: nat, at: seq<nat>,
                                          segs: seq<Segment>, next: seq<Go>)
    requires v.NixList? && i < |v.items| == |vals| == |next| && AllOfType(elem, vals) && AllOfType(elem, next)
    requires forall j | 0 <= j < |vals| && j != i :: next[j] == vals[j]
    requires KeepsHidden(elem, vals[i], next[i])
    ensures var out := DecodeItems(env, v, elem, next, i + 1, at, segs).0;
      && KeepsElements(elem, vals, out)
      && (forall j | 0 <= j < i :: out[j] == vals[j])
    decreases v, elem, 0, |v.items| - i + 1, 0
  {
    ItemsKept(env, v, elem, next, i + 1, at, segs);
    KeepsNext(elem, vals, i, next, DecodeItems(env, v, elem, next, i + 1, at, segs).0);
  }

  lemma ElementsSame(elem: GoType, gs: seq<Go>)
    requires AllOfType(elem, gs)
    ensures KeepsElements(elem, gs, gs)
  {
    forall j | 0 <= j < |gs| ensures KeepsHidden(elem, gs[j], gs[j]) {
      KeepsSame(elem, gs[j]);
    }
  }

  lemma KeepsNext(elem: GoType, vals: seq<Go>, i: nat, next: seq<Go>, out: seq<Go>)
    requires AllOfType(elem, vals) && i < |vals| == |next| && forall j | 0 <= j < |vals| && j != i :: next[j] == vals[j]
    requires HasType(elem, next[i]) && KeepsHidden(elem, vals[i], next[i])
    requires KeepsElements(elem, next, out) && out[i] == next[i]
    ensures KeepsElements(elem, vals, out)
  {
    forall j | 0 <= j < |out| ensures HasType(elem, out[j]) && KeepsHidden(elem, vals[j], out[j]) {
      assert KeepsHidden(elem, next[j], out[j]);
    }
  }

  lemma {:induction false} SliceKept(env: Env, v: Nix, elem: GoType, at: seq<nat>, segs: seq<Segment>)
    requires v.NixList?
    ensures NewElements(elem, DecodeItems(env, v, elem, Repeat(Zero(elem), |v.items|), 0, at, segs).0)
    decreases v, elem, 0, |v.items| + 2
  {
    var zeros := Repeat(Zero(elem), |v.items|);
    ItemsKept(env, v, elem, zeros, 0, at, segs);
    var out := DecodeItems(env, v, elem, zeros, 0, at, segs).0;
    forall j | 0 <= j < |out| ensures HasType(elem, out[j]) && KeepsHidden(elem, Zero(elem), out[j]) {
      assert KeepsHidden(elem, zeros[j], out[j]);
    }
  }

  /** One turn of the loop over a map's attributes. */
  lemma {:induction false} EntryKept(env: Env, v: Nix, elem: GoType, entries: map<string, Go>, i: nat, at: seq<nat>,
                                     segs: seq<Segment>)
    returns (next: map<string, Go>, err: Option<Err>)
    requires v.NixAttrs? && i < |v.attrs| && KeepsEntries(elem, entries)
    ensures KeepsEntries(elem, next)
    ensures DecodeEntries(env, v, elem, entries, i, at, segs)
      == if err.Some? then (entries, err) else DecodeEntries(env, v, elem, next, i + 1, at, segs)
    decreases v, elem, 0, 0
  {
    var r := DecodeEntry(env, v, elem, i, at, segs);
    next, err := entries[v.attrs[i].name := r.val], r.err;
    KeepsSame(elem, Zero(elem));
    HiddenFieldsKept(env, v.attrs[i].value, elem, Zero(elem), at + [i], segs + [Attr(v.attrs[i].name)]);
  }

  lemma {:induction false} EntriesKept(env: Env, v: Nix, elem: GoType, entries: map<string, Go>, i: nat, at: seq<nat>,
                                       segs: seq<Segment>)
    requires v.NixAttrs? && i <= |v.attrs| && KeepsEntries(elem, entries)
    ensures KeepsEntries(elem, DecodeEntries(env, v, elem, entries, i, at, segs).0)
    decreases v, elem, 0, |v.attrs| - i + 1
  {
    if i < |v.attrs| {
      var next, err := EntryKept(env, v, elem, entries, i, at, segs);
      if err.None? {
        EntriesKept(env, v, elem, next, i + 1, at, segs);
      }
    }
  }

  // ---- what an unexported or skipped field is does not matter ----

  /** `t` with field `i` declared otherwise, unexported or skipped before and after. */
  ghost predicate Redeclared(t: GoType, i: nat, f: Field, u: GoType) {
    && t.TStruct? && i < |t.fields| && u == TStruct(t.fields[i := f])
    && (!t.fields[i].exported || t.fields[i].skip)
    && (!f.exported || f.skip)
  }

  lemma FieldIgnores(env: Env, v: Nix, t: GoType, i: nat, f: Field, u: GoType, j: nat, was: Go, other: Go,
                     at: seq<nat>, segs: seq<Segment>)
    requires v.NixAttrs? && Redeclared(t, i, f, u) && j < |t.fields| && HasType(t.fields[j].typ, was)
    requires HasType(u.fields[j].typ, other) && (j != i ==> other == was)
    ensures var r, q := DecodeField(env, v, t, j, was, at, segs), DecodeField(env, v, u, j, other, at, segs);
      && q.err == r.err && (if j == i then r == Res(was, None) && q == Res(other, None) else q.val == r.val)
  {
    assert j != i ==> u.fields[j] == t.fields[j];
  }

  lemma {:induction false} FieldsIgnore(env: Env, v: Nix, t: GoType, i: nat, f: Field, u: GoType, vals: seq<Go>, x: Go,
                                        j: nat, at: seq<nat>, segs: seq<Segment>)
    requires v.NixAttrs? && Redeclared(t, i, f, u) && j <= |t.fields|
    requires HasType(t, GoStruct(vals)) && HasType(f.typ, x) && HasType(u, GoStruct(vals[i := x]))
    ensures var (out, err) := DecodeFields(env, v, t, vals, j, at, segs);
      |out| == |vals| && DecodeFields(env, v, u, vals[i := x], j, at, segs) == (out[i := x], err)
    decreases |t.fields| - j
  {
    if j < |t.fields| {
      var others := vals[i := x];
      FieldIgnores(env, v, t, i, f, u, j, vals[j], others[j], at, segs);
      var r, q := DecodeField(env, v, t, j, vals[j], at, segs), DecodeField(env, v, u, j, others[j], at, segs);
      var next := vals[j := r.val];
      assert others[j := q.val] == next[i := x];
      if r.err.None? {
        FieldsIgnore(env, v, t, i, f, u, next, x, j + 1, at, segs);
      }
    }
  }

  /** However an unexported or skipped field is declared, and whatever it holds: the rest of the target
      is left the same, and the error is the same but for the struct type that a value of another kind
      cannot be decoded into. */
  lemma HiddenFieldIgnored(env: Env, v: Nix, t: GoType, i: nat, f: Field, u: GoType, was: Go, x: Go, at: seq<nat>,
                           segs: seq<Segment>)
    requires Redeclared(t, i, f, u) && HasType(t, was) && HasType(f.typ, x)
    requires HasType(u, GoStruct(was.fields[i := x]))
    ensures var r, q := Decode(env, v, t, was, at, segs), Decode(env, v, u, GoStruct(was.fields[i := x]), at, segs);
      && |r.val.fields| == |was.fields| && q.val == GoStruct(r.val.fields[i := x])
      && (if Works(env, at, Force) && Works(env, at, TypeOf) && !v.NixAttrs?
          then r.err == Some(TypeMismatch(OfKind(v), t, segs)) && q.err == Some(TypeMismatch(OfKind(v), u, segs))
          else q.err == r.err)
  {
    if v.NixAttrs? {
      FieldsIgnore(env, v, t, i, f, u, was.fields, x, 0, at, segs);
    }
  }

  // ---- fields that receive an attribute ----

  /** After a successful decode into a struct an exported field that is not skipped holds the meaning of
      the attribute of its name; without one, which only a field that is not required can be, it holds
      what it held. */
  lemma ExportedFieldReceives(env: Env, v: Nix, t: GoType, was: Go, i: nat, at: seq<nat>, segs: seq<Segment>)
    requires t.TStruct? && i < |t.fields| && t.fields[i].exported && !t.fields[i].skip && HasType(t, was)
    requires Decode(env, v, t, was, at, segs).err.None?
    ensures v.NixAttrs? && Decode(env, v, t, was, at, segs).val.GoStruct?
    ensures var f, g := t.fields[i], Decode(env, v, t, was, at, segs).val.fields[i];
      && (DistinctNames(v.attrs) ==>
            forall w | Binding(f.attr, w) in v.attrs :: Means(env, w, f.typ, was.fields[i], g))
      && ((forall b <- v.attrs :: b.name != f.attr) ==> !f.required && g == was.fields[i])
  {
    DecodeCorrect(env, v, t, was, at, segs);
    var f, g := t.fields[i], Decode(env, v, t, was, at, segs).val.fields[i];
    assert MeansField(env, v, t, i, was.fields[i], g) && FitsField(env, v, t, i, at);
    forall w | DistinctNames(v.attrs) && Binding(f.attr, w) in v.attrs ensures Means(env, w, f.typ, was.fields[i], g) {
      var k :| 0 <= k < |v.attrs| && v.attrs[k] == Binding(f.attr, w);
      assert Find(v.attrs, f.attr) == Some(k);
    }
  }

  /** A required field without an attribute of its name stops the decode. */
  lemma RequiredFieldMissing(env: Env, v: Nix, t: GoType, was: Go, i: nat, at: seq<nat>, segs: seq<Segment>)
    requires t.TStruct? && i < |t.fields| && t.fields[i].exported && !t.fields[i].skip && HasType(t, was)
    requires t.fields[i].required && v.NixAttrs? && forall b <- v.attrs :: b.name != t.fields[i].attr
    ensures Decode(env, v, t, was, at, segs).err.Some?
  {
    if Decode(env, v, t, was, at, segs).err.None? {
      ExportedFieldReceives(env, v, t, was, i, at, segs);
    }
  }

  // ---- what new elements start from ----

  /** False, zero, empty or nil, all the way down. */
  ghost predicate Blank(t: GoType, g: Go)
    decreases t
  {
    match t
    case TBool => g == GoBool(false)
    case TString => g == GoString("")
    case TInt(_) => g == GoInt(0)
    case TUint(_) => g == GoUint(0)
    case TFloat(_) => g == GoFloat(Finite(0.0))
    case TSlice(_) => g == GoSlice(true, [])
    case TMap(_, _) => g == GoMap(true, map[])
    case TPointer(_) => g == GoNilPointer
    case TInterface => g == GoNilInterface
    case TOther => g == GoOther
    case TArray(len, elem) => g.GoArray? && |g.items| == len && forall x <- g.items :: Blank(elem, x)
    case TStruct(fields) =>
      g.GoStruct? && |g.fields| == |fields| && forall i | 0 <= i < |fields| :: Blank(fields[i].typ, g.fields[i])
  }

  lemma {:induction false} ZeroIsBlank(t: GoType)
    ensures Blank(t, Zero(t))
    decreases t
  {
    match t
    case TArray(len, elem) => ZeroIsBlank(elem);
    case TStruct(fields) => ZerosAreBlank(fields);
    case _ =>
  }

  lemma {:induction false} ZerosAreBlank(fields: seq<Field>)
    ensures forall i | 0 <= i < |fields| :: Blank(fields[i].typ, Zeros(fields)[i])
    decreases fields
  {
    if fields != [] {
      ZeroIsBlank(fields[0].typ);
      ZerosAreBlank(fields[1..]);
    }
  }

  /** A pointer that is not nil keeps its pointee and decodes into it; a nil pointer gets a blank one. */
  lemma PointeeIsKept(env: Env, v: Nix, elem: GoType, was: Go, at: seq<nat>, segs: seq<Segment>)
    requires HasType(TPointer(elem), was) && !v.NixNull? && Works(env, at, Force) && Works(env, at, TypeOf)
    ensures var r := Decode(env, v, TPointer(elem), was, at, segs);
      if was.GoPointer? then
        var q := Decode(env, v, elem, was.target, at + [0], segs); r == Res(GoPointer(q.val), q.err)
      else
        exists z | Blank(elem, z) && HasType(elem, z) ::
          var q := Decode(env, v, elem, z, at + [0], segs); r == Res(GoPointer(q.val), q.err)
  {
    ZeroIsBlank(elem);
  }

  /** Each element of a new slice is decoded into a blank element of its own. */
  lemma ElementsStartBlank(env: Env, v: Nix, elem: GoType, was: Go, at: seq<nat>, segs: seq<Segment>, k: nat)
    requires HasType(TSlice(elem), was) && Decode(env, v, TSlice(elem), was, at, segs).err.None?
    requires v.NixList? && k < |v.items|
    ensures var g := Decode(env, v, TSlice(elem), was, at, segs).val;
      && g.GoSlice? && !g.isNil && |g.items| == |v.items|
      && exists z | Blank(elem, z) && HasType(elem, z) :: Means(env, v.items[k], elem, z, g.items[k])
  {
    DecodeCorrect(env, v, TSlice(elem), was, at, segs);
    var g := Decode(env, v, TSlice(elem), was, at, segs).val;
    assert MeansItem(env, v, elem, k, Zero(elem), g.items[k]);
    ZeroIsBlank(elem);
  }

  /** Each entry of a new map is decoded into a blank element of its own. */
  lemma EntriesStartBlank(env: Env, v: Nix, elem: GoType, key: GoType, was: Go, at: seq<nat>, segs: seq<Segment>,
                          k: nat)
    requires HasType(TMap(key, elem), was) && Decode(env, v, TMap(key, elem), was, at, segs).err.None?
    requires v.NixAttrs? && k < |v.attrs| && DistinctNames(v.attrs)
    ensures var g, b := Decode(env, v, TMap(key, elem), was, at, segs).val, v.attrs[k];
      && g.GoMap? && !g.isNil && b.name in g.entries
      && exists z | Blank(elem, z) && HasType(elem, z) :: Means(env, b.value, elem, z, g.entries[b.name])
  {
    DecodeCorrect(env, v, TMap(key, elem), was, at, segs);
    var g, b := Decode(env, v, TMap(key, elem), was, at, segs).val, v.attrs[k];
    assert MeansKey(env, v, elem, map[], 0, |v.attrs|, g.entries, b.name);
    var last := FindLast(v.attrs, b.name, 0, |v.attrs|);
    assert last == Some(k);
    ZeroIsBlank(elem);
  }

  // ---- the ranges of the number types ----

  lemma Powers()
    ensures Pow2(7) == 128 && Pow2(8) == 256 && Pow2(15) == 32768 && Pow2(16) == 65536
    ensures Pow2(31) == 2147483648 && Pow2(32) == 4294967296
    ensures Pow2(63) == 9223372036854775808 && Pow2(64) == 18446744073709551616
  {
    assert Pow2(4) == 16 && Pow2(8) == 256 && Pow2(12) == 4096 && Pow2(16) == 65536;
    assert Pow2(20) == 1048576 && Pow2(24) == 16777216 && Pow2(28) == 268435456 && Pow2(32) == 4294967296;
    assert Pow2(36) == 68719476736 && Pow2(40) == 1099511627776 && Pow2(44) == 17592186044416;
    assert Pow2(48) == 281474976710656 && Pow2(52) == 4503599627370496 && Pow2(56) == 72057594037927936;
    assert Pow2(60) == 1152921504606846976;
  }

  /** The numbers that Go's integer types hold, written out. */
  lemma IntegerRanges(i: int, n: nat)
    ensures OverflowInt(8, i) <==> !(-128 <= i <= 127)
    ensures OverflowInt(16, i) <==> !(-32768 <= i <= 32767)
    ensures OverflowInt(32, i) <==> !(-2147483648 <= i <= 2147483647)
    ensures OverflowInt(64, i) <==> !(-9223372036854775808 <= i <= 9223372036854775807)
    ensures OverflowUint(8, n) <==> n > 255
    ensures OverflowUint(16, n) <==> n > 65535
    ensures OverflowUint(32, n) <==> n > 4294967295
    ensures OverflowUint(64, n) <==> n > 18446744073709551615
    ensures MAX_INT64 == 9223372036854775807
  {
    Powers();
  }

  /** The largest finite 32-bit float is (2^24 - 1) * 2^104; only 32-bit targets have a limit, and only
      for finite numbers. */
  lemma FloatRange(bits: nat, f: Float)
    ensures MAX_FLOAT32 == ((Pow2(24) - 1) * Pow2(104)) as real
    ensures OverflowFloat(bits, f) <==> bits == 32 && f.Finite? && (f.r > MAX_FLOAT32 || -f.r > MAX_FLOAT32)
  {
    Powers();
    assert Pow2(24) == 16777216;
    assert Pow2(68) == 295147905179352825856 && Pow2(72) == 4722366482869645213696;
    assert Pow2(76) == 75557863725914323419136 && Pow2(80) == 1208925819614629174706176;
    assert Pow2(84) == 19342813113834066795298816 && Pow2(88) == 309485009821345068724781056;
    assert Pow2(92) == 4951760157141521099596496896 && Pow2(96) == 79228162514264337593543950336;
    assert Pow2(100) == 1267650600228229401496703205376 && Pow2(104) == 20282409603651670423947251286016;
  }

  /** What a successful decode stores in a boolean, a string, an integer and a float. */
  lemma ScalarIsStored(env: Env, v: Nix, t: GoType, was: Go, at: seq<nat>, segs: seq<Segment>)
    requires HasType(t, was) && Decode(env, v, t, was, at, segs).err.None?
    ensures var g := Decode(env, v, t, was, at, segs).val;
      && (t.TBool? ==> v.NixBool? && g == GoBool(v.b))
      && (t.TString? ==> (v.NixString? && g == GoString(v.s)) || (v.NixPath? && g == GoString(v.s)))
      && (t.TInt? ==> v.NixInt? && g == GoInt(v.i))
      && (t.TUint? ==> v.NixInt? && v.i >= 0 && g == GoUint(v.i))
      && (t.TFloat? ==> v.NixFloat? && g == GoFloat(if t.bits == 32 then env.round32(v.f) else v.f))
  {}
}
