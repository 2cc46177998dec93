/** What `Evaluator.Unmarshal` computes, as a function of the Nix value, the target's type and
    old contents, and the set of raw calls that fail. */
module Decoder {
  import opened Optional
  import opened PathPrinter
  import opened Values

  /** The raw calls made for one position: those on the value itself, and those that obtain
      or release its i-th child. */
  datatype Op =
    | Force
    | TypeOf
    | Getter
    | AttrLen
    | ListLen
    | HasAttr(i: nat)
    | GetAttr(i: nat)
    | AttrName(i: nat)
    | AttrByIndex(i: nat)
    | GetIndex(i: nat)
    | CloseChild(i: nat)

  /** A raw call is identified by the position it is made for: field, element or attribute
      numbers from the root, with a 0 for every pointer followed. No call is made twice. */
  datatype Call = Call(at: seq<nat>, op: Op)

  /** The outside world: Unicode tables, which raw calls fail, and conversion to a 32-bit float. */
  datatype Env = Env(cs: Charset, fails: Call -> bool, round32: Float -> Float)

  /** What an UnmarshalTypeError says it found. */
  datatype Found = OfKind(v: Nix) | OfLength(n: nat) | OfInteger(i: int) | OfFloat(f: Float)

  /** The errors of a decode; `P` is how they report a position. */
  datatype Error<P> =
    | TypeMismatch(found: Found, typ: GoType, path: P)
    | MissingAttr(attr: string, path: P)
    | Unsupported(typ: GoType, path: P)
    | ApiError(op: Op, path: P)

  type Err = Error<seq<Segment>>

  datatype Res = Res(val: Go, err: Option<Err>)

  function Mismatch(v: Nix, t: GoType, was: Go, segs: seq<Segment>): Res {
    Res(was, Some(TypeMismatch(OfKind(v), t, segs)))
  }

  function StoreFloat(env: Env, bits: nat, f: Float): Go {
    GoFloat(if bits == 32 then env.round32(f) else f)
  }

  /** The decoders of strings, booleans and numbers. */
  function DecodeScalar(env: Env, v: Nix, t: GoType, was: Go, at: seq<nat>, segs: seq<Segment>): (r: Res)
    requires HasType(t, was)
    ensures HasType(t, r.val)
    ensures r.err.Some? ==> r.val == was
  {
    var getterFailed := Res(was, Some(ApiError(Getter, segs)));
    match (t, v)
    case (TString, NixString(s)) => if env.fails(Call(at, Getter)) then getterFailed else Res(GoString(s), None)
    case (TString, NixPath(s)) => if env.fails(Call(at, Getter)) then getterFailed else Res(GoString(s), None)
    case (TBool, NixBool(b)) => if env.fails(Call(at, Getter)) then getterFailed else Res(GoBool(b), None)
    case (TInt(bits), NixInt(i)) =>
      if env.fails(Call(at, Getter)) then getterFailed
      else if OverflowInt(bits, i) then Res(was, Some(TypeMismatch(OfInteger(i), t, segs)))
      else Res(GoInt(i), None)
    case (TUint(bits), NixInt(i)) =>
      if env.fails(Call(at, Getter)) then getterFailed
      else if i < 0 || OverflowUint(bits, i) then Res(was, Some(TypeMismatch(OfInteger(i), t, segs)))
      else Res(GoUint(i), None)
    case (TFloat(bits), NixFloat(f)) =>
      if env.fails(Call(at, Getter)) then getterFailed
      else if OverflowFloat(bits, f) then Res(was, Some(TypeMismatch(OfFloat(f), t, segs)))
      else Res(StoreFloat(env, bits, f), None)
    case (TInterface, _) => Res(was, Some(Unsupported(t, segs)))
    case (TOther, _) => Res(was, Some(Unsupported(t, segs)))
    case _ => Mismatch(v, t, was, segs)
  }

  /** `unmarshalValue`. */
  function Decode(env: Env, v: Nix, t: GoType, was: Go, at: seq<nat>, segs: seq<Segment>): (r: Res)
    requires HasType(t, was)
    ensures HasType(t, r.val)
    decreases v, t, 1, 0
  {
    if env.fails(Call(at, Force)) then Res(was, Some(ApiError(Force, segs)))
    else if env.fails(Call(at, TypeOf)) then Res(was, Some(ApiError(TypeOf, segs)))
    else if v.NixNull? then
      if t.TPointer? then Res(GoNilPointer, None) else Mismatch(v, t, was, segs)
    else
      match t
      case TPointer(elem) =>
        var r := Decode(env, v, elem, Pointee(elem, was), at + [0], segs);
        Res(GoPointer(r.val), r.err)
      case TStruct(_) =>
        if !v.NixAttrs? then Mismatch(v, t, was, segs)
        else
          var (vals, err) := DecodeFields(env, v, t, was.fields, 0, at, segs);
          Res(GoStruct(vals), err)
      case TMap(key, elem) =>
        if !v.NixAttrs? then Mismatch(v, t, was, segs)
        else if !key.TString? then Res(was, Some(Unsupported(t, segs)))
        else if env.fails(Call(at, AttrLen)) then Res(was, Some(ApiError(AttrLen, segs)))
        else
          var (entries, err) := DecodeEntries(env, v, elem, map[], 0, at, segs);
          if err.Some? then Res(was, err) else Res(GoMap(false, entries), None)
      case TSlice(elem) =>
        if !v.NixList? then Mismatch(v, t, was, segs)
        else if env.fails(Call(at, ListLen)) then Res(was, Some(ApiError(ListLen, segs)))
        else
          var (items, err) := DecodeItems(env, v, elem, Repeat(Zero(elem), |v.items|), 0, at, segs);
          if err.Some? then Res(was, err) else Res(GoSlice(false, items), None)
      case TArray(len, elem) =>
        if !v.NixList? then Mismatch(v, t, was, segs)
        else if env.fails(Call(at, ListLen)) then Res(was, Some(ApiError(ListLen, segs)))
        else if |v.items| != len then Res(was, Some(TypeMismatch(OfLength(|v.items|), t, segs)))
        else
          var (items, err) := DecodeItems(env, v, elem, was.items, 0, at, segs);
          Res(GoArray(items), err)
      case _ => DecodeScalar(env, v, t, was, at, segs)
  }

  /** What a pointer target is decoded into: its pointee, or a fresh zero value. */
  function Pointee(elem: GoType, was: Go): (g: Go)
    requires HasType(TPointer(elem), was)
    ensures HasType(elem, g)
  {
    if was.GoPointer? then was.target else Zero(elem)
  }

  /** The outcome for one struct field: its new value and what stops the loop, if anything. */
  function DecodeField(env: Env, v: Nix, t: GoType, i: nat, val: Go, at: seq<nat>, segs: seq<Segment>): (r: Res)
    requires v.NixAttrs? && t.TStruct? && i < |t.fields| && HasType(t.fields[i].typ, val)
    ensures HasType(t.fields[i].typ, r.val)
    decreases v, t, 0, 0
  {
    var f := t.fields[i];
    if !Active(f) then Res(val, None)
    else if env.fails(Call(at, HasAttr(i))) then Res(val, Some(ApiError(HasAttr(i), segs)))
    else
      match Find(v.attrs, f.attr)
      case None => Res(val, if f.required then Some(MissingAttr(f.attr, segs + [Attr(f.attr)])) else None)
      case Some(k) =>
        if env.fails(Call(at, GetAttr(i))) then Res(val, Some(ApiError(GetAttr(i), segs)))
        else
          var r := Decode(env, v.attrs[k].value, f.typ, val, at + [i], segs + [Attr(f.attr)]);
          if r.err.None? && env.fails(Call(at, CloseChild(i))) then Res(r.val, Some(ApiError(CloseChild(i), segs)))
          else r
  }

  /** The loop of `unmarshalStruct` from field `i` on. */
  function DecodeFields(env: Env, v: Nix, t: GoType, vals: seq<Go>, i: nat, at: seq<nat>, segs: seq<Segment>)
    : (r: (seq<Go>, Option<Err>))
    requires v.NixAttrs? && t.TStruct? && i <= |t.fields| && HasType(t, GoStruct(vals))
    ensures HasType(t, GoStruct(r.0))
    decreases v, t, 0, |t.fields| - i + 1
  {
    if i == |t.fields| then (vals, None)
    else
      var r := DecodeField(env, v, t, i, vals[i], at, segs);
      if r.err.Some? then (vals[i := r.val], r.err)
      else DecodeFields(env, v, t, vals[i := r.val], i + 1, at, segs)
  }

  /** One attribute of a map target: a fresh zero element is decoded. */
  function DecodeEntry(env: Env, v: Nix, elem: GoType, i: nat, at: seq<nat>, segs: seq<Segment>): (r: Res)
    requires v.NixAttrs? && i < |v.attrs|
    ensures HasType(elem, r.val)
    decreases v, elem, 0, 0
  {
    var zero := Zero(elem);
    if env.fails(Call(at, AttrName(i))) then Res(zero, Some(ApiError(AttrName(i), segs)))
    else if env.fails(Call(at, AttrByIndex(i))) then Res(zero, Some(ApiError(AttrByIndex(i), segs)))
    else
      var r := Decode(env, v.attrs[i].value, elem, zero, at + [i], segs + [Attr(v.attrs[i].name)]);
      if r.err.None? && env.fails(Call(at, CloseChild(i))) then Res(r.val, Some(ApiError(CloseChild(i), segs)))
      else r
  }

  /** The loop of `unmarshalMap` from attribute `i` on. */
  function DecodeEntries(env: Env, v: Nix, elem: GoType, entries: map<string, Go>, i: nat, at: seq<nat>,
                         segs: seq<Segment>)
    : (r: (map<string, Go>, Option<Err>))
    requires v.NixAttrs? && i <= |v.attrs|
    requires forall k | k in entries :: HasType(elem, entries[k])
    ensures forall k | k in r.0 :: HasType(elem, r.0[k])
    decreases v, elem, 0, |v.attrs| - i + 1
  {
    if i == |v.attrs| then (entries, None)
    else
      var r := DecodeEntry(env, v, elem, i, at, segs);
      if r.err.Some? then (entries, r.err)
      else DecodeEntries(env, v, elem, entries[v.attrs[i].name := r.val], i + 1, at, segs)
  }

  /** `unmarshalIndex`. */
  function DecodeItem(env: Env, v: Nix, elem: GoType, i: nat, val: Go, at: seq<nat>, segs: seq<Segment>): (r: Res)
    requires v.NixList? && i < |v.items| && HasType(elem, val)
    ensures HasType(elem, r.val)
    decreases v, elem, 0, 0
  {
    var path := segs + [Index(i)];
    if env.fails(Call(at, GetIndex(i))) then Res(val, Some(ApiError(GetIndex(i), path)))
    else
      var r := Decode(env, v.items[i], elem, val, at + [i], path);
      if r.err.None? && env.fails(Call(at, CloseChild(i))) then Res(r.val, Some(ApiError(CloseChild(i), path)))
      else r
  }

  /** The loop of `unmarshalSlice` and `unmarshalArray` from element `i` on. */
  function DecodeItems(env: Env, v: Nix, elem: GoType, vals: seq<Go>, i: nat, at: seq<nat>, segs: seq<Segment>)
    : (r: (seq<Go>, Option<Err>))
    requires v.NixList? && i <= |v.items| == |vals| && AllOfType(elem, vals)
    ensures |r.0| == |vals| && AllOfType(elem, r.0)
    decreases v, elem, 0, |v.items| - i + 1
  {
    if i == |v.items| then (vals, None)
    else
      var r := DecodeItem(env, v, elem, i, vals[i], at, segs);
      if r.err.Some? then (vals[i := r.val], r.err)
      else DecodeItems(env, v, elem, vals[i := r.val], i + 1, at, segs)
  }
}
