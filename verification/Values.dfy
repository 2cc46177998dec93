/** Nix values, Go types and Go values, as `eval` sees them. */
module Values {
  import opened Optional

  // ---- Nix ----

  /** A 64-bit floating-point number. */
  datatype Float = NaN | Infinity(negative: bool) | Finite(r: real)

  /** Value kinds no Go type can receive. */
  datatype Opaque = Thunk | Function | External | Failed

  /** One attribute. A set lists its attributes in the order Nix enumerates them. */
  datatype Binding = Binding(name: string, value: Nix)

  datatype Nix =
    | NixNull
    | NixBool(b: bool)
    | NixInt(i: int)
    | NixFloat(f: Float)
    | NixString(s: string)
    | NixPath(s: string)
    | NixAttrs(attrs: seq<Binding>)
    | NixList(items: seq<Nix>)
    | NixOpaque(kind: Opaque)

  /** The position of the attribute called `name`. */
  function Find(attrs: seq<Binding>, name: string): (k: Option<nat>)
    ensures k.Some? ==> k.value < |attrs| && attrs[k.value].name == name
    ensures k.None? ==> forall j | 0 <= j < |attrs| :: attrs[j].name != name
  {
    if attrs == [] then None
    else if attrs[0].name == name then Some(0)
    else
      match Find(attrs[1..], name)
      case None => None
      case Some(k) => Some(k + 1)
  }

  ghost predicate DistinctNames(attrs: seq<Binding>) {
    forall i, j | 0 <= i < j < |attrs| :: attrs[i].name != attrs[j].name
  }

  // ---- Go types ----

  /** A struct field: `exported` is false when reflect reports a package path, `skip` when the
      nix tag is "-", and `attr` is the attribute the field is matched with. */
  datatype Field = Field(attr: string, exported: bool, skip: bool, required: bool, typ: GoType)

  datatype GoType =
    | TBool
    | TString
    | TInt(bits: nat)
    | TUint(bits: nat)
    | TFloat(bits: nat)
    | TSlice(elem: GoType)
    | TArray(len: nat, elem: GoType)
    | TMap(key: GoType, elem: GoType)
    | TStruct(fields: seq<Field>)
    | TPointer(elem: GoType)
    | TInterface
    | TOther

  /** The fields that take part in decoding. */
  predicate Active(f: Field) {
    f.exported && !f.skip
  }

  // ---- Go values ----

  datatype Go =
    | GoBool(b: bool)
    | GoString(s: string)
    | GoInt(i: int)
    | GoUint(n: nat)
    | GoFloat(f: Float)
    | GoSlice(isNil: bool, items: seq<Go>)
    | GoArray(items: seq<Go>)
    | GoMap(isNil: bool, entries: map<string, Go>)
    | GoStruct(fields: seq<Go>)
    | GoNilPointer
    | GoPointer(target: Go)
    | GoNilInterface
    | GoInterface(typ: GoType, dynamic: Go)
    | GoOther

  function Pow2(n: nat): (p: nat)
    ensures p > 0
  {
    if n == 0 then 1 else 2 * Pow2(n - 1)
  }

  /** `reflect.Value.OverflowInt` and `OverflowUint`. */
  predicate OverflowInt(bits: nat, i: int) {
    bits > 0 && !(0 - Pow2(bits - 1) <= i < Pow2(bits - 1))
  }

  predicate OverflowUint(bits: nat, n: nat) {
    n >= Pow2(bits)
  }

  /** The largest finite 32-bit float, (2^24 - 1) * 2^104. */
  const MAX_FLOAT32: real := 340282346638528859811704183484516925440.0

  const MAX_INT64: int := 0x7fff_ffff_ffff_ffff

  /** `reflect.Value.OverflowFloat`: finite and beyond the largest 32-bit float. */
  predicate OverflowFloat(bits: nat, f: Float) {
    bits == 32 && f.Finite? && !(-MAX_FLOAT32 <= f.r <= MAX_FLOAT32)
  }

  /** `g` is a value of the Go type `t`. */
  ghost predicate HasType(t: GoType, g: Go)
    decreases g
  {
    match t
    case TBool => g.GoBool?
    case TString => g.GoString?
    case TInt(bits) => g.GoInt? && !OverflowInt(bits, g.i)
    case TUint(bits) => g.GoUint? && !OverflowUint(bits, g.n)
    case TFloat(bits) => g.GoFloat?
    case TSlice(elem) => g.GoSlice? && (g.isNil ==> g.items == []) && AllOfType(elem, g.items)
    case TArray(len, elem) => g.GoArray? && |g.items| == len && AllOfType(elem, g.items)
    case TMap(key, elem) =>
      g.GoMap? && (g.isNil ==> g.entries == map[]) && forall k | k in g.entries :: HasType(elem, g.entries[k])
    case TStruct(fields) =>
      g.GoStruct? && |g.fields| == |fields| && forall i | 0 <= i < |fields| :: HasType(fields[i].typ, g.fields[i])
    case TPointer(elem) => g.GoNilPointer? || (g.GoPointer? && HasType(elem, g.target))
    case TInterface => g.GoNilInterface? || (g.GoInterface? && HasType(g.typ, g.dynamic))
    case TOther => g.GoOther?
  }

  ghost predicate AllOfType(t: GoType, gs: seq<Go>)
    decreases gs
  {
    forall i | 0 <= i < |gs| :: HasType(t, gs[i])
  }

  /** The zero value of a type. */
  function Zero(t: GoType): (g: Go)
    ensures HasType(t, g)
  {
    match t
    case TBool => GoBool(false)
    case TString => GoString("")
    case TInt(_) => GoInt(0)
    case TUint(_) => GoUint(0)
    case TFloat(_) => GoFloat(Finite(0.0))
    case TSlice(_) => GoSlice(true, [])
    case TArray(len, elem) => GoArray(Repeat(Zero(elem), len))
    case TMap(_, _) => GoMap(true, map[])
    case TStruct(fields) => GoStruct(Zeros(fields))
    case TPointer(_) => GoNilPointer
    case TInterface => GoNilInterface
    case TOther => GoOther
  }

  function Zeros(fields: seq<Field>): (gs: seq<Go>)
    ensures |gs| == |fields|
    ensures forall i | 0 <= i < |fields| :: HasType(fields[i].typ, gs[i])
  {
    if fields == [] then [] else [Zero(fields[0].typ)] + Zeros(fields[1..])
  }

  function Repeat(g: Go, n: nat): (gs: seq<Go>)
    ensures |gs| == n && forall i | 0 <= i < n :: gs[i] == g
  {
    if n == 0 then [] else [g] + Repeat(g, n - 1)
  }
}
