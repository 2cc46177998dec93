/** From Go data to Nix values: the conversion of `eval/go_value.go` and what the builders of
    `eval/builders.go` make of its result. */
module GoValues {
  import opened PathPrinter
  import opened Values

  /** A `GoValue`: which builder will initialize the Nix value, and with what. */
  datatype GoValue =
    | Null
    | Bool(b: bool)
    | Int(i: int)
    | Float(f: Float)
    | String(s: string)
    | PathString(s: string)
    | List(items: seq<GoValue>)
    | Attrs(attrs: map<string, GoValue>)

  /** Why a conversion fails, and where. */
  datatype ConvertError<P> = Overflows(n: nat, path: P) | UnsupportedGo(typ: GoType, path: P)

  datatype Converted = Converted(value: GoValue) | NotConverted(error: ConvertError<string>)

  // ---- which Go values convert, and to what ----

  /** Interfaces are looked through, however deep. */
  predicate Convertible(t: GoType, g: Go)
    decreases g
  {
    match (t, g)
    case (TInterface, GoNilInterface) => true
    case (TInterface, GoInterface(dynamicType, dynamic)) => Convertible(dynamicType, dynamic)
    case (TBool, GoBool(_)) => true
    case (TString, GoString(_)) => true
    case (TInt(_), GoInt(_)) => true
    case (TUint(_), GoUint(n)) => n <= MAX_INT64
    case (TFloat(_), GoFloat(_)) => true
    case (TSlice(elem), GoSlice(_, items)) => forall i | 0 <= i < |items| :: Convertible(elem, items[i])
    case (TMap(key, elem), GoMap(_, entries)) =>
      key.TString? && forall k | k in entries :: Convertible(elem, entries[k])
    case _ => false
  }

  function Compile(t: GoType, g: Go): GoValue
    requires Convertible(t, g)
    decreases g
  {
    match (t, g)
    case (TInterface, GoNilInterface) => Null
    case (TInterface, GoInterface(dynamicType, dynamic)) => Compile(dynamicType, dynamic)
    case (TBool, GoBool(b)) => Bool(b)
    case (TString, GoString(s)) => String(s)
    case (TInt(_), GoInt(i)) => Int(i)
    case (TUint(_), GoUint(n)) => Int(n)
    case (TFloat(_), GoFloat(f)) => Float(f)
    case (TSlice(elem), GoSlice(_, items)) => List(seq(|items|, i requires 0 <= i < |items| => Compile(elem, items[i])))
    case (TMap(_, elem), GoMap(_, entries)) => Attrs(map k | k in entries :: Compile(elem, entries[k]))
  }

  /** `rel` leads from `g` to a part that does not convert by itself, which `e` describes; in a slice it is
      the first item that does not. */
  ghost predicate Rejects(t: GoType, g: Go, rel: seq<Segment>, e: ConvertError<seq<Segment>>)
    decreases g
  {
    match (t, g)
    case (TInterface, GoInterface(dynamicType, dynamic)) => Rejects(dynamicType, dynamic, rel, e)
    case (TInterface, _) => false
    case (TSlice(elem), GoSlice(_, items)) =>
      rel != [] && exists i | 0 <= i < |items| ::
        && rel[0] == Index(i % 0x1_0000_0000) && Rejects(elem, items[i], rel[1..], e)
        && forall j | 0 <= j < i :: Convertible(elem, items[j])
    case (TMap(key, elem), GoMap(_, entries)) =>
      if !key.TString? then rel == [] && e.UnsupportedGo? && e.typ == t
      else rel != [] && rel[0].Attr? && rel[0].name in entries && Rejects(elem, entries[rel[0].name], rel[1..], e)
    case (TUint(_), GoUint(n)) => rel == [] && n > MAX_INT64 && e.Overflows? && e.n == n
    case (TBool, _) => false
    case (TString, _) => false
    case (TInt(_), _) => false
    case (TFloat(_), _) => false
    case _ => rel == [] && e.UnsupportedGo? && e.typ == t
  }

  /** The two errors differ only in how they give the path. */
  predicate SameFault(e: ConvertError<string>, blame: ConvertError<seq<Segment>>) {
    match blame
    case Overflows(n, _) => e.Overflows? && e.n == n
    case UnsupportedGo(t, _) => e.UnsupportedGo? && e.typ == t
  }

  /** The printed error is that of a part that does not convert. */
  ghost predicate Explains(cs: Charset, t: GoType, g: Go, segs: seq<Segment>, e: ConvertError<string>) {
    exists rel, blame :: Rejects(t, g, rel, blame) && e.path == Render(cs, segs + rel) && SameFault(e, blame)
  }

  lemma ExplainsHere(cs: Charset, t: GoType, g: Go, segs: seq<Segment>, e: ConvertError<string>,
                     blame: ConvertError<seq<Segment>>)
    requires e.path == Render(cs, segs) && SameFault(e, blame) && Rejects(t, g, [], blame)
    ensures Explains(cs, t, g, segs, e)
  {
    assert segs + [] == segs;
  }

  lemma ExplainsItem(cs: Charset, t: GoType, g: Go, segs: seq<Segment>, i: nat, e: ConvertError<string>)
    requires t.TSlice? && g.GoSlice? && i < |g.items| && forall j | 0 <= j < i :: Convertible(t.elem, g.items[j])
    requires Explains(cs, t.elem, g.items[i], segs + [Index(i % 0x1_0000_0000)], e)
    ensures Explains(cs, t, g, segs, e)
  {
    var seg := Index(i % 0x1_0000_0000);
    var rel, blame :| Rejects(t.elem, g.items[i], rel, blame) && e.path == Render(cs, segs + [seg] + rel)
      && SameFault(e, blame);
    var longer := [seg] + rel;
    assert longer[1..] == rel && segs + [seg] + rel == segs + longer;
    assert Rejects(t, g, longer, blame);
  }

  lemma ExplainsEntry(cs: Charset, t: GoType, g: Go, segs: seq<Segment>, k: string, e: ConvertError<string>)
    requires t.TMap? && t.key.TString? && g.GoMap? && k in g.entries
    requires Explains(cs, t.elem, g.entries[k], segs + [Attr(k)], e)
    ensures Explains(cs, t, g, segs, e)
  {
    var seg := Attr(k);
    var rel, blame :| Rejects(t.elem, g.entries[k], rel, blame) && e.path == Render(cs, segs + [seg] + rel)
      && SameFault(e, blame);
    var longer := [seg] + rel;
    assert longer[1..] == rel && segs + [seg] + rel == segs + longer;
    assert Rejects(t, g, longer, blame);
  }

  /** A value with a rejected part does not convert. */
  lemma {:induction false} RejectedIsNotConvertible(t: GoType, g: Go, rel: seq<Segment>, e: ConvertError<seq<Segment>>)
    requires HasType(t, g) && Rejects(t, g, rel, e)
    ensures !Convertible(t, g)
    decreases g
  {
    match (t, g)
    case (TInterface, GoInterface(dynamicType, dynamic)) => RejectedIsNotConvertible(dynamicType, dynamic, rel, e);
    case (TSlice(elem), GoSlice(_, items)) =>
      var i :| 0 <= i < |items| && rel[0] == Index(i % 0x1_0000_0000) && Rejects(elem, items[i], rel[1..], e);
      RejectedIsNotConvertible(elem, items[i], rel[1..], e);
    case (TMap(key, elem), GoMap(_, entries)) =>
      if key.TString? {
        RejectedIsNotConvertible(elem, entries[rel[0].name], rel[1..], e);
      }
    case _ =>
  }

  /** `goValueFromReflect`: it converts exactly the convertible values, and otherwise names a
      part that does not convert. Maps are visited in whatever order their keys come. */
  method Convert(cs: Charset, t: GoType, g: Go, path: string, ghost segs: seq<Segment>) returns (r: Converted)
    requires HasType(t, g) && path == Render(cs, segs)
    ensures r.Converted? <==> Convertible(t, g)
    ensures r.Converted? ==> r.value == Compile(t, g)
    ensures r.NotConverted? ==> Explains(cs, t, g, segs, r.error)
    decreases g
  {
    var typ, value := t, g;
    while typ.TInterface?
      invariant HasType(typ, value) && (value == g || value < g)
      invariant Convertible(typ, value) == Convertible(t, g)
      invariant Convertible(t, g) ==> Compile(typ, value) == Compile(t, g)
      invariant forall rel, blame :: Rejects(typ, value, rel, blame) == Rejects(t, g, rel, blame)
      decreases value
    {
      if value.GoNilInterface? {
        return Converted(Null);
      }
      typ, value := value.typ, value.dynamic;
    }
    r := ConvertPlain(cs, typ, value, path, segs);
    if r.NotConverted? {
      ExplainsSame(cs, typ, value, t, g, segs, r.error);
    }
  }

  /** What explains an error in the value inside an interface explains it in the interface. */
  lemma ExplainsSame(cs: Charset, typ: GoType, value: Go, t: GoType, g: Go, segs: seq<Segment>, e: ConvertError<string>)
    requires Explains(cs, typ, value, segs, e)
    requires forall rel, blame :: Rejects(typ, value, rel, blame) == Rejects(t, g, rel, blame)
    ensures Explains(cs, t, g, segs, e)
  {
    var rel, blame :| Rejects(typ, value, rel, blame) && e.path == Render(cs, segs + rel) && SameFault(e, blame);
    assert Rejects(t, g, rel, blame);
  }

  /** The switch on the kind of a value that is no interface. */
  method ConvertPlain(cs: Charset, t: GoType, g: Go, path: string, ghost segs: seq<Segment>) returns (r: Converted)
    requires HasType(t, g) && path == Render(cs, segs) && !t.TInterface?
    ensures r.Converted? <==> Convertible(t, g)
    ensures r.Converted? ==> r.value == Compile(t, g)
    ensures r.NotConverted? ==> Explains(cs, t, g, segs, r.error)
    decreases g, 0
  {
    match t
    case TBool => return Converted(Bool(g.b));
    case TString => return Converted(String(g.s));
    case TInt(_) => return Converted(Int(g.i));
    case TUint(_) =>
      if g.n > MAX_INT64 {
        r := NotConverted(Overflows(g.n, path));
        ExplainsHere(cs, t, g, segs, r.error, Overflows(g.n, []));
        return;
      }
      return Converted(Int(g.n));
    case TFloat(_) => return Converted(Float(g.f));
    case TSlice(_) => r := ConvertSlice(cs, t, g, path, segs);
    case TMap(key, _) =>
      if !key.TString? {
        r := NotConverted(UnsupportedGo(t, path));
        ExplainsHere(cs, t, g, segs, r.error, UnsupportedGo(t, []));
        return;
      }
      r := ConvertMap(cs, t, g, path, segs);
    case TArray(_, _) | TStruct(_) | TPointer(_) | TOther =>
      r := NotConverted(UnsupportedGo(t, path));
      ExplainsHere(cs, t, g, segs, r.error, UnsupportedGo(t, []));
  }

  method ConvertSlice(cs: Charset, t: GoType, g: Go, path: string, ghost segs: seq<Segment>) returns (r: Converted)
    requires t.TSlice? && HasType(t, g) && path == Render(cs, segs)
    ensures r.Converted? <==> Convertible(t, g)
    ensures r.Converted? ==> r.value == Compile(t, g)
    ensures r.NotConverted? ==> Explains(cs, t, g, segs, r.error)
    decreases g, 0, 0
  {
    var items: seq<GoValue> := [];
    for i := 0 to |g.items|
      invariant |items| == i
      invariant forall j | 0 <= j < i :: Convertible(t.elem, g.items[j]) && items[j] == Compile(t.elem, g.items[j])
    {
      var index := i % 0x1_0000_0000;
      RenderChild(cs, segs, Index(index));
      var item := Convert(cs, t.elem, g.items[i], IndexPath(path, index), segs + [Index(index)]);
      if item.NotConverted? {
        ExplainsItem(cs, t, g, segs, i, item.error);
        return item;
      }
      items := items + [item.value];
    }
    return Converted(List(items));
  }

  method ConvertMap(cs: Charset, t: GoType, g: Go, path: string, ghost segs: seq<Segment>) returns (r: Converted)
    requires t.TMap? && t.key.TString? && HasType(t, g) && path == Render(cs, segs)
    ensures r.Converted? <==> Convertible(t, g)
    ensures r.Converted? ==> r.value == Compile(t, g)
    ensures r.NotConverted? ==> Explains(cs, t, g, segs, r.error)
    decreases g, 0, 0
  {
    var attrs: map<string, GoValue> := map[];
    var rest := g.entries.Keys;
    while rest != {}
      invariant rest <= g.entries.Keys
      invariant attrs.Keys == g.entries.Keys - rest
      invariant forall k | k in attrs :: Convertible(t.elem, g.entries[k]) && attrs[k] == Compile(t.elem, g.entries[k])
      decreases rest
    {
      var name :| name in rest;
      RenderChild(cs, segs, Attr(name));
      var item := Convert(cs, t.elem, g.entries[name], AttrPath(cs, path, name), segs + [Attr(name)]);
      if item.NotConverted? {
        ExplainsEntry(cs, t, g, segs, name, item.error);
        return item;
      }
      attrs := attrs[name := item.value];
      rest := rest - {name};
    }
    assert attrs.Keys == g.entries.Keys;
    r := Converted(Attrs(attrs));
    assert Convertible(t, g);
    assert attrs == Compile(t, g).attrs;
  }

  /** `goValueFromAny`: paths start at "$". */
  method ConvertAny(cs: Charset, t: GoType, g: Go) returns (r: Converted)
    requires HasType(t, g)
    ensures r.Converted? <==> Convertible(t, g)
    ensures r.Converted? ==> r.value == Compile(t, g)
    ensures r.NotConverted? ==> Explains(cs, t, g, [], r.error)
  {
    r := Convert(cs, t, g, "$", []);
  }

  // ---- what the builders make of it ----

  /** The attributes a Nix set must have: one for each name, listed in any order. */
  ghost predicate Lists(attrs: map<string, GoValue>, bindings: seq<Binding>) {
    && DistinctNames(bindings)
    && (forall i | 0 <= i < |bindings| :: bindings[i].name in attrs)
    && (forall k | k in attrs :: exists i | 0 <= i < |bindings| :: bindings[i].name == k)
  }

  /** `v` is a Nix value that building `gv` may yield, for some order of the attributes. */
  ghost predicate Builds(gv: GoValue, v: Nix)
    decreases gv
  {
    match gv
    case Null => v == NixNull
    case Bool(b) => v == NixBool(b)
    case Int(i) => v == NixInt(i)
    case Float(f) => v == NixFloat(f)
    case String(s) => v == NixString(s)
    case PathString(s) => v == NixPath(s)
    case List(items) =>
      v.NixList? && |v.items| == |items| && forall i | 0 <= i < |items| :: Builds(items[i], v.items[i])
    case Attrs(attrs) =>
      v.NixAttrs? && Lists(attrs, v.attrs)
      && forall i | 0 <= i < |v.attrs| :: v.attrs[i].name in attrs && Builds(attrs[v.attrs[i].name], v.attrs[i].value)
  }
}
