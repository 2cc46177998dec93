/** Which Nix values a Go value stands for, told without conversion and builders. */
module GoMeanings {
  import opened Values
  import opened GoValues

  /** An attribute set with one attribute for each key, listed in any order. */
  ghost predicate SameNames(keys: set<string>, attrs: seq<Binding>) {
    && (forall i, j | 0 <= i < j < |attrs| :: attrs[i].name != attrs[j].name)
    && (forall i | 0 <= i < |attrs| :: attrs[i].name in keys)
    && (forall k <- keys :: exists i | 0 <= i < |attrs| :: attrs[i].name == k)
  }

  /** `v` is what `g` stands for. Nil is null, and what an interface holds stands for itself; nil
      slices and maps are empty; unsigned numbers up to 2^63 - 1 are integers; nothing else stands for
      anything. */
  ghost predicate GoMeans(t: GoType, g: Go, v: Nix)
    decreases g
  {
    match g
    case GoNilInterface => t.TInterface? && v.NixNull?
    case GoInterface(typ, dynamic) => t.TInterface? && GoMeans(typ, dynamic, v)
    case GoBool(b) => t.TBool? && v == NixBool(b)
    case GoString(s) => t.TString? && v == NixString(s)
    case GoInt(i) => t.TInt? && v == NixInt(i)
    case GoUint(n) => t.TUint? && n <= 9223372036854775807 && v == NixInt(n)
    case GoFloat(f) => t.TFloat? && v == NixFloat(f)
    case GoSlice(_, items) =>
      && t.TSlice? && v.NixList? && |v.items| == |items|
      && forall i | 0 <= i < |items| :: GoMeans(t.elem, items[i], v.items[i])
    case GoMap(_, entries) =>
      && t.TMap? && t.key.TString? && v.NixAttrs? && SameNames(entries.Keys, v.attrs)
      && forall i | 0 <= i < |v.attrs| ::
           v.attrs[i].name in entries && GoMeans(t.elem, entries[v.attrs[i].name], v.attrs[i].value)
    case GoArray(_) => false
    case GoStruct(_) => false
    case GoNilPointer => false
    case GoPointer(_) => false
    case GoOther => false
  }

  /** A value that converts is built as exactly the Nix values it stands for; one that does not convert
      stands for none. */
  lemma {:induction false} BuiltIsMeant(t: GoType, g: Go, v: Nix)
    ensures Convertible(t, g) && Builds(Compile(t, g), v) <==> GoMeans(t, g, v)
    decreases g, 3
  {
    if t.TInterface? && g.GoInterface? {
      BuiltIsMeant(g.typ, g.dynamic, v);
    } else if t.TSlice? && g.GoSlice? {
      ListIsMeant(t, g, v);
    } else if t.TMap? && g.GoMap? {
      MapIsMeant(t, g, v);
    } else {
      LeafIsMeant(t, g, v);
    }
  }

  lemma LeafIsMeant(t: GoType, g: Go, v: Nix)
    requires !(t.TInterface? && g.GoInterface?) && !(t.TSlice? && g.GoSlice?) && !(t.TMap? && g.GoMap?)
    ensures Convertible(t, g) && Builds(Compile(t, g), v) <==> GoMeans(t, g, v)
  {}

  lemma {:induction false} ListIsMeant(t: GoType, g: Go, v: Nix)
    requires t.TSlice? && g.GoSlice?
    ensures Convertible(t, g) && Builds(Compile(t, g), v) <==> GoMeans(t, g, v)
    decreases g, 0
  {
    if v.NixList? && |v.items| == |g.items| {
      forall i | 0 <= i < |g.items|
        ensures Convertible(t.elem, g.items[i]) && Builds(Compile(t.elem, g.items[i]), v.items[i])
          <==> GoMeans(t.elem, g.items[i], v.items[i])
      {
        BuiltIsMeant(t.elem, g.items[i], v.items[i]);
      }
    }
  }

  lemma {:induction false} MapIsMeant(t: GoType, g: Go, v: Nix)
    requires t.TMap? && g.GoMap?
    ensures Convertible(t, g) && Builds(Compile(t, g), v) <==> GoMeans(t, g, v)
    decreases g, 2
  {
    if Convertible(t, g) && Builds(Compile(t, g), v) {
      MapBuilt(t, g, v);
    }
    if GoMeans(t, g, v) {
      MapBuilds(t, g, v);
    }
  }

  lemma {:induction false} MapConverts(t: GoType, g: Go, v: Nix)
    requires t.TMap? && g.GoMap? && GoMeans(t, g, v)
    ensures Convertible(t, g)
    decreases g, 0
  {
    forall k | k in g.entries ensures Convertible(t.elem, g.entries[k]) {
      var i :| 0 <= i < |v.attrs| && v.attrs[i].name == k;
      BuiltIsMeant(t.elem, g.entries[k], v.attrs[i].value);
    }
  }

  lemma {:induction false} MapBuilds(t: GoType, g: Go, v: Nix)
    requires t.TMap? && g.GoMap? && GoMeans(t, g, v)
    ensures Convertible(t, g) && Builds(Compile(t, g), v)
    decreases g, 1
  {
    MapConverts(t, g, v);
    var attrs := Compile(t, g).attrs;
    assert attrs.Keys == g.entries.Keys;
    forall i | 0 <= i < |v.attrs| ensures Builds(attrs[v.attrs[i].name], v.attrs[i].value) {
      BuiltIsMeant(t.elem, g.entries[v.attrs[i].name], v.attrs[i].value);
    }
    assert Lists(attrs, v.attrs);
  }

  lemma {:induction false} MapBuilt(t: GoType, g: Go, v: Nix)
    requires t.TMap? && g.GoMap? && Convertible(t, g) && Builds(Compile(t, g), v)
    ensures GoMeans(t, g, v)
    decreases g, 0
  {
    var attrs := Compile(t, g).attrs;
    assert attrs.Keys == g.entries.Keys;
    forall i | 0 <= i < |v.attrs|
      ensures v.attrs[i].name in g.entries && GoMeans(t.elem, g.entries[v.attrs[i].name], v.attrs[i].value)
    {
      assert v.attrs[i].name in attrs && Builds(attrs[v.attrs[i].name], v.attrs[i].value);
      BuiltIsMeant(t.elem, g.entries[v.attrs[i].name], v.attrs[i].value);
    }
    assert SameNames(g.entries.Keys, v.attrs);
  }
}
