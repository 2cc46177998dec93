/** Go data converted, built and decoded into the same type comes back. */
module RoundTrip {
  import opened Optional
  import opened Location
  import opened Values
  import opened Decoder
  import opened DecodeMeaning
  import opened DecodeErrors
  import opened GoValues
  import opened Evaluators
  import B = Builders

  /** The Go data that survives: booleans, strings, integers Nix can hold, floats their type
      holds exactly, and slices and string-keyed maps of such data. */
  predicate Survives(env: Env, t: GoType, g: Go)
    decreases g
  {
    match (t, g)
    case (TBool, GoBool(_)) => true
    case (TString, GoString(_)) => true
    case (TInt(_), GoInt(_)) => true
    case (TUint(_), GoUint(n)) => n <= MAX_INT64
    case (TFloat(bits), GoFloat(f)) => !OverflowFloat(bits, f) && StoreFloat(env, bits, f) == g
    case (TSlice(elem), GoSlice(_, items)) =>
      |items| < 0x1_0000_0000 && forall i | 0 <= i < |items| :: Survives(env, elem, items[i])
    case (TMap(key, elem), GoMap(_, entries)) =>
      key.TString? && forall k | k in entries :: Survives(env, elem, entries[k])
    case _ => false
  }

  /** The kinds of data that survive: every boolean, string and signed integer, the unsigned integers up
      to 2^63 - 1, every float that is in range and that storing does not change, and every slice and
      string-keyed map of such data. */
  lemma KindsSurvive(env: Env, t: GoType, g: Go)
    requires HasType(t, g)
    ensures t.TBool? || t.TString? || t.TInt? ==> Survives(env, t, g)
    ensures t.TUint? ==> (Survives(env, t, g) <==> g.n <= 9223372036854775807)
    ensures t.TFloat? ==>
      (Survives(env, t, g) <==> !OverflowFloat(t.bits, g.f) && (t.bits == 32 ==> env.round32(g.f) == g.f))
    ensures t.TSlice? && |g.items| < 0x1_0000_0000 ==>
      (Survives(env, t, g) <==> forall i | 0 <= i < |g.items| :: Survives(env, t.elem, g.items[i]))
    ensures t.TMap? && t.key.TString? ==>
      (Survives(env, t, g) <==> forall k | k in g.entries :: Survives(env, t.elem, g.entries[k]))
  {}

  /** `g` with every nil slice and map replaced by an empty one. */
  function Normal(g: Go): Go {
    match g
    case GoSlice(_, items) => GoSlice(false, seq(|items|, i requires 0 <= i < |items| => Normal(items[i])))
    case GoMap(_, entries) => GoMap(false, map k | k in entries :: Normal(entries[k]))
    case _ => g
  }

  lemma {:induction false} SurvivesConverts(env: Env, t: GoType, g: Go)
    requires Survives(env, t, g)
    ensures Convertible(t, g)
    decreases g
  {
    match (t, g)
    case (TSlice(elem), GoSlice(_, items)) =>
      forall i | 0 <= i < |items| ensures Convertible(elem, items[i]) {
        SurvivesConverts(env, elem, items[i]);
      }
    case (TMap(key, elem), GoMap(_, entries)) =>
      forall k | k in entries ensures Convertible(elem, entries[k]) {
        SurvivesConverts(env, elem, entries[k]);
      }
    case _ =>
  }

  /** Nothing fails. */
  ghost predicate Quiet(env: Env) {
    forall c: Call :: !env.fails(c)
  }

  lemma {:induction false} BuiltFits(env: Env, t: GoType, g: Go, v: Nix, at: seq<nat>)
    requires Quiet(env) && HasType(t, g) && Survives(env, t, g) && Convertible(t, g) && Builds(Compile(t, g), v)
    ensures Fits(env, v, t, at)
    decreases g
  {
    match (t, g)
    case (TSlice(elem), GoSlice(_, items)) =>
      forall i | 0 <= i < |v.items| ensures FitsItem(env, v, elem, i, at) {
        BuiltFits(env, elem, items[i], v.items[i], at + [i]);
      }
    case (TMap(_, elem), GoMap(_, entries)) =>
      forall i | 0 <= i < |v.attrs| ensures FitsEntry(env, v, elem, i, at) {
        BuiltFits(env, elem, entries[v.attrs[i].name], v.attrs[i].value, at + [i]);
      }
    case _ =>
  }

  lemma {:induction false} BuiltMeans(env: Env, t: GoType, g: Go, v: Nix, was: Go)
    requires HasType(t, was) && HasType(t, g) && Survives(env, t, g) && Convertible(t, g) && Builds(Compile(t, g), v)
    ensures Means(env, v, t, was, Normal(g))
    decreases g
  {
    match (t, g)
    case (TSlice(elem), GoSlice(_, items)) =>
      forall i | 0 <= i < |v.items| ensures MeansItem(env, v, elem, i, Zero(elem), Normal(g).items[i]) {
        BuiltMeans(env, elem, items[i], v.items[i], Zero(elem));
      }
    case (TMap(_, _), GoMap(_, _)) =>
      forall name ensures MeansKey(env, v, t.elem, map[], 0, |v.attrs|, Normal(g).entries, name) {
        BuiltMeansKey(env, t, g, v, name);
      }
    case _ =>
  }

  lemma {:induction false} BuiltMeansKey(env: Env, t: GoType, g: Go, v: Nix, name: string)
    requires t.TMap? && HasType(t, g) && Survives(env, t, g) && Convertible(t, g) && Builds(Compile(t, g), v)
    ensures v.NixAttrs? && MeansKey(env, v, t.elem, map[], 0, |v.attrs|, Normal(g).entries, name)
    decreases g, 0
  {
    var attrs := Compile(t, g).attrs;
    match FindLast(v.attrs, name, 0, |v.attrs|)
    case Some(k) =>
      assert name in attrs;
      BuiltMeans(env, t.elem, g.entries[name], v.attrs[k].value, Zero(t.elem));
    case None =>
      assert name !in attrs;
  }

  /** Convert, build and decode is the identity up to nil slices and maps becoming empty,
      whatever order Nix lists attributes in and whatever the target held. */
  lemma RoundTripIdentity(env: Env, t: GoType, g: Go, v: Nix, was: Go)
    requires Quiet(env) && HasType(t, g) && HasType(t, was) && Survives(env, t, g)
    requires Convertible(t, g) && Builds(Compile(t, g), v)
    ensures Decode(env, v, t, was, [], []) == Res(Normal(g), None)
  {
    var r := Decode(env, v, t, was, [], []);
    DecodeCorrect(env, v, t, was, [], []);
    BuiltFits(env, t, g, v, []);
    BuiltMeans(env, t, g, v, was);
    MeansUnique(env, v, t, was, r.val, Normal(g));
  }

  /** Converted, built, decoded into a variable of the same type and closed again, the data is there,
      whatever raw call of the building fails: then the variable keeps its contents. No reference is
      left over in either case. */
  method ThroughNix(e: Evaluator, env: Env, fails: B.Schedule, t: GoType, g: Go, root: Var, refused: bool)
    returns (ok: bool)
    requires e.Valid() && Quiet(env) && HasType(t, g) && HasType(t, root.val) && Survives(env, t, g)
    modifies e`held, e`lost, e`builders, root
    ensures e.Valid() && e.held == old(e.held) && e.builders == old(e.builders)
    ensures B.Releases(fails) && !refused ==> e.lost == old(e.lost)
    ensures ok <==> old(e.Open()) && Convertible(t, g) && B.Succeeds(fails, Compile(t, g), [])
    ensures root.val == if ok then Normal(g) else old(root.val)
  {
    SurvivesConverts(env, t, g);
    var converted := ConvertAny(env.cs, t, g);
    var v := B.NewValue(e, fails, converted.value, []);
    if v == null {
      return false;
    }
    DecodeBuilt(e, env, t, g, v, root, refused);
    return true;
  }

  /** The second half of it, once the value is built. */
  method DecodeBuilt(e: Evaluator, env: Env, t: GoType, g: Go, v: Value, root: Var, refused: bool)
    requires e.Valid() && e.Open() && v in e.held
    requires Quiet(env) && HasType(t, g) && HasType(t, root.val) && Survives(env, t, g)
    requires Convertible(t, g) && Builds(Compile(t, g), v.nix)
    modifies e`held, e`lost, root, v
    ensures e.Valid() && e.held == old(e.held) - {v} && (!refused ==> e.lost == old(e.lost))
    ensures root.val == Normal(g)
  {
    RoundTripIdentity(env, t, g, v.nix, root.val);
    var err := e.Unmarshal(env, v, PointerTo(root, t));
    var closed := e.Close(v, refused);
  }
}
