/** `EvalWithArgs` of the evaluator and of the client, and the client's `getOutputValue`. */
module EvalOps {
  import opened Optional
  import opened PathPrinter
  import opened Values
  import opened Decoder
  import opened GoValues
  import opened GoMeanings
  import opened Evaluators
  import B = Builders

  /** The values that are closed on the way: the function and the argument, and those that a failed
      evaluation or call leaves behind. */
  datatype Closing = CloseFunction | CloseArgument | CloseFailedFunction | CloseFailedResult

  /** What Nix does during one `EvalWithArgs`: the function the expression denotes, the results
      of applying it, which raw calls fail and which closes are refused. */
  datatype World = World(
    fn: Nix, apply: (Nix, Nix) -> Nix,
    allocFn: bool, eval: bool, build: B.Schedule, allocResult: bool, call: bool, refuses: Closing -> bool)

  /** No raw call of the evaluation fails, if none of building the argument does; closing is another
      matter. */
  predicate Runs(w: World, built: bool) {
    !w.allocFn && !w.eval && built && !w.allocResult && !w.call
  }

  /** The argument converts, and no raw call of building it fails. */
  ghost predicate Builds(w: World, t: GoType, arg: Go) {
    Convertible(t, arg) && B.Succeeds(w.build, Compile(t, arg), [])
  }

  /** `v` is a Nix value that building the argument may yield. */
  ghost predicate Denotes(t: GoType, arg: Go, v: Nix) {
    Convertible(t, arg) && GoValues.Builds(Compile(t, arg), v)
  }

  /** What building the argument may yield is what the argument stands for. */
  lemma DenotesIsMeaning(t: GoType, arg: Go, x: Nix)
    ensures Denotes(t, arg, x) <==> GoMeans(t, arg, x)
  {
    BuiltIsMeant(t, arg, x);
  }

  ghost predicate ClosesSucceed(w: World) {
    (forall c: Closing :: !w.refuses(c)) && B.Releases(w.build)
  }

  /** One more reference on success and none on failure; nothing is lost unless a close is refused. */
  twostate predicate Accounts(e: Evaluator, noRefusals: bool)
    reads e
  {
    && e.builders == old(e.builders)
    && old(e.lost) <= e.lost
    && (noRefusals ==> e.lost == old(e.lost))
    && e.state == old(e.state) && e.context == old(e.context)
  }

  /** `EvalString`. */
  method EvalString(e: Evaluator, w: World) returns (v: Value?)
    requires e.Valid()
    modifies e`held, e`lost
    ensures e.Valid() && Accounts(e, ClosesSucceed(w))
    ensures v == null ==> e.held == old(e.held)
    ensures v != null ==> fresh(v) && v.owner == e && v.nix == w.fn && e.held == old(e.held) + {v}
    ensures v != null <==> old(e.Open()) && !w.allocFn && !w.eval
  {
    if !e.Open() || w.allocFn {
      return null;
    }
    var value := e.Wrap(NixNull);
    if w.eval {
      var closed := e.Close(value, w.refuses(CloseFailedFunction));
      return null;
    }
    value.nix := w.fn;
    return value;
  }

  /** `Call`. */
  method Call(e: Evaluator, w: World, fn: Value, arg: Value) returns (v: Value?)
    requires e.Valid() && fn in e.held && arg in e.held
    modifies e`held, e`lost
    ensures e.Valid() && Accounts(e, ClosesSucceed(w))
    ensures v == null ==> e.held == old(e.held)
    ensures v != null ==> fresh(v) && v.owner == e && v.nix == w.apply(fn.nix, arg.nix) && e.held == old(e.held) + {v}
    ensures v != null <==> old(e.Open()) && !w.allocResult && !w.call
  {
    if !e.Open() || w.allocResult {
      return null;
    }
    var out := e.Wrap(NixNull);
    if w.call {
      var closed := e.Close(out, w.refuses(CloseFailedResult));
      return null;
    }
    out.nix := w.apply(fn.nix, arg.nix);
    return out;
  }

  /** The argument, converted and built. */
  method Argument(e: Evaluator, w: World, cs: Charset, t: GoType, arg: Go) returns (v: Value?)
    requires e.Valid() && e.Open() && HasType(t, arg)
    modifies e`held, e`lost, e`builders
    ensures e.Valid() && Accounts(e, ClosesSucceed(w))
    ensures v == null ==> e.held == old(e.held)
    ensures v != null ==> fresh(v) && v.owner == e && e.held == old(e.held) + {v}
    ensures v != null <==> Builds(w, t, arg)
    ensures v != null ==> Denotes(t, arg, v.nix)
  {
    var converted := ConvertAny(cs, t, arg);
    if converted.NotConverted? {
      return null;
    }
    v := B.NewValue(e, w.build, converted.value, []);
  }

  /** `v` is the function applied to some value that building the argument may yield. */
  ghost predicate Applied(w: World, t: GoType, arg: Go, v: Nix) {
    exists x :: Denotes(t, arg, x) && v == w.apply(w.fn, x)
  }

  /** `Evaluator.EvalWithArgs`: the function applied to the converted argument, as one new
      reference; a failure anywhere leaves the open references as they were. */
  method EvalWithArgs(e: Evaluator, w: World, cs: Charset, t: GoType, arg: Go) returns (v: Value?)
    requires e.Valid() && HasType(t, arg)
    modifies e`held, e`lost, e`builders
    ensures e.Valid() && Accounts(e, ClosesSucceed(w))
    ensures v == null ==> e.held == old(e.held)
    ensures v != null ==> fresh(v) && v.owner == e && e.held == old(e.held) + {v}
    ensures v != null <==> old(e.Open()) && Runs(w, Builds(w, t, arg))
    ensures v != null ==> Applied(w, t, arg, v.nix)
  {
    var fn := EvalString(e, w);
    if fn == null {
      return null;
    }
    v := ApplyAndClose(e, w, cs, t, arg, fn);
  }

  /** The rest of it: the function is closed whatever happens. */
  method ApplyAndClose(e: Evaluator, w: World, cs: Charset, t: GoType, arg: Go, fn: Value) returns (v: Value?)
    requires e.Valid() && e.Open() && fn in e.held && fn.nix == w.fn && HasType(t, arg)
    modifies e`held, e`lost, e`builders, fn
    ensures e.Valid() && Accounts(e, ClosesSucceed(w))
    ensures v == null ==> e.held == old(e.held) - {fn}
    ensures v != null ==> fresh(v) && v.owner == e && e.held == old(e.held) - {fn} + {v}
    ensures v != null <==> Builds(w, t, arg) && !w.allocResult && !w.call
    ensures v != null ==> Applied(w, t, arg, v.nix)
  {
    v := ApplyConverted(e, w, cs, t, arg, fn);
    var closedFn := e.Close(fn, w.refuses(CloseFunction));
  }

  /** The part of it during which the function is open. */
  method ApplyConverted(e: Evaluator, w: World, cs: Charset, t: GoType, arg: Go, fn: Value) returns (v: Value?)
    requires e.Valid() && e.Open() && fn in e.held && fn.nix == w.fn && HasType(t, arg)
    modifies e`held, e`lost, e`builders
    ensures e.Valid() && Accounts(e, ClosesSucceed(w))
    ensures v == null ==> e.held == old(e.held)
    ensures v != null ==> fresh(v) && v.owner == e && e.held == old(e.held) + {v}
    ensures v != null <==> Builds(w, t, arg) && !w.allocResult && !w.call
    ensures v != null ==> Applied(w, t, arg, v.nix)
  {
    var argument := Argument(e, w, cs, t, arg);
    if argument == null {
      return null;
    }
    v := Call(e, w, fn, argument);
    var closedArg := e.Close(argument, w.refuses(CloseArgument));
  }

  /** A target that held `was` now holds `g`: a result of the application was decoded into it. */
  ghost predicate Received(w: World, argType: GoType, arg: Go, env: Env, t: GoType, was: Go, g: Go, ok: bool)
    requires HasType(t, was)
  {
    exists v :: Applied(w, argType, arg, v) && g == Decode(env, v, t, was, [], []).val
      && (ok <==> Decode(env, v, t, was, [], []).err.None?)
  }

  /** `Client.EvalWithArgs`: evaluates, decodes the result into the variable, and closes it. */
  method EvalInto(e: Evaluator, w: World, env: Env, t: GoType, arg: Go, out: Out, closeResult: bool) returns (ok: bool)
    requires e.Valid() && HasType(t, arg)
    requires out.PointerTo? ==> HasType(out.t, out.root.val)
    modifies e`held, e`lost, e`builders, if out.PointerTo? then {out.root} else {}
    ensures e.Valid() && e.held == old(e.held)
    ensures Accounts(e, ClosesSucceed(w) && Releases(env) && !closeResult)
    ensures out.PointerTo? ==>
      if old(e.Open()) && Runs(w, Builds(w, t, arg))
      then Received(w, t, arg, env, out.t, old(out.root.val), out.root.val, ok)
      else !ok && out.root.val == old(out.root.val)
    ensures !out.PointerTo? ==> !ok
  {
    ok := false;
    var result := EvalWithArgs(e, w, env.cs, t, arg);
    if result != null {
      var err := e.Unmarshal(env, result, out);
      ok := err.None?;
      var closed := e.Close(result, closeResult);
    }
  }

  // ---- getOutputValue ----

  /** Which raw calls fail while descending; the depth counts the steps taken. */
  datatype OutputOp = OutputAttrs | OutputType | OutputAttr | OutputClose

  type Descent = (nat, OutputOp) -> bool

  /** The value a path selects, by looking up one attribute after another. */
  function Select(v: Nix, path: seq<string>): Option<Nix> {
    if path == [] then Some(v)
    else
      match Lookup(v, path[0])
      case None => None
      case Some(w) => Select(w, path[1..])
  }

  /** One step of it. */
  function Lookup(v: Nix, attr: string): Option<Nix> {
    if !v.NixAttrs? then None
    else
      match Find(v.attrs, attr)
      case None => None
      case Some(k) => Some(v.attrs[k].value)
  }

  /** Selecting along a concatenated path is selecting twice. */
  lemma {:induction false} SelectConcat(v: Nix, p: seq<string>, q: seq<string>)
    ensures Select(v, p + q) == match Select(v, p) case None => None case Some(w) => Select(w, q)
  {
    if p == [] {
      assert p + q == q;
    } else {
      assert (p + q)[0] == p[0] && (p + q)[1..] == p[1..] + q;
      if Lookup(v, p[0]).Some? {
        SelectConcat(Lookup(v, p[0]).value, p[1..], q);
      }
    }
  }

  /** `vs` steps from `v` to `w`: each value is an attribute set with a binding of the next name of the
      path to the next value. */
  ghost predicate Chain(v: Nix, path: seq<string>, w: Nix, vs: seq<Nix>) {
    && |vs| == |path| + 1 && vs[0] == v && vs[|path|] == w
    && forall i | 0 <= i < |path| :: vs[i].NixAttrs? && Binding(path[i], vs[i + 1]) in vs[i].attrs
  }

  /** The attributes named by the path lead from `v` to `w`. */
  ghost predicate Reaches(v: Nix, path: seq<string>, w: Nix) {
    exists vs :: Chain(v, path, w, vs)
  }

  /** In no attribute set do two attributes have the same name. */
  ghost predicate WellNamed(v: Nix)
    decreases v
  {
    match v
    case NixAttrs(attrs) => DistinctNames(attrs) && forall b <- attrs :: WellNamed(b.value)
    case NixList(items) => forall x <- items :: WellNamed(x)
    case _ => true
  }

  /** Looking up a name gives an attribute of that name, and in a set without duplicate names the one. */
  lemma LookupIsBinding(v: Nix, name: string, w: Nix)
    ensures Lookup(v, name) == Some(w) ==> v.NixAttrs? && Binding(name, w) in v.attrs
    ensures v.NixAttrs? && DistinctNames(v.attrs) && Binding(name, w) in v.attrs ==> Lookup(v, name) == Some(w)
  {
    if v.NixAttrs? && DistinctNames(v.attrs) && Binding(name, w) in v.attrs {
      var k :| 0 <= k < |v.attrs| && v.attrs[k] == Binding(name, w);
      assert Find(v.attrs, name) == Some(k);
    }
  }

  lemma ChainNext(v: Nix, path: seq<string>, w: Nix)
    requires path != []
    ensures Reaches(v, path, w) <==>
      exists u :: v.NixAttrs? && Binding(path[0], u) in v.attrs && Reaches(u, path[1..], w)
  {
    if Reaches(v, path, w) {
      var vs :| Chain(v, path, w, vs);
      assert Chain(vs[1], path[1..], w, vs[1..]);
    }
    if u :| v.NixAttrs? && Binding(path[0], u) in v.attrs && Reaches(u, path[1..], w) {
      var vs :| Chain(u, path[1..], w, vs);
      assert Chain(v, path, w, [v] + vs);
    }
  }

  /** What a path selects is what its attributes lead to, and with well-named sets there is nothing
      else to be led to. */
  lemma {:induction false} SelectIsReached(v: Nix, path: seq<string>, w: Nix)
    ensures Select(v, path) == Some(w) ==> Reaches(v, path, w)
    ensures WellNamed(v) && Reaches(v, path, w) ==> Select(v, path) == Some(w)
    decreases |path|
  {
    if path == [] {
      if Select(v, path) == Some(w) {
        assert Chain(v, path, w, [v]);
      }
    } else {
      ChainNext(v, path, w);
      if Select(v, path) == Some(w) {
        var u := Lookup(v, path[0]).value;
        LookupIsBinding(v, path[0], u);
        SelectIsReached(u, path[1..], w);
      }
      if WellNamed(v) && Reaches(v, path, w) {
        var u :| v.NixAttrs? && Binding(path[0], u) in v.attrs && Reaches(u, path[1..], w);
        LookupIsBinding(v, path[0], u);
        SelectIsReached(u, path[1..], w);
      }
    }
  }

  /** Whether a path selects something is whether it leads somewhere. */
  lemma SelectsIffReaches(v: Nix, path: seq<string>)
    ensures Select(v, path).Some? ==> Reaches(v, path, Select(v, path).value)
    ensures WellNamed(v) ==> (Select(v, path).Some? <==> exists w :: Reaches(v, path, w))
    ensures WellNamed(v) ==> forall w | Reaches(v, path, w) :: Select(v, path) == Some(w)
  {
    if Select(v, path).Some? {
      SelectIsReached(v, path, Select(v, path).value);
    }
    forall w | WellNamed(v) && Reaches(v, path, w) ensures Select(v, path) == Some(w) {
      SelectIsReached(v, path, w);
    }
  }

  /** No raw call of a descent along `n` more attributes from depth `d` fails. */
  predicate Descends(fails: Descent, d: nat, n: nat) {
    forall k | d <= k < d + n :: !fails(k, OutputType) && !fails(k, OutputAttr)
  }

  /** Each of `obtained` is new and was closed exactly once, except the result, which was not. */
  ghost predicate ClosedOnce(obtained: seq<Value>, v: Value?)
    reads obtained
  {
    && (forall i, j | 0 <= i < j < |obtained| :: obtained[i] != obtained[j])
    && (forall i | 0 <= i < |obtained| :: obtained[i].closes == if obtained[i] == v then 0 else 1)
  }

  /** `getOutputValue`: takes over `root`, or starts from the outputs when there is none. Every
      value it was given or obtained on the way is closed, once; only the selected one stays open. */
  method GetOutputValue(e: Evaluator, outputs: Nix, fails: Descent, root: Value?, path: seq<string>, depth: nat)
    returns (v: Value?, ghost obtained: seq<Value>)
    requires e.Valid() && e.Open() && (root == null ==> depth == 0)
    requires root != null ==> root in e.held
    modifies e`held, e`lost, if root == null then {} else {root}
    ensures e.Valid() && e.Open()
    ensures old(e.lost) <= e.lost
    ensures (forall k :: !fails(k, OutputClose)) ==> e.lost == old(e.lost)
    ensures fresh(obtained) && ClosedOnce(obtained, v)
    ensures root != null ==> root.closes == old(root.closes) + if v == root then 0 else 1
    ensures v != null ==> |obtained| == |path| + if root == null then 1 else 0
    ensures var start := if root == null then outputs else old(root.nix);
      && (v != null ==> Reaches(start, path, v.nix))
      && (WellNamed(start) ==>
            && (v != null <==>
                  (root == null ==> !fails(0, OutputAttrs)) && Descends(fails, depth, |path|)
                  && exists w :: Reaches(start, path, w))
            && (v != null ==> forall w | Reaches(start, path, w) :: w == v.nix))
    ensures var start := if root == null then outputs else old(root.nix);
      var given := if root == null then {} else {root};
      && (v != null <==>
            (root == null ==> !fails(0, OutputAttrs)) && Descends(fails, depth, |path|) && Select(start, path).Some?)
      && (v == null ==> e.held == old(e.held) - given)
      && (v != null ==>
            && v.nix == Select(start, path).value && v.ptr && v.owner == e
            && (if obtained == [] then v == root else v == obtained[|obtained| - 1])
            && e.held == old(e.held) - given + {v})
  {
    SelectsIffReaches(if root == null then outputs else root.nix, path);
    if root != null {
      v, obtained := SelectFrom(e, fails, root, path, depth);
      return;
    }
    if fails(0, OutputAttrs) {
      return null, [];
    }
    var at := e.Wrap(outputs);
    v, obtained := SelectFrom(e, fails, at, path, depth);
    obtained := [at] + obtained;
  }

  /** The descent from a value at hand. */
  method SelectFrom(e: Evaluator, fails: Descent, at: Value, path: seq<string>, depth: nat)
    returns (v: Value?, ghost obtained: seq<Value>)
    requires e.Valid() && e.Open() && at in e.held
    modifies e`held, e`lost, at
    ensures e.Valid() && e.Open()
    ensures old(e.lost) <= e.lost
    ensures (forall k :: !fails(k, OutputClose)) ==> e.lost == old(e.lost)
    ensures fresh(obtained) && ClosedOnce(obtained, v)
    ensures at.closes == old(at.closes) + if v == at then 0 else 1
    ensures v != null <==> Descends(fails, depth, |path|) && Select(old(at.nix), path).Some?
    ensures v == null ==> e.held == old(e.held) - {at}
    ensures v != null ==>
      && v.nix == Select(old(at.nix), path).value && v.ptr && v.owner == e
      && e.held == old(e.held) - {at} + {v}
    ensures v != null ==> |obtained| == |path| && v == ([at] + obtained)[|path|]
    decreases |path|
  {
    obtained := [];
    if path == [] {
      return at, obtained;
    }
    v := null;
    var child := OutputChild(e, fails, at, path[0], depth);
    if child != null {
      v, obtained := SelectFrom(e, fails, child, path[1..], depth + 1);
      obtained := [child] + obtained;
    }
    var closed := e.Close(at, fails(depth, OutputClose));
  }

  /** The attribute of a value on the path, as a new handle. */
  method OutputChild(e: Evaluator, fails: Descent, at: Value, attr: string, depth: nat) returns (child: Value?)
    requires e.Valid() && e.Open() && at in e.held
    modifies e`held
    ensures e.Valid()
    ensures child == null ==> e.held == old(e.held)
    ensures child != null ==>
      fresh(child) && child.owner == e && child.closes == 0 && e.held == old(e.held) + {child}
        && Lookup(at.nix, attr) == Some(child.nix)
    ensures child != null <==> !fails(depth, OutputType) && !fails(depth, OutputAttr) && Lookup(at.nix, attr).Some?
  {
    if fails(depth, OutputType) || !at.nix.NixAttrs? {
      return null;
    }
    var k := Find(at.nix.attrs, attr);
    if k.None? || fails(depth, OutputAttr) {
      return null;
    }
    child := e.Wrap(at.nix.attrs[k.value].value);
  }
}
