/** `Evaluator.NewValue`, the builders behind it, and `EvalWithArgs`: every reference and every
    native builder they take is given back, whichever raw call fails. */
module Builders {
  import opened Values
  import opened GoValues
  import opened Evaluators
  import opened Strings

  /** The raw calls of building one value, of closing its i-th temporary, and of closing it when
      building it failed. */
  datatype BuildOp = Alloc | Init | MakeBuilder | InsertChild(i: nat) | Make | CloseTemp(i: nat) | CloseFailed

  datatype BuildCall = BuildCall(at: seq<nat>, op: BuildOp)

  /** Which raw calls fail. */
  type Schedule = BuildCall -> bool

  /** No raw call made to build `gv` at position `at` fails, closing temporaries aside. */
  ghost predicate Succeeds(fails: Schedule, gv: GoValue, at: seq<nat>)
    decreases gv, 1
  {
    !fails(BuildCall(at, Alloc)) &&
    match gv
    case List(items) =>
      !fails(BuildCall(at, MakeBuilder)) && !fails(BuildCall(at, Make))
      && forall i | 0 <= i < |items| :: Succeeds(fails, items[i], at + [i]) && !fails(BuildCall(at, InsertChild(i)))
    case Attrs(attrs) =>
      !fails(BuildCall(at, MakeBuilder)) && !fails(BuildCall(at, Make))
      && forall i | 0 <= i < |Sorted(attrs.Keys)| :: SucceedsAttr(fails, attrs, Sorted(attrs.Keys), i, at)
    case _ => !fails(BuildCall(at, Init))
  }

  /** The same for the i-th name of an attribute set. */
  ghost predicate SucceedsAttr(fails: Schedule, attrs: map<string, GoValue>, names: seq<string>, i: nat, at: seq<nat>)
    requires i < |names|
    decreases Attrs(attrs), 0
  {
    names[i] in attrs && Succeeds(fails, attrs[names[i]], at + [i]) && !fails(BuildCall(at, InsertChild(i)))
  }

  /** `c` is one of the raw calls that build `gv` at position `at`: its value is allocated and either set,
      or made from a builder into which each child, built at a position of its own, is inserted; the
      children of an attribute set come in the order of their names. */
  ghost predicate IsCall(gv: GoValue, at: seq<nat>, c: BuildCall)
    decreases gv, 1
  {
    || c == BuildCall(at, Alloc)
    || match gv
       case List(items) =>
         || c == BuildCall(at, MakeBuilder) || c == BuildCall(at, Make)
         || exists i | 0 <= i < |items| :: c == BuildCall(at, InsertChild(i)) || IsCall(items[i], at + [i], c)
       case Attrs(attrs) =>
         || c == BuildCall(at, MakeBuilder) || c == BuildCall(at, Make)
         || exists i | 0 <= i < |Sorted(attrs.Keys)| :: IsChildCall(attrs, Sorted(attrs.Keys), i, at, c)
       case _ => c == BuildCall(at, Init)
  }

  /** The same for the i-th name of an attribute set. */
  ghost predicate IsChildCall(attrs: map<string, GoValue>, names: seq<string>, i: nat, at: seq<nat>, c: BuildCall)
    requires i < |names|
    decreases Attrs(attrs), 0
  {
    c == BuildCall(at, InsertChild(i)) || (names[i] in attrs && IsCall(attrs[names[i]], at + [i], c))
  }

  /** Building succeeds exactly when none of these calls fails. */
  lemma SucceedsIffNoCallFails(fails: Schedule, gv: GoValue, at: seq<nat>)
    ensures Succeeds(fails, gv, at) <==> forall c | IsCall(gv, at, c) :: !fails(c)
  {
    if Succeeds(fails, gv, at) {
      forall c | IsCall(gv, at, c) ensures !fails(c) { CallPasses(fails, gv, at, c); }
    } else {
      var c := FailingCall(fails, gv, at);
    }
  }

  lemma {:induction false} CallPasses(fails: Schedule, gv: GoValue, at: seq<nat>, c: BuildCall)
    requires Succeeds(fails, gv, at) && IsCall(gv, at, c)
    ensures !fails(c)
    decreases gv
  {
    match gv
    case List(items) =>
      if i :| 0 <= i < |items| && IsCall(items[i], at + [i], c) { CallPasses(fails, items[i], at + [i], c); }
    case Attrs(attrs) =>
      var names := Sorted(attrs.Keys);
      if i :| 0 <= i < |names| && IsChildCall(attrs, names, i, at, c) {
        assert SucceedsAttr(fails, attrs, names, i, at);
        if c != BuildCall(at, InsertChild(i)) { CallPasses(fails, attrs[names[i]], at + [i], c); }
      }
    case _ =>
  }

  lemma {:induction false} FailingCall(fails: Schedule, gv: GoValue, at: seq<nat>) returns (c: BuildCall)
    requires !Succeeds(fails, gv, at)
    ensures IsCall(gv, at, c) && fails(c)
    decreases gv
  {
    if op :| op in {Alloc, Init, MakeBuilder, Make} && IsCall(gv, at, BuildCall(at, op)) && fails(BuildCall(at, op)) {
      return BuildCall(at, op);
    }
    assert IsCall(gv, at, BuildCall(at, Alloc));
    match gv
    case List(items) =>
      assert IsCall(gv, at, BuildCall(at, MakeBuilder)) && IsCall(gv, at, BuildCall(at, Make));
      var i :| 0 <= i < |items| && !(Succeeds(fails, items[i], at + [i]) && !fails(BuildCall(at, InsertChild(i))));
      c := BuildCall(at, InsertChild(i));
      if !fails(c) { c := FailingCall(fails, items[i], at + [i]); }
    case Attrs(attrs) =>
      assert IsCall(gv, at, BuildCall(at, MakeBuilder)) && IsCall(gv, at, BuildCall(at, Make));
      var names := Sorted(attrs.Keys);
      var i :| 0 <= i < |names| && !SucceedsAttr(fails, attrs, names, i, at);
      NamesOf(attrs, names);
      c := BuildCall(at, InsertChild(i));
      if !fails(c) { c := FailingCall(fails, attrs[names[i]], at + [i]); }
      assert IsChildCall(attrs, names, i, at, c);
    case _ =>
  }

  /** No close fails. */
  ghost predicate Releases(fails: Schedule) {
    forall c: BuildCall :: fails(c) ==> !c.op.CloseTemp? && !c.op.CloseFailed?
  }

  /** Nothing of what `e` owned is gone, and references are lost only to refused closes. */
  twostate predicate Keeps(e: Evaluator, fails: Schedule)
    reads e
  {
    && e.builders == old(e.builders)
    && old(e.lost) <= e.lost
    && (Releases(fails) ==> e.lost == old(e.lost))
    && e.state == old(e.state) && e.context == old(e.context)
  }

  /** The temporaries of a builder loop: open, distinct, and not among `base`. */
  ghost predicate Temporaries(e: Evaluator, temps: seq<Value>, base: set<Value>)
    reads e
  {
    && (forall i | 0 <= i < |temps| :: temps[i] !in base && temps[i].owner == e)
    && (forall i, j | 0 <= i < j < |temps| :: temps[i] != temps[j])
    && e.held == base + (set v | v in temps)
  }

  /** The deferred closes of a builder loop, last temporary first; their errors are ignored. */
  method CloseAll(e: Evaluator, fails: Schedule, temps: seq<Value>, at: seq<nat>, ghost base: set<Value>)
    requires e.Valid() && e.context && Temporaries(e, temps, base)
    modifies e`held, e`lost, temps`ptr, temps`closes
    ensures e.Valid() && e.held == base && Keeps(e, fails)
  {
    var i := |temps|;
    while i > 0
      invariant 0 <= i <= |temps|
      invariant e.Valid() && Temporaries(e, temps[..i], base) && Keeps(e, fails)
    {
      i := i - 1;
      assert temps[..i + 1][..i] == temps[..i];
      CloseLast(e, temps[..i + 1], fails(BuildCall(at, CloseTemp(i))), base);
    }
  }

  method CloseLast(e: Evaluator, temps: seq<Value>, refused: bool, ghost base: set<Value>)
    requires e.Valid() && e.context && temps != [] && Temporaries(e, temps, base)
    modifies e`held, e`lost, temps`ptr, temps`closes
    ensures e.Valid() && Temporaries(e, temps[..|temps| - 1], base)
    ensures old(e.lost) <= e.lost && (!refused ==> e.lost == old(e.lost))
  {
    var last := temps[|temps| - 1];
    ghost var others := temps[..|temps| - 1];
    var ok := e.Close(last, refused);
    assert (set v | v in others) == (set v | v in temps) - {last};
  }

  /** `NewValue`: one more reference on success, none on failure. */
  method NewValue(e: Evaluator, fails: Schedule, gv: GoValue, at: seq<nat>) returns (v: Value?)
    requires e.Valid()
    modifies e`held, e`lost, e`builders
    ensures e.Valid() && Keeps(e, fails)
    ensures v == null ==> e.held == old(e.held)
    ensures v != null ==> fresh(v) && v.owner == e && e.held == old(e.held) + {v} && Builds(gv, v.nix)
    ensures v != null <==> old(e.Open()) && Succeeds(fails, gv, at)
    decreases gv, 1
  {
    if !e.Open() || fails(BuildCall(at, Alloc)) {
      return null;
    }
    var value := e.Wrap(NixNull);
    var ok := Fill(e, fails, gv, value, at);
    if !ok {
      var closed := e.Close(value, fails(BuildCall(at, CloseFailed)));
      return null;
    }
    return value;
  }

  /** Calls the builder closure on an allocated value. */
  method Fill(e: Evaluator, fails: Schedule, gv: GoValue, out: Value, at: seq<nat>) returns (ok: bool)
    requires e.Valid() && e.Open() && out in e.held && !fails(BuildCall(at, Alloc))
    modifies e`held, e`lost, e`builders, out`nix
    ensures e.Valid() && Keeps(e, fails) && e.held == old(e.held)
    ensures ok <==> Succeeds(fails, gv, at)
    ensures ok ==> Builds(gv, out.nix)
    decreases gv, 0
  {
    match gv
    case List(items) => ok := FillList(e, fails, items, out, at);
    case Attrs(attrs) => ok := FillAttrs(e, fails, attrs, out, at);
    case _ =>
      if fails(BuildCall(at, Init)) {
        return false;
      }
      out.nix := Leaf(gv);
      return true;
  }

  /** What the scalar builders store. */
  function Leaf(gv: GoValue): (v: Nix)
    ensures !gv.List? && !gv.Attrs? ==> Builds(gv, v)
  {
    match gv
    case Bool(b) => NixBool(b)
    case Int(i) => NixInt(i)
    case Float(f) => NixFloat(f)
    case String(s) => NixString(s)
    case PathString(s) => NixPath(s)
    case _ => NixNull
  }

  method FillList(e: Evaluator, fails: Schedule, items: seq<GoValue>, out: Value, at: seq<nat>) returns (ok: bool)
    requires e.Valid() && e.Open() && out in e.held && !fails(BuildCall(at, Alloc))
    modifies e`held, e`lost, e`builders, out`nix
    ensures e.Valid() && Keeps(e, fails) && e.held == old(e.held)
    ensures ok <==> Succeeds(fails, List(items), at)
    ensures ok ==> Builds(List(items), out.nix)
    decreases List(items), 0, 0
  {
    if fails(BuildCall(at, MakeBuilder)) {
      return false;
    }
    e.builders := e.builders + 1;
    var slots, temps;
    ghost var stop;
    ok, slots, temps, stop := InsertItems(e, fails, items, at);
    if ok && fails(BuildCall(at, Make)) {
      ok := false;
    } else if ok {
      out.nix := NixList(slots);
    }
    CloseAll(e, fails, temps, at, old(e.held));
    e.builders := e.builders - 1;
  }

  /** Builds one child and inserts it; once built it stays open until the builder is done. */
  method InsertOne(e: Evaluator, fails: Schedule, gv: GoValue, at: seq<nat>, i: nat, temps: seq<Value>,
                   ghost base: set<Value>)
    returns (ok: bool, child: Nix, more: seq<Value>)
    requires e.Valid() && e.Open() && Temporaries(e, temps, base)
    modifies e`held, e`lost, e`builders
    ensures e.Valid() && Keeps(e, fails)
    ensures Temporaries(e, more, base) && forall v <- more :: v in temps || fresh(v)
    ensures ok <==> Succeeds(fails, gv, at + [i]) && !fails(BuildCall(at, InsertChild(i)))
    ensures ok ==> Builds(gv, child)
    decreases gv, 2, 0
  {
    var value := NewValue(e, fails, gv, at + [i]);
    if value == null {
      return false, NixNull, temps;
    }
    more := temps + [value];
    ok, child := !fails(BuildCall(at, InsertChild(i))), value.nix;
  }

  /** The loop over the items: `stop` is the first that cannot be built and inserted. */
  method InsertItems(e: Evaluator, fails: Schedule, items: seq<GoValue>, at: seq<nat>)
    returns (ok: bool, slots: seq<Nix>, temps: seq<Value>, ghost stop: nat)
    requires e.Valid() && e.Open()
    modifies e`held, e`lost, e`builders
    ensures e.Valid() && Keeps(e, fails)
    ensures Temporaries(e, temps, old(e.held)) && fresh(temps)
    ensures ok ==> forall i | 0 <= i < |items| ::
      Succeeds(fails, items[i], at + [i]) && !fails(BuildCall(at, InsertChild(i)))
    ensures !ok ==>
      && stop < |items|
      && !(Succeeds(fails, items[stop], at + [stop]) && !fails(BuildCall(at, InsertChild(stop))))
    ensures ok ==> |slots| == |items| && forall j | 0 <= j < |items| :: Builds(items[j], slots[j])
    decreases items, 0, 0
  {
    slots, temps := [], [];
    var i := 0;
    while i < |items|
      invariant 0 <= i <= |items| && |slots| == i
      invariant e.Valid() && e.Open() && Keeps(e, fails)
      invariant Temporaries(e, temps, old(e.held)) && fresh(temps)
      invariant forall j | 0 <= j < i :: Builds(items[j], slots[j])
      invariant forall j | 0 <= j < i :: Succeeds(fails, items[j], at + [j]) && !fails(BuildCall(at, InsertChild(j)))
    {
      var child;
      ok, child, temps := InsertOne(e, fails, items[i], at, i, temps, old(e.held));
      if !ok {
        return false, slots, temps, i;
      }
      slots := slots + [child];
      i := i + 1;
    }
    return true, slots, temps, i;
  }

  method FillAttrs(e: Evaluator, fails: Schedule, attrs: map<string, GoValue>, out: Value, at: seq<nat>)
    returns (ok: bool)
    requires e.Valid() && e.Open() && out in e.held && !fails(BuildCall(at, Alloc))
    modifies e`held, e`lost, e`builders, out`nix
    ensures e.Valid() && Keeps(e, fails) && e.held == old(e.held)
    ensures ok <==> Succeeds(fails, Attrs(attrs), at)
    ensures ok ==> Builds(Attrs(attrs), out.nix)
    decreases Attrs(attrs), 0, 1
  {
    if fails(BuildCall(at, MakeBuilder)) {
      return false;
    }
    e.builders := e.builders + 1;
    var names := SortStrings(attrs.Keys);
    NamesOf(attrs, names);
    var bindings, temps;
    ghost var stop;
    ok, bindings, temps, stop := InsertAttrs(e, fails, attrs, names, at);
    if ok && fails(BuildCall(at, Make)) {
      ok := false;
    } else if ok {
      var arranged := Arrange(bindings);
      out.nix := NixAttrs(arranged);
      ArrangedBuilds(attrs, names, bindings, arranged);
    }
    CloseAll(e, fails, temps, at, old(e.held));
    e.builders := e.builders - 1;
  }

  /** The builder loop over sorted names; the temporaries stay open until the builder is done. */
  method InsertAttrs(e: Evaluator, fails: Schedule, attrs: map<string, GoValue>, names: seq<string>, at: seq<nat>)
    returns (ok: bool, bindings: seq<Binding>, temps: seq<Value>, ghost stop: nat)
    requires e.Valid() && e.Open() && forall i | 0 <= i < |names| :: names[i] in attrs
    modifies e`held, e`lost, e`builders
    ensures e.Valid() && Keeps(e, fails)
    ensures Temporaries(e, temps, old(e.held)) && fresh(temps)
    ensures ok ==> forall i | 0 <= i < |names| :: SucceedsAttr(fails, attrs, names, i, at)
    ensures !ok ==> stop < |names| && !SucceedsAttr(fails, attrs, names, stop, at)
    ensures ok ==> |bindings| == |names|
    ensures ok ==> forall j | 0 <= j < |names| ::
      bindings[j].name == names[j] && Builds(attrs[names[j]], bindings[j].value)
    decreases Attrs(attrs), 0, 0
  {
    bindings, temps := [], [];
    var i := 0;
    while i < |names|
      invariant 0 <= i <= |names| && |bindings| == i
      invariant e.Valid() && e.Open() && Keeps(e, fails)
      invariant Temporaries(e, temps, old(e.held)) && fresh(temps)
      invariant forall j | 0 <= j < i :: bindings[j].name == names[j] && Builds(attrs[names[j]], bindings[j].value)
      invariant forall j | 0 <= j < i :: SucceedsAttr(fails, attrs, names, j, at)
    {
      var child;
      ok, child, temps := InsertOne(e, fails, attrs[names[i]], at, i, temps, old(e.held));
      if !ok {
        return false, bindings, temps, i;
      }
      bindings := bindings + [Binding(names[i], child)];
      i := i + 1;
    }
    return true, bindings, temps, i;
  }

  lemma NamesOf(attrs: map<string, GoValue>, names: seq<string>)
    requires names == Sorted(attrs.Keys)
    ensures forall i | 0 <= i < |names| :: names[i] in attrs
    ensures forall k | k in attrs :: k in names
    ensures forall i, j | 0 <= i < j < |names| :: names[i] != names[j]
  {
    forall i | 0 <= i < |names| ensures names[i] in attrs {
      assert names[i] in Elements(names);
    }
    forall k | k in attrs ensures k in names {
      assert k in Elements(names);
    }
    forall i, j | 0 <= i < j < |names| ensures names[i] != names[j] {
      LessIrreflexive(names[i]);
    }
  }

  /** `b` lists the bindings of `a` in another order. */
  ghost predicate Rearranges(a: seq<Binding>, b: seq<Binding>) {
    |b| == |a| && DistinctNames(b) && (forall x :: x in a <==> x in b)
  }

  /** Nix fixes the order in which a new attribute set lists its attributes; callers learn only
      that it lists the same ones. */
  method Arrange(bindings: seq<Binding>) returns (arranged: seq<Binding>)
    requires DistinctNames(bindings)
    ensures Rearranges(bindings, arranged)
  {
    arranged := bindings;
  }

  lemma ArrangedBuilds(attrs: map<string, GoValue>, names: seq<string>, bindings: seq<Binding>, arranged: seq<Binding>)
    requires names == Sorted(attrs.Keys) && |bindings| == |names|
    requires forall i | 0 <= i < |names| :: names[i] in attrs
    requires forall i | 0 <= i < |names| :: bindings[i].name == names[i] && Builds(attrs[names[i]], bindings[i].value)
    requires Rearranges(bindings, arranged)
    ensures Builds(Attrs(attrs), NixAttrs(arranged))
  {
    NamesOf(attrs, names);
    forall i | 0 <= i < |arranged|
      ensures arranged[i].name in attrs && Builds(attrs[arranged[i].name], arranged[i].value)
    {
      assert arranged[i] in bindings;
      var j :| 0 <= j < |bindings| && bindings[j] == arranged[i];
    }
    forall k | k in attrs ensures exists i | 0 <= i < |arranged| :: arranged[i].name == k {
      var j :| 0 <= j < |names| && names[j] == k;
      assert bindings[j] in arranged;
    }
  }
}
