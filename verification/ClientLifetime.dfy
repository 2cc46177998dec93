/** The handles a client owns: building them, undoing a failed build, and closing them in an order
    in which none is freed while another that borrows it is live. */
module ClientLifetime {
  import opened Optional

  /** The native handles alive in the process, each with the handles it borrows. */
  class Native {
    var live: map<nat, set<nat>>
    ghost var freed: seq<nat>
    var next: nat

    ghost predicate Valid() reads this {
      && (forall h <- live.Keys :: h < next && forall b <- live[h] :: b < next)
      && (forall k | 0 <= k < |freed| :: freed[k] < next && freed[k] !in live)
      && (forall j, k | 0 <= j < k < |freed| :: freed[j] != freed[k])
    }

    /** A constructor of the C API: a fresh handle that borrows others. */
    method Make(borrows: set<nat>) returns (h: nat)
      requires Valid() && forall b <- borrows :: b in live
      modifies this
      ensures Valid()
      ensures h == old(next) && next == h + 1
      ensures live == old(live)[h := borrows] && freed == old(freed)
    {
      h := next;
      live := live[h := borrows];
      next := next + 1;
    }

    /** A free of the C API. The handle must be live, and none of `owned` that is live may borrow it. */
    method Free(h: nat, ghost owned: set<nat>)
      requires Valid() && h in live
      requires forall o <- owned :: o in live ==> h !in live[o]
      modifies this
      ensures Valid()
      ensures live == old(live) - {h} && freed == old(freed) + [h] && next == old(next)
    {
      live := live - {h};
      freed := freed + [h];
    }
  }

  /** A Go object that owns a handle, or has given it back. */
  class Resource {
    var ptr: Option<nat>

    constructor (h: nat)
      ensures ptr == Some(h)
    {
      ptr := Some(h);
    }
  }

  /** The handle of a resource, if it has one. */
  function Ids(r: Resource?): seq<nat>
    reads r
  {
    if r != null && r.ptr.Some? then [r.ptr.value] else []
  }

  function Handle(r: Resource?): nat
    reads r
  {
    if r != null && r.ptr.Some? then r.ptr.value else 0
  }

  function AllIds(rs: seq<Resource?>): seq<nat>
    reads rs
  {
    if rs == [] then [] else Ids(rs[0]) + AllIds(rs[1..])
  }

  lemma {:induction false} AllIdsConcat(a: seq<Resource?>, b: seq<Resource?>)
    ensures AllIds(a + b) == AllIds(a) + AllIds(b)
  {
    if a == [] {
      assert a + b == b;
    } else {
      AllIdsConcat(a[1..], b);
      TailOfConcat(a, b);
      Associative(Ids(a[0]), AllIds(a[1..]), AllIds(b));
    }
  }

  lemma TailOfConcat(a: seq<Resource?>, b: seq<Resource?>)
    requires a != []
    ensures a + b != [] && (a + b)[0] == a[0] && (a + b)[1..] == a[1..] + b
  {}

  lemma Associative(a: seq<nat>, b: seq<nat>, c: seq<nat>)
    ensures a + b + c == a + (b + c)
  {}

  lemma {:induction false} IdIn(rs: seq<Resource?>, k: nat)
    requires k < |rs| && rs[k] != null && rs[k].ptr.Some?
    ensures rs[k].ptr.value in AllIds(rs)
  {
    if k > 0 {
      IdIn(rs[1..], k - 1);
    }
  }

  lemma HandleIn(rs: seq<Resource?>, k: nat, r: Resource)
    requires k < |rs| && rs[k] == r && r.ptr.Some?
    ensures Handle(r) in AllIds(rs)
  {
    IdIn(rs, k);
  }

  predicate AllHeld(rs: seq<Resource?>)
    reads rs
  {
    forall k | 0 <= k < |rs| :: rs[k] != null && rs[k].ptr.Some?
  }

  // ---- the order of freeing ----

  function Elems(order: seq<nat>): set<nat> {
    set h <- order
  }

  /** All live and different, and none borrowed by itself or a later one: freeing them from the
      front never frees a handle that a remaining one borrows. */
  ghost predicate Ordered(order: seq<nat>, live: map<nat, set<nat>>) {
    && (forall k | 0 <= k < |order| :: order[k] in live)
    && (forall j, k | 0 <= j < k < |order| :: order[j] != order[k])
    && (forall j, k | 0 <= j <= k < |order| :: order[j] !in live[order[k]])
  }

  /** A fresh handle that borrows only handles freed after it may be put in front of them. */
  lemma InsertOrdered(before: seq<nat>, h: nat, after: seq<nat>, live: map<nat, set<nat>>, borrows: set<nat>)
    requires Ordered(before + after, live)
    requires h !in live && h !in borrows && forall o <- live.Keys :: h !in live[o]
    requires forall b <- borrows :: b in after
    ensures Ordered(before + ([h] + after), live[h := borrows])
  {
    var order, now, n := before + ([h] + after), live[h := borrows], |before|;
    forall k | 0 <= k < |order| && k != n ensures order[k] == (before + after)[if k < n then k else k - 1] {}
    forall j, k | 0 <= j <= k < |order|
      ensures order[k] in now && (j < k ==> order[j] != order[k]) && order[j] !in now[order[k]]
    {
      if k == n && j < n {
        Apart(before, after, j);
      }
    }
  }

  lemma Apart(before: seq<nat>, after: seq<nat>, j: nat)
    requires forall i, k | 0 <= i < k < |before + after| :: (before + after)[i] != (before + after)[k]
    requires j < |before|
    ensures before[j] !in after
  {
    forall m | 0 <= m < |after| ensures after[m] != before[j] {
      assert (before + after)[j] != (before + after)[|before| + m];
    }
  }

  /** `Close` of the next resource of `rs`, which may be a nil pointer. `freed` and `live` are those
      from before the first. */
  method CloseNext(ghost rs: seq<Resource?>, ghost k: nat, r: Resource?, native: Native,
                   ghost order: seq<nat>, ghost live: map<nat, set<nat>>, ghost freed: seq<nat>)
    requires k < |rs| && rs[k] == r && Different(rs)
    requires native.Valid() && Ordered(order, live)
    requires Closed(native, rs, k, order, live, freed)
    modifies r, native
    ensures native.Valid() && native.next == old(native.next)
    ensures Closed(native, rs, k + 1, order, live, freed)
  {
    ghost var n := |order| - |AllIds(rs[k..])|;
    assert order[n..] == AllIds(rs[k..]);
    assert AllIds(rs[k..]) == Ids(r) + AllIds(rs[k + 1..]) by { assert rs[k..][1..] == rs[k + 1..]; }
    if r != null && r.ptr.Some? {
      assert order[n] == r.ptr.value;
      native.Free(r.ptr.value, Elems(order));
      r.ptr := None;
      assert order[..n + 1] == order[..n] + [order[n]];
      assert order[n + 1..] == AllIds(rs[k + 1..]);
    }
  }

  predicate Different(rs: seq<Resource?>) {
    forall j, k | 0 <= j < k < |rs| && rs[j] != null :: rs[j] != rs[k]
  }

  /** The handles of `rs[..k]` have been freed, in order, and those of `rs[k..]` have not. */
  ghost predicate Closed(native: Native, rs: seq<Resource?>, k: nat,
                         order: seq<nat>, live: map<nat, set<nat>>, freed: seq<nat>)
    requires k <= |rs|
    reads native, rs
  {
    var rest := AllIds(rs[k..]);
    && |rest| <= |order|
    && var n := |order| - |rest|;
    && order[n..] == rest
    && native.freed == freed + order[..n]
    && native.live == live - Elems(order[..n])
  }

  lemma ClosedAll(native: Native, rs: seq<Resource?>, order: seq<nat>, live: map<nat, set<nat>>, freed: seq<nat>)
    requires Closed(native, rs, |rs|, order, live, freed)
    ensures native.freed == freed + order && native.live == live - Elems(order)
  {
    assert rs[|rs|..] == [] && order[..|order|] == order;
  }

  // ---- taking ownership ----

  /** A fresh handle may become owned anywhere before the handles it borrows. */
  lemma AdoptOrdered(a: seq<Resource?>, r: Resource, b: seq<Resource?>, live: map<nat, set<nat>>, borrows: set<nat>)
    requires r.ptr.Some? && Ordered(AllIds(a) + AllIds(b), live)
    requires r.ptr.value !in live && r.ptr.value !in borrows && forall o <- live.Keys :: r.ptr.value !in live[o]
    requires forall h <- borrows :: h in AllIds(b)
    ensures Ordered(AllIds(a + ([r] + b)), live[r.ptr.value := borrows])
  {
    assert AllIds([r]) == [r.ptr.value];
    AllIdsConcat([r], b);
    AllIdsConcat(a, [r] + b);
    InsertOrdered(AllIds(a), r.ptr.value, AllIds(b), live, borrows);
  }

  lemma InsertDifferent(a: seq<Resource?>, r: Resource, b: seq<Resource?>)
    requires Different(a + b) && forall k | 0 <= k < |a + b| :: (a + b)[k] != r
    ensures Different(a + ([r] + b))
  {
    forall k | 0 <= k < |a + ([r] + b)| && k != |a|
      ensures (a + ([r] + b))[k] == (a + b)[if k < |a| then k else k - 1]
    {}
  }

  /** A constructor of a sibling package: a new resource, to be closed after `a` and before `b`. */
  method MakeResource(native: Native, ghost a: seq<Resource?>, ghost b: seq<Resource?>, borrows: set<nat>)
    returns (r: Resource)
    requires native.Valid() && Different(a + b) && Ordered(AllIds(a + b), native.live)
    requires forall h <- borrows :: h in AllIds(b)
    modifies native
    ensures native.Valid() && native.freed == old(native.freed)
    ensures fresh(r) && r.ptr == Some(old(native.next)) && old(native.next) !in old(native.live)
    ensures native.live == old(native.live)[old(native.next) := borrows]
    ensures Different(a + ([r] + b)) && Ordered(AllIds(a + ([r] + b)), native.live)
    ensures AllIds(b) == old(AllIds(b)) && (AllHeld(b) <==> old(AllHeld(b)))
  {
    AllIdsConcat(a, b);
    AfterAll(AllIds(a), AllIds(b), native.live);
    ghost var live := native.live;
    var h := native.Make(borrows);
    r := new Resource(h);
    AdoptOrdered(a, r, b, live, borrows);
    InsertDifferent(a, r, b);
  }

  lemma ConcatAgain(a: seq<Resource?>, r: Resource, b: seq<Resource?>)
    ensures a + [r] + b == a + ([r] + b)
  {}

  lemma AfterAll(before: seq<nat>, after: seq<nat>, live: map<nat, set<nat>>)
    requires Ordered(before + after, live)
    ensures forall h <- after :: h in live
  {
    forall k | 0 <= k < |after| ensures after[k] in live {
      assert (before + after)[|before| + k] == after[k];
    }
  }

  class Client {
    var ctx: Resource?
    var fetcherSettings: Resource?
    var flakeSettings: Resource?
    var store: Resource?
    var evaluator: Resource?
    var resources: seq<Resource>

    constructor (ctx: Resource)
      ensures this.ctx == ctx && evaluator == store == flakeSettings == fetcherSettings == null && resources == []
    {
      this.ctx := ctx;
      fetcherSettings, flakeSettings, store, evaluator, resources := null, null, null, null, [];
    }

    function Core(): seq<Resource?> reads this { [evaluator, store, flakeSettings, fetcherSettings, ctx] }

    /** What the client owns, in the order in which it is closed. */
    function Fields(): seq<Resource?> reads this { resources + Core() }

    ghost predicate Valid(native: Native) reads this, native, Fields(), Core() {
      && native.Valid()
      && (ctx == null ==> resources == [] && forall k | 0 <= k < 5 :: Core()[k] == null)
      && (forall k | 0 <= k < 5 && Core()[k] != null :: Core()[k].ptr.Some?)
      && Different(Fields())
      && Ordered(AllIds(Fields()), native.live)
    }

    lemma OwnsNothing()
      requires resources == [] && forall k | 0 <= k < 5 :: Core()[k] == null
      ensures AllIds(Fields()) == []
    {
      AllIdsNull(Fields());
    }

    method Forget()
      modifies this
      ensures ctx == null && resources == [] && (forall k | 0 <= k < 5 :: Core()[k] == null)
      ensures Different(Fields()) && AllIds(Fields()) == []
    {
      resources, evaluator, store, flakeSettings, fetcherSettings, ctx := [], null, null, null, null, null;
      OwnsNothing();
    }

    method CloseCore(native: Native, ghost rs: seq<Resource?>,
                     ghost order: seq<nat>, ghost live: map<nat, set<nat>>, ghost freed: seq<nat>)
      requires rs == Fields() && Different(rs)
      requires native.Valid() && Ordered(order, live)
      requires Closed(native, rs, |resources|, order, live, freed)
      modifies rs, native
      ensures native.Valid() && Closed(native, rs, |rs|, order, live, freed)
    {
      ghost var k := |resources|;
      assert |rs| == k + 5 && rs[k] == evaluator && rs[k + 1] == store && rs[k + 2] == flakeSettings;
      assert rs[k + 3] == fetcherSettings && rs[k + 4] == ctx;
      CloseNext(rs, k, evaluator, native, order, live, freed);
      CloseNext(rs, k + 1, store, native, order, live, freed);
      CloseNext(rs, k + 2, flakeSettings, native, order, live, freed);
      CloseNext(rs, k + 3, fetcherSettings, native, order, live, freed);
      CloseNext(rs, k + 4, ctx, native, order, live, freed);
    }

    method CloseFlakes(native: Native, ghost rs: seq<Resource?>,
                       ghost order: seq<nat>, ghost live: map<nat, set<nat>>, ghost freed: seq<nat>)
      requires rs == Fields() && Different(rs)
      requires native.Valid() && Ordered(order, live) && Closed(native, rs, 0, order, live, freed)
      modifies rs, native
      ensures native.Valid() && Closed(native, rs, |resources|, order, live, freed)
    {
      var k := 0;
      while k < |resources|
        invariant 0 <= k <= |resources| && rs == Fields()
        invariant native.Valid() && Closed(native, rs, k, order, live, freed)
        invariant unchanged(this)
      {
        CloseNext(rs, k, resources[k], native, order, live, freed);
        k := k + 1;
      }
    }

    /** Frees everything the client owns, each handle once, flakes first and the context last, and
        nothing else; on a closed client it does nothing. */
    method CloseLocked(native: Native)
      requires Valid(native)
      modifies this, Fields(), native
      ensures Valid(native) && ctx == null
      ensures native.freed == old(native.freed) + old(AllIds(Fields()))
      ensures native.live == old(native.live) - Elems(old(AllIds(Fields())))
      ensures old(ctx) == null ==> native.freed == old(native.freed) && native.live == old(native.live)
    {
      if ctx == null {
        OwnsNothing();
        return;
      }
      ghost var rs, order := Fields(), AllIds(Fields());
      ghost var live, freed := native.live, native.freed;
      assert rs[0..] == rs && order[..0] == [];
      CloseFlakes(native, rs, order, live, freed);
      CloseCore(native, rs, order, live, freed);
      ClosedAll(native, rs, order, live, freed);
      Forget();
    }

    /** Every handle is there, and each borrows what it was made from. */
    ghost predicate Complete(native: Native)
      requires Valid(native)
      reads this, native, Fields(), Core(), ctx, evaluator, store, flakeSettings, fetcherSettings
    {
      && evaluator != null && store != null && flakeSettings != null && fetcherSettings != null && ctx != null
      && AllIds(Core())
        == [Handle(evaluator), Handle(store), Handle(flakeSettings), Handle(fetcherSettings), Handle(ctx)]
      && (var c, e, f, s := Handle(ctx), Handle(evaluator), Handle(flakeSettings), Handle(store);
          && c in native.live && native.live[c] == {}
          && s in native.live && native.live[s] == {c}
          && f in native.live && native.live[f] == {c}
          && e in native.live && native.live[e] == {c, s, f})
    }

    /** `flake.New` under the client, then `append` to its resources. The flake borrows the context,
        the evaluator and the flake settings; if its handle cannot be made nothing changes. */
    method OpenFlake(native: Native, fails: bool) returns (flake: Resource?)
      requires Valid(native) && Complete(native)
      modifies this`resources, native
      ensures Valid(native) && Complete(native) && Core() == old(Core())
      ensures flake == null <==> fails
      ensures native.freed == old(native.freed)
      ensures fails ==> resources == old(resources) && native.live == old(native.live)
      ensures !fails ==> fresh(flake) && flake.ptr == Some(old(native.next)) && resources == old(resources) + [flake]
      ensures !fails ==>
        native.live == old(native.live[native.next := {Handle(ctx), Handle(evaluator), Handle(flakeSettings)}])
    {
      if fails {
        return null;
      }
      flake := AddFlake(native);
    }

    method AddFlake(native: Native) returns (flake: Resource)
      requires Valid(native) && Complete(native)
      modifies this`resources, native
      ensures Valid(native) && Core() == old(Core()) && AllIds(Core()) == old(AllIds(Core()))
      ensures old(native.next) !in old(native.live)
      ensures native.freed == old(native.freed)
      ensures fresh(flake) && flake.ptr == Some(old(native.next)) && resources == old(resources) + [flake]
      ensures native.live == old(native.live[native.next := {Handle(ctx), Handle(evaluator), Handle(flakeSettings)}])
    {
      var borrows := {Handle(ctx), Handle(evaluator), Handle(flakeSettings)};
      OwnsCore(native);
      flake := MakeResource(native, resources, Core(), borrows);
      ConcatAgain(resources, flake, Core());
      ghost var fields := resources + ([flake] + Core());
      resources := resources + [flake];
      assert Fields() == fields;
    }

    /** What a complete client owns, and so closes, in order: its flakes as they were opened, the
        evaluator, the store, the flake settings, the fetcher settings, and the context. */
    lemma OwnedInOrder(native: Native)
      requires Valid(native) && Complete(native)
      ensures AllIds(Fields()) == AllIds(resources)
        + [Handle(evaluator), Handle(store), Handle(flakeSettings), Handle(fetcherSettings), Handle(ctx)]
      ensures AllHeld(resources) ==>
        |AllIds(resources)| == |resources|
        && forall k | 0 <= k < |resources| :: AllIds(resources)[k] == resources[k].ptr.value
    {
      OwnsCore(native);
      if AllHeld(resources) {
        HeldIds(resources);
      }
    }

    lemma OwnsCore(native: Native)
      requires Valid(native) && Complete(native)
      ensures AllIds(Fields()) == AllIds(resources) + AllIds(Core())
      ensures forall h <- AllIds(Core()) :: h in native.live
    {
      AllIdsConcat(resources, Core());
      AfterAll(AllIds(resources), AllIds(Core()), native.live);
    }
  }

  lemma {:induction false} HeldIds(rs: seq<Resource?>)
    requires AllHeld(rs)
    ensures |AllIds(rs)| == |rs| && forall k | 0 <= k < |rs| :: AllIds(rs)[k] == rs[k].ptr.value
  {
    if rs != [] {
      HeldIds(rs[1..]);
    }
  }

  lemma {:induction false} AllIdsNull(rs: seq<Resource?>)
    requires forall k | 0 <= k < |rs| :: rs[k] == null
    ensures AllIds(rs) == []
  {
    if rs != [] {
      AllIdsNull(rs[1..]);
    }
  }

  // ---- building a client ----

  datatype Step =
    | NewContext | ApplySettings | SetVerbosity | SetLogFormat | SetLogSinkPath
    | NewFetcherSettings | NewFlakeSettings | OpenStore | NewEvaluator

  /** The steps of NewClient in order; without a log sink path SetLogSinkPath makes no native call. */
  function Steps(sink: bool): seq<Step> {
    [NewContext] + AfterContext(sink)
  }

  function AfterContext(sink: bool): seq<Step> {
    [ApplySettings] + ([SetVerbosity] + ([SetLogFormat] +
      if sink then [SetLogSinkPath] + AfterSettings() else AfterSettings()))
  }

  function AfterSettings(): seq<Step> {
    [NewFetcherSettings] + ([NewFlakeSettings] + ([OpenStore] + [NewEvaluator]))
  }

  /** The step at which a build comes to an end. */
  function FirstFailure(steps: seq<Step>, fails: set<Step>): Option<Step> {
    if steps == [] then None
    else if steps[0] in fails then Some(steps[0])
    else FirstFailure(steps[1..], fails)
  }

  lemma FirstFailureSteps(fails: set<Step>, sink: bool)
    ensures FirstFailure(Steps(sink), fails) ==
      if NewContext in fails then Some(NewContext) else FirstFailure(AfterContext(sink), fails)
    ensures FirstFailure(AfterContext(sink), fails) ==
      if ApplySettings in fails then Some(ApplySettings)
      else if SetVerbosity in fails then Some(SetVerbosity)
      else if SetLogFormat in fails then Some(SetLogFormat)
      else if sink && SetLogSinkPath in fails then Some(SetLogSinkPath)
      else FirstFailure(AfterSettings(), fails)
    ensures FirstFailure(AfterSettings(), fails) ==
      if NewFetcherSettings in fails then Some(NewFetcherSettings)
      else if NewFlakeSettings in fails then Some(NewFlakeSettings)
      else if OpenStore in fails then Some(OpenStore)
      else if NewEvaluator in fails then Some(NewEvaluator)
      else None
  {
    FailsFirst(OpenStore, [NewEvaluator], fails);
    FailsFirst(NewFlakeSettings, [OpenStore] + [NewEvaluator], fails);
    FailsFirst(NewFetcherSettings, [NewFlakeSettings] + ([OpenStore] + [NewEvaluator]), fails);
    var rest := if sink then [SetLogSinkPath] + AfterSettings() else AfterSettings();
    FailsFirst(SetLogSinkPath, AfterSettings(), fails);
    FailsFirst(SetLogFormat, rest, fails);
    FailsFirst(SetVerbosity, [SetLogFormat] + rest, fails);
    FailsFirst(ApplySettings, [SetVerbosity] + ([SetLogFormat] + rest), fails);
    FailsFirst(NewContext, AfterContext(sink), fails);
  }

  lemma FailsFirst(step: Step, rest: seq<Step>, fails: set<Step>)
    ensures FirstFailure([step] + rest, fails) == if step in fails then Some(step) else FirstFailure(rest, fails)
  {
    assert ([step] + rest)[1..] == rest;
  }

  /** Of what is live, exactly `ids` is new since `before`, and it is in an order of freeing. */
  ghost predicate OwnsIds(live: map<nat, set<nat>>, ids: seq<nat>, before: map<nat, set<nat>>) {
    && Ordered(ids, live) && live.Keys == before.Keys + Elems(ids)
    && (forall h <- before.Keys :: h !in ids && live[h] == before[h])
  }

  /** `rs` are different resources with the handles `ids`. */
  ghost predicate HasIds(rs: seq<Resource?>, ids: seq<nat>)
    reads rs
  {
    AllHeld(rs) && Different(rs) && AllIds(rs) == ids
  }

  /** What a client under construction has made: its context last, its evaluator first. */
  function Suffix(c: Client): seq<Resource?>
    reads c
  {
    if c.evaluator != null then c.Core()
    else if c.store != null then [c.store, c.flakeSettings, c.fetcherSettings, c.ctx]
    else if c.flakeSettings != null then [c.flakeSettings, c.fetcherSettings, c.ctx]
    else if c.fetcherSettings != null then [c.fetcherSettings, c.ctx]
    else [c.ctx]
  }

  predicate InSteps(c: Client)
    reads c
  {
    && c.resources == [] && c.ctx != null
    && (c.evaluator != null ==> c.store != null) && (c.store != null ==> c.flakeSettings != null)
    && (c.flakeSettings != null ==> c.fetcherSettings != null)
  }

  /** The client owns exactly what it has made so far, in order. */
  ghost predicate Made(c: Client, native: Native, before: map<nat, set<nat>>)
    reads c, native, Suffix(c)
  {
    && InSteps(c) && native.Valid()
    && AllHeld(Suffix(c)) && Different(Suffix(c)) && OwnsIds(native.live, AllIds(Suffix(c)), before)
  }

  lemma MadeValid(c: Client, native: Native, before: map<nat, set<nat>>)
    requires Made(c, native, before)
    ensures c.Valid(native) && AllIds(c.Fields()) == AllIds(Suffix(c))
  {
    var nulls: seq<Resource?> :=
      if c.evaluator != null then [] else if c.store != null then [null]
        else if c.flakeSettings != null then [null, null]
      else if c.fetcherSettings != null then [null, null, null] else [null, null, null, null];
    FieldsAre(c, nulls);
    AllIdsConcat(nulls, Suffix(c));
    AllIdsNull(nulls);
    NullsDifferent(nulls, Suffix(c));
    HeldAfterNulls(nulls, Suffix(c));
    assert forall k | 0 <= k < 5 :: c.Fields()[k] == c.Core()[k];
  }

  lemma FieldsAre(c: Client, nulls: seq<Resource?>)
    requires c.resources == [] && |nulls| == 5 - |Suffix(c)| && forall k | 0 <= k < |nulls| :: nulls[k] == null
    requires InSteps(c)
    ensures c.Fields() == nulls + Suffix(c)
  {
    assert c.Fields() == c.Core();
  }

  lemma HeldAfterNulls(nulls: seq<Resource?>, made: seq<Resource?>)
    requires forall k | 0 <= k < |nulls| :: nulls[k] == null
    requires AllHeld(made)
    ensures forall k | 0 <= k < |nulls + made| && (nulls + made)[k] != null :: (nulls + made)[k].ptr.Some?
    ensures forall k | |nulls| <= k < |nulls + made| :: (nulls + made)[k] != null
  {
    forall k | |nulls| <= k < |nulls + made|
      ensures (nulls + made)[k] == made[k - |nulls|] != null && (nulls + made)[k].ptr.Some?
    {}
  }

  lemma NullsDifferent(nulls: seq<Resource?>, rs: seq<Resource?>)
    requires Different(rs) && forall k | 0 <= k < |nulls| :: nulls[k] == null
    ensures Different(nulls + rs)
  {
    forall j, k | 0 <= j < k < |nulls + rs| && (nulls + rs)[j] != null ensures (nulls + rs)[j] != (nulls + rs)[k] {
      assert (nulls + rs)[j] == rs[j - |nulls|] && (nulls + rs)[k] == rs[k - |nulls|];
    }
  }

  /** The next handle of the client, made from `borrows`. */
  method MakeNext(native: Native, ghost made: seq<Resource?>, ghost ids: seq<nat>, borrows: set<nat>,
                  ghost before: map<nat, set<nat>>)
    returns (r: Resource)
    requires native.Valid() && HasIds(made, ids) && OwnsIds(native.live, ids, before)
    requires forall h <- borrows :: h in ids
    modifies native
    ensures native.Valid() && native.freed == old(native.freed)
    ensures fresh(r) && Handle(r) !in old(native.live)
    ensures native.live == old(native.live)[Handle(r) := borrows]
    ensures HasIds([r] + made, [Handle(r)] + ids) && OwnsIds(native.live, [Handle(r)] + ids, before)
  {
    ghost var live := native.live;
    NoneBefore(made);
    r := MakeResource(native, [], made, borrows);
    NoneBefore([r] + made);
    assert ([r] + made)[1..] == made;
    KeysMore(before.Keys, ids, r.ptr.value);
  }

  lemma KeysMore(keys: set<nat>, ids: seq<nat>, h: nat)
    ensures keys + Elems(ids) + {h} == keys + Elems([h] + ids)
  {}

  lemma NoneBefore(rs: seq<Resource?>)
    ensures [] + rs == rs
  {}

  method MakeFetcherSettings(c: Client, native: Native, ghost before: map<nat, set<nat>>)
    requires Made(c, native, before) && c.fetcherSettings == null && c.flakeSettings == c.store == c.evaluator == null
    modifies c`fetcherSettings, native
    ensures native.freed == old(native.freed)
    ensures Made(c, native, before) && fresh(c.fetcherSettings) && Handle(c.fetcherSettings) !in old(native.live)
    ensures native.live == old(native.live)[Handle(c.fetcherSettings) := {Handle(c.ctx)}]
  {
    ghost var made, ids := [c.ctx], AllIds(Suffix(c));
    HandleIn(made, 0, c.ctx);
    var r := MakeNext(native, made, ids, {Handle(c.ctx)}, before);
    c.fetcherSettings := r;
    Prepended(r, c.ctx, null, null, null);
    Attached(c, native, [r] + made, [Handle(r)] + ids, before);
  }

  method MakeFlakeSettings(c: Client, native: Native, ghost before: map<nat, set<nat>>)
    requires Made(c, native, before) && c.flakeSettings == null && c.fetcherSettings != null
      && c.store == c.evaluator == null
    modifies c`flakeSettings, native
    ensures native.freed == old(native.freed)
    ensures Made(c, native, before) && fresh(c.flakeSettings) && Handle(c.flakeSettings) !in old(native.live)
    ensures native.live == old(native.live)[Handle(c.flakeSettings) := {Handle(c.ctx)}]
  {
    ghost var made, ids := [c.fetcherSettings, c.ctx], AllIds(Suffix(c));
    HandleIn(made, 1, c.ctx);
    var r := MakeNext(native, made, ids, {Handle(c.ctx)}, before);
    c.flakeSettings := r;
    Prepended(r, c.fetcherSettings, c.ctx, null, null);
    Attached(c, native, [r] + made, [Handle(r)] + ids, before);
  }

  method MakeStore(c: Client, native: Native, ghost before: map<nat, set<nat>>)
    requires Made(c, native, before) && c.store == null && c.flakeSettings != null && c.evaluator == null
    modifies c`store, native
    ensures native.freed == old(native.freed)
    ensures Made(c, native, before) && fresh(c.store) && Handle(c.store) !in old(native.live)
    ensures native.live == old(native.live)[Handle(c.store) := {Handle(c.ctx)}]
  {
    ghost var made, ids := [c.flakeSettings, c.fetcherSettings, c.ctx], AllIds(Suffix(c));
    assert made == Suffix(c);
    HandleIn(made, 2, c.ctx);
    var r := MakeNext(native, made, ids, {Handle(c.ctx)}, before);
    c.store := r;
    Prepended(r, c.flakeSettings, c.fetcherSettings, c.ctx, null);
    Attached(c, native, [r] + made, [Handle(r)] + ids, before);
  }

  method MakeEvaluator(c: Client, native: Native, ghost before: map<nat, set<nat>>)
    requires Made(c, native, before) && c.evaluator == null && c.store != null
    modifies c`evaluator, native
    ensures native.freed == old(native.freed)
    ensures Made(c, native, before) && fresh(c.evaluator) && Handle(c.evaluator) !in old(native.live)
    ensures native.live
      == old(native.live)[Handle(c.evaluator) := {Handle(c.ctx), Handle(c.store), Handle(c.flakeSettings)}]
  {
    ghost var made, ids := [c.store, c.flakeSettings, c.fetcherSettings, c.ctx], AllIds(Suffix(c));
    BorrowsMade(made);
    var r := MakeNext(native, made, ids, {Handle(c.ctx), Handle(c.store), Handle(c.flakeSettings)}, before);
    c.evaluator := r;
    Prepended(r, c.store, c.flakeSettings, c.fetcherSettings, c.ctx);
    Attached(c, native, [r] + made, [Handle(r)] + ids, before);
  }

  lemma Prepended(r: Resource?, a: Resource?, b: Resource?, c: Resource?, d: Resource?)
    ensures [r] + [a] == [r, a] && [r] + [a, b] == [r, a, b]
    ensures [r] + [a, b, c] == [r, a, b, c] && [r] + [a, b, c, d] == [r, a, b, c, d]
  {}

  lemma Attached(c: Client, native: Native, made: seq<Resource?>, ids: seq<nat>, before: map<nat, set<nat>>)
    requires InSteps(c) && native.Valid() && Suffix(c) == made && HasIds(made, ids) && OwnsIds(native.live, ids, before)
    ensures Made(c, native, before)
  {}

  lemma BorrowsMade(made: seq<Resource?>)
    requires |made| == 4 && AllHeld(made)
    ensures forall h <- {Handle(made[3]), Handle(made[0]), Handle(made[1])} :: h in AllIds(made)
  {
    IdIn(made, 3);
    IdIn(made, 0);
    IdIn(made, 1);
  }

  /** The body of NewClient after its deferred function is installed. `failed`: it returns an error;
      `err`: what the deferred function then sees in the variable it captured. */
  method Build(c: Client, native: Native, fails: set<Step>, sink: bool, ghost before: map<nat, set<nat>>)
    returns (failed: bool, err: bool)
    requires Made(c, native, before) && c.evaluator == c.store == c.flakeSettings == c.fetcherSettings == null
    requires Handle(c.ctx) in native.live && native.live[Handle(c.ctx)] == {}
    modifies c, native
    ensures c.ctx == old(c.ctx) && native.freed == old(native.freed)
    ensures failed <==> FirstFailure(AfterContext(sink), fails).Some?
    ensures failed ==> (err <==> FirstFailure(AfterContext(sink), fails) != Some(SetLogSinkPath))
    ensures Made(c, native, before)
    ensures (c.evaluator == null || fresh(c.evaluator)) && (c.store == null || fresh(c.store))
    ensures (c.flakeSettings == null || fresh(c.flakeSettings))
      && (c.fetcherSettings == null || fresh(c.fetcherSettings))
    ensures failed && !err ==> native.live == old(native.live)
    ensures !failed ==> !err && c.Valid(native) && c.Complete(native)
  {
    FirstFailureSteps(fails, sink);
    err := ApplySettings in fails;
    if err { return true, err; }
    err := SetVerbosity in fails;
    if err { return true, err; }
    err := SetLogFormat in fails;
    if err { return true, err; }
    if sink {
      var shadowing := SetLogSinkPath in fails;
      if shadowing { return true, err; }
    }
    failed, err := BuildHandles(c, native, fails, before);
  }

  lemma FiveIds(a: Resource, b: Resource, c: Resource, d: Resource, e: Resource)
    requires a.ptr.Some? && b.ptr.Some? && c.ptr.Some? && d.ptr.Some? && e.ptr.Some?
    ensures AllIds([a, b, c, d, e]) == [Handle(a), Handle(b), Handle(c), Handle(d), Handle(e)]
  {
    assert [a, b, c, d, e][1..] == [b, c, d, e];
    assert [b, c, d, e][1..] == [c, d, e];
    assert [c, d, e][1..] == [d, e];
    assert [d, e][1..] == [e];
    assert AllIds([e]) == [Handle(e)];
    assert AllIds([d, e]) == [Handle(d), Handle(e)];
    assert AllIds([c, d, e]) == [Handle(c), Handle(d), Handle(e)];
  }

  lemma AllMade(c: Client, native: Native, before: map<nat, set<nat>>)
    requires Made(c, native, before) && c.evaluator != null
    ensures c.Valid(native)
    ensures AllIds(c.Core()) ==
      [Handle(c.evaluator), Handle(c.store), Handle(c.flakeSettings), Handle(c.fetcherSettings), Handle(c.ctx)]
  {
    MadeValid(c, native, before);
    var made := Suffix(c);
    assert made[0] == c.evaluator && made[1] == c.store && made[2] == c.flakeSettings;
    assert made[3] == c.fetcherSettings && made[4] == c.ctx;
    FiveIds(c.evaluator, c.store, c.flakeSettings, c.fetcherSettings, c.ctx);
  }

  method BuildHandles(c: Client, native: Native, fails: set<Step>, ghost before: map<nat, set<nat>>)
    returns (failed: bool, err: bool)
    requires Made(c, native, before) && c.evaluator == c.store == c.flakeSettings == c.fetcherSettings == null
    requires Handle(c.ctx) in native.live && native.live[Handle(c.ctx)] == {}
    modifies c`fetcherSettings, c`flakeSettings, c`store, c`evaluator, native
    ensures native.freed == old(native.freed)
    ensures failed == err ==
      (NewFetcherSettings in fails || NewFlakeSettings in fails || OpenStore in fails || NewEvaluator in fails)
    ensures Made(c, native, before)
    ensures (c.evaluator == null || fresh(c.evaluator)) && (c.store == null || fresh(c.store))
    ensures (c.flakeSettings == null || fresh(c.flakeSettings))
      && (c.fetcherSettings == null || fresh(c.fetcherSettings))
    ensures !failed ==> c.Valid(native) && c.Complete(native)
  {
    err := NewFetcherSettings in fails;
    if err { return true, err; }
    MakeFetcherSettings(c, native, before);
    err := NewFlakeSettings in fails;
    if err { return true, err; }
    MakeFlakeSettings(c, native, before);
    failed, err := BuildEvaluator(c, native, fails, before);
  }

  method BuildEvaluator(c: Client, native: Native, fails: set<Step>, ghost before: map<nat, set<nat>>)
    returns (failed: bool, err: bool)
    requires Made(c, native, before) && c.evaluator == c.store == null && c.flakeSettings != null
    requires Handle(c.ctx) in native.live && native.live[Handle(c.ctx)] == {}
    requires Handle(c.flakeSettings) in native.live && native.live[Handle(c.flakeSettings)] == {Handle(c.ctx)}
    modifies c`store, c`evaluator, native
    ensures native.freed == old(native.freed)
    ensures failed == err == (OpenStore in fails || NewEvaluator in fails)
    ensures Made(c, native, before)
    ensures (c.evaluator == null || fresh(c.evaluator)) && (c.store == null || fresh(c.store))
    ensures !failed ==> c.Valid(native) && c.Complete(native)
  {
    err := OpenStore in fails;
    if err { return true, err; }
    MakeStore(c, native, before);
    err := NewEvaluator in fails;
    if err { return true, err; }
    MakeEvaluator(c, native, before);
    AllMade(c, native, before);
    return false, err;
  }

  lemma MadeRest(c: Client, native: Native, before: map<nat, set<nat>>)
    requires Made(c, native, before)
    ensures native.live - Elems(AllIds(Suffix(c))) == before
  {}

  /** The client with its context, before anything else. */
  method Begin(native: Native) returns (c: Client)
    requires native.Valid()
    modifies native
    ensures fresh(c) && fresh(c.ctx) && c.evaluator == c.store == c.flakeSettings == c.fetcherSettings == null
    ensures Made(c, native, old(native.live)) && Handle(c.ctx) == old(native.next)
    ensures native.live == old(native.live)[old(native.next) := {}] && native.freed == old(native.freed)
  {
    var h := native.Make({});
    var ctx := new Resource(h);
    c := new Client(ctx);
    assert AllIds([c.ctx]) == [h];
  }

  /** The deferred function of NewClient, when it sees an error. */
  method Undo(c: Client, native: Native, ghost before: map<nat, set<nat>>)
    requires Made(c, native, before)
    modifies c, c.Core(), native
    ensures native.Valid() && native.live == before
    ensures native.freed == old(native.freed) + old(AllIds(Suffix(c)))
  {
    MadeValid(c, native, before);
    MadeRest(c, native, before);
    assert c.Fields() == c.Core();
    c.CloseLocked(native);
  }

  /** `NewClient`: a complete client exactly when no step fails; otherwise every handle made is freed,
      except when the failing step is setting the log sink path: its error is not the one the
      deferred function sees, and the context stays alive with nobody to free it. */
  method NewClient(native: Native, fails: set<Step>, sink: bool) returns (c: Client?)
    requires native.Valid()
    modifies native
    ensures native.Valid()
    ensures c == null <==> FirstFailure(Steps(sink), fails).Some?
    ensures c == null ==>
      (native.live == old(native.live) <==> FirstFailure(Steps(sink), fails) != Some(SetLogSinkPath))
    ensures FirstFailure(Steps(sink), fails) == Some(SetLogSinkPath) ==>
      native.live == old(native.live)[old(native.next) := {}] && native.freed == old(native.freed)
    ensures c != null ==> fresh(c) && c.Valid(native) && c.Complete(native) && c.resources == []
    ensures c != null ==> native.freed == old(native.freed)
    ensures c != null ==> native.live - Elems(AllIds(c.Fields())) == old(native.live)
  {
    FirstFailureSteps(fails, sink);
    ghost var before := native.live;
    if NewContext in fails {
      return null;
    }
    c := Begin(native);
    var failed, err := Build(c, native, fails, sink, before);
    if err {
      Undo(c, native, before);
    } else if !failed {
      MadeValid(c, native, before);
      MadeRest(c, native, before);
    }
    if failed {
      c := null;
    }
  }

  /** The input at which the clean-up is missed: a log sink path, and only setting it fails. */
  lemma SinkFailureIsFirst()
    ensures FirstFailure(Steps(true), {SetLogSinkPath}) == Some(SetLogSinkPath)
    ensures FirstFailure(Steps(false), {SetLogSinkPath}) == None
  {
    FirstFailureSteps({SetLogSinkPath}, true);
    FirstFailureSteps({SetLogSinkPath}, false);
  }

  /** A client is asked for with that input: it fails, and the context stays live. */
  method LoseContext(native: Native) returns (ctx: nat)
    requires native.Valid()
    modifies native
    ensures ctx == old(native.next) && native.live == old(native.live)[ctx := {}] && native.freed == old(native.freed)
  {
    SinkFailureIsFirst();
    ctx := native.next;
    var c := NewClient(native, {SetLogSinkPath}, true);
  }
}
