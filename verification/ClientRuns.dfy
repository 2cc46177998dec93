/** What the client protocol keeps over whole runs. */
module ClientRuns {
  import opened Optional
  import opened ClientProtocol

  datatype Step = Step(call: nat, action: Action)

  /** `states` are the states passed through when `steps` are taken one after another. */
  ghost predicate IsPath(states: seq<State>, steps: seq<Step>) {
    && |states| == |steps| + 1
    && (forall n | 0 <= n < |steps| ::
          Can(states[n], steps[n].call, steps[n].action)
          && states[n + 1] == Apply(states[n], steps[n].call, steps[n].action))
  }

  /** A path from a state in which nothing has happened yet. */
  ghost predicate IsRun(states: seq<State>, steps: seq<Step>) {
    IsPath(states, steps) && Init(states[0])
  }

  lemma {:induction false} PathInv(states: seq<State>, steps: seq<Step>, n: nat)
    requires IsPath(states, steps) && Inv(states[0]) && n < |states|
    ensures Inv(states[n])
  {
    if n > 0 {
      PathInv(states, steps, n - 1);
      StepInv(states[n - 1], steps[n - 1].call, steps[n - 1].action);
    }
  }

  /** The invariant holds at every state of every run. */
  lemma RunInv(states: seq<State>, steps: seq<Step>, n: nat)
    requires IsRun(states, steps) && n < |states|
    ensures Inv(states[n])
  {
    InitInv(states[0]);
    PathInv(states, steps, n);
  }

  // ---- mutual exclusion ----

  /** Using the client's handles: the handler is running or closeLocked is. */
  predicate Active(call: Call) {
    call.handler.Running? || call.phase.Closing?
  }

  /** On one client at most one call is active, it holds busy, and as long as its handler runs no
      handle of the client has been freed. */
  lemma MutualExclusion(states: seq<State>, steps: seq<Step>, n: nat, i: nat)
    requires IsRun(states, steps) && n < |states| && i < |states[n].calls|
    requires Active(states[n].calls[i])
    ensures var s := states[n];
      var c := s.calls[i].client;
      && c < |s.clients| && s.clients[c].holder == Some(i)
      && (forall j | 0 <= j < |s.calls| && j != i && s.calls[j].client == c :: !Active(s.calls[j]))
      && !(s.calls[i].handler.Running? && s.calls[i].phase.Closing?)
      && (s.calls[i].handler.Running? ==> s.clients[c].open && s.clients[c].freed == 0)
  {
    RunInv(states, steps, n);
    var s := states[n];
    var c := s.calls[i].client;
    assert CallOk(s.clients[c], s.calls[i]);
    forall j | 0 <= j < |s.calls| && j != i && s.calls[j].client == c ensures !Active(s.calls[j]) {
      assert CallOk(s.clients[c], s.calls[j]);
    }
  }

  /** The interrupt is cleared and handles are freed only after the handler's result was received. */
  lemma ClearedAndFreedAfterReceipt(states: seq<State>, steps: seq<Step>, n: nat)
    requires IsRun(states, steps) && n < |steps|
    requires steps[n].action.Clear? || steps[n].action.FreeNext?
    ensures var s := states[n];
      var i := steps[n].call;
      && i < |s.calls|
      && (s.calls[i].kind.Operation? ==> s.calls[i].handler.Taken?)
      && (forall j | 0 <= j < |s.calls| && s.calls[j].client == s.calls[i].client :: !s.calls[j].handler.Running?)
  {
    RunInv(states, steps, n);
    var s := states[n];
    var i := steps[n].call;
    var c := s.calls[i].client;
    assert CallOk(s.clients[c], s.calls[i]);
    forall j | 0 <= j < |s.calls| && s.calls[j].client == c ensures !s.calls[j].handler.Running? {
      assert CallOk(s.clients[c], s.calls[j]);
    }
  }

  /** A call is turned away exactly when another call is between winning busy and dropping it, and
      then nothing but its own outcome changes. */
  lemma TurnedAwayIffBusy(states: seq<State>, steps: seq<Step>, n: nat)
    requires IsRun(states, steps) && n < |steps| && steps[n].action.Enter?
    ensures var s, t, i := states[n], states[n + 1], steps[n].call;
      && i < |s.calls| && i < |t.calls|
      && (t.calls[i].phase == Returned(ConcurrentUse) <==>
            exists j | 0 <= j < |s.calls| ::
              s.calls[j].client == s.calls[i].client && !s.calls[j].phase.Start? && !s.calls[j].phase.Returned?)
      && (t.calls[i].phase == Returned(ConcurrentUse) ==>
            t.flag == s.flag && t.clients == s.clients && t.calls == s.calls[i := t.calls[i]])
  {
    RunInv(states, steps, n);
    var s, t, i := states[n], states[n + 1], steps[n].call;
    var c := s.calls[i].client;
    if s.clients[c].holder.Some? {
      var h := s.clients[c].holder.value;
      assert Holding(s.calls[h].phase);
    }
  }

  // ---- what an outcome says ----

  /** An operation that returned nil ran its handler exactly once, to success; one that returned
      after a cancellation left its client closed; one that was turned away, or found the client
      closed, never ran its handler. */
  lemma OutcomesAreDeserved(states: seq<State>, steps: seq<Step>, n: nat, i: nat)
    requires IsRun(states, steps) && n < |states| && i < |states[n].calls|
    requires states[n].calls[i].phase.Returned? && states[n].calls[i].kind.Operation?
    ensures var s := states[n];
      var call, outcome := s.calls[i], s.calls[i].phase.outcome;
      var finished, succeeded := Finished(steps, i, n, false), Finished(steps, i, n, true);
      && call.client < |s.clients| && |s.clients| == |states[0].clients|
      && (outcome.Success? <==> call.handler == Taken(true) && !outcome.Cancelled?)
      && (outcome.HandlerError? <==> call.handler == Taken(false) && !outcome.Cancelled?)
      && (outcome.Success? ==> finished == succeeded == 1)
      && (outcome.HandlerError? ==> finished == 1 && succeeded == 0)
      && (outcome.Cancelled? ==> finished == 1 && (outcome.handlerOk <==> succeeded == 1))
      && (outcome.ConcurrentUse? || outcome.ErrClosed? <==> finished == 0)
      && call.runs == finished && !call.handler.Running?
      && !call.handler.Sent?
      && (outcome.Cancelled? || outcome.ErrClosed? ==> AllFreed(states, steps, n, call.client))
  {
    RunInv(states, steps, n);
    SameCalls(states, steps, n);
    FinishedOnce(states, steps, n, i);
    var s := states[n];
    var k := s.calls[i].client;
    assert CallOk(s.clients[k], s.calls[i]);
    if !s.clients[k].open {
      ClosedIsAllFreed(states, steps, n, k);
    }
  }

  /** `k` is closed, and if it was open at the start the steps have freed all it ever owned. */
  ghost predicate AllFreed(states: seq<State>, steps: seq<Step>, n: nat, k: nat)
    requires n < |states| && n <= |steps| && k < |states[n].clients| && k < |states[0].clients|
  {
    && !states[n].clients[k].open && states[n].clients[k].freed == Handles(states[n].clients[k])
    && (states[0].clients[k].open ==>
          Count(states[0].calls, steps, k, FreeNext, n)
          == states[0].clients[k].flakes + Count(states[0].calls, steps, k, OpenFlake, n) + 5)
  }

  lemma ClosedIsAllFreed(states: seq<State>, steps: seq<Step>, n: nat, k: nat)
    requires IsRun(states, steps) && n < |states| && k < |states[n].clients| && !states[n].clients[k].open
    ensures |states[n].clients| == |states[0].clients| && AllFreed(states, steps, n, k)
  {
    SameCalls(states, steps, n);
    RunInv(states, steps, n);
    OpenHasHandles(states[n], k);
    if states[0].clients[k].open {
      ClosedIffAllFreed(states, steps, n, k);
    }
  }

  /** A call that drops busy leaves its client closed exactly when its outcome says so: after a
      cancellation, after ErrClosed, and after a Close. */
  lemma ClosedOnReturn(states: seq<State>, steps: seq<Step>, n: nat)
    requires IsRun(states, steps) && n < |steps| && steps[n].action.Leave?
    ensures var s, i := states[n + 1], steps[n].call;
      && i < |s.calls| && s.calls[i].phase.Returned? && s.calls[i].client < |s.clients|
      && !s.calls[i].phase.outcome.ConcurrentUse?
      && (SaysClosed(s.calls[i], s.calls[i].phase.outcome) <==> !s.clients[s.calls[i].client].open)
      && (s.clients[s.calls[i].client].open <==>
            s.calls[i].kind.Operation? && (s.calls[i].phase.outcome.Success? || s.calls[i].phase.outcome.HandlerError?))
  {
    RunInv(states, steps, n);
    var s, i := states[n], steps[n].call;
    assert CallOk(s.clients[s.calls[i].client], s.calls[i]);
  }

  /** A call that had not begun when its client was closed never runs its handler. */
  predicate Refused(call: Call) {
    && call.handler.NotStarted? && call.runs == 0
    && match call.phase
       case Start | Entered => true
       case Leaving(outcome) => TurnedDown(call, outcome)
       case Returned(outcome) => TurnedDown(call, outcome)
       case _ => false
  }

  predicate TurnedDown(call: Call, outcome: Outcome) {
    outcome.ConcurrentUse? || (if call.kind.Operation? then outcome.ErrClosed? else outcome.Success?)
  }

  /** `k` is closed, and no call on it that was at its start in `s` has run, or will run, its handler. */
  ghost predicate Shut(s: State, t: State, k: nat) {
    && k < |t.clients| && !t.clients[k].open
    && |t.calls| == |s.calls|
    && forall j | 0 <= j < |s.calls| && s.calls[j].client == k && s.calls[j].phase.Start? ::
         t.calls[j].client == k && Refused(t.calls[j])
  }

  lemma StepShut(s: State, t: State, k: nat, i: nat, a: Action)
    requires Inv(t) && Can(t, i, a) && Shut(s, t, k)
    ensures Shut(s, Apply(t, i, a), k)
  {
    forall j | 0 <= j < |s.calls| && s.calls[j].client == k && s.calls[j].phase.Start?
      ensures Refused(Apply(t, i, a).calls[j])
    {}
  }

  lemma ShutNow(s: State, k: nat)
    requires Inv(s) && k < |s.clients| && !s.clients[k].open
    ensures Shut(s, s, k)
  {
    forall j | 0 <= j < |s.calls| && s.calls[j].client == k && s.calls[j].phase.Start?
      ensures Refused(s.calls[j])
    {
      assert CallOk(s.clients[k], s.calls[j]);
    }
  }

  /** Closed is for good: once a client is closed it stays closed, all its handles freed, and no
      call that begins afterwards runs its handler. */
  lemma {:induction false} ClosedForGood(states: seq<State>, steps: seq<Step>, n: nat, m: nat, k: nat)
    requires IsRun(states, steps) && n <= m < |states| && k < |states[n].clients| && !states[n].clients[k].open
    ensures Shut(states[n], states[m], k)
    ensures |states[m].clients| == |states[0].clients| && AllFreed(states, steps, m, k)
  {
    if m > n {
      ClosedForGood(states, steps, n, m - 1, k);
      RunInv(states, steps, m - 1);
      StepShut(states[n], states[m - 1], k, steps[m - 1].call, steps[m - 1].action);
    } else {
      RunInv(states, steps, n);
      ShutNow(states[n], k);
    }
    ClosedIsAllFreed(states, steps, m, k);
  }

  // ---- counted on the steps taken ----

  /** How many of the first `n` steps are action `a` taken by calls on client `k`; the calls and their
      clients are those of the start. */
  function Count(calls: seq<Call>, steps: seq<Step>, k: nat, a: Action, n: nat): nat
    requires n <= |steps|
  {
    if n == 0 then 0
    else
      var step := steps[n - 1];
      Count(calls, steps, k, a, n - 1)
      + if step.action == a && step.call < |calls| && calls[step.call].client == k then 1 else 0
  }

  lemma {:induction false} SameCalls(states: seq<State>, steps: seq<Step>, n: nat)
    requires IsRun(states, steps) && n < |states|
    ensures |states[n].clients| == |states[0].clients| && |states[n].calls| == |states[0].calls|
    ensures forall i | 0 <= i < |states[n].calls| :: states[n].calls[i].client == states[0].calls[i].client
  {
    if n > 0 {
      SameCalls(states, steps, n - 1);
    }
  }

  lemma StepCounts(s: State, i: nat, a: Action, k: nat)
    requires Inv(s) && Can(s, i, a) && k < |s.clients|
    ensures var c, d, own := s.clients[k], Apply(s, i, a).clients[k], s.calls[i].client == k;
      && d.flakes == c.flakes + (if own && a.OpenFlake? then 1 else 0)
      && d.freed == c.freed + (if own && a.FreeNext? then 1 else 0)
  {
    assert CallOk(s.clients[s.calls[i].client], s.calls[i]);
  }

  /** A client owns the flakes it began with and one for each that a call on it has opened since, and
      each step of a closeLocked on it has freed one handle. */
  lemma {:induction false} HandlesAreCounted(states: seq<State>, steps: seq<Step>, n: nat, k: nat)
    requires IsRun(states, steps) && n < |states| && k < |states[0].clients|
    ensures |states[n].clients| == |states[0].clients|
    ensures var c, d, calls := states[0].clients[k], states[n].clients[k], states[0].calls;
      && d.flakes == c.flakes + Count(calls, steps, k, OpenFlake, n)
      && d.freed == c.freed + Count(calls, steps, k, FreeNext, n)
  {
    SameCalls(states, steps, n);
    if n > 0 {
      HandlesAreCounted(states, steps, n - 1, k);
      SameCalls(states, steps, n - 1);
      RunInv(states, steps, n - 1);
      StepCounts(states[n - 1], steps[n - 1].call, steps[n - 1].action, k);
    }
  }

  /** A client that was open at the start is closed exactly when every handle was freed by a step of
      its own: the flakes of the start, those opened since, and the five others. */
  lemma ClosedIffAllFreed(states: seq<State>, steps: seq<Step>, n: nat, k: nat)
    requires IsRun(states, steps) && n < |states| && k < |states[0].clients| && states[0].clients[k].open
    ensures var calls := states[0].calls;
      var owned := states[0].clients[k].flakes + Count(calls, steps, k, OpenFlake, n) + 5;
      && |states[n].clients| == |states[0].clients|
      && Count(calls, steps, k, FreeNext, n) <= owned
      && (!states[n].clients[k].open <==> Count(calls, steps, k, FreeNext, n) == owned)
  {
    HandlesAreCounted(states, steps, n, k);
    RunInv(states, steps, n);
    OpenHasHandles(states[n], k);
  }

  lemma OpenHasHandles(s: State, k: nat)
    requires Inv(s) && k < |s.clients|
    ensures var c := s.clients[k]; if c.open then c.freed < Handles(c) else c.freed == Handles(c)
  {
    var c := s.clients[k];
    assert ClientOk(c);
    if c.holder.Some? {
      assert CallOk(c, s.calls[c.holder.value]);
    }
  }

  /** How often the handler of call `i` has finished, and how often with success. */
  function Finished(steps: seq<Step>, i: nat, n: nat, onlyOk: bool): nat
    requires n <= |steps|
  {
    if n == 0 then 0
    else
      Finished(steps, i, n - 1, onlyOk)
      + if steps[n - 1] == Step(i, Finish(true)) || (!onlyOk && steps[n - 1] == Step(i, Finish(false))) then 1 else 0
  }

  predicate Done(h: Handler) {
    h.Sent? || h.Taken?
  }

  /** A handler finishes at most once, and what the call then has of it is what it finished with. */
  lemma {:induction false} FinishedOnce(states: seq<State>, steps: seq<Step>, n: nat, i: nat)
    requires IsRun(states, steps) && n < |states| && i < |states[0].calls|
    ensures |states[n].calls| == |states[0].calls|
    ensures var h := states[n].calls[i].handler;
      && Finished(steps, i, n, false) == (if Done(h) then 1 else 0)
      && Finished(steps, i, n, true) == (if Done(h) && h.ok then 1 else 0)
  {
    SameCalls(states, steps, n);
    if n > 0 {
      FinishedOnce(states, steps, n - 1, i);
      SameCalls(states, steps, n - 1);
      RunInv(states, steps, n - 1);
      StepFinishes(states[n - 1], steps[n - 1], i);
    }
  }

  lemma StepFinishes(s: State, step: Step, i: nat)
    requires Inv(s) && Can(s, step.call, step.action) && i < |s.calls|
    ensures var h, g := s.calls[i].handler, Apply(s, step.call, step.action).calls[i].handler;
      if step.call == i && step.action.Finish? then !Done(h) && Done(g) && g.ok == step.action.ok
      else Done(g) == Done(h) && (Done(h) ==> g.ok == h.ok)
  {
    assert CallOk(s.clients[s.calls[i].client], s.calls[i]);
  }

  // ---- the steps of a cancelled call ----

  /** The parts of the cancel branch that a call goes through. */
  datatype Part = Requests | TriesContext | MakesContext | InterruptsStore | ClearsFlag

  predicate IsPart(a: Action, part: Part) {
    match part
    case Requests => a.Request?
    case TriesContext => a.MakeContext?
    case MakesContext => a == MakeContext(true)
    case InterruptsStore => a.InterruptStore?
    case ClearsFlag => a.Clear?
  }

  /** How often call `i` has done a part. */
  function Did(steps: seq<Step>, i: nat, part: Part, n: nat): nat
    requires n <= |steps|
  {
    if n == 0 then 0
    else Did(steps, i, part, n - 1) + if steps[n - 1].call == i && IsPart(steps[n - 1].action, part) then 1 else 0
  }

  /** How far into the cancel branch a call is. */
  function Depth(p: Phase): nat {
    match p
    case Requested => 1
    case Interrupting => 2
    case Awaiting => 3
    case Received(_) => 4
    case Cleared(_) => 5
    case Closing(after) => if after.Cancelled? then 5 else 0
    case Leaving(outcome) => if outcome.Cancelled? then 5 else 0
    case Returned(outcome) => if outcome.Cancelled? then 5 else 0
    case _ => 0
  }

  /** A call requests the interrupt once, tries once to make a context, interrupts the store once if it
      could make one, and clears the interrupt once, in this order; a call that is not cancelled does
      none of it. */
  lemma {:induction false} CancelSteps(states: seq<State>, steps: seq<Step>, n: nat, i: nat)
    requires IsRun(states, steps) && n < |states| && i < |states[0].calls|
    ensures |states[n].calls| == |states[0].calls|
    ensures var depth := Depth(states[n].calls[i].phase);
      && Did(steps, i, Requests, n) == (if depth >= 1 then 1 else 0)
      && Did(steps, i, TriesContext, n) == (if depth >= 2 then 1 else 0)
      && Did(steps, i, MakesContext, n) <= Did(steps, i, TriesContext, n)
      && Did(steps, i, InterruptsStore, n) == (if depth >= 3 then Did(steps, i, MakesContext, n) else 0)
      && Did(steps, i, ClearsFlag, n) == (if depth >= 5 then 1 else 0)
      && (depth == 2 ==> Did(steps, i, MakesContext, n) == 1)
  {
    SameCalls(states, steps, n);
    if n > 0 {
      CancelSteps(states, steps, n - 1, i);
      SameCalls(states, steps, n - 1);
      RunInv(states, steps, n - 1);
      StepDepth(states[n - 1], steps[n - 1], i);
    }
  }

  lemma StepDepth(s: State, step: Step, i: nat)
    requires Inv(s) && Can(s, step.call, step.action) && i < |s.calls|
    ensures var d, e, a := Depth(s.calls[i].phase), Depth(Apply(s, step.call, step.action).calls[i].phase), step.action;
      if step.call != i then e == d
      else if a.Request? then d == 0 && e == 1
      else if a.MakeContext? then d == 1 && e == (if a.made then 2 else 3)
      else if a.InterruptStore? then d == 2 && e == 3
      else if a.Await? then d == 3 && e == 4
      else if a.Clear? then d == 4 && e == 5
      else e == d
  {
    assert CallOk(s.clients[s.calls[i].client], s.calls[i]);
  }

  // ---- the interrupt flag ----

  predicate Sets(a: Action) {
    a.Request? || a == InterruptStore(true)
  }

  /** At every state the flag is set exactly when some step set it and no step since then cleared it. */
  lemma {:induction false} FlagIsLastWrite(states: seq<State>, steps: seq<Step>, n: nat)
    requires IsRun(states, steps) && n < |states|
    ensures states[n].flag <==> LastWriteSets(steps, n)
  {
    if n > 0 {
      FlagIsLastWrite(states, steps, n - 1);
    }
  }

  /** Among the first `n` steps one sets the flag and none after it clears it. */
  ghost predicate LastWriteSets(steps: seq<Step>, n: nat)
    requires n <= |steps|
  {
    exists q | 0 <= q < n :: Sets(steps[q].action) && forall r | q < r < n :: !steps[r].action.Clear?
  }

  /** The flag is set only while some call is between requesting the interrupt and clearing it, so
      it is clear whenever no call is. */
  lemma FlagOnlyWhilePending(states: seq<State>, steps: seq<Step>, n: nat)
    requires IsRun(states, steps) && n < |states|
    ensures states[n].flag ==> exists i | 0 <= i < |states[n].calls| ::
      Pending(states[n].calls[i].phase) && states[n].calls[i].kind.Operation?
  {
    RunInv(states, steps, n);
    var s := states[n];
    if s.flag {
      var i :| 0 <= i < |s.calls| && Pending(s.calls[i].phase);
      assert CallOk(s.clients[s.calls[i].client], s.calls[i]);
    }
  }

  /** Step `n` requests the interrupt for its call, which has not cleared it before state `p`. */
  ghost predicate Window(states: seq<State>, steps: seq<Step>, n: nat, p: nat) {
    && n < p < |states| && n < |steps| && |states| == |steps| + 1
    && steps[n].action.Request?
    && forall q | n < q < p :: !(steps[q].call == steps[n].call && steps[q].action.Clear?)
  }

  lemma StepPending(s: State, i: nat, a: Action, j: nat)
    requires Inv(s) && Can(s, i, a) && j < |s.calls| && Pending(s.calls[j].phase) && !(i == j && a.Clear?)
    ensures Pending(Apply(s, i, a).calls[j].phase)
  {}

  lemma {:induction false} WindowPending(states: seq<State>, steps: seq<Step>, n: nat, p: nat)
    requires IsRun(states, steps) && Window(states, steps, n, p)
    ensures steps[n].call < |states[p].calls| && Pending(states[p].calls[steps[n].call].phase)
    ensures states[p].calls[steps[n].call].client == states[n].calls[steps[n].call].client
  {
    if p > n + 1 {
      WindowPending(states, steps, n, p - 1);
      RunInv(states, steps, p - 1);
      StepPending(states[p - 1], steps[p - 1].call, steps[p - 1].action, steps[n].call);
    }
  }

  /** The flag stays set from a request until its own call clears it exactly when no other call
      clears it in between. */
  lemma FlagHeldIffNoOtherClear(states: seq<State>, steps: seq<Step>, n: nat, p: nat)
    requires IsRun(states, steps) && Window(states, steps, n, p)
    ensures (forall m | n < m <= p :: states[m].flag) <==> (forall q | n < q < p :: !steps[q].action.Clear?)
  {
    if forall q | n < q < p :: !steps[q].action.Clear? {
      forall m | n < m <= p ensures states[m].flag {
        FlagIsLastWrite(states, steps, m);
        assert Sets(steps[n].action);
      }
    } else {
      var q :| n < q < p && steps[q].action.Clear?;
      assert !states[q + 1].flag;
    }
  }

  /** A call of the same client cannot clear the flag in between, so with a single client the flag
      is set from the request until the operation's result has arrived and is cleared. */
  lemma SingleClientFlagHeld(states: seq<State>, steps: seq<Step>, n: nat, p: nat)
    requires IsRun(states, steps) && Window(states, steps, n, p) && |states[0].clients| == 1
    ensures forall m | n < m <= p :: states[m].flag
  {
    forall q | n < q < p ensures !steps[q].action.Clear? {
      RunInv(states, steps, q);
      SameCalls(states, steps, q);
      WindowPending(states, steps, n, q);
      var s, i, j := states[q], steps[n].call, steps[q].call;
      assert s.calls[i].client == 0 && s.calls[j].client == 0;
      assert s.clients[0].holder == Some(i);
      if Holding(s.calls[j].phase) {
        assert s.clients[0].holder == Some(j);
      }
    }
    FlagHeldIffNoOtherClear(states, steps, n, p);
  }

  // ---- when the flag is kept, told from the state ----

  /** Between winning busy and clearing the interrupt: still to come to its clear, if it is cancelled. */
  predicate Underway(p: Phase) {
    p.Entered? || p.Selecting? || p.Cancelling? || Pending(p)
  }

  /** Call `j` may yet clear the interrupt while call `i` still wants it: an operation on another
      client that is open, underway already, or not begun while that client is free or about to be. */
  ghost predicate MayClear(s: State, i: nat, j: nat)
    requires WellFormed(s) && i < |s.calls| && j < |s.calls|
  {
    var call := s.calls[j];
    var c := s.clients[call.client];
    && call.kind.Operation? && call.client != s.calls[i].client && c.open
    && (Underway(call.phase)
        || (call.phase.Start?
            && (c.holder.Some? ==> c.holder.value < |s.calls| && s.calls[c.holder.value].phase.Leaving?)))
  }

  ghost predicate NoneMayClear(s: State, i: nat)
    requires WellFormed(s) && i < |s.calls|
  {
    forall j | 0 <= j < |s.calls| :: !MayClear(s, i, j)
  }

  ghost predicate Avoids(steps: seq<Step>, i: nat) {
    forall q | 0 <= q < |steps| :: steps[q] != Step(i, Clear)
  }

  /** Whatever happens from `s` on, the flag is set until call `i` clears it. */
  ghost predicate KeptUntilOwnClear(s: State, i: nat) {
    forall states: seq<State>, steps: seq<Step> | IsPath(states, steps) && states[0] == s && Avoids(steps, i) ::
      states[|steps|].flag
  }

  /** Other calls' clears need another call that may clear. */
  lemma ClearerMayClear(s: State, i: nat, j: nat)
    requires Inv(s) && i < |s.calls| && Pending(s.calls[i].phase)
    requires Can(s, j, Clear) && j != i
    ensures MayClear(s, i, j)
  {
    assert CallOk(s.clients[s.calls[j].client], s.calls[j]);
    assert s.clients[s.calls[j].client].holder == Some(j);
    assert s.clients[s.calls[i].client].holder == Some(i);
  }

  /** No call comes to be one that may clear: not by its own step, */
  lemma OwnStepMayClear(s: State, i: nat, step: Step)
    requires Inv(s) && i < |s.calls| && Can(s, step.call, step.action)
    requires !MayClear(s, i, step.call)
    ensures !MayClear(Apply(s, step.call, step.action), i, step.call)
  {
    assert CallOk(s.clients[s.calls[step.call].client], s.calls[step.call]);
  }

  /** nor by another's. */
  lemma StepMayClear(s: State, i: nat, step: Step, j: nat)
    requires Inv(s) && i < |s.calls| && j < |s.calls| && Can(s, step.call, step.action)
    requires NoneMayClear(s, i)
    ensures !MayClear(Apply(s, step.call, step.action), i, j)
  {
    var k := s.calls[j].client;
    assert !MayClear(s, i, j);
    if j == step.call {
      OwnStepMayClear(s, i, step);
    } else if s.calls[j].phase.Start? && s.calls[j].kind.Operation? && s.clients[k].holder.Some?
      && k != s.calls[i].client
      && Apply(s, step.call, step.action).clients[k].open {
      var h := s.clients[k].holder.value;
      assert h < |s.calls| && s.calls[h].client == k && !MayClear(s, i, h);
      StillHeld(s, step, j);
    }
  }

  /** A client whose holder is not leaving, and is not an operation underway, is closed when its
      holder leaves. */
  lemma StillHeld(s: State, step: Step, j: nat)
    requires Inv(s) && j < |s.calls| && Can(s, step.call, step.action) && s.calls[j].phase.Start?
    requires var k := s.calls[j].client;
      && s.clients[k].holder.Some? && Apply(s, step.call, step.action).clients[k].open
      && var h := s.calls[s.clients[k].holder.value];
         !h.phase.Leaving? && !(h.kind.Operation? && Underway(h.phase))
    ensures var t := Apply(s, step.call, step.action);
      var k := s.calls[j].client;
      t.clients[k].holder.Some? && !t.calls[t.clients[k].holder.value].phase.Leaving?
  {
    var k := s.calls[j].client;
    var h := s.clients[k].holder.value;
    assert s.calls[h].client == k;
    assert CallOk(s.clients[k], s.calls[h]);
    if step.call != h && s.calls[step.call].client == k {
      assert !Holding(s.calls[step.call].phase);
    }
  }

  ghost predicate Keeps(s: State, i: nat) {
    Inv(s) && i < |s.calls| && Pending(s.calls[i].phase) && s.flag && NoneMayClear(s, i)
  }

  /** One step, other than `i`'s clear. */
  lemma StepKept(s: State, i: nat, step: Step)
    requires Keeps(s, i) && Can(s, step.call, step.action) && step != Step(i, Clear)
    ensures Keeps(Apply(s, step.call, step.action), i)
  {
    var t := Apply(s, step.call, step.action);
    StepInv(s, step.call, step.action);
    StepPending(s, step.call, step.action, i);
    if step.action.Clear? {
      ClearerMayClear(s, i, step.call);
    }
    forall j | 0 <= j < |t.calls| ensures !MayClear(t, i, j) {
      StepMayClear(s, i, step, j);
    }
  }

  lemma {:induction false} KeptWhileNoneMayClear(states: seq<State>, steps: seq<Step>, i: nat, n: nat)
    requires IsPath(states, steps) && Avoids(steps, i) && n <= |steps|
    requires Keeps(states[0], i)
    ensures Keeps(states[n], i)
  {
    if n > 0 {
      KeptWhileNoneMayClear(states, steps, i, n - 1);
      StepKept(states[n - 1], i, steps[n - 1]);
    }
  }

  /** How far call `j` is from its clear. */
  function Distance(s: State, j: nat): nat
    requires j < |s.calls| && s.calls[j].client < |s.clients|
  {
    var call := s.calls[j];
    3 * Stage(call.phase) + Load(call.handler)
    + if call.phase.Start? && s.clients[call.client].holder.Some? then 1 else 0
  }

  /** A step of `j`, or of the call that leaves its client, towards its clear. */
  function Towards(s: State, j: nat): Step
    requires j < |s.calls| && s.calls[j].client < |s.clients|
  {
    var c := s.clients[s.calls[j].client];
    match s.calls[j].phase
    case Start => if c.holder.Some? then Step(c.holder.value, Leave) else Step(j, Enter)
    case Entered => Step(j, CheckOpen)
    case Selecting => Step(j, SeeCancel)
    case Cancelling => Step(j, Request)
    case Requested => Step(j, MakeContext(false))
    case Interrupting => Step(j, InterruptStore(false))
    case Awaiting => if s.calls[j].handler.Running? then Step(j, Finish(false)) else Step(j, Await)
    case _ => Step(j, Clear)
  }

  lemma TowardsCan(s: State, i: nat, j: nat)
    requires Inv(s) && i < |s.calls| && j < |s.calls| && MayClear(s, i, j)
    ensures var step := Towards(s, j);
      Can(s, step.call, step.action) && s.calls[step.call].client != s.calls[i].client
  {
    var k := s.calls[j].client;
    assert CallOk(s.clients[k], s.calls[j]);
    if s.calls[j].phase.Start? && s.clients[k].holder.Some? {
      assert s.calls[s.clients[k].holder.value].client == k;
    }
  }

  lemma TowardsClear(s: State, i: nat, j: nat)
    requires Inv(s) && i < |s.calls| && j < |s.calls| && MayClear(s, i, j)
    requires var step := Towards(s, j);
      Can(s, step.call, step.action) && s.calls[step.call].client != s.calls[i].client
    ensures var step := Towards(s, j);
      var t := Apply(s, step.call, step.action);
      if step.action.Clear? then !t.flag
      else MayClear(t, i, j) && Distance(t, j) < Distance(s, j)
  {
    var k := s.calls[j].client;
    assert CallOk(s.clients[k], s.calls[j]);
    if s.calls[j].phase.Start? && s.clients[k].holder.Some? {
      assert s.calls[s.clients[k].holder.value].client == k;
    }
  }

  lemma {:induction false} ReachesClear(s: State, i: nat, j: nat) returns (states: seq<State>, steps: seq<Step>)
    requires Inv(s) && i < |s.calls| && j < |s.calls| && MayClear(s, i, j)
    ensures IsPath(states, steps) && states[0] == s && Avoids(steps, i) && !states[|steps|].flag
    decreases Distance(s, j)
  {
    var step := Towards(s, j);
    TowardsCan(s, i, j);
    TowardsClear(s, i, j);
    var t := Apply(s, step.call, step.action);
    var later, rest := [t], [];
    if !step.action.Clear? {
      StepInv(s, step.call, step.action);
      later, rest := ReachesClear(t, i, j);
    }
    states, steps := [s, t] + later[1..], [step] + rest;
    JoinPaths([s, t], [step], later, rest);
    assert Avoids(steps, i);
  }

  /** From a reachable state in which call `i` has requested the interrupt and the flag is set, the
      flag is kept until `i` clears it, whatever happens, exactly when no other call may clear it. */
  lemma KeptIffNoneMayClear(s: State, i: nat)
    requires Inv(s) && i < |s.calls| && Pending(s.calls[i].phase) && s.flag
    ensures KeptUntilOwnClear(s, i) <==> NoneMayClear(s, i)
  {
    if NoneMayClear(s, i) {
      forall states: seq<State>, steps: seq<Step> | IsPath(states, steps) && states[0] == s && Avoids(steps, i)
        ensures states[|steps|].flag
      {
        KeptWhileNoneMayClear(states, steps, i, |steps|);
      }
    } else {
      var j :| 0 <= j < |s.calls| && MayClear(s, i, j);
      var states, steps := ReachesClear(s, i, j);
    }
  }

  /** At every request of every run: the flag then set is kept until the request's own clear, whatever
      happens, exactly when before the request no operation on another client may clear it. */
  lemma RequestKeptIffNoneMayClear(states: seq<State>, steps: seq<Step>, n: nat)
    requires IsRun(states, steps) && n < |steps| && steps[n].action.Request?
    ensures steps[n].call < |states[n].calls| && WellFormed(states[n])
    ensures KeptUntilOwnClear(states[n + 1], steps[n].call) <==> NoneMayClear(states[n], steps[n].call)
  {
    var s, t, i := states[n], states[n + 1], steps[n].call;
    RunInv(states, steps, n);
    RunInv(states, steps, n + 1);
    KeptIffNoneMayClear(t, i);
    forall j | 0 <= j < |s.calls| ensures MayClear(t, i, j) <==> MayClear(s, i, j) {
    }
  }

  // ---- two clients ----

  function TwoClients(): State {
    var client := Client(None, true, 0, 0);
    State(false, [client, client], [Call(0, Operation, Start, NotStarted, 0), Call(1, Operation, Start, NotStarted, 0)])
  }

  lemma JoinPaths(earlier: seq<State>, first: seq<Step>, later: seq<State>, second: seq<Step>)
    requires IsPath(earlier, first) && IsPath(later, second) && earlier[|first|] == later[0]
    ensures IsPath(earlier + later[1..], first + second)
  {
    var states, steps := earlier + later[1..], first + second;
    forall n | 0 <= n < |steps|
      ensures Can(states[n], steps[n].call, steps[n].action)
      ensures states[n + 1] == Apply(states[n], steps[n].call, steps[n].action)
    {
      if n >= |first| {
        assert states[n] == later[n - |first|] && steps[n] == second[n - |first|];
      }
    }
  }

  /** An operation on an idle client starts its handler, sees the context cancelled and requests
      the interrupt. */
  lemma RequestsInterrupt(s: State, i: nat) returns (states: seq<State>, steps: seq<Step>)
    requires WellFormed(s) && i < |s.calls| && s.calls[i] == Call(s.calls[i].client, Operation, Start, NotStarted, 0)
    requires s.clients[s.calls[i].client] == Client(None, true, 0, 0)
    ensures IsPath(states, steps) && |steps| == 5 && states[0] == s && steps[3] == Step(i, Request)
    ensures steps[4] == Step(i, MakeContext(false))
    ensures states[5] == State(true, s.clients[s.calls[i].client := Client(Some(i), true, 0, 0)],
                               s.calls[i := Call(s.calls[i].client, Operation, Awaiting, Running, 1)])
  {
    steps := [Step(i, Enter), Step(i, CheckOpen), Step(i, SeeCancel), Step(i, Request), Step(i, MakeContext(false))];
    var s1 := Apply(s, i, Enter);
    assert s1.calls[i].phase.Entered? && s1.clients[s.calls[i].client].open;
    var s2 := Apply(s1, i, CheckOpen);
    assert s2.calls[i] == Call(s.calls[i].client, Operation, Selecting, Running, 1);
    var s3 := Apply(s2, i, SeeCancel);
    var s4 := Apply(s3, i, Request);
    states := [s, s1, s2, s3, s4, Apply(s4, i, MakeContext(false))];
  }

  lemma ResultArrives(s: State, i: nat, ok: bool) returns (states: seq<State>, steps: seq<Step>)
    requires WellFormed(s) && i < |s.calls| && s.calls[i] == Call(s.calls[i].client, Operation, Awaiting, Running, 1)
    ensures IsPath(states, steps) && |steps| == 2 && states[0] == s
    ensures states[2] == s.(calls := s.calls[i := Call(s.calls[i].client, Operation, Received(ok), Taken(ok), 1)])
  {
    steps := [Step(i, Finish(ok)), Step(i, Await)];
    states := [s, Apply(s, i, Finish(ok)), Apply(Apply(s, i, Finish(ok)), i, Await)];
  }

  lemma Clears(s: State, i: nat) returns (states: seq<State>, steps: seq<Step>)
    requires WellFormed(s) && i < |s.calls| && s.calls[i].phase.Received?
    ensures IsPath(states, steps) && steps == [Step(i, Clear)] && states[0] == s
    ensures !states[1].flag && |states[1].calls| == |s.calls|
    ensures forall j | 0 <= j < |s.calls| && j != i :: states[1].calls[j] == s.calls[j]
  {
    states, steps := [s, Apply(s, i, Clear)], [Step(i, Clear)];
  }

  /** With two clients one operation's clear takes back the other's request: a run at whose end the
      first call still awaits its running handler, and the flag is no longer set. */
  lemma TwoClientsLoseTheFlag() returns (states: seq<State>, steps: seq<Step>)
    ensures IsRun(states, steps) && |states[0].clients| == 2
    ensures exists n: nat :: Window(states, steps, n, |steps|) && steps[n].call == 0
    ensures var s := states[|steps|];
      |s.calls| == 2 && s.calls[0].phase.Awaiting? && s.calls[0].handler.Running? && !s.flag
  {
    states, steps := RequestsInterrupt(TwoClients(), 1);
    var later, more := ResultArrives(states[5], 1, false);
    JoinPaths(states, steps, later, more);
    states, steps := states + later[1..], steps + more;
    later, more := RequestsInterrupt(states[7], 0);
    JoinPaths(states, steps, later, more);
    states, steps := states + later[1..], steps + more;
    assert steps[10] == Step(0, Request) && steps[11] == Step(0, MakeContext(false));
    later, more := Clears(states[12], 1);
    JoinPaths(states, steps, later, more);
    states, steps := states + later[1..], steps + more;
    assert steps[10] == Step(0, Request) && steps[11] == Step(0, MakeContext(false)) && steps[12] == Step(1, Clear);
    assert Window(states, steps, 10, |steps|);
  }

  // ---- progress ----

  /** No deadlock: a call that has not returned can act, or its handler can. */
  lemma NoDeadlock(states: seq<State>, steps: seq<Step>, n: nat, i: nat)
    requires IsRun(states, steps) && n < |states| && i < |states[n].calls|
    ensures states[n].calls[i].phase.Returned? <==> forall a: Action :: !Can(states[n], i, a)
  {
    RunInv(states, steps, n);
    var s := states[n];
    var call := s.calls[i];
    assert CallOk(s.clients[call.client], call);
    match call.phase
    case Start => assert Can(s, i, Enter);
    case Entered => assert Can(s, i, CheckOpen);
    case Selecting => assert Can(s, i, SeeCancel);
    case Cancelling => assert Can(s, i, Request);
    case Requested => assert Can(s, i, MakeContext(true));
    case Interrupting => assert Can(s, i, InterruptStore(true));
    case Awaiting => assert Can(s, i, Await) || Can(s, i, Finish(true));
    case Received(_) => assert Can(s, i, Clear);
    case Cleared(_) => assert Can(s, i, BeginClose);
    case Closing(_) => assert Can(s, i, FreeNext);
    case Leaving(_) => assert Can(s, i, Leave);
    case Returned(_) =>
  }

  function Stage(p: Phase): nat {
    match p
    case Start => 11
    case Entered => 10
    case Selecting => 9
    case Cancelling => 8
    case Requested => 7
    case Interrupting => 6
    case Awaiting => 5
    case Received(_) => 4
    case Cleared(_) => 3
    case Closing(_) => 2
    case Leaving(_) => 1
    case Returned(_) => 0
  }

  function Load(h: Handler): nat {
    match h
    case NotStarted => 2
    case Running => 2
    case Sent(_) => 1
    case Taken(_) => 0
  }

  /** A bound on the steps left to call `i` if no more flakes are opened on its client. */
  function Work(s: State, i: nat): int
    requires i < |s.calls| && s.calls[i].client < |s.clients|
  {
    var c := s.clients[s.calls[i].client];
    Stage(s.calls[i].phase) + Load(s.calls[i].handler) + (Handles(c) - c.freed)
  }

  lemma WorkIsPositive(s: State, i: nat)
    requires Inv(s) && i < |s.calls|
    ensures Work(s, i) >= 0
  {
    var c := s.calls[i].client;
    assert ClientOk(s.clients[c]) && CallOk(s.clients[c], s.calls[i]);
    if s.clients[c].holder.Some? {
      assert CallOk(s.clients[c], s.calls[s.clients[c].holder.value]);
    }
  }

  /** The steps of call `i` and its handler, other than opening flakes, among the first `n`. */
  function OwnSteps(steps: seq<Step>, i: nat, n: nat): nat
    requires n <= |steps|
  {
    if n == 0 then 0
    else OwnSteps(steps, i, n - 1) + if steps[n - 1].call == i && !steps[n - 1].action.OpenFlake? then 1 else 0
  }

  lemma StepWork(s: State, i: nat, a: Action, j: nat)
    requires Inv(s) && Can(s, i, a) && j < |s.calls|
    ensures var t := Apply(s, i, a);
      var c := s.calls[j].client;
      && Work(t, j) - t.clients[c].flakes + (if i == j && !a.OpenFlake? then 1 else 0)
           <= Work(s, j) - s.clients[c].flakes
      && t.clients[c].flakes >= s.clients[c].flakes
  {
    assert CallOk(s.clients[s.calls[i].client], s.calls[i]);
    assert ClientOk(s.clients[s.calls[i].client]);
  }

  /** Call `i` is there, on client `k`, and has taken no more of its own steps than its bound allows. */
  predicate WithinBound(s: State, i: nat, k: nat, taken: nat) {
    && i < |s.calls| && s.calls[i].client == k < |s.clients|
    && taken + Work(s, i) <= 18 + s.clients[k].flakes
  }

  lemma StepBound(s: State, step: Step, i: nat, k: nat, taken: nat)
    requires Inv(s) && Can(s, step.call, step.action) && WithinBound(s, i, k, taken)
    ensures var own := if step.call == i && !step.action.OpenFlake? then 1 else 0;
      WithinBound(Apply(s, step.call, step.action), i, k, taken + own)
  {
    StepWork(s, step.call, step.action, i);
  }

  /** Every call returns after a bounded number of its own steps: however the others are
      interleaved, it and its handler take at most 18 steps and one for each flake the client ever
      owned, besides opening those flakes. */
  lemma {:induction false} BoundedWork(states: seq<State>, steps: seq<Step>, n: nat, i: nat)
    requires IsRun(states, steps) && n < |states| && i < |states[0].calls|
    ensures WithinBound(states[n], i, states[0].calls[i].client, OwnSteps(steps, i, n))
    ensures OwnSteps(steps, i, n) <= 18 + states[n].clients[states[0].calls[i].client].flakes
    ensures var k := states[0].calls[i].client;
      && k < |states[0].clients|
      && OwnSteps(steps, i, n) <= 18 + states[0].clients[k].flakes + Count(states[0].calls, steps, k, OpenFlake, n)
  {
    if n > 0 {
      BoundedWork(states, steps, n - 1, i);
      RunInv(states, steps, n - 1);
      StepBound(states[n - 1], steps[n - 1], i, states[0].calls[i].client, OwnSteps(steps, i, n - 1));
    }
    RunInv(states, steps, n);
    WorkIsPositive(states[n], i);
    HandlesAreCounted(states, steps, n, states[0].calls[i].client);
  }
}
