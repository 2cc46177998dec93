/** `Client.GetFlakeOutputValue`: a value that outlives the call it came from. */
module FlakeOutputs {
  import opened Optional
  import opened Values
  import opened Evaluators
  import opened EvalOps
  import opened ClientProtocol
  import opened ClientRuns

  /** What the handler does: it finds the output exactly when no raw call fails on the way and the
      path leads somewhere. */
  ghost predicate Resolves(fails: Descent, outputs: Nix, path: seq<string>) {
    !fails(0, OutputAttrs) && Descends(fails, 0, |path|) && Select(outputs, path).Some?
  }

  /** With well-named sets: exactly when no raw call fails and the attributes lead to some value. */
  lemma ResolvesIffReaches(fails: Descent, outputs: Nix, path: seq<string>)
    requires WellNamed(outputs)
    ensures Resolves(fails, outputs, path) <==>
      !fails(0, OutputAttrs)
      && (forall k | 0 <= k < |path| :: !fails(k, OutputType) && !fails(k, OutputAttr))
      && exists w :: Reaches(outputs, path, w)
  {
    SelectsIffReaches(outputs, path);
  }

  /** Step `n` of a run is the return, with `outcome`, of an operation whose handler is this one. */
  ghost predicate Returns(states: seq<State>, steps: seq<Step>, n: nat, outcome: Outcome, resolves: bool) {
    && IsRun(states, steps) && n < |steps| && !states[n].calls[steps[n].call].phase.Returned?
    && var call := states[n + 1].calls[steps[n].call];
       && call.kind.Operation? && call.phase == Returned(outcome)
       && (call.handler.Taken? ==> call.handler.ok == resolves)
  }

  /** The call was neither turned away nor found the client closed. */
  predicate Ran(outcome: Outcome) {
    !outcome.ConcurrentUse? && !outcome.ErrClosed?
  }

  /** The outcome, what the handler did, and whether the client is closed when the call returns. */
  lemma ReturnMeans(states: seq<State>, steps: seq<Step>, n: nat, outcome: Outcome, resolves: bool)
    requires Returns(states, steps, n, outcome, resolves)
    ensures Ran(outcome) ==> (resolves <==> outcome == Success || outcome == Cancelled(true))
    ensures var s := states[n + 1];
      var k := s.calls[steps[n].call].client;
      k < |s.clients| && (Ran(outcome) ==> (s.clients[k].open <==> outcome.Success? || outcome.HandlerError?))
  {
    var i := steps[n].call;
    RunInv(states, steps, n + 1);
    if Ran(outcome) {
      assert steps[n].action.Leave?;
      ClosedOnReturn(states, steps, n);
    }
    assert CallOk(states[n + 1].clients[states[n + 1].calls[i].client], states[n + 1].calls[i]);
  }

  /** `GetFlakeOutputValue`, whose handler, if it runs, finds the client open. A value is returned
      exactly when the handler found it, whether or not the cancellation then won, and it is returned
      with an error exactly when the client was closed under it. */
  method GetFlakeOutputValue(e: Evaluator, outputs: Nix, fails: Descent, path: seq<string>, outcome: Outcome,
                             ghost states: seq<State>, ghost steps: seq<Step>, ghost n: nat)
    returns (v: Value?)
    requires e.Valid() && (Ran(outcome) ==> e.Open())
    requires Returns(states, steps, n, outcome, Resolves(fails, outputs, path))
    modifies e`held, e`lost, e`state, e`context
    ensures e.Valid() && old(e.lost) <= e.lost
    ensures v != null <==> outcome == Success || outcome == Cancelled(true)
    ensures v == null ==> e.held == old(e.held)
    ensures v != null ==>
      && fresh(v) && v.owner == e && v.ptr && e.held == old(e.held) + {v}
      && Some(v.nix) == Select(outputs, path) && Reaches(outputs, path, v.nix)
      && (WellNamed(outputs) ==> forall w | Reaches(outputs, path, w) :: w == v.nix)
    ensures Ran(outcome) ==>
      var s := states[n + 1]; e.Open() == s.clients[s.calls[steps[n].call].client].open == e.context
  {
    ReturnMeans(states, steps, n, outcome, Resolves(fails, outputs, path));
    if !Ran(outcome) {
      return null;
    }
    ghost var obtained;
    v, obtained := GetOutputValue(e, outputs, fails, null, path, 0);
    if outcome.Cancelled? {
      e.Shut();
    }
  }

  /** A caller that closes what it was given, whatever the error. The reference is stranded, open and
      past any later Close, exactly when a value came with an error: the handler had succeeded and
      the cancellation won. */
  method GetAndClose(e: Evaluator, outputs: Nix, fails: Descent, path: seq<string>, outcome: Outcome, refused: bool,
                     ghost states: seq<State>, ghost steps: seq<Step>, ghost n: nat)
    returns (v: Value?, ok: bool)
    requires e.Valid() && (Ran(outcome) ==> e.Open())
    requires Returns(states, steps, n, outcome, Resolves(fails, outputs, path))
    modifies e`held, e`lost, e`state, e`context
    ensures e.Valid()
    ensures outcome == Cancelled(true) <==> v != null && outcome != Success
    ensures outcome == Cancelled(true) ==> !ok && v != null && v.ptr && !e.context && e.held == old(e.held) + {v}
    ensures outcome != Cancelled(true) ==> e.held == old(e.held) && (ok <==> !(v != null && refused))
    ensures e.held == old(e.held) <==> outcome != Cancelled(true)
  {
    v := GetFlakeOutputValue(e, outputs, fails, path, outcome, states, steps, n);
    ok := true;
    if v != null {
      ReturnMeans(states, steps, n, outcome, Resolves(fails, outputs, path));
      ok := e.Close(v, refused);
    }
  }

  // ---- a run in which it happens ----

  function OneClient(): State {
    State(false, [Client(None, true, 0, 0)], [Call(0, Operation, Start, NotStarted, 0)])
  }

  /** `freed` handles of the only client are freed. */
  function Freeing(ok: bool, freed: nat): State {
    State(false, [Client(Some(0), true, 0, freed)], [Call(0, Operation, Closing(Cancelled(ok)), Taken(ok), 1)])
  }

  /** After the result the interrupt is cleared and closing begins, */
  lemma BeginsClosing(s: State, ok: bool) returns (states: seq<State>, steps: seq<Step>)
    requires s.clients == [Client(Some(0), true, 0, 0)] && s.calls == [Call(0, Operation, Received(ok), Taken(ok), 1)]
    ensures IsPath(states, steps) && states[0] == s && |steps| == 2
    ensures states[2] == Freeing(ok, 0)
  {
    steps := [Step(0, Clear), Step(0, BeginClose)];
    states := [s, State(false, s.clients, [Call(0, Operation, Cleared(ok), Taken(ok), 1)]), Freeing(ok, 0)];
  }

  /** the handles are freed one after another, and the call returns. */
  lemma {:induction false} FreesAndReturns(ok: bool, freed: nat) returns (states: seq<State>, steps: seq<Step>)
    requires freed < 5
    ensures IsPath(states, steps) && states[0] == Freeing(ok, freed)
    ensures steps != [] && steps[|steps| - 1] == Step(0, Leave)
    ensures states[|steps|]
      == State(false, [Client(None, false, 0, 5)], [Call(0, Operation, Returned(Cancelled(ok)), Taken(ok), 1)])
    decreases 5 - freed
  {
    var next := Apply(Freeing(ok, freed), 0, FreeNext);
    states, steps := [Freeing(ok, freed), next], [Step(0, FreeNext)];
    var later, more := [next, Apply(next, 0, Leave)], [Step(0, Leave)];
    if freed < 4 {
      later, more := FreesAndReturns(ok, freed + 1);
    }
    JoinPaths(states, steps, later, more);
    states, steps := states + later[1..], steps + more;
  }

  /** Two paths joined begin as the first does and end as the second does. */
  lemma Joined(earlier: seq<State>, first: seq<Step>, later: seq<State>, second: seq<Step>)
    returns (states: seq<State>, steps: seq<Step>)
    requires IsPath(earlier, first) && IsPath(later, second) && second != [] && earlier[|first|] == later[0]
    ensures IsPath(states, steps) && states[0] == earlier[0] && |steps| == |first| + |second|
    ensures states[|steps|] == later[|second|] && steps[|steps| - 1] == second[|second| - 1]
  {
    JoinPaths(earlier, first, later, second);
    states, steps := earlier + later[1..], first + second;
  }

  /** A cancelled operation of an only client whose handler succeeds all the same. */
  lemma CancelledAfterSuccess() returns (states: seq<State>, steps: seq<Step>)
    ensures steps != [] && Returns(states, steps, |steps| - 1, Cancelled(true), true)
  {
    states, steps := RequestsInterrupt(OneClient(), 0);
    var later, more := ResultArrives(states[5], 0, true);
    states, steps := Joined(states, steps, later, more);
    later, more := BeginsClosing(states[7], true);
    states, steps := Joined(states, steps, later, more);
    later, more := FreesAndReturns(true, 0);
    states, steps := Joined(states, steps, later, more);
    assert Can(states[|steps| - 1], 0, Leave);
  }
}
