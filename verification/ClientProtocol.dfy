/** `Client.middleware` and `Client.Close` as interleaved steps: any number of calls on any
    number of clients, sharing the process-global interrupt flag. */
module ClientProtocol {
  import opened Optional

  datatype Kind = Operation | CloseCall

  /** What a call returns. `Cancelled` joins the context's error with everything that followed. */
  datatype Outcome = Success | ConcurrentUse | ErrClosed | HandlerError | Cancelled(handlerOk: bool)

  /** Where a call stands. */
  datatype Phase =
    | Start
    | Entered                       // won the compare-and-swap
    | Selecting                     // started the handler; in the select
    | Cancelling                    // the select saw ctx.Done
    | Requested                     // requested the global interrupt
    | Interrupting                  // made a context of its own; will interrupt the store
    | Awaiting                      // waits for the handler's result
    | Received(ok: bool)            // has the result; will clear the interrupt
    | Cleared(ok: bool)             // will close the client
    | Closing(after: Outcome)       // in closeLocked, freeing handle after handle
    | Leaving(outcome: Outcome)     // will drop busy
    | Returned(outcome: Outcome)

  /** The handler goroutine of a call and its one-slot channel. */
  datatype Handler = NotStarted | Running | Sent(ok: bool) | Taken(ok: bool)

  datatype Call = Call(client: nat, kind: Kind, phase: Phase, handler: Handler, runs: nat)

  /** A client: which call holds `busy`, whether its context is still set, the flakes it owns,
      and how many of its handles closeLocked has freed. */
  datatype Client = Client(holder: Option<nat>, open: bool, flakes: nat, freed: nat)

  datatype State = State(flag: bool, clients: seq<Client>, calls: seq<Call>)

  /** Flakes, evaluator, store, flake settings, fetcher settings and context. */
  function Handles(c: Client): nat {
    c.flakes + 5
  }

  datatype Action =
    | Enter
    | CheckOpen
    | OpenFlake
    | Finish(ok: bool)
    | Receive
    | SeeCancel
    | Request
    | MakeContext(made: bool)
    | InterruptStore(reached: bool)
    | Await
    | Clear
    | BeginClose
    | FreeNext
    | Leave

  ghost predicate WellFormed(s: State) {
    forall i | 0 <= i < |s.calls| :: s.calls[i].client < |s.clients|
  }

  /** Call `i`, or its handler, can take action `a`. */
  ghost predicate Can(s: State, i: nat, a: Action) {
    WellFormed(s) && i < |s.calls| &&
    var call := s.calls[i];
    match a
    case Enter => call.phase.Start?
    case CheckOpen => call.phase.Entered?
    case OpenFlake => call.handler.Running?
    case Finish(_) => call.handler.Running?
    case Receive => call.phase.Selecting? && call.handler.Sent?
    case SeeCancel => call.phase.Selecting?
    case Request => call.phase.Cancelling?
    case MakeContext(_) => call.phase.Requested?
    case InterruptStore(_) => call.phase.Interrupting?
    case Await => call.phase.Awaiting? && call.handler.Sent?
    case Clear => call.phase.Received?
    case BeginClose => call.phase.Cleared?
    case FreeNext => call.phase.Closing?
    case Leave => call.phase.Leaving?
  }

  /** One call and its client and the flag, after an action of that call. */
  function Local(flag: bool, c: Client, call: Call, i: nat, a: Action): (bool, Client, Call) {
    match a
    case Enter =>
      if c.holder.Some? then (flag, c, call.(phase := Returned(ConcurrentUse)))
      else (flag, c.(holder := Some(i)), call.(phase := Entered))
    case CheckOpen =>
      (match call.kind
       case Operation =>
         if !c.open then (flag, c, call.(phase := Leaving(ErrClosed)))
         else (flag, c, call.(phase := Selecting, handler := Running, runs := call.runs + 1))
       case CloseCall =>
         (flag, c, call.(phase := if c.open then Closing(Success) else Leaving(Success))))
    case OpenFlake => (flag, c.(flakes := c.flakes + 1), call)
    case Finish(ok) => (flag, c, call.(handler := Sent(ok)))
    case Receive =>
      var ok := call.handler.Sent? && call.handler.ok;
      (flag, c, call.(phase := Leaving(if ok then Success else HandlerError), handler := Taken(ok)))
    case SeeCancel => (flag, c, call.(phase := Cancelling))
    case Request => (true, c, call.(phase := Requested))
    case MakeContext(made) => (flag, c, call.(phase := if made then Interrupting else Awaiting))
    case InterruptStore(reached) => (flag || reached, c, call.(phase := Awaiting))
    case Await =>
      var ok := call.handler.Sent? && call.handler.ok;
      (flag, c, call.(phase := Received(ok), handler := Taken(ok)))
    case Clear => (false, c, call.(phase := Cleared(call.phase.Received? && call.phase.ok)))
    case BeginClose =>
      var after := Cancelled(call.phase.Cleared? && call.phase.ok);
      (flag, c, call.(phase := if c.open then Closing(after) else Leaving(after)))
    case FreeNext =>
      var after := if call.phase.Closing? then call.phase.after else Success;
      if c.freed + 1 < Handles(c) then (flag, c.(freed := c.freed + 1), call)
      else (flag, c.(freed := Handles(c), open := false), call.(phase := Leaving(after)))
    case Leave =>
      var outcome := if call.phase.Leaving? then call.phase.outcome else Success;
      (flag, c.(holder := None), call.(phase := Returned(outcome)))
  }

  function Apply(s: State, i: nat, a: Action): State
    requires i < |s.calls| && s.calls[i].client < |s.clients|
  {
    var c := s.calls[i].client;
    var (flag, client, call) := Local(s.flag, s.clients[c], s.calls[i], i, a);
    State(flag, s.clients[c := client], s.calls[i := call])
  }

  /** Every client is idle and open or closed, no call has begun, and no interrupt is pending. */
  ghost predicate Init(s: State) {
    && WellFormed(s)
    && !s.flag
    && (forall c | 0 <= c < |s.clients| ::
          s.clients[c].holder.None? && s.clients[c].freed == if s.clients[c].open then 0 else Handles(s.clients[c]))
    && (forall i | 0 <= i < |s.calls| ::
          s.calls[i].phase.Start? && s.calls[i].handler.NotStarted? && s.calls[i].runs == 0)
  }

  // ---- the invariant ----

  /** Between winning the compare-and-swap and dropping busy. */
  predicate Holding(p: Phase) {
    !p.Start? && !p.Returned?
  }

  /** Between requesting the interrupt and clearing it. */
  predicate Pending(p: Phase) {
    p.Requested? || p.Interrupting? || p.Awaiting? || p.Received?
  }

  /** How the outcome relates to what the handler did. */
  predicate Deserved(call: Call, outcome: Outcome) {
    match outcome
    case Success => if call.kind.Operation? then call.handler == Taken(true) && call.runs == 1
                    else call.handler.NotStarted? && call.runs == 0
    case HandlerError => call.kind.Operation? && call.handler == Taken(false) && call.runs == 1
    case Cancelled(ok) => call.kind.Operation? && call.handler == Taken(ok) && call.runs == 1
    case ConcurrentUse => call.handler.NotStarted? && call.runs == 0
    case ErrClosed => call.kind.Operation? && call.handler.NotStarted? && call.runs == 0
  }

  /** A call whose outcome says that it closed the client, or found it closed. */
  predicate SaysClosed(call: Call, outcome: Outcome) {
    outcome.Cancelled? || outcome.ErrClosed? || (outcome.Success? && call.kind.CloseCall?)
  }

  /** A call agrees with the client it works on. */
  predicate CallOk(c: Client, call: Call) {
    match call.phase
    case Start => call.handler.NotStarted? && call.runs == 0
    case Entered => call.handler.NotStarted? && call.runs == 0 && (c.open ==> c.freed == 0)
    case Selecting => c.open && c.freed == 0 && InFlight(call)
    case Cancelling => c.open && c.freed == 0 && InFlight(call)
    case Requested => c.open && c.freed == 0 && InFlight(call)
    case Interrupting => c.open && c.freed == 0 && InFlight(call)
    case Awaiting => c.open && c.freed == 0 && InFlight(call)
    case Received(ok) => c.open && c.freed == 0 && Deserved(call, Cancelled(ok))
    case Cleared(ok) => c.open && c.freed == 0 && Deserved(call, Cancelled(ok))
    case Closing(after) => c.open && c.freed < Handles(c) && SaysClosed(call, after) && Deserved(call, after)
      && !after.ErrClosed?
    case Leaving(outcome) =>
      Deserved(call, outcome) && !outcome.ConcurrentUse? && (SaysClosed(call, outcome) <==> !c.open)
        && (c.open ==> c.freed == 0)
    case Returned(outcome) => Deserved(call, outcome) && (SaysClosed(call, outcome) ==> !c.open)
  }

  predicate InFlight(call: Call) {
    call.kind.Operation? && (call.handler.Running? || call.handler.Sent?) && call.runs == 1
  }

  predicate ClientOk(c: Client) {
    && (!c.open ==> c.freed == Handles(c))
    && (c.open && c.holder.None? ==> c.freed == 0)
  }

  ghost predicate Inv(s: State) {
    && WellFormed(s)
    && (forall c | 0 <= c < |s.clients| :: ClientOk(s.clients[c]))
    && (forall c | 0 <= c < |s.clients| && s.clients[c].holder.Some? ::
          var h := s.clients[c].holder.value;
          h < |s.calls| && s.calls[h].client == c)
    && (forall i | 0 <= i < |s.calls| ::
          Holding(s.calls[i].phase) <==> s.clients[s.calls[i].client].holder == Some(i))
    && (forall i | 0 <= i < |s.calls| :: CallOk(s.clients[s.calls[i].client], s.calls[i]))
    && (s.flag ==> exists i | 0 <= i < |s.calls| :: Pending(s.calls[i].phase))
  }

  lemma InitInv(s: State)
    requires Init(s)
    ensures Inv(s)
  {}

  /** The step keeps the actor and its client in agreement. */
  lemma LocalOk(flag: bool, c: Client, call: Call, i: nat, a: Action)
    requires ClientOk(c) && CallOk(c, call) && (Holding(call.phase) <==> c.holder == Some(i))
    requires Can(State(flag, [c], [call.(client := 0)]), 0, a)
    ensures var (f, d, next) := Local(flag, c, call, i, a);
      ClientOk(d) && CallOk(d, next)
  {}

  /** What a step does to the rest: another call's client is freed or closed only by its holder. */
  lemma StepCalls(s: State, i: nat, a: Action, j: nat)
    requires Inv(s) && Can(s, i, a) && j < |s.calls|
    ensures var t := Apply(s, i, a);
      CallOk(t.clients[t.calls[j].client], t.calls[j])
  {
    var t := Apply(s, i, a);
    var k := s.calls[i].client;
    LocalOk(s.flag, s.clients[k], s.calls[i], i, a);
    if j != i && s.calls[j].client == k {
      if Holding(s.calls[j].phase) {
        assert s.clients[k].holder == Some(j);
        assert !Holding(s.calls[i].phase);
        assert s.calls[i].phase.Start?;
        assert t.clients[k] == s.clients[k];
      }
    }
  }

  lemma StepHolders(s: State, i: nat, a: Action, j: nat)
    requires Inv(s) && Can(s, i, a) && j < |s.calls|
    ensures var t := Apply(s, i, a);
      Holding(t.calls[j].phase) <==> t.clients[t.calls[j].client].holder == Some(j)
  {
    assert Holding(s.calls[j].phase) <==> s.clients[s.calls[j].client].holder == Some(j);
  }

  lemma StepFlag(s: State, i: nat, a: Action)
    requires Inv(s) && Can(s, i, a) && Apply(s, i, a).flag
    ensures var t := Apply(s, i, a);
      exists j | 0 <= j < |t.calls| :: Pending(t.calls[j].phase)
  {
    var t := Apply(s, i, a);
    if Pending(t.calls[i].phase) {
    } else {
      var j :| 0 <= j < |s.calls| && Pending(s.calls[j].phase);
      assert t.calls[j] == s.calls[j];
    }
  }

  lemma StepClients(s: State, i: nat, a: Action, c: nat)
    requires Inv(s) && Can(s, i, a) && c < |s.clients|
    ensures ClientOk(Apply(s, i, a).clients[c])
  {
    LocalOk(s.flag, s.clients[s.calls[i].client], s.calls[i], i, a);
  }

  /** Every step keeps the invariant. */
  lemma StepInv(s: State, i: nat, a: Action)
    requires Inv(s) && Can(s, i, a)
    ensures Inv(Apply(s, i, a))
  {
    var t := Apply(s, i, a);
    forall c | 0 <= c < |t.clients|
      ensures ClientOk(t.clients[c])
      ensures t.clients[c].holder.Some? ==>
        t.clients[c].holder.value < |t.calls| && t.calls[t.clients[c].holder.value].client == c
    {
      StepClients(s, i, a, c);
    }
    forall j | 0 <= j < |t.calls|
      ensures CallOk(t.clients[t.calls[j].client], t.calls[j])
      ensures Holding(t.calls[j].phase) <==> t.clients[t.calls[j].client].holder == Some(j)
    {
      StepCalls(s, i, a, j);
      StepHolders(s, i, a, j);
    }
    if t.flag {
      StepFlag(s, i, a);
    }
  }
}
