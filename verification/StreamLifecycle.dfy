/**
  The stream lifecycle of P4RuntimeClient as a state machine.

  Every section that the client runs under `_teardown_lock` is one function on
  the shared fields; the unlocked reads of `connect` are steps of their own.
  Any number of threads call `connect` and `disconnect`, and one consumer thread
  exists for every stream ever opened.  A generation is the number of the
  `connect` that opened it, and names its channel, queue, event and stream.
 */
module StreamLifecycle {
  import opened Wrappers

  datatype Fault = RpcFault | ClosedEarly | StreamEnded | OtherFault

  datatype Arbitration = Arbitration(status: int)

  /** The fields guarded by the lock, with what they have done to the outside so far. */
  datatype Shared = Shared(
    channel: Option<nat>,
    outgoing: Option<nat>,
    stream: Option<nat>,
    event: nat,
    arbitration: Option<Arbitration>,
    error: Option<Fault>,
    connected: bool,
    closed: bool,
    gens: nat,           // generations opened so far; 0 owns the constructor's event
    signalled: set<nat>,   // generations whose event is set
    cancelled: set<nat>,   // streams cancelled
    closes: multiset<nat>) // channel closes, by generation

  const FRESH := Shared(None, None, None, 0, None, None, false, false, 0, {}, {}, multiset{})

  /******* Lock-held sections *******/

  function TeardownAll(s: Shared): Shared {
    var wakes := s.channel.Some? && !s.connected;
    Shared(
      None, None, None, s.event, s.arbitration,
      if wakes && s.error.None? then Some(ClosedEarly) else s.error,
      false, true, s.gens,
      if wakes then s.signalled + {s.event} else s.signalled,
      if s.stream.Some? then s.cancelled + {s.stream.value} else s.cancelled,
      if s.channel.Some? then s.closes + multiset{s.channel.value} else s.closes)
  }

  function Teardown(s: Shared, expected: Option<nat>): Shared {
    if expected.Some? && expected != s.stream then s else TeardownAll(s)
  }

  /** Opens a generation; `refused` says that StreamChannel raised an RPC error. */
  function OpenSection(s: Shared, refused: bool): Shared {
    if s.connected then s
    else
      var g := s.gens + 1;
      var renewed := s.(closed := false, channel := Some(g), outgoing := Some(g), event := g,
                      arbitration := None, error := None, gens := g);
      if refused then TeardownAll(renewed) else renewed.(stream := Some(g))
  }

  predicate Current(s: Shared, g: nat) {
    !s.closed && s.stream == Some(g)
  }

  function ReceiveSection(s: Shared, g: nat, answer: Option<Arbitration>): Shared {
    if Current(s, g) && answer.Some? then
      s.(arbitration := answer, signalled := s.signalled + {s.event})
    else s
  }

  function FaultSection(s: Shared, g: nat, fault: Fault): Shared {
    if Current(s, g) then s.(error := Some(fault)) else s
  }

  function FinishSection(s: Shared, g: nat): Shared {
    if Current(s, g) then
      Teardown(
        s.(error := if s.error.None? then Some(StreamEnded) else s.error,
           signalled := s.signalled + {s.event}),
        Some(g))
    else s
  }

  predicate Accepts(s: Shared, g: nat) {
    Current(s, g) && s.error.None? && s.arbitration.Some? && s.arbitration.value.status == 0
  }

  function CommitSection(s: Shared, g: nat): Shared {
    if Accepts(s, g) then s.(connected := true) else s
  }

  /******* Threads *******/

  /** How a call of `connect` ends: the first two return, the others raise. */
  datatype Outcome =
    | Connected | AlreadyConnected | StreamRefused | TimedOutError | RpcFailure
    | ConnectionFailure | StreamFailure | ClosedMeanwhile | NoAnswer | NotPrimary

  /** Which error `connect` raises once the commit section did not accept. */
  function Refusal(s: Shared, g: nat): Outcome {
    match s.error
    case Some(RpcFault) => RpcFailure
    case Some(OtherFault) => StreamFailure
    case Some(_) => ConnectionFailure
    case None =>
      if !Current(s, g) then ClosedMeanwhile
      else if s.arbitration.None? then NoAnswer
      else NotPrimary
  }

  datatype Phase =
    | Begin | ChannelSeen | Resetting | Opening
    | Waiting(gen: nat) | Expired(gen: nat) | Committing(gen: nat) | Failing(gen: nat, why: Outcome)
    | Returned(outcome: Outcome)

  /** The generation that a connect call in this phase has opened and not yet settled. */
  function Owner(p: Phase): Option<nat> {
    match p
    case Waiting(g) => Some(g)
    case Expired(g) => Some(g)
    case Committing(g) => Some(g)
    case Failing(g, _) => Some(g)
    case _ => None
  }

  datatype Consumer = Reading | Finishing | Gone

  datatype World = World(
    shared: Shared,
    connectors: map<nat, Phase>,
    consumers: map<nat, Consumer>,
    received: map<nat, seq<Arbitration>>, // arbitration answers that arrived, by stream
    overwritten: set<nat>)                // generations whose fields a later open replaced

  const INIT := World(FRESH, map[], map[], map[], {})

  datatype Step =
    | CallConnect(t: nat) | ReadChannel(t: nat) | ReadConnected(t: nat) | Reset(t: nat)
    | Open(t: nat, refused: bool) | Wake(t: nat) | Expire(t: nat) | GiveUp(t: nat)
    | Commit(t: nat) | Fail(t: nat)
    | Receive(g: nat, answer: Option<Arbitration>) | Break(g: nat, fault: Fault)
    | End(g: nat) | Finish(g: nat)
    | Disconnect

  predicate At(w: World, t: nat, p: Phase) {
    t in w.connectors && w.connectors[t] == p
  }

  predicate Consuming(w: World, g: nat, c: Consumer) {
    g in w.consumers && w.consumers[g] == c
  }

  predicate Enabled(w: World, step: Step) {
    match step
    case CallConnect(t) => t in w.connectors ==> w.connectors[t].Returned?
    case ReadChannel(t) => At(w, t, Begin)
    case ReadConnected(t) => At(w, t, ChannelSeen)
    case Reset(t) => At(w, t, Resetting)
    case Open(t, _) => At(w, t, Opening)
    case Wake(t) => t in w.connectors && w.connectors[t].Waiting? && w.connectors[t].gen in w.shared.signalled
    case Expire(t) => t in w.connectors && w.connectors[t].Waiting? && w.connectors[t].gen !in w.shared.signalled
    case GiveUp(t) => t in w.connectors && w.connectors[t].Expired?
    case Commit(t) => t in w.connectors && w.connectors[t].Committing?
    case Fail(t) => t in w.connectors && w.connectors[t].Failing?
    case Receive(g, _) => Consuming(w, g, Reading)
    case Break(g, fault) => Consuming(w, g, Reading) && (fault.RpcFault? || fault.OtherFault?)
    case End(g) => Consuming(w, g, Reading)
    case Finish(g) => Consuming(w, g, Finishing)
    case Disconnect => true
  }

  function Goto(w: World, t: nat, p: Phase, s: Shared): World {
    w.(connectors := w.connectors[t := p], shared := s)
  }

  function Advance(w: World, g: nat, c: Consumer, s: Shared): World {
    w.(consumers := w.consumers[g := c], shared := s)
  }

  function ApplyOpen(w: World, t: nat, refused: bool): World {
    var s := w.shared;
    var s' := OpenSection(s, refused);
    if s.connected then Goto(w, t, Returned(AlreadyConnected), s)
    else
      var lost := if s.channel.Some? then w.overwritten + {s.channel.value} else w.overwritten;
      if refused then Goto(w, t, Returned(StreamRefused), s').(overwritten := lost)
      else
        Goto(w, t, Waiting(s'.gens), s').(
          overwritten := lost, consumers := w.consumers[s'.gens := Reading])
  }

  function ApplyReceive(w: World, g: nat, answer: Option<Arbitration>): World {
    var s := w.shared;
    var next := Advance(w, g, if Current(s, g) then Reading else Finishing, ReceiveSection(s, g, answer));
    if answer.Some? then
      next.(received := w.received[g := (if g in w.received then w.received[g] else []) + [answer.value]])
    else next
  }

  function Apply(w: World, step: Step): World
    requires Enabled(w, step)
  {
    var s := w.shared;
    match step
    case CallConnect(t) => Goto(w, t, Begin, s)
    case ReadChannel(t) => Goto(w, t, if s.channel.Some? then ChannelSeen else Opening, s)
    case ReadConnected(t) => Goto(w, t, if s.connected then Opening else Resetting, s)
    case Reset(t) => Goto(w, t, Opening, Teardown(s, None))
    case Open(t, refused) => ApplyOpen(w, t, refused)
    case Wake(t) => Goto(w, t, Committing(w.connectors[t].gen), s)
    case Expire(t) => Goto(w, t, Expired(w.connectors[t].gen), s)
    case GiveUp(t) => Goto(w, t, Returned(TimedOutError), Teardown(s, Some(w.connectors[t].gen)))
    case Commit(t) =>
      var g := w.connectors[t].gen;
      Goto(w, t, if Accepts(s, g) then Returned(Connected) else Failing(g, Refusal(s, g)), CommitSection(s, g))
    case Fail(t) => Goto(w, t, Returned(w.connectors[t].why), Teardown(s, Some(w.connectors[t].gen)))
    case Receive(g, answer) => ApplyReceive(w, g, answer)
    case Break(g, fault) => Advance(w, g, Finishing, FaultSection(s, g, fault))
    case End(g) => Advance(w, g, Finishing, s)
    case Finish(g) => Advance(w, g, Gone, FinishSection(s, g))
    case Disconnect => w.(shared := Teardown(s, None))
  }

  /******* Runs *******/

  predicate CanRun(w: World, steps: seq<Step>)
    decreases |steps|
  {
    |steps| == 0 || (Enabled(w, steps[0]) && CanRun(Apply(w, steps[0]), steps[1..]))
  }

  function Run(w: World, steps: seq<Step>): World
    requires CanRun(w, steps)
    decreases |steps|
  {
    if |steps| == 0 then w else Run(Apply(w, steps[0]), steps[1..])
  }

  /******* Invariant *******/

  ghost predicate SharedInv(s: Shared) {
    && s.event == s.gens
    && s.channel == s.outgoing == s.stream
    && (s.stream.Some? ==> s.stream.value == s.gens > 0 && !s.closed)
    && (s.stream.None? && s.gens > 0 ==> s.closed)
    && (s.connected ==> s.stream.Some?)
    && (forall g <- s.signalled :: 0 < g <= s.gens)
  }

  /** Every channel opened is current, was closed once, or was overwritten: exactly one of the three. */
  ghost predicate Conserved(s: Shared, overwritten: set<nat>) {
    && (forall g <- overwritten :: 0 < g <= s.gens && s.channel != Some(g))
    && (forall g: nat :: s.closes[g] ==
         if 0 < g <= s.gens && s.channel != Some(g) && g !in overwritten then 1 else 0)
  }

  function Latest(w: World, g: nat): Option<Arbitration> {
    if g in w.received && |w.received[g]| > 0 then Some(w.received[g][|w.received[g]| - 1]) else None
  }

  ghost predicate Fresh(w: World) {
    && (forall g <- w.consumers :: 0 < g <= w.shared.gens)
    && (forall g <- w.received :: 0 < g <= w.shared.gens)
    && (w.shared.stream.Some? ==> w.shared.arbitration == Latest(w, w.shared.stream.value))
  }

  ghost predicate Owned(w: World) {
    forall t <- w.connectors :: Owner(w.connectors[t]).Some? ==>
      && 0 < Owner(w.connectors[t]).value <= w.shared.gens
      && (w.shared.connected ==> Owner(w.connectors[t]) != w.shared.stream)
  }

  ghost predicate Disjoint(w: World) {
    forall t, u | t in w.connectors && u in w.connectors && t != u ::
      Owner(w.connectors[t]).None? || Owner(w.connectors[t]) != Owner(w.connectors[u])
  }

  /** A waiting connect still owns the stream, has been woken, or was overwritten. */
  ghost predicate Wakeable(w: World) {
    forall t <- w.connectors :: w.connectors[t].Waiting? ==>
      var g := w.connectors[t].gen;
      w.shared.stream == Some(g) || g in w.shared.signalled || g in w.overwritten
  }

  ghost predicate Inv(w: World) {
    SharedInv(w.shared) && Conserved(w.shared, w.overwritten) && Fresh(w) && Owned(w) && Disjoint(w) && Wakeable(w)
  }

  lemma {:induction false} InitInv()
    ensures Inv(INIT)
  {}

  lemma {:induction false} TeardownKeeps(s: Shared, expected: Option<nat>, overwritten: set<nat>)
    requires SharedInv(s) && Conserved(s, overwritten)
    ensures SharedInv(Teardown(s, expected)) && Conserved(Teardown(s, expected), overwritten)
  {}

  lemma {:induction false} StepKeepsShared(w: World, step: Step)
    requires SharedInv(w.shared) && Conserved(w.shared, w.overwritten) && Enabled(w, step)
    ensures SharedInv(Apply(w, step).shared) && Conserved(Apply(w, step).shared, Apply(w, step).overwritten)
  {
    if step.Open? {
      OpenKeepsShared(w, step.t, step.refused);
    } else if step.Finish? {
      FinishKeepsShared(w.shared, step.g, w.overwritten);
    } else if TearsDown(step) {
      TearingKeepsShared(w, step);
    } else {
      OtherKeepsShared(w, step);
    }
  }

  predicate TearsDown(step: Step) {
    step.Reset? || step.GiveUp? || step.Fail? || step.Disconnect?
  }

  lemma {:induction false} TearingKeepsShared(w: World, step: Step)
    requires SharedInv(w.shared) && Conserved(w.shared, w.overwritten) && Enabled(w, step) && TearsDown(step)
    ensures SharedInv(Apply(w, step).shared) && Conserved(Apply(w, step).shared, Apply(w, step).overwritten)
  {
    var expected := if step.GiveUp? || step.Fail? then Some(w.connectors[step.t].gen) else None;
    TeardownKeeps(w.shared, expected, w.overwritten);
  }

  lemma {:induction false} FinishKeepsShared(s: Shared, g: nat, overwritten: set<nat>)
    requires SharedInv(s) && Conserved(s, overwritten)
    ensures SharedInv(FinishSection(s, g)) && Conserved(FinishSection(s, g), overwritten)
  {
    if Current(s, g) {
      var noted := s.(error := if s.error.None? then Some(StreamEnded) else s.error,
                      signalled := s.signalled + {s.event});
      TeardownKeeps(noted, Some(g), overwritten);
    }
  }

  /** The other steps leave the channel and the counts of closes alone. */
  lemma {:induction false} OtherKeepsShared(w: World, step: Step)
    requires SharedInv(w.shared) && Conserved(w.shared, w.overwritten) && Enabled(w, step)
    requires !step.Open? && !step.Finish? && !TearsDown(step)
    ensures SharedInv(Apply(w, step).shared) && Conserved(Apply(w, step).shared, Apply(w, step).overwritten)
  {
    assert Apply(w, step).overwritten == w.overwritten && Apply(w, step).shared.closes == w.shared.closes;
  }

  lemma {:induction false} OpenKeepsShared(w: World, t: nat, refused: bool)
    requires SharedInv(w.shared) && Conserved(w.shared, w.overwritten)
    ensures SharedInv(ApplyOpen(w, t, refused).shared)
    ensures Conserved(ApplyOpen(w, t, refused).shared, ApplyOpen(w, t, refused).overwritten)
  {
  }

  lemma {:induction false} OpenKeepsFresh(w: World, t: nat, refused: bool)
    requires SharedInv(w.shared) && Fresh(w)
    ensures Fresh(ApplyOpen(w, t, refused))
  {}

  lemma {:induction false} ReceiveKeepsFresh(w: World, g: nat, answer: Option<Arbitration>)
    requires SharedInv(w.shared) && Fresh(w) && Consuming(w, g, Reading)
    ensures Fresh(ApplyReceive(w, g, answer))
  {}

  lemma {:induction false} StepKeepsFresh(w: World, step: Step)
    requires SharedInv(w.shared) && Fresh(w) && Enabled(w, step)
    ensures Fresh(Apply(w, step))
  {
    match step
    case Open(t, refused) => OpenKeepsFresh(w, t, refused);
    case Receive(g, answer) => ReceiveKeepsFresh(w, g, answer);
    case _ =>
      var w' := Apply(w, step);
      assert w'.received == w.received;
      assert w'.consumers.Keys == w.consumers.Keys;
      assert w'.shared.stream.Some? ==>
        w'.shared.stream == w.shared.stream && w'.shared.arbitration == w.shared.arbitration;
  }

  /** A connect call owns what it owned before the step, or a generation that the step opens. */
  lemma {:induction false} OwnersAfter(w: World, step: Step)
    requires SharedInv(w.shared) && Enabled(w, step)
    ensures var w' := Apply(w, step);
      && w.shared.gens <= w'.shared.gens
      && (forall t <- w'.connectors :: Owner(w'.connectors[t]).Some? ==>
            || (t in w.connectors && Owner(w.connectors[t]) == Owner(w'.connectors[t]))
            || (step.Open? && t == step.t && !w'.shared.connected &&
                Owner(w'.connectors[t]) == Some(w'.shared.gens) && w'.shared.gens == w.shared.gens + 1))
  {}

  /** A connected client was connected before the step, or the step is the commit of its stream's own connect. */
  lemma {:induction false} ConnectedAfter(w: World, step: Step)
    requires SharedInv(w.shared) && Enabled(w, step) && Apply(w, step).shared.connected
    ensures var w' := Apply(w, step);
      && w'.shared.stream == w.shared.stream
      && (w.shared.connected ||
          (step.Commit? && At(w', step.t, Returned(Connected)) &&
           step.t in w.connectors && Owner(w.connectors[step.t]) == w.shared.stream))
  {}

  lemma {:induction false} StepKeepsOwned(w: World, step: Step)
    requires SharedInv(w.shared) && Owned(w) && Disjoint(w) && Enabled(w, step)
    ensures Owned(Apply(w, step)) && Disjoint(Apply(w, step))
  {
    OwnersAfter(w, step);
    if Apply(w, step).shared.connected {
      ConnectedAfter(w, step);
    }
    OwnersFollow(w, step, Apply(w, step));
  }

  lemma {:induction false} OwnersFollow(w: World, step: Step, w': World)
    requires Owned(w) && Disjoint(w) && w.shared.gens <= w'.shared.gens
    requires forall t <- w'.connectors :: Owner(w'.connectors[t]).Some? ==>
      || (t in w.connectors && Owner(w.connectors[t]) == Owner(w'.connectors[t]))
      || (step.Open? && t == step.t && !w'.shared.connected &&
          Owner(w'.connectors[t]) == Some(w'.shared.gens) && w'.shared.gens == w.shared.gens + 1)
    requires w'.shared.connected ==>
      && w'.shared.stream == w.shared.stream
      && (w.shared.connected ||
          (step.Commit? && At(w', step.t, Returned(Connected)) &&
           step.t in w.connectors && Owner(w.connectors[step.t]) == w.shared.stream))
    ensures Owned(w') && Disjoint(w')
  {}

  lemma {:induction false} StepKeepsWakeable(w: World, step: Step)
    requires SharedInv(w.shared) && Owned(w) && Wakeable(w) && Enabled(w, step)
    ensures Wakeable(Apply(w, step))
  {
    if step.Open? {
      OpenKeepsWakeable(w, step.t, step.refused);
    } else if TearsDown(step) {
      TearingKeepsWakeable(w, step);
    } else {
      OtherKeepsWakeable(w, step);
    }
  }

  lemma {:induction false} OpenKeepsWakeable(w: World, t: nat, refused: bool)
    requires SharedInv(w.shared) && Owned(w) && Wakeable(w)
    ensures Wakeable(ApplyOpen(w, t, refused))
  {
  }

  lemma {:induction false} TearingKeepsWakeable(w: World, step: Step)
    requires SharedInv(w.shared) && Owned(w) && Wakeable(w) && Enabled(w, step) && TearsDown(step)
    ensures Wakeable(Apply(w, step))
  {
  }

  lemma {:induction false} OtherKeepsWakeable(w: World, step: Step)
    requires SharedInv(w.shared) && Owned(w) && Wakeable(w) && Enabled(w, step)
    requires !step.Open? && !TearsDown(step)
    ensures Wakeable(Apply(w, step))
  {
  }

  lemma {:induction false} StepKeepsInv(w: World, step: Step)
    requires Inv(w) && Enabled(w, step)
    ensures Inv(Apply(w, step))
  {
    StepKeepsShared(w, step);
    StepKeepsFresh(w, step);
    StepKeepsOwned(w, step);
    StepKeepsWakeable(w, step);
  }

  /** The invariant holds in every state of every run. */
  lemma {:induction false} RunKeepsInv(w: World, steps: seq<Step>)
    requires Inv(w) && CanRun(w, steps)
    ensures Inv(Run(w, steps))
    decreases |steps|
  {
    if |steps| > 0 {
      StepKeepsInv(w, steps[0]);
      RunKeepsInv(Apply(w, steps[0]), steps[1..]);
    }
  }

  lemma {:induction false} RunConcat(w: World, first: seq<Step>, second: seq<Step>)
    requires CanRun(w, first) && CanRun(Run(w, first), second)
    ensures CanRun(w, first + second) && Run(w, first + second) == Run(Run(w, first), second)
    decreases |first|
  {
    if |first| == 0 {
      assert first + second == second;
    } else {
      assert (first + second)[1..] == first[1..] + second;
      RunConcat(Apply(w, first[0]), first[1..], second);
    }
  }

  /** The states that some run reaches. */
  ghost predicate Reached(w: World) {
    exists steps :: CanRun(INIT, steps) && Run(INIT, steps) == w
  }

  lemma {:induction false} ReachedInv(w: World)
    requires Reached(w)
    ensures Inv(w)
  {
    var steps :| CanRun(INIT, steps) && Run(INIT, steps) == w;
    RunKeepsInv(INIT, steps);
  }

  lemma {:induction false} ReachedMore(w: World, more: seq<Step>)
    requires Reached(w) && CanRun(w, more)
    ensures Reached(Run(w, more))
  {
    var steps :| CanRun(INIT, steps) && Run(INIT, steps) == w;
    RunConcat(INIT, steps, more);
  }

  lemma {:induction false} RunOne(w: World, step: Step)
    requires Enabled(w, step)
    ensures CanRun(w, [step]) && Run(w, [step]) == Apply(w, step)
  {
    var steps, w' := [step], Apply(w, step);
    assert steps[0] == step && steps[1..] == [];
    assert CanRun(w', []) && Run(w', []) == w';
    assert CanRun(w', steps[1..]) && Run(w', steps[1..]) == w';
  }

  lemma {:induction false} ReachedNext(w: World, step: Step)
    requires Reached(w) && Enabled(w, step)
    ensures Reached(Apply(w, step))
  {
    RunOne(w, step);
    ReachedMore(w, [step]);
  }

  /******* Stale generations *******/

  /** Steps of generation g's consumer, and the failing ends of the connect that opened g. */
  predicate StepOf(w: World, step: Step, g: nat) {
    match step
    case Receive(h, _) => g == h
    case Break(h, _) => g == h
    case End(h) => g == h
    case Finish(h) => g == h
    case GiveUp(t) => t in w.connectors && Owner(w.connectors[t]) == Some(g)
    case Commit(t) => t in w.connectors && Owner(w.connectors[t]) == Some(g)
    case Fail(t) => t in w.connectors && Owner(w.connectors[t]) == Some(g)
    case _ => false
  }

  /**
    In any run, once a generation newer than g has been opened, no step of g's
    consumer and no late commit, timeout or failure of g's connect changes any
    shared field: channel, queue, stream, event, answer, error or either flag.
   */
  lemma {:induction false} StaleStepsChangeNothing(steps: seq<Step>, step: Step, g: nat)
    requires CanRun(INIT, steps) && Enabled(Run(INIT, steps), step)
    requires g < Run(INIT, steps).shared.gens && StepOf(Run(INIT, steps), step, g)
    ensures Apply(Run(INIT, steps), step).shared == Run(INIT, steps).shared
  {
    RunKeepsInv(INIT, steps);
  }

  /******* Connected means live and freshly arbitrated *******/

  /** Whenever the lock is free: connected implies not closed, with channel, queue and stream of one generation. */
  lemma {:induction false} ConnectedIsLive(steps: seq<Step>)
    requires CanRun(INIT, steps)
    ensures var s := Run(INIT, steps).shared;
      && (s.connected ==> !s.closed && s.channel.Some? && s.outgoing == s.stream == s.channel)
      && (s.gens > 0 ==> (s.closed <==> s.channel.None?))
  {
    RunKeepsInv(INIT, steps);
  }

  /**
    The commit section accepts exactly when its own generation is current, nothing has failed on it,
    and the last answer that arrived on that very stream had status 0.
   */
  lemma {:induction false} CommitAcceptsExactly(steps: seq<Step>, t: nat)
    requires CanRun(INIT, steps) && Enabled(Run(INIT, steps), Commit(t))
    ensures var w := Run(INIT, steps);
      var g := w.connectors[t].gen;
      At(Apply(w, Commit(t)), t, Returned(Connected)) <==>
        && w.shared.stream == Some(g)
        && w.shared.error.None?
        && Latest(w, g).Some?
        && Latest(w, g).value.status == 0
  {
    RunKeepsInv(INIT, steps);
  }

  /** In any run, no step but an accepting commit makes the client connected. */
  lemma {:induction false} OnlyCommitConnects(steps: seq<Step>, step: Step)
    requires CanRun(INIT, steps) && Enabled(Run(INIT, steps), step)
    requires !Run(INIT, steps).shared.connected && Apply(Run(INIT, steps), step).shared.connected
    ensures step.Commit? && At(Apply(Run(INIT, steps), step), step.t, Returned(Connected))
  {
    RunKeepsInv(INIT, steps);
  }

  /******* Wake-ups *******/

  /** Tearing down a generation that is not yet connected sets that generation's event and leaves an error. */
  lemma {:induction false} TeardownWakes(steps: seq<Step>, expected: Option<nat>)
    requires CanRun(INIT, steps)
    requires var s := Run(INIT, steps).shared;
      s.channel.Some? && !s.connected && (expected.Some? ==> expected == s.stream)
    ensures var s := Run(INIT, steps).shared;
      && s.channel.value in Teardown(s, expected).signalled
      && Teardown(s, expected).error.Some?
      && s.channel.value in Teardown(s, expected).cancelled
  {
    RunKeepsInv(INIT, steps);
  }

  /** A waiting connect whose stream is gone has been woken, unless a later open overwrote its fields. */
  lemma {:induction false} WaitersWake(steps: seq<Step>, t: nat)
    requires CanRun(INIT, steps) && t in Run(INIT, steps).connectors && Run(INIT, steps).connectors[t].Waiting?
    ensures var w := Run(INIT, steps);
      var g := w.connectors[t].gen;
      Enabled(w, Wake(t)) || w.shared.stream == Some(g) || g in w.overwritten
  {
    RunKeepsInv(INIT, steps);
  }

  lemma {:induction false} OverwrittenStaysAsleep(w: World, step: Step, g: nat)
    requires Inv(w) && Enabled(w, step) && g in w.overwritten && g !in w.shared.signalled
    ensures g in Apply(w, step).overwritten && g !in Apply(w, step).shared.signalled
  {}

  /** An overwritten connect that was not woken never will be: only its own timeout ends the wait. */
  lemma {:induction false} OverwrittenNeverWakes(w: World, steps: seq<Step>, g: nat)
    requires Inv(w) && CanRun(w, steps) && g in w.overwritten && g !in w.shared.signalled
    ensures g in Run(w, steps).overwritten && g !in Run(w, steps).shared.signalled
    decreases |steps|
  {
    if |steps| > 0 {
      StepKeepsInv(w, steps[0]);
      OverwrittenStaysAsleep(w, steps[0], g);
      OverwrittenNeverWakes(Apply(w, steps[0]), steps[1..], g);
    }
  }

  /******* Channels *******/

  /**
    Conservation.  When the client holds no channel, every channel ever opened has been closed exactly
    once, save the overwritten ones, which have never been closed.
   */
  lemma {:induction false} ChannelsClosedOnce(steps: seq<Step>, g: nat)
    requires CanRun(INIT, steps) && Run(INIT, steps).shared.channel.None?
    requires 0 < g <= Run(INIT, steps).shared.gens
    ensures Run(INIT, steps).shared.closes[g] == if g in Run(INIT, steps).overwritten then 0 else 1
  {
    RunKeepsInv(INIT, steps);
  }

  /** Runs in which a connect is called only while no other connect is in flight. */
  predicate Idle(w: World) {
    forall t <- w.connectors :: w.connectors[t].Returned?
  }

  predicate Solo(w: World, steps: seq<Step>)
    requires CanRun(w, steps)
    decreases |steps|
  {
    |steps| == 0 || ((steps[0].CallConnect? ==> Idle(w)) && Solo(Apply(w, steps[0]), steps[1..]))
  }

  /** At most one connect is in flight, and it owns whatever generation is open but not connected. */
  ghost predicate SoloInv(w: World) {
    && w.overwritten == {}
    && (forall t, u | t in w.connectors && u in w.connectors && t != u ::
          w.connectors[t].Returned? || w.connectors[u].Returned?)
    && (w.shared.channel.Some? && !w.shared.connected ==>
          exists t :: t in w.connectors && Owner(w.connectors[t]) == w.shared.channel)
  }

  lemma {:induction false} SoloNeverOverwrites(w: World, step: Step)
    requires Inv(w) && SoloInv(w) && Enabled(w, step)
    ensures Apply(w, step).overwritten == {}
  {}

  lemma {:induction false} SoloStaysAlone(w: World, step: Step)
    requires Inv(w) && SoloInv(w) && Enabled(w, step) && (step.CallConnect? ==> Idle(w))
    ensures forall t, u | t in Apply(w, step).connectors && u in Apply(w, step).connectors && t != u ::
      Apply(w, step).connectors[t].Returned? || Apply(w, step).connectors[u].Returned?
  {}

  lemma {:induction false} StepKeepsSolo(w: World, step: Step)
    requires Inv(w) && SoloInv(w) && Enabled(w, step) && (step.CallConnect? ==> Idle(w))
    ensures SoloInv(Apply(w, step))
  {
    SoloNeverOverwrites(w, step);
    SoloStaysAlone(w, step);
    if Apply(w, step).shared.channel.Some? && !Apply(w, step).shared.connected {
      SoloKeepsOwner(w, step);
    }
  }

  lemma {:induction false} SoloKeepsChannel(w: World, step: Step)
    requires SharedInv(w.shared) && Enabled(w, step) && !step.Open?
    requires Apply(w, step).shared.channel.Some? && !Apply(w, step).shared.connected
    ensures Apply(w, step).shared.channel == w.shared.channel && !w.shared.connected
    ensures forall t <- w.connectors :: Owner(w.connectors[t]) == w.shared.channel ==>
      t in Apply(w, step).connectors && Owner(Apply(w, step).connectors[t]) == w.shared.channel
  {}

  lemma {:induction false} SoloKeepsOwner(w: World, step: Step)
    requires Inv(w) && SoloInv(w) && Enabled(w, step)
    requires Apply(w, step).shared.channel.Some? && !Apply(w, step).shared.connected
    ensures var w' := Apply(w, step);
      exists t :: t in w'.connectors && Owner(w'.connectors[t]) == w'.shared.channel
  {
    var w' := Apply(w, step);
    if step.Open? {
      assert step.t in w'.connectors && Owner(w'.connectors[step.t]) == w'.shared.channel;
    } else {
      SoloKeepsChannel(w, step);
      var t :| t in w.connectors && Owner(w.connectors[t]) == w.shared.channel;
      assert t in w'.connectors && Owner(w'.connectors[t]) == w'.shared.channel;
    }
  }

  lemma {:induction false} SoloRunKeeps(w: World, steps: seq<Step>)
    requires Inv(w) && SoloInv(w) && CanRun(w, steps) && Solo(w, steps)
    ensures Inv(Run(w, steps)) && SoloInv(Run(w, steps))
    decreases |steps|
  {
    if |steps| > 0 {
      StepKeepsInv(w, steps[0]);
      StepKeepsSolo(w, steps[0]);
      SoloRunKeeps(Apply(w, steps[0]), steps[1..]);
    }
  }

  /**
    With at most one connect in flight nothing leaks and nobody is stranded: a client without a channel
    has closed every channel exactly once, and so has an idle one that is not connected.
   */
  lemma {:induction false} SoloClosesEverything(steps: seq<Step>, g: nat)
    requires CanRun(INIT, steps) && Solo(INIT, steps)
    requires 0 < g <= Run(INIT, steps).shared.gens
    ensures var w := Run(INIT, steps);
      && w.overwritten == {}
      && (Idle(w) && !w.shared.connected ==> w.shared.channel.None?)
      && (w.shared.channel.None? ==> w.shared.closes[g] == 1)
  {
    SoloRunKeeps(INIT, steps);
  }

  /******* Overlapping connects *******/

  /** Two connects that both find no channel: the second replaces the first's fields. */
  const OVERLAP := [
    CallConnect(1), ReadChannel(1), CallConnect(2), ReadChannel(2), Open(1, false), Open(2, false), Disconnect]

  /**
    Without that restriction the claim is false: after these steps no channel is held, yet the first
    one was never closed, its stream never cancelled, and the connect that opened it never woken.
   */
  lemma {:induction false} OverlapLeaksAChannel()
    ensures CanRun(INIT, OVERLAP)
    ensures var w := Run(INIT, OVERLAP);
      && w.shared.channel.None? && w.shared.closes[1] == 0 && 1 !in w.shared.cancelled
      && At(w, 1, Waiting(1)) && 1 !in w.shared.signalled
  {
    var w4 := BothFindNoChannel();
    var w5 := FirstOpens(w4);
    var w6 := Extend(OVERLAP, 5, w5);
    var w7 := Extend(OVERLAP, 6, w6);
    assert OVERLAP[..7] == OVERLAP;
  }

  lemma {:induction false} FirstOpens(w4: World) returns (w5: World)
    requires CanRun(INIT, OVERLAP[..4]) && Run(INIT, OVERLAP[..4]) == w4
    requires w4.shared == FRESH && At(w4, 1, Opening) && At(w4, 2, Opening)
    ensures CanRun(INIT, OVERLAP[..5]) && Run(INIT, OVERLAP[..5]) == w5
    ensures w5.shared == FRESH.(channel := Some(1), outgoing := Some(1), stream := Some(1), event := 1, gens := 1)
    ensures At(w5, 1, Waiting(1)) && At(w5, 2, Opening)
  {
    w5 := Extend(OVERLAP, 4, w4);
  }

  lemma {:induction false} BothFindNoChannel() returns (w4: World)
    ensures CanRun(INIT, OVERLAP[..4]) && Run(INIT, OVERLAP[..4]) == w4
    ensures w4.shared == FRESH && At(w4, 1, Opening) && At(w4, 2, Opening)
  {
    var w1 := Extend(OVERLAP, 0, INIT);
    var w2 := Extend(OVERLAP, 1, w1);
    var w3 := Extend(OVERLAP, 2, w2);
    w4 := Extend(OVERLAP, 3, w3);
  }

  lemma {:induction false} Extend(steps: seq<Step>, k: nat, w: World) returns (w': World)
    requires k < |steps| && CanRun(INIT, steps[..k]) && Run(INIT, steps[..k]) == w && Enabled(w, steps[k])
    ensures CanRun(INIT, steps[..k + 1]) && Run(INIT, steps[..k + 1]) == w' == Apply(w, steps[k])
  {
    RunOne(w, steps[k]);
    RunConcat(INIT, steps[..k], [steps[k]]);
    assert steps[..k + 1] == steps[..k] + [steps[k]];
    w' := Apply(w, steps[k]);
  }

  /** The state after the first n steps of a run. */
  function After(w: World, steps: seq<Step>, n: nat): (w': World)
    requires CanRun(w, steps) && n <= |steps|
    ensures n < |steps| ==> Enabled(w', steps[n])
    decreases n
  {
    if n == 0 then w else After(Apply(w, steps[0]), steps[1..], n - 1)
  }

  /** The step opens a generation while the client, not connected, still holds the channel of generation g. */
  predicate Replaces(w: World, step: Step, g: nat) {
    step.Open? && !w.shared.connected && w.shared.channel == Some(g)
  }

  lemma {:induction false} OverwrittenByReplacing(w: World, steps: seq<Step>, g: nat)
    requires Inv(w) && CanRun(w, steps)
    ensures g in Run(w, steps).overwritten <==>
      g in w.overwritten || exists n | 0 <= n < |steps| :: Replaces(After(w, steps, n), steps[n], g)
    decreases |steps|
  {
    if |steps| > 0 {
      var w1, rest := Apply(w, steps[0]), steps[1..];
      StepKeepsInv(w, steps[0]);
      OverwrittenByReplacing(w1, rest, g);
      assert Replaces(After(w, steps, 0), steps[0], g) <==> Replaces(w, steps[0], g);
      assert g in w1.overwritten <==> g in w.overwritten || Replaces(w, steps[0], g);
      if n :| 0 <= n < |rest| && Replaces(After(w1, rest, n), rest[n], g) {
        assert Replaces(After(w, steps, n + 1), steps[n + 1], g);
      }
      if n :| 0 < n < |steps| && Replaces(After(w, steps, n), steps[n], g) {
        assert Replaces(After(w1, rest, n - 1), rest[n - 1], g);
      }
    }
  }

  /**
    For any run that ends with no channel held: a channel opened on the way was never closed if and only
    if at some step an open found the client unconnected and holding just that channel.
   */
  lemma {:induction false} LeakedExactlyByReplacing(steps: seq<Step>, g: nat)
    requires CanRun(INIT, steps) && Run(INIT, steps).shared.channel.None?
    requires 0 < g <= Run(INIT, steps).shared.gens
    ensures Run(INIT, steps).shared.closes[g] == 0 <==>
      exists n | 0 <= n < |steps| :: Replaces(After(INIT, steps, n), steps[n], g)
  {
    ChannelsClosedOnce(steps, g);
    OverwrittenByReplacing(INIT, steps, g);
  }

  /******* How a connection ends *******/

  /** A connection ends exactly by a disconnect, by the unguarded teardown of a late connect, or with its own stream. */
  lemma {:induction false} ConnectionEndsExactly(steps: seq<Step>, step: Step)
    requires CanRun(INIT, steps) && Run(INIT, steps).shared.connected && Enabled(Run(INIT, steps), step)
    ensures !Apply(Run(INIT, steps), step).shared.connected <==>
      step.Disconnect? || step.Reset? || (step.Finish? && Run(INIT, steps).shared.stream == Some(step.g))
  {
    RunKeepsInv(INIT, steps);
  }

  /** Connect 2 reads a half-open connection; connect 1 then commits; connect 2 acts on what it read. */
  const LATE_RESET := [
    CallConnect(1), ReadChannel(1), Open(1, false), CallConnect(2), ReadChannel(2), ReadConnected(2),
    Receive(1, Some(Arbitration(0))), Wake(1), Commit(1), Reset(2)]

  /** The teardown before the first section is not guarded by a stream: it can end a connection made since. */
  lemma {:induction false} LateResetDisconnects()
    ensures CanRun(INIT, LATE_RESET) && |LATE_RESET| == 10
    ensures var w := After(INIT, LATE_RESET, 9);
      w.shared.connected && At(w, 1, Returned(Connected)) && w.shared.stream == Some(1)
    ensures var w := Run(INIT, LATE_RESET);
      !w.shared.connected && w.shared.channel.None? && At(w, 1, Returned(Connected))
  {
    var w9, w10 := ResetsLate();
    assert LATE_RESET[..10] == LATE_RESET;
    AfterIsRun(INIT, LATE_RESET, 9);
  }

  lemma {:induction false} ResetsLate() returns (w9: World, w10: World)
    ensures CanRun(INIT, LATE_RESET[..9]) && Run(INIT, LATE_RESET[..9]) == w9
    ensures w9.shared.connected && w9.shared.stream == Some(1) && At(w9, 1, Returned(Connected))
    ensures CanRun(INIT, LATE_RESET[..10]) && Run(INIT, LATE_RESET[..10]) == w10
    ensures !w10.shared.connected && w10.shared.channel.None? && At(w10, 1, Returned(Connected))
  {
    w9 := CommitsMeanwhile();
    w10 := Extend(LATE_RESET, 9, w9);
  }

  lemma {:induction false} CommitsMeanwhile() returns (w9: World)
    ensures CanRun(INIT, LATE_RESET[..9]) && Run(INIT, LATE_RESET[..9]) == w9
    ensures w9.shared.connected && w9.shared.stream == w9.shared.channel == Some(1)
    ensures At(w9, 1, Returned(Connected)) && At(w9, 2, Resetting)
  {
    var w6 := ReadsHalfOpen();
    var w7 := Extend(LATE_RESET, 6, w6);
    var w8 := Extend(LATE_RESET, 7, w7);
    w9 := Extend(LATE_RESET, 8, w8);
  }

  const HALF_OPEN := FRESH.(channel := Some(1), outgoing := Some(1), stream := Some(1), event := 1, gens := 1)

  lemma {:induction false} ReadsHalfOpen() returns (w6: World)
    ensures CanRun(INIT, LATE_RESET[..6]) && Run(INIT, LATE_RESET[..6]) == w6
    ensures w6.shared == HALF_OPEN
    ensures At(w6, 1, Waiting(1)) && At(w6, 2, Resetting) && Consuming(w6, 1, Reading)
  {
    var w3 := OpensAlone();
    var w4 := Extend(LATE_RESET, 3, w3);
    var w5 := Extend(LATE_RESET, 4, w4);
    w6 := Extend(LATE_RESET, 5, w5);
  }

  lemma {:induction false} OpensAlone() returns (w3: World)
    ensures CanRun(INIT, LATE_RESET[..3]) && Run(INIT, LATE_RESET[..3]) == w3
    ensures w3.shared == HALF_OPEN
    ensures At(w3, 1, Waiting(1)) && 2 !in w3.connectors && Consuming(w3, 1, Reading)
  {
    var w1 := Extend(LATE_RESET, 0, INIT);
    var w2 := Extend(LATE_RESET, 1, w1);
    w3 := Extend(LATE_RESET, 2, w2);
  }

  lemma {:induction false} AfterIsRun(w: World, steps: seq<Step>, n: nat)
    requires CanRun(w, steps) && n <= |steps|
    ensures CanRun(w, steps[..n]) && Run(w, steps[..n]) == After(w, steps, n)
    decreases n
  {
    if n > 0 {
      AfterIsRun(Apply(w, steps[0]), steps[1..], n - 1);
      assert steps[..n][1..] == steps[1..][..n - 1];
    }
  }
}
