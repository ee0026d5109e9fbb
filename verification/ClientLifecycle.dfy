/**
  P4RuntimeClient's lifecycle methods, on their own fields.

  The ghost field `world` is the state of the machine in StreamLifecycle: every
  lock-held section below is proved to be exactly one step of it.  `Interfere`
  stands for whatever other threads do while the lock is free.
 */
module ClientLifecycle {
  import opened Wrappers
  import opened StreamLifecycle

  /** The connect call a step belongs to. */
  function Caller(step: Step): Option<nat> {
    match step
    case CallConnect(t) => Some(t)
    case ReadChannel(t) => Some(t)
    case ReadConnected(t) => Some(t)
    case Reset(t) => Some(t)
    case Open(t, _) => Some(t)
    case Wake(t) => Some(t)
    case Expire(t) => Some(t)
    case GiveUp(t) => Some(t)
    case Commit(t) => Some(t)
    case Fail(t) => Some(t)
    case _ => None
  }

  /** The stream whose consumer takes a step. */
  function Reader(step: Step): Option<nat> {
    match step
    case Receive(g, _) => Some(g)
    case Break(g, _) => Some(g)
    case End(g) => Some(g)
    case Finish(g) => Some(g)
    case _ => None
  }

  /** w' follows from w by steps of threads other than connect call `t` and consumer `g`. */
  ghost predicate Others(w: World, w': World, t: Option<nat>, g: Option<nat>) {
    exists steps: seq<Step> ::
      && CanRun(w, steps) && Run(w, steps) == w'
      && forall step <- steps :: (t.Some? ==> Caller(step) != t) && (g.Some? ==> Reader(step) != g)
  }

  lemma {:induction false} OthersLeaveMine(w: World, steps: seq<Step>, t: Option<nat>, g: Option<nat>)
    requires CanRun(w, steps) && (g.Some? ==> g.value in w.consumers && Inv(w))
    requires forall step <- steps :: (t.Some? ==> Caller(step) != t) && (g.Some? ==> Reader(step) != g)
    ensures t.Some? && t.value in w.connectors ==>
      t.value in Run(w, steps).connectors && Run(w, steps).connectors[t.value] == w.connectors[t.value]
    ensures g.Some? ==> g.value in Run(w, steps).consumers && Run(w, steps).consumers[g.value] == w.consumers[g.value]
    decreases |steps|
  {
    if |steps| > 0 {
      assert steps[0] in steps;
      if g.Some? {
        StepKeepsInv(w, steps[0]);
      }
      OthersLeaveMine(Apply(w, steps[0]), steps[1..], t, g);
    }
  }

  /** Outside the client: generation numbers handed out, events set, streams cancelled, channels closed. */
  datatype Outside = Outside(generations: nat, signalled: set<nat>, cancelled: set<nat>, closes: multiset<nat>)

  class P4RuntimeClient {
    var channel: Option<nat>
    var outgoing: Option<nat>
    var streamCall: Option<nat>
    var streamEvent: nat
    var arbitration: Option<Arbitration>
    var streamError: Option<Fault>
    var connected: bool
    var closed: bool

    var outside: Outside
    ghost var world: World

    function View(): Shared
      reads this
    {
      Shared(channel, outgoing, streamCall, streamEvent, arbitration, streamError, connected, closed,
             outside.generations, outside.signalled, outside.cancelled, outside.closes)
    }

    ghost predicate Valid()
      reads this
    {
      world.shared == View() && Reached(world)
    }

    constructor ()
      ensures Valid() && world == INIT
    {
      channel, outgoing, streamCall, streamEvent := None, None, None, 0;
      arbitration, streamError, connected, closed := None, None, false, false;
      outside := Outside(0, {}, {}, multiset{});
      world := INIT;
      new;
      assert CanRun(INIT, []) && Run(INIT, []) == INIT;
    }

    /** What other threads may do between two sections of connect call `t` or consumer `g`. */
    method Interfere(ghost t: Option<nat>, ghost g: Option<nat>)
      requires Valid()
      modifies this
      ensures Valid() && Others(old(world), world, t, g)
    {
      assert CanRun(world, []) && Run(world, []) == world;
    }

    /** `_teardown`: releases channel, queue and stream, unless another stream is expected. */
    method Teardown(expected: Option<nat>)
      modifies this
      ensures View() == StreamLifecycle.Teardown(old(View()), expected)
      ensures world == old(world)
    {
      if !(expected.Some? && expected != streamCall) {
        Release();
      }
    }

    method Release()
      modifies this
      ensures View() == TeardownAll(old(View()))
      ensures world == old(world)
    {
      var wasConnected := connected;
      closed, connected := true, false;
      if channel.Some? && !wasConnected {
        if streamError.None? {
          streamError := Some(ClosedEarly);
        }
        outside := outside.(signalled := outside.signalled + {streamEvent});
      }
      CloseAll();
    }

    /** Cancels the stream, closes the channel and lets go of all three. */
    method CloseAll()
      modifies this`outside, this`channel, this`outgoing, this`streamCall
      ensures channel.None? && outgoing.None? && streamCall.None?
      ensures outside == old(outside).(
        cancelled := if old(streamCall).Some? then old(outside).cancelled + {old(streamCall).value}
                     else old(outside).cancelled,
        closes := if old(channel).Some? then old(outside).closes + multiset{old(channel).value}
                  else old(outside).closes)
    {
      if streamCall.Some? {
        outside := outside.(cancelled := outside.cancelled + {streamCall.value});
      }
      if channel.Some? {
        outside := outside.(closes := outside.closes + multiset{channel.value});
      }
      channel, outgoing, streamCall := None, None, None;
    }

    method Disconnect()
      requires Valid()
      modifies this
      ensures Valid() && world == Apply(old(world), Step.Disconnect)
    {
      Teardown(None);
      ReachedNext(world, Step.Disconnect);
      world := Apply(world, Step.Disconnect);
    }

    /** The first lock-held section of `connect`; an RPC error of StreamChannel tears everything down. */
    method Open(ghost t: nat) returns (stream: Option<nat>, already: bool)
      requires Valid() && At(world, t, Opening)
      modifies this
      ensures Valid() && exists refused :: world == Apply(old(world), Step.Open(t, refused))
      ensures stream.Some? <==> world.connectors[t].Waiting?
      ensures stream.Some? ==> At(world, t, Waiting(stream.value))
      ensures stream.Some? ==> stream.value == outside.generations == old(outside.generations) + 1
      ensures stream.None? ==> At(world, t, Returned(if already then AlreadyConnected else StreamRefused))
    {
      var refused: bool := *;
      ghost var w := world;
      already := connected;
      stream := None;
      if !connected {
        closed := false;
        var g := outside.generations + 1;
        outside := outside.(generations := g);
        channel := Some(g);
        outgoing := Some(g);
        streamEvent := g;
        arbitration := None;
        streamError := None;
        if refused {
          Teardown(None);
        } else {
          streamCall := Some(g);
          stream := streamCall;
        }
      }
      ReachedNext(w, Step.Open(t, refused));
      world := Apply(w, Step.Open(t, refused));
    }

    /** The second lock-held section: commits, or reports why not. */
    method Commit(ghost t: nat, stream: nat) returns (ok: bool, why: Outcome)
      requires Valid() && At(world, t, Committing(stream))
      modifies this
      ensures Valid() && world == Apply(old(world), Step.Commit(t))
      ensures ok <==> At(world, t, Returned(Connected))
      ensures ok ==>
        && connected && !closed && streamCall == Some(stream) && streamError.None?
        && Latest(world, stream).Some? && Latest(world, stream).value.status == 0
      ensures !ok ==> At(world, t, Failing(stream, why)) && why != Connected && why != AlreadyConnected
    {
      var err := streamError;
      var answer := arbitration;
      var active := streamCall == Some(stream) && !closed;
      ghost var w := world;
      ok := active && err.None? && answer.Some? && answer.value.status == 0;
      if ok {
        connected := true;
        ReachedInv(w);
      }
      why := match err
        case Some(RpcFault) => RpcFailure
        case Some(OtherFault) => StreamFailure
        case Some(_) => ConnectionFailure
        case None => if !active then ClosedMeanwhile else if answer.None? then NoAnswer else NotPrimary;
      ReachedNext(w, Step.Commit(t));
      world := Apply(w, Step.Commit(t));
    }

    /**
      `connect`, called by thread t, with any interference between its sections.  It returns normally
      only if the client is connected right then, by its own fresh and accepted generation or already
      before; when it raises after opening a stream, that stream is no longer the current one.
     */
    method Connect(ghost t: nat) returns (outcome: Outcome, opening: Option<nat>)
      requires Valid() && t !in world.connectors
      modifies this
      ensures Valid() && At(world, t, Returned(outcome))
      ensures outcome == Connected ==>
        && opening.Some? && connected && !closed && streamCall == opening && streamError.None?
        && Latest(world, opening.value).Some? && Latest(world, opening.value).value.status == 0
      ensures outcome == AlreadyConnected ==> connected && !closed && streamCall.Some?
      ensures outcome != Connected && opening.Some? ==> streamCall != opening
    {
      opening := None;
      Precheck(t);
      var already;
      opening, already := Open(t);
      if opening.None? {
        ReachedInv(world);
        outcome := if already then AlreadyConnected else StreamRefused;
      } else {
        InterfereMine(t);
        outcome := Arbitrate(t, opening.value);
      }
    }

    /** The unlocked reads before the first section, and the teardown of a half-open connection they may call for. */
    method Precheck(ghost t: nat)
      requires Valid() && t !in world.connectors
      modifies this
      ensures Valid() && At(world, t, Opening)
    {
      Begin(t);
      InterfereMine(t);
      var sawChannel := channel.Some?;
      Take(t, ReadChannel(t));
      InterfereMine(t);
      if sawChannel {
        var sawConnected := connected;
        Take(t, ReadConnected(t));
        InterfereMine(t);
        if !sawConnected {
          ResetStale(t);
          InterfereMine(t);
        }
      }
    }

    /** The wait for the arbitration answer and what follows it. */
    method Arbitrate(ghost t: nat, stream: nat) returns (outcome: Outcome)
      requires Valid() && At(world, t, Waiting(stream))
      modifies this
      ensures Valid() && At(world, t, Returned(outcome)) && outcome != AlreadyConnected
      ensures outcome == Connected ==>
        && connected && !closed && streamCall == Some(stream) && streamError.None?
        && Latest(world, stream).Some? && Latest(world, stream).value.status == 0
      ensures outcome != Connected ==> streamCall != Some(stream)
    {
      var woken := stream in outside.signalled;
      Take(t, if woken then Wake(t) else Expire(t));
      InterfereMine(t);
      if !woken {
        Abandon(t, stream, GiveUp(t));
        return TimedOutError;
      }
      var ok, why := Commit(t, stream);
      if ok {
        return Connected;
      }
      InterfereMine(t);
      Abandon(t, stream, Fail(t));
      return why;
    }

    /** `_stream_consumer` of one stream: the answers that arrive on it, and how it then ends. */
    method ConsumeStream(stream: nat, answers: seq<Option<Arbitration>>, fault: Option<Fault>)
      requires Valid() && Consuming(world, stream, Reading)
      requires fault.Some? ==> fault.value.RpcFault? || fault.value.OtherFault?
      modifies this
      ensures Valid() && Consuming(world, stream, Gone) && streamCall != Some(stream)
    {
      var i := 0;
      var reading := true;
      while i < |answers| && reading
        invariant Valid() && Consuming(world, stream, if reading then Reading else Finishing)
        decreases |answers| - i
      {
        InterfereReader(stream);
        reading := ReceiveOne(stream, answers[i]);
        i := i + 1;
      }
      InterfereReader(stream);
      if reading {
        EndOfStream(stream, fault);
        InterfereReader(stream);
      }
      FinishStream(stream);
    }

    /******* Smaller pieces *******/

    ghost method Begin(t: nat)
      requires Valid() && t !in world.connectors
      modifies this`world
      ensures Valid() && At(world, t, Phase.Begin)
    {
      ReachedNext(world, CallConnect(t));
      world := Apply(world, CallConnect(t));
    }

    /** A step of connect call `t` that leaves the fields alone: an unlocked read or the end of its wait. */
    ghost method Take(t: nat, step: Step)
      requires Valid() && Enabled(world, step)
      requires step == ReadChannel(t) || step == ReadConnected(t) || step == Wake(t) || step == Expire(t)
      modifies this`world
      ensures Valid() && world == Apply(old(world), step)
    {
      ReachedNext(world, step);
      world := Apply(world, step);
    }

    method ResetStale(ghost t: nat)
      requires Valid() && At(world, t, Resetting)
      modifies this
      ensures Valid() && world == Apply(old(world), Reset(t))
    {
      Teardown(None);
      ReachedNext(world, Reset(t));
      world := Apply(world, Reset(t));
    }

    /** The teardown with which a failing connect lets go of its own stream, and of no other. */
    method Abandon(ghost t: nat, stream: nat, ghost step: Step)
      requires Valid() && Enabled(world, step)
      requires step == GiveUp(t) || step == Fail(t)
      requires Owner(world.connectors[t]) == Some(stream)
      modifies this
      ensures Valid() && world == Apply(old(world), step) && streamCall != Some(stream)
    {
      Teardown(Some(stream));
      ReachedNext(world, step);
      world := Apply(world, step);
    }

    method InterfereMine(ghost t: nat)
      requires Valid() && t in world.connectors
      modifies this
      ensures Valid() && t in world.connectors && world.connectors[t] == old(world).connectors[t]
    {
      ghost var w := world;
      Interfere(Some(t), None);
      ghost var steps :| CanRun(w, steps) && Run(w, steps) == world && forall step <- steps :: Caller(step) != Some(t);
      OthersLeaveMine(w, steps, Some(t), None);
      ReachedMore(w, steps);
    }

    method InterfereReader(ghost g: nat)
      requires Valid() && g in world.consumers
      modifies this
      ensures Valid() && g in world.consumers && world.consumers[g] == old(world).consumers[g]
    {
      ghost var w := world;
      Interfere(None, Some(g));
      ghost var steps :| CanRun(w, steps) && Run(w, steps) == world && forall step <- steps :: Reader(step) != Some(g);
      ReachedInv(w);
      OthersLeaveMine(w, steps, None, Some(g));
      ReachedMore(w, steps);
    }

    method ReceiveOne(stream: nat, answer: Option<Arbitration>) returns (reading: bool)
      requires Valid() && Consuming(world, stream, Reading)
      modifies this
      ensures Valid() && world == Apply(old(world), Receive(stream, answer))
      ensures Consuming(world, stream, if reading then Reading else Finishing)
    {
      ghost var w := world;
      reading := !closed && streamCall == Some(stream);
      if reading && answer.Some? {
        arbitration := answer;
        outside := outside.(signalled := outside.signalled + {streamEvent});
      }
      ReachedNext(w, Receive(stream, answer));
      world := Apply(w, Receive(stream, answer));
    }

    method EndOfStream(stream: nat, fault: Option<Fault>)
      requires Valid() && Consuming(world, stream, Reading)
      requires fault.Some? ==> fault.value.RpcFault? || fault.value.OtherFault?
      modifies this
      ensures Valid() && world == Apply(old(world), if fault.Some? then Break(stream, fault.value) else End(stream))
    {
      ghost var w := world;
      if fault.Some? && !closed && streamCall == Some(stream) {
        streamError := fault;
      }
      ghost var step := if fault.Some? then Break(stream, fault.value) else End(stream);
      ReachedNext(w, step);
      world := Apply(w, step);
    }

    method FinishStream(stream: nat)
      requires Valid() && Consuming(world, stream, Finishing)
      modifies this
      ensures Valid() && world == Apply(old(world), Finish(stream)) && streamCall != Some(stream)
    {
      ghost var w := world;
      if !closed && streamCall == Some(stream) {
        if streamError.None? {
          streamError := Some(StreamEnded);
        }
        outside := outside.(signalled := outside.signalled + {streamEvent});
        Teardown(Some(stream));
      }
      ReachedInv(w);
      ReachedNext(w, Finish(stream));
      world := Apply(w, Finish(stream));
    }
  }
}
