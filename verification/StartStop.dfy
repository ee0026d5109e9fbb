/**
  The start/stop protocol of Network as a state machine.

  Any number of threads call `start`, `astart` and `stop`.  Every section run
  under `_stop_lock`, every unlocked access to a shared field, and the entry and
  exit of `_do_start` and `_do_stop` are steps of their own.  A thread may have a
  start frame and, on top of it, a stop frame: `stop` called from inside
  `_do_start` or from inside the rollback.
 */
module StartStop {
  import opened Wrappers

  /** Where a start attempt is; `future` is its start future. */
  datatype Starting =
    | Handoff(future: nat)     // astart: prepared, not yet in a worker thread
    | Entering(future: nat)
    | Checking(future: nat)
    | Building(future: nat)    // inside _do_start
    | Deciding(future: nat)
    | Raising(future: nat)
    | RollingBack(future: nat) // inside _do_stop
    | Ending(future: nat, committed: bool)

  /** Where a call of stop is; the first six own the stop future, `caller` says that the calling thread runs them. */
  datatype Stopping =
    | Claiming(future: nat, caller: bool)
    | Looking(future: nat, caller: bool)
    | Awaiting(future: nat, caller: bool, startup: nat)
    | Ready(future: nat, caller: bool)
    | Tearing(future: nat, caller: bool) // inside _do_stop
    | Resolving(future: nat, caller: bool)
    | Clearing(future: nat, caller: bool)
    | CheckStop(future: nat)
    | CheckStart(future: nat)
    | Blocked(future: nat)

  datatype Net = Net(
    running: bool,
    startFuture: Option<nat>,
    startThread: Option<nat>,
    stopFuture: Option<nat>,
    stopThread: Option<nat>,
    asyncLeft: bool,   // some async disconnect is still pending
    held: nat,         // resources in the registries
    futures: nat,      // futures made so far
    done: set<nat>,    // futures resolved
    starts: map<nat, Starting>,
    stops: map<nat, Stopping>,
    loops: set<nat>)   // threads that run an event loop

  function Init(loops: set<nat>): Net {
    Net(false, None, None, None, None, false, 0, 0, {}, map[], map[], loops)
  }

  datatype Step =
    | PrepareStart(t: nat, background: bool)
    | Submit(t: nat, worker: nat) | SubmitFails(t: nat)
    | Enter(t: nat) | Check(t: nat) | Acquire(t: nat) | Built(t: nat) | BuildFails(t: nat)
    | Commit(t: nat) | Rollback(t: nat) | RolledBack(t: nat, left: bool) | EndStart(t: nat)
    | CallStop(t: nat) | CallStopInLoop(t: nat, worker: nat)
    | Claim(t: nat) | Look(t: nat) | Joined(t: nat) | TearDown(t: nat) | TornDown(t: nat, left: bool)
    | Resolve(t: nat) | Clear(t: nat)
    | ReadStopThread(t: nat) | ReadStartThread(t: nat) | Unblock(t: nat)

  predicate Idle(w: Net, t: nat) {
    t !in w.starts && t !in w.stops
  }

  /** Thread t runs its start frame, with no stop frame on top of it. */
  predicate InStart(w: Net, t: nat) {
    t in w.starts && t !in w.stops
  }

  predicate MayPrepare(w: Net) {
    !w.running && w.startFuture.None? && (w.stopFuture.Some? ==> w.stopFuture.value in w.done)
  }

  /** Whether a stop request makes a new stop future. */
  predicate Initiates(w: Net) {
    w.stopFuture.None? || (w.stopFuture.value in w.done && w.asyncLeft)
  }

  predicate Enabled(w: Net, step: Step) {
    match step
    case PrepareStart(t, background) => Idle(w, t) && MayPrepare(w) && (background ==> t in w.loops)
    case Submit(t, worker) => InStart(w, t) && w.starts[t].Handoff? && Idle(w, worker) && worker !in w.loops
    case SubmitFails(t) => InStart(w, t) && w.starts[t].Handoff?
    case Enter(t) => InStart(w, t) && w.starts[t].Entering?
    case Check(t) => InStart(w, t) && w.starts[t].Checking?
    case Acquire(t) => InStart(w, t) && w.starts[t].Building?
    case Built(t) => InStart(w, t) && w.starts[t].Building?
    case BuildFails(t) => InStart(w, t) && w.starts[t].Building?
    case Commit(t) => InStart(w, t) && w.starts[t].Deciding?
    case Rollback(t) => InStart(w, t) && w.starts[t].Raising?
    case RolledBack(t, _) => InStart(w, t) && w.starts[t].RollingBack?
    case EndStart(t) => InStart(w, t) && w.starts[t].Ending?
    case CallStop(t) =>
      t !in w.loops && t !in w.stops && (t in w.starts ==> w.starts[t].Building? || w.starts[t].RollingBack?)
    case CallStopInLoop(t, worker) => t in w.loops && Idle(w, worker) && worker !in w.loops
    case Claim(t) => t in w.stops && w.stops[t].Claiming?
    case Look(t) => t in w.stops && w.stops[t].Looking?
    case Joined(t) => t in w.stops && w.stops[t].Awaiting? && w.stops[t].startup in w.done
    case TearDown(t) => t in w.stops && w.stops[t].Ready?
    case TornDown(t, _) => t in w.stops && w.stops[t].Tearing?
    case Resolve(t) => t in w.stops && w.stops[t].Resolving?
    case Clear(t) => t in w.stops && w.stops[t].Clearing?
    case ReadStopThread(t) => t in w.stops && w.stops[t].CheckStop?
    case ReadStartThread(t) => t in w.stops && w.stops[t].CheckStart?
    case Unblock(t) => t in w.stops && w.stops[t].Blocked? && w.stops[t].future in w.done
  }

  function SetStart(w: Net, t: nat, pc: Starting): Net {
    w.(starts := w.starts[t := pc])
  }

  function SetStop(w: Net, t: nat, pc: Stopping): Net {
    w.(stops := w.stops[t := pc])
  }

  function DropStop(w: Net, t: nat): Net {
    w.(stops := w.stops - {t})
  }

  function Prepare(w: Net, t: nat, background: bool): Net {
    var f := w.futures + 1;
    w.(stopFuture := None, startThread := if background then None else Some(t), startFuture := Some(f), futures := f,
       starts := w.starts[t := if background then Handoff(f) else Entering(f)])
  }

  /** A stop request; a new stop future is finished by thread `finisher`. */
  function Request(w: Net, finisher: nat, caller: bool): Net {
    if Initiates(w) then
      SetStop(w.(stopFuture := Some(w.futures + 1), futures := w.futures + 1),
              finisher, Claiming(w.futures + 1, caller))
    else if caller then SetStop(w, finisher, CheckStop(w.stopFuture.value))
    else w
  }

  function Emptied(w: Net, left: bool): Net {
    w.(held := 0, running := false, asyncLeft := left)
  }

  function ApplyStart(w: Net, step: Step): Net
    requires Enabled(w, step)
  {
    match step
    case PrepareStart(t, background) => Prepare(w, t, background)
    case Submit(t, worker) => w.(starts := (w.starts - {t})[worker := Entering(w.starts[t].future)])
    case SubmitFails(t) => SetStart(w, t, Raising(w.starts[t].future))
    case Enter(t) => SetStart(w.(startThread := Some(t)), t, Checking(w.starts[t].future))
    case Check(t) =>
      SetStart(w, t, if w.stopFuture.Some? then Raising(w.starts[t].future) else Building(w.starts[t].future))
    case Acquire(t) => w.(held := w.held + 1)
    case Built(t) => SetStart(w, t, Deciding(w.starts[t].future))
    case BuildFails(t) => SetStart(w, t, Raising(w.starts[t].future))
    case Commit(t) =>
      if w.stopFuture.Some? then SetStart(w, t, Raising(w.starts[t].future))
      else SetStart(w.(running := true), t, Ending(w.starts[t].future, true))
    case Rollback(t) => SetStart(w, t, RollingBack(w.starts[t].future))
    case RolledBack(t, left) => SetStart(Emptied(w, left), t, Ending(w.starts[t].future, false))
    case EndStart(t) =>
      w.(done := w.done + {w.starts[t].future}, startFuture := None, startThread := None, starts := w.starts - {t})
    case _ => w
  }

  function ApplyStop(w: Net, step: Step): Net
    requires Enabled(w, step)
  {
    match step
    case CallStop(t) => Request(w, t, true)
    case CallStopInLoop(t, worker) => Request(w, worker, false)
    case Claim(t) => SetStop(w.(stopThread := Some(t)), t, Looking(w.stops[t].future, w.stops[t].caller))
    case Look(t) =>
      SetStop(w, t,
              if w.startFuture.Some? && w.startThread != Some(t)
              then Awaiting(w.stops[t].future, w.stops[t].caller, w.startFuture.value)
              else Ready(w.stops[t].future, w.stops[t].caller))
    case Joined(t) => SetStop(w, t, Ready(w.stops[t].future, w.stops[t].caller))
    case TearDown(t) => SetStop(w, t, Tearing(w.stops[t].future, w.stops[t].caller))
    case TornDown(t, left) => SetStop(Emptied(w, left), t, Resolving(w.stops[t].future, w.stops[t].caller))
    case Resolve(t) =>
      SetStop(w.(done := w.done + {w.stops[t].future}), t, Clearing(w.stops[t].future, w.stops[t].caller))
    case Clear(t) =>
      if w.stops[t].caller then SetStop(w.(stopThread := None), t, CheckStop(w.stops[t].future))
      else DropStop(w.(stopThread := None), t)
    case ReadStopThread(t) =>
      if w.stopThread == Some(t) then DropStop(w, t) else SetStop(w, t, CheckStart(w.stops[t].future))
    case ReadStartThread(t) =>
      if w.startThread == Some(t) then DropStop(w, t) else SetStop(w, t, Blocked(w.stops[t].future))
    case Unblock(t) => DropStop(w, t)
    case _ => w
  }

  predicate StartSide(step: Step) {
    step.PrepareStart? || step.Submit? || step.SubmitFails? || step.Enter? || step.Check? || step.Acquire? ||
    step.Built? || step.BuildFails? || step.Commit? || step.Rollback? || step.RolledBack? || step.EndStart?
  }

  function Apply(w: Net, step: Step): Net
    requires Enabled(w, step)
  {
    if StartSide(step) then ApplyStart(w, step) else ApplyStop(w, step)
  }

  predicate CanRun(w: Net, steps: seq<Step>)
    decreases |steps|
  {
    |steps| == 0 || (Enabled(w, steps[0]) && CanRun(Apply(w, steps[0]), steps[1..]))
  }

  function Run(w: Net, steps: seq<Step>): Net
    requires CanRun(w, steps)
    decreases |steps|
  {
    if |steps| == 0 then w else Run(Apply(w, steps[0]), steps[1..])
  }

  /******* Invariant *******/

  predicate Finishing(pc: Stopping) {
    pc.Claiming? || pc.Looking? || pc.Awaiting? || pc.Ready? || pc.Tearing? || pc.Resolving?
  }

  /** Thread t owns the unresolved stop future. */
  predicate Finishes(stops: map<nat, Stopping>, t: nat) {
    t in stops && Finishing(stops[t])
  }

  /** At most one start attempt, and it owns the start future. */
  ghost predicate OneStart(w: Net) {
    && (w.startFuture.Some? ==> w.startFuture.value !in w.done && w.startFuture.value <= w.futures)
    && (w.startFuture.Some? ==> exists t :: t in w.starts)
    && (forall t <- w.starts :: w.startFuture == Some(w.starts[t].future))
    && (forall t, u | t in w.starts && u in w.starts :: t == u)
    && (w.startThread.Some? ==> w.startThread.value in w.starts)
  }

  ghost predicate StartStage(w: Net, t: nat, pc: Starting) {
    match pc
    case Handoff(_) => t in w.loops && w.startThread.None? && !w.running
    case Entering(_) => !w.running
    case Raising(_) => (w.startThread == Some(t) || t in w.loops) && !w.running
    case RollingBack(_) => (w.startThread == Some(t) || t in w.loops) && !w.running
    case Ending(_, committed) => !committed ==> w.held == 0 && !w.running
    case _ => w.startThread == Some(t) && !w.running
  }

  ghost predicate StartStages(w: Net) {
    forall t <- w.starts :: StartStage(w, t, w.starts[t])
  }

  /** At most one unresolved stop future, with exactly one thread finishing it. */
  ghost predicate OneStop(w: Net) {
    && (forall f <- w.done :: f <= w.futures)
    && (w.stopFuture.Some? ==> w.stopFuture.value <= w.futures && w.stopFuture != w.startFuture)
    && (w.stopFuture.Some? && w.stopFuture.value !in w.done ==> exists t :: Finishes(w.stops, t))
    && (forall t, u | Finishes(w.stops, t) && Finishes(w.stops, u) :: t == u)
    && (forall t | Finishes(w.stops, t) :: w.stopFuture == Some(w.stops[t].future) && w.stops[t].future !in w.done)
    && (forall t <- w.stops :: !Finishing(w.stops[t]) ==>
          w.stops[t].future in w.done || (w.stopFuture == Some(w.stops[t].future) && !w.stops[t].Clearing?))
    && (forall t <- w.stops :: t !in w.loops)
  }

  /** A finisher about to tear down, or tearing down, has no start attempt beside it but its own thread's. */
  ghost predicate StopStage(w: Net, t: nat, pc: Stopping) {
    match pc
    case Awaiting(_, _, startup) => w.startFuture == Some(startup) || (w.startFuture.None? && startup in w.done)
    case Ready(_, _) => w.startFuture.None? || t in w.starts
    case Tearing(_, _) => w.startFuture.None? || t in w.starts
    case _ => true
  }

  ghost predicate StopStages(w: Net) {
    forall t <- w.stops :: StopStage(w, t, w.stops[t])
  }

  /** A stop frame on top of a start frame never blocks. */
  ghost predicate Nested(w: Net) {
    forall t | t in w.starts && t in w.stops :: Carried(w, t)
  }

  predicate Carried(w: Net, t: nat)
    requires t in w.starts && t in w.stops
  {
    && (w.starts[t].Building? || w.starts[t].RollingBack?)
    && w.startThread == Some(t)
    && !w.stops[t].Awaiting? && !w.stops[t].Blocked?
  }

  ghost predicate Inv(w: Net) {
    OneStart(w) && StartStages(w) && OneStop(w) && StopStages(w) && Nested(w)
  }

  lemma {:induction false} InitInv(loops: set<nat>)
    ensures Inv(Init(loops))
  {}

  lemma {:induction false} StartKeeps(w: Net, step: Step)
    requires Inv(w) && Enabled(w, step) && StartSide(step)
    ensures OneStart(ApplyStart(w, step)) && StartStages(ApplyStart(w, step))
  {
    var w' := ApplyStart(w, step);
    if step.Submit? {
      assert step.worker in w'.starts;
    } else if !step.EndStart? {
      assert step.t in w'.starts;
    }
  }

  /** A start step leaves the stop frames alone, and the stop future too unless it prepares an attempt. */
  lemma {:induction false} StartFrame(w: Net, step: Step)
    requires Inv(w) && Enabled(w, step) && StartSide(step)
    ensures var w' := ApplyStart(w, step);
      && w'.stops == w.stops && w'.loops == w.loops && w.futures <= w'.futures && w.done <= w'.done
      && (w'.stopFuture == w.stopFuture || (w'.stopFuture.None? && MayPrepare(w)))
      && (w'.startFuture == w.startFuture
          || (w.startFuture.Some? && w'.startFuture.None? && w'.done == w.done + {w.startFuture.value})
          || (w.startFuture.None? && w'.startFuture == Some(w.futures + 1) && w'.futures == w.futures + 1 &&
              MayPrepare(w) && w'.stopFuture.None? && w'.done == w.done))
      && (w'.startFuture == w.startFuture ==> w'.done == w.done)
  {}

  lemma {:induction false} StartKeepsStops(w: Net, step: Step)
    requires Inv(w) && Enabled(w, step) && StartSide(step)
    ensures OneStop(ApplyStart(w, step))
  {
    StartFrame(w, step);
  }

  lemma {:induction false} StartKeepsStages(w: Net, step: Step)
    requires Inv(w) && Enabled(w, step) && StartSide(step)
    ensures StopStages(ApplyStart(w, step)) && Nested(ApplyStart(w, step))
  {
    StartFrame(w, step);
  }

  /** The thread whose stop frame a stop step moves. */
  function Mover(step: Step): nat {
    if step.CallStopInLoop? then step.worker else step.t
  }

  /** A stop step leaves the start frames alone, and every stop frame but its own. */
  lemma {:induction false} StopFrame(w: Net, step: Step)
    requires Enabled(w, step) && !StartSide(step)
    ensures var w' := ApplyStop(w, step);
      && w'.starts == w.starts && w'.startFuture == w.startFuture && w'.startThread == w.startThread
      && w'.loops == w.loops && w.futures <= w'.futures
      && (w'.running ==> w.running) && (w'.held == w.held || w'.held == 0)
      && w'.done == (if step.Resolve? then w.done + {w.stops[step.t].future} else w.done)
  {}

  lemma {:induction false} StopMoves(w: Net, step: Step)
    requires Enabled(w, step) && !StartSide(step)
    ensures var w' := ApplyStop(w, step);
      forall u | u != Mover(step) ::
        (u in w'.stops <==> u in w.stops) && (u in w.stops ==> w'.stops[u] == w.stops[u])
  {}

  lemma {:induction false} StopKeepsStarts(w: Net, step: Step)
    requires Inv(w) && Enabled(w, step) && !StartSide(step)
    ensures OneStart(ApplyStop(w, step)) && StartStages(ApplyStop(w, step))
  {
    StopFrame(w, step);
  }

  lemma {:induction false} RequestKeeps(w: Net, finisher: nat, caller: bool)
    requires OneStart(w) && OneStop(w) && finisher !in w.stops && finisher !in w.loops
    ensures OneStop(Request(w, finisher, caller))
  {
    var w' := Request(w, finisher, caller);
    if Initiates(w) {
      assert Finishes(w'.stops, finisher);
      assert forall t | Finishes(w'.stops, t) :: t == finisher || Finishes(w.stops, t);
    } else {
      assert forall t :: Finishes(w'.stops, t) <==> Finishes(w.stops, t);
    }
  }

  /** The step of a finisher that keeps its future, or resolves it. */
  lemma {:induction false} FinisherKeeps(w: Net, step: Step)
    requires OneStart(w) && OneStop(w) && Enabled(w, step)
    requires step.Claim? || step.Look? || step.Joined? || step.TearDown? || step.TornDown? || step.Resolve?
    ensures OneStop(ApplyStop(w, step))
  {
    var w' := ApplyStop(w, step);
    StopFrame(w, step);
    StopMoves(w, step);
    assert Finishes(w.stops, step.t);
    assert forall t | Finishes(w'.stops, t) :: Finishes(w.stops, t);
    if !step.Resolve? {
      assert Finishes(w'.stops, step.t);
    }
  }

  lemma {:induction false} AfterwardsMoves(w: Net, step: Step)
    requires Enabled(w, step)
    requires step.Clear? || step.ReadStopThread? || step.ReadStartThread? || step.Unblock?
    ensures var w' := ApplyStop(w, step);
      && w'.stopFuture == w.stopFuture && w'.futures == w.futures
      && step.t in w.stops && !Finishing(w.stops[step.t])
      && (step.t in w'.stops ==>
            w'.stops[step.t].future == w.stops[step.t].future &&
            !w'.stops[step.t].Clearing? && !Finishing(w'.stops[step.t]))
  {}

  lemma {:induction false} AfterwardsKeeps(w: Net, step: Step)
    requires OneStop(w) && Enabled(w, step)
    requires step.Clear? || step.ReadStopThread? || step.ReadStartThread? || step.Unblock?
    ensures OneStop(ApplyStop(w, step))
  {
    StopFrame(w, step);
    StopMoves(w, step);
    AfterwardsMoves(w, step);
    SameFinishers(w, ApplyStop(w, step), step.t);
  }

  lemma {:induction false} SameFinishers(w: Net, w': Net, t: nat)
    requires OneStop(w) && w'.stopFuture == w.stopFuture && w'.startFuture == w.startFuture
    requires w'.done == w.done && w'.futures == w.futures && w'.loops == w.loops
    requires t in w.stops && !Finishing(w.stops[t])
    requires forall u | u != t :: (u in w'.stops <==> u in w.stops) && (u in w.stops ==> w'.stops[u] == w.stops[u])
    requires t in w'.stops ==>
      w'.stops[t].future == w.stops[t].future && !w'.stops[t].Clearing? && !Finishing(w'.stops[t])
    ensures OneStop(w')
  {
    assert forall u :: Finishes(w'.stops, u) <==> Finishes(w.stops, u);
  }

  lemma {:induction false} StopKeeps(w: Net, step: Step)
    requires Inv(w) && Enabled(w, step) && !StartSide(step)
    ensures OneStop(ApplyStop(w, step))
  {
    match step
    case CallStop(t) => RequestKeeps(w, t, true);
    case CallStopInLoop(t, worker) => RequestKeeps(w, worker, false);
    case Clear(t) => AfterwardsKeeps(w, step);
    case ReadStopThread(t) => AfterwardsKeeps(w, step);
    case ReadStartThread(t) => AfterwardsKeeps(w, step);
    case Unblock(t) => AfterwardsKeeps(w, step);
    case _ => FinisherKeeps(w, step);
  }

  lemma {:induction false} StopKeepsStages(w: Net, step: Step)
    requires Inv(w) && Enabled(w, step) && !StartSide(step)
    ensures StopStages(ApplyStop(w, step)) && Nested(ApplyStop(w, step))
  {
    StopFrame(w, step);
    StopMoves(w, step);
    MoverStage(w, step);
    if Mover(step) in w.starts && Mover(step) in ApplyStop(w, step).stops {
      MoverCarried(w, step);
    }
  }

  lemma {:induction false} MoverStage(w: Net, step: Step)
    requires OneStart(w) && StopStages(w) && Enabled(w, step) && !StartSide(step)
    ensures Mover(step) in ApplyStop(w, step).stops ==>
      StopStage(ApplyStop(w, step), Mover(step), ApplyStop(w, step).stops[Mover(step)])
  {
    StopFrame(w, step);
  }

  lemma {:induction false} MoverCarried(w: Net, step: Step)
    requires StartStages(w) && OneStop(w) && Nested(w) && Enabled(w, step) && !StartSide(step)
    requires Mover(step) in w.starts && Mover(step) in ApplyStop(w, step).stops
    ensures ApplyStop(w, step).starts == w.starts && Carried(ApplyStop(w, step), Mover(step))
  {
    StopFrame(w, step);
  }

  lemma {:induction false} StepKeepsInv(w: Net, step: Step)
    requires Inv(w) && Enabled(w, step)
    ensures Inv(Apply(w, step))
  {
    if StartSide(step) {
      StartKeeps(w, step);
      StartKeepsStops(w, step);
      StartKeepsStages(w, step);
    } else {
      StopKeepsStarts(w, step);
      StopKeeps(w, step);
      StopKeepsStages(w, step);
    }
  }

  lemma {:induction false} RunKeepsInv(w: Net, steps: seq<Step>)
    requires Inv(w) && CanRun(w, steps)
    ensures Inv(Run(w, steps))
    decreases |steps|
  {
    if |steps| > 0 {
      StepKeepsInv(w, steps[0]);
      RunKeepsInv(Apply(w, steps[0]), steps[1..]);
    }
  }
}
