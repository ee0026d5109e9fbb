/** What every run of the start/stop protocol keeps. */
module StartStopTheorems {
  import opened Wrappers
  import opened StartStop

  /******* Exclusion *******/

  /** Thread t is inside `_do_start` or `_do_stop`. */
  predicate Inside(w: Net, t: nat) {
    || (t in w.starts && (w.starts[t].Building? || w.starts[t].RollingBack?))
    || (t in w.stops && w.stops[t].Tearing?)
  }

  /** No two threads are ever inside `_do_start` or `_do_stop` together. */
  lemma {:induction false} Exclusion(loops: set<nat>, steps: seq<Step>, t: nat, u: nat)
    requires CanRun(Init(loops), steps)
    requires Inside(Run(Init(loops), steps), t) && Inside(Run(Init(loops), steps), u)
    ensures t == u
  {
    InitInv(loops);
    RunKeepsInv(Init(loops), steps);
    InsideIsAlone(Run(Init(loops), steps), t, u);
  }

  lemma {:induction false} InsideIsAlone(w: Net, t: nat, u: nat)
    requires Inv(w) && Inside(w, t) && Inside(w, u)
    ensures t == u
  {
    assert Tears(w, t) ==> Finishes(w.stops, t);
    assert Tears(w, u) ==> Finishes(w.stops, u);
  }

  predicate Tears(w: Net, t: nat) {
    t in w.stops && w.stops[t].Tearing?
  }

  /******* A stop requested before the commit *******/

  /** Start attempt f is under way, has not committed, and a stop has been requested since it was prepared. */
  ghost predicate Doomed(w: Net, f: nat) {
    && w.startFuture == Some(f)
    && w.stopFuture.Some?
    && forall t <- w.starts :: !(w.starts[t].Ending? && w.starts[t].committed)
  }

  lemma {:induction false} DoomedStep(w: Net, step: Step, f: nat)
    requires Inv(w) && Doomed(w, f) && Enabled(w, step)
    ensures f !in Apply(w, step).done ==> Doomed(Apply(w, step), f)
    ensures f in Apply(w, step).done ==> Apply(w, step).held == 0 && !Apply(w, step).running
  {
    if StartSide(step) {
      StartFrame(w, step);
    } else {
      StopFrame(w, step);
      DoomedStopStep(w, step);
    }
  }

  lemma {:induction false} DoomedStopStep(w: Net, step: Step)
    requires Inv(w) && w.startFuture.Some? && w.stopFuture.Some? && Enabled(w, step) && !StartSide(step)
    ensures ApplyStop(w, step).stopFuture.Some? && w.startFuture.value !in ApplyStop(w, step).done
  {
    if step.Resolve? {
      assert Finishes(w.stops, step.t);
    }
  }

  /**
    A start attempt that sees a stop request at any point before its commit never sets `running`: not in
    any state up to the step that resolves its future, nor after that step, which leaves every registry empty.
   */
  lemma {:induction false} InterruptedStartRollsBack(loops: set<nat>, before: seq<Step>, steps: seq<Step>,
                                                     step: Step, f: nat)
    requires CanRun(Init(loops), before) && Doomed(Run(Init(loops), before), f)
    requires CanRun(Run(Init(loops), before), steps) && f !in Run(Run(Init(loops), before), steps).done
    requires Enabled(Run(Run(Init(loops), before), steps), step)
    ensures var w := Run(Run(Init(loops), before), steps);
      && !w.running
      && (f in Apply(w, step).done ==> Apply(w, step).held == 0)
      && !Apply(w, step).running
  {
    InitInv(loops);
    RunKeepsInv(Init(loops), before);
    RunKeepsInv(Run(Init(loops), before), steps);
    DoomedRun(Run(Init(loops), before), steps, f);
    var w := Run(Run(Init(loops), before), steps);
    NotRunning(w, f);
    DoomedStep(w, step, f);
    StepKeepsInv(w, step);
    if f !in Apply(w, step).done {
      NotRunning(Apply(w, step), f);
    }
  }

  lemma {:induction false} DoomedRun(w: Net, steps: seq<Step>, f: nat)
    requires Inv(w) && Doomed(w, f) && CanRun(w, steps) && f !in Run(w, steps).done
    ensures Doomed(Run(w, steps), f)
    decreases |steps|
  {
    if |steps| > 0 {
      var w' := Apply(w, steps[0]);
      StepKeepsInv(w, steps[0]);
      DoomedStep(w, steps[0], f);
      if f in w'.done {
        ResolvedStays(w', steps[1..], f);
      }
      DoomedRun(w', steps[1..], f);
    }
  }

  lemma {:induction false} NotRunning(w: Net, f: nat)
    requires Inv(w) && Doomed(w, f)
    ensures !w.running && f !in w.done
  {
    var t :| t in w.starts;
    assert StartStage(w, t, w.starts[t]);
  }

  lemma {:induction false} ResolvedStays(w: Net, steps: seq<Step>, f: nat)
    requires CanRun(w, steps) && f in w.done
    ensures f in Run(w, steps).done
    decreases |steps|
  {
    if |steps| > 0 {
      assert f in Apply(w, steps[0]).done;
      ResolvedStays(Apply(w, steps[0]), steps[1..], f);
    }
  }

  /** The commit sets `running` exactly when no stop has been requested since the attempt was prepared. */
  lemma {:induction false} CommitIff(loops: set<nat>, steps: seq<Step>, t: nat)
    requires CanRun(Init(loops), steps) && Enabled(Run(Init(loops), steps), Commit(t))
    ensures Apply(Run(Init(loops), steps), Commit(t)).running <==> Run(Init(loops), steps).stopFuture.None?
  {
    InitInv(loops);
    RunKeepsInv(Init(loops), steps);
    var w := Run(Init(loops), steps);
    assert StartStage(w, t, w.starts[t]);
  }

  /******* No circular waiting *******/

  /** Thread t waits on a future that thread u is to resolve. */
  predicate WaitsFor(w: Net, t: nat, u: nat) {
    t in w.stops &&
    match w.stops[t]
    case Blocked(f) => f !in w.done && Finishes(w.stops, u) && w.stops[u].future == f
    case Awaiting(_, _, s) => s !in w.done && u in w.starts && w.starts[u].future == s
    case _ => false
  }

  /** Starting threads rank below finishers, finishers below the callers of stop. */
  function Rank(w: Net, t: nat): nat {
    if t in w.starts then 0 else if Finishes(w.stops, t) then 1 else 2
  }

  lemma {:induction false} WaitingDescends(w: Net, t: nat, u: nat)
    requires Inv(w) && WaitsFor(w, t, u)
    ensures Rank(w, t) > Rank(w, u)
  {
    assert t in w.starts ==> Carried(w, t);
  }

  /** A waiting thread always waits for some thread that is still there. */
  lemma {:induction false} WaitingHasOwner(loops: set<nat>, steps: seq<Step>, t: nat)
    requires CanRun(Init(loops), steps)
    requires var w := Run(Init(loops), steps);
      t in w.stops && ((w.stops[t].Blocked? && w.stops[t].future !in w.done) ||
                       (w.stops[t].Awaiting? && w.stops[t].startup !in w.done))
    ensures exists u :: u != t && WaitsFor(Run(Init(loops), steps), t, u)
  {
    InitInv(loops);
    RunKeepsInv(Init(loops), steps);
    var w := Run(Init(loops), steps);
    if w.stops[t].Blocked? {
      var u :| Finishes(w.stops, u);
      assert WaitsFor(w, t, u);
    } else {
      assert StopStage(w, t, w.stops[t]);
      var u :| u in w.starts;
      assert WaitsFor(w, t, u);
      WaitingDescends(w, t, u);
    }
  }

  /** No chain of waiting threads, of any length and in any reachable state, closes on itself. */
  lemma {:induction false} NoCircularWait(loops: set<nat>, steps: seq<Step>, chain: seq<nat>)
    requires CanRun(Init(loops), steps) && |chain| >= 2
    requires forall i | 0 <= i < |chain| - 1 :: WaitsFor(Run(Init(loops), steps), chain[i], chain[i + 1])
    ensures chain[0] != chain[|chain| - 1]
  {
    InitInv(loops);
    RunKeepsInv(Init(loops), steps);
    ChainDescends(Run(Init(loops), steps), chain);
  }

  lemma {:induction false} ChainDescends(w: Net, chain: seq<nat>)
    requires Inv(w) && |chain| >= 2
    requires forall i | 0 <= i < |chain| - 1 :: WaitsFor(w, chain[i], chain[i + 1])
    ensures Rank(w, chain[0]) > Rank(w, chain[|chain| - 1])
  {
    assert WaitsFor(w, chain[0], chain[1]);
    WaitingDescends(w, chain[0], chain[1]);
    if |chain| > 2 {
      var rest := chain[1..];
      forall i | 0 <= i < |rest| - 1
        ensures WaitsFor(w, rest[i], rest[i + 1])
      {
        assert WaitsFor(w, chain[i + 1], chain[i + 2]);
      }
      ChainDescends(w, rest);
    }
  }

  /******* Every stop future resolves *******/

  ghost predicate Pending(w: Net, f: nat) {
    w.stopFuture == Some(f) && f !in w.done
  }

  function StopLeft(pc: Stopping): nat {
    match pc
    case Claiming(_, _) => 6
    case Looking(_, _) => 5
    case Awaiting(_, _, _) => 4
    case Ready(_, _) => 3
    case Tearing(_, _) => 2
    case Resolving(_, _) => 1
    case _ => 0
  }

  function StartLeft(pc: Starting): nat {
    match pc
    case Handoff(_) => 8
    case Entering(_) => 7
    case Checking(_) => 6
    case Building(_) => 5
    case Deciding(_) => 4
    case Raising(_) => 3
    case RollingBack(_) => 2
    case Ending(_, _) => 1
  }

  /** Steps left of a stop frame that no longer owns a future. */
  function LeaveLeft(pc: Stopping): nat {
    match pc
    case Clearing(_, _) => 3
    case CheckStop(_) => 2
    case CheckStart(_) => 1
    case _ => 0
  }

  /** The start attempt's part: what it has left, and what the stop frame on top of it has left. */
  ghost function StartDistance(w: Net): nat {
    if w.starts == map[] then 0
    else
      var t :| t in w.starts;
      Left(w, t)
  }

  /** How far the unresolved stop future, finished by thread v, is from being resolved. */
  ghost function Distance(w: Net, v: nat): nat
    requires Finishes(w.stops, v)
  {
    StopLeft(w.stops[v]) + StartDistance(w)
  }

  lemma {:induction false} StartDistanceIs(w: Net, t: nat)
    requires OneStart(w) && t in w.starts
    ensures StartDistance(w) == Left(w, t)
  {
    assert w.starts != map[];
  }

  /** The step that brings a finisher forward when it does not wait for a start attempt. */
  function FinisherStep(w: Net, v: nat): Step
    requires Finishes(w.stops, v)
  {
    match w.stops[v]
    case Claiming(_, _) => Claim(v)
    case Looking(_, _) => Look(v)
    case Awaiting(_, _, _) => Joined(v)
    case Ready(_, _) => TearDown(v)
    case Tearing(_, _) => TornDown(v, false)
    case _ => Resolve(v)
  }

  /** The step that brings the start attempt of thread t forward. */
  function StarterStep(w: Net, t: nat): Step
    requires t in w.starts
  {
    if t in w.stops then
      match w.stops[t]
      case Clearing(_, _) => Clear(t)
      case CheckStop(_) => ReadStopThread(t)
      case _ => ReadStartThread(t)
    else
      match w.starts[t]
      case Handoff(_) => SubmitFails(t)
      case Entering(_) => Enter(t)
      case Checking(_) => Check(t)
      case Building(_) => BuildFails(t)
      case Deciding(_) => Commit(t)
      case Raising(_) => Rollback(t)
      case RollingBack(_) => RolledBack(t, false)
      case Ending(_, _) => EndStart(t)
  }

  lemma {:induction false} FinisherMoves(w: Net, v: nat)
    requires OneStop(w) && Finishes(w.stops, v)
    requires w.stops[v].Awaiting? ==> w.stops[v].startup in w.done
    ensures Enabled(w, FinisherStep(w, v)) && !StartSide(FinisherStep(w, v)) && Mover(FinisherStep(w, v)) == v
    ensures var w' := ApplyStop(w, FinisherStep(w, v));
      && w'.stopFuture == w.stopFuture
      && (w.stops[v].future in w'.done ||
          (w'.done == w.done && Finishes(w'.stops, v) && StopLeft(w'.stops[v]) < StopLeft(w.stops[v])))
  {}

  lemma {:induction false} FinisherAdvances(w: Net, f: nat, v: nat)
    requires Inv(w) && Pending(w, f) && Finishes(w.stops, v)
    requires w.stops[v].Awaiting? ==> w.stops[v].startup in w.done
    ensures Enabled(w, FinisherStep(w, v))
    ensures var w' := Apply(w, FinisherStep(w, v));
      f in w'.done || (Pending(w', f) && Finishes(w'.stops, v) && Distance(w', v) < Distance(w, v))
  {
    FinisherMoves(w, v);
    var w' := Apply(w, FinisherStep(w, v));
    StopFrame(w, FinisherStep(w, v));
    StopMoves(w, FinisherStep(w, v));
    if f !in w'.done {
      SameStartDistance(w, w', v);
    }
  }

  /** A move of finisher v does not change what the start attempt has left. */
  lemma {:induction false} SameStartDistance(w: Net, w': Net, v: nat)
    requires OneStart(w) && w'.starts == w.starts && Finishes(w.stops, v) && Finishes(w'.stops, v)
    requires forall u | u != v :: (u in w'.stops <==> u in w.stops) && (u in w.stops ==> w'.stops[u] == w.stops[u])
    ensures StartDistance(w') == StartDistance(w)
  {}

  /** What the start frame of thread t, and a stop frame on it, have left. */
  function Left(w: Net, t: nat): nat
    requires t in w.starts
  {
    StartLeft(w.starts[t]) + if t in w.stops then LeaveLeft(w.stops[t]) else 0
  }

  lemma {:induction false} StarterMoves(w: Net, t: nat)
    requires StartStages(w) && OneStop(w) && Nested(w) && t in w.starts && !Finishes(w.stops, t)
    ensures Enabled(w, StarterStep(w, t)) && Mover(StarterStep(w, t)) == t
    ensures StartSide(StarterStep(w, t)) <==> t !in w.stops
    ensures var w' := Apply(w, StarterStep(w, t));
      && w'.stopFuture == w.stopFuture
      && (t in w'.starts ==> Left(w', t) < Left(w, t))
      && (t !in w'.starts ==> StarterStep(w, t).EndStart?)
  {
    if t in w.stops {
      CarriedMoves(w, t);
    } else {
      BareStarterMoves(w, t);
    }
  }

  lemma {:induction false} CarriedMoves(w: Net, t: nat)
    requires OneStop(w) && Nested(w) && t in w.starts && t in w.stops && !Finishes(w.stops, t)
    ensures var step := StarterStep(w, t);
      && Enabled(w, step) && Mover(step) == t && !StartSide(step)
      && var w' := ApplyStop(w, step);
         w'.stopFuture == w.stopFuture && w'.starts == w.starts && Left(w', t) < Left(w, t)
  {
    assert Carried(w, t);
  }

  lemma {:induction false} BareStarterMoves(w: Net, t: nat)
    requires StartStages(w) && t in w.starts && t !in w.stops
    ensures var step := StarterStep(w, t);
      && Enabled(w, step) && Mover(step) == t && StartSide(step)
      && var w' := ApplyStart(w, step);
         && w'.stopFuture == w.stopFuture && w'.stops == w.stops
         && (t in w'.starts ==> Left(w', t) < Left(w, t)) && (t !in w'.starts ==> step.EndStart?)
  {}

  lemma {:induction false} StarterAdvances(w: Net, f: nat, v: nat, t: nat)
    requires Inv(w) && Pending(w, f) && Finishes(w.stops, v)
    requires w.stops[v].Awaiting? && t in w.starts
    ensures Enabled(w, StarterStep(w, t))
    ensures var w' := Apply(w, StarterStep(w, t));
      f in w'.done || (Pending(w', f) && Finishes(w'.stops, v) && Distance(w', v) < Distance(w, v))
  {
    var step := StarterStep(w, t);
    assert t in w.stops ==> Carried(w, t) && !Finishes(w.stops, t);
    StarterMoves(w, t);
    var w' := Apply(w, step);
    StartDistanceIs(w, t);
    StepKeepsInv(w, step);
    if t in w.stops {
      StopMoves(w, step);
    } else {
      StartFrame(w, step);
    }
    if t in w'.starts {
      StartDistanceIs(w', t);
    } else {
      assert w'.starts == map[];
    }
  }

  /** While the future is pending, some step of a thread that is there brings it nearer. */
  lemma {:induction false} NextStep(w: Net, f: nat, v: nat) returns (step: Step)
    requires Inv(w) && Pending(w, f) && Finishes(w.stops, v)
    ensures Enabled(w, step) && OwnStep(w, step, v) && !step.PrepareStart? && !step.Submit?
    ensures step.t in w.starts || step.t in w.stops
    ensures var w' := Apply(w, step);
      f in w'.done || (Pending(w', f) && Finishes(w'.stops, v) && Distance(w', v) < Distance(w, v))
  {
    if w.stops[v].Awaiting? && w.stops[v].startup !in w.done {
      assert StopStage(w, v, w.stops[v]);
      var t :| t in w.starts;
      StarterAdvances(w, f, v, t);
      StarterStepIsOwn(w, t, v);
      step := StarterStep(w, t);
    } else {
      FinisherAdvances(w, f, v);
      FinisherStepIsOwn(w, v);
      step := FinisherStep(w, v);
    }
  }

  lemma {:induction false} FinisherStepIsOwn(w: Net, v: nat)
    requires Finishes(w.stops, v)
    ensures var step := FinisherStep(w, v);
      step.t == v && OwnStep(w, step, v) && !step.PrepareStart? && !step.Submit?
  {}

  lemma {:induction false} StarterStepIsOwn(w: Net, t: nat, v: nat)
    requires t in w.starts
    ensures var step := StarterStep(w, t);
      step.t == t && OwnStep(w, step, v) && !step.PrepareStart? && !step.Submit?
  {}

  /** From any reachable state, the threads already there can resolve a pending stop future, within twenty steps. */
  lemma {:induction false} StopResolves(loops: set<nat>, before: seq<Step>, f: nat) returns (steps: seq<Step>)
    requires CanRun(Init(loops), before) && Pending(Run(Init(loops), before), f)
    ensures CanRun(Run(Init(loops), before), steps) && |steps| <= 20
    ensures f in Run(Run(Init(loops), before), steps).done
    ensures var w := Run(Init(loops), before); forall step <- steps :: step.t in w.starts || step.t in w.stops
  {
    InitInv(loops);
    RunKeepsInv(Init(loops), before);
    var w := Run(Init(loops), before);
    var v :| Finishes(w.stops, v);
    steps := Resolving(w, f, v);
    DistanceBound(w, v);
  }

  lemma {:induction false} DistanceBound(w: Net, v: nat)
    requires Finishes(w.stops, v)
    ensures Distance(w, v) <= 17
  {}

  /** Only a preparation, a submission and a call of stop bring a thread in. */
  lemma {:induction false} NobodyJoins(w: Net, step: Step)
    requires Enabled(w, step)
    requires !step.PrepareStart? && !step.Submit? && !step.CallStop? && !step.CallStopInLoop?
    ensures Apply(w, step).starts.Keys <= w.starts.Keys && Apply(w, step).stops.Keys <= w.stops.Keys
  {
    if StartSide(step) {
      NobodyJoinsStart(w, step);
    } else {
      NobodyJoinsStop(w, step);
    }
  }

  lemma {:induction false} NobodyJoinsStart(w: Net, step: Step)
    requires Enabled(w, step) && StartSide(step) && !step.PrepareStart? && !step.Submit?
    ensures Apply(w, step).starts.Keys <= w.starts.Keys && Apply(w, step).stops == w.stops
  {}

  lemma {:induction false} NobodyJoinsStop(w: Net, step: Step)
    requires Enabled(w, step) && !StartSide(step) && !step.CallStop? && !step.CallStopInLoop?
    ensures Apply(w, step).starts == w.starts && Apply(w, step).stops.Keys <= w.stops.Keys
  {}

  lemma {:induction false} Resolving(w: Net, f: nat, v: nat) returns (steps: seq<Step>)
    requires Inv(w) && Pending(w, f) && Finishes(w.stops, v)
    ensures CanRun(w, steps) && f in Run(w, steps).done && |steps| <= Distance(w, v) + 1
    ensures forall step <- steps :: step.t in w.starts || step.t in w.stops
    decreases Distance(w, v)
  {
    var step := NextStep(w, f, v);
    StepKeepsInv(w, step);
    NobodyJoins(w, step);
    var w' := Apply(w, step);
    var rest := [];
    if f !in w'.done {
      rest := Resolving(w', f, v);
    }
    steps := [step] + rest;
    assert steps[1..] == rest;
  }

  /**
    No other thread can put the resolution off: a step may lengthen the distance only if it is a call of
    stop made by the starting thread itself, from inside its own `_do_start` or rollback.
   */
  lemma {:induction false} OthersCannotDelay(w: Net, step: Step, f: nat, v: nat)
    requires Inv(w) && Pending(w, f) && Finishes(w.stops, v) && Enabled(w, step)
    requires !(step.CallStop? && step.t in w.starts)
    ensures var w' := Apply(w, step);
      f in w'.done || (Pending(w', f) && Finishes(w'.stops, v) && Distance(w', v) <= Distance(w, v))
  {
    var w' := Apply(w, step);
    StepKeepsInv(w, step);
    if StartSide(step) {
      StartFrame(w, step);
      StartSideDistance(w, step);
    } else {
      StopFrame(w, step);
      StopMoves(w, step);
      StopSideDistance(w, step, f, v);
    }
  }

  lemma {:induction false} StartSideDistance(w: Net, step: Step)
    requires Inv(w) && Enabled(w, step) && StartSide(step) && w.stopFuture.Some? && w.stopFuture.value !in w.done
    ensures StartDistance(Apply(w, step)) <= StartDistance(w)
    ensures !step.Acquire? ==> StartDistance(Apply(w, step)) < StartDistance(w)
  {
    var w' := Apply(w, step);
    StartKeeps(w, step);
    StartDistanceIs(w, step.t);
    StartStepShortens(w, step);
    if step.Submit? {
      StartDistanceIs(w', step.worker);
    } else if !step.EndStart? {
      StartDistanceIs(w', step.t);
    }
  }

  /** What is left of the start attempt, on whichever thread it then is. */
  lemma {:induction false} StartStepShortens(w: Net, step: Step)
    requires OneStart(w) && Enabled(w, step) && StartSide(step) && !step.PrepareStart?
    ensures var w' := ApplyStart(w, step);
      if step.EndStart? then w'.starts == map[]
      else if step.Submit? then step.worker in w'.starts && Left(w', step.worker) < Left(w, step.t)
      else if step.Acquire? then step.t in w'.starts && Left(w', step.t) == Left(w, step.t)
      else step.t in w'.starts && Left(w', step.t) < Left(w, step.t)
  {}

  lemma {:induction false} StopSideDistance(w: Net, step: Step, f: nat, v: nat)
    requires Inv(w) && Pending(w, f) && Finishes(w.stops, v) && Enabled(w, step) && !StartSide(step)
    requires !(step.CallStop? && step.t in w.starts)
    ensures var w' := Apply(w, step);
      f in w'.done || (Pending(w', f) && Finishes(w'.stops, v) && Distance(w', v) <= Distance(w, v))
  {
    StopFrame(w, step);
    StopMoves(w, step);
    if Mover(step) == v {
      FinisherStepAdvances(w, step, f, v);
    } else {
      OtherStopDistance(w, step, f, v);
    }
  }

  /** A stop step of a thread that is not the finisher. */
  lemma {:induction false} OtherStopDistance(w: Net, step: Step, f: nat, v: nat)
    requires Inv(w) && Pending(w, f) && Finishes(w.stops, v) && Enabled(w, step) && !StartSide(step)
    requires !(step.CallStop? && step.t in w.starts) && Mover(step) != v
    ensures var w' := ApplyStop(w, step);
      Pending(w', f) && Finishes(w'.stops, v) && Distance(w', v) <= Distance(w, v)
  {
    var w' := ApplyStop(w, step);
    StopFrame(w, step);
    StopMoves(w, step);
    OnlyFinisherResolves(w, step, f, v);
    if t :| t in w.starts {
      StartDistanceIs(w, t);
      StartDistanceIs(w', t);
      if Mover(step) == t {
        LeavingAdvances(w, step, t);
      }
    }
  }

  lemma {:induction false} OnlyFinisherResolves(w: Net, step: Step, f: nat, v: nat)
    requires OneStop(w) && Pending(w, f) && Finishes(w.stops, v) && Enabled(w, step) && !StartSide(step)
    requires Mover(step) != v
    ensures ApplyStop(w, step).stopFuture == w.stopFuture && f !in ApplyStop(w, step).done
  {
    StopFrame(w, step);
    assert step.Resolve? ==> Finishes(w.stops, step.t);
  }

  /**
    A step of a start attempt, of finisher v or of a stop frame on the starting thread, save acquiring or
    calling stop.
   */
  predicate OwnStep(w: Net, step: Step, v: nat) {
    && !step.Acquire? && !step.CallStop? && !step.CallStopInLoop?
    && (StartSide(step) || step.t == v || step.t in w.starts)
  }

  /** The starting thread calls stop from inside its own `_do_start` or rollback. */
  predicate NestedCall(w: Net, step: Step) {
    step.CallStop? && step.t in w.starts
  }

  /** Every such step shortens the distance, whichever way it goes, success or failure. */
  lemma {:induction false} EveryOwnStepAdvances(w: Net, step: Step, f: nat, v: nat)
    requires Inv(w) && Pending(w, f) && Finishes(w.stops, v) && Enabled(w, step) && OwnStep(w, step, v)
    ensures var w' := Apply(w, step);
      f in w'.done || (Pending(w', f) && Finishes(w'.stops, v) && Distance(w', v) < Distance(w, v))
  {
    var w' := Apply(w, step);
    StepKeepsInv(w, step);
    if StartSide(step) {
      StartFrame(w, step);
      StartSideDistance(w, step);
    } else {
      StopFrame(w, step);
      StopMoves(w, step);
      if step.t == v {
        FinisherStepAdvances(w, step, f, v);
      } else {
        LeavingAdvances(w, step, step.t);
        StartDistanceIs(w, step.t);
        StartDistanceIs(w', step.t);
      }
    }
  }

  lemma {:induction false} FinisherStepAdvances(w: Net, step: Step, f: nat, v: nat)
    requires Inv(w) && Pending(w, f) && Finishes(w.stops, v) && Enabled(w, step) && !StartSide(step)
    requires step.t == v && !step.CallStop? && !step.CallStopInLoop?
    ensures var w' := ApplyStop(w, step);
      f in w'.done || (Pending(w', f) && Finishes(w'.stops, v) && Distance(w', v) < Distance(w, v))
  {
    var w' := ApplyStop(w, step);
    StopFrame(w, step);
    StopMoves(w, step);
    if f !in w'.done {
      SameStartDistance(w, w', v);
    }
  }

  /** A stop frame on the starting thread gets nearer to its return. */
  lemma {:induction false} LeavingAdvances(w: Net, step: Step, t: nat)
    requires Nested(w) && OneStop(w) && Enabled(w, step) && !StartSide(step) && !step.CallStop? && !step.CallStopInLoop?
    requires step.t == t && t in w.starts && t in w.stops && !Finishes(w.stops, t)
    ensures var w' := ApplyStop(w, step);
      (if t in w'.stops then LeaveLeft(w'.stops[t]) else 0) < LeaveLeft(w.stops[t])
  {
    assert Carried(w, t);
  }

  /******* Resolution over whole runs *******/

  /** A nested call of stop that finds a stop already pending only reads its way out again. */
  lemma {:induction false} NestedCallDelays(w: Net, step: Step, f: nat, v: nat)
    requires Inv(w) && Pending(w, f) && Finishes(w.stops, v) && Enabled(w, step) && NestedCall(w, step)
    ensures var w' := Apply(w, step);
      Pending(w', f) && Finishes(w'.stops, v) && Distance(w', v) <= Distance(w, v) + 2
  {
    var w' := Apply(w, step);
    StepKeepsInv(w, step);
    StopFrame(w, step);
    StopMoves(w, step);
    StartDistanceIs(w, step.t);
    StartDistanceIs(w', step.t);
  }

  /** How many steps of the run are own steps. */
  function OwnSteps(w: Net, steps: seq<Step>, v: nat): nat
    requires CanRun(w, steps)
    decreases |steps|
  {
    if |steps| == 0 then 0
    else (if OwnStep(w, steps[0], v) then 1 else 0) + OwnSteps(Apply(w, steps[0]), steps[1..], v)
  }

  function NestedCalls(w: Net, steps: seq<Step>): nat
    requires CanRun(w, steps)
    decreases |steps|
  {
    if |steps| == 0 then 0
    else (if NestedCall(w, steps[0]) then 1 else 0) + NestedCalls(Apply(w, steps[0]), steps[1..])
  }

  /** What one step does to the distance of a pending future. */
  lemma {:induction false} DistanceStep(w: Net, step: Step, f: nat, v: nat)
    requires Inv(w) && Pending(w, f) && Finishes(w.stops, v) && Enabled(w, step)
    ensures var w' := Apply(w, step);
      f in w'.done ||
      (Pending(w', f) && Finishes(w'.stops, v) &&
       Distance(w', v) + (if OwnStep(w, step, v) then 1 else 0) <=
       Distance(w, v) + if NestedCall(w, step) then 2 else 0)
  {
    if OwnStep(w, step, v) {
      EveryOwnStepAdvances(w, step, f, v);
    } else if NestedCall(w, step) {
      NestedCallDelays(w, step, f, v);
    } else {
      OthersCannotDelay(w, step, f, v);
    }
  }

  lemma {:induction false} RunShortensDistance(w: Net, steps: seq<Step>, f: nat, v: nat)
    requires Inv(w) && Pending(w, f) && Finishes(w.stops, v) && CanRun(w, steps)
    ensures var w' := Run(w, steps);
      f in w'.done ||
      (Pending(w', f) && Finishes(w'.stops, v) &&
       OwnSteps(w, steps, v) + Distance(w', v) <= Distance(w, v) + 2 * NestedCalls(w, steps))
    decreases |steps|
  {
    if |steps| > 0 {
      var w1 := Apply(w, steps[0]);
      StepKeepsInv(w, steps[0]);
      DistanceStep(w, steps[0], f, v);
      if f in w1.done {
        ResolvedStays(w1, steps[1..], f);
      } else {
        RunShortensDistance(w1, steps[1..], f, v);
      }
    }
  }

  /**
    In every run from every reachable state with a pending stop future, once the start attempt and the
    finisher have taken more than seventeen steps between them, two more for every call of stop that the
    starting thread has made itself, the future is resolved.  It does not matter what other threads do,
    or whether `_do_start` succeeds; it and `_do_stop` only have to come to an end.
   */
  lemma {:induction false} EveryRunResolves(loops: set<nat>, before: seq<Step>, steps: seq<Step>, f: nat, v: nat)
    requires CanRun(Init(loops), before)
    requires var w := Run(Init(loops), before);
      && Pending(w, f) && Finishes(w.stops, v) && CanRun(w, steps)
      && OwnSteps(w, steps, v) > 17 + 2 * NestedCalls(w, steps)
    ensures f in Run(Run(Init(loops), before), steps).done
  {
    InitInv(loops);
    RunKeepsInv(Init(loops), before);
    var w := Run(Init(loops), before);
    DistanceBound(w, v);
    RunShortensDistance(w, steps, f, v);
  }

  /** As long as the future is pending, some such step can be taken, by a thread that is already there. */
  lemma {:induction false} OwnStepIsEnabled(loops: set<nat>, before: seq<Step>, f: nat, v: nat) returns (step: Step)
    requires CanRun(Init(loops), before)
    requires var w := Run(Init(loops), before); Pending(w, f) && Finishes(w.stops, v)
    ensures var w := Run(Init(loops), before);
      Enabled(w, step) && OwnStep(w, step, v) && (step.t in w.starts || step.t in w.stops)
  {
    InitInv(loops);
    RunKeepsInv(Init(loops), before);
    step := NextStep(Run(Init(loops), before), f, v);
  }
}
