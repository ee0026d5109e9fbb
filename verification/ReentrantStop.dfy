/**
  A stop called from inside the `_do_stop` that the calling thread runs as the finisher of a stop.

  The start/stop machine moves underneath, save that the calling thread's own frame stands still until
  the inner call returns.  The inner call finds the stop already requested, so all it does is compare
  its thread with the two recorded ones and, if it is neither, wait for the future.
 */
module ReentrantStop {
  import opened Wrappers
  import opened StartStop
  import opened StartStopTheorems

  /** Where the inner call is: before its two comparisons, between them, or waiting for the future. */
  datatype Inner = AtStopThread | AtStartThread | Waiting

  datatype World = World(net: Net, inner: map<nat, Inner>)

  datatype Move =
    | Outer(step: Step)
    | CallInside(t: nat) | CompareStop(t: nat) | CompareStart(t: nat) | Wake(t: nat)

  predicate MoveEnabled(w: World, move: Move) {
    match move
    case Outer(step) => Enabled(w.net, step) && step.t !in w.inner
    case CallInside(t) => t in w.net.stops && w.net.stops[t].Tearing? && t !in w.inner && !Initiates(w.net)
    case CompareStop(t) => t in w.inner && w.inner[t].AtStopThread?
    case CompareStart(t) => t in w.inner && w.inner[t].AtStartThread?
    case Wake(t) =>
      && t in w.inner && w.inner[t].Waiting?
      && w.net.stopFuture.Some? && w.net.stopFuture.value in w.net.done
  }

  function Make(w: World, move: Move): World
    requires MoveEnabled(w, move)
  {
    match move
    case Outer(step) => w.(net := Apply(w.net, step))
    case CallInside(t) => w.(inner := w.inner[t := AtStopThread])
    case CompareStop(t) =>
      if w.net.stopThread == Some(t) then w.(inner := w.inner - {t}) else w.(inner := w.inner[t := AtStartThread])
    case CompareStart(t) =>
      if w.net.startThread == Some(t) then w.(inner := w.inner - {t}) else w.(inner := w.inner[t := Waiting])
    case Wake(t) => w.(inner := w.inner - {t})
  }

  predicate CanMake(w: World, moves: seq<Move>)
    decreases |moves|
  {
    |moves| == 0 || (MoveEnabled(w, moves[0]) && CanMake(Make(w, moves[0]), moves[1..]))
  }

  function MakeAll(w: World, moves: seq<Move>): World
    requires CanMake(w, moves)
    decreases |moves|
  {
    if |moves| == 0 then w else MakeAll(Make(w, moves[0]), moves[1..])
  }

  /** The machine underneath is in order, and a thread with an inner call stands inside `_do_stop`. */
  ghost predicate Sound(w: World) {
    Inv(w.net) && forall t <- w.inner :: t in w.net.stops && w.net.stops[t].Tearing?
  }

  lemma {:induction false} OuterLeavesInner(w: World, step: Step, t: nat)
    requires Sound(w) && MoveEnabled(w, Outer(step)) && t in w.inner
    ensures t in Apply(w.net, step).stops && Apply(w.net, step).stops[t] == w.net.stops[t]
  {
    if StartSide(step) {
      StartFrame(w.net, step);
    } else {
      StopMoves(w.net, step);
    }
  }

  lemma {:induction false} MoveKeepsSound(w: World, move: Move)
    requires Sound(w) && MoveEnabled(w, move)
    ensures Sound(Make(w, move))
  {
    if move.Outer? {
      StepKeepsInv(w.net, move.step);
      forall t <- w.inner
        ensures t in Apply(w.net, move.step).stops && Apply(w.net, move.step).stops[t].Tearing?
      {
        OuterLeavesInner(w, move.step, t);
      }
    }
  }

  lemma {:induction false} MovesKeepSound(w: World, moves: seq<Move>)
    requires Sound(w) && CanMake(w, moves)
    ensures Sound(MakeAll(w, moves))
    decreases |moves|
  {
    if |moves| > 0 {
      MoveKeepsSound(w, moves[0]);
      MovesKeepSound(Make(w, moves[0]), moves[1..]);
    }
  }

  function Beginning(loops: set<nat>): World {
    World(Init(loops), map[])
  }

  /** Inner calls change nothing but their callers: no two threads are inside `_do_start` or `_do_stop` here either. */
  lemma {:induction false} StillExclusive(loops: set<nat>, moves: seq<Move>, t: nat, u: nat)
    requires CanMake(Beginning(loops), moves)
    requires Inside(MakeAll(Beginning(loops), moves).net, t) && Inside(MakeAll(Beginning(loops), moves).net, u)
    ensures t == u
  {
    InitInv(loops);
    MovesKeepSound(Beginning(loops), moves);
    InsideIsAlone(MakeAll(Beginning(loops), moves).net, t, u);
  }

  /** A call from inside `_do_stop` never makes a new stop future. */
  lemma {:induction false} NeverInitiates(loops: set<nat>, moves: seq<Move>, t: nat)
    requires CanMake(Beginning(loops), moves)
    requires var w := MakeAll(Beginning(loops), moves); t in w.net.stops && w.net.stops[t].Tearing?
    ensures !Initiates(MakeAll(Beginning(loops), moves).net)
  {
    InitInv(loops);
    MovesKeepSound(Beginning(loops), moves);
    assert Finishes(MakeAll(Beginning(loops), moves).net.stops, t);
  }

  /******* When the inner call returns *******/

  /** Once it waits it waits for its own thread: for ever, with the future unresolved. */
  lemma {:induction false} WaitingNeverEnds(w: World, moves: seq<Move>, t: nat)
    requires Sound(w) && CanMake(w, moves) && t in w.inner && w.inner[t].Waiting?
    ensures var w' := MakeAll(w, moves);
      && t in w'.inner && w'.inner[t].Waiting?
      && w'.net.stopFuture.Some? && w'.net.stopFuture.value !in w'.net.done
    decreases |moves|
  {
    assert Finishes(w.net.stops, t);
    if |moves| > 0 {
      MoveKeepsSound(w, moves[0]);
      WaitingNeverEnds(Make(w, moves[0]), moves[1..], t);
    }
  }

  /** Only a start attempt of thread t makes it the start thread, and only the end of that attempt unmakes it. */
  lemma {:induction false} StartThreadStands(w: Net, step: Step, t: nat)
    requires Inv(w) && Enabled(w, step) && step.t != t
    ensures Apply(w, step).startThread == Some(t) <==> w.startThread == Some(t)
  {
    StartThreadAfter(w, step);
    if step.PrepareStart? || step.Enter? || step.EndStart? {
      OnlyOneStarts(w, step, t);
    }
  }

  lemma {:induction false} StartThreadAfter(w: Net, step: Step)
    requires Enabled(w, step)
    ensures Apply(w, step).startThread ==
      if step.PrepareStart? then (if step.background then None else Some(step.t))
      else if step.Enter? then Some(step.t)
      else if step.EndStart? then None
      else w.startThread
  {}

  /** A thread that begins, enters or ends its start attempt finds no other one recorded. */
  lemma {:induction false} OnlyOneStarts(w: Net, step: Step, t: nat)
    requires Inv(w) && Enabled(w, step) && step.t != t
    requires step.PrepareStart? || step.Enter? || step.EndStart?
    ensures w.startThread != Some(t)
  {
    assert OneStart(w);
  }

  lemma {:induction false} MoveBetween(w: World, move: Move, t: nat)
    requires Sound(w) && MoveEnabled(w, move) && move != CompareStart(t)
    requires t in w.inner && w.inner[t].AtStartThread?
    ensures var w' := Make(w, move);
      && t in w'.inner && w'.inner[t].AtStartThread?
      && (w'.net.startThread == Some(t) <==> w.net.startThread == Some(t))
  {
    if move.Outer? {
      StartThreadStands(w.net, move.step, t);
    }
  }

  /** While the call is between its comparisons, others may start, stop, claim and clear as they like. */
  lemma {:induction false} BetweenComparisons(w: World, between: seq<Move>, t: nat)
    requires Sound(w) && CanMake(w, between) && CompareStart(t) !in between
    requires t in w.inner && w.inner[t].AtStartThread?
    ensures var w' := MakeAll(w, between);
      && t in w'.inner && w'.inner[t].AtStartThread?
      && (w'.net.startThread == Some(t) <==> w.net.startThread == Some(t))
    decreases |between|
  {
    if |between| > 0 {
      MoveBetween(w, between[0], t);
      MoveKeepsSound(w, between[0]);
      BetweenComparisons(Make(w, between[0]), between[1..], t);
    }
  }

  /**
    The comparisons decide, whatever other threads do between them and afterwards: with the recorded stop
    thread still its own the call returns at the first one, and with the start thread its own at the first
    it returns at the second; otherwise it never returns, and the stop is never finished.
   */
  lemma {:induction false} ReturnsExactly(w: World, t: nat, between: seq<Move>, more: seq<Move>)
    requires Sound(w) && t in w.inner && w.inner[t].AtStopThread?
    requires var first := Make(w, CompareStop(t));
      t in first.inner ==>
        && CanMake(first, between) && CompareStart(t) !in between
        && CanMake(MakeAll(first, between), [CompareStart(t)] + more)
    ensures var first := Make(w, CompareStop(t));
      && (t !in first.inner <==> w.net.stopThread == Some(t))
      && (t in first.inner ==>
            var second := MakeAll(first, between);
            && MoveEnabled(second, CompareStart(t))
            && if w.net.startThread == Some(t) then t !in Make(second, CompareStart(t)).inner
               else
                 var last := MakeAll(second, [CompareStart(t)] + more);
                 t in last.inner && last.net.stopFuture.Some? && last.net.stopFuture.value !in last.net.done)
  {
    var first := Make(w, CompareStop(t));
    MoveKeepsSound(w, CompareStop(t));
    if t in first.inner {
      var second := MakeAll(first, between);
      BetweenComparisons(first, between, t);
      MovesKeepSound(first, between);
      if w.net.startThread != Some(t) {
        assert ([CompareStart(t)] + more)[1..] == more;
        MoveKeepsSound(second, CompareStart(t));
        WaitingNeverEnds(Make(second, CompareStart(t)), more, t);
      }
    }
  }

  /******* When the recorded stop thread is still the finisher *******/

  predicate Claimed(w: Net, t: nat) {
    Finishes(w.stops, t) && !w.stops[t].Claiming?
  }

  lemma {:induction false} ClearingForgets(w: Net, step: Step, t: nat)
    requires Inv(w) && Enabled(w, step) && Claimed(w, t) && Claimed(Apply(w, step), t)
    ensures Apply(w, step).stopThread == Some(t) <==> w.stopThread == Some(t) && !step.Clear?
  {
    StopThreadAfter(w, step);
    if step.Claim? {
      OnlyOneClaims(w, step.t, t);
    }
  }

  /** Claiming and clearing are the only steps that write the record. */
  lemma {:induction false} StopThreadAfter(w: Net, step: Step)
    requires Enabled(w, step)
    ensures Apply(w, step).stopThread ==
      if step.Claim? then Some(step.t) else if step.Clear? then None else w.stopThread
  {}

  /** After a claim there is no other thread left to claim. */
  lemma {:induction false} OnlyOneClaims(w: Net, u: nat, t: nat)
    requires Inv(w) && Enabled(w, Claim(u))
    ensures !Claimed(w, t)
  {
    assert Finishes(w.stops, u);
  }

  predicate Clears(steps: seq<Step>) {
    exists i | 0 <= i < |steps| :: steps[i].Clear?
  }

  lemma {:induction false} ClaimedStays(w: Net, steps: seq<Step>, f: nat, t: nat)
    requires Inv(w) && Claimed(w, t) && Pending(w, f) && CanRun(w, steps) && f !in Run(w, steps).done
    ensures Claimed(Run(w, steps), t)
    decreases |steps|
  {
    if |steps| > 0 {
      StillClaimed(w, steps[0], f, t);
      StepKeepsInv(w, steps[0]);
      if f in Apply(w, steps[0]).done {
        ResolvedStays(Apply(w, steps[0]), steps[1..], f);
      }
      ClaimedStays(Apply(w, steps[0]), steps[1..], f, t);
    }
  }

  lemma {:induction false} StillClaimed(w: Net, step: Step, f: nat, t: nat)
    requires Inv(w) && Claimed(w, t) && Pending(w, f) && Enabled(w, step)
    ensures f in Apply(w, step).done || (Claimed(Apply(w, step), t) && Pending(Apply(w, step), f))
  {
    if StartSide(step) {
      StartFrame(w, step);
    } else {
      StopFrame(w, step);
      StopMoves(w, step);
    }
  }

  /**
    From its claim on, and until its future is resolved, a finisher is the recorded stop thread if and only
    if no finisher of an earlier future has cleared the record meanwhile.
   */
  lemma {:induction false} RecordedUnlessCleared(w: Net, steps: seq<Step>, f: nat, t: nat)
    requires Inv(w) && Claimed(w, t) && w.stopThread == Some(t) && Pending(w, f)
    requires CanRun(w, steps) && f !in Run(w, steps).done
    ensures Run(w, steps).stopThread == Some(t) <==> !Clears(steps)
  {
    RecordAfter(w, steps, f, t);
  }

  lemma {:induction false} RecordAfter(w: Net, steps: seq<Step>, f: nat, t: nat)
    requires Inv(w) && Claimed(w, t) && Pending(w, f) && CanRun(w, steps) && f !in Run(w, steps).done
    ensures Run(w, steps).stopThread == Some(t) <==> w.stopThread == Some(t) && !Clears(steps)
    decreases |steps|
  {
    if |steps| > 0 {
      var w1, rest := Apply(w, steps[0]), steps[1..];
      StillClaimed(w, steps[0], f, t);
      StepKeepsInv(w, steps[0]);
      if f in w1.done {
        ResolvedStays(w1, rest, f);
      }
      ClearingForgets(w, steps[0], t);
      RecordAfter(w1, rest, f, t);
      if i :| 0 <= i < |rest| && rest[i].Clear? {
        assert steps[i + 1].Clear?;
      }
      if i :| 0 < i < |steps| && steps[i].Clear? {
        assert rest[i - 1].Clear?;
      }
    }
  }

  /******* The record can be lost *******/

  lemma {:induction false} MovesConcat(w: World, a: seq<Move>, b: seq<Move>)
    requires CanMake(w, a) && CanMake(MakeAll(w, a), b)
    ensures CanMake(w, a + b) && MakeAll(w, a + b) == MakeAll(MakeAll(w, a), b)
    decreases |a|
  {
    if |a| == 0 {
      assert a + b == b;
    } else {
      MovesConcat(Make(w, a[0]), a[1..], b);
      assert (a + b)[1..] == a[1..] + b;
    }
  }

  lemma {:induction false} OneMove(w: World, move: Move)
    requires MoveEnabled(w, move)
    ensures CanMake(w, [move]) && MakeAll(w, [move]) == Make(w, move)
  {
    assert CanMake(Make(w, move), []) && MakeAll(Make(w, move), []) == Make(w, move);
  }

  /** A stop by thread 1 that leaves an async disconnect pending, up to the resolution of its future. */
  const FIRST_STOP := [CallStop(1), Claim(1), Look(1), TearDown(1), TornDown(1, true), Resolve(1)]

  /** A second stop, by thread 2, which claims before thread 1 clears; then a stop from inside its `_do_stop`. */
  const SECOND_STOP := [CallStop(2), Claim(2), Clear(1), Look(2), TearDown(2)]
  const INNER_STOP := [CallInside(2), CompareStop(2), CompareStart(2)]

  function AsMoves(steps: seq<Step>): seq<Move> {
    seq(|steps|, i requires 0 <= i < |steps| => Outer(steps[i]))
  }

  /** After these moves thread 2 waits for the future that only thread 2 could resolve. */
  lemma {:induction false} InnerCallCanWaitForItself()
    ensures var moves := AsMoves(FIRST_STOP + SECOND_STOP) + INNER_STOP;
      && CanMake(Beginning({}), moves)
      && var w := MakeAll(Beginning({}), moves);
         && 2 in w.inner && w.inner[2].Waiting? && 2 in w.net.stops
         && w.net.stops[2] == Tearing(2, true) && w.net.stopFuture == Some(2) && 2 !in w.net.done
  {
    var net := RecordLost();
    OuterMoves(Init({}), FIRST_STOP + SECOND_STOP);
    var moves := AsMoves(FIRST_STOP + SECOND_STOP);
    WaitsForItself(World(net, map[]));
    MovesConcat(Beginning({}), moves, INNER_STOP);
  }

  lemma {:induction false} WaitsForItself(w: World)
    requires 2 in w.net.stops && w.net.stops[2] == Tearing(2, true) && w.net.stopFuture == Some(2) && 2 !in w.net.done
    requires w.inner == map[] && w.net.stopThread.None? && w.net.startThread.None?
    ensures CanMake(w, INNER_STOP) && MakeAll(w, INNER_STOP) == World(w.net, map[2 := Waiting])
  {
    var w1 := Make(w, CallInside(2));
    var w2 := Make(w1, CompareStop(2));
    OneMove(w2, CompareStart(2));
    assert INNER_STOP[1..] == [CompareStop(2), CompareStart(2)] && INNER_STOP[1..][1..] == [CompareStart(2)];
    assert Make(w2, CompareStart(2)) == World(w.net, map[2 := Waiting]);
  }

  /** Outer moves alone run the machine underneath. */
  lemma {:induction false} OuterMoves(net: Net, steps: seq<Step>)
    requires CanRun(net, steps)
    ensures CanMake(World(net, map[]), AsMoves(steps))
    ensures MakeAll(World(net, map[]), AsMoves(steps)) == World(Run(net, steps), map[])
    decreases |steps|
  {
    if |steps| > 0 {
      OuterMoves(Apply(net, steps[0]), steps[1..]);
      assert AsMoves(steps)[1..] == AsMoves(steps[1..]);
    }
  }

  /** The finisher of the second stop is inside `_do_stop`, and no longer the recorded stop thread. */
  lemma {:induction false} RecordLost() returns (net: Net)
    ensures CanRun(Init({}), FIRST_STOP + SECOND_STOP) && Run(Init({}), FIRST_STOP + SECOND_STOP) == net
    ensures 2 in net.stops && net.stops[2] == Tearing(2, true) && net.stopFuture == Some(2) && 2 !in net.done
    ensures net.stopThread.None? && net.startThread.None?
  {
    var n6 := FirstStop();
    SecondStop(n6);
    RunsOn(Init({}), FIRST_STOP, SECOND_STOP);
    net := Run(n6, SECOND_STOP);
  }

  lemma {:induction false} RunsOn(w: Net, a: seq<Step>, b: seq<Step>)
    requires CanRun(w, a) && CanRun(Run(w, a), b)
    ensures CanRun(w, a + b) && Run(w, a + b) == Run(Run(w, a), b)
    decreases |a|
  {
    if |a| == 0 {
      assert a + b == b;
    } else {
      RunsOn(Apply(w, a[0]), a[1..], b);
      assert (a + b)[1..] == a[1..] + b;
    }
  }

  /** No start, and the given stop frames; thread 1 has resolved the first future if `resolved`. */
  predicate Stopping1(w: Net, thread: Option<nat>, stops: map<nat, Stopping>, resolved: bool) {
    && w.startFuture.None? && w.startThread.None? && w.starts == map[] && w.stopFuture == Some(1) && w.futures == 1
    && w.stopThread == thread && w.stops == stops && w.loops == {}
    && w.done == if resolved then {1} else {}
  }

  lemma {:induction false} FirstStop() returns (w: Net)
    ensures CanRun(Init({}), FIRST_STOP) && Run(Init({}), FIRST_STOP) == w && w.asyncLeft
    ensures Stopping1(w, Some(1), map[1 := Clearing(1, true)], true)
  {
    var n3 := Requested();
    w := ResolvesFirst(n3);
    RunsOn(Init({}), [CallStop(1), Claim(1), Look(1)], [TearDown(1), TornDown(1, true), Resolve(1)]);
    assert FIRST_STOP == [CallStop(1), Claim(1), Look(1)] + [TearDown(1), TornDown(1, true), Resolve(1)];
  }

  lemma {:induction false} ResolvesFirst(n3: Net) returns (w: Net)
    requires Stopping1(n3, Some(1), map[1 := StartStop.Ready(1, true)], false)
    ensures var steps := [TearDown(1), TornDown(1, true), Resolve(1)]; CanRun(n3, steps) && Run(n3, steps) == w
    ensures w.asyncLeft && Stopping1(w, Some(1), map[1 := Clearing(1, true)], true)
  {
    var n4 := Apply(n3, TearDown(1));
    var n5 := Apply(n4, TornDown(1, true));
    Three(n3, TearDown(1), TornDown(1, true), Resolve(1));
    w := Apply(n5, Resolve(1));
  }

  lemma {:induction false} Requested() returns (w: Net)
    ensures var steps := [CallStop(1), Claim(1), Look(1)]; CanRun(Init({}), steps) && Run(Init({}), steps) == w
    ensures Stopping1(w, Some(1), map[1 := StartStop.Ready(1, true)], false)
  {
    var n0 := Init({});
    var n1 := Apply(n0, CallStop(1));
    var n2 := Apply(n1, Claim(1));
    Three(n0, CallStop(1), Claim(1), Look(1));
    w := Apply(n2, Look(1));
  }

  lemma {:induction false} Three(w: Net, a: Step, b: Step, c: Step)
    requires Enabled(w, a) && Enabled(Apply(w, a), b) && Enabled(Apply(Apply(w, a), b), c)
    ensures CanRun(w, [a, b, c]) && Run(w, [a, b, c]) == Apply(Apply(Apply(w, a), b), c)
  {
    var w1, w2 := Apply(w, a), Apply(Apply(w, a), b);
    First(w2, c, []);
    First(w1, b, [c]);
    First(w, a, [b, c]);
    assert [b] + [c] == [b, c] && [a] + [b, c] == [a, b, c] && [c] + [] == [c];
  }

  lemma {:induction false} First(w: Net, step: Step, more: seq<Step>)
    requires Enabled(w, step) && CanRun(Apply(w, step), more)
    ensures CanRun(w, [step] + more) && Run(w, [step] + more) == Run(Apply(w, step), more)
  {
    assert ([step] + more)[1..] == more;
  }

  lemma {:induction false} SecondStop(n6: Net)
    requires n6.asyncLeft && Stopping1(n6, Some(1), map[1 := Clearing(1, true)], true)
    ensures CanRun(n6, SECOND_STOP)
    ensures var net := Run(n6, SECOND_STOP);
      && 2 in net.stops && net.stops[2] == Tearing(2, true) && net.stopFuture == Some(2) && 2 !in net.done
      && net.stopThread.None? && net.startThread.None?
  {
    var n8 := ClaimsEarly(n6);
    Three(n8, Clear(1), Look(2), TearDown(2));
    assert SECOND_STOP == [CallStop(2), Claim(2)] + [Clear(1), Look(2), TearDown(2)];
    RunsOn(n6, [CallStop(2), Claim(2)], [Clear(1), Look(2), TearDown(2)]);
  }

  lemma {:induction false} ClaimsEarly(n6: Net) returns (n8: Net)
    requires n6.asyncLeft && Stopping1(n6, Some(1), map[1 := Clearing(1, true)], true)
    ensures var steps := [CallStop(2), Claim(2)]; CanRun(n6, steps) && Run(n6, steps) == n8
    ensures n8.startFuture.None? && n8.startThread.None? && n8.stopFuture == Some(2) && n8.done == {1}
    ensures 1 in n8.stops && n8.stops[1] == Clearing(1, true) && 2 in n8.stops && n8.stops[2] == Looking(2, true)
  {
    var n7 := Apply(n6, CallStop(2));
    n8 := Apply(n7, Claim(2));
    assert [CallStop(2), Claim(2)][1..] == [Claim(2)] && [Claim(2)][1..] == [];
    assert Run(n8, []) == n8;
  }
}
