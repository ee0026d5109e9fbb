/** What users of the compile cache can rely on, over every run. */
module CacheTheorems {
  import opened Wrappers
  import opened CompileKey
  import opened CompileCache
  import opened CacheInvariants

  /** The cache after the first n steps of a run. */
  function After(tc: Toolchain, c: Cache, steps: seq<Step>, n: nat): (c': Cache)
    requires CanRun(tc, c, steps) && n <= |steps|
    ensures n < |steps| ==> Enabled(c', steps[n])
    decreases n
  {
    if n == 0 then c else After(tc, Apply(tc, c, steps[0]), steps[1..], n - 1)
  }

  /******* Lock-free reads *******/

  /** However the directory started and whoever publishes meanwhile, a hit means a complete entry at the last stat. */
  lemma {:induction false} LockFreeHit(tc: Toolchain, c: Cache, steps: seq<Step>, id: nat)
    requires Started(c) && CanRun(tc, c, steps) && Enabled(Run(tc, c, steps), Stat(id))
    requires NextPc(tc, Run(tc, c, steps), Stat(id)) == Returned(Hit)
    ensures var now := Run(tc, c, steps); Complete(At(now, KeyOf(now, id)))
  {
    StartedProtocol(tc, c);
    RunKeepsProtocol(tc, c, steps);
    HitIsComplete(tc, Run(tc, c, steps), Stat(id));
  }

  /** Stats of an entry that nobody changes, until the probe is over. */
  function ProbeAlone(e: Entry, pc: Pc, stats: nat): Pc
    decreases stats
  {
    if stats == 0 || !Probing(pc) then pc else ProbeAlone(e, Probe(e, pc), stats - 1)
  }

  /** Undisturbed, the probe says yes exactly for a complete entry. */
  lemma {:induction false} UndisturbedProbe(e: Entry)
    ensures ProbeAlone(e, ProbeDir, 5) == if Complete(e) then Returned(Hit) else Building
  {
    assert forall pc: Pc | !Probing(pc) :: ProbeAlone(e, pc, 4) == ProbeAlone(e, pc, 2) == ProbeAlone(e, pc, 0) == pc;
    if IsDir(e) {
      assert ProbeAlone(e, ProbeDir, 5) == ProbeAlone(e, ProbeJson, 4);
      if NonEmpty(JsonOf(e)) {
        assert ProbeAlone(e, ProbeJson, 4) == ProbeAlone(e, ProbeJsonSize, 3) == ProbeAlone(e, ProbeInfo, 2);
        assert InfoOf(e).File? ==>
          ProbeAlone(e, ProbeInfo, 2) == ProbeAlone(e, ProbeInfoSize, 1) == Probe(e, ProbeInfoSize);
      } else {
        assert JsonOf(e).File? ==> ProbeAlone(e, ProbeJson, 4) == ProbeAlone(e, ProbeJsonSize, 3) == Building;
      }
    }
  }

  /******* Persistence *******/

  /** A forced call moves away what is at k. */
  predicate Displaces(c: Cache, step: Step, k: Key) {
    step.MoveAway? && step.ok && step.id in c.calls && c.calls[step.id].force && KeyOf(c, step.id) == k
  }

  lemma {:induction false} CompleteSurvivesStep(tc: Toolchain, c: Cache, step: Step, k: Key)
    requires Protocol(tc, c) && Enabled(c, step) && Complete(At(c, k))
    ensures At(Apply(tc, c, step), k) == At(c, k) || Displaces(c, step, k)
  {
    if !step.Begin? {
      assert StageOk(tc, c, step.id);
    }
  }

  /** A complete entry is still there, untouched, unless a forced call has moved it away. */
  lemma {:induction false} CompleteStays(tc: Toolchain, c: Cache, steps: seq<Step>, k: Key)
    requires Protocol(tc, c) && CanRun(tc, c, steps) && Complete(At(c, k))
    ensures At(Run(tc, c, steps), k) == At(c, k) ||
            exists n | 0 <= n < |steps| :: Displaces(After(tc, c, steps, n), steps[n], k)
    decreases |steps|
  {
    if |steps| > 0 {
      CompleteSurvivesStep(tc, c, steps[0], k);
      if Displaces(c, steps[0], k) {
        assert Displaces(After(tc, c, steps, 0), steps[0], k);
      } else {
        var c1 := Apply(tc, c, steps[0]);
        StepKeepsProtocol(tc, c, steps[0]);
        CompleteStays(tc, c1, steps[1..], k);
        if n :| 0 <= n < |steps| - 1 && Displaces(After(tc, c1, steps[1..], n), steps[1..][n], k) {
          assert Displaces(After(tc, c, steps, n + 1), steps[n + 1], k);
        }
      }
    }
  }

  /** Call id has moved `prior` away and nothing is in its place. */
  predicate Moved(c: Cache, id: nat, prior: Entry) {
    && id in c.calls && InWindow(c.calls[id].pc)
    && id in c.backups && c.backups[id] == prior && At(c, KeyOf(c, id)).Absent?
  }

  /** The step ends the window: with the new entry in place, the old one back, or a restore that failed as well. */
  predicate Settles(tc: Toolchain, c: Cache, step: Step, id: nat, prior: Entry) {
    && id in c.calls && HasArt(c.calls[id].pc) && Enabled(c, step)
    && var e := At(Apply(tc, c, step), KeyOf(c, id));
       || (step == MoveIn(id, true) && e == Fresh(id, c.calls[id].pc.art) && Complete(e))
       || (step == Restore(id, true) && e == prior)
       || (step == Restore(id, false) && e.Absent?)
  }

  lemma {:induction false} WindowStep(tc: Toolchain, c: Cache, step: Step, id: nat, prior: Entry)
    requires Protocol(tc, c) && Enabled(c, step) && Moved(c, id, prior)
    ensures Moved(Apply(tc, c, step), id, prior) || Settles(tc, c, step, id, prior)
  {
    assert StageOk(tc, c, id);
    if step.id != id {
      OthersUntouched(tc, c, step, id);
      LockHolderWrites(tc, c, step);
    }
  }

  /** A replacement window stays as it is until it ends, and ends in one of three ways. */
  lemma {:induction false} WindowEnds(tc: Toolchain, c: Cache, steps: seq<Step>, id: nat, prior: Entry)
    requires Protocol(tc, c) && CanRun(tc, c, steps) && Moved(c, id, prior)
    ensures Moved(Run(tc, c, steps), id, prior) ||
            exists n | 0 <= n < |steps| :: Settles(tc, After(tc, c, steps, n), steps[n], id, prior)
    decreases |steps|
  {
    if |steps| > 0 {
      WindowStep(tc, c, steps[0], id, prior);
      if Settles(tc, c, steps[0], id, prior) {
        assert Settles(tc, After(tc, c, steps, 0), steps[0], id, prior);
      } else {
        var c1 := Apply(tc, c, steps[0]);
        StepKeepsProtocol(tc, c, steps[0]);
        WindowEnds(tc, c1, steps[1..], id, prior);
        if n :| 0 <= n < |steps| - 1 && Settles(tc, After(tc, c1, steps[1..], n), steps[1..][n], id, prior) {
          assert Settles(tc, After(tc, c, steps, n + 1), steps[n + 1], id, prior);
        }
      }
    }
  }

  /** Moving a complete entry away opens such a window. */
  lemma {:induction false} DisplacingOpensWindow(tc: Toolchain, c: Cache, step: Step, k: Key)
    requires Protocol(tc, c) && Enabled(c, step) && Displaces(c, step, k)
    ensures Moved(Apply(tc, c, step), step.id, At(c, k)) && KeyOf(Apply(tc, c, step), step.id) == k
  {
  }

  /** No entry ever holds files of two writers. */
  lemma {:induction false} OneWriter(tc: Toolchain, c: Cache, steps: seq<Step>, k: Key)
    requires Started(c) && CanRun(tc, c, steps)
    ensures Unmixed(At(Run(tc, c, steps), k))
  {
    StartedProtocol(tc, c);
    RunKeepsProtocol(tc, c, steps);
  }

  /******* Agreement with compiling *******/

  /** The step settles that call id returns a result. */
  predicate Answers(tc: Toolchain, c: Cache, step: Step, id: nat) {
    && Enabled(c, step) && step.id == id
    && var pc := NextPc(tc, c, step); (pc.Releasing? || pc.Returned?) && !pc.answer.Failed?
  }

  lemma {:induction false} AnswerIsComplete(tc: Toolchain, c: Cache, step: Step, id: nat)
    requires Protocol(tc, c) && Answers(tc, c, step, id)
    ensures var c' := Apply(tc, c, step); Complete(At(c', KeyOf(c', id)))
  {
    if step.Stat? {
      HitIsComplete(tc, c, step);
    } else {
      StepKeepsProtocol(tc, c, step);
      assert StageOk(tc, c, id);
      assert StageOk(tc, Apply(tc, c, step), id);
    }
  }

  /**
    When a call of `compile` settles on a result, by hit, by publishing or because a rival has
    published, a complete entry is at its key and holds what the backend makes of its own inputs.
   */
  lemma {:induction false} CacheAgreesWithCompiling(tc: Toolchain, c0: Cache, steps: seq<Step>, step: Step, id: nat)
    requires CollisionFree(tc) && Initial(tc, c0) && CanRun(tc, c0, steps)
    requires var c := Run(tc, c0, steps); Answers(tc, c, step, id)
    ensures var c := Run(tc, c0, steps); var c' := Apply(tc, c, step);
      && Complete(At(c', KeyOf(c', id)))
      && tc.backend(c'.calls[id].inputs) == Some(ArtifactsOf(At(c', KeyOf(c', id))))
  {
    var c := Run(tc, c0, steps);
    assert RunsTo(tc, c0, steps, c);
    ReachedAnswerIsRight(tc, c, step, id);
  }

  lemma {:induction false} ReachedAnswerIsRight(tc: Toolchain, c: Cache, step: Step, id: nat)
    requires CollisionFree(tc) && Reached(tc, c) && Answers(tc, c, step, id)
    ensures var c' := Apply(tc, c, step); var e := At(c', KeyOf(c', id));
      Complete(e) && tc.backend(c'.calls[id].inputs) == Some(ArtifactsOf(e))
  {
    ReachedInv(tc, c);
    StepKeepsInv(tc, c, step);
    AnswerIsComplete(tc, c, step, id);
    CompleteAtKey(tc, Apply(tc, c, step), id);
  }
}
