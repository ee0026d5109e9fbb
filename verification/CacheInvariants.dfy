/** What every reachable state of the compile cache satisfies. */
module CacheInvariants {
  import opened Wrappers
  import opened Bytes
  import opened CompileKey
  import opened CompileCache

  /** Different inputs have different keys. */
  ghost predicate CollisionFree(tc: Toolchain) {
    forall i: Inputs, j: Inputs :: tc.keyOf(i) == tc.keyOf(j) ==> i == j
  }

  /** That holds of the digest of the framed inputs whenever the digest itself has no collisions. */
  lemma {:induction false} FramedKeysDiffer(digest: ByteString -> Key, backend: Inputs -> Option<Artifacts>)
    requires forall a: ByteString, b: ByteString :: digest(a) == digest(b) ==> a == b
    ensures CollisionFree(Toolchain((i: Inputs) => digest(KeyBytes(i)), backend))
  {
    forall i: Inputs, j: Inputs | digest(KeyBytes(i)) == digest(KeyBytes(j))
      ensures i == j
    {
      KeyDeterminesInputs(i, j);
    }
  }

  predicate Critical(pc: Pc) {
    pc.Deciding? || pc.MovingAway? || pc.MovingIn? || pc.Restoring? ||
    pc.Unlinking? || pc.Removing? || pc.Placing? || pc.Releasing?
  }

  predicate HasArt(pc: Pc) {
    pc.Staged? || (Critical(pc) && !pc.Releasing?)
  }

  predicate InWindow(pc: Pc) {
    pc.MovingIn? || pc.Restoring?
  }

  /** The two artifacts of an entry do not come from different writers. */
  predicate Unmixed(e: Entry) {
    JsonOf(e).File? && InfoOf(e).File? ==> JsonOf(e).writer == InfoOf(e).writer
  }

  /** A complete entry holds what the backend makes of any inputs with this key. */
  ghost predicate Agrees(tc: Toolchain, k: Key, e: Entry) {
    Complete(e) ==> forall i: Inputs :: tc.keyOf(i) == k ==> tc.backend(i) == Some(ArtifactsOf(e))
  }

  /** The entry that the lock holder has moved away from k and not yet replaced or put back. */
  function Stash(c: Cache, k: Key): Entry {
    if c.lock.Some? && c.lock.value in c.calls && c.lock.value in c.backups &&
       InWindow(c.calls[c.lock.value].pc) && KeyOf(c, c.lock.value) == k
    then c.backups[c.lock.value] else Absent
  }

  /** What a reader that has got this far may rely on, whatever is put at its key from now on. */
  predicate SeenOk(pc: Pc, e: Entry) {
    match pc
    case ProbeJsonSize => !JsonOf(e).Irregular?
    case ProbeInfo => NonEmpty(InfoOf(e)) ==> NonEmpty(JsonOf(e))
    case ProbeInfoSize => !InfoOf(e).Irregular? && (NonEmpty(InfoOf(e)) ==> NonEmpty(JsonOf(e)))
    case _ => true
  }

  ghost predicate KeysInv(tc: Toolchain, c: Cache) {
    forall id <- c.calls :: id > 0 && c.calls[id].key == tc.keyOf(c.calls[id].inputs)
  }

  ghost predicate LockInv(c: Cache) {
    && (c.lock.Some? ==> c.lock.value in c.calls)
    && forall id <- c.calls :: Critical(c.calls[id].pc) <==> c.lock == Some(id)
  }

  /** What a call carries is the backend's output on its inputs. */
  ghost predicate ArtFor(tc: Toolchain, call: Call) {
    HasArt(call.pc) ==>
      tc.backend(call.inputs) == Some(call.pc.art) && |call.pc.art.json| > 0 && |call.pc.art.info| > 0
  }

  /** What a call at this point of its publication may rely on; `e` is what is at its key. */
  predicate EntryFor(call: Call, e: Entry, stashed: bool) {
    && (call.pc.MovingAway? ==> call.force)
    && (InWindow(call.pc) ==> call.force && stashed && e == Absent)
    && (call.pc.Placing? ==> e == Absent)
    && (call.pc.Unlinking? ==> !e.Folder? && !Complete(e))
    && (call.pc.Removing? ==> e.Folder? && !Complete(e))
    && (call.pc.Releasing? && !call.pc.answer.Failed? ==> Complete(e))
  }

  ghost predicate StageFor(tc: Toolchain, call: Call, e: Entry, stashed: bool) {
    ArtFor(tc, call) && EntryFor(call, e, stashed)
  }

  ghost predicate StageOk(tc: Toolchain, c: Cache, id: nat)
    requires id in c.calls
  {
    StageFor(tc, c.calls[id], At(c, KeyOf(c, id)), id in c.backups)
  }

  ghost predicate StageInv(tc: Toolchain, c: Cache) {
    forall id <- c.calls :: StageOk(tc, c, id)
  }

  ghost predicate ReaderInv(c: Cache) {
    forall id <- c.calls ::
      SeenOk(c.calls[id].pc, At(c, KeyOf(c, id))) && SeenOk(c.calls[id].pc, Stash(c, KeyOf(c, id)))
  }

  ghost predicate UnmixedInv(c: Cache) {
    forall k :: Unmixed(At(c, k)) && Unmixed(Stash(c, k))
  }

  /** What holds whatever the digest and the backend are. */
  ghost predicate Protocol(tc: Toolchain, c: Cache) {
    KeysInv(tc, c) && LockInv(c) && StageInv(tc, c) && ReaderInv(c) && UnmixedInv(c)
  }

  ghost predicate AgreesInv(tc: Toolchain, c: Cache) {
    forall k :: Agrees(tc, k, At(c, k)) && Agrees(tc, k, Stash(c, k))
  }

  ghost predicate AnswersInv(tc: Toolchain, c: Cache) {
    forall id <- c.calls :: Answered(c.calls[id]) ==> tc.backend(c.calls[id].inputs).Some?
  }

  ghost predicate Inv(tc: Toolchain, c: Cache) {
    Protocol(tc, c) && AgreesInv(tc, c) && AnswersInv(tc, c)
  }

  /** No call yet, and a directory whose entries, complete or not, each have one writer. */
  ghost predicate Started(c: Cache) {
    c.lock.None? && c.calls == map[] && c.backups == map[] && forall k :: Unmixed(At(c, k))
  }

  /** Moreover the complete entries are right for their keys; incomplete ones are arbitrary. */
  ghost predicate Initial(tc: Toolchain, c: Cache) {
    Started(c) && forall k :: Agrees(tc, k, At(c, k))
  }

  /******* How a step changes what is at a key *******/

  predicate Erodes(e: Entry, e': Entry) {
    e.Folder? && !Complete(e) && (e' == Folder(Missing, e.info) || e' == Folder(e.json, Missing))
  }

  predicate Shifts(e: Entry, s: Entry, e': Entry) {
    e' == e || e'.Absent? || e' == s || Erodes(e, e')
  }

  /** The step puts call id's own artifacts in place at k. */
  predicate Publishes(c: Cache, step: Step, k: Key, e': Entry) {
    && (step.MoveIn? || step.PlaceEntry?) && step.ok && Enabled(c, step) && KeyOf(c, step.id) == k
    && e' == Fresh(step.id, c.calls[step.id].pc.art)
  }

  lemma {:induction false} StepSummary(tc: Toolchain, c: Cache, step: Step, k: Key)
    requires LockInv(c) && StageInv(tc, c) && Enabled(c, step)
    ensures var c' := Apply(tc, c, step);
      && (Shifts(At(c, k), Stash(c, k), At(c', k)) || Publishes(c, step, k, At(c', k)))
      && (Stash(c', k) == Stash(c, k) || Stash(c', k) == At(c, k) || Stash(c', k).Absent?)
  {
    if !step.Begin? {
      assert StageOk(tc, c, step.id);
    }
  }

  lemma {:induction false} OthersUntouched(tc: Toolchain, c: Cache, step: Step, j: nat)
    requires Enabled(c, step) && j in c.calls && j != step.id
    ensures var c' := Apply(tc, c, step);
      j in c'.calls && c'.calls[j] == c.calls[j] && (j in c'.backups <==> j in c.backups)
  {
  }

  /** Only the lock holder changes entries. */
  lemma {:induction false} LockHolderWrites(tc: Toolchain, c: Cache, step: Step)
    requires LockInv(c) && Enabled(c, step)
    requires step.Begin? || c.lock != Some(step.id)
    ensures Apply(tc, c, step).entries == c.entries && Apply(tc, c, step).backups == c.backups
  {
  }

  /******* Each invariant is kept *******/

  lemma {:induction false} KeepsKeys(tc: Toolchain, c: Cache, step: Step)
    requires KeysInv(tc, c) && Enabled(c, step)
    ensures KeysInv(tc, Apply(tc, c, step))
  {
  }

  lemma {:induction false} KeepsLock(tc: Toolchain, c: Cache, step: Step)
    requires LockInv(c) && Enabled(c, step)
    ensures LockInv(Apply(tc, c, step))
  {
  }

  /** The lock-free probe: it says yes only if the entry is complete at its last stat. */
  lemma {:induction false} HitIsComplete(tc: Toolchain, c: Cache, step: Step)
    requires ReaderInv(c) && step.Stat? && Enabled(c, step)
    requires NextPc(tc, c, step) == Returned(Hit)
    ensures Complete(At(c, KeyOf(c, step.id)))
  {
    assert SeenOk(c.calls[step.id].pc, At(c, KeyOf(c, step.id)));
  }

  /** A complete entry at a call's key was made by the backend from that call's inputs. */
  lemma {:induction false} CompleteAtKey(tc: Toolchain, c: Cache, id: nat)
    requires KeysInv(tc, c) && AgreesInv(tc, c) && id in c.calls && Complete(At(c, KeyOf(c, id)))
    ensures tc.backend(c.calls[id].inputs) == Some(ArtifactsOf(At(c, KeyOf(c, id))))
  {
    assert Agrees(tc, KeyOf(c, id), At(c, KeyOf(c, id)));
    assert c.calls[id].key == tc.keyOf(c.calls[id].inputs);
  }

  lemma {:induction false} ActorArtOk(tc: Toolchain, c: Cache, step: Step)
    requires StageInv(tc, c) && Enabled(c, step) && !step.Begin?
    ensures ArtFor(tc, NextCall(tc, c, step))
  {
    assert ArtFor(tc, c.calls[step.id]);
  }

  lemma {:induction false} ActorEntryOk(tc: Toolchain, c: Cache, step: Step)
    requires StageInv(tc, c) && Enabled(c, step) && !step.Begin?
    ensures EntryFor(NextCall(tc, c, step), NextEntry(c, step), step.id in NextBackups(c, step))
  {
    if Replaces(step) {
      ReplacingEntryOk(tc, c, step);
    } else if Clears(step) {
      ClearingEntryOk(tc, c, step);
    } else {
      OtherEntryOk(tc, c, step);
    }
  }

  /** The steps of a forced replacement. */
  predicate Replaces(step: Step) {
    step.MoveAway? || step.MoveIn? || step.Restore?
  }

  /** The steps that clear what is in the way. */
  predicate Clears(step: Step) {
    step.Unlink? || step.RemoveJson? || step.RemoveInfo? || step.RemoveFolder? || step.RemoveFails?
  }

  lemma {:induction false} ReplacingEntryOk(tc: Toolchain, c: Cache, step: Step)
    requires StageInv(tc, c) && Enabled(c, step) && Replaces(step)
    ensures EntryFor(NextCall(tc, c, step), NextEntry(c, step), step.id in NextBackups(c, step))
  {
    assert StageOk(tc, c, step.id);
  }

  lemma {:induction false} ClearingEntryOk(tc: Toolchain, c: Cache, step: Step)
    requires StageInv(tc, c) && Enabled(c, step) && Clears(step)
    ensures EntryFor(NextCall(tc, c, step), NextEntry(c, step), step.id in NextBackups(c, step))
  {
    assert StageOk(tc, c, step.id);
  }

  lemma {:induction false} OtherEntryOk(tc: Toolchain, c: Cache, step: Step)
    requires StageInv(tc, c) && Enabled(c, step) && !step.Begin? && !Replaces(step) && !Clears(step)
    ensures EntryFor(NextCall(tc, c, step), NextEntry(c, step), step.id in NextBackups(c, step))
  {
    assert StageOk(tc, c, step.id);
  }

  lemma {:induction false} KeepsStage(tc: Toolchain, c: Cache, step: Step)
    requires LockInv(c) && StageInv(tc, c) && Enabled(c, step)
    ensures StageInv(tc, Apply(tc, c, step))
  {
    var c' := Apply(tc, c, step);
    forall id <- c'.calls
      ensures StageOk(tc, c', id)
    {
      if id != step.id {
        OthersStageOk(tc, c, step, id);
      } else if !step.Begin? {
        ActorArtOk(tc, c, step);
        ActorEntryOk(tc, c, step);
      }
    }
  }

  lemma {:induction false} OthersStageOk(tc: Toolchain, c: Cache, step: Step, id: nat)
    requires LockInv(c) && StageInv(tc, c) && Enabled(c, step) && id in c.calls && id != step.id
    ensures StageOk(tc, Apply(tc, c, step), id)
  {
    assert StageOk(tc, c, id);
    OthersUntouched(tc, c, step, id);
    if c.lock == Some(id) {
      LockHolderWrites(tc, c, step);
    }
  }

  lemma {:induction false} KeepsUnmixed(tc: Toolchain, c: Cache, step: Step)
    requires LockInv(c) && StageInv(tc, c) && UnmixedInv(c) && Enabled(c, step)
    ensures UnmixedInv(Apply(tc, c, step))
  {
    var c' := Apply(tc, c, step);
    forall k
      ensures Unmixed(At(c', k)) && Unmixed(Stash(c', k))
    {
      StepSummary(tc, c, step, k);
      assert Unmixed(At(c, k)) && Unmixed(Stash(c, k));
    }
  }

  lemma {:induction false} KeepsAgreement(tc: Toolchain, c: Cache, step: Step)
    requires Inv(tc, c) && Enabled(c, step) && CollisionFree(tc)
    ensures AgreesInv(tc, Apply(tc, c, step))
  {
    var c' := Apply(tc, c, step);
    forall k
      ensures Agrees(tc, k, At(c', k)) && Agrees(tc, k, Stash(c', k))
    {
      AgreementAt(tc, c, step, k);
    }
  }

  lemma {:induction false} AgreementAt(tc: Toolchain, c: Cache, step: Step, k: Key)
    requires KeysInv(tc, c) && LockInv(c) && StageInv(tc, c) && AgreesInv(tc, c)
    requires Enabled(c, step) && CollisionFree(tc)
    ensures Agrees(tc, k, At(Apply(tc, c, step), k)) && Agrees(tc, k, Stash(Apply(tc, c, step), k))
  {
    StepSummary(tc, c, step, k);
    assert Agrees(tc, k, At(c, k)) && Agrees(tc, k, Stash(c, k));
    var e := At(Apply(tc, c, step), k);
    if Publishes(c, step, k, e) {
      FreshAgrees(tc, c, step.id);
    } else {
      ShiftsAgree(tc, k, At(c, k), Stash(c, k), e);
    }
  }

  lemma {:induction false} ShiftsAgree(tc: Toolchain, k: Key, e: Entry, s: Entry, e': Entry)
    requires Shifts(e, s, e') && Agrees(tc, k, e) && Agrees(tc, k, s)
    ensures Agrees(tc, k, e')
  {
  }

  predicate Answered(call: Call) {
    (call.pc.Releasing? || call.pc.Returned?) && !call.pc.answer.Failed?
  }

  lemma {:induction false} ActorAnswerOk(tc: Toolchain, c: Cache, step: Step)
    requires Inv(tc, c) && Enabled(c, step) && !step.Begin? && Answered(NextCall(tc, c, step))
    ensures tc.backend(c.calls[step.id].inputs).Some?
  {
    assert StageOk(tc, c, step.id);
    if step.Stat? {
      HitIsComplete(tc, c, step);
      CompleteAtKey(tc, c, step.id);
    } else if step.Decide? {
      CompleteAtKey(tc, c, step.id);
    }
  }

  lemma {:induction false} KeepsAnswers(tc: Toolchain, c: Cache, step: Step)
    requires Inv(tc, c) && Enabled(c, step)
    ensures AnswersInv(tc, Apply(tc, c, step))
  {
    var c' := Apply(tc, c, step);
    forall id <- c'.calls | Answered(c'.calls[id])
      ensures tc.backend(c'.calls[id].inputs).Some?
    {
      if id != step.id {
        OthersUntouched(tc, c, step, id);
      } else if !step.Begin? {
        ActorAnswerOk(tc, c, step);
      }
    }
  }

  /** What a call has built is right for its key, because the key determines the inputs. */
  lemma {:induction false} FreshAgrees(tc: Toolchain, c: Cache, id: nat)
    requires KeysInv(tc, c) && StageInv(tc, c) && CollisionFree(tc) && id in c.calls && HasArt(c.calls[id].pc)
    ensures Agrees(tc, KeyOf(c, id), Fresh(id, c.calls[id].pc.art))
  {
    assert StageOk(tc, c, id);
    var e := Fresh(id, c.calls[id].pc.art);
    forall i: Inputs | tc.keyOf(i) == KeyOf(c, id)
      ensures tc.backend(i) == Some(ArtifactsOf(e))
    {
      assert i == c.calls[id].inputs;
    }
  }

  /** While an entry is moved away nothing is at its key. */
  lemma {:induction false} WindowIsEmpty(tc: Toolchain, c: Cache, k: Key)
    requires StageInv(tc, c)
    ensures Stash(c, k).Absent? || At(c, k).Absent?
  {
    if !Stash(c, k).Absent? {
      assert StageOk(tc, c, c.lock.value);
    }
  }

  /** A stat moves its reader only as far as both the entry and a moved-away one allow. */
  lemma {:induction false} ReaderAdvances(tc: Toolchain, c: Cache, step: Step)
    requires LockInv(c) && StageInv(tc, c) && ReaderInv(c) && Enabled(c, step) && step.Stat?
    ensures var k := KeyOf(c, step.id);
      SeenOk(NextPc(tc, c, step), At(c, k)) && SeenOk(NextPc(tc, c, step), Stash(c, k))
  {
    var k := KeyOf(c, step.id);
    WindowIsEmpty(tc, c, k);
    assert SeenOk(c.calls[step.id].pc, At(c, k));
  }

  /** Publishing, moving and partial removal never take back what a reader relies on. */
  lemma {:induction false} SeenSurvives(pc: Pc, e: Entry, s: Entry, e': Entry)
    requires SeenOk(pc, e) && SeenOk(pc, s)
    requires Shifts(e, s, e') || Complete(e')
    ensures SeenOk(pc, e')
  {
  }

  lemma {:induction false} FreshIsComplete(tc: Toolchain, c: Cache, id: nat)
    requires StageInv(tc, c) && id in c.calls && HasArt(c.calls[id].pc)
    ensures Complete(Fresh(id, c.calls[id].pc.art))
  {
    assert StageOk(tc, c, id);
  }

  lemma {:induction false} ReaderKeeps(tc: Toolchain, c: Cache, step: Step, pc: Pc, k: Key)
    requires LockInv(c) && StageInv(tc, c) && Enabled(c, step)
    requires SeenOk(pc, At(c, k)) && SeenOk(pc, Stash(c, k))
    ensures var c' := Apply(tc, c, step);
      SeenOk(pc, At(c', k)) && SeenOk(pc, Stash(c', k))
  {
    var c' := Apply(tc, c, step);
    StepSummary(tc, c, step, k);
    if Publishes(c, step, k, At(c', k)) {
      FreshIsComplete(tc, c, step.id);
    }
    SeenSurvives(pc, At(c, k), Stash(c, k), At(c', k));
  }

  lemma {:induction false} KeepsReaders(tc: Toolchain, c: Cache, step: Step)
    requires LockInv(c) && StageInv(tc, c) && ReaderInv(c) && Enabled(c, step)
    ensures ReaderInv(Apply(tc, c, step))
  {
    var c' := Apply(tc, c, step);
    forall id <- c'.calls
      ensures SeenOk(c'.calls[id].pc, At(c', KeyOf(c', id))) && SeenOk(c'.calls[id].pc, Stash(c', KeyOf(c', id)))
    {
      if id != step.id {
        OthersUntouched(tc, c, step, id);
        ReaderKeeps(tc, c, step, c.calls[id].pc, KeyOf(c, id));
      } else if step.Stat? {
        ReaderAdvances(tc, c, step);
        ReaderKeeps(tc, c, step, NextPc(tc, c, step), KeyOf(c, id));
      }
    }
  }

  lemma {:induction false} StepKeepsProtocol(tc: Toolchain, c: Cache, step: Step)
    requires Protocol(tc, c) && Enabled(c, step)
    ensures Protocol(tc, Apply(tc, c, step))
  {
    KeepsKeys(tc, c, step);
    KeepsLock(tc, c, step);
    KeepsStage(tc, c, step);
    KeepsReaders(tc, c, step);
    KeepsUnmixed(tc, c, step);
  }

  lemma {:induction false} StepKeepsInv(tc: Toolchain, c: Cache, step: Step)
    requires Inv(tc, c) && Enabled(c, step) && CollisionFree(tc)
    ensures Inv(tc, Apply(tc, c, step))
  {
    StepKeepsProtocol(tc, c, step);
    KeepsAgreement(tc, c, step);
    KeepsAnswers(tc, c, step);
  }

  lemma {:induction false} RunKeepsProtocol(tc: Toolchain, c: Cache, steps: seq<Step>)
    requires Protocol(tc, c) && CanRun(tc, c, steps)
    ensures Protocol(tc, Run(tc, c, steps))
    decreases |steps|
  {
    if |steps| > 0 {
      StepKeepsProtocol(tc, c, steps[0]);
      RunKeepsProtocol(tc, Apply(tc, c, steps[0]), steps[1..]);
    }
  }

  lemma {:induction false} RunKeepsInv(tc: Toolchain, c: Cache, steps: seq<Step>)
    requires Inv(tc, c) && CanRun(tc, c, steps) && CollisionFree(tc)
    ensures Inv(tc, Run(tc, c, steps))
    decreases |steps|
  {
    if |steps| > 0 {
      StepKeepsInv(tc, c, steps[0]);
      RunKeepsInv(tc, Apply(tc, c, steps[0]), steps[1..]);
    }
  }

  lemma {:induction false} StartedProtocol(tc: Toolchain, c: Cache)
    requires Started(c)
    ensures Protocol(tc, c)
  {
  }

  lemma {:induction false} InitialInv(tc: Toolchain, c: Cache)
    requires Initial(tc, c)
    ensures Inv(tc, c)
  {
  }

  ghost predicate RunsTo(tc: Toolchain, c: Cache, steps: seq<Step>, c': Cache) {
    CanRun(tc, c, steps) && Run(tc, c, steps) == c'
  }

  /** Some run of the machine leads here from an initial directory. */
  ghost predicate Reached(tc: Toolchain, c: Cache) {
    exists c0: Cache, steps: seq<Step> :: Initial(tc, c0) && RunsTo(tc, c0, steps, c)
  }

  lemma {:induction false} ReachedInv(tc: Toolchain, c: Cache)
    requires Reached(tc, c) && CollisionFree(tc)
    ensures Inv(tc, c)
  {
    var c0: Cache, steps: seq<Step> :| Initial(tc, c0) && RunsTo(tc, c0, steps, c);
    InitialInv(tc, c0);
    RunKeepsInv(tc, c0, steps);
  }

  lemma {:induction false} RunConcat(tc: Toolchain, c: Cache, a: seq<Step>, b: seq<Step>)
    requires CanRun(tc, c, a) && CanRun(tc, Run(tc, c, a), b)
    ensures CanRun(tc, c, a + b) && Run(tc, c, a + b) == Run(tc, Run(tc, c, a), b)
    decreases |a|
  {
    if |a| == 0 {
      assert a + b == b;
    } else {
      RunConcat(tc, Apply(tc, c, a[0]), a[1..], b);
      assert (a + b)[1..] == a[1..] + b;
    }
  }

  lemma {:induction false} RunPrepend(tc: Toolchain, c: Cache, step: Step, more: seq<Step>)
    requires Enabled(c, step) && CanRun(tc, Apply(tc, c, step), more)
    ensures CanRun(tc, c, [step] + more) && Run(tc, c, [step] + more) == Run(tc, Apply(tc, c, step), more)
  {
    assert ([step] + more)[1..] == more;
  }

  lemma {:induction false} ReachedMore(tc: Toolchain, c: Cache, steps: seq<Step>)
    requires Reached(tc, c) && CanRun(tc, c, steps)
    ensures Reached(tc, Run(tc, c, steps))
  {
    var c0: Cache, before: seq<Step> :| Initial(tc, c0) && RunsTo(tc, c0, before, c);
    RunConcat(tc, c0, before, steps);
    assert RunsTo(tc, c0, before + steps, Run(tc, c, steps));
  }

  lemma {:induction false} ReachedNext(tc: Toolchain, c: Cache, step: Step)
    requires Reached(tc, c) && Enabled(c, step)
    ensures Reached(tc, Apply(tc, c, step))
  {
    assert Run(tc, Apply(tc, c, step), []) == Apply(tc, c, step);
    assert CanRun(tc, c, [step]) && Run(tc, c, [step]) == Apply(tc, c, step);
    ReachedMore(tc, c, [step]);
  }
}
