/**
  `compile` on the cache directory itself.

  The ghost field `cache` is the state of the machine in CompileCache: every
  stat, rename, unlink and removal below is proved to be one step of it.
  `Interfere` stands for what other calls do between two file operations.
 */
module CacheDirectory {
  import opened Wrappers
  import opened Bytes
  import opened CompileKey
  import opened CompileCache
  import opened CacheInvariants
  import opened CacheTheorems

  /** c' follows from c by steps of calls other than id. */
  ghost predicate Others(tc: Toolchain, c: Cache, c': Cache, id: nat) {
    exists steps: seq<Step> :: RunsTo(tc, c, steps, c') && forall step <- steps :: step.id != id
  }

  /** Others leave a call's own state alone, and while it holds the lock also the directory. */
  lemma {:induction false} OthersLeaveMine(tc: Toolchain, c: Cache, steps: seq<Step>, id: nat)
    requires LockInv(c) && CanRun(tc, c, steps) && id in c.calls && forall step <- steps :: step.id != id
    ensures var c' := Run(tc, c, steps);
      && id in c'.calls && c'.calls[id] == c.calls[id]
      && (c.lock == Some(id) ==> c'.lock == c.lock && c'.backups == c.backups && c'.entries == c.entries)
    decreases |steps|
  {
    if |steps| > 0 {
      assert steps[0] in steps;
      OthersUntouched(tc, c, steps[0], id);
      KeepsLock(tc, c, steps[0]);
      if c.lock == Some(id) {
        LockHeldByAnother(tc, c, steps[0], id);
      }
      OthersLeaveMine(tc, Apply(tc, c, steps[0]), steps[1..], id);
    }
  }

  lemma {:induction false} LockHeldByAnother(tc: Toolchain, c: Cache, step: Step, id: nat)
    requires LockInv(c) && Enabled(c, step) && c.lock == Some(id) && step.id != id
    ensures var c' := Apply(tc, c, step);
      c'.lock == c.lock && c'.backups == c.backups && c'.entries == c.entries
  {
    LockHolderWrites(tc, c, step);
  }

  lemma {:induction false} OthersLeaveReached(tc: Toolchain, c: Cache, c': Cache, id: nat)
    requires CollisionFree(tc) && Reached(tc, c) && Others(tc, c, c', id) && id in c.calls
    ensures id in c'.calls && c'.calls[id] == c.calls[id]
    ensures c.lock == Some(id) ==> c'.lock == c.lock && c'.backups == c.backups && c'.entries == c.entries
  {
    var steps: seq<Step> :| RunsTo(tc, c, steps, c') && forall step <- steps :: step.id != id;
    ReachedInv(tc, c);
    OthersLeaveMine(tc, c, steps, id);
  }

  /** Waiting for the lock: what others do until it is free. */
  lemma {:induction false} OthersLetGo(tc: Toolchain, c: Cache, id: nat) returns (c': Cache)
    requires CollisionFree(tc) && Reached(tc, c) && id in c.calls && c.calls[id].pc.Staged? && c.lock.Some?
    ensures Reached(tc, c') && c'.lock.None? && c'.entries == c.entries && c'.backups == c.backups
    ensures id in c'.calls && c'.calls[id] == c.calls[id]
  {
    ReachedInv(tc, c);
    var steps := LockIsLetGo(tc, c, c.lock.value);
    OthersLeaveMine(tc, c, steps, id);
    ReachedMore(tc, c, steps);
    c' := Run(tc, c, steps);
  }

  /******* The lock is always let go *******/

  /** The next step of the lock holder in which whatever can fail does. */
  function GiveUpStep(id: nat, pc: Pc): Step
    requires Critical(pc)
  {
    match pc
    case Deciding(_) => Decide(id)
    case MovingAway(_) => MoveAway(id, false)
    case MovingIn(_) => MoveIn(id, false)
    case Restoring(_) => Restore(id, false)
    case Unlinking(_) => Unlink(id, false)
    case Removing(_) => RemoveFails(id)
    case Placing(_) => PlaceEntry(id, false)
    case Releasing(_) => Release(id)
  }

  function StepsLeft(pc: Pc): (n: nat)
    ensures n <= 4
  {
    if pc.Releasing? then 1 else if pc.Deciding? then 4 else if pc.MovingIn? then 3 else 2
  }

  lemma {:induction false} GivingUpLeadsOn(tc: Toolchain, c: Cache, id: nat)
    requires LockInv(c) && StageInv(tc, c) && c.lock == Some(id) && id in c.calls
    ensures Critical(c.calls[id].pc)
    ensures var step := GiveUpStep(id, c.calls[id].pc);
      && Enabled(c, step)
      && var c' := Apply(tc, c, step);
         && c'.entries == c.entries && c'.backups == c.backups && id in c'.calls
         && if c.calls[id].pc.Releasing? then c'.lock.None?
            else
              && c'.lock == Some(id) && Critical(c'.calls[id].pc)
              && StepsLeft(c'.calls[id].pc) < StepsLeft(c.calls[id].pc)
  {
    assert StageOk(tc, c, id);
  }

  /** From every state in which the lock is held, its holder alone can run until the lock is free. */
  lemma {:induction false} LockIsLetGo(tc: Toolchain, c: Cache, holder: nat) returns (steps: seq<Step>)
    requires Protocol(tc, c) && c.lock == Some(holder)
    ensures CanRun(tc, c, steps) && |steps| <= StepsLeft(c.calls[holder].pc)
    ensures forall step <- steps :: step.id == holder
    ensures var c' := Run(tc, c, steps); c'.lock.None? && c'.entries == c.entries && c'.backups == c.backups
    decreases StepsLeft(c.calls[holder].pc)
  {
    GivingUpLeadsOn(tc, c, holder);
    var step := GiveUpStep(holder, c.calls[holder].pc);
    var c' := Apply(tc, c, step);
    StepKeepsProtocol(tc, c, step);
    var more: seq<Step> := [];
    if c'.lock.Some? {
      more := LockIsLetGo(tc, c', holder);
    }
    RunPrepend(tc, c, step, more);
    steps := [step] + more;
  }

  class CacheDir {
    const digest: ByteString -> Key
    const tc: Toolchain
    var entries: map<Key, Entry>
    var locked: Option<nat>
    var moved: map<nat, Entry>
    ghost var cache: Cache

    ghost predicate Valid()
      reads this
    {
      && cache.entries == entries && cache.lock == locked && cache.backups == moved
      && CollisionFree(tc) && Reached(tc, cache)
    }

    /** Call id, made for key, has got as far as pc. */
    ghost predicate Mine(id: nat, inputs: Inputs, key: Key, force: bool, pc: Pc)
      reads this
    {
      id in cache.calls && cache.calls[id] == Call(inputs, key, force, pc)
    }

    /** The entry at key is complete, and what the backend makes of these inputs. */
    ghost predicate Right(inputs: Inputs, key: Key)
      reads this
    {
      Complete(Lookup(key)) && tc.backend(inputs) == Some(ArtifactsOf(Lookup(key)))
    }

    function Lookup(key: Key): Entry
      reads this
    {
      if key in entries then entries[key] else Absent
    }

    /** Keys are digests of the framed inputs. */
    ghost predicate Keyed() {
      forall i: Inputs :: tc.keyOf(i) == digest(KeyBytes(i))
    }

    constructor (digest: ByteString -> Key, backend: Inputs -> Option<Artifacts>, entries: map<Key, Entry>)
      requires forall a: ByteString, b: ByteString :: digest(a) == digest(b) ==> a == b
      requires Initial(Toolchain((i: Inputs) => digest(KeyBytes(i)), backend), Cache(entries, None, map[], map[]))
      ensures Valid() && Keyed() && tc.backend == backend && this.entries == entries && cache.calls == map[]
    {
      var tools := Toolchain((i: Inputs) => digest(KeyBytes(i)), backend);
      this.digest, this.tc, this.entries, locked, moved := digest, tools, entries, None, map[];
      cache := Cache(entries, None, map[], map[]);
      new;
      FramedKeysDiffer(digest, backend);
      assert RunsTo(tc, cache, [], cache);
    }

    method KeyFor(inputs: Inputs) returns (key: Key)
      requires Keyed()
      ensures key == tc.keyOf(inputs)
    {
      key := ComputeHash(digest, CacheInput(inputs), inputs.arch, inputs.version, inputs.args);
    }

    /** What other calls may do between two operations of call id. */
    method Interfere(ghost id: nat)
      requires Valid()
      modifies this
      ensures Valid() && Others(tc, old(cache), cache, id)
    {
      assert RunsTo(tc, cache, [], cache);
    }

    method InterfereMine(ghost id: nat)
      requires Valid() && id in cache.calls
      modifies this
      ensures Valid() && id in cache.calls && cache.calls[id] == old(cache).calls[id]
      ensures old(locked) == Some(id) ==> locked == Some(id) && moved == old(moved) && entries == old(entries)
    {
      ghost var c := cache;
      Interfere(id);
      OthersLeaveReached(tc, c, cache, id);
    }

    /** Records that the fields have just taken one step of the machine. */
    ghost method Took(step: Step)
      requires CollisionFree(tc) && Reached(tc, cache) && Enabled(cache, step)
      requires entries == Apply(tc, cache, step).entries && locked == Apply(tc, cache, step).lock
      requires moved == Apply(tc, cache, step).backups
      modifies this`cache
      ensures Valid() && cache == Apply(tc, old(cache), step)
    {
      ReachedNext(tc, cache, step);
      cache := Apply(tc, cache, step);
    }

    /** Makes e what is at key. */
    method Put(key: Key, e: Entry)
      modifies this`entries
      ensures Lookup(key) == e
      ensures entries == if old(Lookup(key)) == e then old(entries) else old(entries)[key := e]
    {
      if Lookup(key) != e {
        entries := entries[key := e];
      }
    }

    /** One stat of the probe of call id, after whatever others have done: `yes` lets it go on. */
    method Stat(ghost id: nat, ghost inputs: Inputs, key: Key, pc: Pc) returns (yes: bool)
      requires Valid() && Mine(id, inputs, key, false, pc) && Probing(pc)
      modifies this
      ensures Valid() && Mine(id, inputs, key, false, if yes then NextProbe(pc) else Building)
      ensures yes && pc.ProbeInfoSize? ==> Right(inputs, key)
    {
      InterfereMine(id);
      yes := match pc
        case ProbeDir => IsDir(Lookup(key))
        case ProbeJson => JsonOf(Lookup(key)).File?
        case ProbeJsonSize => !SizeIsZero(JsonOf(Lookup(key)))
        case ProbeInfo => InfoOf(Lookup(key)).File?
        case _ => !SizeIsZero(InfoOf(Lookup(key)));
      ghost var c := cache;
      Took(Step.Stat(id));
      if yes && pc.ProbeInfoSize? {
        ReachedAnswerIsRight(tc, c, Step.Stat(id), id);
      }
    }

    /** `_cache_hit` without the lock: up to five stats, with anything in between. */
    method CacheHit(ghost id: nat, ghost inputs: Inputs, key: Key) returns (hit: bool)
      requires Valid() && Mine(id, inputs, key, false, ProbeDir)
      modifies this
      ensures Valid()
      ensures hit ==> Mine(id, inputs, key, false, Returned(Hit)) && Right(inputs, key)
      ensures !hit ==> Mine(id, inputs, key, false, Building)
    {
      hit := Stat(id, inputs, key, ProbeDir);
      if hit {
        hit := Stat(id, inputs, key, ProbeJson);
      }
      if hit {
        hit := Stat(id, inputs, key, ProbeJsonSize);
      }
      if hit {
        hit := Stat(id, inputs, key, ProbeInfo);
      }
      if hit {
        hit := Stat(id, inputs, key, ProbeInfoSize);
      }
    }

    /** Waits for the directory lock: others run until it is free. */
    method AwaitLock(ghost id: nat)
      requires Valid() && id in cache.calls && cache.calls[id].pc.Staged?
      modifies this
      ensures Valid() && locked.None? && id in cache.calls && cache.calls[id] == old(cache).calls[id]
    {
      InterfereMine(id);
      if locked.Some? {
        cache := OthersLetGo(tc, cache, id);
        locked := None;
      }
    }

    /** `_publish_cache`: `found` is what was at the key when the lock was taken. */
    method PublishCache(id: nat, ghost inputs: Inputs, key: Key, art: Artifacts, force: bool)
      returns (answer: Answer, ghost found: Entry)
      requires Valid() && Mine(id, inputs, key, force, Staged(art))
      modifies this
      ensures Valid() && Mine(id, inputs, key, force, Returned(answer))
      ensures answer == Rival <==> !force && Complete(found)
      ensures answer == Published ==> Lookup(key) == Fresh(id, art)
      ensures answer == Rival ==> Lookup(key) == found
      ensures answer == Failed ==> Lookup(key).Absent? || Lookup(key) == found || !Complete(found)
      ensures answer != Failed ==> Right(inputs, key)
      ensures answer != Hit
    {
      AwaitLock(id);
      locked := Some(id);
      Took(Acquire(id));
      InterfereMine(id);
      found := Lookup(key);
      var populated := !force && Complete(Lookup(key));
      var occupied := !Lookup(key).Absent?;
      Took(Decide(id));
      if populated {
        answer := Rival;
      } else if force && occupied {
        answer := ReplaceCachedEntry(id, inputs, key, art);
      } else {
        answer := PublishHere(id, inputs, key, art, force);
      }
      answer := ReleaseLock(id, inputs, key, force, answer);
    }

    method ReleaseLock(ghost id: nat, ghost inputs: Inputs, key: Key, ghost force: bool, result: Answer)
      returns (answer: Answer)
      requires Valid() && Mine(id, inputs, key, force, Releasing(result)) && locked == Some(id)
      modifies this
      ensures Valid() && Mine(id, inputs, key, force, Returned(answer)) && answer == result
      ensures Lookup(key) == old(Lookup(key))
      ensures answer != Failed ==> Right(inputs, key)
    {
      InterfereMine(id);
      answer := result;
      locked := None;
      ghost var c := cache;
      Took(Release(id));
      if answer != Failed {
        ReachedAnswerIsRight(tc, c, Release(id), id);
      }
    }

    /** `_replace_cached_entry`, the lock being held. */
    method ReplaceCachedEntry(id: nat, ghost inputs: Inputs, key: Key, art: Artifacts) returns (answer: Answer)
      requires Valid() && Mine(id, inputs, key, true, MovingAway(art)) && locked == Some(id)
      modifies this
      ensures Valid() && Mine(id, inputs, key, true, Releasing(answer)) && locked == Some(id)
      ensures answer == Published ==> Lookup(key) == Fresh(id, art)
      ensures answer == Failed ==> Lookup(key) == old(Lookup(key)) || Lookup(key).Absent?
      ensures answer == Published || answer == Failed
    {
      InterfereMine(id);
      var previous := Lookup(key);
      var away: bool := *;
      if away {
        moved := moved[id := previous];
        Put(key, Absent);
      }
      Took(MoveAway(id, away));
      if !away {
        return Failed;
      }
      answer := MoveIntoPlace(id, inputs, key, art, previous);
    }

    /** Renames the new entry into place; if that fails, renames the previous one back. */
    method MoveIntoPlace(id: nat, ghost inputs: Inputs, key: Key, art: Artifacts, previous: Entry)
      returns (answer: Answer)
      requires Valid() && Mine(id, inputs, key, true, MovingIn(art)) && locked == Some(id)
      requires id in moved && moved[id] == previous && Lookup(key).Absent?
      modifies this
      ensures Valid() && Mine(id, inputs, key, true, Releasing(answer)) && locked == Some(id)
      ensures answer == Published ==> Lookup(key) == Fresh(id, art)
      ensures answer == Failed ==> Lookup(key) == previous || Lookup(key).Absent?
      ensures answer == Published || answer == Failed
    {
      InterfereMine(id);
      var placed: bool := *;
      if placed {
        moved := moved - {id};
        Put(key, Fresh(id, art));
      }
      Took(MoveIn(id, placed));
      answer := Published;
      if !placed {
        PutBack(id, inputs, key, art, previous);
        answer := Failed;
      }
    }

    method PutBack(id: nat, ghost inputs: Inputs, key: Key, ghost art: Artifacts, previous: Entry)
      requires Valid() && Mine(id, inputs, key, true, Restoring(art)) && locked == Some(id)
      requires id in moved && moved[id] == previous && Lookup(key).Absent?
      modifies this
      ensures Valid() && Mine(id, inputs, key, true, Releasing(Failed)) && locked == Some(id)
      ensures Lookup(key) == previous || Lookup(key).Absent?
    {
      InterfereMine(id);
      var restored: bool := *;
      if restored {
        moved := moved - {id};
        Put(key, previous);
      }
      Took(Restore(id, restored));
    }

    /** The unforced end of `_publish_cache`: clears an incomplete entry away and renames the new one into place. */
    method PublishHere(id: nat, ghost inputs: Inputs, key: Key, art: Artifacts, ghost force: bool)
      returns (answer: Answer)
      requires Valid() && locked == Some(id)
      requires Mine(id, inputs, key, force, if Lookup(key).Folder? then Removing(art) else Unlinking(art))
      modifies this
      ensures Valid() && Mine(id, inputs, key, force, Releasing(answer)) && locked == Some(id)
      ensures answer == Published ==> Lookup(key) == Fresh(id, art)
      ensures answer == Published || answer == Failed
      ensures Lookup(key).Absent? || !Complete(Lookup(key)) || answer == Published
    {
      var cleared;
      if !Lookup(key).Folder? {
        cleared := UnlinkEntry(id, inputs, key, art, force);
      } else {
        cleared := RemoveTree(id, inputs, key, art, force);
      }
      if !cleared {
        return Failed;
      }
      InterfereMine(id);
      var placed: bool := *;
      if placed {
        Put(key, Fresh(id, art));
      }
      Took(PlaceEntry(id, placed));
      answer := if placed then Published else Failed;
    }

    method UnlinkEntry(ghost id: nat, ghost inputs: Inputs, key: Key, ghost art: Artifacts, ghost force: bool)
      returns (cleared: bool)
      requires Valid() && locked == Some(id) && Mine(id, inputs, key, force, Unlinking(art))
      modifies this
      ensures Valid() && locked == Some(id)
      ensures Mine(id, inputs, key, force, if cleared then Placing(art) else Releasing(Failed))
      ensures if cleared then Lookup(key).Absent? else !Complete(Lookup(key))
    {
      InterfereMine(id);
      cleared := *;
      ghost var c := cache;
      if cleared {
        Put(key, Absent);
      } else {
        NotComplete(tc, c, id);
      }
      Took(Unlink(id, cleared));
    }

    /** `rmtree`: removes both artifacts, in either order, and the directory; it may fail anywhere on the way. */
    method RemoveTree(ghost id: nat, ghost inputs: Inputs, key: Key, ghost art: Artifacts, ghost force: bool)
      returns (cleared: bool)
      requires Valid() && locked == Some(id) && Mine(id, inputs, key, force, Removing(art))
      modifies this
      ensures Valid() && locked == Some(id)
      ensures Mine(id, inputs, key, force, if cleared then Placing(art) else Releasing(Failed))
      ensures if cleared then Lookup(key).Absent? else !Complete(Lookup(key))
    {
      var jsonFirst: bool := *;
      var i := 0;
      while i < 2
        invariant 0 <= i <= 2 && Valid() && locked == Some(id) && Mine(id, inputs, key, force, Removing(art))
        invariant i > 0 ==> Lookup(key).Folder?
        invariant i > 0 ==> if jsonFirst then Lookup(key).json.Missing? else Lookup(key).info.Missing?
        invariant i > 1 ==> Lookup(key) == Folder(Missing, Missing)
      {
        InterfereMine(id);
        cleared := *;
        if !cleared {
          RemovalFails(id, inputs, key, art, force);
          return;
        }
        NotComplete(tc, cache, id);
        if jsonFirst == (i == 0) {
          Put(key, Folder(Missing, Lookup(key).info));
          Took(RemoveJson(id));
        } else {
          Put(key, Folder(Lookup(key).json, Missing));
          Took(RemoveInfo(id));
        }
        i := i + 1;
      }
      InterfereMine(id);
      cleared := *;
      if cleared {
        Put(key, Absent);
        Took(RemoveFolder(id));
      } else {
        RemovalFails(id, inputs, key, art, force);
      }
    }

    ghost method RemovalFails(id: nat, inputs: Inputs, key: Key, art: Artifacts, force: bool)
      requires Valid() && locked == Some(id) && Mine(id, inputs, key, force, Removing(art))
      modifies this`cache
      ensures Valid() && Mine(id, inputs, key, force, Releasing(Failed)) && !Complete(Lookup(key))
    {
      NotComplete(tc, cache, id);
      Took(RemoveFails(id));
    }

    /** `_real_compile`: runs the backend on the snapshot that the key was computed from, and publishes. */
    method RealCompile(id: nat, inputs: Inputs, key: Key, force: bool) returns (answer: Answer)
      requires Valid() && Mine(id, inputs, key, force, Building)
      modifies this
      ensures Valid() && Mine(id, inputs, key, force, Returned(answer)) && answer != Hit
      ensures answer != Failed ==> Right(inputs, key)
      ensures tc.backend(inputs).None? ==> answer == Failed
      ensures force ==> answer != Rival
    {
      InterfereMine(id);
      var staged: bool := *;
      var art := tc.backend(inputs);
      Took(Build(id, staged));
      if !staged || art.None? || art.value.json == [] || art.value.info == [] {
        return Failed;
      }
      ghost var found;
      answer, found := PublishCache(id, inputs, key, art.value, force);
    }

    /** `compile`, from the moment the preprocessed snapshot is taken. */
    method Compile(id: nat, inputs: Inputs, force: bool) returns (answer: Answer)
      requires Valid() && Keyed() && id !in cache.calls && id > 0
      modifies this
      ensures Valid()
      ensures answer != Failed ==> Right(inputs, tc.keyOf(inputs))
      ensures force ==> answer == Published || answer == Failed
    {
      var key := KeyFor(inputs);
      Took(Begin(id, inputs, force));
      var hit := false;
      if !force {
        hit := CacheHit(id, inputs, key);
      }
      if hit {
        answer := Hit;
      } else {
        answer := RealCompile(id, inputs, key, force);
      }
    }
  }

  lemma {:induction false} NotComplete(tc: Toolchain, c: Cache, id: nat)
    requires CollisionFree(tc) && Reached(tc, c)
    requires id in c.calls && (c.calls[id].pc.Removing? || c.calls[id].pc.Unlinking?)
    ensures !Complete(At(c, KeyOf(c, id))) && (At(c, KeyOf(c, id)).Folder? <==> c.calls[id].pc.Removing?)
  {
    ReachedInv(tc, c);
    assert StageOk(tc, c, id);
  }

  function NextProbe(pc: Pc): Pc
    requires Probing(pc)
  {
    match pc
    case ProbeDir => ProbeJson
    case ProbeJson => ProbeJsonSize
    case ProbeJsonSize => ProbeInfo
    case ProbeInfo => ProbeInfoSize
    case _ => Returned(Hit)
  }
}
