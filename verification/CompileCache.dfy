/**
  The content-addressed compile cache as a state machine.

  Calls of `compile` run concurrently.  The lock-free probe does one stat per
  step; a publisher holds the directory lock and changes the cache directory by
  one rename, unlink or removal per step, each of which may fail.
 */
module CompileCache {
  import opened Wrappers
  import opened Bytes
  import opened CompileKey

  type Key = ByteString

  datatype Artifacts = Artifacts(json: ByteString, info: ByteString)

  /** The cache key of a call's inputs, and the backend: both deterministic functions. */
  datatype Toolchain = Toolchain(keyOf: Inputs -> Key, backend: Inputs -> Option<Artifacts>)

  /** One artifact path inside an entry; `writer` is the call that wrote it, 0 for what was there before. */
  datatype Item = Missing | Irregular | File(data: ByteString, writer: nat)

  /** What the entry's own path holds: a directory, a link to one, something else, or nothing. */
  datatype Entry = Absent | Other | Folder(json: Item, info: Item) | Link(json: Item, info: Item)

  predicate IsDir(e: Entry) {
    e.Folder? || e.Link?
  }

  function JsonOf(e: Entry): Item {
    if IsDir(e) then e.json else Missing
  }

  function InfoOf(e: Entry): Item {
    if IsDir(e) then e.info else Missing
  }

  predicate NonEmpty(i: Item) {
    i.File? && |i.data| > 0
  }

  predicate Complete(e: Entry) {
    NonEmpty(JsonOf(e)) && NonEmpty(InfoOf(e))
  }

  function ArtifactsOf(e: Entry): Artifacts
    requires Complete(e)
  {
    Artifacts(JsonOf(e).data, InfoOf(e).data)
  }

  datatype Answer = Hit | Published | Rival | Failed

  datatype Pc =
    | ProbeDir | ProbeJson | ProbeJsonSize | ProbeInfo | ProbeInfoSize // lock-free
    | Building
    | Staged(art: Artifacts)       // waiting for the lock
    | Deciding(art: Artifacts)     // from here to Releasing the lock is held
    | MovingAway(art: Artifacts)
    | MovingIn(art: Artifacts)
    | Restoring(art: Artifacts)
    | Unlinking(art: Artifacts)
    | Removing(art: Artifacts)
    | Placing(art: Artifacts)
    | Releasing(answer: Answer)
    | Returned(answer: Answer)

  datatype Call = Call(inputs: Inputs, key: Key, force: bool, pc: Pc)

  datatype Cache = Cache(
    entries: map<Key, Entry>,
    lock: Option<nat>,
    calls: map<nat, Call>,
    backups: map<nat, Entry>) // by call: the entry a forced replacement has moved away

  function At(c: Cache, k: Key): Entry {
    if k in c.entries then c.entries[k] else Absent
  }

  function KeyOf(c: Cache, id: nat): Key
    requires id in c.calls
  {
    c.calls[id].key
  }

  /** What call `id` publishes. */
  function Fresh(id: nat, art: Artifacts): Entry {
    Folder(File(art.json, id), File(art.info, id))
  }

  datatype Step =
    | Begin(id: nat, inputs: Inputs, force: bool)
    | Stat(id: nat)
    | Build(id: nat, ok: bool)
    | Acquire(id: nat)
    | Decide(id: nat)
    | MoveAway(id: nat, ok: bool) | MoveIn(id: nat, ok: bool) | Restore(id: nat, ok: bool)
    | Unlink(id: nat, ok: bool)
    | RemoveJson(id: nat) | RemoveInfo(id: nat) | RemoveFolder(id: nat) | RemoveFails(id: nat)
    | PlaceEntry(id: nat, ok: bool)
    | Release(id: nat)

  predicate Probing(pc: Pc) {
    pc.ProbeDir? || pc.ProbeJson? || pc.ProbeJsonSize? || pc.ProbeInfo? || pc.ProbeInfoSize?
  }

  predicate Enabled(c: Cache, step: Step) {
    match step
    case Begin(id, _, _) => id !in c.calls && id > 0
    case Stat(id) => id in c.calls && Probing(c.calls[id].pc)
    case Build(id, _) => id in c.calls && c.calls[id].pc.Building?
    case Acquire(id) => id in c.calls && c.calls[id].pc.Staged? && c.lock.None?
    case Decide(id) => id in c.calls && c.calls[id].pc.Deciding?
    case MoveAway(id, _) => id in c.calls && c.calls[id].pc.MovingAway?
    case MoveIn(id, _) => id in c.calls && c.calls[id].pc.MovingIn?
    case Restore(id, _) => id in c.calls && id in c.backups && c.calls[id].pc.Restoring?
    case Unlink(id, _) => id in c.calls && c.calls[id].pc.Unlinking?
    case RemoveJson(id) => id in c.calls && c.calls[id].pc.Removing? && At(c, KeyOf(c, id)).Folder?
    case RemoveInfo(id) => id in c.calls && c.calls[id].pc.Removing? && At(c, KeyOf(c, id)).Folder?
    case RemoveFolder(id) =>
      id in c.calls && c.calls[id].pc.Removing? && At(c, KeyOf(c, id)) == Folder(Missing, Missing)
    case RemoveFails(id) => id in c.calls && c.calls[id].pc.Removing?
    case PlaceEntry(id, _) => id in c.calls && c.calls[id].pc.Placing?
    case Release(id) => id in c.calls && c.calls[id].pc.Releasing?
  }

  /** The second stat of an artifact finds nothing to use; a file that has vanished is caught and counts as no. */
  predicate SizeIsZero(i: Item) {
    i.Missing? || (i.File? && i.data == [])
  }

  /** The next probe stat, or the answer. */
  function Probe(e: Entry, pc: Pc): Pc
    requires Probing(pc)
  {
    match pc
    case ProbeDir => if IsDir(e) then ProbeJson else Building
    case ProbeJson => if JsonOf(e).File? then ProbeJsonSize else Building
    case ProbeJsonSize => if SizeIsZero(JsonOf(e)) then Building else ProbeInfo
    case ProbeInfo => if InfoOf(e).File? then ProbeInfoSize else Building
    case _ => if SizeIsZero(InfoOf(e)) then Building else Returned(Hit)
  }

  /** The branch taken under the lock. */
  function Branch(e: Entry, force: bool, art: Artifacts): Pc {
    if !force && Complete(e) then Releasing(Rival)
    else if force && !e.Absent? then MovingAway(art)
    else if !e.Folder? then Unlinking(art)
    else Removing(art)
  }

  /** Where the acting call goes next. */
  function NextPc(tc: Toolchain, c: Cache, step: Step): Pc
    requires Enabled(c, step)
  {
    match step
    case Begin(_, _, force) => if force then Building else ProbeDir
    case Stat(id) => Probe(At(c, KeyOf(c, id)), c.calls[id].pc)
    case Build(id, ok) =>
      var art := tc.backend(c.calls[id].inputs);
      if ok && art.Some? && |art.value.json| > 0 && |art.value.info| > 0 then Staged(art.value) else Returned(Failed)
    case Acquire(id) => Deciding(c.calls[id].pc.art)
    case Decide(id) => Branch(At(c, KeyOf(c, id)), c.calls[id].force, c.calls[id].pc.art)
    case MoveAway(id, ok) => if ok then MovingIn(c.calls[id].pc.art) else Releasing(Failed)
    case MoveIn(id, ok) => if ok then Releasing(Published) else Restoring(c.calls[id].pc.art)
    case Restore(_, _) => Releasing(Failed)
    case Unlink(id, ok) => if ok then Placing(c.calls[id].pc.art) else Releasing(Failed)
    case RemoveJson(id) => c.calls[id].pc
    case RemoveInfo(id) => c.calls[id].pc
    case RemoveFolder(id) => Placing(c.calls[id].pc.art)
    case RemoveFails(_) => Releasing(Failed)
    case PlaceEntry(_, ok) => Releasing(if ok then Published else Failed)
    case Release(id) => Returned(c.calls[id].pc.answer)
  }

  function NextCall(tc: Toolchain, c: Cache, step: Step): Call
    requires Enabled(c, step)
  {
    if step.Begin? then Call(step.inputs, tc.keyOf(step.inputs), step.force, NextPc(tc, c, step))
    else c.calls[step.id].(pc := NextPc(tc, c, step))
  }

  /** What the step leaves at the path of its call's key. */
  function NextEntry(c: Cache, step: Step): Entry
    requires Enabled(c, step) && !step.Begin?
  {
    var e := At(c, KeyOf(c, step.id));
    match step
    case MoveAway(_, true) => Absent
    case MoveIn(id, true) => Fresh(id, c.calls[id].pc.art)
    case Restore(id, true) => c.backups[id]
    case Unlink(_, true) => Absent
    case RemoveJson(_) => Folder(Missing, e.info)
    case RemoveInfo(_) => Folder(e.json, Missing)
    case RemoveFolder(_) => Absent
    case PlaceEntry(id, true) => Fresh(id, c.calls[id].pc.art)
    case _ => e
  }

  function NextBackups(c: Cache, step: Step): map<nat, Entry>
    requires Enabled(c, step)
  {
    match step
    case MoveAway(id, true) => c.backups[id := At(c, KeyOf(c, id))]
    case MoveIn(id, true) => c.backups - {id}
    case Restore(id, true) => c.backups - {id}
    case _ => c.backups
  }

  function Apply(tc: Toolchain, c: Cache, step: Step): Cache
    requires Enabled(c, step)
  {
    Cache(
      if step.Begin? || NextEntry(c, step) == At(c, KeyOf(c, step.id)) then c.entries
      else c.entries[KeyOf(c, step.id) := NextEntry(c, step)],
      if step.Acquire? then Some(step.id) else if step.Release? then None else c.lock,
      c.calls[step.id := NextCall(tc, c, step)],
      NextBackups(c, step))
  }

  predicate CanRun(tc: Toolchain, c: Cache, steps: seq<Step>)
    decreases |steps|
  {
    |steps| == 0 || (Enabled(c, steps[0]) && CanRun(tc, Apply(tc, c, steps[0]), steps[1..]))
  }

  function Run(tc: Toolchain, c: Cache, steps: seq<Step>): Cache
    requires CanRun(tc, c, steps)
    decreases |steps|
  {
    if |steps| == 0 then c else Run(tc, Apply(tc, c, steps[0]), steps[1..])
  }
}
