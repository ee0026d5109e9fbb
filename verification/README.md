# p4net, modelled and verified

p4net builds networks of hosts and P4 switches, compiles P4 programs through a
shared cache, and controls the switches over P4Runtime.  This project models
five of its parts in Dafny and proves what they are meant to guarantee, over
every run, every interleaving, every width and every input.

| part | files |
|---|---|
| P4Runtime stream lifecycle of the sync client | `StreamLifecycle.dfy`, `ClientLifecycle.dfy` |
| start and stop of a network, its resources and the veth rollback | `StartStop.dfy`, `StartStopTheorems.dfy`, `ReentrantStop.dfy`, `KernelModel.dfy`, `VethModel.dfy`, `NetworkResources.dfy` |
| content-addressed compile cache | `CompileKey.dfy`, `CompileCache.dfy`, `CacheInvariants.dfy`, `CacheTheorems.dfy`, `CacheDirectory.dfy` |
| value codec, match and action encoding, table entries | `Bits.dfy`, `BigEndian.dfy`, `Literals.dfy`, `Codec.dfy`, `Mappings.dfy`, `MatchEncoding.dfy`, `MatchMeaning.dfy`, `NormalForm.dfy`, `TablePriority.dfy`, `Actions.dfy`, `TableEntries.dfy` |
| topology building, validation and wiring | `Impairments.dfy`, `TopologyModel.dfy`, `Ports.dfy`, `TopologyBuilder.dfy`, `Wiring.dfy` |
| shared base | `Wrappers.dfy`, `Bytes.dfy` |

`dafny verify dfyconfig.toml` checks everything.

## How the model is built

**Protocols.**  Each of the three protocols is a state machine: a `Step`
datatype, `Enabled` and `Apply`, and runs as sequences of steps.  A section that
the source runs under a lock is one step; every unlocked read or file operation
is a step of its own.  Any number of threads or calls take part.  `ReentrantStop`
extends the start/stop machine by calls of `stop` from inside a finisher's own
`_do_stop`.  The theorems
speak about the states that runs lead to, and follow from inductive invariants.

**Classes.**  Code that updates fields stays imperative.  `P4RuntimeClient` and
`CacheDir` have the source's methods on their own fields; a ghost field holds the
state of the machine, and each lock-held section or file operation is proved to be exactly one step
of it.  `Interfere` stands for anything that other threads may do in between.
`VethPair`, `NetworkResources.Network`, `P4InfoIndex`, `TableClient`, `Topology`
and `LinkWiring` are proved against specification functions or relations on
the old and new state, and lemmas prove what those mean.  The start/stop machine
counts the network's resources in `held`; `NetworkResources.Network.Registered`
is that count on the registries, and what the machine sets to nothing at the end of
`_do_stop` and of a rollback is nothing there (`DoStop`, `RunStart`).  As in the
machine, the starting thread may call `stop` itself anywhere in `_do_start`.  `Wiring.PlannedNamesDiffer` relates the
topology to the namespaces and names that the resources are made with.

**The outside.**  RPCs, netlink, processes and file operations may fail at every
call: a call that adds, moves or renames an interface or adds a namespace may also
take effect and then raise, a netlink socket may fail to close, and a directory
removal may stop half way.  The digest of the cache key, the backend, the rounding of
durations with a fraction, and the library's parsing of IPv6 and CIDR text are given
functions.

**Findings.**

- Two overlapping `connect` calls can lose a channel: the second open replaces the
  fields of a first one that is not yet connected, whose channel is then never
  closed and whose caller is never woken (`OverlapLeaksAChannel`).  Channels are
  leaked in exactly this way (`LeakedExactlyByReplacing`); with at most one connect
  in flight everything is closed exactly once (`SoloClosesEverything`).
- The teardown that `connect` makes before its first section (client.py:188-189) is
  not guarded by a stream: acting on what it read earlier, it can end a connection
  that another `connect` has returned since (`LateResetDisconnects`).  A connection
  ends by this, by `disconnect` and by the end of its own stream, and in no other way
  (`ConnectionEndsExactly`).
- A finisher clears `_stop_thread_id` after its future is resolved, when a finisher of
  the next future may already have recorded itself (orchestrator.py:370-390).  A `stop`
  called from inside that one's `_do_stop` then waits for its own thread and never
  returns (`InnerCallCanWaitForItself`); otherwise the record stands
  (`RecordedUnlessCleared`) and the call returns (`ReturnsExactly`).
- A netlink socket that fails to close after a veth pair was made leaves the pair in
  place, not marked as created and not registered (link.py:115-130,
  `FailedCloseLeavesPair`); an addition that takes effect and then raises leaves it in
  the root namespace, as both additions are made outside the `try`
  (`LateErrorLeavesPair`).  An interface is left over in these two cases, when the
  rollback is refused its deletion, and in no other (`VethPair.Create`,
  `Network.CreateApart`, `Network.WireLink`).
- A delay or jitter with an `_extra` part is summed to a text that may end in `ns`,
  which `tc` is not given (tc.py:28): an accepted link whose sum is not a positive
  number of microseconds, such as `0ms` and `0ms`, makes `start` fail
  (`AddingNothingIsRefused`).  Besides texts that are no rate or time, this and a loss
  above 100 are all that can go wrong with an accepted link (`AppliesExactly`).
- The text printed for a match field encodes back to that field for exact,
  optional and LPM fields and for no other kind, although `decode_match` is
  documented as the inverse of `encode_match` (`PrintedFieldReencodes`).
- At width 128 a printed address with three dots in it is taken for an IPv4 literal
  and refused (`Ipv6ReadsBack`); with a library that prints IPv4-mapped addresses in
  mixed notation, `::ffff:1.2.3.4` is one (`MappedAddressIsRefused`).
- Two automatic ports collide exactly in a self-loop, which `add_link` accepts and
  only `validate` refuses (`AutomaticPortsCollide`, `Topology.AddLink`).

## Model

| member | source | states |
|---|---|---|
| `StreamLifecycle.RunKeepsInv` | src/p4net/control/client.py:186-332 | every run of connects, disconnects and consumers of all generations keeps the invariant of the client's fields, its waiters and its channels |
| `StreamLifecycle.StaleStepsChangeNothing` | src/p4net/control/client.py:221-239 | once a newer generation is open, no step of an older stream's consumer and no late timeout, commit or failure of its connect changes any shared field |
| `StreamLifecycle.ConnectedIsLive` | src/p4net/control/client.py:190-207 | whenever the lock is free, connected implies not closed, with channel, queue and stream of one and the same generation |
| `StreamLifecycle.CommitAcceptsExactly` | src/p4net/control/client.py:226-238 | connect returns connected if and only if its own stream is current, no error is recorded, and the latest answer received on that very stream had status 0 |
| `StreamLifecycle.OnlyCommitConnects` | src/p4net/control/client.py:226-238 | nothing but an accepting commit ever makes the client connected |
| `StreamLifecycle.ConnectionEndsExactly` | src/p4net/control/client.py:186-332 | in every reachable connected state, a step ends the connection if and only if it is a disconnect, the unguarded teardown of a late connect, or the end of the current stream |
| `StreamLifecycle.LateResetDisconnects` | src/p4net/control/client.py:186-194 | a ten-step run in which a connect that read a half-open client tears down the connection which another connect has returned meanwhile |
| `StreamLifecycle.TeardownWakes` | src/p4net/control/client.py:259-291 | tearing down a generation that is not yet connected sets that generation's event, leaves an error and cancels its stream |
| `StreamLifecycle.WaitersWake` | src/p4net/control/client.py:221-225 | a waiting connect whose stream is gone has been woken, unless a later open replaced its fields |
| `StreamLifecycle.OverwrittenNeverWakes` | src/p4net/control/client.py:194-199 | a connect whose fields were replaced before it was woken is never woken afterwards |
| `StreamLifecycle.ChannelsClosedOnce` | src/p4net/control/client.py:278-289 | when no channel is held, every channel ever opened has been closed exactly once, except the replaced ones, which were never closed |
| `StreamLifecycle.LeakedExactlyByReplacing` | src/p4net/control/client.py:190-199 | at the end of any run that holds no channel, a channel was never closed if and only if some step of the run was an open that found the client unconnected and holding that very channel |
| `StreamLifecycle.SoloClosesEverything` | src/p4net/control/client.py:186-253 | with at most one connect in flight, an idle unconnected client holds no channel and each channel was closed exactly once |
| `StreamLifecycle.OverlapLeaksAChannel` | src/p4net/control/client.py:188-199 | a seven-step run of two overlapping connects after which the first channel is neither held nor closed and its connect sleeps |
| `ClientLifecycle.P4RuntimeClient.Connect` | src/p4net/control/client.py:186-253 | connect, with interference between its sections: it returns connected only on its own live, freshly accepted stream; when it raises, its stream is no longer the current one |
| `ClientLifecycle.P4RuntimeClient.Teardown` | src/p4net/control/client.py:259-291 | the teardown section maps the fields exactly as the machine's teardown does, and does nothing for another expected stream |
| `ClientLifecycle.P4RuntimeClient.Open` | src/p4net/control/client.py:190-219 | the first section is one step of the machine: it opens a fresh generation, finds the client connected, or tears down after a refused stream |
| `ClientLifecycle.P4RuntimeClient.Commit` | src/p4net/control/client.py:226-253 | the second section is one step of the machine, accepts only an answer of its own stream, and otherwise names the error raised |
| `ClientLifecycle.P4RuntimeClient.ConsumeStream` | src/p4net/control/client.py:308-332 | a consumer ends with its stream no longer current, every section being one step of the machine |
| `ClientLifecycle.P4RuntimeClient.Disconnect` | src/p4net/control/client.py:255-257 | disconnect is one teardown step of the machine |
| `ClientLifecycle.OthersLeaveMine` | src/p4net/control/client.py:186-332 | no run of other threads moves a connect call or a consumer on |
| `StartStop.RunKeepsInv` | src/p4net/network/orchestrator.py:259-390 | every run of start, astart and stop, stops nested in a start attempt included, keeps the protocol's invariant |
| `StartStopTheorems.Exclusion` | src/p4net/network/orchestrator.py:276-292 | no two threads are ever inside `_do_start` or `_do_stop` together |
| `StartStopTheorems.InterruptedStartRollsBack` | src/p4net/network/orchestrator.py:276-292 | a start attempt that sees a stop request before its commit never sets running and resolves with every registry empty |
| `StartStopTheorems.CommitIff` | src/p4net/network/orchestrator.py:280-286 | the commit sets running if and only if no stop has been requested since the attempt was prepared |
| `StartStopTheorems.WaitingHasOwner` | src/p4net/network/orchestrator.py:341-390 | a blocked thread always waits for another thread that is there to resolve the future |
| `StartStopTheorems.NoCircularWait` | src/p4net/network/orchestrator.py:341-390 | no chain of waiting threads, of any length, closes on itself |
| `StartStopTheorems.StopResolves` | src/p4net/network/orchestrator.py:376-390 | from every reachable state a pending stop future can be resolved within twenty steps, all of them by threads that are already starting or stopping |
| `StartStopTheorems.OthersCannotDelay` | src/p4net/network/orchestrator.py:341-390 | no step moves the resolution further away, except a stop called by the starting thread itself |
| `StartStopTheorems.EveryOwnStepAdvances` | src/p4net/network/orchestrator.py:276-390 | every step of the start attempt, of the finisher or of a stop frame on the starting thread, success or failure, brings the resolution nearer |
| `StartStopTheorems.RunShortensDistance` | src/p4net/network/orchestrator.py:341-390 | over any run, either the stop future is resolved or the steps of the attempt and the finisher are paid for by the distance, at two for every stop that the starting thread calls itself |
| `StartStopTheorems.EveryRunResolves` | src/p4net/network/orchestrator.py:341-390 | in every run from every reachable state with a pending stop future, the future is resolved once the attempt and the finisher have taken more than seventeen steps, two more per stop called by the starting thread, whatever others do and whether or not the start succeeds |
| `StartStopTheorems.OwnStepIsEnabled` | src/p4net/network/orchestrator.py:341-390 | while a stop future is pending, some such step can always be taken, by a thread that is already there |
| `ReentrantStop.MovesKeepSound` | src/p4net/network/orchestrator.py:356-390 | every run with stops called from inside a finisher's `_do_stop` keeps the invariant, and such a call is always made with the finisher's own future pending |
| `ReentrantStop.StillExclusive` | src/p4net/network/orchestrator.py:341-390 | with such calls too, no two threads are ever inside `_do_start` or `_do_stop` together |
| `ReentrantStop.NeverInitiates` | src/p4net/network/orchestrator.py:356-363 | a stop called from inside `_do_stop` never makes a new stop future |
| `ReentrantStop.ReturnsExactly` | src/p4net/network/orchestrator.py:370-374 | whatever other threads do between the two comparisons and afterwards, the inner call returns if and only if the recorded stop thread at the first comparison, or the start thread, which others cannot change for it meanwhile, is its own; otherwise it never returns and the future is never resolved |
| `ReentrantStop.WaitingNeverEnds` | src/p4net/network/orchestrator.py:370-390 | an inner call that waits does so in every continuation, with the future unresolved |
| `ReentrantStop.RecordedUnlessCleared` | src/p4net/network/orchestrator.py:376-390 | from its claim to the resolution of its future a finisher is the recorded stop thread if and only if no earlier finisher has cleared the record since |
| `ReentrantStop.InnerCallCanWaitForItself` | src/p4net/network/orchestrator.py:356-390 | a run in which that happens: a finisher whose inner stop waits for the future that only the finisher could resolve |
| `KernelModel.Kernel.Relocate` | src/p4net/runtime/link.py:158-172 | moving and renaming an interface takes effect or not, independently of whether the call raises |
| `VethModel.VethPair.Create` | src/p4net/runtime/link.py:106-131 | create succeeds exactly if the pair is made and the socket then closes; a made pair is in its namespaces under its names and nothing else has changed, also when the socket fails to close and the pair is not marked as created; the interfaces are as before exactly if no pair was made, no addition raised after taking effect and no rollback was refused its deletion; a second create is refused and changes nothing |
| `VethModel.FailedCloseLeavesPair` | src/p4net/runtime/link.py:115-130 | the concrete case: a pair made under its names before the socket fails to close is there and not marked as created |
| `VethModel.LateErrorLeavesPair` | src/p4net/runtime/link.py:115-130 | the concrete case: an addition that raises after taking effect leaves the pair |
| `VethModel.VethPair.CreateTemporaryPair` | src/p4net/runtime/link.py:133-192 | adding under temporary names, moving, naming and rolling back: both outcomes, at every failure point; something is left exactly if the addition raised late or the deletion was refused |
| `VethModel.VethPair.Place` | src/p4net/runtime/link.py:152-174 | one round of the move loop, which may raise after the move: the endpoint chosen for cleanup is where it is recorded to be |
| `VethModel.VethPair.Rollback` | src/p4net/runtime/link.py:175-192 | deleting through the chosen endpoint removes the pair and only the pair, exactly if the deletion is not refused |
| `VethModel.VethPair.Destroy` | src/p4net/runtime/link.py:194-210 | destroying through side a where it is recorded removes exactly this pair, or nothing if the deletion is refused |
| `NetworkResources.Network.DoStart` | src/p4net/network/orchestrator.py:513-628 | for every topology, every point of failure and every point where the starting thread calls `stop` itself, what the kernel holds beyond before is exactly what is in the registries, unless a release was refused or an addition raised after taking effect; with neither failure nor stop everything is registered |
| `NetworkResources.Network.WireLink` | src/p4net/network/orchestrator.py:685-700 | a pair is registered exactly when it is created, in place and different from the registered ones; the interfaces stay accounted for exactly if no made pair is left unregistered by a failed close, no addition raised late and no deletion was refused |
| `NetworkResources.Network.CreateApart` | src/p4net/network/orchestrator.py:685-700 | beside the registered pairs: a pair made before a failed close is in place, apart and uncreated; what is there besides the registered pairs is as before exactly under the same condition |
| `NetworkResources.Network.DoStop` | src/p4net/network/orchestrator.py:837-937 | stop empties every registry and, if no release is refused, the kernel holds exactly what it held before |
| `NetworkResources.Network.RunStart` | src/p4net/network/orchestrator.py:276-292 | a start attempt ends running with everything registered, or, interrupted from outside or by its own thread or failed, with empty registries and nothing left behind unless a release was refused or an addition raised after taking effect |
| `CompileKey.FrameReadsBack` | src/p4net/compiler/p4c.py:65-69 | a labelled frame can be read back off the front of any byte string |
| `CompileKey.KeyDeterminesInputs` | src/p4net/compiler/p4c.py:166-171 | the hashed bytes determine path, source, preprocessed input, arch, version and arguments, for arbitrary contents |
| `CompileKey.ComputeHash` | src/p4net/compiler/p4c.py:72-83 | feeding the hasher frame by frame digests exactly the framed inputs |
| `CacheInvariants.FramedKeysDiffer` | src/p4net/compiler/p4c.py:166-171 | with a collision-free digest, different inputs have different keys |
| `CacheInvariants.RunKeepsProtocol` | src/p4net/compiler/p4c.py:240-298 | every run of readers and of plain and forced publishers keeps the lock, stage, reader and writer invariants, whatever the digest and the backend |
| `CacheInvariants.RunKeepsInv` | src/p4net/compiler/p4c.py:145-298 | moreover every complete entry, in place or moved away, holds what the backend makes of the inputs of its key |
| `CacheTheorems.LockFreeHit` | src/p4net/compiler/p4c.py:240-250 | starting from any directory, incomplete entries included, a lock-free hit means a complete entry at the key at the last stat |
| `CacheTheorems.UndisturbedProbe` | src/p4net/compiler/p4c.py:240-250 | undisturbed, the probe says yes if and only if the entry is complete |
| `CacheTheorems.CompleteStays` | src/p4net/compiler/p4c.py:252-281 | a complete entry stays as it is over any run, unless a forced call moves it away; plain publishers never remove it |
| `CacheTheorems.DisplacingOpensWindow` | src/p4net/compiler/p4c.py:283-291 | moving an entry away opens a window with nothing at the key and the old entry kept |
| `CacheTheorems.WindowEnds` | src/p4net/compiler/p4c.py:283-298 | such a window ends with the new entry, with the old one back, or with a restore that failed as well, and with nothing else |
| `CacheTheorems.OneWriter` | src/p4net/compiler/p4c.py:252-298 | no entry ever holds files of two writers |
| `CacheTheorems.CacheAgreesWithCompiling` | src/p4net/compiler/p4c.py:145-197 | when a call settles on a result, by hit, own publish or a rival's publish, a complete entry equal to the backend's output on its own inputs is at its key |
| `CacheDirectory.LockIsLetGo` | src/p4net/compiler/p4c.py:252-281 | from every state the lock holder alone can run until the lock is free |
| `CacheDirectory.OthersLeaveMine` | src/p4net/compiler/p4c.py:252-281 | while a call holds the lock no other call changes the directory |
| `CacheDirectory.CacheDir.CacheHit` | src/p4net/compiler/p4c.py:240-250 | the five stats of the probe, with anything in between: a hit is complete and right |
| `CacheDirectory.CacheDir.PublishCache` | src/p4net/compiler/p4c.py:252-281 | publishing under the lock: the answer is a rival's exactly for an unforced call on a complete entry; on success the new entry is there; on failure a complete entry is kept or lost only to a failed restore |
| `CacheDirectory.CacheDir.ReplaceCachedEntry` | src/p4net/compiler/p4c.py:283-298 | replacing ends with the new entry, or with the old one or nothing |
| `CacheDirectory.CacheDir.Compile` | src/p4net/compiler/p4c.py:145-199 | compile fails, or returns a complete entry that holds the backend's output on this call's inputs |
| `CacheDirectory.CacheDir.RealCompile` | src/p4net/compiler/p4c.py:365-401 | staging and publishing: the artifacts at the key are the backend's, and without artifacts the call fails |
| `Bits.BitLengthFits` | src/p4net/control/codec.py:34-35 | the bit length is at most w if and only if the value is below two to the w |
| `Bits.AndBits` | src/p4net/control/codec.py:163-165 | a bit of the conjunction is set if and only if it is set in both numbers |
| `Bits.AndLowMask` | src/p4net/control/codec.py:141-144 | masking with the low k bits is the remainder by two to the k |
| `BigEndian.CanonicalEqualIffSameValue` | src/p4net/control/codec.py:188-191 | canonical forms are equal if and only if the values are |
| `BigEndian.CanonicalIsShortest` | src/p4net/control/codec.py:188-191 | no nonempty byte string of the same value is shorter than the canonical form |
| `BigEndian.CanonicalKeepsValue` | src/p4net/control/codec.py:188-191 | the canonical form has the same value |
| `BigEndian.ToBytes` | src/p4net/control/codec.py:36-38 | the full-width encoding has the given length and value |
| `Literals.IntReadsDec` | src/p4net/control/codec.py:92-96 | a decimal numeral reads back, with base 10 and with the base left open |
| `Literals.QuadReadsBack` | src/p4net/control/codec.py:41-48 | dotted quads read back |
| `Literals.MacReadsBack` | src/p4net/control/codec.py:51-55 | printed MAC addresses have the accepted shape and read back |
| `Codec.EncodeIntAccepts` | src/p4net/control/codec.py:23-38 | an integer is encoded if and only if it is nonnegative and fits a positive width, and to its own value |
| `Codec.IntRoundTrip` | src/p4net/control/codec.py:100-111 | decoding undoes encoding, from the full-width and from the canonical form, at every width |
| `Codec.PrintedValueReadsBack` | src/p4net/control/codec.py:238-246 | at every width but 128 the printed value is read through the right literal branch and is the value |
| `Codec.Ipv6ReadsBack` | src/p4net/control/codec.py:67-91 | at width 128 a printed address that has a colon, is not shaped like a MAC address and is read back by the library is accepted if and only if it does not have three dots |
| `Codec.MappedAddressIsRefused` | src/p4net/control/codec.py:67-91 | a library that prints the IPv4-mapped address `::ffff:1.2.3.4` in mixed notation meets these conditions, and the printed text is refused |
| `Codec.FormatAccepts` | src/p4net/control/codec.py:238-246 | a value prints if and only if it decodes |
| `Codec.PrefixIsAlignment` | src/p4net/control/codec.py:139-144 | a key has no bit outside its prefix if and only if it is aligned to the prefix, a zero prefix not being checked |
| `Codec.PrintedLpmParsesBack` | src/p4net/control/codec.py:114-145 | a printed LPM key parses back to its value and length if and only if it is aligned; otherwise it is refused |
| `Codec.ParsesFit` | src/p4net/control/codec.py:58-97 | every accepted value fits the field's width in bits and bytes |
| `MatchEncoding.P4InfoIndex.EncodeMatch` | src/p4net/control/p4info_index.py:206-262 | the three loops compute the specified message or the first error, in the source's order of checks |
| `MatchEncoding.P4InfoIndex.DecodeMatch` | src/p4net/control/p4info_index.py:264-330 | the printing loop computes the specified texts or the first error |
| `MatchEncoding.P4InfoIndex.EncodeAction` | src/p4net/control/p4info_index.py:332-358 | the checks and the encoding loop compute the specified action or the first error |
| `MatchMeaning.FieldEncodes` | src/p4net/control/p4info_index.py:231-260 | one encoded field is well formed and accepts exactly the header values that the caller's value accepts; what is left out accepts all |
| `MatchMeaning.EncodesBySlot` | src/p4net/control/p4info_index.py:229-262 | the message has for each field what the match's value for it encodes to, and nothing else |
| `NormalForm.EncodingKeepsMeaning` | src/p4net/control/p4info_index.py:206-262 | the message accepts exactly the packets that the match accepts |
| `NormalForm.EncodingIsWellFormed` | src/p4net/control/p4info_index.py:206-262 | a message has only the table's fields, each at most once, canonical, and all exact ones |
| `NormalForm.MasksSeparate` | src/p4net/control/codec.py:148-166 | different value/mask pairs accept different sets of values, at every width |
| `NormalForm.SlotsSeparate` | src/p4net/control/p4info_index.py:231-260 | different well-formed slots of a field, wildcards included, are told apart by some header value |
| `NormalForm.MessagesAreNormalForms` | src/p4net/control/p4info_index.py:206-262 | well-formed messages of a table are equal if and only if they accept the same packets |
| `NormalForm.WireIsNormalForm` | src/p4net/control/p4info_index.py:206-262 | two accepted matches have the same field-id to FieldMatch map if and only if they match the same packets |
| `TablePriority.PriorityNeededExactly` | src/p4net/control/p4info_index.py:184-198 | a table needs priorities if and only if two different well-formed messages of it, equal in all their prefix lengths, accept a common packet |
| `TablePriority.LongestPrefixDecides` | src/p4net/control/p4info_index.py:184-198 | in a table that needs no priority, two messages with the same prefix lengths that accept a common packet are equal |
| `TablePriority.PrefixesNest` | src/p4net/control/p4info_index.py:184-198 | of two prefixes that accept a common value, the longer accepts only what the shorter accepts |
| `Actions.EncodedActionIsCanonical` | src/p4net/control/p4info_index.py:332-358 | an accepted action has exactly the declared parameters in their order, canonical and in range, each with the value given under its name |
| `Actions.DecodedActionReencodes` | src/p4net/control/client.py:655-668 | whatever arguments are listed, in any order, repeated or unknown, encoding what they decode to succeeds if and only if every declared parameter has a value that fits, and gives these values canonical in the declared order |
| `Actions.EncodedActionSurvives` | src/p4net/control/client.py:562-594 | an encoded action survives being stored, listed and encoded again |
| `Actions.ActionRoundTrip` | src/p4net/control/client.py:655-668 | a canonical action decodes under its name and encodes back to itself |
| `TableEntries.ReadBackReencodes` | src/p4net/control/client.py:630-651 | for every well-formed canonical entry, encoding the decoded match gives back the same fields in the same order |
| `TableEntries.EntryRoundTrip` | src/p4net/control/client.py:630-674 | decoding an entry and encoding its key keeps table, fields and priority |
| `TableEntries.ListedEntryRoundTrips` | src/p4net/control/client.py:500-575 | a listed entry passed on to insert or modify is sent exactly as it was read, and passed on to delete as its key; either is refused if and only if its priority is not one that the table can have |
| `TableEntries.EncodedMatchSurvives` | src/p4net/control/client.py:562-594 | an encoded match survives being stored, listed and encoded again |
| `TableEntries.ClearDeletesWhatIsListed` | src/p4net/control/client.py:596-628 | on canonical entries with known actions clearing is not refused and its request deletes exactly the keys listed, each once and in order |
| `TableEntries.PrintedFieldReencodes` | src/p4net/control/p4info_index.py:264-330 | at every width but 128 a printed field encodes back to itself if and only if it is not a ternary or range one |
| `TableEntries.TableClient.DecodeTableEntry` | src/p4net/control/client.py:630-674 | the decoding loops compute the specified table, ordered match, action, ordered parameters and priority, or the error for an unknown table or action |
| `TableEntries.TableClient.WriteEntry` | src/p4net/control/client.py:500-558 | an entry is sent exactly if table, priority, match and action are accepted, and then as encoded, whether or not the call then fails; errors of these send nothing |
| `TableEntries.TableClient.ClearTable` | src/p4net/control/client.py:596-628 | either the first error of the table, of reading, of decoding or of encoding, and nothing sent, or one request with one delete per listed entry in order; the number is returned unless the call fails |
| `TopologyBuilder.Topology.Validate` | src/p4net/topo/topology.py:400-569 | the single passes find exactly the problems of the pairwise definition, so a topology is accepted if and only if it is consistent |
| `TopologyBuilder.Topology.CheckEndpoints` | src/p4net/topo/topology.py:423-457 | unknown nodes, missing ports, addresses on switches, port range, CPU port and self-loops, each found if and only if present |
| `TopologyBuilder.Topology.CheckPorts` | src/p4net/topo/topology.py:459-473 | a port collision is reported if and only if two endpoints share node and port |
| `TopologyBuilder.Topology.CheckServices` | src/p4net/topo/topology.py:486-498 | a collision is reported if and only if two service ports, gRPC or Thrift, of any switches are equal |
| `TopologyBuilder.Topology.CheckInterfaces` | src/p4net/topo/topology.py:500-531 | name problems and collisions within one namespace, each found if and only if present |
| `TopologyBuilder.Topology.CheckAddresses` | src/p4net/topo/topology.py:533-563 | unreadable addresses and addresses of two hosts, each found if and only if some endpoints carry them |
| `TopologyBuilder.ConfiguredIsCarried` | src/p4net/topo/_addresses.py:9-17 | the addresses that the loops go through are exactly those the host endpoints carry: their own, or their host's at its first link |
| `TopologyBuilder.Topology.AutoPort` | src/p4net/topo/topology.py:750-781 | the least free allowed port; failure only on a switch whose ports 1 to 510 are all taken |
| `TopologyBuilder.Topology.AddLink` | src/p4net/topo/topology.py:321-376 | a link is added exactly if both descriptions resolve, to the ports, names and addresses they determine, and its MTU and impairments go together; a tidy topology stays tidy if and only if the ends are on different nodes at untaken ports, and automatic ports are untaken |
| `Impairments.AppliesExactly` | src/p4net/network/orchestrator.py:754-807 | an accepted link gets its impairments in a direction if and only if its rate is one, its delay and jitter are times or sum up to a positive number of microseconds, and its losses sum up to at most 100; the other checks cannot fail |
| `Impairments.JitterHasDelay` | src/p4net/topo/link.py:143-148 | in an accepted link no direction comes to have a jitter without a delay |
| `Impairments.ParseUndoesFormat` | src/p4net/network/orchestrator.py:72-91 | a formatted duration is read back as the same number of nanoseconds |
| `Impairments.AddingAdds` | src/p4net/network/orchestrator.py:89-91 | the text that adding two durations gives stands for the sum of what they stand for |
| `Impairments.FormatIsTime` | src/p4net/runtime/tc.py:28-38 | a formatted duration is a time for `tc` if and only if it is a positive number of microseconds |
| `Impairments.AddingNothingIsRefused` | src/p4net/network/orchestrator.py:94-104 | a link with delay and extra delay `0ms` is accepted, gets its delay in the direction without extra, and fails in the other |
| `TopologyBuilder.Topology.AddSwitch` | src/p4net/topo/topology.py:169-219 | a switch is refused exactly for a known name or a bad program path, architecture, log level, id or port; automatic ids and ports keep switches numbered without collisions |
| `Ports.IfaceNameInjective` | src/p4net/topo/topology.py:30-31 | node and port are determined by the interface name |
| `Ports.AutomaticPortsCollide` | src/p4net/topo/topology.py:750-781 | two automatic ports add a collision if and only if the link is a self-loop |
| `Ports.BuiltFailsOnlyOverAddresses` | src/p4net/topo/topology.py:400-569 | what is built with automatic ports and ids and without self-loops can fail validation only over addresses |
| `Wiring.LinkWiring.WireLinks` | src/p4net/network/orchestrator.py:685-723 | wiring succeeds exactly if every end can be wired and the impairments of every link can be applied, and then configures exactly the addresses that validation goes through |
| `Wiring.LinkWiring.ValidateAndWire` | src/p4net/network/orchestrator.py:520-523 | unless the network is unsafe, a topology is wired if and only if it is consistent and its impairments can be applied, and then no two hosts are given the same address; an unsafe network is wired if and only if every end and every impairment can be |
| `Wiring.ValidatedIsSafe` | src/p4net/network/orchestrator.py:520-523 | a consistent topology can be wired at every end, and no two hosts share an address |
| `Wiring.PlannedNamesDiffer` | src/p4net/network/orchestrator.py:685-700 | with a namespace for each host, a consistent topology never asks for two interfaces of one name in one namespace |
| `Wiring.ValidatedHostsDoNotShare` | src/p4net/topo/topology.py:555-563 | in a consistent topology equal configured addresses belong to one host, and every configured text is an address |
| `Wiring.ValidatedPortsDiffer` | src/p4net/network/orchestrator.py:829-835 | in a consistent topology the ports of a switch have different interfaces |
| `Wiring.SamePortsInBothMaps` | src/p4net/topo/topology.py:388-398 | in a consistent topology both port maps of a switch have the same ports |
| `Wiring.PortMapIs` | src/p4net/network/orchestrator.py:829-835 | in a consistent topology the port map gives every endpoint of the switch its own interface |
| `Wiring.FarMapIs` | src/p4net/topo/topology.py:388-398 | in a consistent topology the assignments give, for each link of the switch, the far side of that very link |
| `Wiring.LinkWiring.PortToIfaceFor` | src/p4net/network/orchestrator.py:829-835 | the loop computes the specified port map |
| `Wiring.LinkWiring.PortAssignments` | src/p4net/topo/topology.py:388-398 | the loop computes the far endpoint of each port, or fails for an unknown switch |

## Left out

- Signal handlers re-entering `stop` on the same thread, forks and interpreter shutdown (`_cleanup.py`).
- Threads that cannot be started, and a `_do_stop` that itself raises.
- Real time: timeouts, poll intervals and durations only appear as "the wait may expire".
- The gRPC, protobuf, netlink, `ip`, `tc`, `sysctl`, p4c and BMv2 calls themselves; they are success or failure steps or given functions.
- `NetworkResources.Network.DoStart`: a switch process that runs although spawning it raised is not modelled, nor a connection left by a `connect` that raised, which tears its own stream down.
- `NetworkResources.Network.DoStop`: spawned xterm processes, log directories and the cleanup registration are not among its resources.
- Writers of the cache that ignore the directory lock (the EEXIST branch of the publishing rename), crashes in the middle of a forced replacement, and `meta.json`.
- `CompileKey.ComputeHash`: paths, text and the argument list are taken as their encoded bytes.
- `CacheTheorems.CacheAgreesWithCompiling`: speaks of the entry at the key when the call settles on its answer; a forced replacement may move it away before the caller opens the returned paths, and `CacheInvariants.RunKeepsInv` says that any complete entry found there later is equally right.
- `Literals.IntReadsDec`: non-ASCII digits and spaces, and the interpreter's limit on the number of digits, are not modelled.
- The text form of IPv6 addresses and CIDR parsing, which are given functions.
- Two tables or two actions of one name, or of one id, in a P4Info; a table with repeated field names or ids is encoded as the source does, but the theorems ask for unique ones.
- `TopologyBuilder.Topology.AddLink`: node references are by name.
- `Impairments.AppliesExactly`: percentages are exact numbers and whole durations are read exactly, without the rounding of floats; `tc` itself succeeding is taken for granted.
- `Wiring.LinkWiring.WireLinks`: MAC, MTU, link state and the per-interface address tables are left out.
- The async client, whose teardown has no guard for an expected stream and whose table encoding repeats this one.
- Register access, counters, multicast groups, packet I/O, the CLI, the shell, Graphviz output and serialisation to dictionaries.
