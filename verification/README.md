# Verified model of shard-listener's loss recovery

A Dafny model of the parts of shard-listener that decide whether a lost datagram costs an object: the
BRC-130 reassembly buffer, the NACK gap tracker, the way the two are wired together, and three
indexes that must agree with something simpler (the fan-out shard index, the retry endpoint
registry's cached snapshot, and the egress duplicate detector).

The project has two layers.

* The **specification layer** describes each component as a state machine over values: a step function
  per locked method, runs as lists of steps, and theorems about every run. The outside world is never
  fixed. Clock readings, jitter, map iteration order, room in the dispatch queue, retry endpoint answers
  and the repair path behind the buffer's hooks are arguments of a step and are quantified over. Hook and
  callback invocations are recorded in order in an event log; tracker metrics are kept as per-flow books.
* The **object layer** holds the same components as the source writes them: classes whose fields, arrays,
  maps and lists are updated in place by loops; slots, flows, gap entries and registry entries are objects. Every method is proved to take its object from a state
  standing for `s` to one standing for `Step(s)`, so the theorems hold of the objects.

| file | content |
|---|---|
| `Base` | integer widths, times, sequence and set lemmas |
| `Grid`, `Slots`, `SlotObjects` | fragment sizes and offsets; one reassembly slot as pieces to concatenate, and as arrays filled in place |
| `Reassembly`, `ReassemblyInvariants`, `ReassemblyTheorems`, `ReassemblyBounds`, `ReassemblyTimes`, `Promotion`, `EvictionOrder` | the buffer's steps, its invariant, what every run keeps, what opens a slot and what it may declare and cost, what a sweep makes of it and when, and which slot is evicted |
| `Reconstruction`, `Delivery` | what is delivered is the object; the object is delivered |
| `BufferObjects` | the buffer as a class |
| `Flow`, `FlowLedger`, `FlowSequence`, `FlowRate`, `FlowProbes`, `FlowRetry`, `FlowEntries`, `FlowBooks`, `FlowDispatch`, `FlowForward`, `FlowSilence`, `FlowLate` | one flow of the tracker: steps, loss accounting, gap sets, rate estimate, tail probes, retries, the life of one entry, what each step books, the dispatch queue, what each kind of frame does, what silence does, and frames that come after all |
| `Tracker`, `FlowObjects`, `TrackerObjects` | the flow table; flow and tracker as classes |
| `Composition`, `ListenerSystem` | buffer and tracker wired together; the fragment path that feeds both |
| `Dedup`, `Fanout`, `Registry`, `RegistryObjects` | the three indexes |

Some statements a reader might expect turn out to be false of the code. Each is stated with the exact
condition under which it holds, and with an input that breaks it where the condition does not show one: a
stale refusal books a recovered gap as lost (`StaleRefusalOvercounts`, `RespondFair`); the guarded 64-bit
backoff shift can slip under its cap (`BackoffCanSlip`, `GuardIsAlwaysExactWhen`, and `BackoffIsExact`
where the product of base and cap fits); the fan-out index reaches a consumer as often as its shard list
mentions the group (`RepeatedShardDoubles`, `IndexIsScan`); and a beacon at tier 0xFF sorts among or
behind the static seeds (`SeedTierBeaconComesLast`, `SeedsTrailExactlyWhen`). The duplicate detector with
expiry on is not a sliding window over insertions either (`StaleCellForgets`); `RunExact` and
`HitExactlyWhen` say what it is. Two smaller ones: an object of the largest declarable length is always
refused (`LargestLengthIsRefused`), and the stamp that keeps sweeps from queueing a gap twice is not set
for copies queued by a request or for a tail probe (`SecondCopyExactlyWhen`, `RequestCopyExactlyWhen`,
`ProbeCopyExactlyWhen`).

Two claims in the source's comments are among them. What a sender can make the listener allocate is not
bounded at sixteen times what it sent (reassembly/reassembly.go:315-317): `SixteenTimesFails`,
`SixteenTimesExactlyWhen`, `SixteenTimesWithoutFinal` and `SixteenTimesWithFinal` say when it is,
`AllocationIsBounded` what holds instead, and `LongFinalDefeatsAnyFactor` that a final fragment longer
than the others, which the length check allows, defeats any factor. The slot evicted at the cap need not
be the oldest (`ReopenedIsEvictedFirst`, `EvictsOldestExactlyWhen`). The branch of `complete` that
promotes an unpromoted slot (714-716) can never be taken: `SlotObject.Assembled` shows that every slot
that reaches its fragment total has its buffer.

## Model

| member | source | states |
|---|---|---|
| `Grid.CheckFragLenExact` | reassembly/reassembly.go:661-692 | the length check accepts a fragment and yields fs if and only if fs is a legal fragment size of the object, the length is the one the grid gives that index, and no earlier fragment implied another size |
| `Grid.WindowInBounds` | reassembly/reassembly.go:324-347 | every accepted fragment's window lies inside the object, the final one ending at its last byte |
| `Grid.WindowsDisjoint` | reassembly/reassembly.go:324-347 | windows of different fragments do not overlap |
| `Grid.JoinLength` | reassembly/reassembly.go:661-692 | fragments that pass the check concatenate to exactly the declared length |
| `Grid.PlacedIsJoin` | reassembly/reassembly.go:324-347 | a buffer with every fragment at its offset is the index-order concatenation |
| `Grid.JoinOfCuts` | reassembly/reassembly.go:661-692 | cutting an object into equal pieces plus a non-empty remainder and concatenating them gives it back |
| `Slots.OpenSlot` | reassembly/reassembly.go:583-598 | a new slot satisfies the slot invariant |
| `Slots.TakeStores` | reassembly/reassembly.go:606-637 | a stored fragment keeps the slot on one grid, adds exactly its index, and fixes the fragment size for good |
| `Slots.CountIsComplete` | reassembly/reassembly.go:639-645 | the count never exceeds the total, and reaches it exactly when every fragment is in |
| `Slots.PayloadLength` | reassembly/reassembly.go:714-718 | a full slot's payload has exactly the declared length |
| `Slots.NearestIsNearest` | reassembly/reassembly.go:859-870 | the anchor is a received fragment at minimal index distance, and one is found whenever any was received |
| `Slots.MissingExact` | reassembly/reassembly.go:850-882 | for consecutive sequence numbers below 2^63 the slot asks for exactly the numbers of the fragments it lacks, ascending, each once |
| `SlotObjects.PromoteAfter` | reassembly/reassembly.go:318-320 | promotion happens after at least one and at most all fragments |
| `SlotObjects.CopyInto` | reassembly/reassembly.go:324-333 | the loop writes the bytes at their offset and nothing else |
| `SlotObjects.OverwriteWindow` | reassembly/reassembly.go:324-333 | writing one fragment at its offset stores it and leaves every other fragment's window alone |
| `SlotObjects.MoveEarly` | reassembly/reassembly.go:336-347 | copying the held fragments into the new buffer places every one of them and leaves the header room alone |
| `SlotObjects.SlotObject.constructor` | reassembly/reassembly.go:583-598 | the arrays of a new slot stand for the empty slot |
| `SlotObjects.SlotObject.Promote` | reassembly/reassembly.go:336-347 | the new buffer holds exactly the fragments held so far |
| `SlotObjects.SlotObject.Store` | reassembly/reassembly.go:324-333 | before or after promotion, one more fragment is held and none is disturbed; the whole buffer is allocated only once the promotion count is reached |
| `SlotObjects.SlotObject.Take` | reassembly/reassembly.go:606-637 | the slot on arrays ignores, rejects or keeps a fragment exactly as the slot of pieces does |
| `SlotObjects.SlotObject.Keep` | reassembly/reassembly.go:631-637 | an accepted fragment is stored, flagged, numbered and counted, wherever the promotion point falls |
| `SlotObjects.SlotObject.NearestReceived` | reassembly/reassembly.go:859-870 | the two-sided search loop finds the specified anchor |
| `SlotObjects.SlotObject.MissingSeqNums` | reassembly/reassembly.go:850-882 | the nested loop returns the specified list |
| `SlotObjects.SlotObject.Assembled` | reassembly/reassembly.go:714-718 | at completion the buffer behind the header room is the index-order concatenation of the fragments |
| `SlotObjects.SlotObject.MarkRequested` | reassembly/reassembly.go:958-966 | only the requested flag changes |
| `SlotObjects.SlotObject.HoldUntil` | reassembly/reassembly.go:976-981 | the deadline moves out but never past the age limit, and the slot is marked extended |
| `ReassemblyInvariants.MakeRoomKeeps` | reassembly/reassembly.go:1002-1013 | after eviction at the cap there is room, because the eviction order covers every live slot |
| `ReassemblyInvariants.StepKeeps` | reassembly/reassembly.go:523-645 | every step keeps the buffer invariant, whatever the repair path does |
| `ReassemblyInvariants.RunKeeps` | reassembly/reassembly.go:523-1062 | the invariant holds in every reachable state |
| `ReassemblyTheorems.Conservation` | reassembly/reassembly.go:578-645 | in every run slots started = completed + bad + abandoned + live; live slots and remembered keys stay within the cap; every live slot holds some but not all of its fragments and is not remembered as done |
| `ReassemblyTheorems.BoundedWait` | reassembly/reassembly.go:919-987 | after a sweep no slot is past its deadline or older than the larger of TTL and maximum age, whatever the repair path answers |
| `ReassemblyTheorems.AskedOnce` | reassembly/reassembly.go:951-987 | at every point of every run's log the latest slot of a key has asked for its missing fragments and been counted extended at most once, also slots that end and are reopened within one operation |
| `ReassemblyTheorems.RunRecalls` | reassembly/reassembly.go:886-917 | in every timely run each completion is still remembered unless the buffer was purged, its memory expired, or maxSlots other keys completed since |
| `ReassemblyTheorems.CompletesAtMostOnce` | reassembly/reassembly.go:703-712 | no object completes twice in a run except after a purge, an expired memory, or maxSlots other completions in between |
| `ReassemblyTheorems.SilentWhileRemembered` | reassembly/reassembly.go:539-554 | while a completed key is in the memory, expired or not, a step opens no slot, delivers, asks and reports nothing for it but late copies, if and only if it is not the step whose own sweep drops the memory and which brings a fragment of the key |
| `ReassemblyTheorems.SilentOverRuns` | reassembly/reassembly.go:539-554 | the same over any run until the key leaves the memory |
| `Reconstruction.TakeGenuine` | reassembly/reassembly.go:606-637 | a fragment cut from the object is never rejected; it is stored unless held or out of range |
| `Reconstruction.PayloadIsObject` | reassembly/reassembly.go:714-718 | a full slot of genuine fragments holds exactly the object |
| `Reconstruction.AdmitGenuine` | reassembly/reassembly.go:606-645 | a genuine fragment adds its index to the slot or completes it with the object's bytes |
| `Reconstruction.OutcomeIsTruthful` | reassembly/reassembly.go:719-820 | whatever its version, a completed slot is delivered with its bytes under the identifiers its key was made from, past the hash check where one applies, and refused only when that check fails on those bytes |
| `Reconstruction.ArriveOther` | reassembly/reassembly.go:539-645 | a fragment of another object leaves a slot alone unless it is logged as pushed out |
| `Reconstruction.DeliversOnlyTheObject` | reassembly/reassembly.go:523-820 | over every run, whatever the order, duplicates, losses and other traffic, every completion of a key delivers exactly the object its fragments were cut from under the key's identifiers, or nothing when the hash check fails on that object |
| `Reconstruction.RightHashIsDelivered` | reassembly/reassembly.go:750-820 | an object whose hash is right is never refused |
| `Reconstruction.DeliversItsKind` | reassembly/reassembly.go:719-820 | if every fragment of a key was sent as one version, every completion of the key in the run is of that version's kind |
| `Reconstruction.DeliversItsTags` | reassembly/reassembly.go:703-820 | in every run a delivery carries the flow, number, type and second identifier of one observed fragment of its key |
| `Delivery.CompletesWhenAllArrived` | reassembly/reassembly.go:523-820 | an object within the bound for its kind, not of the largest 32-bit length, and not abandoned or purged completes once every fragment was observed, truthfully in that sense; until then its slot holds exactly the fragments observed |
| `Delivery.FitsExactlyWhen` | reassembly/reassembly.go:555-576 | a fragment of an object passes the tests that come before a slot if and only if the object is within that bound and length |
| `Delivery.UnfitIsNeverOpened` | reassembly/reassembly.go:555-576 | an object that is not is never taken in nor completed, in any run |
| `ReassemblyBounds.OpensSane` | reassembly/reassembly.go:555-576 | a fragment that is not rejected opens a slot that declares at least a byte, at most one fragment more than bytes, and no more bytes than allowed |
| `ReassemblyBounds.SlotsAreBounded` | reassembly/reassembly.go:555-576 | in every run that holds of every live slot |
| `ReassemblyBounds.OpensExactlyWhen` | reassembly/reassembly.go:555-604 | a fragment whose key is neither live nor remembered opens a slot if and only if its index, count and length are well formed and the length is within the bound of its version; a well-formed one that is too long is reported oversize, any other dropped without a word, and nothing else changes |
| `ReassemblyBounds.LateCopyExactlyWhen` | reassembly/reassembly.go:540-554 | a fragment is reported late if and only if its key has no slot and is remembered, and changes nothing then |
| `ReassemblyBounds.MetExactlyWhen` | reassembly/reassembly.go:606-645 | an open slot ignores a fragment it has no place for or already holds; drops itself, reported, if and only if the length is right on no grid it allows; and otherwise holds one fragment more, staying open until full |
| `ReassemblyBounds.LargestLengthIsRefused` | reassembly/reassembly.go:555-562 | the 32-bit sum in the fragment count test refuses the largest declarable length always, and any other exactly when it is zero or has too many fragments |
| `ReassemblyTimes.TurnExactlyWhen` | reassembly/reassembly.go:919-1000 | what a sweep makes of a slot, in full: left alone up to its deadline; then kept if and only if something it misses is in repair and it is younger than the maximum age, until one TTL on or that age, asking at most once and reported extended the first time; else given up with the reason that applies |
| `ReassemblyTimes.NeverGivenUpEarly` | reassembly/reassembly.go:919-1000 | in every run no slot is given up for its age before its first TTL, or the maximum age if shorter, is over |
| `ReassemblyTimes.LateExactlyWhen` | reassembly/reassembly.go:703-720 | in every run an object is reported completed late if and only if its slot was reported extended |
| `ReassemblyTimes.MemoryRunsOut` | reassembly/reassembly.go:886-917 | a sweep forgets a completed key if and only if its time is up, and in every run that time is the completion TTL after a completion of it |
| `ReassemblyTimes.SweepsExactlyWhen` | reassembly/reassembly.go:527-537 | an arriving fragment makes the buffer sweep if and only if the sweep interval, or half the TTL if shorter, has passed since the last such sweep |
| `ReassemblyTimes.ArriveDeadlines` | reassembly/reassembly.go:583-606 | a slot a fragment opens is born then with one TTL to go; no other slot changes its times |
| `ReassemblyTimes.TrafficSweeps` | reassembly/reassembly.go:527-537 | over every run whose clock does not run backwards, traffic alone leaves no slot past its deadline for longer than that spacing |
| `ReassemblyTimes.ListIsCompact` | reassembly/reassembly.go:939-946 | after a sweep the eviction order lists exactly the live keys, in the order they stood in |
| `EvictionOrder.RunOrder` | reassembly/reassembly.go:578-603 | in every run, live slots stand in the eviction order, by their last listings, in the order in which they were opened |
| `EvictionOrder.EvictsOldestExactlyWhen` | reassembly/reassembly.go:1002-1013 | in every reachable state the slot evicted at the cap is the one opened first if and only if every other live key is listed behind its last listing |
| `EvictionOrder.ListedOnceIsOldest` | reassembly/reassembly.go:1002-1013 | in particular when its key is not listed again |
| `EvictionOrder.ReopenedIsEvictedFirst` | reassembly/reassembly.go:622-630 | a run in which a bad fragment leaves a key listed, the key reopens after another, and is evicted ahead of that older one |
| `Promotion.SixteenTimesExactlyWhen` | reassembly/reassembly.go:315-320 | at promotion without the final fragment, an evenly cut object is at most sixteen times what was sent if and only if it has at most 128 fragments or a multiple of sixteen, and at most eighteen times always |
| `Promotion.SixteenTimesWithoutFinal` | reassembly/reassembly.go:315-320 | the exact condition for any length of the final fragment, when it is not among those sent |
| `Promotion.SixteenTimesWithFinal` | reassembly/reassembly.go:315-320 | the exact condition with the final fragment among those sent |
| `Promotion.AllocationIsBounded` | reassembly/reassembly.go:315-320 | whichever fragments were sent, an evenly cut object is at most twenty-one times what was sent when its buffer is allocated |
| `Promotion.SixteenTimesFails` | reassembly/reassembly.go:315-320 | 143 one-byte fragments: 143 bytes are allocated for 8 sent |
| `Promotion.LongFinalDefeatsAnyFactor` | reassembly/reassembly.go:681-687 | with a final fragment longer than the others no factor bounds the allocation |
| `BufferObjects.SurvivingKeys` | reassembly/reassembly.go:900-917 | one pass keeps exactly the unexpired keys, in order |
| `BufferObjects.FindLive` | reassembly/reassembly.go:1002-1013 | the loop finds the first listed key that still has a slot |
| `BufferObjects.ListedKeys` | reassembly/reassembly.go:937-945 | compaction keeps the live keys in order |
| `BufferObjects.Buffer.constructor` | reassembly/reassembly.go:357-376 | a new buffer stands for the empty state |
| `BufferObjects.Buffer.MarkDone` | reassembly/reassembly.go:886-896 | refines the specified step |
| `BufferObjects.Buffer.SweepDone` | reassembly/reassembly.go:900-917 | refines the specified step |
| `BufferObjects.Buffer.Abandon` | reassembly/reassembly.go:991-999 | refines the specified step |
| `BufferObjects.Buffer.NotifyIncomplete` | reassembly/reassembly.go:459-466 | the hook is called exactly when installed and something can be named |
| `BufferObjects.Buffer.AskOnce` | reassembly/reassembly.go:957-966 | refines the specified step: asked only at the first expiry inside the age limit |
| `BufferObjects.Buffer.MarkRequested` | reassembly/reassembly.go:958-966 | one slot object changes, every other one stands for what it did |
| `BufferObjects.Buffer.Extend` | reassembly/reassembly.go:976-986 | refines the specified step |
| `BufferObjects.Buffer.HoldSlot` | reassembly/reassembly.go:976-981 | one slot object changes, every other one stands for what it did |
| `BufferObjects.Buffer.HoldForRepair` | reassembly/reassembly.go:951-987 | refines the specified step, with the reason its caller abandons for |
| `BufferObjects.Buffer.Turn` | reassembly/reassembly.go:921-936 | one turn of the expiry loop refines the specified turn |
| `BufferObjects.Buffer.SweepSlots` | reassembly/reassembly.go:921-936 | the expiry loop refines the specified fold over the eviction order |
| `BufferObjects.Buffer.EvictExpired` | reassembly/reassembly.go:919-946 | refines the specified sweep (also the body of Tick) |
| `BufferObjects.Buffer.EvictOldest` | reassembly/reassembly.go:1002-1013 | refines the specified eviction |
| `BufferObjects.Buffer.Open` | reassembly/reassembly.go:583-603 | a slot made of new arrays joins the table |
| `BufferObjects.Buffer.Begin` | reassembly/reassembly.go:578-603 | room is made at the cap, then the slot opens |
| `BufferObjects.Buffer.TakeIn` | reassembly/reassembly.go:606-637 | the fragment changes its own slot's arrays and no other slot |
| `BufferObjects.Buffer.Complete` | reassembly/reassembly.go:703-820 | refines the specified completion: remembered, delivered once, removed |
| `BufferObjects.Buffer.DropBad` | reassembly/reassembly.go:622-630 | the whole slot goes, and the drop is reported |
| `BufferObjects.Buffer.Admit` | reassembly/reassembly.go:606-645 | refines the specified step |
| `BufferObjects.Buffer.LazySweep` | reassembly/reassembly.go:527-537 | sweeps exactly when the interval, or half a shorter TTL, has passed |
| `BufferObjects.Buffer.Arrive` | reassembly/reassembly.go:539-645 | refines the specified arrival, with every rejection |
| `BufferObjects.Buffer.Observe` | reassembly/reassembly.go:523-645 | refines the specified step and keeps the invariant |
| `BufferObjects.Buffer.Purge` | reassembly/reassembly.go:1047-1062 | refines the specified purge |
| `FlowLedger.RespondFair` | nack/nack.go:1349-1412 | an answer keeps the books exact if and only if the copy it answers still describes what is pending; in no case does a margin shrink |
| `FlowLedger.StepFair` | nack/nack.go:439-871 | every step keeps both margins, and exactness whenever its answer is current |
| `FlowLedger.LossLedger` | nack/nack.go:492-643 | in every run, with stale or repeated answers: filled + pending <= detected, and late fills + remembered abandonments <= unrecovered |
| `FlowLedger.ExactLedger` | nack/nack.go:492-643 | when every answer is current: detected = filled + unrecovered + pending + dropped at a re-baseline |
| `FlowLedger.StaleRefusalOvercounts` | nack/nack.go:1381-1398 | an input on which a filled gap is also booked unrecovered |
| `FlowSequence.PendingIsUnseen` | nack/nack.go:439-646 | over any calm run, pending is exactly the unseen numbers strictly between the first frame and the highest seen |
| `FlowSequence.OrderDoesNotMatter` | nack/nack.go:439-646 | two calm runs over the same set of frames end with the same position and pending set |
| `FlowRate.RepairIsIsolated` | nack/nack.go:473-542 | a repair at or below the position leaves the position, the rate estimate and every other pending or abandoned entry alone |
| `FlowRate.MovesBackOnlyOnRestart` | nack/nack.go:514-542 | the position moves back only on a live frame that fills nothing, is at or below the threshold and finds the position above it |
| `FlowRate.RebaselineLeavesTail` | nack/nack.go:580-622 | after an emitter change exactly the bounded tail is pending, or nothing, and the rate is forgotten |
| `FlowRate.JumpIsBounded` | nack/nack.go:568-646 | the pending set gains at most MaxForwardJump numbers from one frame, all strictly between the old position and the frame |
| `FlowBooks.DetectedIsBounded` | nack/nack.go:568-646 | one frame books at most MaxForwardJump gaps detected, plus one if it fills a probe, and registers only numbers strictly between the old position and itself, also when a re-baseline drops and registers some again |
| `FlowRate.OutageIsRepaired` | nack/nack.go:560-646 | an outage the flow's own rate explains four times over, or of at most 64 frames, is never taken for an emitter change: every skipped number is pending |
| `FlowForward.JumpExactlyWhen` | nack/nack.go:560-646 | a frame that skips numbers leaves all of them pending and keeps the rate if and only if it skips at most MaxForwardJump (4096) and there is no rate, it skips at most 64, or at most four times one more than the silence explains; otherwise the rate is forgotten and exactly the tail the silence explains is pending, or nothing before 16 frames in a row |
| `FlowForward.NextInSequence` | nack/nack.go:544-558 | the next frame in sequence counts as one more in a row and one more sample, fills its own gap only, and moves the estimate an eighth of the way to the silence before it |
| `FlowForward.RestartExactlyWhen` | nack/nack.go:514-542 | a frame at or behind the position moves it if and only if it is live, fills nothing, and is at or below the threshold (100) while the position is above; then everything pending is dropped, and the rate is kept either way |
| `FlowForward.FirstSetsPosition` | nack/nack.go:507-512 | the first stamped frame sets the position and nothing else of the stream |
| `FlowForward.RateSettles` | nack/nack.go:544-558 | on a steady flow every frame brings the estimate nearer to the spacing until it is within seven nanoseconds, where it stays |
| `FlowRate.SmoothWithin` | nack/nack.go:544-558 | one smoothing step stays between the bounds of its samples |
| `FlowRate.RateStaysWithin` | nack/nack.go:544-621 | over any run the estimate is unset or lies between the least and greatest sample, a sample being a positive silence before a frame next in sequence; so it is never a zero or negative divisor |
| `FlowProbes.AtMostOneProbe` | nack/nack.go:887-951 | two speculative entries are the same entry, the one in flight |
| `FlowProbes.RunOneProbe` | nack/nack.go:887-980 | in every reachable state a speculative entry is unique and is the one in flight |
| `FlowBooks.StepBooks` | nack/nack.go:439-980 | in every step detected rises by exactly the numbers newly registered plus the probes that came back, and unrecovered by exactly the real entries given up plus the real copies refused; so issuing, missing, rejecting, expiring, restarting over or dropping a probe books neither |
| `FlowBooks.RegisteredArePending` | nack/nack.go:568-646 | what a step registers is pending afterwards as a real gap, untried, at the first endpoint, due after its jitter and alive for one GapTTL |
| `FlowBooks.ProbeFilled` | nack/nack.go:658-671 | on every path a filled entry is suppressed once, and counted as a probe recovered exactly if it was one |
| `FlowProbes.StepBudget` | nack/nack.go:814-864 | a silent step spends one of the probe budget when it asks and never adds to it |
| `FlowProbes.SilenceIsNotPolled` | nack/nack.go:887-951 | in any stretch without a frame seen or a probe filled or rejected, at most TailProbeMaxMisses probes are asked |
| `FlowSilence.ProbedExactlyWhen` | nack/nack.go:799-951 | a sweep issues a probe, for the number after the last one seen and with a queued copy, if and only if it leaves nothing else pending, probing is on, none is in flight, the rate has 16 samples, fewer than the allowed misses (3) are counted, the silence has reached both the idle time of the rate and the minimum (500 ms), and there is room; without room only the attempt is counted |
| `FlowSilence.ForgottenExactlyWhen` | nack/nack.go:860-870 | a sweep forgets a flow if and only if it leaves nothing pending, not even a probe, and the silence is longer than TailTTL, or GapTTL where that is not set |
| `FlowSilence.BusyIsLeftAlone` | nack/nack.go:860-951 | over any run, a flow heard less than its idle time ago is not probed, and one heard within its lifetime is not forgotten |
| `FlowSilence.AnsweredProbeRestores` | nack/nack.go:658-672 | a probe answered with a frame, on every path, leaves no miss counted and none in flight |
| `FlowRetry.BudgetIsSpent` | nack/nack.go:1265-1299 | every failure moves on one endpoint and all but the first n - 1 spend the budget |
| `FlowEntries.SweepEntry` | nack/nack.go:814-858 | a complete sweep removes an entry exactly when it is past its deadline or out of retries, and otherwise only stamps it |
| `FlowEntries.StepEntry` | nack/nack.go:439-1412 | any step that leaves an entry in place and does not register its number anew changes it only by a sweep's stamp or by an answer to it |
| `FlowEntries.BehindPersists` | nack/nack.go:580-622 | a number at or behind the position is never registered anew while it stays pending |
| `FlowEntries.RunEntry` | nack/nack.go:439-1412 | over any run that keeps it, an entry is what its own sweeps and answers make of it, whatever else happens to the flow |
| `FlowEntries.EntryIsItsAnswers` | nack/nack.go:1225-1299 | apart from its stamp an entry is its first state and the answers it has drawn |
| `FlowEntries.RetriesEnd` | nack/nack.go:799-858 | in any run of the flow, with at most n endpoints known, n - 1 + MaxRetries unsuccessful outcomes for a gap end it at the next sweep, with any holds, sweeps, frames, fills and requests in between |
| `FlowEntries.ThrottlingEndsAtDeadline` | nack/nack.go:1225-1248 | in any run of the flow, however often a gap is throttled, answered and swept, the first sweep past its fixed deadline ends it |
| `FlowRetry.EscalationIsFree` | nack/nack.go:1281-1287 | a MISS or a lost unicast repair with a deeper endpoint to ask moves there at once, with the whole budget back and nothing else changed |
| `FlowRetry.SweepLeavesHopeful` | nack/nack.go:814-858 | after a sweep nothing pending is past its deadline or out of retries, but for a probe just issued |
| `FlowRetry.BackoffIsExact` | nack/nack.go:1289-1298 | where base * max fits in 63 bits, the guarded 64-bit shift is exactly min(base * 2^n, max) for every n |
| `FlowRetry.ShiftKeepsLow` | nack/nack.go:1292-1295 | a 64-bit shift by n keeps exactly the low 64 - n bits |
| `FlowRetry.GuardIsExactWhen` | nack/nack.go:1289-1298 | for one shift by n the guard is right if and only if base has no bit above 64 - n, or its low 64 - n bits shifted are zero or reach the cap |
| `FlowRetry.GuardIsAlwaysExactWhen` | nack/nack.go:1289-1298 | the wait is min(base * 2^n, max) for every n if and only if that holds for each of the first 64 |
| `FlowRetry.BackoffCanSlip` | nack/nack.go:1289-1298 | an input on which the wait comes out below the cap |
| `FlowRetry.ThrottleHoldIsExact` | nack/nack.go:1225-1248 | a THROTTLED hint never overflows, whatever the cap |
| `FlowRetry.ThrottledWaits` | nack/nack.go:1225-1248 | a THROTTLED answer moves the next attempt on by between half of and all of min(125 ms * 2^bucket, max), and leaves endpoint, budget and deadline as they were |
| `FlowRetry.JitterWithin` | nack/nack.go:1296-1298 | the jittered wait lies between half the hold, rounded down, and the hold |
| `FlowRetry.FailedRoundWaits` | nack/nack.go:1265-1299 | a timeout, a send error, and a MISS or lost unicast repair at the deepest endpoint wait between half of and all of min(base * 2^(rounds - 1), max), move on one endpoint and spend one of the budget |
| `FlowRetry.NoAnswerChangesNothing` | nack/nack.go:1175-1181 | an outcome that is no answer leaves the flow as it was |
| `FlowDispatch.QueueIsExact` | nack/nack.go:814-858 | a sweep queues exactly the entries that are due, not given up and find room, each once, as stamped |
| `FlowDispatch.RequestCopiesAreExact` | nack/nack.go:717-743 | a request collects, under the lock, exactly one copy of each gap it registers |
| `FlowDispatch.QueueStopsWhenFull` | nack/nack.go:746-754 | of those the queue takes the longest prefix it has room for, and none of the rest |
| `FlowDispatch.QueuedExactlyWhen` | nack/nack.go:846-857 | over any run that keeps a gap's entry and brings no answer to it, a sweep queues a copy if and only if the gap is due by the sweeps before it, there is room, and it is not given up |
| `FlowDispatch.SecondCopyExactlyWhen` | nack/nack.go:846-857 | after a sweep queued a copy, the next sweep queues another if and only if it comes later than the response timeout plus slack, finds room and does not give the gap up, whatever frames, requests, fills and other answers come in between |
| `FlowDispatch.RequestCopyExactlyWhen` | nack/nack.go:722-755 | a gap registered by a request, on a known flow or one it creates, is queued by the next sweep if and only if that comes later than its jitter, finds room and does not give it up; so a copy the request queued is doubled |
| `FlowDispatch.ProbeCopyExactlyWhen` | nack/nack.go:919-951 | the same for a tail probe, with no jitter at all |
| `FlowDispatch.ThrottledIsHeld` | nack/nack.go:1225-1248 | over any run until the next answer, no sweep within half the hinted hold queues a copy of a throttled gap, and a sweep past the whole hold does, if there is room and the gap is neither past its deadline nor out of retries |
| `FlowLate.LateFillExactlyWhen` | nack/nack.go:486-489 | a step counts one late fill if and only if it brings the frame of a number given up and still remembered |
| `FlowLate.LateFrameCounts` | nack/nack.go:1339-1378 | over any run in between, the frame of a gap given up is counted late if and only if no sweep came more than two minutes after |
| `FlowLate.RunBounded` | nack/nack.go:1339-1360 | in every run a flow remembers at most 4096 numbers given up |
| `FlowLate.GivenUpIsRecalled` | nack/nack.go:814-845 | a real gap a sweep gives up is remembered with its time, while there is room |
| `FlowLate.FlushedIsRecalled` | nack/nack.go:528-541 | so is every real gap pending when the proxy restarts |
| `FlowLate.RefusedIsRecalled` | nack/nack.go:1381-1398 | so is a real gap whose repair is refused, which also ceases to be pending or probed |
| `FlowObjects.FlowObject.File` | nack/nack.go:598-608 | a new entry object is filed; every other number keeps the object it has |
| `FlowObjects.FlowObject.RegisterRange` | nack/nack.go:624-643 | the loop refines the specified fold, with new objects only for numbers not pending |
| `FlowObjects.FlowObject.RegisterList` | nack/nack.go:722-742 | the loop refines the specified fold and collects exactly the specified copies |
| `FlowObjects.FlowObject.Restart` | nack/nack.go:528-540 | the flush refines the specified one, in any walk order, and lets every object go |
| `FlowObjects.FlowObject.StampGap` | nack/nack.go:846-857 | an entry is stamped in place through the map: it alone stands for something else afterwards, and the queued copy keeps the stamp |
| `FlowObjects.FlowObject.SweepGaps` | nack/nack.go:814-858 | the loop over the entry objects refines the specified fold, in any walk order, and queues exactly the specified copies |
| `FlowObjects.FlowObject.Sweep` | nack/nack.go:804-869 | one flow's sweep refines the specified one, with the copies queued, and says when the flow is dropped |
| `FlowObjects.FlowObject.RetryGap` | nack/nack.go:1225-1299 | an answer changes the entry's object in place through the map; no other entry and not the map itself changes |
| `Tracker.StepAtFlow` | nack/nack.go:439-871 | a tracker step acts on every flow as a step of that flow's own machine, or not at all |
| `Tracker.RunAtFlow` | nack/nack.go:439-871 | a tracker run is, for each flow, a run of that flow's machine |
| `Tracker.RunWithinCap` | nack/nack.go:449-469 | in every run the flow table stays within MaxFlows |
| `Tracker.RefusedExactlyWhen` | nack/nack.go:449-469 | a stamped frame is counted refused if and only if its flow is unknown and the table is at MaxFlows; it changes no flow then, and leaves its flow in the table otherwise |
| `Tracker.EveryFlowKeepsBooks` | nack/nack.go:439-871 | the loss ledger and the single probe hold of every flow in every tracker run |
| `TrackerObjects.TrackerObject.constructor` | nack/nack.go:302-332 | a new tracker stands for the empty table |
| `TrackerObjects.TrackerObject.Pending` | nack/nack.go:1316-1329 | the loop answers whether any of the numbers is a pending gap of the flow |
| `TrackerObjects.TrackerObject.Locate` | nack/nack.go:449-469 | the flow is found or created, and refused exactly when unknown at the cap |
| `TrackerObjects.TrackerObject.ObserveFrom` | nack/nack.go:439-646 | refines the specified step on flow and entry objects no two flows share |
| `TrackerObjects.TrackerObject.RequestGaps` | nack/nack.go:696-743 | refines the specified step on flow and entry objects no two flows share, and queues the specified copies |
| `TrackerObjects.Enqueue` | nack/nack.go:746-754 | the loop queues that prefix |
| `TrackerObjects.TrackerObject.Fill` | nack/nack.go:760-775 | refines the specified step |
| `TrackerObjects.TrackerObject.Answer` | nack/nack.go:1005-1195 | refines the specified step; only entry objects of that flow change |
| `TrackerObjects.TrackerObject.Sweep` | nack/nack.go:799-871 | the loop over the flow table, in any order, refines the specified sweep, and queues each flow's specified copies once, in the order of the walk |
| `Composition.RequestOutcome` | nack/nack.go:696-743 | a request leaves some of its numbers pending if and only if the flow is admitted, and then all of them |
| `Composition.TrackerAnswers` | nack/nack.go:1316-1330 | the tracker answers pending if and only if some number of the list is a pending gap of the flow, and admits a flow if and only if it is known, there is no cap, or the table is below it |
| `Composition.FirstExpiryHolds` | reassembly/reassembly.go:951-987 | at its first expiry inside the age limit a slot is kept in that sweep if and only if it can name a missing number and the tracker admits its flow; all it is missing is then pending |
| `Composition.LaterExpiryHolds` | reassembly/reassembly.go:951-987 | after that it is kept if and only if some number it is missing is still a pending gap of its flow |
| `Composition.SweepKeepsRepaired` | main.go:683-693 | a whole sweep over slots sharing the tracker keeps a slot if and only if it is not due, or it can name a missing number, is inside the age limit, and at its turn has a missing number in repair or, at its first expiry, is admitted by the tracker; a kept slot is not reported abandoned |
| `Composition.SweepAsksForAll` | main.go:683-693 | a slot a sweep keeps at its first expiry has everything it is missing pending when the sweep is over, wherever in the sweep its turn comes |
| `Composition.InRepairIsSheltered` | reassembly/reassembly.go:951-987 | whatever the slots before it ask for, a slot inside the age limit is kept if a missing number is in repair when the sweep starts, or if it has not asked and its flow is known or uncapped |
| `ListenerSystem.SeenIsNotPending` | listener/listener.go:697-719 | a processed fragment's number is not pending on its flow |
| `ListenerSystem.RoomNotAbandoned` | reassembly/reassembly.go:578-581 | making room at the cap abandons the first listed live slot and no other |
| `ListenerSystem.RepairedObjectIsDelivered` | listener/listener.go:697-719 | buffer and tracker together: an object within the bound, held at each of its expiries, in that exact sense, and never the slot evicted at the cap, completes with exactly its bytes and identifiers when its last fragment is seen, however fragments were lost, reordered, duplicated and repaired |
| `Dedup.RunExact` | dedup/dedup.go:57-89 | after any calls the map holds exactly the keys whose latest insertion is in the ring and none of whose older cells was overwritten since |
| `Dedup.SlidingWindow` | dedup/dedup.go:57-89 | with expiry off a key is reported seen if and only if it is among the last capacity inserted keys |
| `Dedup.HitExactlyWhen` | dedup/dedup.go:57-89 | for any expiry setting a key is reported seen if and only if the map remembers it in that sense and the latest call with it is no longer than the TTL ago |
| `Dedup.DuplicatesArePassedBefore` | dedup/dedup.go:57-89 | a reported duplicate was passed before, the latest time within the TTL when expiry is on; a set of any capacity |
| `Dedup.WithinCapacity` | dedup/dedup.go:57-89 | remembered keys are all in ring cells and never exceed the capacity |
| `Dedup.StaleCellForgets` | dedup/dedup.go:69-88 | an input on which a key inserted last but one is forgotten although the ring still holds it |
| `Dedup.DedupSet.constructor` | dedup/dedup.go:42-52 | a new set; non-positive capacity disables it |
| `Dedup.DedupSet.SeenAndAdd` | dedup/dedup.go:57-89 | ring, map, head and count refine the history specification; a disabled set answers false and records nothing |
| `Dedup.DedupSet.Insert` | dedup/dedup.go:78-88 | the ring overwrites exactly the oldest key's cell |
| `Fanout.ReachedByWeight` | fanout/fanout.go:183-200 | the index routes a group to each consumer once per mention in its shard list, and once if it lists none |
| `Fanout.IndexIsScan` | fanout/fanout.go:183-200 | index and unindexed scan reach the same consumers equally often if and only if no subscribed consumer mentions the group twice |
| `Fanout.AgreeOn` | fanout/fanout.go:183-200 | the same for one consumer |
| `Fanout.SendReachesTheScan` | fanout/fanout.go:323-355 | with duplicate-free shard lists Send reaches exactly whom a scan of the table would admit, each once |
| `Fanout.ReachesExactly` | fanout/fanout.go:323-355 | every consumer is sent the frame as often as its table entries mention the group (once if they list none), if its filter admits the frame and it is not a version 2 frame of its own flow, and otherwise never |
| `Fanout.RepeatedShardDoubles` | fanout/fanout.go:183-200 | an input on which a consumer is handed a frame twice |
| `Fanout.FirstErrorIsFirst` | fanout/fanout.go:337-354 | the error returned is the earliest failure that is not a lost election |
| `Fanout.NoErrorIfNone` | fanout/fanout.go:337-354 | without such a failure no error is returned |
| `Fanout.StampedIncrease` | fanout/fanout.go:435-452 | the members of one bundle get strictly increasing fresh numbers, past those that fail to encode |
| `Fanout.StampedIsNumbered` | fanout/fanout.go:435-452 | the members handed out are exactly those that encode, in bundle order, each numbered the counter plus its place in the bundle |
| `Fanout.HandoversAreShares` | fanout/fanout.go:371-421 | every consumer subscribed, admitted by its filter and not the source gets, as often as it is routed to, the bundle whole if it is flagged capable and its sink takes bundles, and otherwise every member in order; no other consumer gets anything |
| `Fanout.SplitsExactlyWhen` | fanout/fanout.go:396-412 | the bundle is split if and only if such a consumer lacks one of the two |
| `Fanout.NumbersIncreaseOverRuns` | fanout/fanout.go:435-452 | over any run of split bundles the numbers given on a flow strictly increase |
| `Fanout.CounterIsLastNumber` | fanout/fanout.go:435-452 | the per-flow counter after a run is where that numbering stands |
| `Fanout.Sink.Apply` | fanout/fanout.go:183-200 | the index built by the loops is the specified one, whatever table was there before |
| `Fanout.Sink.Send` | fanout/fanout.go:323-355 | the frame goes to the specified recipients in order, past errors, every consumer getting exactly its share, and the first error is returned |
| `Fanout.Sink.Decoalesce` | fanout/fanout.go:435-452 | members that encode are numbered on from the flow's counter by their place, and it advances past every one |
| `Fanout.Sink.SendBundle` | fanout/fanout.go:371-421 | every consumer gets its share, whole or as members of one split made at most once, and the flow's counter moves past the members if and only if someone admitted needs them |
| `Registry.SortEndpoints` | discovery/registry.go:150-155 | a permutation sorted by tier ascending, preference descending |
| `Registry.SeedsTrailExactlyWhen` | discovery/registry.go:122-165 | every snapshot ends in the unannounced seeds in list order if and only if each beacon sorts strictly ahead of each of them and no two different ones tie |
| `Registry.SeedsComeLast` | discovery/registry.go:94-113 | which holds with at most 256 seeds and no beacon at tier 0xFF |
| `Registry.SeedsExpireIn9999` | discovery/registry.go:98-111 | a seed sits at tier 0xFF, expires in the year 9999, announces nothing and has a synthetic instance ID by position |
| `Registry.SeedTierBeaconComesLast` | discovery/registry.go:122-165 | an input on which a beacon is asked after a seed |
| `Registry.DemoteSelf` | nack/nack.go:272-287 | remote endpoints in order, then this node's own in order |
| `Registry.DemotedIsPermutation` | nack/nack.go:272-287 | no endpoint is lost or added |
| `Registry.RemoteSeedsFirst` | nack/nack.go:404-411 | after demotion, with at most 256 seeds and no beacon at tier 0xFF, every snapshot asks every remote seed before any of this node's own |
| `RegistryObjects.EntryObject.constructor` | discovery/registry.go:11-19 | an entry stands for its endpoint |
| `RegistryObjects.EntryObject.Refresh` | discovery/registry.go:50-56 | every field but the instance ID follows the beacon |
| `RegistryObjects.LivesThreeIntervals` | discovery/registry.go:42-83 | an entry outlives an eviction if and only if it was heard no longer than three of its announced intervals ago; other entries go by their own |
| `RegistryObjects.SaysWhatIsAnnounced` | discovery/registry.go:42-69 | the entry says what the beacon announced, unicast repair if and only if bit three of its flags is set |
| `RegistryObjects.MakeSeeds` | discovery/registry.go:98-111 | one entry per address at tier 0xFF, preference by list position |
| `RegistryObjects.Surviving` | discovery/registry.go:76-82 | exactly the unexpired entries stay, and a change is noticed exactly when one went |
| `RegistryObjects.MergeBeacons` | discovery/registry.go:138-143 | every beacon entry once, in any walk order, and the set of their addresses |
| `RegistryObjects.UnseenSeeds` | discovery/registry.go:144-148 | the seeds no beacon announces, in list order |
| `RegistryObjects.Rebuild` | discovery/registry.go:123-155 | a sorted permutation of the beacon entries and the unannounced seeds |
| `RegistryObjects.CopyAll` | discovery/registry.go:167-173 | new objects with the same contents |
| `RegistryObjects.EndpointRegistry.constructor` | discovery/registry.go:34-38 | an empty registry |
| `RegistryObjects.EndpointRegistry.Upsert` | discovery/registry.go:42-69 | one beacon entry is inserted or refreshed in place; nothing else changes and the cache is invalidated |
| `RegistryObjects.EndpointRegistry.Evict` | discovery/registry.go:72-83 | exactly the expired entries go; the cache is invalidated exactly when one did |
| `RegistryObjects.EndpointRegistry.Seed` | discovery/registry.go:94-113 | the seeds are replaced and the cache is invalidated |
| `RegistryObjects.EndpointRegistry.Snapshot` | discovery/registry.go:118-174 | cached or rebuilt, the result is a snapshot of what the registry holds now, made of new objects the registry does not keep |

## Left out

- Sockets, receive batching, goroutines, tickers and shutdown: only the outcomes of a dispatched NACK appear, as one step per outcome with arbitrary timing and repetition.
- Interleaving below a locked method: each is one atomic step; the copies handed to the dispatch queue and answered later supply the asynchrony.
- SHA-256 slot keys are symbolic (injective), SHA-256d and transaction verification an arbitrary predicate, group derivation, subtree filters, flow hashes and frame encoding arbitrary functions: that code is in libraries that are not part of this model.
- Constructor defaulting of non-positive settings, and setters called in mid-run: a configuration is fixed, with at least one slot and positive lifetimes.
- A missing metrics recorder: the tracker's books are always kept, although without a recorder the source also skips resetting the probe miss counter on a filled probe (nack/nack.go:662-664).
- Labels of a flow (group index, subtree, source address, owner) and the choice of the recovery function: they feed metrics and wire fields, not the decisions modelled here.
- The floating-point idle factor of tail probes is an arbitrary function of the rate estimate; random jitter is an arbitrary share.
- Overflow of time arithmetic and of the 64-bit egress counter: times and that counter are unbounded integers. Sequence-number, shift and 32-bit length wrap-around are modelled.
- Fanout.Sink.Send: the ingress observers that count a consumer's own returning traffic are not called.
- SendBeef, SendHeader and the broadcasts of fanout/fanout.go: the same delivery loop over a table without the index.
- The order among tied registry entries: the source's sort is not stable, so SortEndpoints promises none.
- Upsert's address formatting, host comparison in demoteSelf and the beacon wire format: the address string and "is this node" are given.
- Wire codecs, configuration, filters, manifests, transaction deduplication, the retry tee and egress sinks: fixed layouts, set membership and thin wrappers that would only add easy members.
