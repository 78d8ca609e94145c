# Verified model of the steady_state channels, statistics and code generator

This project models the parts of the steady_state actor framework whose correctness
rests on more than one function, and proves what those parts promise.

**The dual-ring stream.** A stream is two bounded single-producer, single-consumer rings:
one of control items, each announcing a payload length, one of payload bytes. Nothing but
the order of index updates and two vacancy checks keeps them in step, and most push results
are thrown away.

- `Rings` is one physical ring: an array and two indices modulo twice the capacity, the
  convention of the `ringbuf` crate whose index formulas `shared_vacant_units` and
  `shared_avail_units` repeat. Its lemmas turn the three primitive actions (store a slot,
  publish the write index, publish the read index) into actions on a queue.
- `Framing` says what a frame is and cuts bytes into payloads; `SliceScan` compares the
  two-loop item scan of the stream slice take with the single scan of the quad-slice copy.
- `StreamProtocol` is a state machine for one producer and one consumer. Every load or store
  of an index shared with the other side is one step, payload is published before its
  item, and results the source discards are discarded. A run is any
  sequence of steps; the theorems quantify over all runs and all their states. What concerns
  the producer, and that no check or index of the consumer fails, holds in every run; that the
  rings stay in step holds exactly as long as no slice take has skipped an item
  (`StreamProtocol.FramingIff`), and the theorems that need it name that condition.
- `StreamOutcomes` says what each call comes to, from its first step to its return, with the
  other side moving freely in between: exactly which frames it sent or delivered.
- `StreamProgress` says that calls do come to an end: a rank that every step of a call lowers, the
  states in which a side can be stuck (only waits for room), and that with the room there a
  waiting call can go through.
- `StreamSkips` builds a run, from empty rings, that puts the rings out of step.
- `ChannelProtocol` interleaves the two sides of a plain channel, with the two index loads of the
  vacancy and availability queries as separate steps, and says the same of its calls: what each
  comes to, and that it can go on.
- `RingBuffers` and `StreamChannel` are the same calls as mutable objects over arrays, one
  thread at a time, each proved against the queue or the frames.

**Rolling-window telemetry.** `Windows` holds the staggered accumulator blocks and, beside
them, `Expected`: the same history and window recomputed from the raw samples. The two
computers in `StatsComputers` are proved equal to that recomputation after every frame.
`Thresholds` gives the integer comparisons, the percent label and the integer variance their
meaning on the window, over the reals; `Triggers` carries that to the live objects.
`GraphLoad` is the mCPU and load arithmetic that feeds the actor computer.

**Lazy channels.** `LazyChannels` interleaves any number of threads declaring channels and
bundles, cloning ends and building eagerly; a step is one atomic action on the id counter, a
lock or a field behind one. `ChannelBuilding` is the same as mutable objects.

**Bundle roll-up.** `RollUp` models how the code generator groups the channels of a diagram
in two passes, `NodeNames` how it splits node names into stem and number. `DiagramLaws` states
what the groups say about the arrows they were read from; so that this can be said, a channel in
the model carries the position of its arrow (`arrow`), which the source does not have and nothing
in the grouping looks at. `BundleHomes` says of the arrows alone which of them end in one group
and on which side it is bundled. `ProjectModels` is the mutable project model that the two passes
update.

`Arithmetic` collects the nonlinear facts used by the statistics.

## Where the code differs from what it says

- A latency threshold is truncated to whole microseconds before it is compared
  (`core/src/channel_stats.rs:912`), so a threshold with a fraction of a microsecond does not
  decide exactly. `Thresholds.LatencyAboveRightIff` and `Thresholds.LatencyBelowRightIff`
  say for which settings it is right on all frames that can be recorded;
  `Thresholds.LatencyAboveMisfires` and `Thresholds.LatencyBelowMisses` are frames on which it
  is wrong. `Thresholds.LatencyTriggerExact` says what it does decide, for every threshold.
- The stream slice take restarts its scan on the second piece of the control ring even when
  the first scan stopped for lack of payload room (`core/src/core_rx_stream.rs:248-257`).
  `StreamProtocol.FramingIff` proves that over any run the rings are in step exactly until
  such a skip, and `StreamProtocol.SurplusIff` that payload is then left behind for good.
  `SliceScan.SecondLoopCanSkip` is a ring on which it happens and `StreamSkips.SomeRunSkips` a
  run from empty rings that reaches it. A payload target with room
  for everything announced rules it out (`SliceScan.RoomForAllNeverSkips`).
- Lanes of a bundle share a key only if nobody else draws an id meanwhile
  (`LazyChannels.LanesShareKeyIff`); otherwise a lane can land on another bundle's key
  (`LazyChannels.InterruptedLaneCollides`).
- Parallel arrows from one source to one target are bundled on the source by the first pass, but a
  later lone arrow to that target is let into their bundle, and the bundle then counts as one on
  the target (`cargo-steady-state/src/extract_details.rs:422-440`).
  `DiagramLaws.ParallelArrowsChangeSides` gives such diagrams, `DiagramLaws.SomeChangeSides` one
  of them, and `BundleHomes.OnTargetIff` the exact condition on the arrows.
- Only the very first channel of all can be marked as not to be bundled
  (`cargo-steady-state/src/extract_details.rs:536`): `DiagramLaws.UnbundledIff`.
- A node name with leading zeros in its number is not restored by `unified_name`
  (`NodeNames.JoinedAgainIff`, `NodeNames.LeadingZeroLost`).

## Model

| member | source | states |
|---|---|---|
| Rings.StoreReadDrops | core/src/core_rx.rs:470-478 | advancing the read index, modulo twice the capacity, removes exactly the oldest entries and frees exactly that many slots |
| Rings.StoreWriteAppends | core/src/core_tx.rs:268-273 | advancing the write index makes exactly the next slots visible, in order behind the queue, and never beyond capacity |
| Rings.WriteSlotsInvisible | core/src/core_tx.rs:488-494 | filling the vacant slots of a push, wrap-around included, changes nothing the consumer can see, and the slots then hold the data in order |
| Rings.SlicesAreQueue | core/src/core_rx.rs:622-644 | the two contiguous pieces of the ring, joined, are the queue |
| Framing.SplitJoined | core/src/core_rx_stream.rs:208-227 | cutting a byte stream at the lengths of its items gives back the frames that were joined, whatever follows |
| Framing.JoinSplit | core/src/core_rx_stream.rs:208-227 | joining the cut frames gives back the items and exactly the bytes they announce |
| Framing.FitCountIsLargest | core/src/core_rx.rs:233-270 | a prefix of items fits both rooms exactly when it is no longer than the count the greedy scan chooses |
| SliceScan.FitCountConcat | core/src/core_rx.rs:233-247 | one scan over two chained pieces counts what two scans count if the first exhausts its piece, and the first scan's count otherwise |
| SliceScan.CopiedFits | core/src/core_rx_stream.rs:230-257 | the two loops never select more items or bytes than the targets hold or the ring announces |
| SliceScan.TwoLoopsMatchOneScan | core/src/core_rx_stream.rs:238-257 | the two loops select the count of the single scan, and copy the items they later drop, exactly when the second cannot jump over an item the first stopped at |
| SliceScan.TwoLoopsKeepFramingIff | core/src/core_rx_stream.rs:230-283 | the slice take leaves items and bytes in step exactly under that condition, whatever payload is published ahead of its item |
| SliceScan.SkipIffSurplus | core/src/core_rx_stream.rs:238-277 | the dropped items announce at least the bytes that are freed, and exactly those only under that condition |
| SliceScan.RoomForAllNeverSkips | core/src/core_rx_stream.rs:230-257 | a payload target with room for everything announced rules the skip out |
| SliceScan.SecondLoopCanSkip | core/src/core_rx_stream.rs:248-257 | a ring reached by pushes and a take, and room for two items and three bytes, where the second loop delivers the wrong item |
| StreamSkips.SomeRunSkips | core/src/core_rx_stream.rs:248-257 | a run from empty rings, of sends and a take, whose last step is a skip: the framing invariant holds up to it and is lost |
| StreamProtocol.ProducerStepKeepsSound | core/src/core_tx_stream.rs:133-150 | every index load, slot fill, index store and wait of a send keeps the order of both rings and the room the producer relies on, in any run and whatever the consumer is in the middle of |
| StreamProtocol.ProducerStepKeepsInv | core/src/core_tx_stream.rs:283-308 | it also keeps the framing invariant |
| StreamProtocol.ConsumerStepKeepsSound | core/src/core_rx_stream.rs:208-283 | every step of a take, a slice take or a peek keeps them too, and leaves payload behind exactly where a slice take skips |
| StreamProtocol.ConsumerStepKeepsInv | core/src/core_rx_stream.rs:208-283 | every step that does not skip keeps the framing invariant |
| StreamProtocol.EveryStateSound | core/src/core_tx_stream.rs:327-340 | in every state of every run both rings hold in order what was published and not removed, and the consumer's checks are backed |
| StreamProtocol.EveryStateInv | core/src/core_tx_stream.rs:327-340 | the framing invariant holds in every state of every run up to which nothing was skipped |
| StreamProtocol.FramingIff | core/src/core_rx_stream.rs:230-283 | the framing invariant holds in a state of a run exactly when no slice take has skipped before it |
| StreamProtocol.SurplusIff | core/src/core_rx_stream.rs:248-277 | payload without an item is in the ring exactly after a skip, and payload is never missing |
| StreamProtocol.RingsAgreeIff | core/src/core_rx_stream.rs:270-277 | the lengths in the control ring add up to the payload ring, less what is published ahead, exactly when nothing was skipped |
| StreamProtocol.VisibleItemsHaveTheirPayload | core/src/core_tx_stream.rs:327-340 | while nothing is skipped, in every state each visible control item has its whole payload visible at its offset and the rings cut into frames are exactly the sent ones not yet gone; between the two stores of a removal one ring is ahead by exactly the frames being removed |
| StreamProtocol.ConsumerNeverDisappointed | core/src/core_rx_stream.rs:208-227 | in every run the length check of a take passes, its inner pop finds an item in both of its accesses, the check of a matching advance passes, and no slice of the peek is out of bounds |
| StreamProtocol.PeekIsNextFrame | core/src/core_rx_stream.rs:111-140 | while nothing is skipped the pieces the last peek returned are exactly the oldest undelivered frame, until it is taken |
| StreamProtocol.IgnoredPushesSucceed | core/src/core_tx_stream.rs:133-150 | in every run every payload push goes out whole and every item push finds room, so the discarded results are full successes |
| StreamProtocol.FramesConserved | core/src/core_tx_stream.rs:283-308 | while nothing is skipped deliveries are a prefix of what was sent and the rings hold, in every state, exactly the sent frames not removed plus payload ahead; between sends reported equals delivered plus queued |
| StreamProtocol.AtRest | core/src/core_tx_stream.rs:755-766 | between sends, in every run and consumer state, every sent frame has been reported and the rings hold exactly the items and bytes not removed |
| StreamProtocol.GotGrows | core/src/core_rx_stream.rs:208-227 | no step takes back a delivery, a send or a removal, or changes a capacity |
| StreamProtocol.FailedSendsLeaveNothing | core/src/core_tx_stream.rs:348-425 | calls that report nothing sent (an error, blocked, timeout, closed, zero) leave both rings as they were less what left at the front, in every run and whatever the consumer is in the middle of |
| StreamProtocol.FailedSendsLeaveFrames | core/src/core_tx_stream.rs:755-849 | while nothing is skipped what left meanwhile are whole items and whole payloads |
| StreamProtocol.WaitedRoomStays | core/src/core_tx_stream.rs:224-260 | after a wait returned true both rings have the clamped room at once, and keep it under any consumer steps until the producer's next call |
| StreamProtocol.RoomOnlyGrows | core/src/core_rx_stream.rs:270-277 | whatever the consumer drops, the vacancy grows by exactly that and all a producer relies on is still there |
| StreamProtocol.VisibleFrames | core/src/core_rx_stream.rs:230-236 | the frames behind any visible prefix of items have all their bytes visible at the front of the payload ring |
| StreamOutcomes.SendOutcome | core/src/core_tx_stream.rs:327-425 | a try or async send that returns has published and reported exactly its frame, or nothing, and then at some step of the call a ring really had no room |
| StreamOutcomes.IterOutcome | core/src/core_tx_stream.rs:133-150 | an iterator send publishes and reports exactly as many leading frames as the item vacancy it read; lack of payload room only delays it |
| StreamOutcomes.SliceOutcome | core/src/core_tx_stream.rs:283-308 | a slice send, empty or not, publishes and reports exactly the largest leading count that fits the item and the payload vacancy it read, whatever is freed afterwards |
| StreamOutcomes.PokeOutcome | core/src/core_tx_stream.rs:71-83 | frames filled in place and advanced over are published and reported all together, or none is and a ring really had too little room; once filled the advance is never declined |
| StreamOutcomes.WaitOutcome | core/src/core_tx_stream.rs:224-260 | a wait, from its first step to its return, ends with the clamped room there in both rings at once; it gives up only through shutdown, and only after it found one of the rings not empty and also found it short of the request |
| StreamOutcomes.TryNeverWaits | core/src/core_tx_stream.rs:327-340 | a send that does not wait is in none of the waits in any state of its call |
| StreamOutcomes.TakeOutcome | core/src/core_rx_stream.rs:208-227 | a take, from its first step to its return, comes back empty-handed only if the control ring was empty at some step; otherwise, while nothing is skipped, it delivers exactly the oldest undelivered frame, whatever is sent meanwhile |
| StreamOutcomes.PeekOutcome | core/src/core_rx_stream.rs:111-140 | a peek, from its first step to its return, comes back without a frame only if the control ring was empty at some step; otherwise it returns one and takes nothing, and while nothing is skipped that is exactly the oldest undelivered frame |
| StreamOutcomes.TakeSliceOutcome | core/src/core_rx_stream.rs:230-283 | a slice take delivers as many frames as its two loops chose; while nothing is skipped exactly the maximal prefix of the queued frames that fits both targets, frame for frame |
| StreamOutcomes.AdvanceOutcome | core/src/core_rx_stream.rs:92-108 | an advance past items and the bytes they announce is declined only if fewer items were there at some step; otherwise, while nothing is skipped, it delivers exactly those frames |
| StreamOutcomes.TryingStep | core/src/core_tx_stream.rs:755-849 | a step of a single send goes on, succeeds whole, or gives up; it waits or gives up only for lack of room |
| StreamOutcomes.SliceStep | core/src/core_tx_stream.rs:711-736 | a step of a slice send keeps the byte count equal to the sent lengths and returns only at the largest count that fits |
| StreamProgress.ProducerDescends | core/src/core_tx_stream.rs:133-150 | every step of a call, the waits included, lowers one rank |
| StreamProgress.ProducerCallBounded | core/src/core_tx_stream.rs:283-308 | so a call takes no more producer steps than its rank at the start, however the consumer moves |
| StreamProgress.ProducerNotStuck | core/src/core_tx_stream.rs:133-150 | the producer always has a next step, except while it waits for payload room of an iterator send or, without a shutdown to end it, for room asked for, and that room is not there |
| StreamProgress.ConsumerDescends | core/src/core_rx_stream.rs:208-283 | every step of a take, peek, advance or slice take lowers one rank |
| StreamProgress.ConsumerCallBounded | core/src/core_rx_stream.rs:208-283 | so such a call takes no more consumer steps than its rank at the start, however the producer moves |
| StreamProgress.ConsumerNotStuck | core/src/core_rx_stream.rs:208-283 | the consumer always has a next step: it never waits for the producer |
| StreamProgress.AwaitedSendCanFinish | core/src/core_tx_stream.rs:390-413 | with room in both rings an async send that waits can go on to publish and report its frame |
| StreamProgress.WaitCanFinish | core/src/core_tx_stream.rs:224-260 | with the clamped room in both rings a wait for room can return true |
| ChannelProtocol.VacantFormula | core/src/core_tx.rs:410-418 | with a stale read index the subtraction does not underflow and the result is exact for that index, hence at most the capacity |
| ChannelProtocol.StepKeepsInv | core/src/core_tx.rs:525-582 | every step of either side keeps order, conservation and the bounds on stale indices |
| ChannelProtocol.EveryStateInv | core/src/core_tx.rs:410-418 | that invariant holds in every state of every run |
| ChannelProtocol.ReportsAreSafe | core/src/core_rx.rs:553-561 | a reported vacancy or availability never exceeds the true one until the caller's own next call, and neither query panics |
| ChannelProtocol.DeliveredThenQueued | core/src/core_rx.rs:611-619 | what was delivered followed by what is queued is what was published, in order |
| ChannelProtocol.MessagesConserved | core/src/core_tx.rs:525-582 | every message handed to a send, tried or awaited, was published once or returned once, never both or neither |
| ChannelProtocol.SendOutcome | core/src/core_tx.rs:488-517 | a send that returns, tried, sliced or awaited, has published exactly as many of its messages as fit the vacancy at some step of the call, in order, and handed back exactly the others |
| ChannelProtocol.OneComesBack | core/src/core_tx.rs:525-582 | a single message is handed back only if the ring was full at some step of the call |
| ChannelProtocol.TryNeverWaits | core/src/core_tx.rs:511-517 | a try or slice send is never waiting in any state of its call |
| ChannelProtocol.TakeOutcome | core/src/core_rx.rs:611-644 | a take delivers exactly the longest prefix of the queue, as it was at some step of the call, that fits the room asked for |
| ChannelProtocol.VacancyReport | core/src/core_tx.rs:410-418 | a reported vacancy is exactly the one at the load of the read index, not less |
| ChannelProtocol.AvailReport | core/src/core_rx.rs:553-561 | a reported availability is exactly the one at the load of the write index, not less |
| ChannelProtocol.ProducerDescends | core/src/core_tx.rs:525-582 | every step of a call lowers one rank, those of the waits included |
| ChannelProtocol.ProducerCallBounded | core/src/core_tx.rs:525-582 | so a call takes no more producer steps than its rank at the start |
| ChannelProtocol.ProducerNotStuck | core/src/core_tx.rs:433-464 | the producer always has a next step, except while it waits for room that is not there and no shutdown can end the wait |
| ChannelProtocol.ConsumerNotStuck | core/src/core_rx.rs:611-644 | the consumer always has a next step |
| ChannelProtocol.AwaitedSendCanFinish | core/src/core_tx.rs:567-575 | with room in the ring an async send that waits can go on to publish its message |
| ChannelProtocol.SecondPushSucceeds | core/src/core_tx.rs:569-575 | the push after a granted wait always finds room |
| ChannelProtocol.QuiescentQueriesAddUp | core/src/core_tx.rs:410-418 | on one state the vacancy and availability formulas add up to the capacity |
| ChannelProtocol.WaitOutcome | core/src/core_tx.rs:433-464 | a wait, from its first step to its return, ends with the clamped room there; it gives up only where shutdown may end it, and only after it found the ring not empty and also found it short of the request |
| ChannelProtocol.WaitedRoomStays | core/src/core_tx.rs:433-464 | after a wait returned true the clamped room is there and stays under any consumer steps until the producer's next call |
| RingBuffers.CopyBoth | core/src/core_rx.rs:106-125 | the longest prefix of two pieces that fits lands at the front of the target, the rest of which is untouched |
| RingBuffers.RingBuffer.constructor | core/src/channel_builder.rs:945-946 | a new ring is empty and has the asked capacity |
| RingBuffers.RingBuffer.VacantUnits | core/src/core_tx.rs:410-418 | the formula counts the free slots |
| RingBuffers.RingBuffer.AvailUnits | core/src/core_rx.rs:553-561 | the formula counts the queued entries |
| RingBuffers.RingBuffer.AdvanceWrite | core/src/core_tx.rs:268-273 | the request cut to the vacancy becomes visible behind the queue |
| RingBuffers.RingBuffer.AdvanceRead | core/src/core_rx.rs:470-478 | the request cut to what is there is dropped from the front |
| RingBuffers.RingBuffer.PushSlice | core/src/core_tx.rs:488-494 | exactly the longest prefix that fits is queued, in order |
| RingBuffers.RingBuffer.TrySend | core/src/core_tx.rs:511-517 | the message is queued, or handed back with the queue unchanged exactly when the ring is full |
| RingBuffers.RingBuffer.TryTake | core/src/core_rx.rs:611-619 | the oldest message is returned and removed, or nothing happens on an empty ring |
| RingBuffers.RingBuffer.TakeSlice | core/src/core_rx.rs:622-644 | exactly the longest prefix of the queue that fits the target is copied and removed, across the wrap |
| StreamChannel.CopyFitting | core/src/core_rx_stream.rs:238-247 | one scan loop copies the longest fitting prefix of its piece and sums its lengths |
| StreamChannel.ScanPieces | core/src/core_rx_stream.rs:238-257 | the two loops fill the target with the first piece's fitting prefix and then the second's, within the target and the byte room |
| StreamChannel.ScanChain | core/src/core_rx.rs:238-247 | the counting loop stops at the largest count that fits |
| StreamChannel.CopyItemsAndPayloads | core/src/core_rx.rs:233-270 | the largest fitting number of items is copied with exactly their bytes, in order |
| StreamChannel.StreamChannel.TrySend | core/src/core_tx_stream.rs:327-340 | a whole frame joins the queued frames, or neither ring changes |
| StreamChannel.StreamChannel.SendSlice | core/src/core_tx_stream.rs:283-308 | the largest number of items that fits item room, source bytes and payload room goes out with exactly its bytes, as whole frames behind the queued ones |
| StreamChannel.StreamChannel.AdvanceWrite | core/src/core_tx_stream.rs:71-83 | both write indices advance by the counts, or neither does |
| StreamChannel.StreamChannel.AdvanceRead | core/src/core_rx_stream.rs:92-108 | both read indices advance by the counts, or neither does |
| StreamChannel.StreamChannel.TryTake | core/src/core_rx_stream.rs:208-227 | the oldest frame is delivered and removed from both rings; it declines only on an empty ring or a missing payload, and keeps rings in step |
| StreamChannel.StreamChannel.TakeSlice | core/src/core_rx_stream.rs:230-283 | targets receive the items of the two scans and the bytes they announce; rings in step stay so exactly without a skip, and then the targets hold exactly the frames that left |
| StreamChannel.SentSliceAppendsFrames | core/src/core_tx_stream.rs:283-308 | a sent prefix of items with its bytes appends exactly those frames |
| StreamChannel.AdvanceKeepsStepIff | core/src/core_rx_stream.rs:92-108 | an advance keeps the rings in step exactly when the byte count is the sum of the dropped lengths, and then drops whole frames |
| StreamChannel.TakeSliceDeliversFrames | core/src/core_rx_stream.rs:230-283 | without a skip the slice take delivers the maximal prefix of whole frames, all bytes included, and leaves the rest |
| Windows.FrameKeepsExpected | core/src/channel_stats.rs:330-435 | adding a frame to every block and rotating at the end of a bucket gives exactly the blocks and window recomputed from all samples |
| Windows.AddFrame | core/src/channel_stats.rs:330-372 | the update loop adds the sample and its square to every block and to no other |
| Windows.RotateBlocks | core/src/channel_stats.rs:373-435 | a full history gives up its oldest block as the window; every history gains an empty block |
| StatsComputers.ChannelStatsComputer.constructor | core/src/channel_stats.rs:174-321 | one empty block per metric, no window |
| StatsComputers.ChannelStatsComputer.AccumulateDataFrame | core/src/channel_stats.rs:330-435 | fill, rate and latency histories all equal the recomputation over every frame since the start, so they stay parallel; what this frame adds is a thousandfold of fill and rate, and as latency fill times frame duration in microseconds over rate, rounded down, or zero without a rate |
| StatsComputers.LatencyRounded | core/src/channel_stats.rs:355-363 | for every frame the latency times the rate is at most fill times frame duration in microseconds, and with one microsecond more it is above; it is zero without a rate |
| StatsComputers.SamplesRecord | core/src/channel_stats.rs:330-372 | for every frame accumulated the three sample rows hold a thousandfold of its fill, a thousandfold of its rate and its latency |
| StatsComputers.ChannelStatsComputer.Compute | core/src/channel_stats.rs:565-597 | the consumed total never decreases and equals the latest take plus the takes just before each rollback |
| StatsComputers.ActorStatsComputer.constructor | core/src/actor_stats.rs:339-422 | one empty block per metric, no window |
| StatsComputers.ActorStatsComputer.AccumulateDataFrame | core/src/actor_stats.rs:434-505 | mCPU and load histories equal the recomputation over every frame since the start, and this frame adds its mCPU to the one and its load to the other |
| StatsComputers.OpenBlock | core/src/channel_stats.rs:330-435 | after k rotations there are min(k+1, 2^window) blocks and block j sums exactly the samples from rotation k+1-len+j on |
| StatsComputers.CurrentWindow | core/src/channel_stats.rs:373-435 | a window exists exactly from rotation 2^window on and sums exactly the 2^(refresh+window) samples in front of the last rotation |
| Thresholds.McpuTriggerExact | core/src/actor_stats.rs:540-552 | the mCPU comparison decides above and below exactly as the real mean of the window does, and decides nothing without one |
| Thresholds.WorkTriggerExact | core/src/actor_stats.rs:582-595 | the same for load, a percent against ten-thousandths |
| Thresholds.RateTriggerExact | core/src/channel_stats.rs:705-714 | the same for messages per millisecond, despite shift and thousandfold scale |
| Thresholds.FilledPercentTriggerExact | core/src/channel_stats.rs:774-782 | the same for the fill as a fraction of capacity |
| Thresholds.FilledExactTriggerExact | core/src/channel_stats.rs:794-802 | the same for the fill as a count |
| Thresholds.LatencyTriggerExact | core/src/channel_stats.rs:909-917 | the same for latency against the whole microseconds of any threshold |
| Thresholds.LatencyAboveRightIff | core/src/channel_stats.rs:909-917 | "above" is right against the threshold in nanoseconds for all frames, fills above the capacity included as `core/src/channel_stats.rs:333-334` accepts them, exactly when window length times the dropped nanoseconds is below 1000 (or no latency can be recorded); the same for fills within any capacity above the threshold's microseconds |
| Thresholds.LatencyBelowRightIff | core/src/channel_stats.rs:909-917 | "below" is right for all frames, fills above the capacity included, exactly when no nanoseconds are dropped (or no latency can be recorded and the threshold is a microsecond or more); the same for fills within any capacity that reaches the threshold's microseconds |
| Thresholds.LatencyAboveMisfires | core/src/channel_stats.rs:684-693 | two recorded frames with a mean of 1.5 microseconds are reported above 1.999 |
| Thresholds.LatencyBelowMisses | core/src/channel_stats.rs:684-693 | a recorded frame with a mean of 1 microsecond is not reported below 1.5 |
| Thresholds.MeanCompare | core/src/actor_stats.rs:696-704 | cross-multiplied integers order as the real mean and the rational threshold do, zero units and denominators included |
| Thresholds.QuotientForm | core/src/actor_stats.rs:696-704 | for a proper unit and denominator that is the comparison of the two quotients |
| Thresholds.WholePercentIsFloor | core/src/channel_stats.rs:499-516 | shifting and dividing in two steps gives the floor of the exact percentage, clamped, equal to the label path; absent exactly when the average is switched off, without a window, or with an empty one |
| Thresholds.PercentArithmetic | core/src/channel_stats_labels.rs:134-143 | the two-step division of the scaled sum is one exact division |
| Thresholds.LabelCoversTrigger | core/src/channel_stats.rs:774-782 | when "average above n percent" fires the label shows at least n |
| Thresholds.CauchySchwarz | core/src/actor_stats.rs:438-456 | the squared sum of any samples is at most their number times their sum of squares, with equality exactly for equal samples |
| Thresholds.VarianceSafe | core/src/actor_stats.rs:780-787 | the unsigned subtraction never goes below zero, and the zero branch is taken exactly for a constant window |
| Thresholds.VarianceWithinOne | core/src/actor_stats.rs:780-787 | the integer under the root is within one of the true variance |
| Thresholds.McpuWindowBound | core/src/actor_stats.rs:434-456 | a window of mCPU sums to at most 1024 per frame |
| Thresholds.LiveMcpuBound | core/src/actor_stats.rs:434-505 | the current mCPU window of a live computer sums to at most 1024 per frame |
| Triggers.TriggeredMcpu | core/src/actor_stats.rs:540-552 | fires exactly when the mean of the recorded mCPU is strictly past the threshold |
| Triggers.TriggeredWork | core/src/actor_stats.rs:582-595 | fires exactly when the mean load is strictly past the threshold |
| Triggers.TriggeredRate | core/src/channel_stats.rs:705-714 | fires exactly when the mean rate is strictly past the threshold |
| Triggers.TriggeredFilled | core/src/channel_stats.rs:738-761 | fires exactly when the mean fill is strictly past the percentage or count |
| Triggers.TriggeredLatency | core/src/channel_stats.rs:684-693 | fires exactly when the mean latency is strictly past the whole microseconds of the threshold |
| GraphLoad.DotState.ApplyLocalMcpu | core/src/dot_node.rs:60-84 | mCPU is the busy fraction in 1024ths rounded down, load is kept, a status with an empty unit changes nothing whatever its await time, other nodes are untouched |
| GraphLoad.DotState.GraphMcpuTotal | core/src/dot/mod.rs:87-93 | the total is the sum over defined nodes with known work |
| GraphLoad.DotState.RefreshActorLoads | core/src/dot/mod.rs:101-111 | every defined node with work gets its share of one total, exactly the touched ones add one frame to their rolling statistics, that frame holds the node's mCPU and its new load, mCPU and load stay in range in nodes and recorded frames, and the loads now shown add up to at most 100 and more than 100 minus their number, or to zero on an idle graph |
| GraphLoad.DotState.ApplyGraphLoad | core/src/dot_node.rs:90-112 | one node's share is stored and, if asked, recorded beside its mCPU, the statistics' assertion on mCPU holding; a node without known work is left alone |
| GraphLoad.ShareBounds | core/src/dot_node.rs:46-52 | a member's share is its exact percentage rounded down; the clamp does nothing |
| GraphLoad.SharesAddUp | core/src/dot_node.rs:46-52 | the shares of n actors add up to at most 100 and more than 100 - n, none of them clamped |
| GraphLoad.UpdateMovesTotal | core/src/dot/mod.rs:87-93 | a status update moves the graph total by what it moves that node, and not at all if no actor is defined there |
| LazyChannels.StepKeepsInv | core/src/channel_builder_lazy.rs:328-358 | every atomic step of every thread keeps the ownership of ids and rings and the state of each lazy channel |
| LazyChannels.EveryRunInv | core/src/channel_builder_lazy.rs:273-358 | that invariant holds after any run of any number of threads |
| LazyChannels.BuilderOrChannel | core/src/channel_builder_lazy.rs:328-358 | whenever the channel lock is free exactly one of builder and channel is present |
| LazyChannels.NeverPanics | core/src/channel_builder_lazy.rs:328-336 | the builder is never found taken and the channel never found missing |
| LazyChannels.ClonesAgree | core/src/channel_builder_lazy.rs:328-358 | all ends cloned from one lazy channel are of the side asked for and belong to one ring, of the capacity it was declared with and with the id reserved then; ends of different ones share neither ring nor id |
| LazyChannels.CloneGoesOn | core/src/channel_builder_lazy.rs:328-358 | with every step of its own a cloning thread gets closer to handing out exactly one end, of the channel and the side asked for |
| LazyChannels.EagerGoesOn | core/src/channel_builder.rs:903-974 | an eager build gets closer with every step of its own to exactly one more channel, of the capacity asked for |
| LazyChannels.BuildGoesOn | core/src/channel_builder_build.rs:28-39 | with every step of its own a building thread gets closer to the end of its call |
| LazyChannels.FinishedCallsAreWhole | core/src/channel_builder_build.rs:28-56 | a build call its caller has returned from has made every lane it was asked for, each as asked |
| LazyChannels.NamesDistinct | core/src/channel_builder.rs:832-838 | ids of lazy and eager channels are pairwise distinct in any order of building and establishing, and so are the rings of all established ones |
| LazyChannels.LanesShareKeyIff | core/src/channel_builder_lazy.rs:282-288 | the lanes of a bundle share one key, the first lane's id, exactly when nobody else drew an id in between |
| LazyChannels.BundlesDiffer | core/src/channel_builder_lazy.rs:282-288 | two bundles built without interruption have no key in common |
| LazyChannels.InterruptedLaneCollides | core/src/channel_builder_lazy.rs:282-288 | a run in which an interrupted bundle's lane gets another bundle's key |
| LazyChannels.ConsecutiveIds | core/src/channel_builder_build.rs:28-39 | the lanes of an uninterrupted bundle have consecutive ids |
| LazyChannels.KeyOfLane | core/src/channel_builder_lazy.rs:282-288 | a lane's id is at least its index, so the saturating subtraction never saturates |
| ChannelBuilding.Graph.ToMetaData | core/src/channel_builder.rs:832-838 | a reserved id is kept and none is drawn; otherwise the id is one nobody was given before |
| ChannelBuilding.Graph.EagerBuild | core/src/channel_builder.rs:903-974 | both ends carry one id and belong to one ring that no other channel was given |
| ChannelBuilding.LazyChannel.constructor | core/src/channel_builder_lazy.rs:273-302 | an id nobody was given before is reserved, nothing is allocated |
| ChannelBuilding.LazyChannel.Establish | core/src/channel_builder_lazy.rs:328-336 | the first clone allocates a ring no other channel was given, later ones return it, it carries the reserved id and no id is drawn |
| ChannelBuilding.LazyChannel.GetTxClone | core/src/channel_builder_lazy.rs:328-336 | the clone is the transmitter of the channel's one ring, with the reserved id and the declared capacity; no id is drawn |
| ChannelBuilding.LazyChannel.GetRxClone | core/src/channel_builder_lazy.rs:349-358 | the clone is the receiver of that same ring |
| ChannelBuilding.BuildChannelBundle | core/src/channel_builder_build.rs:28-56 | the lanes get consecutive ids and, for more than one lane, one common key |
| NodeNames.ExtractTrailingNumber | cargo-steady-state/src/extract_details.rs:236-256 | the scan yields the trailing digits as a number and the stem in front, or the whole name when there are none or they do not fit |
| NodeNames.JoinedAgainIff | cargo-steady-state/src/extract_details.rs:297-303 | splitting and joining a name restores it exactly when its trailing digits are absent, too large, or without leading zeros |
| NodeNames.LeadingZeroLost | cargo-steady-state/src/extract_details.rs:297-303 | "node01" comes back as "node1" |
| NodeNames.ApartAgainIff | cargo-steady-state/src/extract_details.rs:236-256 | joining and splitting restores stem and number exactly when the stem does not end in a digit |
| NodeNames.PlainAgainIff | cargo-steady-state/src/extract_details.rs:236-256 | a name without an instance number comes back whole exactly when it does not end in a digit or its trailing number is too large |
| NodeNames.StemIff | cargo-steady-state/src/extract_details.rs:236-256 | the first part returned is the stem, and nothing else is: the name up to its trailing digits if they make a number that fits, otherwise all of it |
| RollUp.RollUpConserves | cargo-steady-state/src/extract_details.rs:495-552 | rolling up a channel adds exactly that channel to the groups, matched or not |
| RollUp.FromGroupsConserve | cargo-steady-state/src/extract_details.rs:411 | the first pass holds every channel exactly as often as it was given |
| RollUp.ToGroupsConserve | cargo-steady-state/src/extract_details.rs:422-444 | the second pass neither loses nor doubles a channel |
| RollUp.FromGroupsUniform | cargo-steady-state/src/extract_details.rs:411 | groups of the first pass agree on name, capacity, type, copy and source node, and no two could have been one |
| RollUp.FromGroupsIff | cargo-steady-state/src/extract_details.rs:411 | two channels are in one first-pass group exactly when they agree on name, capacity, type and source node |
| RollUp.ToGroupsUniform | cargo-steady-state/src/extract_details.rs:422-444 | final groups agree on name, capacity, type, copy and bundle_on_from; true means one source node and no index, false one target node with indices equal to positions |
| RollUp.ToGroupsIff | cargo-steady-state/src/extract_details.rs:422-444 | two channels the first pass left alone end in one group exactly when they agree on name, capacity, type and target node |
| RollUp.BundlesStayWhole | cargo-steady-state/src/extract_details.rs:424-427 | a bundle of the first pass stays together, in order, at the front of a final group |
| RollUp.JoinedMatchesSame | cargo-steady-state/src/extract_details.rs:430-440 | a channel accepted for its target node changes no other channel's choice of that group |
| RollUp.Widen | cargo-steady-state/src/extract_details.rs:509-522 | capacity and copy are raised on whichever side lacks them, and a target match marks every member |
| RollUp.Join | cargo-steady-state/src/extract_details.rs:507-533 | the joined group is the old members and the new one, unified and renumbered |
| RollUp.FirstUnbundledIff | cargo-steady-state/src/extract_details.rs:533-546 | the channel that starts an empty collection is marked as not to be bundled exactly if it was before, or its modules agree and both node names are one stem followed by instance numbers or nothing |
| RollUp.LaterMarksStay | cargo-steady-state/src/extract_details.rs:507-549 | on a collection that is not empty no channel's mark changes, the new one's included |
| ProjectModels.ProjectModel.RollUpBundle | cargo-steady-state/src/extract_details.rs:495-552 | the channel joins the first matching group, or starts one; starting the first it is marked as not to be bundled exactly under that condition |
| ProjectModels.ProjectModel.BuildChannels | cargo-steady-state/src/extract_details.rs:324-444 | every arrow from a known actor is in the final groups exactly once and no other arrow is, every channel says what its arrow says, and every final group is uniform |
| DiagramLaws.ChannelsAreArrows | cargo-steady-state/src/extract_details.rs:324-366 | every final channel has the name, type, capacity, peek and batch sizes of one arrow, its node names split into that arrow's stems and instance numbers (for stems not ending in a digit), its modules are those of the first actors of those names or "unknown", and some actor has the source's name |
| DiagramLaws.ArrowOnce | cargo-steady-state/src/extract_details.rs:324-444 | no arrow is in two places of the final groups |
| DiagramLaws.ArrowAppearsIff | cargo-steady-state/src/extract_details.rs:336-337 | an arrow is in the final groups exactly when some actor carries its source name |
| DiagramLaws.SameSourceTogether | cargo-steady-state/src/extract_details.rs:411 | arrows of one name, capacity and type from one source instance end in one group, whatever else that group takes in |
| DiagramLaws.FlagIff | cargo-steady-state/src/extract_details.rs:422-444 | a final group is marked as bundled on the source exactly when its arrows have one source node |
| DiagramLaws.FanOutOnFrom | cargo-steady-state/src/extract_details.rs:411-444 | arrows of one group with different targets have one source and are bundled on it |
| DiagramLaws.ParallelArrowsChangeSides | cargo-steady-state/src/extract_details.rs:430-440 | two parallel arrows from one source and a third from another to their target end in one group, bundled on the target |
| DiagramLaws.SomeChangeSides | cargo-steady-state/src/extract_details.rs:430-440 | a diagram with two arrows Gen to A and one arrow Other to A ends that way |
| DiagramLaws.CopyIff | cargo-steady-state/src/extract_details.rs:514-521 | a final group copies exactly when one of its arrows asks for it |
| DiagramLaws.UnbundledIff | cargo-steady-state/src/extract_details.rs:535-546 | in the end a channel is marked as not to be bundled exactly if it is the first known arrow's and that one loops within one module and one stem |
| BundleHomes.OneHome | cargo-steady-state/src/extract_details.rs:411-444 | every known arrow has exactly one home: its own place if others share its label and source, otherwise the earliest arrow whose source sends all its like to the same target |
| BundleHomes.TogetherIff | cargo-steady-state/src/extract_details.rs:411-444 | any two arrows end in one group exactly when their homes have one label and source |
| BundleHomes.OnTargetIff | cargo-steady-state/src/extract_details.rs:422-444 | an arrow ends bundled on its target exactly when it is alone in its label and source and its home is another source, or such an arrow has its home at this one's source |

## Left out

- The ring internals of the `ringbuf` crate, which are not part of the repository: the ring is modelled on the index convention the framework's own formulas rely on (indices modulo twice the capacity, slots filled before the index is stored).
- Executors, wakers, `select!`, timers and locks as mechanisms: an await is a guard plus a free choice of ready, timeout or shutdown; the peer half is assumed to stay alive.
- Fairness: the progress lemmas say that a side has a next step and how many steps a call can take, not that the executor lets it take them, nor when a waker fires.
- Memory orders weaker than sequential consistency, `unsafe` blocks, and values beyond machine width: lengths are natural numbers, capacities positive, sums do not saturate.
- Sends from iterators and the async sends are in the protocols only, not in the sequential classes.
- In `StreamProtocol` a sender that fills slots in place advances over the frames it filled, and a receiver that reads in place advances past items with the bytes they announce. Other counts are the caller's error; `StreamChannel.AdvanceKeepsStepIff` shows that they put the rings out of step in every case. The plain channel's advance of the sender is in `RingBuffers` only.
- Thresholds.LatencyAboveRightIff: where every fill is known to stay within a capacity no greater than the threshold's microseconds, the condition is sufficient but not shown necessary.
- Thresholds.LatencyBelowRightIff: where every fill is known to stay within a capacity smaller than the threshold's microseconds, the condition is sufficient but not shown necessary.
- RingBuffers.RingBuffer.TrySend: is written as a push of one message, so `try_push` and `push_slice` share one path.
- StreamChannel.StreamChannel.TakeSlice: requires targets that share no memory with the rings, which the borrow checker enforces in the source.
- Tuple comparisons in the `_for` queries of streams, `is_closed_and_empty`, take counts and peek repeats: not modelled.
- Histograms, percentile and standard-deviation triggers, and the floating-point branch of `compute_std_dev`.
- Labels, colours, DOT and Prometheus text, logging and telemetry relay.
- A builder's capacity is positive, as `to_meta_data` asserts; the panic for zero is not modelled.
- LazyChannels: builders and channels are values behind their locks; `get_tx_clone` and `get_rx_clone` are one step sequence with a side. Stream bundles and their keys, the packing table and the shutdown channels are not modelled.
- RollUp: reading labels (names, types, capacities, batch sizes), sorting nodes and edges, the per-actor channel lists and the copying of bundle facts into them; module names are taken as already trimmed, and the `bundle_struct_mod` field, empty until after the grouping, is dropped.
- RollUp.Join: channels are copied values, so sharing of the `bundle_on_from` cell between clones is not modelled.
