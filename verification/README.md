# Verified model of the rocket communication board

The board relays between a rocket's CAN bus and a LoRa link. This project models its protocol logic and
proves what that logic keeps over every input and every run. `dafny verify dfyconfig.toml` checks all of it.

## Parts

- `LoRaScheduler`, `LoRaTx`, `LoRaTxInvariants`, `LoRaTxRecovery`, `LoRaTxConservation`, `LoRaTxDeferral`,
  `LoRaTxSlots`, `LoRaTxRetry`, `LoRaTxCycle`, `LoRaTxPriority`, `LoRaTxTask`: the transmit task. `LoRaTx` is a state
  machine whose steps are the stretches between two awaits, with every reading of the clock a parameter; `LoRaTxTask`
  is the task's body on its own variables, proved to take those steps; the others hold the theorems about runs.
- `Recovery`, `RecoveryTransfer`, `RecoveryEnd`, `RecoveryDownlink`: reassembly of log fragments into chunks, first as
  an object over a 16-byte array, then against a sender's whole stream, up to its end and to what the ground reads.
- `Uplink`, `UplinkStream`: uplink frames, the greedy reference parser of a stream, and the in-place buffer.
- `BitPacking`, `Payload`, `PayloadLayout`, `CanProtocol`, `CanTransmit`, `Relay`: the wire formats and what crosses
  them unchanged.
- `CommandLedger`, `CommandHistory`, `CommandReplies`, `CommandTracker`: the transaction tracker and its replies.
- `CanCache`, `EventLatch`, `PeriodicPacket`, `Downlink`: the cache, the event latch and what the ground sees.
- `RecoveryPower`, `RecoveryBeacon`: the power readings of recovery mode, and what the ground reads of them.
- `Calendar`, `RxGuard`, `TimeRequestQueue`: calendar arithmetic, the receive guard and the time request queue.
- `Prelude`, `Bits`: fixed-width integers, result types, bits and the XOR checksum.

Fixed-width integers are subset types with wrap-around, saturation and checked addition written out. Times of the
transmit task are microseconds; the tick conversions of the original are the identity. Radio, UART, AUX pin and bus
succeed, fail and take time freely. Stretches without an await are atomic, as on the single core that runs them.

## Where the expected property is false

- After an attempt the next deadline is the first slot of the current interval after the clock, but counted from a
  deadline that may have been set at a longer interval. A retry slot that leaves recovery mode keeps a deadline up to
  ten seconds away (`LoRaTxSlots.ShorteningRetryLeavesAGap`); `LoRaTxSlots.DeadlineStaysNearExactly` says for every run
  when that happens.
- A frame in the deferral slot is lost when the slot is written while occupied, and only then
  (`LoRaTxDeferral.RunLosesExactly`). That needs a pass that starts past a deadline set after the last attempt
  (`LoRaTxDeferral.SlotIsFreeWhenWritten`), and happens in `LoRaTxDeferral.CrossingCanLoseAFrame`.
- The loss of the first recovery fragments, and any loss of a multiple of 256, is not noticed
  (`RecoveryTransfer.LossNoticed`). A second abort may report a smaller offset, and a total below the accepted bytes is
  passed; each has its exact condition in `RecoveryTransfer`.
- A retransmitted request does not always get its last result: sixteen insertions push it out of the cache even while
  the request is open, and then the answer is that it is pending (`CommandReplies.RetransmissionIsAnswered`,
  `CommandReplies.OpenResultIsEvicted`).
- A clear that comes a multiple of 2^32 events after its snapshot takes effect, and loses a flag that was raised again
  in between (`EventLatch.RunLosesFlagExactly`, `EventLatch.WrapLosesAFlag`).
- A power frame stamped in the millisecond of a refresh is overwritten and never published, and so is one that arrives
  after recovery mode is entered and before the task's next iteration (`RecoveryPower.FrameIsPublishedExactly`,
  `RecoveryPower.SameMillisecondFrameIsLost`, `RecoveryPower.EntryFrameIsLost`).
- README.md of the repository gives 22 bytes for A0; the code and its golden vectors give 24, and so does the model.

## Model

| member | source | states |
|---|---|---|
| `LoRaScheduler.AdvanceDeadlineIsFirstSlot` | src/lora_scheduler.rs:68-97 | a deadline advances to the first slot strictly after the clock, counting every slot passed and saturating at `u32::MAX`; it fails exactly for a zero interval or a slot past u64 |
| `LoRaScheduler.FirstSlotUnique` | src/lora_scheduler.rs:68-97 | there is only one such slot |
| `LoRaTxRecovery.RecoveryIsPacedAndFair` | src/tasks/lora_task_base.rs:1163-1223 | in every run and for all four ways a Recovery frame can be chosen, it is chosen at least 200 ms after the previous Recovery attempt ended, and if a periodic frame is due then, a periodic opportunity was used since that attempt |
| `LoRaTxRecovery.RecoveryStartsExactly` | src/tasks/lora_task_base.rs:809-850 | in every run a Recovery frame is not held back either: when its arm of select5 is ready it starts, and when a periodic frame is about to be written it is displaced, exactly when the gap after the last Recovery attempt is over, the periodic frame that is due is not owed its turn, and no result or time request waits |
| `LoRaTxRecovery.DebtStep` | src/lora_scheduler.rs:175-184 | the fairness flag is set exactly while no periodic opportunity was used since the last Recovery attempt, kept by every step |
| `LoRaTxRecovery.TimedStep` | src/tasks/lora_task_base.rs:1344-1355 | the Recovery gate is the end of the last Recovery attempt plus 200 ms, and a Recovery frame in the task's hands has passed it, kept by every step |
| `LoRaTxInvariants.ShapedStep` | src/tasks/lora_task_base.rs:1163-1175 | queues and slots hold frames of their own source, and a frame that stays in the deferral slot keeps every other Recovery frame out of flight, kept by every step |
| `LoRaTxInvariants.HigherIsHigher` | src/tasks/lora_task_base.rs:809-850 | a replacement has strictly higher priority; a Recovery replacement displaces only a periodic frame, within pacing and fairness, and takes the pending frame before the queue |
| `LoRaTxConservation.OverwritingIsTheOnlyLoss` | src/tasks/lora_task_base.rs:1293-1306 | one step keeps every taken frame either attempted once or held in one place, in order, if and only if it does not write an occupied deferral slot |
| `LoRaTxConservation.OverwriteLoses` | src/tasks/lora_task_base.rs:1303-1306 | writing an occupied deferral slot loses the frame in it |
| `LoRaTxDeferral.RunLosesExactly` | src/tasks/lora_task_base.rs:1293-1306 | a run keeps every frame attempted once or held in one place, in every one of its states, if and only if no preemption writes an occupied deferral slot |
| `LoRaTxDeferral.SlotIsFreeWhenWritten` | src/tasks/lora_task_base.rs:1163-1171 | in every run in which no pass with a deferred frame starts past a deadline, the deferral slot is empty whenever a preemption writes it |
| `LoRaTxDeferral.BlockedMeansCrossed` | src/tasks/lora_task_base.rs:1163-1171 | a deferred frame is held back only when the clock has crossed a regular or retry deadline since the attempt |
| `LoRaTxDeferral.EveryFrameOnce` | src/tasks/lora_task_base.rs:1163-1376 | in every such run, the frames taken from each queue are, in order, those attempted and then those held: none lost, repeated or overtaken |
| `LoRaTxDeferral.CrossingCanLoseAFrame` | src/tasks/lora_task_base.rs:1163-1171 | a concrete run that crosses a slot between an attempt and the next pass and loses a Recovery frame |
| `LoRaTxSlots.DeadlinesKeepTheirPhase` | src/tasks/lora_task_base.rs:1224-1258 | in every run a valid regular deadline is on the boot deadline's 250 ms grid, and short of saturation lies exactly the selected and skipped slots after it; retries do not move it |
| `LoRaTxSlots.CounterHoldsMissedSlots` | src/tasks/lora_task_base.rs:787-807 | in every run the counter of missed slots is the overdue slots plus the regular slots lost to preemption, saturating at `u32::MAX` |
| `LoRaTxSlots.SlotsAreSelectedOrMissed` | src/tasks/lora_task_base.rs:1356-1366 | with one interval in use, slots passed = regular selections + overdue misses, and the counter holds those misses and the preempted slots |
| `LoRaTxSlots.NextDeadlineIsFirstSlot` | src/tasks/lora_task_base.rs:798-807 | after an attempt or an empty slot the next deadline is the first slot of the current interval after the clock, and is given up exactly when it has no u64 value |
| `LoRaTxSlots.WithinStep` | src/tasks/lora_task_base.rs:1224-1246 | a step keeps the next deadline within one interval of the clock if and only if it is not a retry slot that puts a shorter interval in force |
| `LoRaTxSlots.DeadlineStaysNearExactly` | src/tasks/lora_task_base.rs:1224-1258 | a run keeps the regular deadline within one interval of the clock, in every one of its states, if and only if it has no such retry |
| `LoRaTxSlots.ShorteningRetryChangesMode` | src/tasks/lora_task_base.rs:1225-1228 | such a retry puts an interval in force that is shorter than the one before |
| `LoRaTxSlots.NearestExactly` | src/tasks/lora_task_base.rs:1356-1366 | from any state, the deadline after an attempt is the nearest grid point ahead if and only if it was no more than one interval ahead already |
| `LoRaTxSlots.NextDeadlineIsNearest` | src/tasks/lora_task_base.rs:1356-1366 | so it is the nearest after every attempt of a run without such a retry |
| `LoRaTxSlots.ShorteningRetryLeavesAGap` | src/tasks/lora_task_base.rs:1224-1246 | a concrete run whose retry frame, sent after leaving recovery mode, leaves the next 500 ms slot 9.6 s away |
| `LoRaTxPriority.CommitYields` | src/tasks/lora_task_base.rs:809-836 | when a frame goes to the UART, every queue of strictly higher non-Recovery priority is empty |
| `LoRaTxPriority.InversionIsBounded` | src/tasks/lora_task_base.rs:1198-1336 | while a result or time-request queue goes unserved, at most one frame of lower priority reaches the UART |
| `LoRaTxPriority.WaitingServesTheHighest` | src/tasks/lora_task_base.rs:1197-1209 | while the task waits, the queues of emergency results, command results and time requests are served in that order, each from its front |
| `LoRaTxRetry.LostSlotIsRescheduled` | src/tasks/lora_task_base.rs:1338-1376 | in every run, a Recovery attempt that took a regular slot, or during which one passed, leaves a periodic slot scheduled at most 200 ms after its end; without such a slot it earns no retry |
| `LoRaTxRetry.RetryAfterAttempt` | src/lora_scheduler.rs:243-280 | the retry after every attempt, told from the state and the clock: earned, kept, or given up exactly when the end of the attempt has reached it |
| `LoRaTxRetry.RetryLastsExactly` | src/tasks/lora_task_base.rs:1224-1246 | between attempts only a periodic slot touches the retry, and uses it up |
| `LoRaTxRetry.ScheduleIsEarliest` | src/lora_scheduler.rs:192-213 | a pass aims at the earliest of the retry and a valid regular deadline, and at the regular one in a tie |
| `LoRaTxCycle.IntervalFollowsCycle` | src/tasks/lora_task_base.rs:1224-1263 | in every run the interval put in force is 10 s in recovery mode, 250 ms while the last periodic packet said the control-roll cycle is available, and 500 ms otherwise, and a regular slot moves the deadline on by that much |
| `LoRaTxCycle.ControlRollAlternates` | src/tasks/lora_task_base.rs:536-573 | in every run, from one periodic slot to the next, a control-roll frame is sent exactly when the last slot was in the cycle and sent neither a control-roll frame nor a beacon, and the cycle is still on, all told from the frames received |
| `LoRaTxTask.TransmitTask.constructor` | src/tasks/lora_task_base.rs:1136-1147 | the task starts in the initial state of the state machine |
| `LoRaTxTask.TransmitTask.BeginPass` | src/tasks/lora_task_base.rs:1151-1182 | the schedule of a pass and the deferred frame, as the machine's step |
| `LoRaTxTask.TransmitTask.Poll` | src/tasks/lora_task_base.rs:1198-1282 | the first ready arm of select5, left to right, as the machine's step |
| `LoRaTxTask.TransmitTask.RecoveryArm` | src/tasks/lora_task_base.rs:1210-1223 | a ready Recovery frame is started or kept pending, as the machine's step |
| `LoRaTxTask.TransmitTask.PeriodicArm` | src/tasks/lora_task_base.rs:1224-1245 | the slot is consumed before its packet is built, as the machine's step |
| `LoRaTxTask.TransmitTask.SkipOverduePeriodicDeadlines` | src/tasks/lora_task_base.rs:798-807 | overdue slots are skipped and counted, as the machine does |
| `LoRaTxTask.TransmitTask.PacketReady` | src/tasks/lora_task_base.rs:1247-1280 | a packet, or its absence, as the machine's step |
| `LoRaTxTask.TransmitTask.TakeHigherPriorityEnvelope` | src/tasks/lora_task_base.rs:809-850 | the channel reads in their order give exactly the machine's choice and remove exactly the chosen frame |
| `LoRaTxTask.TransmitTask.Prepared` | src/tasks/lora_task_base.rs:1293-1324 | reselection before the UART write, as the machine's step |
| `LoRaTxTask.TransmitTask.Completed` | src/tasks/lora_task_base.rs:1337-1376 | bookkeeping after an attempt, as the machine's step; which retry that leaves is `LoRaTxRetry.RetryAfterAttempt` |
| `LoRaTxTask.TransmitTask.Take` | src/tasks/lora_task_base.rs:1150-1391 | every stretch between two awaits, and what other tasks do meanwhile, is a step of the machine |
| `LoRaTxTask.Perform` | src/tasks/lora_task_base.rs:1135-1392 | the task driven from boot through any run ends in that run's state, so the theorems about runs hold of the task |
| `RecoveryTransfer.ChunksAreThePrefix` | src/can/recovery.rs:217-308 | for any in-order delivery whose losses are noticed, the chunks are a contiguous prefix of the sender's stream cut at the total size, sixteen bytes each but the last, with at most one end of file |
| `RecoveryEnd.TransferEndsExactly` | src/can/recovery.rs:226-261 | in every run, with b bytes buffered and n new ones in the next fragment, that fragment closes the transfer with an end-of-file chunk if and only if a total is known, what is accepted then reaches it, and b + n is at most sixteen; otherwise the rest stays buffered |
| `RecoveryEnd.ReachedTotalIsSent` | src/can/recovery.rs:253-259 | once the total is reached and the transfer still open, the next fragment in sequence closes it and everything up to the total is sent |
| `RecoveryEnd.EndsOnRequestExactly` | src/can/recovery.rs:263-283 | in every run an abort closes the transfer and emits nothing; a finish closes the open transfer it names with one last chunk, the end of file, and changes nothing for any other id |
| `RecoveryEnd.NothingAfterTheEnd` | src/can/recovery.rs:217-308 | whatever follows, a closed transfer emits nothing more and stays closed |
| `RecoveryEnd.TotalIsTheSmallest` | src/can/recovery.rs:188-208 | in every run the total in force is the smallest of the requested end and the totals reported for the open transfer |
| `RecoveryEnd.ChunksAreLabelled` | src/can/recovery.rs:291-308 | in every run each chunk names the sender's transfer and source and is padded with zeros |
| `RecoveryEnd.RejectedExactly` | src/can/recovery.rs:217-236 | which fragments are rejected with which error, and that only a gap changes anything |
| `RecoveryTransfer.FinishFlushes` | src/can/recovery.rs:263-271 | finishing sends everything accepted and ends the file |
| `RecoveryTransfer.FirstAbortReportsAccepted` | src/can/recovery.rs:273-283 | the first abort reports the start offset plus the bytes accepted |
| `RecoveryTransfer.SecondAbortFallsBack` | src/can/recovery.rs:273-283 | a second abort repeats that report if and only if nothing was buffered at the first |
| `RecoveryTransfer.LossNoticed` | src/can/recovery.rs:226-236 | a loss raises SequenceGap if and only if a fragment was accepted before and the loss is no multiple of 256 fragments |
| `RecoveryTransfer.OpeningIsWhateverArrives` | src/can/recovery.rs:226-261 | for every sender and every fragment that arrives first: its bytes are taken as those at the start offset |
| `RecoveryTransfer.LosingTheFirstGoesUnnoticed` | src/can/recovery.rs:226-239 | a concrete sender whose lost first fragment puts other bytes at the start offset |
| `RecoveryTransfer.Losing256GoesUnnoticed` | src/can/recovery.rs:226-239 | a concrete sender whose loss of 256 fragments joins unrelated bytes |
| `RecoveryTransfer.TotalBehindBreaksTheCut` | src/can/recovery.rs:201-208 | a total size below what was accepted, and only that, leaves the assembler past its end |
| `RecoveryTransfer.LateTotalIsPassedExactly` | src/can/recovery.rs:201-271 | in every run, the bytes emitted by a transfer that finishes after a reported total stay within it if and only if it is not below the bytes accepted |
| `RecoveryTransfer.LateTotalEmitsPastIt` | src/can/recovery.rs:201-261 | for every stream: a total of 5 after two fragments, and the third emits a chunk of all twelve bytes |
| `RecoveryDownlink.TransferFitsExactly` | src/payload.rs:330-347 | the chunks of a transfer can all be sent if and only if the last one starts within 24 bits |
| `RecoveryDownlink.ChunkEncodesExactly` | src/payload.rs:330-347 | a chunk can be sent if and only if its offset fits in 24 bits |
| `RecoveryDownlink.GroundReadsThePrefix` | src/tasks/can_communication.rs:325-356 | the bytes the ground reads from the frames of the first chunks of a transfer, however many were sent before the LoRa queue was full, are a prefix of the sender's stream, whatever the CAN bus lost |
| `RecoveryTransfer.FaithfulStep` | src/can/recovery.rs:182-308 | emitted plus buffered bytes are the accepted part of the stream, kept by every event |
| `Recovery.RecoveryAssembler.Start` | src/can/recovery.rs:182-199 | the in-place start is the specified one |
| `Recovery.RecoveryAssembler.SetTotalSize` | src/can/recovery.rs:201-208 | the smaller of the totals is kept, for the running transfer only |
| `Recovery.RecoveryAssembler.PushFragment` | src/can/recovery.rs:217-261 | the in-place push gives the specified state and result, error cases included; when it ends the file is `RecoveryEnd.TransferEndsExactly` |
| `Recovery.RecoveryAssembler.CopyIntoChunks` | src/can/recovery.rs:243-256 | the copy loop over the 16-byte buffer gives joined bytes, one chunk and a remainder |
| `Recovery.RecoveryAssembler.TakeChunk` | src/can/recovery.rs:291-308 | the buffer becomes a zero-padded chunk and the offset moves past it |
| `Recovery.RecoveryAssembler.Finish` | src/can/recovery.rs:263-271 | as specified, for the running transfer only |
| `Recovery.RecoveryAssembler.Stop` | src/can/recovery.rs:210-215 | stopping finishes the running transfer |
| `Recovery.RecoveryAssembler.Abort` | src/can/recovery.rs:273-283 | as specified |
| `UplinkStream.ParseStream` | src/tasks/lora_task_base.rs:1082-1119 | fed byte by byte, the in-place buffer emits exactly the greedy parse of the whole stream, and never InvalidHeader |
| `UplinkStream.UplinkFrameBuffer.Push` | src/lora_uplink.rs:150-180 | each byte extends the greedy parse by exactly the output returned |
| `UplinkStream.UplinkFrameBuffer.Reset` | src/lora_uplink.rs:182-184 | a reset forgets the stream |
| `UplinkStream.FrameIsFound` | src/lora_uplink.rs:150-180 | after any junk, a valid frame that no accepted frame overlaps is decoded on its eleventh byte |
| `UplinkStream.FoundUnlessOverlapped` | src/lora_uplink.rs:150-180 | a valid frame is accepted where it stands if and only if no earlier accepted frame overlaps it |
| `UplinkStream.AcceptedDisjoint` | src/lora_uplink.rs:150-180 | accepted frames never overlap |
| `Uplink.GreedyResumes` | src/lora_uplink.rs:150-180 | parsing may stop at any byte and resume from the kept rest |
| `Uplink.NoInvalidHeader` | src/lora_uplink.rs:72-80 | the greedy parse never reports InvalidHeader |
| `Uplink.UplinkIsCanonical` | src/lora_uplink.rs:72-131 | decoding accepts exactly the frames of sendable commands, one frame per command |
| `Uplink.AcceptedHasEvenParity` | src/lora_uplink.rs:72-80 | in an accepted frame every bit is set in an even number of bytes, and InvalidChecksum is given exactly to frames with the header for which that is false |
| `Uplink.RejectedExactly` | src/lora_uplink.rs:72-131 | which frames are rejected with which error, in the order the source looks at header, checksum, kind, id and fields |
| `BitPacking.ReadPack` | src/payload.rs:382-397 | reading consecutive fields inverts packing them, whatever follows |
| `BitPacking.BitWriter.Write` | src/payload.rs:382-397 | a write appends the value's bits, or changes nothing exactly when it does not fit |
| `BitPacking.BitWriter.SetBits` | src/payload.rs:389-394 | the loop lays the bits over a zero buffer at the bit offset |
| `BitPacking.BitWriter.WriteFields` | src/payload.rs:222-362 | consecutive writes succeed exactly when every value fits its width, and then hold the packed fields |
| `BitPacking.BitWriter.ByteLength` | src/payload.rs:399-401 | the bytes up to the length are the written bits, padded with zeros |
| `Payload.EncodePacket` | src/payload.rs:169-219 | the imperative encoder returns the specified frame or error for every packet |
| `Payload.EncodesExactly` | src/payload.rs:222-362 | encoding succeeds exactly when the listed fields are in range |
| `Payload.EncodingIsLossless` | src/payload.rs:169-219 | a reader recovers every field of every accepted packet from its frame |
| `PayloadLayout.EveryFieldInPlace` | src/payload.rs:222-362 | in every frame every field of every packet stands at its bit offset, as a table per packet lists them |
| `Payload.FramesDiffer` | src/payload.rs:169-219 | different packets have different frames |
| `Payload.FrameIsClosed` | src/payload.rs:214-218 | a frame has its header's fixed length and at most 24 application bytes; every bit is set in an even number of these, and no other last byte would do that |
| `Payload.LayoutTotals` | src/payload.rs:222-362 | the field widths of every header add up to whole bytes |
| `Bits.ClosedIsEven` | src/payload.rs:364-366 | a byte string closed by its checksum has every bit set in an even number of bytes, and only then |
| `Bits.ChecksumIsParity` | src/payload.rs:364-366 | each bit of the checksum is the parity of the number of bytes with that bit set |
| `CanProtocol.DecodingIsCanonical` | src/can/protocol.rs:510-678 | decoding accepts exactly the encodings of well-formed messages: no two accepted frames decode alike, every deviation is rejected |
| `CanProtocol.UnknownIdRejected` | src/can/protocol.rs:674-677 | identifiers outside the list are rejected and no message has them |
| `CanProtocol.ControlRollCanonical` | src/can/protocol.rs:642-674 | an 0x10A frame is accepted exactly with the schema version, clear reserved bits and agreeing range flags |
| `CanProtocol.MissionStatusCanonical` | src/can/protocol.rs:550-571 | an 0x102 frame is accepted exactly with known modes and a known state |
| `CanProtocol.ResultCanonical` | src/can/protocol.rs:680-692 | an 0x011 frame is accepted exactly with a nonzero id, a known phase and a known reason |
| `CanTransmit.TxIsLossless` | src/can/protocol.rs:467-506 | every encoded message can be read back from its identifier and payload |
| `CanTransmit.EncodePayload` | src/can/protocol.rs:467-506 | the in-place encoder writes the payload and zeros, or all zeros and the error |
| `CanTransmit.PutU24Le` | src/can/protocol.rs:760-764 | three little-endian bytes and nothing else change |
| `CommandTracker.TransactionTracker.Register` | src/can/command.rs:42-80 | the slot arrays and ring follow the ledger of at most 16 pending requests and a FIFO of 16 results: same reply, same new state; which reply that is, is `CommandReplies.RetransmissionIsAnswered` and `CommandReplies.ForwardOrBusyExactly` |
| `CommandTracker.TransactionTracker.ApplyResult` | src/can/command.rs:82-105 | the same for results |
| `CommandTracker.TransactionTracker.StoreResult` | src/can/command.rs:92-100 | a cached result is replaced in place or inserted over the oldest |
| `CommandTracker.TransactionTracker.PendingCount` | src/can/command.rs:107-109 | the number of occupied slots is the size of the table |
| `CommandLedger.RegisteredSound` | src/can/command.rs:42-80 | ids stay unique in table and cache, an id in both has the same request and only an Accepted result, capacities hold |
| `CommandLedger.AppliedSound` | src/can/command.rs:82-105 | the same for results |
| `CommandLedger.FinalResultIsStable` | src/can/command.rs:92-100 | a final result stays as it is until it is evicted |
| `CommandHistory.ForwardsAreSeparated` | src/can/command.rs:42-105 | over every history, two Forward replies for one id are separated by a final result for it, and its last insertion by at least sixteen further insertions |
| `CommandHistory.EvictionTakesSixteen` | src/can/command.rs:98-99 | an inserted result is pushed out only by sixteen later insertions |
| `CommandHistory.PendingUntilFinished` | src/can/command.rs:101-103 | a forwarded request stays pending until a final result for it |
| `CommandReplies.RetransmissionIsAnswered` | src/can/command.rs:42-76 | over every history: while the last forwarded request with an id is open or cached, a different request is rejected; the same one gets the last result applied for it while that is cached, and otherwise hears that it is pending |
| `CommandReplies.NoResultMeansPending` | src/can/command.rs:49-60 | so a retransmission before any result is answered as pending |
| `CommandReplies.ForwardOrBusyExactly` | src/can/command.rs:76-80 | over every history a request is forwarded, or turned away as busy, exactly when its id is neither open nor cached and fewer than sixteen, or sixteen, ids are open |
| `CommandReplies.ResultTakenExactly` | src/can/command.rs:82-91 | over every history a result is taken exactly when the last forwarded request with its id is open and has its command |
| `CommandReplies.TableIsOpenIds` | src/can/command.rs:42-105 | the table holds exactly the ids that were forwarded and not closed by a result that is more than an acceptance |
| `CommandReplies.CacheIsRecentInsertions` | src/can/command.rs:92-100 | the cache holds exactly the ids inserted less than sixteen insertions ago |
| `CommandReplies.OpenResultIsEvicted` | src/can/command.rs:92-100 | a concrete history in which the result of a request that is still open is pushed out, so that its retransmission is answered as pending |
| `CommandReplies.ProcessGeneric` | src/tasks/lora_task.rs:94-130 | the command task's reaction to each reply: onto the bus, to the ground, or nothing |
| `CommandReplies.GroundHearsTheLastResult` | src/tasks/lora_task.rs:94-130 | over every history the ground that repeats a request decodes the last result applied for it while that is cached, and a protocol error for a different request under the id |
| `CanCache.CanCache.Update` | src/can/cache.rs:144-210 | the fields, the latch and the returned update for every message |
| `CanCache.CanCache.ClearEventFlags` | src/can/cache.rs:220-224 | flags are cleared only under the revision of the snapshot |
| `EventLatch.FlagStaysUntilSent` | src/can/cache.rs:154-164 | under every interleaving a reported flag of an accepted event stays latched until a flight frame built after the event was sent with its status bit set, given no wrap of the revision |
| `EventLatch.EventStaysUntilSent` | src/can/cache.rs:154-164 | the same of the events themselves: each of the five low flag bits of an event that is no duplicate stays latched until a flight frame built after it was sent with the status bit that reports it |
| `EventLatch.RunLosesFlagExactly` | src/can/cache.rs:220-224 | a run keeps a reported flag latched or sent, in every one of its states, if and only if no clear of it comes a positive multiple of 2^32 events after its snapshot with the flag raised among them |
| `EventLatch.UnreportedFlagsStay` | src/tasks/lora_task_base.rs:687-695 | in every run, a wrapped revision included, flags outside the five reported ones are never cleared |
| `EventLatch.OtherFlagsOfEventsStay` | src/tasks/lora_task_base.rs:687-695 | the other eleven flag bits of such an event are latched for good, in every run |
| `EventLatch.ClearIsFooledExactly` | src/can/cache.rs:220-224 | a late clear takes effect exactly when a multiple of 2^32 events came after its snapshot |
| `EventLatch.WrapLosesAFlag` | src/can/cache.rs:220-224 | a run with exactly 2^32 such events that loses a flag |
| `EventLatch.BuiltReports` | src/tasks/lora_task_base.rs:765-773 | a frame reports every flag it will clear, in the mapped status bit |
| `PeriodicPacket.EverySlotHasAFrame` | src/tasks/lora_task_base.rs:519-718 | for every cache reachable by decoding any CAN frames, a periodic slot yields a packet that encodes |
| `PeriodicPacket.EventPacketIsControlRoll` | src/tasks/lora_task_base.rs:541-564 | an event-driven packet is an encodable control-roll packet or absent |
| `PeriodicPacket.AcknowledgedFlagsAreReported` | src/tasks/lora_task_base.rs:648-695 | a packet acknowledges events only if its status word reports each of them |
| `PeriodicPacket.PlannedFrameIsBuilt` | src/tasks/lora_task_base.rs:640-695 | a planned packet has the status word and the flags to clear of the frame in the latch's machine |
| `PeriodicPacket.LinkHealthOnly` | src/tasks/lora_task_base.rs:720-732 | link health replaces status bits 7 and 8 and nothing else |
| `PeriodicPacket.FlightStatusBit` | src/tasks/lora_task_base.rs:648-650 | each bit of the flight status word: link health in bits 7 and 8, the mission's bit or an event in bits 9 to 12 and 14, the mission's bit elsewhere |
| `PeriodicPacket.RunSound` | src/can/protocol.rs:510-678 | what strict decoding guarantees of the cached readings, over every run |
| `Downlink.CacheHoldsLastAccepted` | src/can/cache.rs:144-210 | the cache holds the last accepted frame of every kind but events and power readings, with its time |
| `Downlink.FlightFrameShowsNewest` | src/tasks/lora_task_base.rs:641-669 | the ground decodes from every flight frame the newest fresh reading of each kind, the missing-reading codes otherwise, and a status word of which each of the sixteen bits is told: link health, latched events, and the newest status's own bits |
| `Downlink.CommandReceiveFrameShowsNewest` | src/tasks/lora_task_base.rs:601-639 | the same for the command-receive frame, with its status word and both voltages |
| `Downlink.DescentFrameShowsNewest` | src/tasks/lora_task_base.rs:670-683 | the same for the descent frame, with the five lowest status bits and the elapsed time |
| `Downlink.BeaconFrameShowsNewest` | src/tasks/lora_task_base.rs:566-585 | the ground decodes the newest power reading, or the stale codes, and the position from every recovery beacon |
| `Downlink.ControlRollFrameShowsNewest` | src/tasks/lora_task_base.rs:541-564 | the ground decodes the newest control-roll reading from every control-roll frame |
| `Downlink.CycleFollowsNewest` | src/tasks/lora_task_base.rs:531-573 | a control-roll frame is built, and the cycle said to be available, exactly when the newest status names a flight phase and a control-roll reading is fresh, but for the preference and the beacon |
| `Downlink.FallbackFrameShowsLoss` | src/tasks/lora_task_base.rs:354-509 | the ground decodes from every fallback frame how long ago the last messages came, the cause of the loss, every flag and the last known values, all told from the messages received |
| `Downlink.CacheHoldsLastPower` | src/can/cache.rs:144-228 | the cached power reading is the last one received or refreshed since it was last cleared |
| `PeriodicPacket.CommandReceiveStatusBits` | src/tasks/lora_task_base.rs:601-763 | each status bit of the command-receive frame reports exactly its condition, with or without a power reading, and no other bit is ever set |
| `PeriodicPacket.FallbackFlagBits` | src/tasks/lora_task_base.rs:428-493 | each flag of the fallback frame reports exactly its condition |
| `PeriodicPacket.LossReasonHasItsCause` | src/tasks/lora_task_base.rs:398-426 | each code of the primary loss reason is given exactly for its own cause |
| `Downlink.HeaderFollowsNewestStatus` | src/tasks/lora_task_base.rs:527-686 | the header of every periodic frame follows from the frames received and the beacon: outside recovery mode the fallback frame is sent exactly when no mission status is fresh |
| `Relay.UplinkIsRelayedUnchanged` | src/lora_uplink.rs:72-131 | accepted uplinks of kinds 0 and 4 become CAN messages that always encode to uplink bytes 2 to 9; emergency stops carry the transaction id |
| `Relay.ResultIsRelayedUnchanged` | src/tasks/can_communication.rs:407-423 | every accepted 0x011 frame becomes a B0 frame carrying its eight bytes unchanged |
| `Relay.ControlRollIsRelayedUnchanged` | src/tasks/lora_task_base.rs:543-559 | every accepted 0x10A frame becomes an A7 packet carrying its bytes 1 to 7 unchanged |
| `Relay.AlignedBits` | src/payload.rs:382-397 | byte-aligned fields are packed as their little-endian bytes |
| `Calendar.UnixSecondsArePosix` | src/gnss/time.rs:130-153 | the conversion is the POSIX formula and the day-by-day count, leap seconds included, and fails exactly before 1970 and past u32 |
| `Calendar.ClosedFormCountsYears` | src/gnss/time.rs:114-118 | the closed form counts the days of every year since 1970 |
| `Calendar.DaysBeforeMonthLoop` | src/gnss/time.rs:120-128 | the month loop sums the days of the earlier months |
| `Calendar.SecondsIncrease` | src/gnss/time.rs:130-153 | later dates and times have larger values |
| `Calendar.EverySecondIsHit` | src/gnss/time.rs:130-153 | every u32 second is the value of exactly one date and time |
| `Calendar.LeapSecondIsNextMinute` | src/gnss/time.rs:142-149 | second 60 counts as the first second of the next minute, across day, month and year ends |
| `Calendar.ParseDate` | src/gnss/time.rs:94-112 | an accepted date is a real calendar date of 1980 to 2079 |
| `Calendar.ParsedTimesConvert` | src/gnss/time.rs:155-179 | whatever the two fields parse to converts, to the POSIX value |
| `Calendar.TwoDigitYearsFit` | src/gnss/time.rs:94-112 | every validated date of 1980 to 2079 fits in u32 |
| `Calendar.MillisecondsLoop` | src/gnss/time.rs:69-76 | the loop reads the first three fraction digits |
| `Calendar.MillisecondsTruncate` | src/gnss/time.rs:69-76 | a fraction is cut off to whole milliseconds, not rounded |
| `Calendar.WrittenTimeIsRead` | src/gnss/time.rs:48-79 | a written time of day is read back |
| `Calendar.TimeParsesExactly` | src/gnss/time.rs:41-79 | exactly the fields hhmmss and hhmmss.f... of a valid time of day are accepted; the first is a full second, the fraction is rounded down to milliseconds |
| `Calendar.DateParsesExactly` | src/gnss/time.rs:41-112 | exactly the fields ddmmyy of calendar dates of 1980 to 2079 are accepted |
| `Calendar.WrittenDateIsRead` | src/gnss/time.rs:94-112 | a written date is read back |
| `RxGuard.ActivityIsOldAtReturn` | src/tasks/lora_task_base.rs:224-248 | whenever the guard returns, every activity signalled so far is at least 60 ms old |
| `RxGuard.WaitsNoLonger` | src/tasks/lora_task_base.rs:224-248 | and it waits no longer: it returns exactly when nothing new was signalled and the last known activity is 60 ms old, or none is known |
| `TimeRequestQueue.TimeRequests.RequestTime` | src/tasks/can_communication.rs:264-298 | the queue, the last id and the counters after a request |
| `TimeRequestQueue.RequestsAreConserved` | src/tasks/can_communication.rs:264-298 | in every run accepted = delivered + dropped + queued, in order; no id twice in a row; the newest entry always finds room |
| `TimeRequestQueue.EveryNewIdIsAccepted` | src/tasks/can_communication.rs:264-298 | in every run the ids accepted are the requested ones without those that repeat the one before |
| `TimeRequestQueue.DropsOnlyWhenFull` | src/tasks/can_communication.rs:279-285 | only a request that finds eight entries drops one, the oldest |
| `RecoveryPower.RecoveryPowerTask.Poll` | src/tasks/recovery_power_task.rs:46-92 | one iteration of the loop on the task's variables and the shared cache |
| `RecoveryPower.RefreshesAreHonest` | src/tasks/recovery_power_task.rs:46-92 | every refresh publishes the unavailable snapshot, one marked stale, or a frame received at most 30 s before, under every interleaving |
| `RecoveryPower.FrameIsFollowedExactly` | src/tasks/recovery_power_task.rs:66-72 | what a poll takes over does not depend on the cached frame if and only if that frame bears the time stamp of the last refresh |
| `RecoveryPower.FrameIsPublishedExactly` | src/tasks/recovery_power_task.rs:50-84 | in every run, whatever frame is stored is what the next iteration in recovery mode publishes, if and only if the iteration before was in recovery mode too and the frame neither bears the time of the refresh it published nor is older than 30 s |
| `RecoveryPower.IterationWrites` | src/tasks/recovery_power_task.rs:46-92 | in every run an iteration in recovery mode caches what it publishes, the first one after recovery mode clears the reading, and any other leaves it alone |
| `RecoveryPower.ReadingLastsExactly` | src/tasks/recovery_power_task.rs:56-84 | in every run, a frame that is taken over is what every refresh shows until 30 s after its reception, and shows as stale from then on, until another frame arrives or recovery mode ends |
| `RecoveryPower.SameMillisecondFrameIsLost` | src/tasks/recovery_power_task.rs:66-83 | a run in which the frame of the millisecond of a refresh is overwritten and never published |
| `RecoveryPower.EntryFrameIsLost` | src/tasks/recovery_power_task.rs:50-55 | a run in which a frame that arrives between the entry into recovery mode and the task's next iteration is overwritten and never published |
| `RecoveryBeacon.BeaconIsHonest` | src/tasks/lora_task_base.rs:566-585 | however CAN frames, mode changes, clears and polls interleave, the voltages and the time the ground reads from a recovery beacon are the codes of no reading, those of a stale one, or those of a power frame received at most 30.3 s before, although every refresh renews the reading's time stamp |
| `RecoveryBeacon.BoardRun` | src/tasks/recovery_power_task.rs:46-92 | the task and the transmit task always see the same cached reading, and the task's frames are the power frames the bus accepted |

## Left out

- LoRaTxDeferral.EveryFrameOnce: promises conservation for runs in which no pass with a deferred frame starts past a deadline; the exact condition over runs is `LoRaTxDeferral.RunLosesExactly`.
- LoRaTxSlots.NextDeadlineIsNearest: promises the nearest slot for runs without a retry that shortens the interval; the exact conditions are `LoRaTxSlots.DeadlineStaysNearExactly` and `LoRaTxSlots.NearestExactly`.
- RecoveryTransfer.ChunksAreThePrefix: assumes that no offset saturates at `u32::MAX`, that no loss is one of those that go unnoticed (`RecoveryTransfer.LossNoticed`), that no total falls below what was accepted (`RecoveryTransfer.LateTotalIsPassedExactly`) and that transfer ids are not 0.
- EventLatch.FlagStaysUntilSent: other sources' frames are not steps of this machine, since they never clear flags.
- LoRaTxTask.TransmitTask.Poll: the task's loop itself and the waiting inside select5 are steps of `LoRaTx`, not Dafny loops.
- Payload.EncodePacket: a packet's writes are given as lists of values and widths and written by one loop, instead of one statement per field.
- TimeRequestQueue.TimeRequests.RequestTime: the channel holds request ids in place of frames; their encoding is proved never to fail.
- The capacities of the other LoRa channels and their overflow counters: arrivals are unbounded in `LoRaTx`.
- `RecoverySession`, `transition_runtime`, `classify_can_health` and local commands: what they do to a modelled part (starting, stopping or aborting the assembler, entering or leaving recovery mode) appears as freely chosen events of that part's machine; which results they report and when they restart the bus is not modelled. A rejecting status clears the session while the assembler stays active, so no invariant links the two.
- `parse_rmc_datetime` beyond its date and time fields, the NMEA checksum, GNSS positions (floating point) and receiver settings: only the bound 501 on the encoded height is used.
- Device health frames, the 0x014 mode command's own decoding, raw CAN logging, SD card, LEDs, printing and debug timing.
- Bus error recovery and retransmission in the CAN task, and the serial transfer itself (`write_all`, AUX waiting).
