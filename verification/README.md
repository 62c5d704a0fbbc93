# Verified models of Rockchip platform drivers for Windows

A Dafny 4.11 project about five pieces of driver logic. `dafny verify dfyconfig.toml` checks all of it.

* **PL330 microcode** (`Pl330*.dfy`): the generator for cyclic audio transfers, the instruction encoding, and
  an interpreter for the emitted subset (ARM CoreLink DMA-330 TRM, section 4.3). Running the emitted bytes
  plays the call that was made, address by address, at every step of every pass.
* **dwc_eqos descriptor rings** (`Ring`, `QueueCommon`, `Tx*`, `RxQueue`): the driver, the DMA engine and the
  packet framework share rings. The transmit ring is a window on the stream of descriptors of the packets in
  flight, and a device that reads them sends the packets with their MSS and VLAN tag although context is
  cached. The receive ring is one-to-one with the posted fragments.
* **dwc_eqos interrupt handshake** (`Interrupts`): ISR, DPC and the arming of notifications as atomic steps
  under every interleaving, down to the bits of the mask.
* **SD controllers** (`PhaseTuning`, `ScatterGather`, `Sd*`): the search on a circle of sampling phases,
  the descriptor tables of both controllers, and the life of a request.
* **RK3x I2C** (`MdlChain`, `I2cChunks`, `I2cTransfer`, `I2cTimings*`): chunked transfers over a scattered
  buffer under any sequence of interrupts, and the clock dividers in 32-bit arithmetic (NXP UM10204, sections
  3.1.6, 3.1.10 and 6.1).

Code that updates state is modelled by classes with its fields and by methods over arrays; each method is tied
to a function of the old state or to the property it promises, and the theorems are about those. Hardware and
the callers are explicit actors: the DMA engine hands back any descriptor at any time, interrupts come in any
order, `Action` schedules are arbitrary lists. Assertions of the code (`NT_ASSERT`) on packets, elements and
written-back descriptors are preconditions. Widths are written out where they matter: byte loop counts and
jump distances, 32-bit addresses, lengths and dividers wrap.

## Where the code does not do what one would expect

Each of these has a lemma with the case and, where there is one, the exact condition.

* PL330: 0 periods, or periods shorter than a burst, become 256 (`BurstSplit`, `PeriodSplit`, `ExactPeriod`,
  `ExactPass`); a pass of 256 bytes or more jumps back to the wrong place (`EndlessJumpLands`,
  `LongPassMissesItsHead`, `LongPassLeavesReference`).
* TX: a segmentation packet that consists of headers only is never finished (`PacketShape`,
  `HeadersOnlyNeverFinish`). Packets marked as ignored at the end of the ring are passed only when a later
  packet is queued, because `NextIndex` moves only with the tail (`Publish`).
* SD: the end of a PIO transfer is noticed if and only if its DPC finds something still required and at most
  one chunk left; in the gap before a phase is started, and while it is being started, it is thrown away, also
  for the one chunk of a short transfer (`EndIsKeptIff`, `EndInGapIsLost`, `EndDuringReadIsLost`). A length
  that is not a whole number of chunks overruns (`EndsIffWhole`, `OverrunsIffUneven`, `UnevenReadOverruns`); up
  to half the FIFO that is one that is not a multiple of 4 (`ShortIsWhole`). Longer PIO transfers than 64 bytes
  come only to a controller without usable IDMAC (drivers/sd/dwcmshc/dwcmshc.cpp:442). A timeout that comes with
  the last required event can leave a phase that nothing completes (`DpcDeadEnds`, `DeadEndIsReachable`); a
  reset can pull the request from under the queued work item (`ResetMayOvertakeWorker`). An error is noticed if
  and only if its DPC finds something required (`ErrorIsNoticedIffRequired`); a local request can succeed over
  one (`LocalErrorWhileStartingIsMissed`).
* Tuning: up to 19 good phases in a row can be skipped, 20 cannot (`NarrowIsMissed`, `WindowIsEnough`).
* I2C: on a slow bus no data configuration fits and the tuning word spills over the control register
  (`TuningStaysInBits` with the exact condition, `SlowBusSpoilsTuning`). If a byte of a read cannot be stored
  before the end of its chunk, the rest of the chunk is dropped and more bytes are clocked than asked for
  (`ClockIsExact`, `ReadClocks`, `UnmappedPieceClocksMore`); the transfer then ends with an error, so
  `SuccessMeansComplete` is not touched by it.

## Model

| member | source | states |
|---|---|---|
| Pl330Encoding.DecodeEncode | drivers/dma/pl330dma/opcodes.h:28-260 | An emitted instruction, whatever bytes follow it, decodes to itself if and only if its encoding is unambiguous; LDP and STP without a condition, and an endless LPEND of loop 0 with one, are not. Loop counts 1 to 256 survive the byte they are stored in, and LPFE is told from STP because its condition is ALWAYS. |
| Pl330Encoding.DisassembleAssemble | drivers/dma/pl330dma/opcodes.h:28-260 | Decoding a whole emitted program gives back exactly its instruction list. |
| Pl330Machine.ReachLp | drivers/dma/pl330dma/opcodes.h:83-100 | Executing an emitted LP loads the chosen loop counter for its 1 to 256 iterations and goes on behind it. |
| Pl330Machine.ReachLpEnd | drivers/dma/pl330dma/opcodes.h:109-142 | Executing an emitted LPEND of a counted loop jumps back by its 8-bit distance and counts down while its counter is not spent, and falls through when it is. |
| Pl330Machine.ReachLpFe | drivers/dma/pl330dma/opcodes.h:109-142 | Executing the forever variant always jumps back and touches no counter. |
| Pl330Machine.ReachStraight | drivers/dma/pl330dma/insn.c:63-82 | Code without jumps runs through, with the combined effect of its instructions on registers, bus accesses and signals. |
| Pl330Compiler.SetBeatsFields | drivers/dma/pl330dma/insn.c:120-126 | Rewriting the burst lengths in a control word sets both lengths and leaves beat sizes and address increments alone. |
| Pl330Compiler.BurstSplit | drivers/dma/pl330dma/insn.c:154-176 | The two burst loops together run exactly the bursts asked for, the count byte included; 0 bursts turn into 256. |
| Pl330Compiler.PeriodSplit | drivers/dma/pl330dma/insn.c:209-224 | Loop 0 times the unrolled periods plus the residue is the number of periods, the count byte included; 0 periods turn into 256. |
| Pl330Compiler.ProgramLength | drivers/dma/pl330dma/insn.c:199-246 | The length in bytes of a pass and of the cyclic program in closed form. |
| Pl330Correctness.RunLoop1 | drivers/dma/pl330dma/insn.c:163-171 | Running an emitted inner loop executes its body as many times as its count says and leaves the outer counter and its jump target alone. |
| Pl330Correctness.BurstsEffect | drivers/dma/pl330dma/insn.c:63-96 | The bursts of one loop body have the effect of that many single bursts; the flush in front of them has none. |
| Pl330Correctness.RunPeriod | drivers/dma/pl330dma/insn.c:147-197 | Running the bytes of a period executes the bursts, the leftover beats with a shortened burst, the restored control word and one SEV, and ends behind the period. |
| Pl330Correctness.RunLoop0 | drivers/dma/pl330dma/insn.c:223-234 | Running the outer loop executes its unrolled periods once for each count. |
| Pl330Correctness.RunPass | drivers/dma/pl330dma/insn.c:219-237 | One pass from the head of the endless loop to its end reloads both addresses and runs all the periods, residue included. |
| Pl330Meaning.ExactPeriod | drivers/dma/pl330dma/pl330.h:209-214 | A period moves exactly the bytes asked for if and only if it holds at least one burst of 32 bytes and whole words. |
| Pl330Meaning.ExactPass | drivers/dma/pl330dma/insn.c:277-297 | One pass of a submitted audio transfer moves exactly the buffer and signals once for each of its periods if and only if the buffer is a whole number of periods, at least one, and the period is whole words and at least one burst of 32 bytes. |
| Pl330Meaning.PeriodIsEvents | drivers/dma/pl330dma/insn.c:147-197 | What a compiled period does on the bus is the reference list of requests, loads, stores and one signal, starting where the incrementing address stands; the control word is back to its configured value. |
| Pl330Meaning.PeriodsAreEvents | drivers/dma/pl330dma/insn.c:227-237 | After k periods the incrementing address (source to a device, destination from one) is its start plus k periods, the other one is unchanged, and the control word is as configured. |
| Pl330Meaning.EndlessLoop | drivers/dma/pl330dma/insn.c:219-243 | For every number m of passes the compiled loop comes back to its head with the events of exactly m reference passes done. |
| Pl330Meaning.AudioTransferRuns | drivers/dma/pl330dma/insn.c:248-303 | The same for the whole program that an audio transfer emits, from its first byte. |
| Pl330Meaning.AudioTransferAlwaysOnTrack | drivers/dma/pl330dma/insn.c:248-303 | At every single step, not only between passes, the events so far are a prefix of the endless repetition of the reference pass, and the channel has not faulted. |
| Pl330Meaning.SubmittedProgramPlays | drivers/dma/pl330dma/insn.c:277-297 | The same for the submitted bytes themselves at the start of the channel's buffer, whatever lies behind them. |
| Pl330Meaning.PassCounts | drivers/dma/pl330dma/insn.c:194-194 | A reference pass of n periods raises exactly n signals and moves n times the bytes of a period. |
| Pl330Meaning.EndlessJumpLands | drivers/dma/pl330dma/insn.c:239-243 | The backward jump of the endless loop lands on its head if and only if a pass takes less than 256 bytes, since its distance is one byte. |
| Pl330Meaning.ProgramFitsSlice | drivers/dma/pl330dma/threads.c:56-56 | The emitted program is a pass plus 8 bytes, and when its endless jump lands it fits the 512-byte slice of the channel. |
| Pl330Meaning.LongPassMissesItsHead | drivers/dma/pl330dma/insn.c:239-243 | 5120 periods of 1024 bytes are compiled to a pass whose endless jump misses its head. |
| Pl330Meaning.AudioCcrBits | drivers/dma/pl330dma/insn.c:254-270 | The control word bit by bit: the buffer side increments and the device side does not; both sides are non-secure, unprivileged data accesses, not cached and not swapped, in bursts of 8 words. |
| Pl330Play.RepeatPlays | drivers/dma/pl330dma/insn.c:147-243 | For any audio transfer and any number of passes the reference plays the call: accesses, acknowledgements, waits and signals in an order in which each address is where the buffer stands and each signal ends a period. |
| Pl330Play.PlayingMeans | drivers/dma/pl330dma/insn.c:219-237 | Events that play a call are all the call's own, and byte k of the buffer side is byte k of the pass, over and over. |
| Pl330Play.SubmittedCallPlays | drivers/dma/pl330dma/insn.c:248-303 | From the arguments of the call, for every direction, channel, address, length and period whose jumps reach: at every step of every run of the submitted bytes the events play the call. |
| Pl330Play.SubmittedCallMoves | drivers/dma/pl330dma/insn.c:284-294 | For a buffer of whole periods: to a device every store goes to the destination address and acknowledges the channel's peripheral and the loads go through src, src + 1, ... up to len and again; from a device every load is from the source address, acknowledged, and the stores go through dst, dst + 1, ... alike. |
| Pl330LongPass.LongPassLeavesReference | drivers/dma/pl330dma/insn.c:219-243 | The program of that request, for any addresses, channel and direction, leaves the reference for good after its first 20 periods: the outer loop jumps into the end of the last one, and the end of a period is signalled of which no byte was moved. |
| Pl330Emit.EmitFLUSHP | drivers/dma/pl330dma/opcodes.h:28-42 | Stores exactly the encoding of DMAFLUSHP at the offset, nothing elsewhere and nothing on a dry run, and returns its size either way. |
| Pl330Emit.EmitLD | drivers/dma/pl330dma/opcodes.h:44-60 | Stores exactly the encoding of DMALD at the offset, nothing elsewhere and nothing on a dry run, and returns its size either way. |
| Pl330Emit.EmitLDP | drivers/dma/pl330dma/opcodes.h:62-81 | Stores exactly the encoding of DMALDP at the offset, nothing elsewhere and nothing on a dry run, and returns its size either way. |
| Pl330Emit.EmitLP | drivers/dma/pl330dma/opcodes.h:83-100 | Stores exactly the encoding of DMALP at the offset, nothing elsewhere and nothing on a dry run, and returns its size either way. |
| Pl330Emit.EmitLPEND | drivers/dma/pl330dma/opcodes.h:109-142 | Stores exactly the encoding of DMALPEND at the offset, nothing elsewhere and nothing on a dry run, and returns its size either way. |
| Pl330Emit.EmitMOV | drivers/dma/pl330dma/opcodes.h:154-171 | Stores exactly the encoding of DMAMOV at the offset, nothing elsewhere and nothing on a dry run, and returns its size either way. |
| Pl330Emit.EmitSEV | drivers/dma/pl330dma/opcodes.h:185-199 | Stores exactly the encoding of DMASEV at the offset, nothing elsewhere and nothing on a dry run, and returns its size either way. |
| Pl330Emit.EmitST | drivers/dma/pl330dma/opcodes.h:201-217 | Stores exactly the encoding of DMAST at the offset, nothing elsewhere and nothing on a dry run, and returns its size either way. |
| Pl330Emit.EmitSTP | drivers/dma/pl330dma/opcodes.h:219-238 | Stores exactly the encoding of DMASTP at the offset, nothing elsewhere and nothing on a dry run, and returns its size either way. |
| Pl330Emit.EmitWFP | drivers/dma/pl330dma/opcodes.h:240-258 | Stores exactly the encoding of DMAWFP at the offset, nothing elsewhere and nothing on a dry run, and returns its size either way. |
| Pl330Emit.Bursts | drivers/dma/pl330dma/insn.c:84-96 | Emits the code of a loop body, for peripheral and memory transfers, in place. |
| Pl330Emit.Dregs | drivers/dma/pl330dma/insn.c:103-145 | Emits the code for the leftover beats, or nothing if there are none. |
| Pl330Emit.EmitPeriod | drivers/dma/pl330dma/insn.c:147-197 | Emits exactly the bytes of the period that the correctness results are about. |
| Pl330Emit.SplitPeriods | drivers/dma/pl330dma/insn.c:209-215 | The search ends with the least number of unrolled periods whose loop count is at most 256. |
| Pl330Emit.LoopCyclic | drivers/dma/pl330dma/insn.c:199-246 | Emits exactly the bytes of the cyclic program and returns their number, also on a dry run. |
| Pl330Emit.SubmitAudioDMA | drivers/dma/pl330dma/insn.c:248-303 | Leaves the audio program in the buffer, returns its length, and the program plays the call as told by its arguments. |
| QueueCommon.HighestBit | drivers/net/dwc_eqos/queue_common.cpp:16-18 | The bit scan brackets its argument between two powers of two. |
| QueueCommon.LeastPowerOfTwo | drivers/net/dwc_eqos/queue_common.cpp:8-25 | The ring size is a power of two, holds the clamped request, and no smaller power of two does. |
| QueueCommon.RingSizes | drivers/net/dwc_eqos/queue_common.cpp:19-22 | Only the sizes 64 to 1024 that the hardware takes come out. |
| QueueCommon.RequestIsMet | drivers/net/dwc_eqos/queue_common.cpp:8-25 | A request from 64 to 1024 is met and not doubled; a smaller one gets 64 and a larger one 1024. |
| QueueCommon.IndexRoundTrip | drivers/net/dwc_eqos/queue_common.cpp:28-37 | The index read back from the address that SetDescEnd wrote is the index, for any base with the alignment of the rings. |
| QueueCommon.EmptyRingTakesAny | drivers/net/dwc_eqos/txqueue.h:12-13 | A packet within the advertised number of fragments, with any context it may need, fits an empty ring of any size in use. |
| Ring.Count | drivers/net/dwc_eqos/txqueue.cpp:129-135 | Walking as many steps as there are elements between two ring indices leads from one to the other. |
| Ring.EmptyRemaining | drivers/net/dwc_eqos/txqueue.cpp:198-198 | The free descriptors are the ring less its region less the one hole. |
| Ring.WrapIsRemainder | drivers/net/dwc_eqos/txqueue.cpp:143-143 | On the ring sizes in use the comparisons of the model are the masks of the code. |
| TxStream.PiecesShape | drivers/net/dwc_eqos/txqueue.cpp:325-351 | A fragment is cut into ceil(rest / 0x3FFF) descriptors of 1 to 0x3FFF bytes, none first, the last one last if the fragment is. |
| TxStream.TsoDataShape | drivers/net/dwc_eqos/txqueue.cpp:315-355 | The same over all fragments: at most the descriptors counted beforehand, last on the final one only. |
| TxStream.PacketShape | drivers/net/dwc_eqos/txqueue.cpp:245-267 | A packet never takes more descriptors than were checked to be free, its final descriptor and no other can be marked last, and it is if and only if the packet has something beyond its headers. |
| TxStream.NeededIsTight | drivers/net/dwc_eqos/txqueue.cpp:257-267 | The descriptors asked for are those used: exactly so for an ordinary packet, and at most one more for a segmented one. |
| TxStream.OnlyLastInterrupts | drivers/net/dwc_eqos/txqueue.cpp:341-343 | Only the last descriptor of a packet interrupts. |
| TxStream.HeadersOnlyNeverFinish | drivers/net/dwc_eqos/txqueue.cpp:255-355 | A segmentation packet that passes the assertions and ends with its headers gets no last descriptor. |
| TxMeaning.StartIsCoherent | drivers/net/dwc_eqos/txqueue.cpp:69-70 | The start values of the cache claim nothing about the device. |
| TxMeaning.PacketMeaning | drivers/net/dwc_eqos/txqueue.cpp:214-428 | From any device state that the cache describes, reading the descriptors of a packet makes the device send its bytes, once, in order, if it has a payload, with its MSS, VLAN tag, checksum mode and lengths, and the updated cache describes the device again. |
| TxMeaning.QueueMeaning | drivers/net/dwc_eqos/txqueue.cpp:214-428 | From any device whatever, reading the descriptors of any sequence of packets sends exactly those packets with their MSS and tag, although context is emitted only when it changes. |
| TxMeaning.FramesAreAsAsked | drivers/net/dwc_eqos/txqueue.cpp:209-428 | The same frame by frame and field by field: frame k has every byte of packet k in order, its priority in the top three bits and its VLAN (or that of the queue) in the rest of the tag, no tag if and only if both are 0, and its segment size, lengths and checksum mode. |
| TxMeaning.ContextOnlyOnChange | drivers/net/dwc_eqos/txqueue.cpp:219-221 | A context descriptor is written if and only if the segment size or the tag differs from the last one written. |
| TxMeaning.SameContextOnce | drivers/net/dwc_eqos/txqueue.cpp:286-289 | A packet with the segment size and tag of the one before it gets none. |
| TxMeaning.ContextSays | drivers/net/dwc_eqos/txqueue.cpp:269-274 | Every context descriptor of a packet carries the packet's own priority, VLAN and segment size. |
| TxRing.PacketEnds | drivers/net/dwc_eqos/txqueue.cpp:164-181 | In the stream of all descriptors only the final one of each packet is marked last. |
| TxRing.ReturnedAreTransmitted | drivers/net/dwc_eqos/txqueue.cpp:139-189 | The packets given back are exactly those that reading the descriptors taken back has transmitted, even with the next packet part-done. |
| TxQueue.Queue.RegionIsUnfinishedPackets | drivers/net/dwc_eqos/txqueue.cpp:129-135 | In every state the descriptors in [descBegin, descEnd) show exactly the unfinished descriptors of the packets in [BeginIndex, NextIndex) that are not ignored, in order, the first packet possibly part-done. |
| TxQueue.Queue.ReturnedWereSent | drivers/net/dwc_eqos/txqueue.cpp:137-189 | In every state the packets returned so far are exactly those a device has transmitted by reading the descriptors taken back so far. |
| TxQueue.Queue.constructor | drivers/net/dwc_eqos/txqueue.cpp:64-93 | The started queue is valid with nothing queued. |
| TxQueue.Queue.Complete | drivers/net/dwc_eqos/txqueue.cpp:147-154 | The DMA engine may hand back any descriptor of the region at any time; the invariant survives. |
| TxQueue.Queue.SkipIgnorePackets | drivers/net/dwc_eqos/txqueue.cpp:99-116 | Skips exactly the ignored packets and returns the first fragment of the packet it stops at. |
| TxQueue.Queue.ReturnTransmitted | drivers/net/dwc_eqos/txqueue.cpp:139-189 | Takes back exactly the descriptors handed back at the head of the region and returns exactly the packets they finish, in order; the fragments returned end where those of the last returned packet do, or at the first of the next packet to be sent. |
| TxQueue.Queue.Measure | drivers/net/dwc_eqos/txqueue.cpp:245-254 | The packet length and the number of descriptors for its fragments. |
| TxQueue.Queue.WritePacket | drivers/net/dwc_eqos/txqueue.cpp:207-428 | Writes exactly the descriptors of the packet and updates the cache if they fit the free part of the ring, and otherwise changes nothing. |
| TxQueue.Queue.Fill | drivers/net/dwc_eqos/txqueue.cpp:193-432 | Queues the packets from NextIndex on, in order, until they end, the ring is full or one does not fit. |
| TxQueue.Queue.Publish | drivers/net/dwc_eqos/txqueue.cpp:434-438 | The tail and NextIndex move exactly when something was queued. |
| TxQueue.Queue.Advance | drivers/net/dwc_eqos/txqueue.cpp:120-445 | Every packet is queued once, returned once and in order; the region stays a window on the stream of their descriptors; with nothing outstanding nothing that is to be sent is left behind. Where the fragment ring begins is told from the packets alone. |
| RxQueue.GuardIsExact | drivers/net/dwc_eqos/rxqueue.cpp:261-268 | Old and new end of the ring compare equal to the engine's index if and only if nothing was filled and the engine has nothing left. |
| RxQueue.Queue.constructor | drivers/net/dwc_eqos/rxqueue.cpp:58-84 | The started queue is valid with nothing posted. |
| RxQueue.Queue.TakeOne | drivers/net/dwc_eqos/rxqueue.cpp:119-220 | A written-back descriptor becomes a packet that says what the engine reported: ignored if bad, else length less CRC, VLAN tag, layout and checksum results. |
| RxQueue.Queue.TakeReceived | drivers/net/dwc_eqos/rxqueue.cpp:104-226 | The k-th packet handed up has the fragment that was posted k-th and tells of the frame stored in it; it stops exactly at the engine's index, at a descriptor still owned or at the last packet, and the rest of the rings is untouched. |
| RxQueue.Queue.Refill | drivers/net/dwc_eqos/rxqueue.cpp:228-268 | Posts fragments in order until the ring is full or they are used up, forgets none, and writes the tail pointer if and only if the engine has something to do. |
| RxQueue.Queue.Drain | drivers/net/dwc_eqos/rxqueue.cpp:270-281 | After a cancel, once everything received was indicated, each remaining packet is returned ignored, exactly once. |
| RxQueue.Queue.Cancel | drivers/net/dwc_eqos/rxqueue.cpp:306-321 | The queue stays valid and no longer posts. |
| RxQueue.Queue.Complete | drivers/net/dwc_eqos/rxqueue.cpp:119-123 | The engine may write back any descriptor of the region at any time; the invariant survives. |
| RxQueue.Queue.EngineMoves | drivers/net/dwc_eqos/rxqueue.cpp:36-41 | The engine's index moves forward inside the region only. |
| RxQueue.Queue.GivePacket | drivers/net/dwc_eqos/rxqueue.cpp:92-92 | The framework may add a packet at any time. |
| RxQueue.Queue.GiveFragment | drivers/net/dwc_eqos/rxqueue.cpp:93-93 | The framework may add a fragment at any time. |
| RxQueue.Queue.Advance | drivers/net/dwc_eqos/rxqueue.cpp:88-289 | Keeps descriptors in [descBegin, descEnd) one-to-one with fragments in [BeginIndex, NextIndex); once drained, every packet ever given was indicated or ignored exactly once. |
| Interrupts.DeviceContext.Isr | drivers/net/dwc_eqos/device.cpp:320-368 | The step of the ISR under the interrupt lock, for any cause. |
| Interrupts.DeviceContext.InterlockedOr | drivers/net/dwc_eqos/device.cpp:357-358 | New causes join those pending. |
| Interrupts.DeviceContext.InterlockedExchange | drivers/net/dwc_eqos/device.cpp:384-391 | The DPC takes all pending causes and leaves none. |
| Interrupts.DeviceContext.SetQueuePointer | drivers/net/dwc_eqos/device.cpp:1428-1436 | The pointer half of arming and disarming. |
| Interrupts.DeviceContext.QueueBlock | drivers/net/dwc_eqos/device.cpp:398-421 | Notifies and disarms exactly the queues that are both armed and reported. |
| Interrupts.DeviceContext.Reenable | drivers/net/dwc_eqos/device.cpp:435-442 | Writes the wanted mask unless nothing is wanted. |
| Interrupts.DeviceContext.InterruptEnable | drivers/net/dwc_eqos/device.cpp:272-293 | Wanted and hardware mask change together, and only on a change. |
| Interrupts.DeviceContext.InterruptDisable | drivers/net/dwc_eqos/device.cpp:296-316 | Wanted and hardware mask change together, and only on a change. |
| Interrupts.StepKeeps | drivers/net/dwc_eqos/device.cpp:272-442 | Every atomic step of ISR, DPC, arming, disarming and power changes keeps the invariant, with any number of activations of the DPC under way. |
| Interrupts.EveryInterleavingIsSafe | drivers/net/dwc_eqos/device.cpp:272-442 | In every interleaving the hardware mask is the wanted one, or all off while a re-enable is still owed; an armed queue whose arming is complete is wanted, or its report is pending or held by a DPC before its queue block. |
| Interrupts.MaskIsWanted | drivers/net/dwc_eqos/device.cpp:235-268 | Register bit by register bit, in every interleaving: an interrupt that is on is wanted; while the ISR holds the lock link, receive, transmit, fatal and abnormal are all off; once nothing is owed every wanted one is on. |
| Interrupts.ReportedStaysOff | drivers/net/dwc_eqos/device.cpp:345-356 | In every interleaving, a queue interrupt that was reported stays off until the owner of the queue enables it again. |
| Interrupts.WantedIsKept | drivers/net/dwc_eqos/device.cpp:272-356 | Nothing but its own report, its owner or power makes a queue unwanted, and nothing but power touches the link and error interrupts. |
| Interrupts.CauseIsPassedOn | drivers/net/dwc_eqos/device.cpp:357-391 | The DPC holds exactly the causes that were passed on since the last time, bit by bit. |
| Interrupts.CauseIsKept | drivers/net/dwc_eqos/device.cpp:357-391 | No cause is lost before a DPC takes it. |
| Interrupts.PowerSetsMask | drivers/net/dwc_eqos/device.cpp:699-699 | What power on and off make of the mask. |
| Interrupts.QuietMeansListening | drivers/net/dwc_eqos/device.cpp:384-442 | Once ISR and DPC are done no status is left over, the mask is the wanted one, and every armed queue has its interrupt enabled. |
| Interrupts.NotifiedAtMostOnce | drivers/net/dwc_eqos/device.cpp:398-421 | Each arming is notified once, withdrawn by the owner or still in force: no arming is notified twice. |
| Interrupts.ReportReachesQueue | drivers/net/dwc_eqos/device.cpp:319-442 | From every reachable state a report on its way to an armed queue can be carried to its notification by steps of ISR and DPC alone. |
| PhaseTuning.ScanEndsAtLastPhase | drivers/sd/dwcmshc/rockchip_ops.cpp:185-240 | For every outcome the scan tests phases in ascending order, none twice, and phase 359 last. |
| PhaseTuning.RunsAreRuns | drivers/sd/dwcmshc/rockchip_ops.cpp:211-217 | The recorded ranges are maximal runs of good phases, in order and apart from each other. |
| PhaseTuning.RunsCover | drivers/sd/dwcmshc/rockchip_ops.cpp:211-217 | Every good phase lies in a recorded range. |
| PhaseTuning.RunsAreFew | drivers/sd/dwcmshc/rockchip_ops.cpp:170-173 | There are at most half as many ranges as phases, so the fixed array is large enough. |
| PhaseTuning.MergedAreArcs | drivers/sd/dwcmshc/rockchip_ops.cpp:251-282 | After the wrap-around merge every range is a maximal arc of the circle, and the length computed for it is its true circular length, never zero. |
| PhaseTuning.ArcsAreMerged | drivers/sd/dwcmshc/rockchip_ops.cpp:251-255 | Every maximal arc of good phases is among the merged ranges. |
| PhaseTuning.AllGood | drivers/sd/dwcmshc/rockchip_ops.cpp:257-257 | The first range is the whole circle if and only if all phases are good. |
| PhaseTuning.ChosenPhaseIsGood | drivers/sd/dwcmshc/rockchip_ops.cpp:304-306 | The phase that is set was itself tested and good. |
| PhaseTuning.WindowIsEnough | drivers/sd/dwcmshc/rockchip_ops.cpp:217-227 | Tuning succeeds wherever 20 phases in a row are good, since the scan never skips more than 19. |
| PhaseTuning.NarrowIsMissed | drivers/sd/dwcmshc/rockchip_ops.cpp:217-227 | Concrete case: 19 good phases in a row that are all skipped. |
| PhaseTuning.Scan | drivers/sd/dwcmshc/rockchip_ops.cpp:180-240 | Records exactly the runs of tested good phases, with the answers of the first and the last phase. |
| PhaseTuning.FindLongest | drivers/sd/dwcmshc/rockchip_ops.cpp:277-299 | The first of the longest ranges. |
| PhaseTuning.ExecuteTuning | drivers/sd/dwcmshc/rockchip_ops.cpp:157-330 | Fails if and only if no tested phase is good, sets the default if all are, and otherwise the middle of a longest arc. |
| ScatterGather.SameBytes | drivers/sd/dwcmshc/dwcmshc.cpp:2661-2707 | Cutting elements into pieces keeps every byte address, in order. |
| ScatterGather.PiecesFit | drivers/sd/dwcmshc/dwcmshc.cpp:2661-2707 | The number of pieces is the sum of ceil(length / maximum), each piece is nonempty and at most the maximum, and the lengths sum to the total of the list. |
| ScatterGather.LongestPieces | drivers/sd/dwcsdhc/dwcsdhc.h:1304-1304 | An element is cut into as few pieces as its length takes, of at most 4096 bytes for the one controller and 61440 for the other. |
| ScatterGather.IdmacTransfersList | drivers/sd/dwcmshc/dwcmshc.cpp:2661-2715 | A controller that follows the table to its last-descriptor flag transfers exactly the bytes of the list, whatever lies behind the table; sizes fit their field. |
| ScatterGather.CreateIdmacDescriptorTable | drivers/sd/dwcmshc/dwcmshc.cpp:2645-2726 | Fills exactly the table: owned everywhere, first flag on the first only, last and end-of-ring on the last only, interrupts suppressed on all but the last; the rest of the buffer is untouched. |
| ScatterGather.HeaderReads | drivers/sd/dwcsdhc/dwcsdhc.h:1310-1319 | The bit fields of an ADMA2 header give back validity, action, END and the 16-bit length. |
| ScatterGather.AdmaTransfersList | drivers/sd/dwcsdhc/dwcsdhc.cpp:3290-3352 | A controller that follows the ADMA2 entries to END transfers exactly the bytes of the list, with 32-bit and with 64-bit addresses. |
| ScatterGather.CreateAdmaDescriptorTable | drivers/sd/dwcsdhc/dwcsdhc.cpp:3290-3352 | Fills exactly the words of the table, END on the last entry only, leaves the rest of the buffer, and returns the total length as a 32-bit sum. |
| ScatterGather.TablesAgree | drivers/sd/dwcmshc/dwcmshc.cpp:2661-2715 | The tables built for the two controllers make them transfer the same bytes in the same order. |
| SdRequest.CompletedAtMostOnce | drivers/sd/dwcmshc/dwcmshc.cpp:1128-1222 | In every run in which no reset overtakes a queued work item or a phase being started, each phase is completed at most once across DPC, direct and work-item paths, because a phase that is complete, being started or waiting for its work item requires no events; the work item always finds its request. |
| SdRequest.StepKeeps | drivers/sd/dwcmshc/dwcmshc.cpp:906-970 | Each of issue, the two halves of a transfer start, DPC, local interrupt and DPC, work item and reset keeps that invariant, so that a DPC between the halves is harmless to it. |
| SdRequest.ResetMayOvertakeWorker | drivers/sd/dwcmshc/dwcmshc.cpp:1343-1347 | A reset in between leaves the work item with a null request. |
| SdRequest.DpcDeadEnds | drivers/sd/dwcmshc/dwcmshc.cpp:1180-1218 | The DPC leaves a phase with nothing required and nothing completed if and only if the last required events come while a timeout still waits for an end event that is not among them. |
| SdRequest.DeadEndIsFinal | drivers/sd/dwcmshc/dwcmshc.cpp:1143-1145 | No later event, error, DPC, work item or phase completes such a phase. |
| SdRequest.DeadEndIsReachable | drivers/sd/dwcmshc/dwcmshc.cpp:1195-1199 | It is reached by a PIO read that gets its response and then its data request along with a data timeout; the end of transfer that follows the timeout is thrown away. |
| SdOutcome.ErrorFailsRequest | drivers/sd/dwcmshc/dwcmshc.cpp:1186-1210 | A DPC that finds something required, with an error reported now or before, fails the request exactly when no end after a timeout is still to come: status failed, completed once, still outstanding, events and errors cleared. |
| SdOutcome.ErrorIsNoticedIffRequired | drivers/sd/dwcmshc/dwcmshc.cpp:1143-1210 | In every run: an error in a DPC that finds something required keeps the request from ever completing with success; one in a DPC that finds nothing required has no effect at all. |
| SdOutcome.LocalErrorIsNoticed | drivers/sd/dwcmshc/dwcmshc.cpp:871-898 | In every run: an error that the ISR keeps for a local request while a phase is under way does the same. |
| SdOutcome.LocalErrorWhileStartingIsMissed | drivers/sd/dwcmshc/dwcmshc.cpp:2442-2494 | Concrete case: an error kept for a local read while its phase is being started, whose end has already come, does not stop its success. |
| SdOutcome.EveryCompletionEndsWell | drivers/sd/dwcmshc/dwcmshc.cpp:2517-2608 | Of every completion in every run: a removed card means failure; success releases the request and failure keeps it; a polling thread is told; success of a write or busy response was seen on idle lines. |
| SdOutcome.WorkerEnds | drivers/sd/dwcmshc/dwcmshc.cpp:2613-2631 | In every run: a wait in vain fails the request and keeps it for the reset; a wait that ends on idle lines completes it with success. |
| SdOutcome.SuccessWasEarned | drivers/sd/dwcmshc/dwcmshc.cpp:2226-2242 | In every run since its issue: success means that the response has come, for DMA the end of the transfer, for PIO its data request, and for the last PIO phase the end of the transfer. |
| SdOutcome.DmaEndsAtOnce | drivers/sd/dwcmshc/dwcmshc.cpp:2502-2513 | The transfer phase of a DMA request completes on the spot, or waits for the card. |
| SdOutcome.ThresholdFits | drivers/sd/dwcmshc/dwcmshc.cpp:2359-2364 | The FIFO threshold is the most words that half the FIFO and, for PIO, the data hold. |
| SdPio.IssueIsOnTrack | drivers/sd/dwcmshc/dwcmshc.cpp:2352-2378 | An issued PIO request of any length waits for its first data request and satisfies the invariant of error-free runs, from any reachable state. |
| SdPio.StepStaysOnTrack | drivers/sd/dwcmshc/dwcmshc.cpp:1128-1222 | Every action without an error keeps that invariant: DPCs with any events on busy or idle lines, work items that may have to wait again, local interrupts and DPCs, and both halves of a transfer start. |
| SdPio.ChunksTile | drivers/sd/dwcmshc/dwcmshc.cpp:2428-2498 | In every error-free run of a PIO request what has been moved is a number of chunks, what remains is the rest modulo 2^32, and each phase starts at the byte where the one before it ended. If the length is a whole number of chunks, no byte past it is ever moved, a read has filled the buffer with the words of the FIFO in order and touched nothing else, a write has sent the words of the buffer in order, and the request succeeds only when all is moved. |
| SdPio.EndsIffWhole | drivers/sd/dwcmshc/dwcmshc.cpp:2428-2498 | A PIO request can come to its end with exactly its data moved if and only if its length is a whole number of chunks of FifoThreshold words. |
| SdPio.OverrunsIffUneven | drivers/sd/dwcmshc/dwcmshc.cpp:2477-2487 | It can be driven past the end of its data if and only if it is not and its chunks are not empty; a length below one word has empty chunks. |
| SdPio.ShortIsWhole | drivers/sd/dwcmshc/dwcmshc.cpp:2359-2364 | For a length within half the FIFO the condition is that it is a multiple of 4. |
| SdPio.UnevenReadOverruns | drivers/sd/dwcmshc/dwcmshc.cpp:2477-2487 | Concrete case, on a controller without IDMAC: a read of 600 bytes over a FIFO of 256 words has 88 bytes left after one chunk and 0xFFFFFE58 after two, with 1024 moved and more asked for. |
| SdPio.EndIsKeptIff | drivers/sd/dwcmshc/dwcmshc.cpp:1128-1222 | Wherever in an error-free run of a PIO request the end of transfer comes, alone or with other events: once the data is moved, the request is complete (or waits for the card to be idle) if and only if the DPC that brought the end found something still required and one chunk or nothing left. Otherwise it waits for an event that has already come. |
| SdPio.EndInGapIsLost | drivers/sd/dwcmshc/dwcmshc.cpp:1143-1145 | Concrete case, within the limit of 64 bytes for PIO: the end of a one-chunk read comes after the DPC of its data request, when nothing is required, and is thrown away. |
| SdPio.EndDuringReadIsLost | drivers/sd/dwcmshc/dwcmshc.cpp:2442-2494 | The same when it comes between the two halves of the transfer start. |
| SdDriver.Extension.RequestDpc | drivers/sd/dwcmshc/dwcmshc.cpp:1128-1222 | The DPC step for any events, errors and state of the lines. |
| SdDriver.Extension.CompleteRequest | drivers/sd/dwcmshc/dwcmshc.cpp:2517-2608 | Completes, or queues the work item exactly when a successful phase that may leave the card busy finds it busy. |
| SdDriver.Extension.CompleteRequestBusyWorker | drivers/sd/dwcmshc/dwcmshc.cpp:2613-2631 | One wait and the completion after it, which looks at the lines once more and goes back to waiting if they are busy again. |
| SdDriver.Extension.IssueCommand | drivers/sd/dwcmshc/dwcmshc.cpp:906-970 | The command phase of a new request. |
| SdDriver.Extension.SendCommand | drivers/sd/dwcmshc/dwcmshc.cpp:2226-2242 | The events that each transfer method and direction require. |
| SdDriver.Extension.BuildTransfer | drivers/sd/dwcmshc/dwcmshc.cpp:2292-2370 | The remaining length, and the FIFO threshold, lowered for short PIO transfers. |
| SdDriver.Extension.IssueTransfer | drivers/sd/dwcmshc/dwcmshc.cpp:2324-2348 | A transfer phase of the same request. |
| SdDriver.Extension.LocalRequestDpc | drivers/sd/dwcmshc/dwcmshc.cpp:2808-2838 | The DPC of local requests works on the events kept by the ISR, if a request is outstanding. |
| SdDriver.Extension.FetchPioChunk | drivers/sd/dwcmshc/dwcmshc.cpp:2442-2477 | The first half of a transfer start: the events are taken and cleared, the words of one chunk go from the FIFO to the data pointer or from there to the FIFO, and the length is reduced in 32 bits. |
| SdDriver.Extension.ReadDataPort | drivers/sd/dwcmshc/dwcmshc.cpp:3013-3021 | The words read are in memory from the given place on, in order, and nothing else is changed. |
| SdDriver.Extension.WriteDataPort | drivers/sd/dwcmshc/dwcmshc.cpp:3024-3032 | The words written are those in memory from the given place on, in order. |
| SdDriver.Extension.FinishPioChunk | drivers/sd/dwcmshc/dwcmshc.cpp:2479-2497 | The second half: the next data request is required, or the request completes, or the end of transfer is. |
| MdlChain.GetByte | drivers/i2c/rk3xi2c/mdlchain.c:3-50 | Returns byte number Index of the flattened chain, and succeeds if and only if the index is inside the transfer and its piece is mapped. |
| MdlChain.SetByte | drivers/i2c/rk3xi2c/mdlchain.c:52-100 | Under the same condition changes exactly the cell of memory that the index falls on, and otherwise nothing, for any chain; in a chain whose pieces do not overlap that is exactly that byte of the flattened chain. |
| MdlChain.Cut | drivers/i2c/rk3xi2c/mdlchain.c:18-42 | The walk splits the chain into the bytes passed and the bytes ahead, which share no memory. |
| I2cChunks.HeldGrows | drivers/i2c/rk3xi2c/rockchipi2c.c:114-138 | Storing one more buffer register extends the bytes the transmit buffer holds by the bytes put into it. |
| I2cChunks.ChunkedSnoc | drivers/i2c/rk3xi2c/rockchipi2c.c:75-143 | Chunks of at most 32 bytes, all but the last full, number ceil(total / 32). |
| I2cTransfer.Controller.FillTransmitBuf | drivers/i2c/rk3xi2c/rockchipi2c.c:107-143 | The next chunk in the transmit buffer is the next 1 to 32 bytes of the address byte followed by the payload, and MTXCNT is its length. |
| I2cTransfer.Controller.PrepareRead | drivers/i2c/rk3xi2c/rockchipi2c.c:75-101 | MRXCNT is the next chunk, LASTACK is set if and only if it is the final one, and later chunks are read in plain RX mode. |
| I2cTransfer.Controller.StoreChunk | drivers/i2c/rk3xi2c/rockchipi2c.c:211-227 | Received bytes go to the chain in order, up to the first that cannot be stored. |
| I2cTransfer.Controller.StartTransfer | drivers/i2c/rk3xi2c/rockchipi2c.c:351-398 | The state of a started transfer, with the address byte of a read. |
| I2cTransfer.Controller.StopTransfer | drivers/i2c/rk3xi2c/rockchipi2c.c:34-70 | Ends the message: a STOP condition for the last one, completion and rest for any other. |
| I2cTransfer.Controller.Timeout | drivers/i2c/rk3xi2c/rockchipi2c.c:400-413 | A timeout forces rest without a signal. |
| I2cTransfer.Controller.HandleStart | drivers/i2c/rk3xi2c/rockchipi2c.c:147-174 | START leads to the first chunk of the write or read, any other interrupt to an error. |
| I2cTransfer.Controller.HandleWrite | drivers/i2c/rk3xi2c/rockchipi2c.c:176-195 | Each transmit-finished interrupt sends one more chunk or ends the message. |
| I2cTransfer.Controller.TakeChunk | drivers/i2c/rk3xi2c/rockchipi2c.c:211-227 | What is stored of a chunk, and where the transfer stands after it: behind the chunk, or behind the first byte that could not be stored. |
| I2cTransfer.Controller.HandleRead | drivers/i2c/rk3xi2c/rockchipi2c.c:197-238 | Each receive-finished interrupt consumes the programmed number of bytes or stops at the first that cannot be stored; then the message ends, or the next chunk is set up from there, also when an earlier store has failed. |
| I2cTransfer.ClockIsExact | drivers/i2c/rk3xi2c/rockchipi2c.c:75-101 | For every chain and length, the chunks programmed by a read sum to the length if and only if no byte is impossible to store before the last one of its chunk; otherwise they sum to more (`ClockCovers`). |
| I2cTransfer.Controller.ReadClocks | drivers/i2c/rk3xi2c/rockchipi2c.c:197-238 | The same for the values written to MRXCNT in any run of interrupts that ends a read. |
| I2cTransfer.UnmappedPieceClocksMore | drivers/i2c/rk3xi2c/rockchipi2c.c:221-228 | Concrete case: two bytes over two pieces of one byte, the first of which cannot be mapped; three bytes are clocked. |
| I2cTransfer.Controller.HandleStop | drivers/i2c/rk3xi2c/rockchipi2c.c:240-265 | STOP signals completion; anything else stays in the stop state with an error. |
| I2cTransfer.Controller.Irq | drivers/i2c/rk3xi2c/rockchipi2c.c:267-324 | For any sequence of interrupts: the bytes processed never exceed the transfer, the stop state implies the last message, and completion is signalled exactly when the machine comes to rest, hence at most once for a transfer, NACKs and unexpected interrupts included. In each state the interrupt that belongs there moves the transfer on, any other one ends it with an error, and none at all changes nothing; the control and interrupt enable registers are those of the state. |
| I2cTransfer.Controller.SuccessMeansComplete | drivers/i2c/rk3xi2c/rockchipi2c.c:75-238 | A transfer signalled as successful was done in full: the chunks of a write concatenate to twice the target's seven bits and the payload in ceil((length + 1) / 32) fills; the chunks of a read fill the chain and leave the rest of it alone. |
| I2cTransfer.Controller.AddressByte | drivers/i2c/rk3xi2c/rockchipi2c.c:120-121 | The first byte of a write is even and half of it is the target's seven bits; during a read the address register is odd and half of it is the target's seven bits. |
| I2cTimings.ShareFits | drivers/i2c/rk3xi2c/clocks.c:92-119 | The two dividers sum to the larger of the minimum for the frequency and the two minima, each is at least its minimum, and sharing never wraps. |
| I2cTimings.DivsAreExact | drivers/i2c/rk3xi2c/clocks.c:76-119 | The same for every input clock and bus: the dividers never wrap and the later divisions by the high one are possible. |
| I2cTimings.Timings.SearchUpdateCfg | drivers/i2c/rk3xi2c/clocks.c:125-135 | The downward search ends with the largest data configuration that fits, or 0. |
| I2cTimings.Timings.DivideTime | drivers/i2c/rk3xi2c/clocks.c:92-119 | Shares the time between low and high as the specification function says. |
| I2cTimings.Timings.CalcTimings | drivers/i2c/rk3xi2c/clocks.c:39-168 | Frequency clamp, decremented dividers limited to 16 bits with an error exactly when one does not fit, and the tuning word, all in 32-bit arithmetic. |
| I2cTimings.Timings.UpdateClockSettings | drivers/i2c/rk3xi2c/clocks.c:204-213 | Rise and fall times by speed. |
| I2cTimings.ClampedIs | drivers/i2c/rk3xi2c/clocks.c:58-64 | A frequency from 1 kHz to 1 MHz is kept, any other becomes the nearest of them. |
| I2cTimingsMeetSpec.DataTimes | drivers/i2c/rk3xi2c/rk3xi2c.h:133-163 | The limits on data hold and set-up times of the three modes. |
| I2cTimings.SmallFieldsHold | drivers/i2c/rk3xi2c/clocks.c:149-151 | Small configurations stay in their fields of the tuning word and in bits 15 to 8. |
| I2cTimings.NothingFoundSpoils | drivers/i2c/rk3xi2c/clocks.c:149-149 | A search that found nothing makes the tuning word leave its bits. |
| I2cTimingsMeetSpec.TimingsMeetSpec | drivers/i2c/rk3xi2c/clocks.c:58-119 | For every bus from 1 kHz on and every input clock whose minima do not wrap, SCL is never faster than requested, and low and high times meet the specification with rise and fall times. |
| I2cTimingsMeetSpec.SetupsAreMet | drivers/i2c/rk3xi2c/clocks.c:139-147 | Where nothing wraps, the START and STOP set-up configurations are the least that meet their times, and 1 or 2. |
| I2cTimingsMeetSpec.SearchFinds | drivers/i2c/rk3xi2c/clocks.c:125-135 | The search finds a configuration if and only if configuration 1 fits. |
| I2cTimingsMeetSpec.TuningStaysInBits | drivers/i2c/rk3xi2c/clocks.c:125-151 | Where nothing wraps, slow buses included, the tuning word stays in bits 15 to 8 if and only if (div_low + 1) * 1000000 <= (max_data_hold_ns - 1) * clk_rate_khz; then the data hold and set-up times are met and every field holds its configuration less one. |
| I2cTimingsMeetSpec.FastIsInRange | drivers/i2c/rk3xi2c/clocks.c:75-119 | For 3 to 390 MHz of input clock and a bus of at least 100 kHz nothing wraps. |
| I2cTimingsMeetSpec.EvenShare | drivers/i2c/rk3xi2c/clocks.c:92-119 | In standard mode the dividers differ by at most one and sum to what the frequency asks for or to at most 488. |
| I2cTimingsMeetSpec.SlowIsInRange | drivers/i2c/rk3xi2c/clocks.c:75-119 | On a slower bus nothing wraps as long as the divider its frequency asks for is at most 976 and leaves room for the set-up times. |
| I2cTimingsMeetSpec.StandardSpeedsTune | drivers/i2c/rk3xi2c/clocks.c:125-151 | At 100 kHz, 400 kHz and 1 MHz, from 25 MHz of input clock up, the search ends at once at 3 and the tuning word is good. |
| I2cTimingsMeetSpec.SlowBusSpoilsTuning | drivers/i2c/rk3xi2c/clocks.c:125-151 | At 10 kHz from 50 MHz nothing wraps, but the condition fails, and the tuning word overwrites other bits of the control register. |

## Left out

- Masks on ring indices are written as comparisons and the fields of the PL330 control word as quotients and
  remainders; `Ring.WrapIsRemainder` and `Pl330Compiler.SetBeatsFields` say that this is the same.
- A 32-bit I2C buffer register is its four bytes, lowest first, so that shifting a byte into a clear register
  is storing it.
- TxQueue.Queue.Give: asks that a packet to be segmented has payload beyond its headers, which the code does
  not assert; `TxStream.HeadersOnlyNeverFinish` is why. Fragments are held in the packets instead of in a ring
  of their own; the begin index of that ring is modelled, its contents and end index are not.
- TxQueue.Queue.Complete: the engine may hand back descriptors in any order, more than the hardware does.
- RxQueue.Queue.Advance: the engine's current-descriptor register is read once and assumed to lie in the posted
  region. After the drain the framework adds nothing; the assertion on the fragment index at
  drivers/net/dwc_eqos/rxqueue.cpp:114 does not hold for a further call if the engine has moved on, and the call
  then does nothing, as in a build without assertions.
- Pl330Emit.SubmitAudioDMA: asks that the program fits the buffer; the code does not check this, and
  `Pl330Meaning.ProgramFitsSlice` says when the channel's slice is large enough. Starting and stopping the
  channel is not modelled, and a wait for a peripheral is assumed to end.
- Interrupts.StepKeeps: power changes find interrupts drained, as the framework disconnects them first, and
  the queues disarmed, as the code asserts. Link state and error causes only travel through the status.
- SdRequest.CompletedAtMostOnce: a DPC, an issue, a work item and an interrupt are one step each, and a PIO
  transfer start is two; the stores inside a step are not interleaved further. A work item is queued once.
  Timeouts of the polling thread for local requests, bus operations after the abort in a reset, and the register
  accesses are not modelled; the lines (busy, card inserted) are inputs.
- SdPio.EndIsKeptIff: is about requests of the port driver; for local requests the ISR keeps the end itself.
- SdDriver.Extension.CompleteRequest: the case of a busy card at DISPATCH_LEVEL, where the work item is queued;
  at a lower level the code waits on the spot, which is the step of the work item taken at once.
- SdDriver.Extension.FetchPioChunk: the array `memory` goes on past the data buffer, as far as it is accessed.
- I2cTransfer.Controller.Irq: acknowledging interrupt bits, the event that wakes the waiting thread and the
  tuning bits of the control register are not modelled; the field isBusy is never read and is dropped.
- I2cTransfer.Controller.StartTransfer: needs pieces of a buffer that do not overlap, as the I/O manager builds
  them. Targets with other than 7-bit addresses are refused before it, and the valid bit of the address register
  is not modelled.
- I2cTimingsMeetSpec.TuningStaysInBits: says nothing where the 32-bit products wrap, at dividers above 488.
- I2cTimings.Timings.CalcTimings: input clocks within 999 Hz of 2^32 Hz are excluded; there the code divides by
  zero.
- PhaseTuning.ExecuteTuning: setting a phase and sending the tuning command are one answer per phase, which
  is tried at most once; a failure to set the final phase is only logged.
- Polling with timeouts, device reset and flush, PnP, power and clock plumbing, statistics and tracing, the
  GPIO, audio, ACPI and display drivers: decided by hardware or by libraries, or single register updates.
