# Protocol models of the mt76 Wi-Fi and MediaTek Bluetooth drivers

This project models the parts of the vendored drivers that keep state under concurrency or carry data through
several hands, and proves what they keep over every run.

| file | what it models |
|---|---|
| SequenceNumber, ReorderBuffer, RxTid | block-ack receive reordering: 12-bit arithmetic, the circular buffer as functions, the same as a class with its array and loops |
| ReorderWindow, ReorderRefinement, ReorderTimeout | the reordering rule without a circular buffer (unbounded numbers), and that the buffer computes it |
| ReorderRuns, ReorderProperties, ReorderSession | whole runs of a session: order, conservation, timer, the fate of each arrival, which frames a timeout releases, and for which window sizes they hold |
| Worker, WorkerControl | the SCHEDULED/RUNNING wake-up handshake of the worker thread, and what its controller can rely on |
| HciReassembly, HciPackets | the four HCI packet reassembly loops, and what they make of the packets of the HCI transport |
| Autosuspend, AutosuspendUrbs, BtusbTx | the `tx_in_flight` / deferred-URB protocol; the life of one URB; the critical sections as methods |
| Firmware | the WMT chunk loops and the region loop of the WLAN firmware |
| TxRing, TxUnmaps, Txp, TxDma | the transmit ring, what its entries undo, the hardware buffer list, and the ownership of DMA mappings |
| Tokens | transmit tokens with backpressure |
| TxStatus, TxStatusRuns, TxStatusEntries, TxStatusDev | two-flag status completion as a state machine; whole runs and lost frames; the stages of entries and senders; the functions of tx.c as methods |
| RxRing, RxFrames | the receive ring, fragment collection and the poll loop; delivered frames against the hardware's packets |
| Power, PowerRuns, PowerEvents, PowerDev | wake references against the sleep bit and chip ownership; whole runs; what each event changes; the functions as methods |
| StaRec, StaCmd, StaRecords | the station-update message: encoding, in-place writers, reader, and which records a command calls for |
| Amsdu | grouping of A-MSDU subframes through a tail pointer |
| Basics | the option type, bytes, and associativity of concatenation |

Two forms recur. Where the source updates an object in place, a class has its fields and its methods are proved
against functions of the old state. Where threads interleave, a `State` has a program counter per thread, `Step` is
one critical section (or one bit operation), and lemmas speak of `Run` over every sequence of events. An event that
is not enabled changes nothing, so every sequence of events is a run. Answers of code outside the drivers (the USB
core, the IDR, the page pool, the hardware, allocation) are parameters of the events.

Where the code does not do what its surroundings expect, the code is kept, and the exact condition under which it meets
the expectation is proved:

- Reordering delivers in order for exactly the window sizes from 2 up that divide 4096 (among sizes up to 2048); the
  peer's requested size is passed on unchanged (`src/mt76/mt7921/main.c`). See ReorderProperties.InOrderIffGoodSize.
- The worker loop tests for a stop before it becomes interruptible, so a teardown can be missed if and only if the
  kernel leaves no signal pending on a stopped thread. See Worker.StopCanBeMissed.
- The HCI event path drops a byte if and only if a buffer completes a packet and ends one byte behind one; reassembly is
  then out of step. See HciReassembly.Reassembly.
- A counted URB whose submission fails leaves `tx_in_flight` raised for good; autosuspend succeeds exactly when no URB
  is counted. See Autosuspend.AutosuspendSucceedsIff.
- A deferred URB is thrown away if and only if a failure finds it on the anchor or it is put there between the two loops
  of `play_deferred`, where nothing has failed. See Autosuspend.DoomedIff.
- After a system suspend a counted URB may still be submitted exactly when a sender had already been counted. See
  Autosuspend.SubmitsWhileDownIff.
- The 79xx downloader sends a section after twenty "in progress" answers as if it had been told to. See
  Firmware.NegotiateIff.
- The buffer list keeps 12 bits of length, so exactly the mappings of 4096 bytes or more are undone with another length.
  See Txp.RoundTripIff and TxDma.FreeFaultsIff.
- A token batch that decided to unblock TX may do so after the table has filled up again: blocked means full throughout
  a run exactly when no consume fills the table while a batch is set to unblock. See Tokens.AlwaysExactIff.
- A frame registered for status while its entry is being cleaned up can be lost, if and only if the cleanup does not wait
  for an RCU grace period: a station's does, an interface's own entry does not. See TxStatusRuns.CanLose and TxStatusRuns.LostExact.
- A dropped last fragment glues the next received packet to the rest of the previous one, and no other event does. See
  RxFrames.CutIff, UnmixedIff and WholeIff.
- A hand-over to the firmware that gives up clears the sleep bit without knowing the owner; a reference is safe exactly
  when the last hand-over did not give up. See PowerRuns.ReferencesAreSafe.

Assumptions stated once: memory is sequentially consistent; jiffies are read once per critical section; RCU lookups of
sessions, stations and handles are parameters; DMA addresses have 32 bits and the plain mmio path with
MT_DRV_TXWI_NO_FREE is taken.

## Model

| member | source | states |
|---|---|---|
| SequenceNumber.SlotOfUnwrapped | src/mt76/agg-rx.c:39 | a slot index survives the 4095 to 0 wrap because the window size divides 4096 |
| SequenceNumber.SlotReuse | src/mt76/agg-rx.c:20-26 | of the next `size` numbers only the last one falls into the slot of the head |
| SequenceNumber.WindowTest | src/mt76/agg-rx.c:219-221 | the 12-bit window test is "less than size ahead", and the flush target is `size - 1` before the frame |
| SequenceNumber.SnLessStep | src/mt76/agg-rx.c:38-41 | each turn of the release loop brings the head closer, so the loop ends |
| ReorderBuffer.FreeSlotsEmpties | src/mt76/agg-rx.c:276-285 | the shutdown loop, which stops when the count is used up, leaves no slot occupied |
| ReorderBuffer.Shutdown | src/mt76/agg-rx.c:268-287 | after shutdown the session is stopped, counts no frame and holds none |
| ReorderWindow.FlushReleases | src/mt76/agg-rx.c:31-42 | moving the head releases exactly the frames passed, once each and in order |
| ReorderWindow.DrainReleases | src/mt76/agg-rx.c:44-53 | draining releases exactly the frames next in order and stops at the first gap |
| ReorderWindow.FlushTwice | src/mt76/agg-rx.c:84 | two flushes are one flush to the later target |
| ReorderWindow.LastExpiredIsLast | src/mt76/agg-rx.c:70-85 | the reference target of the timeout is the greatest expired number |
| ReorderRefinement.AggrReleaseRefines | src/mt76/agg-rx.c:15-29 | releasing a slot is popping the front of the unbounded window |
| ReorderRefinement.ReleaseFramesRefines | src/mt76/agg-rx.c:31-42 | the release loop is the flush of the unbounded window, for every target up to half the circle ahead |
| ReorderRefinement.ReleaseFramesStays | src/mt76/agg-rx.c:38 | a target behind the head, or half the circle away, releases nothing |
| ReorderRefinement.ReleaseHeadRefines | src/mt76/agg-rx.c:44-53 | the head loop is the drain of the unbounded window |
| ReorderRefinement.CheckCtlRefines | src/mt76/agg-rx.c:118-146 | a block-ack request flushes to its number and drains; one behind the head does nothing |
| ReorderRefinement.MakeRoomRefines | src/mt76/agg-rx.c:219-222 | a frame beyond the window moves the window so that the frame is its last number |
| ReorderRefinement.AdmitRefines | src/mt76/agg-rx.c:213-235 | a frame ahead of the head is stored or, if its number is held, freed; then everything in order leaves |
| ReorderRefinement.ReorderRefines | src/mt76/agg-rx.c:148-242 | an arrival not behind the head acts on the circular buffer as on the unbounded window |
| ReorderTimeout.ScanRefines | src/mt76/agg-rx.c:70-85 | the scan, which moves the head while it iterates from a fixed start, is one flush to the last expired frame |
| ReorderTimeout.CheckReleaseRefines | src/mt76/agg-rx.c:55-88 | the whole timeout step is drain, flush to the last expired frame, drain |
| ReorderTimeout.TimeoutLeavesNoExpired | src/mt76/agg-rx.c:55-88 | afterwards no buffered frame is older than the timeout |
| ReorderSession.ExpiredIff | src/mt76/agg-rx.c:79-81 | within 2^31 ticks the comparison holds exactly when a frame has waited longer than the timeout |
| ReorderSession.TimeoutExact | src/mt76/agg-rx.c:55-88 | a buffered frame leaves in a timeout if and only if one has waited longer than the timeout and it is that frame, lies before it, or follows it without a gap |
| ReorderSession.NothingOverdueLeft | src/mt76/agg-rx.c:79-84 | no frame left behind has waited longer than the timeout |
| ReorderSession.TimeoByCategory | src/mt76/agg-rx.c:7-13 | background and best-effort traffic waits a tenth of a second, everything else a 25th |
| ReorderRuns.StepInOrder | src/mt76/agg-rx.c:44-241 | every critical section releases in strictly increasing order, between the old and the new head, and keeps the invariant |
| ReorderRuns.RunInOrder | src/mt76/agg-rx.c:44-241 | in every run the released numbers, unwrapped, are strictly increasing: no number twice, across any number of wraps |
| ReorderRuns.RunStaysSettled | src/mt76/agg-rx.c:90-242 | the window invariant holds after every run |
| ReorderRuns.StartIsSettled | src/mt76/agg-rx.c:255-258 | a new session satisfies the invariant |
| ReorderRuns.SettledIsWindowInvariant | src/mt76/agg-rx.c:15-88 | the invariant in the driver's terms: count, slot of each number, distance from the head, empty head slot |
| ReorderProperties.RunConserves | src/mt76/agg-rx.c:148-290 | in every run each frame given in is passed, released, freed or still buffered, with multiplicity |
| ReorderProperties.ShutdownFreesAll | src/mt76/agg-rx.c:268-287 | shutdown frees exactly the buffered frames |
| ReorderProperties.StoppedPassesAll | src/mt76/agg-rx.c:185-186 | after shutdown every later frame bypasses the session and none is buffered |
| ReorderProperties.FreedOnArrival | src/mt76/agg-rx.c:200-230 | a frame is freed on arrival exactly when it is behind the head after the start or its number is already buffered |
| ReorderSession.RunMarks | src/mt76/agg-rx.c:185-198 | in every run a session is started if and only if a frame not behind its head arrived before the stop, and stopped if and only if it was stopped; its timeout never changes |
| ReorderSession.PassedIff | src/mt76/agg-rx.c:185-198 | in every run an arrival passes by if and only if the session was stopped or the frame is behind the head of one that has accepted none; so none does between the first frame released or buffered and the stop |
| ReorderSession.FreedIff | src/mt76/agg-rx.c:200-230 | in every run an arrival is freed if and only if, before the stop, it is behind the head after some frame was accepted, or its number is buffered |
| ReorderSession.BufferedHasArrived | src/mt76/agg-rx.c:232-234 | in every run a buffered frame is one that arrived, stamped with the time of its arrival |
| ReorderProperties.RunStaysArmed | src/mt76/agg-rx.c:109-111 | while frames are buffered the delayed work is pending or about to queue itself again |
| ReorderProperties.ReleasedTooEarly | src/mt76/agg-rx.c:224-235 | a frame whose slot is also the head's slot is released at once |
| ReorderProperties.BadSizeBreaksOrder | src/mt76/agg-rx.c:219-235 | a window size of 1, or one that does not divide 4096, has a run that delivers out of order |
| ReorderProperties.InOrderIffGoodSize | src/mt76/agg-rx.c:244-258 | every run is in order if and only if the size is at least 2 and divides 4096 |
| RxTids.RxTid.constructor | src/mt76/agg-rx.c:244-265 | a new session has the start number as head and an empty buffer |
| RxTids.RxTid.AggrRelease | src/mt76/agg-rx.c:15-29 | the array update is the function on the session's value |
| RxTids.RxTid.ReleaseFrames | src/mt76/agg-rx.c:31-42 | the loop over the array computes the recursive release |
| RxTids.RxTid.ReleaseHead | src/mt76/agg-rx.c:44-53 | the loop over the array computes the recursive release from the head |
| RxTids.RxTid.ScanExpired | src/mt76/agg-rx.c:67-85 | the scan loop, with its fixed start and moving head, computes the recursive scan |
| RxTids.RxTid.CheckRelease | src/mt76/agg-rx.c:55-88 | the timeout step on the array |
| RxTids.RxTid.ReorderWork | src/mt76/agg-rx.c:104-107 | the critical section of the delayed work is the run's step |
| RxTids.RxTid.RearmWork | src/mt76/agg-rx.c:109-111 | the work queues itself again exactly when frames were left |
| RxTids.RxTid.BlockAckRequest | src/mt76/agg-rx.c:140-145 | the critical section of a block-ack request is the run's step |
| RxTids.RxTid.Reorder | src/mt76/agg-rx.c:183-241 | the critical section of an arrival is the run's step, with the frame taken off the queue or left on it |
| RxTids.RxTid.Shutdown | src/mt76/agg-rx.c:273-287 | the shutdown loop frees the buffered frames in slot order |
| RxTids.RxAggrReorder | src/mt76/agg-rx.c:148-242 | frames outside a session stay on the queue untouched; control frames act only as block-ack requests |
| Worker.StepKeepsInv | src/mt76/util.c:109-135 | every step of worker, requester or controller keeps the wake-up invariant |
| Worker.RunKeepsInv | src/mt76/util.h:78-104 | no wake-up is lost: whenever the worker sleeps with a request or a park outstanding, somebody is still on the way to wake it |
| Worker.StepRanks | src/mt76/util.c:113-132 | every effective step brings the call of the function nearer, whoever takes it |
| Worker.NotStuck | src/mt76/util.c:113-132 | while a request waits, some step is possible |
| Worker.RequestIsServed | src/mt76/util.h:78-86 | in every interleaving a request leads to a call of the function before 75 effective steps, and 11 more for each requester, and until then some step is possible |
| Worker.CallsAsk | src/mt76/util.h:97-104 | every call of schedule, and every enable, counts as a request |
| Worker.RunsOnlyRequests | src/mt76/util.c:121-128 | the function is called at most once for each time the bit was turned on |
| Worker.DisabledNeverRuns | src/mt76/util.h:88-95 | between disable and the next enable the function is not called, whoever asks |
| Worker.StopCanBeMissed | src/mt76/util.c:113-124 | a stop can be missed by a sleeping worker if and only if stopping leaves no signal pending |
| Worker.MissedStopStays | src/mt76/util.c:113-135 | once missed, the teardown waits for ever unless somebody schedules the worker again |
| WorkerControl.RunsAwake | src/mt76/util.c:126-129 | in every run the function is called as a running task |
| WorkerControl.CommandsWait | src/mt76/util.h:88-110 | the controller takes a command exactly while no other is under way |
| WorkerControl.DisableRanks | src/mt76/util.h:88-95 | while a disable is under way every step of worker or call brings its return nearer, requests do not delay it, somebody can move, and it returns with both bits clear |
| WorkerControl.DisableIsBounded | src/mt76/util.h:88-95 | a disable returns in every interleaving after at most eleven such steps |
| WorkerControl.TeardownEnds | src/mt76/util.c:111-115 | with signals a stopped worker exits after at most eight of its own steps, in every interleaving |
| HciReassembly.ParseConserves | src/bluetooth/btusb.c:1293-1349 | no byte is invented, and without errors only stray bytes are lost |
| HciReassembly.ParseResumes | src/bluetooth/btusb.c:1300-1345 | reading may stop anywhere and go on with the kept partial frame |
| HciReassembly.ReadsWhatWasSent | src/bluetooth/btusb.c:1315-1340 | well-formed packets sent one after the other are read back, with the tail as partial frame |
| HciReassembly.SentWhatIsRead | src/bluetooth/btusb.c:1315-1340 | what is read without error is the stream itself, cut into well-formed packets |
| HciReassembly.Reassembly | src/bluetooth/btusb.c:1211-1277 | for any stream one pass reads without error and any split, packets and partial frame are those of the one pass if and only if no buffer completes a packet of the stream and ends one byte behind a packet |
| HciReassembly.FeedReportsError | src/bluetooth/btusb.c:1293-1349 | for every stream and every split without stray bytes the receive functions report the error of the one pass, and hand up the packets in front of a refused header |
| HciReassembly.OnlyEventsStray | src/bluetooth/btmtk.c:1057-1114 | bulk, isochronous and ISO reassembly never drop a stray byte, so they never depend on the split |
| HciReassembly.MemoryFailure | src/bluetooth/btusb.c:1293-1307 | when only some allocations succeed, the packets of those skbs are handed up, the rest of the buffer is dropped and the call fails; with enough of them nothing changes |
| HciPackets.PrintedIsWellFormed | src/bluetooth/btusb.c:1323-1333 | a packet laid out as the HCI transport defines it is accepted if and only if it fits the skb and, on a synchronous link, its handle is connected |
| HciPackets.WellFormedIsPrinted | src/bluetooth/btusb.c:1323-1333 | whatever is accepted is such a packet |
| HciPackets.ReadsPrinted | src/bluetooth/btusb.c:1293-1349 | acceptable packets laid out one after the other are read back, each with its own bytes |
| HciPackets.RefusesOthers | src/bluetooth/btmtk.c:1089-1102 | any other packet ends the reading with the error, and nothing of it is handed up |
| HciPackets.ReceivesPrinted | src/bluetooth/btusb.c:1211-1277 | in any split into buffers the packets sent are the packets handed up, if and only if no stray byte is dropped |
| HciReassembly.Reassembler.Take | src/bluetooth/btusb.c:1315-1333 | bytes up to the expected count are appended, and a complete header is accepted or the frame thrown away |
| HciReassembly.Reassembler.Recv | src/bluetooth/btusb.c:1293-1349 | the receive loop hands up the parser's packets, keeps its remainder and returns its error, with any allocation failure |
| Autosuspend.StepKeepsInv | src/bluetooth/btusb.c:2184-2203 | every step of senders, completions, suspend and resume keeps the invariant |
| Autosuspend.RunKeepsInv | src/bluetooth/btusb.c:4485-4637 | in every interleaving the count equals the counted URBs and is never negative; the deferred anchor is a queue of which each resume submits a prefix |
| Autosuspend.AutosuspendIsQuiet | src/bluetooth/btusb.c:4500-4516 | from a successful autosuspend until `play_deferred` no counted URB is submitted |
| Autosuspend.AutosuspendSucceedsIff | src/bluetooth/btusb.c:4492-4508 | while awake, an autosuspend succeeds exactly when there is no connection and no URB is counted, a system suspend always, and a refused one changes nothing |
| Autosuspend.SuspendsNest | src/bluetooth/btusb.c:4494-4498 | while asleep only an autosuspend with a connection is refused, every other suspend nests by one, and the last resume wakes up |
| Autosuspend.SubmitsWhileDownIff | src/bluetooth/btusb.c:4497-4516 | after any suspend a counted URB can still be submitted if and only if a sender was already counted |
| Autosuspend.FailureBlocksAutosuspend | src/bluetooth/btusb.c:2162-2182 | after a failed submission no autosuspend ever succeeds again |
| Autosuspend.DoomedIff | src/bluetooth/btusb.c:4543-4571 | in every interleaving an URB is thrown away if and only if a failed submission or resume finds it on the anchor, it is put there between the two loops, or it is a refused isochronous one |
| Autosuspend.LostIffLate | src/bluetooth/btusb.c:2190-2200 | in every run without failures, an URB is thrown away if and only if it is put on the anchor between the two loops |
| Autosuspend.DeferredIsSentIff | src/bluetooth/btusb.c:4543-4571 | of the URBs on the anchor when the play begins, exactly those that no failed submission finds there have been submitted when it is over, whatever happens meanwhile |
| Autosuspend.PlayEnds | src/bluetooth/btusb.c:4548-4564 | the first loop takes at most one turn for each URB that is or gets on the anchor, and one more |
| Autosuspend.DeferredCanBeLost | src/bluetooth/btusb.c:2199-2200 | such a loss without any failure is reachable |
| AutosuspendUrbs.CommittedPlaces | src/bluetooth/btusb.c:2162-2203 | exactly how a counted URB gets to its submission, and when that fails |
| AutosuspendUrbs.OutstandingPlaces | src/bluetooth/btusb.c:1903-1932 | exactly how an URB gets to the USB core, by its sender or by a resume, and how it completes |
| AutosuspendUrbs.UncountedPlaces | src/bluetooth/btusb.c:2184-2230 | exactly how one becomes deferred, and that isochronous ones are never counted or deferred |
| BtusbTx.BtusbData.SubmitOrQueue | src/bluetooth/btusb.c:2190-2194 | the critical section counts the URB unless a suspend is under way |
| BtusbTx.BtusbData.TxComplete | src/bluetooth/btusb.c:1925-1927 | the completion takes the URB off the count |
| BtusbTx.BtusbData.Suspend | src/bluetooth/btusb.c:4494-4508 | it is busy exactly for an autosuspend with a connection, or with counted URBs while awake; the count is restored then, and one higher otherwise |
| BtusbTx.BtusbData.PlayDeferred | src/bluetooth/btusb.c:4543-4571 | the two loops, with URBs deferred before any look at the anchor, end, are a run of the protocol, and submit or throw away each deferred URB as its theorem says |
| Firmware.PiecesAreExact | src/mt76/mcu.c:138-158 | the chunks are the bytes in order, none empty or too long, all but the last full |
| Firmware.ChunksFit | src/bluetooth/btmtk.c:592-594 | every 250-byte WMT chunk passes the 255-byte command check, and 251 bytes would not |
| Firmware.FlagsDiffer | src/bluetooth/btmtk.c:208-219 | the two downloaders' flags differ exactly on a single chunk |
| Firmware.FlagsMark | src/bluetooth/btmtk.c:208-219 | flag 1 starts a section, 3 ends it and 2 lies between, except for a single chunk |
| Firmware.DownloadSection | src/bluetooth/btmtk.c:208-236 | the chunks sent are those of the section up to the first failing command, flagged 1, 2..., 3 and a single one 1 |
| Firmware.DownloadPatch | src/bluetooth/btmtk.c:284-319 | the same after skipping 30 bytes, a single chunk flagged 3; shorter files are refused |
| Firmware.NegotiateIff | src/bluetooth/btmtk.c:171-206 | a section is sent if the first definite answer is "undone" and also after twenty "in progress" answers, skipped if it is "done", and fails otherwise |
| Firmware.SectionsExact | src/bluetooth/btmtk.c:159-241 | the download succeeds if and only if every section is empty, skipped, or accepted and sent, and then carries exactly the bytes of the sections the device did not have |
| Firmware.DownloadSections | src/bluetooth/btmtk.c:159-241 | sections are sent in order, skipped when done, until one fails |
| Firmware.SendPieces | src/mt76/mcu.c:138-158 | the chunk loop sends exactly the chunks of its data up to the first failing message |
| Firmware.SendRam | src/mt76/mt76_connac_mcu.c:2957-3006 | downloadable regions are sent in order until a request is refused or a chunk fails, and it succeeds exactly when none does; the start command gets the last override address |
| Firmware.MessagesAreRegions | src/mt76/mt76_connac_mcu.c:2990-2998 | the messages carry exactly the downloadable regions, skipped ones still moving the offset |
| TxRing.TxQueue.AddBuf | src/mt76/dma.c:306-373 | a packet's buffers are packed two to a slot behind the queued slots; the head stays tail plus queued, and the packet joins the list of queued packets |
| TxRing.TxQueue.BuildPair | src/mt76/dma.c:319-360 | one turn of the loop writes addresses, lengths, unmap flags and LAST bits of a pair |
| TxRing.TxQueue.CleanupIdx | src/mt76/dma.c:375-394 | the tail entry is unmapped as its flags say and cleared |
| TxRing.TxQueue.AdvanceTail | src/mt76/tx.c:805-815 | the tail moves past the cleared slot and the hardware's share shrinks with it |
| TxRing.TxQueue.MeetIffNothingDone | src/mt76/dma.c:421 | tail and hardware index meet exactly when nothing more is done: full and empty are never confused |
| TxRing.TxQueue.TxCleanup | src/mt76/dma.c:406-433 | completions come in queue order and are exactly the slots the hardware has finished |
| TxRing.TxQueue.Flush | src/mt76/dma.c:406-441 | a flush completes everything and leaves an empty ring where the hardware stands |
| TxRing.TxQueue.SyncIdx | src/mt76/dma.c:188-203 | on an empty ring head and tail may be set to the hardware index |
| TxRing.TxQueue.QueueRaw | src/mt76/dma.c:603-628 | a raw frame is queued exactly while two slots would stay free, and kicked |
| TxRing.WalkRecovers | src/mt76/dma.c:354-362 | following the LAST bits cuts the queue into packets and gives back each buffer list |
| TxRing.WalkRecoversQueue | src/mt76/dma.c:306-373 | the LAST bits of a list of packets give back every packet's buffer list, in order |
| TxUnmaps.PacketUnmaps | src/mt76/dma.c:319-394 | completing a packet's entries undoes exactly the mappings it owns, in buffer order, each with its address and length |
| TxUnmaps.PacketCompletes | src/mt76/dma.c:363-366 | its skb and txwi are completed once, with the last entry |
| TxUnmaps.PacketMarks | src/mt76/dma.c:326-332 | the first of several entries of a frame with a txwi carries the mark of a borrowed buffer, the last one alone the skb and txwi |
| TxRing.TxQueue.RingWalk | src/mt76/dma.c:306-373 | at any time, reading the descriptor array itself from the next packet boundary gives back the buffers of exactly the packets still queued |
| Txp.RoundTrip | src/mt76/mt76_connac_mac.c:162-246 | for one to four buffers the reader visits exactly those the writer stored, with masked lengths |
| Txp.RoundTripIff | src/mt76/mt76_connac_mac.c:183-241 | address and length come back unchanged if and only if every buffer is shorter than 4096 bytes |
| Txp.LenFieldBits | src/mt76/mt76_connac_mac.c:175-188 | the length field holds twelve bits of length, bit 15 on the last buffer, and there bit 14 on later chips |
| Txp.WrittenPlaces | src/mt76/mt76_connac_mac.c:181-196 | place by place the written list holds the buffers in order, two a pair, bit 15 on the last one alone, and zeroes behind it |
| Txp.ReadsToLast | src/mt76/mt76_connac_mac.c:225-245 | of any list the reader takes the places in order up to the first with bit 15, or bit 14 on later chips |
| Txp.HwTxp.Write | src/mt76/mt76_connac_mac.c:162-198 | the writer's loop over pairs stores the list of the round trip |
| Txp.HwTxp.Unmap | src/mt76/mt76_connac_mac.c:213-246 | the reader's loop unmaps the list of the round trip and stops at the LAST bit |
| TxDma.StepKeepsInv | src/mt76/dma.c:672-718 | queueing, its errors, ring cleanup and token release each keep one owner per mapping |
| TxDma.RunKeepsInv | src/mt76/mt7921/pci_mac.c:27-51 | in every run each mapping is undone exactly once with its own length: no unmap mismatches, and what is mapped has exactly one owner |
| TxDma.UndoneIsUnchanged | src/mt76/dma.c:715-718 | every error path undoes all mappings made so far, whichever step failed |
| TxDma.NothingLeaks | src/mt76/mt76_connac_mac.c:1198-1210 | with the ring clean and all tokens back nothing is mapped |
| TxDma.FreshRunIsSafe | src/mt76/dma.c:603-718 | both hold in every run of a new ring |
| TxDma.UnmapFaultsIff | src/mt76/dma.c:375-386 | a fault is raised exactly by undoing what is not mapped, or not with that length |
| TxDma.QueuedIff | src/mt76/dma.c:613-697 | a frame is queued exactly if its slots leave two of the ring free, and only then does a data frame take a token |
| TxDma.RunLeavesRoom | src/mt76/dma.c:603-697 | in every run of a new ring two slots stay free |
| TxDma.FreeFaultsIff | src/mt76/mt76_connac_mac.c:232-241 | releasing a frame goes wrong if and only if one of its buffers has 4096 bytes or more |
| Tokens.RunKeepsInv | src/mt76/tx.c:844-916 | in every interleaving tokens are distinct and counted, and TX blocked below the threshold has a batch about to unblock it |
| Tokens.TokensSafe | src/mt76/tx.c:844-916 | the count never exceeds the table, and once all batches are over TX is blocked only when full |
| Tokens.BlockedChanges | src/mt76/tx.c:859-860 | TX is blocked exactly by a consume that reaches the threshold and opened exactly by the end of a batch set to do so |
| Tokens.BatchChanges | src/mt76/mt7921/mac.c:506-546 | a batch runs from its begin to its end, and is set to open TX exactly by a release of its own that finds TX blocked below the threshold |
| Tokens.LiveChanges | src/mt76/tx.c:844-914 | a token is in use from its consume to its release |
| Tokens.StepExactIff | src/mt76/tx.c:844-914 | from a state where blocked means full, a step leads to another one unless it is a consume that fills the table while a batch is set to unblock, and only then not |
| Tokens.AlwaysExactIff | src/mt76/mt7921/mac.c:506-546 | blocked means full at every moment of a run, outside an unblocking, if and only if the run has no such consume |
| Tokens.InitExactIff | src/mt76/tx.c:852-861 | the empty table satisfies this if and only if it has more than 64 tokens |
| Tokens.BlockedIffFull | src/mt76/mt7921/mac.c:506-546 | so every undisturbed run of such a table ends with blocked meaning full |
| Tokens.DisturbedOpens | src/mt76/mt7921/mac.c:545-546 | after such a consume the finishing batch leaves TX open although it is full |
| Tokens.DisturbanceReachable | src/mt76/tx.c:859-860 | such a run exists for every table of more than 64 tokens |
| Tokens.TokenTable.TokenConsume | src/mt76/tx.c:844-866 | one consume: count, and block from the threshold on |
| Tokens.TokenTable.TokenRelease | src/mt76/tx.c:889-914 | one release: count only real tokens, ask to unblock below the threshold |
| Tokens.TokenTable.TxFree | src/mt76/mt7921/mac.c:506-546 | an uninterrupted batch takes its tokens out of use, opens TX exactly if it released any and the count is below the threshold, and keeps blocked equal to full |
| TxStatus.StepKeepsInv | src/mt76/tx.c:88-223 | every critical section keeps table, reports, list of entries and stages of cleanup exact, late registrations included |
| TxStatus.RunKeepsInv | src/mt76/tx.c:88-290 | so does every interleaving, with or without a grace period |
| TxStatusRuns.RunExact | src/mt76/tx.c:88-223 | in every run a frame is reported once when both flags are set and never otherwise; for an entry with a grace period a frame is in the table exactly while its report is missing, and the entry is listed exactly while its table is not empty |
| TxStatusRuns.ReportedIff | src/mt76/tx.c:88-290 | over every run a frame is handed to mac80211 once if the hardware has finished it and, when it was registered, its report arrived or was given up; otherwise never |
| TxStatusRuns.AllReported | src/mt76/tx.c:212-222 | with nothing listed, a frame whose DMA is done has been reported exactly once, or not at all if it is lost |
| TxStatus.ScanExact | src/mt76/tx.c:183-203 | a flush takes every entry, and any other scan exactly those whose DMA was done at least the timeout ago |
| TxStatusRuns.ScanFrame | src/mt76/tx.c:183-203 | and marks exactly their frames as failed and done, leaving the control blocks of all others alone |
| TxStatusRuns.FailedIffGivenUp | src/mt76/tx.c:170-223 | over every run a frame's status is in if and only if its report arrived or a scan or flush gave it up, never both, and it is marked failed if and only if it was given up |
| TxStatusRuns.StepStamps | src/mt76/tx.c:283-286 | the time a frame waits from is set by its DMA completion and by nothing else |
| TxStatusRuns.FailedHasWaited | src/mt76/tx.c:186-203 | in every run without a flush, a frame counts as failed only after a DMA completion and a scan at least the timeout later |
| TxStatusRuns.DestroyLoses | src/mt76/mac80211.c:1706-1717 | destroying a table loses exactly the frames it still holds, and leaves the entry listed exactly when there are any |
| TxStatusRuns.LostExact | src/mt76/mt792x_core.c:161-190 | in every run a frame is lost if and only if it was registered between flush and end of its table, the table is gone, and no report, scan or flush caught it before |
| TxStatusRuns.CanLose | src/mt76/mac80211.c:1675-1687 | some run loses a frame of an entry if and only if its cleanup does not wait for a grace period after the pointer was withdrawn |
| TxStatusRuns.LostForever | src/mt76/mac80211.c:1713-1717 | a lost frame stays lost and unreported, whatever happens |
| TxStatusEntries.EntryChanges | src/mt76/mac80211.c:1675-1739 | exactly when an entry is published, flushed and destroyed: flushed once its pointer is withdrawn and, where the cleanup waits for a grace period, no sender that saw it is still registering |
| TxStatusEntries.SenderChanges | src/mt76/tx.c:117-164 | a sender registers with an entry it has seen published, whatever happens to the pointer meanwhile |
| TxStatusDev.StatusTables.SkbDone | src/mt76/tx.c:88-111 | flags accumulate and the frame is reported once both are set |
| TxStatusDev.StatusTables.SkbAdd | src/mt76/tx.c:145-164 | registering enters the frame into the table and the station into the list |
| TxStatusDev.StatusTables.SkbGet | src/mt76/tx.c:170-209 | the entry of the id leaves the table, or the scan gives up on stale ones; an empty table is delisted |
| TxStatusDev.StatusTables.AddTxs | src/mt76/mt76_connac_mac.c:740-768 | a report completes its frame or triggers the scan |
| TxStatusDev.StatusTables.TxComplete | src/mt76/tx.c:283-286 | the DMA completion stamps the time and reports if the status is in |
| RxRing.HandleConserves | src/mt76/dma.c:1000-1046 | whatever happens to a received buffer, it ends in exactly one place |
| RxRing.ProcessConserves | src/mt76/dma.c:952-1049 | a whole processing loop loses and duplicates no buffer |
| RxRing.ProcessTakesInOrder | src/mt76/dma.c:969-981 | buffers leave the ring in posting order, at most the budget is counted, and the loop stops only for lack of descriptors or budget |
| RxFrames.TracedIsProcess | src/mt76/dma.c:952-1049 | the loop observed together with the hardware's packets is the loop of RxRing |
| RxFrames.CutIff | src/mt76/dma.c:1000-1046 | one buffer leaves the open frame with a foreign packet exactly when it is a dropped last fragment and a frame is open |
| RxFrames.DeliveryExact | src/mt76/dma.c:925-950 | the frame completed by a buffer mixes packets exactly if it was cut, and is all buffers of its packet exactly if all were kept |
| RxFrames.UnmixedIff | src/mt76/dma.c:952-1049 | over a whole loop no delivered frame mixes two packets if and only if no cut frame is completed |
| RxFrames.NeverCutsNeverGlues | src/mt76/dma.c:1000-1001 | in particular if no last fragment is dropped while a frame is open: other drops, too long buffers and failed skbs never mix packets |
| RxFrames.WholeIff | src/mt76/dma.c:952-1049 | every delivered frame is exactly all buffers of its packet, in order, if and only if none is completed after a buffer of its packet was not kept or on top of an earlier packet |
| RxFrames.FramesFit | src/mt76/dma.c:1003-1012 | in every run the first buffer of a frame fits the room of a head and each other one that of a fragment |
| RxFrames.CountsFrames | src/mt76/dma.c:1025-1034 | what counts against the budget is exactly the frames that were started |
| RxFrames.MixingReachable | src/mt76/dma.c:1000-1001 | from an empty ring, three buffers are enough to deliver a mixed frame |
| RxRing.RxQueue.RxFill | src/mt76/dma.c:743-782 | the ring is refilled in pool order until one slot is left or the pool is empty |
| RxRing.RxQueue.Dequeue | src/mt76/dma.c:547-601 | the oldest posted buffer leaves the ring |
| RxRing.RxQueue.HandleBuf | src/mt76/dma.c:1000-1046 | the body of the loop is the step whose conservation is proved |
| RxRing.RxQueue.RxProcess | src/mt76/dma.c:952-1049 | the processing loop ends and computes the proved function, then refills |
| RxRing.RxQueue.RxPoll | src/mt76/dma.c:1052-1075 | the poll loop ends, reports at most its budget, and accounts for every buffer |
| RxRing.RxQueue.RxCleanup | src/mt76/dma.c:855-888 | cleanup gives every buffer of the ring and of the open frame back |
| Power.RunKeepsInv | src/mt76/mt76_connac.h:368-412 | every interleaving of users, wake work, power-save work and reset keeps the ownership invariant |
| PowerRuns.ReferencesAreSafe | src/mt76/mt792x_core.c:810-924 | in every interleaving, while references are held the sleep bit is clear and the driver owns the chip if and only if the last hand-over to the firmware did not give up; a parked frame has a wake work on its way if and only if one is queued or the last one did not give up |
| PowerRuns.ParkedIsSent | src/mt76/mt792x_mac.c:314-345 | in every interleaving a parked frame is sent within a bounded number of steps of the two works, unless the wake handshake gives up or the chip is reset |
| PowerRuns.NotStuck | src/mt76/mt792x_core.c:810-850 | while a frame is parked and a wake work is on its way, one of the two works can take a step |
| PowerRuns.SleepsOnlyIdle | src/mt76/mt76_connac.h:399-413 | in every interleaving the sleep bit is set only by the power-save work, with no reference held and after it found no token in use |
| PowerRuns.IdleSleeps | src/mt76/mt76_connac.h:399-413 | and then it is set, while a token in use ends the attempt |
| PowerEvents.BitChanges | src/mt76/mt792x_core.c:878-924 | what exactly sets and clears the sleep bit |
| PowerEvents.OwnerIsConfirmed | src/mt76/mt792x_core.c:854-924 | in every interleaving driver or firmware owns the chip exactly as the latest poll confirmed it |
| PowerEvents.WakesBeforeSending | src/mt76/mt792x_mac.c:323-337 | the wake work goes on to send only once it has seen or made the sleep bit clear, in the latter case on a chip the driver owns |
| PowerEvents.UserSees | src/mt76/mt76_connac.h:368-397 | a user gets a reference exactly while the bit is clear, keeps it until it gives it back, and when refused owes a frame until it has parked it |
| PowerEvents.ParkedUntilSent | src/mt76/mt76_connac_mac.c:104-150 | a parked frame waits exactly until the wake work sends it or the reset frees it |
| PowerEvents.PendingUntilStarted | src/mt76/mt76_connac_mac.c:110-116 | the wake work is pending exactly from its queueing to its start |
| PowerEvents.RunsOnlyWhenQueued | src/mt76/mt792x_mac.c:314-345 | over every run the wake work runs at most once for each time it was queued |
| PowerEvents.WorksEnd | src/mt76/mt792x_core.c:810-924 | once started, both works can always go on, and every step brings their end nearer |
| PowerEvents.GivesUpOnTenth | src/mt76/mt792x_core.c:858-916 | each handshake polls until it is confirmed and gives up exactly on the tenth refusal in a row |
| PowerEvents.HandshakesBegin | src/mt76/mt76_connac.h:398-412 | each handshake begins with no try used: when waking if the bit is set, when sleeping if no reference is held and the bit is clear |
| PowerEvents.ResetRecovers | src/mt76/mt7921/pci_mac.c:56-66 | a reset leaves the chip with the driver, the bit clear, and nothing parked or pending |
| PowerRuns.FailureIsUnsafe | src/mt76/mt792x_core.c:912-916 | a run that grants a reference on a chip the driver does not own |
| PowerDev.Pm.Ref | src/mt76/mt76_connac.h:367-383 | a reference is granted exactly while the sleep bit is clear |
| PowerDev.Pm.Unref | src/mt76/mt76_connac.h:385-397 | the last reference schedules the power-save work |
| PowerDev.Pm.SkipFwPmctrl | src/mt76/mt76_connac.h:399-413 | the sleep bit is set exactly when nothing holds the chip awake |
| PowerDev.Pm.FwPmctrl | src/mt76/mt792x_core.c:832-924 | the retry loop is the power-save work of the protocol, and giving up clears the bit |
| StaRec.DecodeEncode | src/mt76/mt76_connac_mcu.c:248-327 | reading the message by its lengths gives back the records of both levels, for every message |
| StaRec.EncodeDecode | src/mt76/mt76_connac_mcu.c:248-327 | whatever the reader accepts is, byte for byte, the encoding of what it reads |
| StaRec.MessageBytes | src/mt76/mt76_connac_mcu.c:283-326 | the message byte by byte: counts and lengths with the low byte first, the WTBL record last |
| StaRec.RecordBytes | src/mt76/mt76_connac_mcu.c:252-258 | a record is its tag, then its length with the header, both low byte first, then its structure |
| StaCmd.OuterAdded | src/mt76/mt76_connac_mcu.c:260-264 | adding a record keeps the outer count right |
| StaCmd.NestedAdded | src/mt76/mt76_connac_mcu.c:260-269 | adding a nested record keeps its count and the enclosing record's length right, in place |
| StaCmd.WtblOpened | src/mt76/mt76_connac_mcu.c:301-326 | an empty WTBL record plus its header has the length of both |
| StaCmd.StaSkb.AddNestedTlv | src/mt76/mt76_connac_mcu.c:248-272 | appends the record, then raises the count and the enclosing record's length in place |
| StaCmd.StaSkb.AddTlv | src/mt76/mt76_connac_mcu.h:1913-1917 | the writer appends one outer record to the message |
| StaCmd.StaSkb.OpenWtbl | src/mt76/mt76_connac_mcu.c:1072-1079 | the WTBL record is opened at the end of the message |
| StaCmd.StaSkb.AddWtblTlv | src/mt76/mt76_connac_mcu.c:248-272 | the writer appends one nested record to the message |
| StaCmd.FitsBuffer | src/mt76/mt76_connac_mcu.h:769-800 | for every capability combination the message fits the allocated maximum |
| StaCmd.BuildStaCmd | src/mt76/mt76_connac_mcu.c:1042-1094 | the bytes built are the encoding of exactly the records the command calls for, decode to them, and fit |
| StaRecords.MessageFollows | src/mt76/mt76_connac_mcu.c:848-947 | a reader of the message finds at both levels exactly the records called for by command, chip and capabilities, each once, with the size of its structure, in order |
| Amsdu.RunIsPartition | src/mt76/mac80211.c:917-938 | the groups are the frames cut exactly at the boundaries between neighbours |
| Amsdu.GroupsAreFaithful | src/mt76/mac80211.c:917-938 | closed groups and the open one, flattened, are the input in order, and each is a singleton or one A-MSDU with its marks at the ends |
| Amsdu.RxAmsdu.ReleaseAmsdu | src/mt76/mac80211.c:881-915 | the list handed out is exactly the group; it is dropped only with several frames and a bad first one |
| Amsdu.RxAmsdu.ReleaseBurst | src/mt76/mac80211.c:917-938 | the linked lists closed by a frame are the groups of the grouping rule |
| Amsdu.RxAmsdu.Append | src/mt76/mac80211.c:927-934 | a frame is linked through the tail pointer, on the fragment list first and then on the last frame |

## Left out

- ReorderProperties.InOrderIffGoodSize: window sizes above 2048 are not classified, because the 12-bit comparison is only meaningful up to half the circle.
- Delivery after the lock of a reorder session is dropped: the order between two threads that released at the same time is not modelled.
- Allocation failure of a session, rate and duplicate flags of a received frame, and the lookup of the session.
- Worker.StopCanBeMissed: the thread's exit and the clearing of the task pointer are not modelled.
- Memory ordering weaker than sequential consistency, for the worker bits as elsewhere.
- HciReassembly.Reassembler.Recv: the set of connected handles is fixed for the life of the object, because it is read only when a header completes.
- HciReassembly.FeedReportsError: what follows a refused header in later buffers, since there the split decides how much is dropped.
- The intermediate state inside `btusb_suspend` after its critical section, the isochronous receive URBs, and `btusb_close`.
- Section sizes of 2^31 bytes or more, where the source's signed minimum would be negative.
- TxRing.TxQueue.Flush: assumes that nothing is queued between the loop and the index synchronisation, as the reset paths arrange.
- TxDma.StepKeepsInv: frames of five or more buffers are not modelled, because the hardware description limits frames to four.
- Offload (WED, RRO, NPU, EMI) variants of the rings, and high address bits.
- Tokens.AlwaysExactIff: chip reset, which empties the tokens without unblocking TX.
- TxStatus.RunKeepsInv: the 64-bit wrap of jiffies is not modelled; a grace period is a guard of the cleanup step, not an RCU implementation.
- RxRing.RxQueue.RxProcess: the hardware's writes to the descriptors are inputs of the loop, not steps of their own.
- PowerRuns.ReferencesAreSafe: a chip reset whose own handshake fails, the statistics, the suspend path of the bus driver, and register access by code that holds no reference.
- StaCmd.BuildStaCmd: the bodies of the records are arbitrary bytes of the right size; capability bit copying is not modelled.
- Amsdu.RxAmsdu.ReleaseAmsdu: where the first subframe's header lies is an input.
- The bitmap allocator for station indices, register programming, scanning, channel contexts, key handling and rate control.
