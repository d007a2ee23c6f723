# Verification of the connectivity drivers' byte and message paths

A Dafny model of four parts of the MediaTek connectivity driver collection, with proofs of what they are
for. `dafny verify dfyconfig.toml` checks everything.

**Firmware log pipeline** (`Words`, `Rings`, `EmiRings`, `LogPipeline`, `LogInterleaving`, `LogProgress`).
Firmware appends log bytes to a ring in shared memory whose indices are masked and which keeps one slot
empty. A worker moves them into a cache ring whose 32-bit counters run free, with two nested segment-walk
loops. Readers drain the cache without a lock. `LogPipeline` has the code, one call at a time, on real
arrays. `LogInterleaving` is a state machine of firmware, worker and reader that interleaves at every
shared access, one copied byte a step; `LogProgress` has what a party does when it runs on alone, and how
much a call copies.

**Bluetooth receive path** (`BtFraming`, `BtReceive`, `BtTheorems`, `BtErrors`, `BtFields`). The STP deframer feeds the
H:4 reassembler; both are resumable. `BtFraming` states them as automata that take one byte at a time,
`BtReceive` proves the chunk-wise code equal to their fold, and `BtTheorems` has independence from how the
stream is cut into calls, and the round trip with `mtk_add_stp`. `BtErrors` says which streams have an
error, and what one does; `BtFields` what has to be written where in a header. H:4 is section 2 of Vol 4, Part A of the Bluetooth Core Specification 5.2. The
packet table is a parameter: distinct types, `hlen > 0`, a length field inside the header, a buffer that
holds the header and is smaller than 64 KiB. `PatchDownload` cuts firmware patches into blocks in the
other direction.

**Message thread** (`OpQueues`, `MsgThread`, `MsgThreadTheorems`, `MsgThreadResults`, `MsgThreadStale`,
`MsgThreadTimely`, `MsgThreadValues`, `MsgThreadRuns`, `MsgThreadRecycled`, `MsgThreadMixed`,
`MsgThreadProgress`, `OpHistory`, `OpHistoryRace`). A fixed pool of ops moves between a free queue, any number of senders, an
active queue and one worker, with a two-party reference count and sender timeouts. Every store to an op
and every look at one is a step. `MsgThreadValues` says what comes back. `MsgThreadRuns`, `MsgThreadRecycled` and `MsgThreadMixed` build the runs
that go wrong, for pools of any size. `OpHistory` is the overwriting ring of recent ops and the snapshot
taken of it, `OpHistoryRace` what happens when saves and a print overlap.

**RDS** (`RdsProgramme`, `RdsSkips`, `RdsConvergence`, `RdsRadiotext`, `RdsRadiotextCode`,
`RdsRadiotextRounds`, `RdsRadiotextSent`, `RdsRadiotextUnmarked`, `RdsAlternative`). When received programme
names, radiotexts and frequency lists are trusted enough to be shown (IEC 62106, sections 3.1.5.1, 3.1.5.3
and 3.2.1.6). `RdsRadiotextSent` goes from the blocks a station sends to the text displayed, by way of whole
rounds of its segments (`RdsRadiotextRounds`). `RDS_CBC_DEPENDENCY` is taken as undefined.

Code that works in place is a class with the source's fields, or a method on arrays, proved equal to a
function; the laws are proved of the functions.

## Where the code falls short, and exactly when

* `connsys_log_read` reads RING_SIZE twice. If the worker commits in between, it copies more than `count`
  bytes. It stays within the caller's buffer in every interleaving if and only if that is as large as the
  cache: `ReadBound`.
* A sender of `msg_thread.c` that does not wait looks at the timeout in its op again after the op may have
  been recycled, finds that of a sender that waits, and drops that sender's reference. Ops are conserved
  along a run if and only if this does not happen (`ConservedExactly`); and in every run, for a pool of any
  size, if and only if sends of only one kind are made, or by only one sender (`ConservedForOneKind`).
  Otherwise an op can be free while its sender still waits for it: `FreedWhileWaitedFor`.
* A sender that waits can come back with another call's result. The worker drops its reference before it
  writes the result and raises the completion, so a sender that times out in between can recycle the op,
  and either may hit the next call, from line 228 or 229 on. `OwnResultsExactly`: where all sends wait, for
  a pool of any size and even a single sender, each gets its own result in every run if and only if none
  can time out. `OwnResults` and `StaleExactly` say for which single steps.
* The history print measures the size before it takes the lock, from two words that a save moves one after
  the other. `SnapshotWorth` says which sizes are right, `UndisturbedIsComplete` that they are if no save
  overlaps. Otherwise, for every ring and whether it is full or not, an entry can be missing
  (`IncompleteSnapshot`), and with a full ring the copying can go beyond the queue (`CopyBeyondQueue`).
* After an H:4 error the rest of the chunk is dropped, so how the stream is cut matters from there on, and
  only then: `CutsAgreeExactly`.
* The loop that clears radiotext bits behind an end mark stops before bit 15. A bit 15 left over from a
  longer text keeps a shorter one from being shown, however often its last segment comes:
  `EndMarkShowsUnlessBit15`, and `ShortTextStuck` for how it comes about.
* A radiotext of fewer than 16 segments without an end mark is to be shown once more than 80 repetitions have
  been counted. From then on each group but the last clears the bit after its own, and the next one takes
  the count back to 80. Sent in order, such a text is shown if and only if the number of its segments or the
  count before is odd: `RepeatedTextShownExactly`. One with an even number that comes in from cleared buffers
  on is never shown: `UnmarkedTextShownExactly`.
* `mtk_add_stp` does not look at the length; the deframer takes 2048 bytes at most: `OneFrameArrives`. The
  failing half needs a packet table with larger buffers than the driver's own, whose largest is
  HCI_MAX_FRAME_SIZE (btmtk_main.h:404, a kernel constant that is not part of this model): `SmallTablesFit`.
* A patch of exactly one full block is sent with PHASE1 only: `PhasesMark`.

## Model

| member | source | states |
|---|---|---|
| Words.MaskTestMeansPowerOfTwo | connectivity/common/debug_utility/ring.c:25-26 | the test `!max_size \|\| (max_size & (max_size - 1))` accepts exactly the powers of two |
| Words.MaskNeedsPowerOfTwo | connectivity/common/debug_utility/ring.c:101 | masking with max_size - 1 is the index modulo max_size for all indices if and only if max_size is a power of two |
| Words.AddKeepsSlot | connectivity/common/debug_utility/ring.c:127-136 | an index that wraps at 2^32 leads to the same slot as one that does not |
| Words.SlotDistinct | connectivity/common/debug_utility/ring.c:98-112 | indices less than a lap apart never share a slot |
| Words.LargestSize | connectivity/common/debug_utility/ring.c:25-26 | the mask test leaves 2^31 as the largest size a 32-bit max_size can have |
| Rings.NextSegment | connectivity/common/debug_utility/ring.c:98-112 | a prepared segment stays inside the ring, splits what remains, and is empty only if nothing is wanted |
| Rings.WalkTiles | connectivity/common/debug_utility/ring.h:55-83 | segment walk: at most two non-empty segments, in bounds, whose data_pos values tile the prepared amount without gap or overlap |
| Rings.ReadDrops | connectivity/common/debug_utility/ring.c:127-131 | advancing the read index drops from the front of what the ring holds, through any wrap |
| Rings.WindowWrite | connectivity/common/debug_utility/ring.c:133-137 | storing behind the used part appends and leaves the used part alone |
| Rings.Ring.constructor | connectivity/common/debug_utility/ring.c:20-35 | ring_init only warns; the ring is valid if and only if the mask test passes and the write index is at most max_size ahead |
| Rings.Ring.OverwritePrepare | connectivity/common/debug_utility/ring.c:83-96 | makes room by dropping just enough of the oldest entries and no others; for more than max_size the read index passes the write index |
| Rings.Ring.SegmentPrepare | connectivity/common/debug_utility/ring.c:98-112 | the code with its mask and 32-bit sums computes NextSegment |
| Rings.Ring.ReadCommit | connectivity/common/debug_utility/ring.c:127-131 | the contents lose exactly the committed bytes, at the front |
| Rings.Ring.WriteCommit | connectivity/common/debug_utility/ring.c:133-137 | the contents gain exactly the stored bytes, at the end |
| Rings.Ring.ReadFirst | connectivity/common/debug_utility/ring.h:55-60 | a read loop starts at the read slot with min(sz, size) bytes to go |
| Rings.Ring.ReadNext | connectivity/common/debug_utility/ring.h:55-60 | a pass of a read loop drops its segment and prepares the next one behind it |
| Rings.Ring.WriteFirst | connectivity/common/debug_utility/ring.h:71-76 | a write loop starts at the write slot with min(sz, free) bytes to go |
| Rings.Ring.WriteNext | connectivity/common/debug_utility/ring.h:71-76 | a pass of a write loop appends its segment and prepares the next one behind it |
| EmiRings.EmiReadDrops | connectivity/common/debug_utility/ring_emi.c:127-132 | the masked read index stays in [0, max_size), and advancing it drops from the front |
| EmiRings.EmiRing.ReadPrepare | connectivity/common/debug_utility/ring_emi.c:55-79 | the amount is min(sz, (write - read) mod max_size) |
| EmiRings.EmiWalkTiles | connectivity/common/debug_utility/ring_emi.h:61-67 | the same for the loop over the masked ring: at most two non-empty segments, in bounds, tiling the amount |
| EmiRings.EmiRing.SegmentPrepare | connectivity/common/debug_utility/ring_emi.c:108-125 | the code computes a segment that stays inside the ring although the index is not masked here, and may even equal max_size |
| EmiRings.EmiRing.ReadCommit | connectivity/common/debug_utility/ring_emi.c:127-132 | keeps the index masked and drops the committed bytes from the front |
| LogPipeline.ConnlogBuffer.constructor | connectivity/common/debug_utility/connsys_debug_utility.c:215-240 | any sizes are taken; both rings start empty, and are valid exactly if the sizes pass the mask test |
| LogPipeline.ConnlogBuffer.WriteSegment | connectivity/common/debug_utility/connsys_debug_utility.c:304-317 | the inner loop appends one stretch of the firmware ring to the cache, as far as there is room |
| LogPipeline.ConnlogBuffer.RingEmiToCache | connectivity/common/debug_utility/connsys_debug_utility.c:251-322 | one run of the worker moves exactly min(EMI used, cache free) bytes, oldest first, or raises the assert and moves nothing; an index word equal to the size passes the bounds check, and is covered |
| LogPipeline.ConnlogBuffer.ConnsysLogRead | connectivity/common/debug_utility/connsys_debug_utility.c:1175-1205 | where nothing intervenes, a read hands out the oldest min(count, cached) bytes in order, drops exactly those, and leaves the rest of the buffer; for what can intervene see ReadBound |
| LogInterleaving.StepKeepsInv | connectivity/common/debug_utility/connsys_debug_utility.c:251-322 | every step of firmware, worker and reader, down to single bytes copied, keeps the pipeline invariant |
| LogInterleaving.InvConserves | connectivity/common/debug_utility/connsys_debug_utility.c:251-322 | the invariant means that nothing has been lost, duplicated or reordered |
| LogInterleaving.Conservation | connectivity/common/debug_utility/connsys_debug_utility.c:251-322 | in every state of every interleaving, delivered ++ cache ++ rest of the firmware ring is what the firmware has published |
| LogInterleaving.WriterNeverOverwrites | connectivity/common/debug_utility/connsys_debug_utility.c:304-317 | whatever the reader commits after the worker's prepare, the next byte stored lands outside the unread part |
| LogInterleaving.ReaderNeverRunsAhead | connectivity/common/debug_utility/connsys_debug_utility.c:1247-1256 | whatever the worker commits after the reader's prepare, the next byte copied out is the next byte published |
| LogInterleaving.StaleSnapshotsAreSafe | connectivity/common/debug_utility/connsys_debug_utility.c:1198-1202 | both, in every state of every interleaving; a reader call has copied out exactly the bytes that follow those delivered before |
| LogProgress.WorkerMoves | connectivity/common/debug_utility/connsys_debug_utility.c:251-322 | the state machine refines to the code: the worker, left alone, comes to the end of its run, with the effect of RingEmiToCache |
| LogProgress.ReaderHandsOut | connectivity/common/debug_utility/connsys_debug_utility.c:1240-1256 | the reader, left alone, comes to the end of its call, with the effect of ConnsysLogRead |
| LogProgress.LargeBuffersHold | connectivity/common/debug_utility/connsys_debug_utility.c:1191-1201 | a buffer at least as large as the cache is never overrun, in any interleaving |
| LogProgress.SmallBuffersOverrun | connectivity/common/debug_utility/connsys_debug_utility.c:1191-1201 | for every smaller count there is a run, with calls for that count only, in which a call copies more than count bytes |
| LogProgress.ReadBound | connectivity/common/debug_utility/connsys_debug_utility.c:1191-1201 | no call copies more than count bytes in any interleaving if and only if count is at least the size of the cache |
| BtFraming.H4Bulk | connectivity/bt/mt66xx/btmtk_main.c:725-730 | copying up to what a packet still expects is the same as taking the bytes one by one |
| BtFraming.FoldOk | connectivity/bt/mt66xx/btmtk_main.c:672-826 | at any byte a partial packet has len < expect, and expects what its header announced; stp_dlen is at most 2048, and above 0 only with cursor 6 |
| BtFraming.FoldStopped | connectivity/bt/mt66xx/btmtk_main.c:979-984 | after an error the rest of the chunk has no effect once the payload run is over |
| BtReceive.BtDevice.Complete | connectivity/bt/mt66xx/btmtk_main.c:736-824 | the code after each copy computes Grown: length field, tailroom check, delivery or error; what Grown makes of a header is stated by AnnouncedArrives, TooLong and UnsupportedLength |
| BtReceive.BtDevice.H4Pass | connectivity/bt/mt66xx/btmtk_main.c:672-826 | one pass consumes at least one byte and amounts to the bytes it consumed |
| BtReceive.BtDevice.H4RecvBuf | connectivity/bt/mt66xx/btmtk_main.c:645-829 | the chunk-wise loop computes the byte-wise fold, errors included |
| BtReceive.BtDevice.FillPad | connectivity/bt/mt66xx/btmtk_main.c:881-889 | the pad takes min(count, 6 - cursor) bytes at the cursor |
| BtReceive.BtDevice.StpSplit | connectivity/bt/mt66xx/btmtk_main.c:868-919 | skipping framing is the fold of the bytes skipped; the payload run is min(count, stp_dlen), and something is always consumed; what the fold makes of a header is stated by HeaderMeans |
| BtReceive.BtDevice.RecvPass | connectivity/bt/mt66xx/btmtk_main.c:944-993 | each pass of the outer loop consumes at least one byte, also on resync and on empty frames |
| BtReceive.BtDevice.BtmtkRecv | connectivity/bt/mt66xx/btmtk_main.c:922-996 | one call has the effect of its bytes one by one, and returns 0, -84 or -90 for the first error |
| BtTheorems.RecvAllIsFold | connectivity/bt/mt66xx/btmtk_main.c:922-996 | a sequence of calls reports no error if and only if the joined stream has none, and then leaves the same state as the stream |
| BtTheorems.ChunkIndependence | connectivity/bt/mt66xx/btmtk_main.c:922-996 | two cuts of one stream agree on whether an error is reported; if not, on packets, order and final state |
| BtTheorems.DeliveredBeforeError | connectivity/bt/mt66xx/btmtk_main.c:979-984 | also with errors every cut delivers at least what comes before the first one |
| BtErrors.FoldIsDeframe | connectivity/bt/mt66xx/btmtk_main.c:979-984 | an error depends on the payload bytes alone, not on how they are framed |
| BtErrors.TakenMeans | connectivity/bt/mt66xx/btmtk_main.c:645-829 | the reassembler takes bytes without an error if and only if they continue its partial packet to well-formed packets and perhaps the beginning of one more |
| BtErrors.ErrorFreeMeans | connectivity/bt/mt66xx/btmtk_main.c:922-996 | a sequence of calls reports no error if and only if the payload in it is that |
| BtErrors.ErrorsDependOnTheCut | connectivity/bt/mt66xx/btmtk_main.c:979-984 | for every table, state and stream with an error there is a continuation that a call of its own takes without an error and that is lost in the same call |
| BtErrors.CutsAgreeExactly | connectivity/bt/mt66xx/btmtk_main.c:922-996 | a stream has no error if and only if, whatever follows it without an error of its own, all cuts deliver the same packets |
| BtTheorems.H4Conserves | connectivity/bt/mt66xx/btmtk_main.c:645-829 | without an error, delivered packets and partial packet are exactly the bytes fed in |
| BtTheorems.ReceiveInvariant | connectivity/bt/mt66xx/btmtk_main.c:645-829 | on every run of calls only packets of a known type with the announced length are delivered, and the state between calls is sane |
| BtTheorems.H4RoundTrip | connectivity/bt/mt66xx/btmtk_main.c:645-829 | serialised packets back to back are reassembled into exactly those packets |
| BtTheorems.FoldFrame | connectivity/bt/mt66xx/btmtk_main.c:839-919 | deframing an mtk_add_stp frame of at most 2048 payload bytes feeds exactly the payload, whatever the trailer |
| BtTheorems.RoundTrip | connectivity/bt/mt66xx/btmtk_main.c:839-996 | any packets, split over STP frames in any way and cut into calls in any way, arrive exactly, and stp_cursor is 2 and stp_dlen 0 again |
| BtTheorems.LongFrameFails | connectivity/bt/mt66xx/btmtk_main.c:839-919 | a longer frame never gets all its payload through |
| BtTheorems.OneFrameArrives | connectivity/bt/mt66xx/btmtk_main.c:839-919 | a packet sent in one frame arrives if and only if the frame's payload is at most 2048 bytes |
| BtTheorems.SmallTablesFit | connectivity/bt/mt66xx/btmtk_main.c:839-919 | where no buffer holds more than 2047 bytes every packet fits one frame |
| BtFields.AnnouncedArrives | connectivity/bt/mt66xx/btmtk_main.c:736-824 | for every entry of the table: a payload whose length is written into the header as one byte, or as two with the least significant first and, for isochronous data, any two bits on top, arrives as exactly that packet, if the length fits the field and the buffer |
| BtFields.PacketMeans | connectivity/bt/mt66xx/btmtk_main.c:736-824 | the well-formed packets are exactly those with their own length written into their header in that way |
| BtFields.TooLong | connectivity/bt/mt66xx/btmtk_main.c:752-797 | a header that announces more than the buffer has room for is EMSGSIZE |
| BtFields.UnsupportedLength | connectivity/bt/mt66xx/btmtk_main.c:798-809 | an entry whose length field has another size is EILSEQ |
| BtFields.UnknownType | connectivity/bt/mt66xx/btmtk_main.c:678-704 | a byte that is the type of no entry is EILSEQ |
| BtFields.HeaderMeans | connectivity/bt/mt66xx/btmtk_main.c:890-907 | between frames four bytes start a payload run of (256 hi + lo) mod 0x1000 bytes if and only if the first is 0x80 and that is at most 2048; otherwise they are dropped and nothing else changes |
| BtFields.RoundTripThroughNoise | connectivity/bt/mt66xx/btmtk_main.c:839-996 | packets over frames with any number of such bad quadruples before and between them, cut in any way, arrive exactly |
| OpQueues.PutAppends | connectivity/conninfra/base/msg_thread.c:80-89 | MSG_OP_PUT appends unless the queue is full; then -4 comes back and nothing changes |
| OpQueues.GetTakesFront | connectivity/conninfra/base/msg_thread.c:91-104 | MSG_OP_GET takes the front; the indices start over at 0 when the queue runs empty |
| OpQueues.OpQueue.PutOp | connectivity/conninfra/base/msg_thread.c:131-159 | the array code computes Put |
| OpQueues.OpQueue.GetOp | connectivity/conninfra/base/msg_thread.c:165-186 | the array code computes Get |
| OpQueues.InitQueues | connectivity/conninfra/base/msg_thread.c:576-583 | after init every op is in the free queue, in order, and the active queue is empty |
| MsgThread.StepKeepsInv | connectivity/conninfra/base/msg_thread.c:192-289 | every step of any sender and the worker, each store and each look at an op being one, keeps the invariant on places, reference counts, tickets and order, unless a sender drops a reference it does not hold |
| MsgThread.PutFreeFree | connectivity/conninfra/base/msg_thread.c:131-159 | an op that is not in the free queue fits into it |
| MsgThread.PublishActive | connectivity/conninfra/base/msg_thread.c:240-248 | an op a sender holds alone fits into the active queue |
| MsgThread.WriteKeepsInv | connectivity/conninfra/base/msg_thread.c:534-537 | the late write of the result disturbs neither places nor reference counts, even after the op was recycled |
| MsgThread.RaiseKeepsInv | connectivity/conninfra/base/msg_thread.c:534-537 | nor does the late raising of the completion |
| MsgThread.StrangerDropKeepsInv | connectivity/conninfra/base/msg_thread.c:282-286 | nor does a drop of a reference that is not held, as long as the count is not in use |
| MsgThreadTheorems.InvPlaces | connectivity/conninfra/base/msg_thread.c:192-289 | the invariant means that an op is in exactly one place, with at most one sender, and its ref_count right |
| MsgThreadTheorems.InvFits | connectivity/conninfra/base/msg_thread.c:131-159 | the invariant means that whatever is put on a queue fits |
| MsgThreadTheorems.OpConservation | connectivity/conninfra/base/msg_thread.c:192-289 | in every state of every interleaving without a stale drop each op is in exactly one place, and its ref_count is the number of parties it is published to |
| MsgThreadTheorems.StaleDropBreaks | connectivity/conninfra/base/msg_thread.c:282-286 | a stale drop breaks that at once |
| MsgThreadTheorems.ConservedExactly | connectivity/conninfra/base/msg_thread.c:192-289 | so along a run ops are conserved if and only if no drop in it is stale |
| MsgThreadTheorems.OneKindOfSend | connectivity/conninfra/base/msg_thread.c:253-286 | no drop is stale where all sends wait, or none does |
| MsgThreadMixed.StaleDropReachable | connectivity/conninfra/base/msg_thread.c:253-286 | for every size of the pool and at least two senders, one that does not wait can drop a reference of one that does |
| MsgThreadMixed.FreedWhileWaitedFor | connectivity/conninfra/base/msg_thread.c:531-537 | for every size of the pool and at least two senders an op can be in the free queue while its sender still waits; its call has been handled, and the worker sleeps without having signalled it |
| MsgThreadMixed.ConservedForOneKind | connectivity/conninfra/base/msg_thread.c:192-289 | for every size of the pool and any number of senders: ops are conserved in every interleaving if and only if sends of only one kind are made, or by only one sender |
| MsgThreadTheorems.PoolStays | connectivity/conninfra/base/msg_thread.c:78-91 | the pool neither grows nor shrinks |
| MsgThreadTheorems.QueuesNeverFull | connectivity/conninfra/base/msg_thread.c:242-248 | without a stale drop there is room whenever an op is put on a queue: the failure paths are dead after init |
| MsgThreadTheorems.FreedExactlyOnce | connectivity/conninfra/base/msg_thread.c:282-286 | without a stale drop each send that got an op gives it back exactly once |
| MsgThreadTheorems.HandledInOrder | connectivity/conninfra/base/msg_thread.c:515-525 | without a stale drop ops are handled in the order they were enqueued, each at most once, and the handler gets what the sender asked for |
| MsgThreadResults.HandleResult | connectivity/conninfra/base/msg_thread.c:524-529 | handling an op records a value under its own ticket and no other; which value is stated by CallsRecorded |
| MsgThreadResults.OwnResults | connectivity/conninfra/base/msg_thread.c:226-279 | as long as no drop is stale and no recycled op is written or signalled, a woken sender that waits returns its own handler's value, and one that timed out that value or -9 |
| MsgThreadResults.OwnResultsWhenAtomic | connectivity/conninfra/base/msg_thread.c:531-537 | no recycled op is written or signalled in a run in which the worker's drop, test, write and signal are one step |
| MsgThreadTimely.TimelyRun | connectivity/conninfra/base/msg_thread.c:531-537 | nor in a run without a stale drop in which no send times out |
| MsgThreadTimely.OwnResultsWithoutTimeouts | connectivity/conninfra/base/msg_thread.c:260-279 | so where all sends wait and none times out, each comes back woken with exactly what its own handler returned |
| MsgThreadRecycled.OwnResultsExactly | connectivity/conninfra/base/msg_thread.c:260-279 | for every size of the pool and any senders that all wait: each comes back with its own value in every interleaving if and only if none can time out |
| MsgThreadProgress.CallCompletes | connectivity/conninfra/base/msg_thread.c:214-289 | a call that waits, however many are in line before it and whatever their functions return, is completed once its sender and the worker run on undisturbed: the sender is woken, returns what the function of its own operation returned, or -4 or -3 if there is none, and the op is free |
| MsgThreadValues.CallsRecorded | connectivity/conninfra/base/msg_thread.c:465-487 | in every run without a stale drop: the t-th ticket asks for what the t-th sender to get an op asked for; the j-th call is for the request of the j-th ticket handled, and on record for it is what the function called returned, or -4 for an empty slot and -3 for an operation out of range |
| MsgThreadValues.WaitersGetTheirValues | connectivity/conninfra/base/msg_thread.c:260-279 | so where no send times out, each sender that waits comes back with what the call made for its own request returned, or that code |
| MsgThreadValues.HastySendersGetZero | connectivity/conninfra/base/msg_thread.c:253-259 | where no send waits, every sender comes back with 0 |
| MsgThreadStale.StaleExactly | connectivity/conninfra/base/msg_thread.c:535-536 | the condition is exact: the write, or the raising of the completion, is stale if and only if what the senders alone can do next makes one come back with a value its own handler did not return |
| MsgThreadRecycled.StaleWriteReachable | connectivity/conninfra/base/msg_thread.c:531-537 | for every size of the pool, with one sender that always waits, the worker can come to write into an op between its next sender's stores of lines 228 and 229 |
| MsgThreadRecycled.StaleRaiseReachable | connectivity/conninfra/base/msg_thread.c:531-537 | and in another run to raise the completion that line 229 has just initialised |
| MsgThreadRecycled.ForeignValueReturned | connectivity/conninfra/base/msg_thread.c:531-537 | either leads to a sender that comes back with a foreign value |
| OpHistory.SaveHolds | connectivity/conninfra/base/msg_thread.c:411-434 | one more save keeps the last min(n, size) entries, oldest first, and read at 0 until the ring is full |
| OpHistory.History.Claim | connectivity/conninfra/base/msg_thread.c:411-415 | the overwrite loop runs once, and claims the slot of the old write index |
| OpHistory.History.Save | connectivity/conninfra/base/msg_thread.c:397-435 | after a save the ring holds the last entries, the new one included |
| OpHistory.SnapshotHolds | connectivity/conninfra/base/osal.c:1337-1361 | whatever size was measured, a copy of that many entries from slot 0 captures all entries in use if and only if the size is at least their number; then the walk lists the last saves oldest first, and otherwise it runs off the copy |
| OpHistoryRace.StepKeepsInv | connectivity/conninfra/base/msg_thread.c:411-434 | every step of a save, which moves the two indices one after the other, and of a print, which reads them without the lock, keeps the ring invariant |
| OpHistoryRace.SnapshotWorth | connectivity/conninfra/base/osal.c:1337-1361 | in every state: which sizes give a complete snapshot, and which make the copying itself run off the queue |
| OpHistoryRace.UndisturbedIsComplete | connectivity/conninfra/base/osal.c:1337-1361 | if no save overlaps the print between the reading of the size and the lock, the snapshot is complete |
| OpHistoryRace.IncompleteSnapshot | connectivity/conninfra/base/osal.c:1337-1361 | for every ring size and after any number of saves, full ring or not, a print that overlaps one save can take an incomplete snapshot |
| OpHistoryRace.CopyBeyondQueue | connectivity/conninfra/base/osal.c:1337-1361 | once the ring is full the size can come out one too large, and the copying reads behind the queue |
| OpHistory.History.Snapshot | connectivity/conninfra/base/osal.c:1348-1361 | the code under the lock takes that snapshot, for any measured size, or none while an earlier one is being printed |
| OpHistory.History.PrintWork | connectivity/conninfra/base/osal.c:1267-1300 | the printer walks the snapshot item by item and in order, complete or not |
| OpHistory.Print | connectivity/conninfra/base/osal.c:1323-1363 | with no save in between, exactly the last min(n, size) saves are printed, oldest first |
| RdsProgramme.Programme.PsCmp | connectivity/fmradio/core/fm_rds_parser.c:569-689 | the comparing code with its clearing loops computes Cmp; what that does at each address is stated by TakenMeans |
| RdsProgramme.Programme.Decision | connectivity/fmradio/core/fm_rds_parser.c:1346-1401 | the deciding code computes Decide, and says whether the event is set |
| RdsProgramme.Programme.RetrievePs | connectivity/fmradio/core/fm_rds_parser.c:1291-1413 | a group with a bad block D changes nothing; otherwise the whole step is Receive |
| RdsProgramme.CmpInv | connectivity/fmradio/core/fm_rds_parser.c:569-689 | one reception keeps, for every address, what the buffers and bits say about what was received there |
| RdsProgramme.ShownWasRepeated | connectivity/fmradio/core/fm_rds_parser.c:1291-1413 | on every run each non-zero segment shown was received at its address with exactly that value in two receptions in a row |
| RdsProgramme.EventConfirmed | connectivity/fmradio/core/fm_rds_parser.c:1346-1385 | one group: the event is set exactly when the name shown changes, with all bits set and a name that is not blank |
| RdsProgramme.EventMeansConfirmed | connectivity/fmradio/core/fm_rds_parser.c:1346-1385 | the event means four bits set and a changed name whose non-zero segments are each what the last two receptions at their address brought; without it the name stays |
| RdsSkips.TakenMeans | connectivity/fmradio/core/fm_rds_parser.c:605-659 | what one segment changes, address by address: the same segment again confirms it; another one blanks the addresses skipped since the last group, and takes back the confirmation of its own and the higher ones if it replaces one |
| RdsSkips.DecisionMeans | connectivity/fmradio/core/fm_rds_parser.c:1346-1392 | the event is set if and only if all addresses are confirmed and the name is neither the one shown nor blank; what is cleared otherwise |
| RdsSkips.ShownWereNotSkipped | connectivity/fmradio/core/fm_rds_parser.c:617-640 | in every run, at the event no address with a non-zero segment has been skipped since the first of the two receptions that confirmed it |
| RdsConvergence.NameGetsShown | connectivity/fmradio/core/fm_rds_parser.c:1291-1413 | from any state, a name that came in four times is shown, and stays shown for as long as it keeps coming in |
| RdsConvergence.RepeatRound | connectivity/fmradio/core/fm_rds_parser.c:1346-1392 | a second round of a name either shows it or ends with the buffers cleared |
| RdsRadiotext.GetPosMeans | connectivity/fmradio/core/fm_rds_parser.c:715-735 | rds_bm_get_pos returns pos if and only if exactly the bits up to pos are set |
| RdsRadiotext.CompareInv | connectivity/fmradio/core/fm_rds_parser.c:821-986 | one group keeps, for every address, that twice holds the last reception there, and that a set bit means it matched what was there |
| RdsRadiotext.TextMeansConfirmed | connectivity/fmradio/core/fm_rds_parser.c:1486-1657 | the event with length L means: text changed and not blank, L the width times a gap-free prefix up to the group's address, each segment of it confirmed and shown; without it text and length stay |
| RdsRadiotext.FinishConfirmed | connectivity/fmradio/core/fm_rds_parser.c:1583-1633 | what a decision publishes is gap-free, confirmed at every address up to the group's own, and not blank; anything else leaves the text shown |
| RdsRadiotext.EndFinished | connectivity/fmradio/core/fm_rds_parser.c:1583-1606 | a confirmed end mark shows the text if no bit above is set, and otherwise clears the bits above up to 14 |
| RdsRadiotext.EndMarkShowsUnlessBit15 | connectivity/fmradio/core/fm_rds_parser.c:1603-1606 | the loop that clears stops before bit 15: a confirmed text with its end mark is shown within two receptions if and only if bit 15 is clear (or the end is at address 14 or 15), and otherwise never, however often its last segment is repeated |
| RdsRadiotext.ShortTextStuck | connectivity/fmradio/core/fm_rds_parser.c:1603-1606 | such a bit 15 occurs: from a reset on, segment 15 twice and then segment 0 with an end mark lead to it, and the text is never shown |
| RdsRadiotext.RepeatsShow | connectivity/fmradio/core/fm_rds_parser.c:1585-1587 | a gap-free text without end mark is shown once more than 80 repetitions have been counted, and not before; one of 16 segments at once |
| RdsRadiotextCode.Radiotext.TxtAbGet | connectivity/fmradio/core/fm_rds_parser.c:789-819 | the A/B flag changes on the second group in a row that says so |
| RdsRadiotextCode.Radiotext.RtCmp | connectivity/fmradio/core/fm_rds_parser.c:904-986 | the comparing loop copies the segment and says whether it was there already |
| RdsRadiotextCode.Radiotext.BmGetPos | connectivity/fmradio/core/fm_rds_parser.c:715-735 | the two loops compute GetPos |
| RdsRadiotextCode.Radiotext.Decision | connectivity/fmradio/core/fm_rds_parser.c:1583-1612 | the deciding code computes Decide |
| RdsRadiotextCode.Radiotext.GetLen | connectivity/fmradio/core/fm_rds_parser.c:1613-1633 | the publishing code computes Show |
| RdsRadiotextCode.Radiotext.RetrieveG2 | connectivity/fmradio/core/fm_rds_parser.c:1486-1657 | the whole step is Receive, for both group types; what it makes of the blocks is stated by CarriedGroup and TextIsShown |
| RdsRadiotextSent.CarriedGroup | connectivity/fmradio/core/fm_rds_parser.c:821-875 | a group whose blocks carry segment k of a text, high byte first, with the address and the A/B flag in block B and the check flags of the blocks that count, is taken for exactly that segment |
| RdsRadiotextSent.BadGroupStoresNothing | connectivity/fmradio/core/fm_rds_parser.c:843-873 | where such a check flag is missing, no character is stored: the buffers stay as they are, or are blank |
| RdsRadiotextSent.TextIsShown | connectivity/fmradio/core/fm_rds_parser.c:1486-1657 | a text of m segments, with its end mark in the last one or m = 16, sent twice in order is what is displayed, character by character, whatever the buffers held, and it is announced once with its length if it is new |
| RdsRadiotextSent.TextsAreShownInTurn | connectivity/fmradio/core/fm_rds_parser.c:1613-1637 | any number of such texts, each sent twice, are displayed one after the other |
| RdsRadiotextSent.NewTextIsShown | connectivity/fmradio/core/fm_rds_parser.c:789-819 | from any state at all, such a text sent three times with the other A/B flag is displayed |
| RdsRadiotextUnmarked.RepeatedTextShownExactly | connectivity/fmradio/core/fm_rds_parser.c:1583-1601 | a text of m < 16 segments without an end mark, all of it confirmed and sent in order again and again, is displayed if and only if m or the count of repetitions before is odd |
| RdsRadiotextUnmarked.UnmarkedTextShownExactly | connectivity/fmradio/core/fm_rds_parser.c:1583-1601 | so, from cleared buffers on, if and only if m is odd |
| RdsAlternative.ExchangeStep | connectivity/fmradio/core/fm_rds_parser.c:1166-1187 | one comparison of the exchange sort keeps the sorted part, the minimum so far and the multiset |
| RdsAlternative.Arrange | connectivity/fmradio/core/fm_rds_parser.c:1164-1188 | the in-place sort leaves the pairs in lexicographic order and a permutation of what they were, for any number of pairs, and touches nothing else |
| RdsAlternative.AlternativeFrequencies.Collect | connectivity/fmradio/core/fm_rds_parser.c:1126-1149 | the loop computes Collected; what that does is stated by CollectedMeans |
| RdsAlternative.CollectedMeans | connectivity/fmradio/core/fm_rds_parser.c:1126-1149 | a pair of codes h and l goes as 8750 + 10 h and 8750 + 10 l into the first free slot, unless an earlier slot holds it or there is none |
| RdsAlternative.EachIsListedOnce | connectivity/fmradio/core/fm_rds_parser.c:1126-1149 | whatever pairs come in and however often, the buffer lists the frequencies of the different ones in the order they first came, as long as there is room |
| RdsAlternative.AlternativeFrequencies.CompareBuffers | connectivity/fmradio/core/fm_rds_parser.c:1191-1202 | the count reaches num if and only if the first num entries agree and are non-zero; afterwards they agree |
| RdsAlternative.AlternativeFrequencies.Multiple | connectivity/fmradio/core/fm_rds_parser.c:1118-1222 | RDS_EVENT_AF_LIST is raised if and only if the first num entries of both buffers agree and are non-zero, and then the pairs are sorted and are those collected |
| PatchDownload.BlocksCover | connectivity/bt/mt66xx/btmtk_main.c:1384-1426 | the payloads concatenate to the patch; all but the last are full |
| PatchDownload.PhasesMark | connectivity/bt/mt66xx/btmtk_main.c:1389-1403 | PHASE3 marks the last block, and only it, if and only if the length is not exactly one full unit; PHASE1 marks only the first of several, or that one block |
| PatchDownload.ImageAnnounces | connectivity/bt/mt66xx/btmtk_main.c:1406-1420 | the first ten bytes of a block, as numbers: packet type, opcode 0xFC6F, WMT bytes, phase, and two lengths that announce what follows them |
| PatchDownload.LoadFwPatch | connectivity/bt/mt66xx/btmtk_main.c:1366-1442 | the loop sends exactly those blocks, or those up to the first that fails, whose error it returns |

## Left out

- Device plumbing: character devices, ioctl dispatch, probing, power states, timers, wake locks, firmware file loading.
- The log mode is LOG_TO_FILE throughout, with one worker and one reader per log type; the type index checks are not modelled.
- Memory is sequentially consistent, and an index word is read or written in one access; rings are at most 2^31 bytes.
- `connsys_log_read_to_user` has no method of its own: it is `connsys_log_read` but for a failing copy, which is a step of `LogInterleaving`.
- `ring_emi_write_prepare` and the branches without ROUND_REPEAT: nothing calls the one, the header rules out the others. The firmware is a step that obeys RING_EMI_FULL.
- Socket buffers are values here: aliasing, failing allocation and the sleep and snoop side effects of the receive path are not modelled.
- The engineering-build test for an op that is already queued, the `cur_op` printout on a timeout, thread creation, and stopping the thread with ops still queued.
- Taking an op off the free queue, clearing it and filling in its request is one step: whatever another thread does to the op in between is cleared, or as if it had come before. The timeout is stored in a step of its own.
- Extending a wait that ran out (`timeoutExtension`): a sender may time out at any time.
- What a sender that does not wait comes back with where others do: 0, unless it finds a timeout when it looks; then it waits for a completion that is not its own, and can take it away from the sender it is meant for. How long a wait lasts is not modelled either.
- Save: the entry's fields are one value, time stamps included; entries are stored at their index, not as raw memory.
- Bitmaps are sequences of booleans, one per bit that the code ever sets.
- RetrieveG2: one group type for a whole run; a change of type in mid-text mixes segments of two widths.
- The single-frequency path of `rds_retrieve_g0_af` (lines 1077-1117), which sets the fields the modelled path starts from, and the flags of group 0.
- `rds_retrieve_g14` (its sort swaps 16-bit entries through 8-bit temporaries), `rds_retrieve_g4`, the RDS log, `fm_event_parser`.
- HCI snoop logs, the packet handlers behind `recv`, and the other FM, BT and configuration code.
- LoadFwPatch: the command transport is a sequence of return values; delays and retries are not modelled.
