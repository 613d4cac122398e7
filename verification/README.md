# A verified model of the userspace TCP engine

This project models the core of `dpdk-net-core`, a userspace TCP engine in which one core owns
everything: packet buffers are reference-counted and shared between queues, connections sit in a
slot table under handles that are reused without a generation, timers sit on a hashed wheel under
slot-and-generation ids, and received bytes reach the application as scatter-gather windows into the
packet buffers themselves. The code works by changing state step by step, so most of the model does
too: classes whose methods are proved against the books they keep. Pure code (sequence arithmetic,
the round-trip estimator, loss detection, the header decode, the clock) is modelled by functions and
lemmas.

`dafny verify dfyconfig.toml` checks the whole project.

## What is proved

* **Buffer ownership (`Mempool`, `Reorder`, `Events`, `RxPath`, `RxEngine`, `TxPath`, `FaultInjector`, `Senders`,
  `Replies`, `Poll`).**
  `MbufPool.Balanced(held)` says that every buffer's counter is its number of holders and that the
  free list is exactly the buffers nobody holds. Every step of the receive path and the fault injector, and every step
  of the send path but one, takes a balanced pool to a balanced pool, for any multiset `others` of references held
  elsewhere. So no buffer sits at counter zero outside the pool, and none in the pool is still held. The one exception
  is the removal of a connection with data in flight: see below.
  The receive side, the data buffers of the send side and its header buffers have a pool each
  (`engine.rs:748-767`), so a step of one side leaves the other's invariants alone. `Poll` puts the parts
  together: one poll over a flow table of any size, with each frame acting on both sides of its connection
  (`Poll.PollOnce`), a send between two polls (`Poll.SendBetween`) and the shutdown (`Poll.Teardown`).
* **Lifetime of iovecs.** Whatever the application can reach through a queued event, or an event drained
  since the last poll, is still in its buffer with the bytes it was announced with, and that buffer is
  referenced and outside the free list (`RxEngine.Engine.IovecsAlive`).
* **The byte stream.** The reorder queue is read as a partial map from stream positions to buffer bytes.
  An insert adds exactly the free positions of the incoming window up to the byte cap, a drain removes
  exactly the contiguous front, and so, as long as the peer's segments come from one byte stream, what was
  taken in order is a prefix of that stream, and what was delivered followed by what still waits is what
  was taken (`RxPath.RxConn.Valid`, kept by every method of the class).
* **Timers across handle reuse (`TimerWheel`, `ConnTimers`).** Every live kernel timer is named by the
  connection in its owner's slot and was armed by that very connection, told apart from every other user of
  the handle by a serial number that is never reused. A fired timer that passes the stale check therefore
  acts on the connection that armed it; a removal leaves no live kernel timer behind.
* **Loss recovery.** Between batches a connection has a live retransmission timer exactly when data is in flight,
  and then exactly one, armed by itself and not overdue (`ConnTimers.Engine.RtoRunning`), across sends, partial and
  full acknowledgments, fires and state changes; the timeout never becomes zero. What is in flight is one run within
  a peer's window in every state (`ConnTimers.Sound`), reported blocks, loss flags and resends never change which
  segments those are (`ConnTimers.AckKeepsRun`), and what a timeout does is stated entry by entry (`Rack.RtoEffect`).
  A running timer does not mean that the front gets resent: see below.
* **The timing wheel.** Eight levels of 256 buckets, cascading included: every timer is filed in one bucket
  under a turn of that level's cursor, fires inside a span of ticks fixed when it was added, and is never
  overdue afterwards. Ids handed out by a sweep can be told from whatever their slots hold later, although
  the generation counter wraps.
* **One poll.** Whatever arrives, every connection keeps its invariants, a connection is removed exactly when a
  frame closed it, one no frame was for is untouched, one that had delivered all it took has done so again, and a list
  in flight only loses segments at its front, none without an acknowledgment. The books of the receive and the header
  pool stay balanced; those of the data pool, over the connections that are left, balance exactly when no connection
  removed in the poll had data in flight as it went (`Poll.PollOnce`).
* **Many senders.** Any number of connections share one ring: a send, an acknowledgment, a resend, a forced close or a
  removal on one leaves every other one's data in flight, and all references, in order (`Senders.SendOn`, `Senders.PruneOn`,
  `Senders.RetransmitOn`, `Senders.ForceCloseOn`, `Senders.RemoveOn`).
* **Send and retransmit.** The in-flight list is a gap-free run modulo 2^32; a send appends the accepted
  prefix in full segments; a retransmission puts the only frame on the ring and that frame carries the
  original payload for every history of header strips.
* **Kernels.** RACK order and marking (RFC 8985), the chunked checksum (RFC 1071) and the IPv4 decode,
  SACK block selection (RFC 2018), window scaling (RFC 7323), fixed-point clock error, chain
  linearization, the probe ring.

## What the proofs found

Where the code and its own comments or documents disagree, the model follows the code.

* A connection that is removed with data in flight, on a reset, at the end of LAST_ACK or by the TIME_WAIT reaper,
  drops its in-flight list without freeing the buffers, because an entry's `Mbuf` does not own anything.
  The books stay balanced exactly when the list was empty (`TxPath.TxEngine.RemoveConn`, `Senders.RemoveOn`,
  `Poll.PollOnce`).
  `force_close_etimedout` does free them (`TxPath.TxEngine.ForceClose`).
* In the closing states an acknowledgment moves `snd_una` but is not reported to the engine, so neither the
  list is pruned nor the timer cancelled: an acknowledgment of everything in flight cancels the
  retransmission timer exactly in ESTABLISHED (`ConnTimers.FullAckCancels`). From then on every timeout marks nothing
  and resends the acknowledged front, and the fire that brings its count over the budget closes the connection with a
  timeout (`Rack.CoveredFires`, `ConnTimers.DrainedTimesOut`); `ConnTimers.DrainedRun` gets there.
* The comment at `engine.rs:6931-6933` says that clearing the flow table at shutdown returns the in-flight buffers
  too. It does not: the data pool's books balance afterwards exactly when nothing was in flight (`Poll.Teardown`).
* The comments at `engine.rs:3122-3125` and `engine.rs:3173` say the front entry is always picked on a
  retransmission timeout. It is picked exactly when it is outstanding and either starts at `snd_una` or has
  aged (`Rack.FrontPicked`), and it is resent exactly when it is picked or nothing is (`Rack.FrontAttempted`).
* One failed resend can hold the front back. An entry is flagged lost before its resend (`engine.rs:3159`), the flag
  is cleared only when the resend goes out (`engine.rs:6489`), and a flagged entry is not picked again. From then
  on a timeout that finds any other entry to resend leaves the front alone: for any number of timeouts its count
  does not move (`Rack.OneFailureStalls`, `Rack.FrontStaysFlagged`), and no such timeout closes the connection
  (`ConnTimers.FlaggedFrontSurvives`).
* Our FIN takes a sequence number and is never on the in-flight list, so no timer covers it: behind it a
  retransmission timer runs exactly when data was in flight as it went out (`ConnTimers.Engine.FinTimer`), and
  `ConnTimers.FinUncovered` is a run that ends with the FIN unacknowledged and no timer.
* The early return of `on_rto_fire` for an empty list (`engine.rs:3108-3112`) is dead code, and so is the probe handler's
  test for one (`engine.rs:3369`): neither timer outlives the list (`ConnTimers.Engine.OnRtoFire`,
  `ConnTimers.Engine.OnTlpFire`).
* At half the sequence space the comparisons hold both ways, so two tests pass once too often. A SYN-ACK is accepted for
  the number behind our SYN and for the one 2^31 further (`ConnTimers.Engine.HandshakeDone`); with nothing
  unacknowledged an acknowledgment 2^31 ahead counts as an advance, otherwise exactly the numbers up to `snd_nxt` do
  (`Retrans.AdvancesExactly`).
* Stored out-of-order entries are never joined, although the comment at `engine.rs:349-352` relies on it. When an
  arrival fits and some of it is new, the first SACK block is the whole contiguous run of RFC 2018 section 4
  exactly when the arrival met and touched nothing stored (`AckOutcome.FirstWindow`, `AckOutcome.ReportArrival`);
  two adjacent segments in turn are reported as two blocks (`AckOutcome.TouchingArrivals`).
* A FIN is taken as soon as its own sequence test passes, even when part of its payload was not: the
  received stream is complete exactly when the payload was taken whole
  (`RxPath.RxConn.Ingest`). A frame of several buffers has its payload dropped, not copied, because the
  engine passes no buffer context for it (`engine.rs:4374-4404`).
* Testing both edges of a segment against the window puts it wholly inside, so the branch for old data is
  dead, and the branches that cut an in-order payload at the buffer's end are dead as long as everything
  taken is delivered within the same dispatch (`RxPath.WindowFits`, the last clauses of `RxPath.RxConn.Ingest`).
* The comment at `tcp_reassembly.rs:413-418` says later segments are popped as stale after the byte cap cuts
  one; the loop breaks instead, and at most one segment is cut (`Reorder.DrainFresh`).
* The chosen window scale need not let the window reach the buffer size. It does exactly when the shifted size is
  below 0xFFFF, or is 0xFFFF with nothing shifted out (`AckOutcome.WindowReaches`); 131071 bytes fall short by one
  (`AckOutcome.WindowFallsShort`).
* The handshake back-off doubles exactly for bases below 2^29 microseconds; above, the 32-bit shift drops
  bits (`ConnTimers.SynBackoff`). The early return of `on_syn_retrans_fire` for a connection past its
  handshake is dead code (`ConnTimers.Engine.OnSynFire`).
* A packet whose stored IPv4 checksum is 0xFFFF is never accepted, though the test of RFC 1071 section 1
  passes it (`Checksum.ZeroAndCompare`); `Checksum.RefusedHeader` is such a header.
* Cancelling an application timer goes by id alone: it keeps the engine in order exactly when the id does not
  name one of the engine's own timers (`ConnTimers.Engine.PublicTimerCancel`).
* The span computation of the wheel's top level would shift a 64-bit one by 64 places; no delay between
  two 64-bit nanosecond times gets there (`WheelTime.TopLevelUnused`). A wheel that lags behind
  the clock may fire a timer early by the lag, and even without a lag a deadline on a tick boundary may come
  up one tick early unless it was armed on a boundary too (`TimerWheel.LagIsEarliness`).

## Reading the model

`SeqArith` holds machine integers and wrap-safe comparison; `Retrans` the in-flight list entry. A parameter
such as `verdict`, `fault`, `sent`, `ok`, `steps` or `Choice` stands for an outcome decided outside the model: an
option check, a failing allocation step, a driver, a random number. `nowNs`, `now` and `sample` stand for the clock and
for the round-trip measurement. Ghost fields record history (events pushed, bytes taken, references received),
so that a class invariant is a statement about the whole run. The source keeps one record per connection; the model
splits it by concern, into `RxPath.RxConn`, `TxPath.TxConn` and `ConnTimers.Conn`; `Poll.Paired` ties the first two
together and `SendTimers.Linked` the last two.

## Model

| member | source | states |
|---|---|---|
| SeqArith.SeqOrder | crates/dpdk-net-core/src/tcp_seq.rs:7-25 | inside half the sequence space seen from a base, the wrapping comparisons are the order on positions |
| SeqArith.HalfSpaceIsAmbiguous | crates/dpdk-net-core/src/tcp_seq.rs:7-25 | at exactly half the space each of two numbers is below the other |
| Mempool.MbufPool.Retain | crates/dpdk-net-core/src/mempool.rs:249-257 | a clone of a held reference keeps counter equal to holders, with one holder more |
| Mempool.MbufPool.FreeSeg | crates/dpdk-net-core/src/mempool.rs:261-313 | dropping a handle removes one holder, and the last one puts the buffer back on the free list |
| Mempool.MbufPool.Rollback | crates/dpdk-net-core/src/engine.rs:4448-4456 | the bare counter roll-back keeps the books exactly when another holder is left; rolled back by its last holder a buffer is at zero outside the pool |
| Mempool.MbufPool.FreeAll | crates/dpdk-net-core/src/mempool.rs:261-313 | dropping a run of handles takes exactly their references off the books |
| Mempool.MbufPool.Alloc | crates/dpdk-net-core/src/engine.rs:5692-5709 | fails exactly on an empty pool, otherwise yields a buffer that nobody holds |
| Mempool.MbufPool.AllocChain | crates/dpdk-net-core/src/engine.rs:2740-2748 | one buffer for every link of a frame, or none at all exactly when the pool has too few; nothing anybody holds changes |
| Retrans.PruneBelowIs | crates/dpdk-net-core/src/tcp_retrans.rs:101-140 | the prune leaves a suffix whose first entry is not covered, and everything it drops is covered |
| Retrans.SackLaws | crates/dpdk-net-core/src/tcp_retrans.rs:147-155 | a report only adds flags and leaves the run a run; repeating it changes nothing, and two reports may come in either order |
| Retrans.SackedExactly | crates/dpdk-net-core/src/tcp_retrans.rs:147-155 | a block with edges on entry boundaries flags exactly the entries it contains |
| Retrans.AdvancesExactly | crates/dpdk-net-core/src/tcp_input.rs:901-901 | which acknowledgment numbers advance: those up to `snd_nxt`, and with nothing unacknowledged the one half the space ahead |
| Retrans.PruneAdvance | crates/dpdk-net-core/src/tcp_retrans.rs:101-140 | pruning by an acknowledgment that advances leaves a run within the window that spans what is then unacknowledged, and nothing exactly when it acknowledges everything |
| Retrans.GrownRun | crates/dpdk-net-core/src/engine.rs:5563-5891 | a send within a window below 2^30 keeps the list one run within the window |
| Reorder.ReorderQueue.InsertMerged | crates/dpdk-net-core/src/tcp_reassembly.rs:262-285 | one more window that overlaps nothing, placed so that the queue stays in stream order and reads as before elsewhere |
| Reorder.ReorderQueue.Carve | crates/dpdk-net-core/src/tcp_reassembly.rs:149-228 | the scan's pieces cover exactly the positions of the incoming window that were free and below the cap's cut |
| Reorder.ReorderQueue.Insert | crates/dpdk-net-core/src/tcp_reassembly.rs:149-256 | stored bytes win, free positions below the cut are filled from the segment, buffered plus dropped is the number of free positions, the cap bites only when full, the caller's bump is kept exactly when something was stored, and references match stored pieces |
| Reorder.ReorderQueue.DrainContiguousInto | crates/dpdk-net-core/src/tcp_reassembly.rs:342-422 | hands over exactly the bytes stored from the next expected one up to the first gap or the end of the room, keeps everything above, and moves or frees every reference |
| Reorder.DrainFresh | crates/dpdk-net-core/src/tcp_reassembly.rs:411-419 | after the cap has cut one window no further window is contiguous, so at most one is cut |
| Reorder.ReorderQueue.Clear | crates/dpdk-net-core/src/tcp_reassembly.rs:425-436 | dropping the queue returns every stored reference |
| Events.IovecsCover | crates/dpdk-net-core/src/engine.rs:5278-5289 | reading through an event's iovecs is reading its owned segments in order |
| Events.CloneEvent | crates/dpdk-net-core/src/tcp_events.rs:142-176 | the copy of an event is equal and owns one more reference per segment |
| Events.EventQueue.Push | crates/dpdk-net-core/src/tcp_events.rs:300-318 | a full queue gives up its oldest event with its references; the queue stays a suffix of all pushes and pushed is popped plus dropped plus queued |
| Events.EventQueue.Pop | crates/dpdk-net-core/src/tcp_events.rs:320-322 | the oldest event moves to the caller |
| RxPath.WindowFits | crates/dpdk-net-core/src/tcp_input.rs:767-778 | a segment that passes the two-edge test lies wholly in the window and never starts before the next expected byte |
| RxPath.RxConn.TakeInOrder | crates/dpdk-net-core/src/tcp_input.rs:1116-1290 | an in-order segment appends its payload as far as there is room and then the stored bytes that follow; taken bytes stay a prefix of the peer's stream |
| RxPath.RxConn.StoreOutOfOrder | crates/dpdk-net-core/src/tcp_input.rs:1291-1427 | the payload clamped to the joint room of both queues is stored around what is there; the queue's own cap never bites behind the clamp |
| RxPath.RxConn.TakeFin | crates/dpdk-net-core/src/tcp_input.rs:1446-1450 | stepping over the FIN keeps every receive invariant and reference |
| RxPath.RxConn.TakePayload | crates/dpdk-net-core/src/tcp_input.rs:1115-1429 | exactly where an accepted payload went: the head bytes that fit and then what was stored behind them, or the free positions of the queue; everything else stored stays stored |
| RxPath.RxConn.Ingest | crates/dpdk-net-core/src/tcp_input.rs:1096-1450 | the whole data step: next expected byte moves by the bytes taken and the FIN, the FIN is taken exactly when accepted at the next expected byte, a taken FIN completes the stream exactly when the payload was taken whole, nothing is cut when everything taken before was delivered, and the caller's bump is consumed exactly when retained |
| RxPath.RxConn.PopFront | crates/dpdk-net-core/src/engine.rs:5222-5265 | one round of the pop loop: the front segment moves whole or is split, no byte is lost or repeated, and both halves of a split hold a reference |
| RxPath.RxConn.PopUpTo | crates/dpdk-net-core/src/engine.rs:5220-5266 | moves out exactly min(budget, buffered) bytes, moved bytes followed by the rest are the old contents, at most one segment is split and both halves hold a reference |
| RxPath.RxConn.Remove | crates/dpdk-net-core/src/tcp_reassembly.rs:425-436 | removing a connection returns every reference of both its queues |
| RxPath.SplitFront | crates/dpdk-net-core/src/engine.rs:5236-5264 | splitting a segment loses and repeats no byte |
| RxPath.FinComplete | crates/dpdk-net-core/src/tcp_input.rs:1431-1450 | behind a genuine FIN the stream is complete exactly when the room held the payload |
| RxEngine.Engine.IovecsAlive | crates/dpdk-net-core/src/engine.rs:2654-2664 | every iovec of a queued event or of one drained since the last poll reads the bytes it was announced with, in a buffer with counter at least one that is not on the free list |
| RxEngine.Engine.PushEvent | crates/dpdk-net-core/src/tcp_events.rs:300-318 | pushing keeps the books and every queued event's bytes |
| RxEngine.Engine.DeliverReadable | crates/dpdk-net-core/src/engine.rs:5197-5361 | delivers the first min(budget, waiting) bytes as one readable event whose payload and total length are exactly those bytes, and keeps the books |
| RxEngine.Engine.ReceiveFrame | crates/dpdk-net-core/src/engine.rs:2740-2748 | the driver's fresh buffers join the books and touch no held buffer; the frame is lost exactly when the pool has too few |
| RxEngine.Engine.PollTop | crates/dpdk-net-core/src/engine.rs:2654-2664 | the top of a poll releases the references of the events drained since the previous one |
| RxEngine.Engine.DrainEvents | crates/dpdk-net-core/src/engine.rs:3866-3893 | a drain shows exactly the oldest min(max, queued) events in order, over any number of chunked drains, and keeps their references until the next poll |
| RxEngine.Engine.TcpInput | crates/dpdk-net-core/src/engine.rs:4374-4456 | the bump before the handler and the roll-back after it keep the books in every case |
| RxEngine.Engine.CloseConn | crates/dpdk-net-core/src/engine.rs:4825-4885 | closing pushes the closed event and returns the connection's receive references |
| RxEngine.Engine.DispatchOne | crates/dpdk-net-core/src/engine.rs:3967-4012 | one frame of the burst: input, delivery, removal on a reset and release keep the books; the stream taken and the next expected number advance together, a whole accepted in-order payload is taken, and a connection that had delivered everything has done so again |
| RxEngine.Engine.Teardown | crates/dpdk-net-core/src/engine.rs:6893-6924 | the drained and then the queued events give their references back, and the receive loop holds nothing |
| Poll.FillBurst | crates/dpdk-net-core/src/engine.rs:2738-2748 | the burst holds some of the frames on the wire, in their order, as they came; every connection stays valid |
| Poll.DispatchNext | crates/dpdk-net-core/src/engine.rs:3916-4012 | the receive side of one frame: to its connection if that is still there and back to the pool; no other connection changes |
| Poll.HandleNext | crates/dpdk-net-core/src/engine.rs:4222-4885 | one frame on both sides of its connection: data, resends, acknowledgment and state change, or the removal of both |
| Poll.HandleBurst | crates/dpdk-net-core/src/engine.rs:2787-2812 | the whole burst in order, on both sides: the connections removed are exactly those a frame closed, what each had in flight as it went is on record, and only connections with a frame change |
| Poll.PollOnce | crates/dpdk-net-core/src/engine.rs:2649-2842 | one poll over any number of connections keeps every receive and every send side and the event queue in order, takes nothing back, leaves connections without a frame alone, and delivers everything taken where everything had been delivered before; the receive and header pools stay balanced, and the data pool, over the connections that are left, exactly when no connection removed in this poll had data in flight as it went |
| Poll.SendBetween | crates/dpdk-net-core/src/engine.rs:5563-5600 | refused exactly on a removed connection and outside ESTABLISHED; a send leaves every receive side, the receive books and every other connection's data in flight as they were |
| Poll.ClearConns | crates/dpdk-net-core/src/flow_table.rs:262-265 | clearing the table returns every reference of every connection's two receive queues |
| Poll.Teardown | crates/dpdk-net-core/src/engine.rs:6893-6966 | events, flow table, transmit ring and injector in this order: with nothing held outside, the whole receive pool is free again; the data pool's books balance exactly when no connection had data in flight |
| Senders.SendOn | crates/dpdk-net-core/src/engine.rs:5563-5891 | a send on one of many connections: every list stays in order, no two share a buffer, all references are accounted for, and promises only grow |
| Senders.PruneOn | crates/dpdk-net-core/src/engine.rs:4565-4587 | an acknowledgment on one of many: only its own covered entries go and only their promises are released |
| Senders.RetransmitOn | crates/dpdk-net-core/src/engine.rs:6106-6502 | a resend on one of many keeps every list and all references |
| Senders.ForceCloseOn | crates/dpdk-net-core/src/engine.rs:3652-3689 | a forced close of one of many frees its buffers and leaves the others theirs |
| Senders.RemoveOn | crates/dpdk-net-core/src/engine.rs:4848-4884 | a removal without freeing: the others keep their lists, the removed one's references are nobody's to give back, and the books of what is left balance exactly when it had nothing in flight |
| Senders.MoveOn | crates/dpdk-net-core/src/engine.rs:4898-4928 | a state change of one of many keeps every list and all references |
| Replies.Answer | crates/dpdk-net-core/src/engine.rs:4498-4689 | a segment that leaves its connection open resends, prunes and moves the state; its list only loses segments at the front, none without an acknowledgment |
| Replies.BooksLeft | crates/dpdk-net-core/src/engine.rs:4848-4884 | with the removed connections' lists counted elsewhere the header pool balances, and the data pool over the rest exactly when none of them had data in flight |
| Senders.RestMoves | crates/dpdk-net-core/src/engine.rs:5563-5891 | a step of one connection that only adds promises for new buffers, or only releases its own, keeps every other list in order and apart |
| Senders.Joins | crates/dpdk-net-core/src/flow_table.rs:126-135 | a new connection joins with nothing in flight |
| Senders.DrainAll | crates/dpdk-net-core/src/engine.rs:2899-2983 | the drain at the end of a poll keeps every list and all references |
| Senders.ListsLost | crates/dpdk-net-core/src/flow_table.rs:262-265 | without the lists the data pool's books balance exactly when nothing was in flight anywhere |
| TxPath.TxEngine.Drain | crates/dpdk-net-core/src/engine.rs:2899-2983 | finished frames go back to their pools; whatever prefix of the ring the driver takes, the ring ends empty, every reference to a data or header buffer is accounted for, no promised payload is touched, and only buffers of the ring change |
| TxPath.TxEngine.FreeRing | crates/dpdk-net-core/src/engine.rs:6936-6949 | freeing the ring gives both buffers of every frame back and leaves the in-flight entries theirs |
| TxPath.TxEngine.PushFrame | crates/dpdk-net-core/src/engine.rs:5740-5762 | a frame goes on the ring, drained first when full; no buffer is ever in two frames of the ring |
| TxPath.TxEngine.SendOne | crates/dpdk-net-core/src/engine.rs:5642-5858 | one segment extends the gap-free run and gives one reference each to the ring and the list, or nothing changes because its frame could not be built or no buffer could be had |
| TxPath.TxEngine.SendBytes | crates/dpdk-net-core/src/engine.rs:5563-5891 | refused exactly outside ESTABLISHED; accepted bytes are a prefix cut into full segments and a rest, in buffers promised to nobody before, the run ends at the new `snd_nxt` and stays within the window, in-flight stays within the peer's window and the send buffer, it stops short only when a frame cannot be built or no buffer can be had, and an error changes nothing |
| TxPath.TxEngine.StripHeaders | crates/dpdk-net-core/src/engine.rs:6382-6405 | after any earlier strips the data buffer becomes exactly the promised payload |
| TxPath.TxEngine.ChainData | crates/dpdk-net-core/src/engine.rs:6382-6474 | bump, chain and push; a failed chain takes the bump back and frees the header buffer |
| TxPath.TxEngine.Retransmit | crates/dpdk-net-core/src/engine.rs:6106-6502 | the ring's only frame is a fresh header from the header pool chained to the entry's buffer, which is the original payload; every failure leaves the list and the data buffer's references as they were; no other buffer changes but those that were on the ring |
| TxPath.TxEngine.AckPrune | crates/dpdk-net-core/src/engine.rs:4565-4587 | outside TIME_WAIT a number that advances moves `snd_una`; in ESTABLISHED exactly the covered front entries go and their buffers are freed, all of them exactly when everything was acknowledged, and only their promises are released |
| TxPath.TxEngine.ForceClose | crates/dpdk-net-core/src/engine.rs:3652-3689 | every in-flight buffer is freed |
| TxPath.TxEngine.RemoveConn | crates/dpdk-net-core/src/engine.rs:4848-4884 | removal without freeing: the list is gone, its references stay, and the books balance without them exactly when nothing was in flight |
| TxPath.TxEngine.CloseConn | crates/dpdk-net-core/src/engine.rs:5939-6021 | from ESTABLISHED and CLOSE_WAIT our FIN takes the number behind the data, and the run still ends just before it; elsewhere nothing changes |
| TxPath.TxConn.UpdateWindow | crates/dpdk-net-core/src/tcp_input.rs:972-982 | a window field scaled by at most fourteen places stays below 2^30 |
| TxPath.OtherConnKept | crates/dpdk-net-core/src/engine.rs:5563-5891 | promises added, or released to buffers it does not list, leave a list in order |
| SendTimers.SentIsCut | crates/dpdk-net-core/src/engine.rs:5642-5858 | the entries a send appends are the cut of their pieces from the old `snd_nxt` on, and the pieces' bytes are the accepted ones |
| SendTimers.SendBoth | crates/dpdk-net-core/src/engine.rs:5563-5891 | a send on the send path and on the timers: the pieces fit the peer's window, the two lists stay in step, and a retransmission timer is named exactly when data is in flight |
| SendTimers.AckLinked | crates/dpdk-net-core/src/tcp_input.rs:901-1094 | an acknowledgment leaves the numbers, the state and the segments in flight of the two in step |
| TimerWheel.Wheel.constructor | crates/dpdk-net-core/src/tcp_timer_wheel.rs:66-114 | an empty wheel is valid and names no timer |
| TimerWheel.Wheel.Add | crates/dpdk-net-core/src/tcp_timer_wheel.rs:116-146 | the id is fresh, names exactly the new node, differs from every id of the batch being dealt with, all other ids keep their meaning, and the timer's span is fixed |
| TimerWheel.Wheel.Cancel | crates/dpdk-net-core/src/tcp_timer_wheel.rs:205-216 | true exactly for a live id; afterwards that id is dead and every other id is unchanged |
| TimerWheel.Wheel.Advance | crates/dpdk-net-core/src/tcp_timer_wheel.rs:148-188 | moves at most 2048 ticks; hands out once each exactly the live timers that are gone afterwards, each inside its span |
| TimerWheel.Wheel.Tick | crates/dpdk-net-core/src/tcp_timer_wheel.rs:157-185 | one tick empties the due bucket and fires exactly the live timers in it, each at a tick of its span |
| TimerWheel.Wheel.Cascade | crates/dpdk-net-core/src/tcp_timer_wheel.rs:218-256 | redistributing a higher level's bucket changes no timer and leaves every timer filed so that it will not be overdue |
| TimerWheel.Wheel.Refile | crates/dpdk-net-core/src/tcp_timer_wheel.rs:239-250 | one timer of a redistributed bucket: a cancelled one is dropped, any other is filed again inside its span |
| TimerWheel.Wheel.TurnCursor | crates/dpdk-net-core/src/tcp_timer_wheel.rs:219-222 | all slots in the bucket a cursor reaches were waiting for exactly this turn |
| TimerWheel.Wheel.NoneOverdue | crates/dpdk-net-core/src/tcp_timer_wheel.rs:148-188 | in every valid state the wheel has not reached the end of any live timer's span |
| TimerWheel.LagIsEarliness | crates/dpdk-net-core/src/tcp_timer_wheel.rs:116-119 | how early a timer may fire: exactly the wheel's lag, and one tick more when armed later within its tick than it is due within its own; late by at most one tick |
| TimerWheel.Wheel.BatchRoom | crates/dpdk-net-core/src/tcp_timer_wheel.rs:121-134 | answering each fired timer with at most one add never runs out of slots or wraps a generation |
| TimerWheel.ReuseStep | crates/dpdk-net-core/src/tcp_timer_wheel.rs:121-127 | short of a full turn of the counter, a reused slot's generation differs from every earlier one |
| WheelTime.LevelAndBucketOffset | crates/dpdk-net-core/src/tcp_timer_wheel.rs:258-269 | the loop over level spans finds the lowest level whose digits hold the delay |
| WheelTime.Placement | crates/dpdk-net-core/src/tcp_timer_wheel.rs:258-269 | a timer's bucket never comes up after its tick on a higher level, and exactly then, or one tick later, on the lowest |
| WheelTime.UpStep | crates/dpdk-net-core/src/tcp_timer_wheel.rs:181-183 | a level's cursor moves exactly when all lower digits of the tick become zero |
| WheelTime.TopLevelUnused | crates/dpdk-net-core/src/tcp_timer_wheel.rs:258-269 | no 64-bit delay reaches the level whose span does not fit 64 bits |
| FlowTable.Table.Insert | crates/dpdk-net-core/src/flow_table.rs:126-135 | refused exactly for a present tuple or a full table, otherwise the first free slot, and the abstract map gains exactly that entry |
| FlowTable.Table.Remove | crates/dpdk-net-core/src/flow_table.rs:185-194 | the abstract map loses exactly that handle |
| FlowTable.Table.LookupByTuple | crates/dpdk-net-core/src/flow_table.rs:153-165 | the tuple index agrees with a search of the slots in both directions |
| FlowTable.Table.IterHandles | crates/dpdk-net-core/src/flow_table.rs:198-206 | every live handle once, in increasing order |
| FlowTable.Table.ClearAll | crates/dpdk-net-core/src/flow_table.rs:262-265 | the abstract map becomes empty |
| FlowTable.Table.TuplesDistinct | crates/dpdk-net-core/src/flow_table.rs:126-135 | no two handles lead to the same tuple |
| ConnTimers.TimeoutStaysPositive | crates/dpdk-net-core/src/tcp_rtt.rs:38-58 | neither a sample nor a back-off can bring the timeout to zero, and the smoothing cannot wrap |
| ConnTimers.AckKeepsRun | crates/dpdk-net-core/src/tcp_input.rs:1048-1094 | blocks, loss flags and resends never change which segments are in flight: an acknowledgment leaves the prune of what was there |
| ConnTimers.AckWindow | crates/dpdk-net-core/src/tcp_input.rs:901-1094 | in ESTABLISHED an acknowledgment keeps the list one run within the window, and the list drains exactly when everything is acknowledged |
| ConnTimers.CutTiled | crates/dpdk-net-core/src/engine.rs:5642-5858 | the entries of a send carry the gap-free run on |
| ConnTimers.SendWindow | crates/dpdk-net-core/src/engine.rs:5563-5858 | a send that fits the peer's window keeps the list one run within the window |
| ConnTimers.FlaggedFrontSurvives | crates/dpdk-net-core/src/engine.rs:3126-3193 | a fire that finds anything to mark neither resends a front left flagged by a failed resend nor closes the connection for it |
| ConnTimers.SynBackoff | crates/dpdk-net-core/src/engine.rs:3541-3549 | the four handshake delays are 1, 2, 4, 8 bases exactly for bases below 2^29 microseconds, and then sum to 15 bases |
| ConnTimers.FullAckCancels | crates/dpdk-net-core/src/tcp_input.rs:1628-1632 | with data in flight an acknowledgment of everything cancels the retransmission timer exactly in ESTABLISHED |
| ConnTimers.DrainedCovered | crates/dpdk-net-core/src/tcp_input.rs:1628-1632 | in a closing state every listed segment may be acknowledged and still listed |
| ConnTimers.DrainedTimesOut | crates/dpdk-net-core/src/engine.rs:3082-3315 | over any number of timeouts with everything acknowledged the connection is closed exactly when the front's count plus the successful resends passes the budget |
| ConnTimers.DrainedRun | crates/dpdk-net-core/src/engine.rs:5939-6021 | open, send, close and a full acknowledgment: everything acknowledged, still listed, and the timer running |
| ConnTimers.FinUncovered | crates/dpdk-net-core/src/engine.rs:5939-6021 | connect, handshake and close: the FIN unacknowledged and no retransmission timer |
| ConnTimers.Engine.Arm | crates/dpdk-net-core/src/engine.rs:4658-4676 | the new timer is live, due at the stated time, named and listed by its connection and recorded as armed by it; no other timer or connection changes |
| ConnTimers.Engine.FreeSlotHasNoTimers | crates/dpdk-net-core/src/flow_table.rs:126-135 | a free slot has no live kernel timer, so the next user of the handle starts clean |
| ConnTimers.Engine.OneTimerPerKind | crates/dpdk-net-core/src/engine.rs:4588-4677 | a connection never has two live timers of one kind |
| ConnTimers.Engine.RtoRunning | crates/dpdk-net-core/src/engine.rs:4588-4677 | between batches a live retransmission timer exists exactly when data is in flight, and then exactly one: named and armed by its own connection, and not overdue |
| ConnTimers.Engine.FinTimer | crates/dpdk-net-core/src/engine.rs:5939-6021 | behind our FIN a retransmission timer runs exactly when data was in flight as the FIN went out |
| ConnTimers.Engine.HandshakeTimer | crates/dpdk-net-core/src/engine.rs:3440-3570 | a handshake timer lives exactly in SYN_SENT |
| ConnTimers.Engine.Disarm | crates/dpdk-net-core/src/engine.rs:4600-4616 | the named timer dies, its name and list entry go, and nothing else changes |
| ConnTimers.Engine.RemoveConn | crates/dpdk-net-core/src/engine.rs:4852-4883 | removal cancels everything listed or named, so no live kernel timer of the handle stays |
| ConnTimers.Engine.ArmTlpPto | crates/dpdk-net-core/src/engine.rs:5900-5937 | a probe is armed exactly when the gate passes, and then budget remains |
| ConnTimers.Engine.AckInput | crates/dpdk-net-core/src/engine.rs:4498-4689 | blocks, estimators, loss detection with its resends and the prune, exactly; a full acknowledgment clears both timers, a partial one restarts the retransmission timer from now, anything else leaves it; the closing states take in blocks and `snd_una` only, TIME_WAIT nothing |
| ConnTimers.Engine.Send | crates/dpdk-net-core/src/engine.rs:5642-5888 | a send appends the entries cut from its pieces, moves `snd_nxt` to their end, and leaves one run within the window and a retransmission timer named exactly when data is in flight |
| ConnTimers.Engine.ForceClose | crates/dpdk-net-core/src/engine.rs:3587-3736 | timeout close: the slot is free, its timers are gone, and the error and closed events are the last two |
| ConnTimers.Engine.CloseConn | crates/dpdk-net-core/src/engine.rs:4825-4885 | final close: exactly the state change and the closed event, and the slot and its timers are gone |
| ConnTimers.Engine.TakeFired | crates/dpdk-net-core/src/engine.rs:3087-3106 | the stale check passes exactly when the connection names the id, and then that very connection armed it |
| ConnTimers.Engine.OnRtoFire | crates/dpdk-net-core/src/engine.rs:3082-3315 | a current fire finds data in flight, marks, flags and tries to resend, exactly as `Rack.AfterRto` says, and leaves the timer due one backed-off timeout from now, or closes exactly when the front is then over budget; a stale one changes nothing |
| ConnTimers.Engine.OnTlpFire | crates/dpdk-net-core/src/engine.rs:3333-3429 | a current fire finds data in flight, resends the last entry, spends one unit of a budget that was left and stays disarmed; a stale one changes nothing |
| ConnTimers.Engine.OnSynFire | crates/dpdk-net-core/src/engine.rs:3440-3570 | three fires retransmit and arm the next delay, the fourth closes with a timeout, after exactly four armed delays |
| ConnTimers.Engine.Connect | crates/dpdk-net-core/src/engine.rs:5385-5552 | a new connection gets a serial number of its own, the base handshake delay and a state-change event; a failure leaves the table as it was |
| ConnTimers.Engine.HandshakeDone | crates/dpdk-net-core/src/tcp_input.rs:556-695 | exactly which SYN-ACK numbers are accepted; accepted, it cancels the handshake timer, samples the round trip unless a SYN was repeated, and announces the change and the connection; refused, the connection goes |
| ConnTimers.Engine.Close | crates/dpdk-net-core/src/engine.rs:5939-6021 | from ESTABLISHED and CLOSE_WAIT our FIN takes the next number behind the data, whether data was in flight is on record, and no timer is armed; elsewhere nothing changes |
| ConnTimers.Engine.Transition | crates/dpdk-net-core/src/engine.rs:4898-4928 | the state moves exactly as the segment handlers decide, the TIME_WAIT deadline is stamped on entry, timers and list stay, and a connection whose last FIN is acknowledged goes |
| ConnTimers.Engine.RefreshTimeWait | crates/dpdk-net-core/src/engine.rs:4706-4720 | in TIME_WAIT a segment inside the window restarts the 2 MSL deadline, saturating; nothing else changes |
| ConnTimers.Engine.PublicTimerAdd | crates/dpdk-net-core/src/engine.rs:2996-3017 | an application timer belongs to no connection, disturbs no other timer, and its deadline is the next whole tick |
| ConnTimers.Engine.PublicTimerCancel | crates/dpdk-net-core/src/engine.rs:3018-3020 | true exactly for a live id; the engine stays in order exactly when the id is not one of its own timers |
| ConnTimers.Engine.ReapTimeWait | crates/dpdk-net-core/src/engine.rs:3741-3840 | afterwards exactly the expired or waived TIME_WAIT connections are gone |
| ConnTimers.Engine.Sweep | crates/dpdk-net-core/src/engine.rs:3037-3050 | every timer is afterwards either pending in the batch or as live as before |
| ConnTimers.Engine.FireTimersAt | crates/dpdk-net-core/src/engine.rs:3037-3073 | the whole batch is dealt with, each entry once, its size is the count, only owners of fired timers change, and every invariant holds again |
| FaultInjector.Injector.Corrupt | crates/dpdk-net-core/src/fault_injector.rs:244-277 | a corruption changes exactly one byte of a non-empty head buffer and nothing else |
| FaultInjector.Injector.BumpChain | crates/dpdk-net-core/src/fault_injector.rs:281-304 | a duplicate adds one reference on every segment of the chain |
| FaultInjector.Injector.Process | crates/dpdk-net-core/src/fault_injector.rs:220-340 | over any run, references received plus bumps equal references emitted plus freed plus held; the exact output and ring for each choice; the ring stays within sixteen and evicts its oldest |
| FaultInjector.Injector.Close | crates/dpdk-net-core/src/fault_injector.rs:342-352 | dropping the injector frees what the ring holds, and the run's totals balance without it |
| Checksum.InternetChecksum | crates/dpdk-net-core/src/l3_ip.rs:37-68 | for every split into chunks the result is the checksum of the concatenation |
| Checksum.ChecksumMeaning | crates/dpdk-net-core/src/l3_ip.rs:37-68 | up to 65537 words the sum does not wrap, and the checksum is the negated word sum modulo 65535 |
| Checksum.FoldMod | crates/dpdk-net-core/src/l3_ip.rs:64-67 | folding keeps the value modulo 65535, and only zero folds to zero |
| Checksum.ZeroAndCompare | crates/dpdk-net-core/src/l3_ip.rs:104-114 | comparing with the checksum of the zeroed header is the RFC 1071 test, except that a stored 0xFFFF is refused |
| Checksum.RefusedHeader | crates/dpdk-net-core/src/l3_ip.rs:104-114 | a header the RFC test passes and the decoder refuses for its checksum |
| Checksum.DecodeAccepts | crates/dpdk-net-core/src/l3_ip.rs:72-132 | exactly which packets are accepted, as one conjunction |
| Rack.LatestIsMax | crates/dpdk-net-core/src/tcp_rack.rs:33-41 | the state is the lexicographic maximum of (time, position) over the old state and everything acknowledged |
| Rack.OrderIndependent | crates/dpdk-net-core/src/tcp_rack.rs:33-41 | the order of processing does not matter when equal times lie within half the space |
| Rack.AckOrder | crates/dpdk-net-core/src/tcp_input.rs:1048-1064 | for any list within a peer's window, and a state level with it (within 2^30 of every listed transmission of the same time), they do: the state becomes the same maximum of what it was and everything delivered, in whatever order it is processed |
| Rack.LevelKept | crates/dpdk-net-core/src/tcp_input.rs:1048-1094 | being level is kept by learning, pruning and flagging, and by sending and resending later than what was acknowledged had been sent |
| Rack.OrderMattersAround | crates/dpdk-net-core/src/tcp_rack.rs:33-41 | the half-space condition is needed: three transmissions spread around the whole space, which no window allows, are ordered in a circle |
| Rack.DetectionLaws | crates/dpdk-net-core/src/tcp_rack.rs:55-70 | never the segment that set the state; monotone in time; antitone in the window |
| Rack.ReoWndUs | crates/dpdk-net-core/src/tcp_rack.rs:77-89 | zero exactly when aggressive; otherwise the largest value within half the least and a quarter of the smoothed round trip, but at least a millisecond |
| Rack.AgeNeverWraps | crates/dpdk-net-core/src/tcp_rack.rs:159-169 | the 64-bit age test is the comparison of unbounded times |
| Rack.MarkLossesOnRto | crates/dpdk-net-core/src/tcp_rack.rs:126-157 | the loop appends the marked indexes to the caller's list |
| Rack.MarkedExactly | crates/dpdk-net-core/src/tcp_rack.rs:126-157 | up to 65536 entries exactly the lost ones, each once, increasing |
| Rack.FrontPicked | crates/dpdk-net-core/src/tcp_rack.rs:126-157 | exactly when the front entry is picked, and a case with data in flight where nothing is |
| Rack.RtoEffect | crates/dpdk-net-core/src/engine.rs:3126-3193 | every entry after a timeout: resent and clear of its flag, flagged by a failed resend, or untouched |
| Rack.ResendOnRto | crates/dpdk-net-core/src/engine.rs:3126-3193 | mark, flag, and resend what was marked, or the front when nothing was |
| Rack.FrontAttempted | crates/dpdk-net-core/src/engine.rs:3166-3193 | the front is resent exactly when it is picked or nothing is |
| Rack.FrontStaysFlagged | crates/dpdk-net-core/src/engine.rs:3152-3193 | a flagged front is left alone by any number of timeouts that find the second entry aged, however well its resends go |
| Rack.OneFailureStalls | crates/dpdk-net-core/src/engine.rs:3152-3193 | one failed resend is enough for that |
| Rack.CoveredFires | crates/dpdk-net-core/src/engine.rs:3126-3193 | with every listed segment acknowledged each timeout marks nothing, and each whose resend goes out adds one to the front's count |
| Rack.OvertakenExactly | crates/dpdk-net-core/src/tcp_input.rs:1076-1090 | up to 65536 entries exactly the overtaken ones, each once, increasing |
| Rack.State.AckPass | crates/dpdk-net-core/src/tcp_input.rs:1048-1094 | one acknowledgment: the state learns everything delivered, then the outstanding entries it overtook for longer than the window are flagged lost; with nothing in flight nothing changes |
| Rack.State.UpdateMinRtt | crates/dpdk-net-core/src/tcp_rack.rs:45-49 | the least sample so far, zero standing for none |
| AckOutcome.ComputeWsShift | crates/dpdk-net-core/src/engine.rs:226-234 | the least shift up to 14 whose range covers the buffer |
| AckOutcome.WindowIsHonest | crates/dpdk-net-core/src/engine.rs:326-331 | what the peer reads never exceeds the free space |
| AckOutcome.WindowIsTight | crates/dpdk-net-core/src/engine.rs:326-331 | for buffers below 2^30 the clamp never bites and less than one unit is lost |
| AckOutcome.WindowReaches | crates/dpdk-net-core/src/engine.rs:226-234 | for every buffer size, exactly when the largest announceable window reaches it |
| AckOutcome.WindowFallsShort | crates/dpdk-net-core/src/engine.rs:226-234 | 131071 bytes are not reached |
| AckOutcome.FindTrigger | crates/dpdk-net-core/src/engine.rs:353-358 | the first stored block that contains the trigger, or none does |
| AckOutcome.SackBlocks | crates/dpdk-net-core/src/engine.rs:345-388 | min(n, 3) distinct blocks: the trigger's first when there is one, then the highest of the rest in falling order |
| AckOutcome.FirstWindow | crates/dpdk-net-core/src/engine.rs:349-363 | of what an arrival leaves stored, the window with its first byte is a whole contiguous run exactly when the arrival met and touched nothing stored |
| AckOutcome.ReportArrival | crates/dpdk-net-core/src/engine.rs:345-388 | insert and report: the first block holds the arrival's first byte, starts there when that byte is new, and is the whole run exactly under that condition |
| AckOutcome.TouchingArrivals | crates/dpdk-net-core/src/engine.rs:349-363 | two adjacent segments arriving in turn: the block reported first starts at the second although the run reaches down over the first |
| Clock.Monotone | crates/dpdk-net-core/src/clock.rs:43-50 | time does not run backwards while the scaled value fits 64 bits |
| Clock.ErrorBound | crates/dpdk-net-core/src/clock.rs:74-104 | with the calibrated ratio the clock never runs ahead and lags by less than delta/2^32 + 1 nanoseconds |
| Linearize.DataSliceForRx | crates/dpdk-net-core/src/lib.rs:119-180 | on any chain, circular ones included, the walk ends with the bytes of at most the declared links, cut at the declared length |
| Linearize.ProperChain | crates/dpdk-net-core/src/lib.rs:119-180 | on a proper chain that is the concatenation of all its buffers |
| TlpProbes.Recent.OnProbeFired | crates/dpdk-net-core/src/tcp_conn.rs:598-609 | the ring always holds exactly the latest five probes |
| TlpProbes.Recent.Attribute | crates/dpdk-net-core/src/tcp_conn.rs:684-717 | true exactly when a recorded unused probe of the last four smoothed round trips explains the block; that probe alone is used up |
| TlpProbes.Recent.AttributionsBounded | crates/dpdk-net-core/src/tcp_conn.rs:684-717 | over any run attributions never outnumber probes fired |

## Left out

- Mempool.MbufPool.RefcntUpdate: the counter is unbounded; its 16-bit storage, which would wrap at 65536 holders of one buffer, is not modelled.
- TimerWheel.Wheel.Add: times are unbounded integers and `HasRoom` asks for a free slot or fewer than 2^32 - 1 slots; the source has no check there.
- TxPath.TxEngine.SendBytes: header contents are given by `hdrs` and whether a frame can be built by `steps`; checksums and offload are not modelled.
- TxPath.TxEngine.Retransmit: the two arguments `hdr` and `fault` stand for the header builder and for the step that fails, if any.
- Rack.AckOrder: that the state is level with the list is a hypothesis; `Rack.LevelKept` keeps it as long as the clock moves on between an acknowledged transmission and the next one.
- ConnTimers.Engine.OnRtoFire: which resends go out comes in as `ok`, the resend itself is `TxPath.TxEngine.Retransmit`; the clock is read once per fire.
- ConnTimers.Engine.Send: the pieces, with the length, buffer and header length of each segment, are an argument; that the send path's own satisfy `Fits` is `SendTimers.SendBoth`.
- RxPath.RxConn.Ingest: the checks before and after the window test (RST, URG, ACK flag, options, timestamps) come in as `verdict`; the walk over a chained buffer is absent, because the engine passes a buffer context only for single-buffer frames.
- RxEngine.Engine.DispatchOne: acknowledgment emission, counters and hardware timestamps are absent.
- Poll.PollOnce: the connection a frame is for, and what its segment brings for the send side, come in with the frame (the lookup is `FlowTable.Table.LookupByTuple`, the loss detection `Rack.State.AckPass`); a removed connection's handle is not given out again within a poll; and the timers, which `ConnTimers` models, are absent, as are acknowledgments sent on the spot.
- Poll.Teardown: port shutdown is not modelled.
- ConnTimers.Engine.RefreshTimeWait: whether the segment lies inside the window is an argument; the ACK that answers it is absent.
- Control frames use the header pool; their references count among `others`.
- Events other than readable ones carry a number instead of their payload.
- The closing states' data handling, PAWS, the test that lets a segment update the send window, the duplicate-ACK test and the WRITABLE hysteresis are not modelled.
- The SACK scoreboard, DSACK classification and TCP option encoding are not modelled; a SACK block reaches the in-flight list directly.
- The probe timeout formula and the choice of the smoothed round-trip sample are inputs.
- Passive opening and the other feature variants are not modelled; the default build is.
- DPDK and port set-up, ARP, ICMP, the C interface, counters, statistics and tools are not modelled: they are foreign calls and input and output around the core.
- The random generator of the fault injector and the initial sequence number generator are not modelled; random decisions are arbitrary arguments.
