# lwIP core: a verified model

This project models the hard core of the lwIP TCP/IP stack in Dafny and proves what its parts promise:

- the TCP receiver (`SequenceNumbers`, `Segments`, `OutOfSequence`, `FirstEdge`, `Receiver`): reassembly of any
  reordered, repeated and overlapping segments, the out-of-sequence queue, the receive window;
- the TCP sender (`SendQueues`, `Segmentation`, `Sender`): the two send queues as a partition of the
  sequence space, atomic writes, retransmission, acknowledgement, closing; `Rto`: the retransmission timeout;
- the heap allocator with its in-band headers (`HeapBlocks`, `Heap`) and what its users can rely on (`HeapClient`);
- the wake-up protocol between select calls and event callbacks (`Select`);
- the Internet checksum in its three versions and over buffer chains (`Checksum`);
- packet buffer chains (`Pbufs`, `PbufCopy`, `PbufChainCopy`);
- the list of timeouts (`Timeouts`) and writing to, closing and connecting a netconn (`NetconnWrite`).

Configuration: out-of-sequence queueing and oversize allocation on; no window scaling, timestamps,
checksum on copy, core locking, full-duplex netconns, linger or send timeouts; heap freed from one context
only. Allocation failures, refusals by IP, the answers of application callbacks and of the TCP layer below a
netconn are parameters; what a stored struct mem looks like as bytes is arbitrary (`*`).

How to read it. Stream positions are unbounded integers; wherever the code compares or subtracts 32-bit
numbers, so does the model, and lemmas of `SequenceNumbers` recover the positions. State that the code updates
in place is a class with the same fields. Each method is proved against functions on values, and the laws are
lemmas about those. Properties that are false of the code are stated with the exact condition under which
they hold, and with a concrete counterexample. `hide` statements only narrow what the solver looks at.

Where code and comments disagree the model follows the code: `sys_timeout` takes only the delay off the old
head, not the time already passed; `pbuf_copy` takes an empty last pbuf for the sign of a packet queue;
`plug_holes` tests lfree against blocks that, when called from mem_free, are never lfree.

## Model

| member | source | states |
|---|---|---|
| `SequenceNumbers.WireDiff` | lwip/src/include/lwip/priv/tcp_priv.h:106-114 | The signed 32-bit difference of two wire numbers is the true difference if and only if the positions are less than half the number space apart. |
| `SequenceNumbers.WireCompare` | lwip/src/include/lwip/priv/tcp_priv.h:106-109 | TCP_SEQ_LT, LEQ, GT and GEQ on wire numbers agree with the comparison of the unbounded positions, for near positions. |
| `SequenceNumbers.WireBetween` | lwip/src/include/lwip/priv/tcp_priv.h:114 | TCP_SEQ_BETWEEN is membership in the closed interval of positions. |
| `SequenceNumbers.WireDistance` | lwip/src/include/lwip/priv/tcp_priv.h:106-114 | Unsigned subtraction recovers any distance from 0 to 2^32 - 1. |
| `OutOfSequence.SwallowCovered` | lwip/src/core/tcp_in.c:952-965 | Removing the segments an incoming one covers, and taking over their FIN, loses no position: what is held together stays the same. |
| `OutOfSequence.OosInsertSegment` | lwip/src/core/tcp_in.c:945-976 | Linking a segment in front of a sorted queue gives a sorted queue of disjoint segments, FIN only last, that holds exactly the union of both. |
| `OutOfSequence.InsertAt` | lwip/src/core/tcp_in.c:1547-1600 | Insertion in the middle: what q held below the new start, the new segment and what q held above it; the previous segment is trimmed. |
| `OutOfSequence.Append` | lwip/src/core/tcp_in.c:1603-1638 | Insertion at the tail, with the new segment cut at the window edge. |
| `OutOfSequence.FitToWindow` | lwip/src/core/tcp_in.c:1618-1635 | The tail segment loses exactly the positions beyond the window edge, its FIN included. |
| `OutOfSequence.FindPosition` | lwip/src/core/tcp_in.c:1540-1641 | The wire comparisons of the walk find the place that the positions prescribe, or drop the segment. |
| `OutOfSequence.DitchedHasNoNewData` | lwip/src/core/tcp_in.c:1541-1570 | A segment the walk drops brings no data that was not queued. |
| `OutOfSequence.StoredInWindow` | lwip/src/core/tcp_in.c:1525-1643 | Queueing a segment inside the window leaves the whole queue inside the window. |
| `OutOfSequence.StoredPositions` | lwip/src/core/tcp_in.c:1525-1643 | Queueing, position by position: with memory every byte inside the window is queued afterwards, and the FIN unless a segment with the same start and no less data was there; nothing else appears; what disappears lay at or beyond the end of the new segment, or the window edge, in a segment that began before it. |
| `OutOfSequence.Enqueue` | lwip/src/core/tcp_in.c:1525-1643 | For every incoming segment and every valid queue the result is a valid queue whose held positions are exactly those of the segment plus the surviving old ones; without memory nothing changes. |
| `Receiver.AnnounceNeverShrinks` | lwip/src/core/tcp.c:703-727 | Whatever tcp_update_rcv_ann_wnd decides, the announced right edge does not move left and does not pass rcv_nxt + rcv_wnd; what it decides and what it returns is stated in positions, through all 32-bit comparisons. |
| `Receiver.TakenKeeps` | lwip/src/core/tcp_in.c:1353-1643 | What a segment offers, and what was passed on or queued before and is not behind a trimmed segment, is afterwards passed on or queued. |
| `Receiver.PassedOnPositions` | lwip/src/core/tcp_in.c:1358-1511 | An in-sequence segment, position by position: afterwards exactly the positions of the segment inside the window and those of the queue are passed on or queued, at least one is passed on, and the new rcv_nxt is not queued. |
| `Receiver.NextStateFacts` | lwip/src/core/tcp_in.c:874-935 | A state is four facts, our FIN sent and acknowledged, the peer's received, who closed first, and the next state is the one whose facts grow by exactly the FIN received and, for the side that closed first, the ACK of its FIN. |
| `Receiver.RecvPcb.constructor` | lwip/src/core/tcp.c:1547-1551 | A synchronised connection satisfies the whole receive invariant. |
| `Receiver.RecvPcb.UpdateAnnouncedWindow` | lwip/src/core/tcp.c:703-727 | rcv_ann_wnd is rcv_wnd when the gain is at least min(TCP_WND / 2, mss), and otherwise what keeps the announced edge; it never exceeds rcv_wnd. |
| `Receiver.RecvPcb.Drain` | lwip/src/core/tcp_in.c:1470-1506 | The drain loop passes on exactly the stream from rcv_nxt to the first position the queue does not hold, the queue keeps what lies above, and the window to announce stays the right one. |
| `Receiver.RecvPcb.MergeInSequence` | lwip/src/core/tcp_in.c:1364-1434 | Cutting an in-sequence segment at the window edge and merging it with the queue keeps every position of both. |
| `Receiver.RecvPcb.InSequence` | lwip/src/core/tcp_in.c:1358-1511 | After an in-sequence segment rcv_nxt is the first gap of segment and queue together, the text passed on is the stream up to there, and the window to announce is the whole one or what keeps the announced edge. |
| `Receiver.RecvPcb.SendEmptyAck` | lwip/src/core/tcp_out.c:881-946 | With memory for a header an ACK announces exactly rcv_nxt + rcv_ann_wnd, without it nothing changes; the announced edge never moves left. |
| `Receiver.RecvPcb.TrimFirstEdge` | lwip/src/core/tcp_in.c:1293-1342 | Under the code's assertion on the distance, the segment from rcv_nxt on, when it reaches below rcv_nxt. |
| `FirstEdge.EmptiedChain` | lwip/src/core/tcp_in.c:1318-1329 | Emptied pbufs add nothing to a packet, and keep it a chain exactly as long as their common total is right. |
| `FirstEdge.TrimFront` | lwip/src/core/tcp_in.c:1314-1338 | The trim on the pbuf chain of the segment, with the 16-bit parameter of pbuf_header: it leaves exactly the rest of the data, in a proper chain, if and only if it cuts at most 0x8000 bytes of the pbuf it ends in. |
| `FirstEdge.AssertedOffset` | lwip/src/core/tcp_in.c:1317 | The code's assertion is enough for that, however the data is spread over pbufs. |
| `FirstEdge.NothingCut` | lwip/src/core/tcp_in.c:1334-1338 | 50000 bytes in one pbuf of which 40000 are to be cut: pbuf_header refuses and nothing is cut. |
| `Receiver.RecvPcb.Place` | lwip/src/core/tcp_in.c:1353-1358 | The two wire tests put a segment into the class its positions prescribe. |
| `Receiver.RecvPcb.OutOfOrder` | lwip/src/core/tcp_in.c:1520-1643 | A segment ahead of rcv_nxt is stored and, with memory, acknowledged at once; queue and announcement stay sound. |
| `Receiver.RecvPcb.Receive` | lwip/src/core/tcp_in.c:1262-1674 | For every segment cut from the stream, in any order, with any overlap the code's assertion admits: rcv_nxt becomes the first gap, the text is the stream between old and new rcv_nxt, the FIN is reported exactly when passed, the queue stays sorted, disjoint and strictly above rcv_nxt. The edge is announced at once exactly for segments of which nothing is passed on, if there is memory. |
| `Receiver.RecvPcb.KeptIsPassedOn` | lwip/src/core/tcp_in.c:1358-1511 | Delivery: everything that has arrived without a gap, and was not forgotten by trimming the queue, lies below rcv_nxt. |
| `Receiver.RecvPcb.DropQueue` | lwip/src/core/tcp.c:1066-1074 | Dropping the out-of-sequence queue of an idle connection keeps reassembly; exactly what was queued is forgotten. |
| `Receiver.RecvPcb.ProcessRefused` | lwip/src/core/tcp.c:1246-1303 | Offering refused data again keeps reassembly and window conservation; the end of stream follows only accepted data. |
| `Receiver.RecvPcb.RetryRefused` | lwip/src/core/tcp_in.c:355-366 | The same at the beginning of tcp_input, with or without refused data. |
| `Receiver.RecvPcb.StateAfterReceive` | lwip/src/core/tcp_in.c:874-935 | The next state is that of the RFC 793 diagram; LAST_ACK ends exactly when our FIN is acknowledged; entering TIME_WAIT, and nothing else here, frees refused data and the queue. |
| `Receiver.RecvPcb.Process` | lwip/src/core/tcp_in.c:874-935 | tcp_receive and the state change together: the stream between old and new rcv_nxt, receiving exactly while rcv_nxt has not passed the FIN, refused data freed exactly on entering TIME_WAIT. |
| `Receiver.RecvPcb.ProcessKept` | lwip/src/core/tcp_in.c:874-935 | The account of what has arrived and was kept stays right through tcp_process. |
| `Receiver.RecvPcb.HandOff` | lwip/src/core/tcp_in.c:422-485 | New text is accepted or becomes refused data; the end of stream is signalled at once or waits behind refused data; data after a close aborts. |
| `Receiver.RecvPcb.Offer` | lwip/src/core/tcp_in.c:422-485 | The hand-off completes reassembly if and only if tcp_process freed no refused data, and window conservation with it. |
| `Receiver.RecvPcb.ProcessAndHandOff` | lwip/src/core/tcp_in.c:355-485 | Behind refused data: the connection survives unless LAST_ACK ends or data arrives after a close; reassembly then holds if and only if the move from CLOSING to TIME_WAIT did not free refused data. |
| `Receiver.RecvPcb.InputActive` | lwip/src/core/tcp_in.c:355-485 | The same with the refused data before it and the ACK at the end, outside TIME_WAIT. |
| `Receiver.RecvPcb.Input` | lwip/src/core/tcp_in.c:355-496 | tcp_input, for every segment and in every state, under the code's assertion on the first edge: the exact condition under which the connection survives; what segment and queue become; reassembly holds afterwards if and only if the ACK of our FIN did not free refused data. For a peer inside the window also conservation, announcement and queue bounds, at most a window passed on at once, and the code's assertions on rcv_wnd. What the application has got and what it refuses is stated exactly, for bare ACKs too; so are the announced edge and, for a peer inside the window, the window to announce. |
| `Receiver.RecvPcb.Recved` | lwip/src/core/tcp.c:738-771 | An honest report keeps window conservation if and only if it is not an empty report at window zero in CLOSE_WAIT or LAST_ACK, and fails the code's assertion if and only if it is one in another state. Afterwards the window to announce is all of rcv_wnd if that adds at least min(TCP_WND / 2, mss) to the announced edge, otherwise what keeps that edge; it is announced exactly if that gain reaches the threshold and there is memory. |
| `Receiver.RecvPcb.CloseShutdown` | lwip/src/core/tcp.c:258-345 | A RST is sent, and the connection purged and ended, exactly when asked for in ESTABLISHED or CLOSE_WAIT with data refused or unread; from ESTABLISHED it stays in TIME_WAIT. Otherwise the state moves on exactly if the FIN could be queued. |
| `Receiver.RecvPcb.Close` | lwip/src/core/tcp.c:379-390 | From ESTABLISHED or CLOSE_WAIT a RST is sent exactly when received data has not been reported as read; otherwise reassembly goes on. |
| `Receiver.RecvPcb.Shutdown` | lwip/src/core/tcp.c:406-440 | Reassembly survives tcp_shutdown if and only if it does not shut down the receive side alone while data is refused; only shutting down both sides can send a RST. |
| `Receiver.Happen` | lwip/src/core/tcp_in.c:355-496 | One event of any kind keeps every receive invariant and never moves the announced edge left. |
| `Receiver.Run` | lwip/src/core/tcp_in.c:355-496 | Over every run of arrivals, reports, retries, announcements, dropped queues, closes and shutdowns: delivered plus refused bytes are the stream prefix up to rcv_nxt, rcv_nxt is beyond everything that arrived without a gap and was not forgotten, end of stream only after all of it, the window is conserved and never shrinks. |
| `Receiver.LostInTimeWait` | lwip/src/core/tcp_in.c:915-924 | A run with only the send side shut down in which entering TIME_WAIT frees the peer's last byte and its end of stream, both refused before. |
| `Receiver.LostInLastAck` | lwip/src/core/tcp_in.c:404-415 | The same in LAST_ACK: the connection is freed with the undelivered byte. |
| `Receiver.FarBelow` | lwip/src/core/tcp_in.c:1314-1317 | A run with a peer inside the window that ends with a segment on which the code's assertion fails. |
| `Receiver.ReceiveUncut` | lwip/src/core/tcp_in.c:1334-1340 | With assertions compiled out, every in-sequence segment whose first edge could not be cut breaks reassembly: the application gets bytes again that it already has. |
| `Receiver.BytesGivenTwice` | lwip/src/core/tcp_in.c:1314-1340 | The run, the failing cut and the delivery together: 90000 bytes for 50000 positions. |
| `Receiver.ReportingNothing` | lwip/src/core/tcp.c:752-758 | A reachable connection in which tcp_recved(0) resets the window and breaks conservation. |
| `SendQueues.TiledLength` | lwip/src/core/tcp_out.c:702-707 | Queues that tile the sequence space hold as many bytes as the interval is long, less one for a FIN. |
| `SendQueues.TiledMove` | lwip/src/core/tcp_out.c:1084-1112 | Moving any segment of one queue to its sorted place in the other keeps the tiling and all totals. |
| `SendQueues.FindSlot` | lwip/src/core/tcp_out.c:1397-1404 | The wire comparisons find the sorted place. |
| `SendQueues.TiledConcat` | lwip/src/core/tcp_out.c:1352-1365 | Concatenating the queues gives a sorted tiling if and only if all unacked segments precede all unsent ones. |
| `SendQueues.FreeAcked` | lwip/src/core/tcp_in.c:1146-1222 | The loops free exactly the fully covered segments and count their bytes and pbufs. |
| `SendQueues.LayoutTransmit` | lwip/src/core/tcp_out.c:1060-1114 | Sending any unsent segment keeps the partition. |
| `SendQueues.LayoutRetransmit` | lwip/src/core/tcp_out.c:1384-1422 | Taking the first unacked segment back keeps the partition. |
| `SendQueues.LayoutAck` | lwip/src/core/tcp_in.c:1100-1224 | An acknowledgement leaves a partition that begins at the first segment not fully covered. |
| `SendQueues.LayoutRequeue` | lwip/src/core/tcp_out.c:1344-1370 | Requeueing keeps the invariant if and only if unacked precedes unsent. |
| `SendQueues.Merged` | lwip/src/core/tcp_out.c:1344-1370 | The segments of two queues that form a partition have an order in which they form one queue. |
| `SendQueues.OneOrder` | lwip/src/core/tcp_out.c:1344-1370 | They have only one. |
| `SendQueues.LayoutFin` | lwip/src/core/tcp_out.c:139-156 | Piggybacking a FIN keeps the partition if and only if the last unsent segment is the topmost one. |
| `SendQueues.AllAcknowledged` | lwip/src/core/tcp_in.c:892-899 | When everything is acknowledged both queues are empty. |
| `SendQueues.NothingUnsent` | lwip/src/core/tcp_in.c:892-899 | With nothing unsent, snd_nxt is the end of everything queued, the FIN included. |
| `Segmentation.MssLocalShrinks` | lwip/src/core/tcp_out.c:387-388 | The segment limit shrinks as windows grow if and only if the first window of at least two follows a smaller one. |
| `Segmentation.MssLocalIsLargest` | lwip/src/core/tcp_out.c:387-388 | The limit is the largest that mss and half the largest window allow, and mss as long as no window of two was announced. |
| `Segmentation.Prealloc` | lwip/src/core/tcp_out.c:233-277 | It fails exactly without memory. If more data is likely, there is room for TCP_OVERSIZE bytes more, rounded up to the alignment, or up to the segment limit; otherwise none. |
| `Segmentation.ExtendLast` | lwip/src/core/tcp_out.c:440-540 | As much of the data as the last segment has room for goes there: first into the spare room, and exactly if that is too small into one chained pbuf, which is the only thing that can fail; the spare room left fits the segment. |
| `Segmentation.PiecesTotals` | lwip/src/core/tcp_out.c:541-638 | The rest of the data is exactly the payload of the new segments, all but the last are as large as allowed and none is larger, and all lie beyond what was written before. |
| `Segmentation.PiecesTiled` | lwip/src/core/tcp_out.c:541-638 | Behind queues that end where the data was cut, the new segments continue the tiling of the sequence space to the end of the data. |
| `Segmentation.NewSegment` | lwip/src/core/tcp_out.c:542-605 | One segment is built exactly if there is memory for its pbufs and itself and the queue does not get too long. |
| `Segmentation.NewSegments` | lwip/src/core/tcp_out.c:541-638 | The loop yields exactly the cut into largest segments, counts its pbufs, and cannot fail with enough memory and queue space. |
| `Segmentation.WrittenInOrder` | lwip/src/core/tcp_out.c:641-707 | Data that belongs behind the last unsent segment leaves the queues a partition of the longer sequence space. |
| `Segmentation.WrittenOverlaps` | lwip/src/core/tcp_out.c:641-707 | Data added to a segment that is not the topmost one overlaps what is queued behind it. |
| `Segmentation.WrittenLayout` | lwip/src/core/tcp_out.c:641-707 | The queues after a write are a partition if and only if the write was appendable: the last unsent segment is topmost or full, or there is nothing to write. |
| `Segmentation.WrittenTotals` | lwip/src/core/tcp_out.c:641-707 | Payload, byte and pbuf totals grow by exactly what was written. |
| `Sender.SendPcb.constructor` | lwip/src/core/tcp.c:1540-1560 | A connection with nothing queued, whatever window the peer's SYN announced, satisfies the queue invariant and the segment limit. |
| `Sender.SendPcb.InsideWindow` | lwip/src/core/tcp_out.c:1037-1038 | The unsigned window test on wire numbers is the test on positions. |
| `Sender.SendPcb.TransmitFirst` | lwip/src/core/tcp_out.c:1060-1114 | One transmitted segment, and no other, moves, sorted, to unacked, also from an unsent queue that is out of order; snd_nxt becomes the larger of its old value and the segment end. |
| `Sender.SendPcb.MayGo` | lwip/src/core/tcp_out.c:1037-1051 | The tests before a segment is sent pass exactly if it ends inside the window and is not a last segment held back for Nagle's algorithm. |
| `Sender.SendPcb.Output` | lwip/src/core/tcp_out.c:957-1124 | During input processing, without a route, or when only an ACK can go, nothing moves. Otherwise the segments that leave are a front of the unsent queue, all inside the usable window, no more than IP accepts. It ends at a segment beyond the window, at a last segment that is short of mss while other data is unacknowledged (unless there is no delay, fast recovery, a refusal before, a FIN, no send buffer or a full queue), or with a refusal by IP, which is remembered, and it ends with a refusal if and only if the next segment could go. No segment is lost or doubled, snd_nxt is the furthest end sent; the invariant is kept, also on an unsent queue that is out of order. |
| `Sender.SendPcb.SendAll` | lwip/src/core/tcp_out.c:1036-1124 | The loop of tcp_output: the same for its body, with the number of segments IP accepts as parameter. |
| `Sender.SendPcb.Rexmit` | lwip/src/core/tcp_out.c:1384-1422 | The first unacked segment goes back to its sorted place in unsent; nothing is lost or doubled. |
| `Sender.SendPcb.RexmitFast` | lwip/src/core/tcp_out.c:1431-1465 | Outside fast recovery exactly the first unacked segment goes back to unsent and recovery begins; otherwise nothing changes. |
| `Sender.SendPcb.Requeue` | lwip/src/core/tcp_out.c:1344-1370 | The requeueing keeps the invariant if and only if unacked precedes unsent; no segment is lost. |
| `Sender.SendPcb.InOrderIsValid` | lwip/src/core/tcp_out.c:1344-1376 | A partition whose unsent segments may be out of order is the invariant if and only if they are in order. |
| `Sender.SendPcb.RexmitRto` | lwip/src/core/tcp_out.c:1344-1376 | A retransmission timeout, in every state: everything unacknowledged is put in front and, of that queue, exactly what tcp_output sends is sent, no segment is lost; afterwards the invariant holds if and only if what is left unsent is in order, which it always is if unacked preceded unsent or everything was sent. |
| `Sender.SendPcb.ZeroWindowProbe` | lwip/src/core/tcp_out.c:1531-1615 | A window probe moves snd_nxt exactly past the first position of the oldest segment, if it was not beyond, and keeps the invariant; without memory it changes nothing and says so. |
| `Sender.SendPcb.UpdateWindow` | lwip/src/core/tcp_in.c:1014-1024 | A window update keeps the invariant, for every window. It keeps the segment limit if and only if it is not the first window of at least two and too small for what is queued. |
| `Sender.SendPcb.AcksNewData` | lwip/src/core/tcp_in.c:1068-1100 | The wire tests accept exactly the acknowledgements above lastack up to snd_nxt. |
| `Sender.SendPcb.FreeQueues` | lwip/src/core/tcp_in.c:1146-1222 | The two loops free exactly the segments the highest acknowledgement covers, in unacked and in unsent, an old acknowledgement none. |
| `Sender.SendPcb.Ack` | lwip/src/core/tcp_in.c:1100-1224 | Exactly the segments covered by the highest acknowledgement leave both queues, counters follow, and fast recovery ends exactly with an acknowledgement of new data. |
| `Sender.SendPcb.WriteChecks` | lwip/src/core/tcp_out.c:307-348 | A write is rejected exactly by state, send buffer and queue length. |
| `Sender.SendPcb.Write` | lwip/src/core/tcp_out.c:368-738 | tcp_write is atomic: on ERR_OK the data is appended, to the last segment and then in largest segments, with payload, room and counters right, and the partition is kept if and only if the write was appendable; on error nothing queued has changed, and with enough memory and queue space there is none. Required are only the code's own assertions. |
| `Sender.SendPcb.SendFin` | lwip/src/core/tcp_out.c:139-156 | A FIN is queued if and only if there is an unsent segment or memory for a new one; without, only the memory error is noted. The partition is kept if and only if the last unsent segment was topmost. |
| `Sender.SendPcb.Close` | lwip/src/core/tcp.c:323-344 | Closing queues the FIN and moves to FIN_WAIT_1 or LAST_ACK, or fails for lack of memory and leaves queues and state alone; the exact condition under which the partition is kept. |
| `Sender.SendPcb.AcksEverything` | lwip/src/core/tcp_in.c:892-899 | The test ackno == snd_nxt with nothing unsent, after tcp_receive, is true exactly when the FIN, too, is acknowledged by this ACK. |
| `Sender.SendPcb.Process` | lwip/src/core/tcp_in.c:883-931 | FIN_WAIT_2, TIME_WAIT and the end of LAST_ACK are entered only when our FIN is acknowledged, and in the latter two both queues are empty; the next state is determined by the peer's FIN and by whether this ACK covers ours. |
| `Sender.AssertionsHold` | lwip/src/core/tcp_out.c:450-482 | The assertions of tcp_write hold for every length to be written if and only if the last unsent segment with its room is within the segment limit. |
| `Sender.ShrinkingLimit` | lwip/src/core/tcp_out.c:387-451 | A run in which the first window of at least two is too small for a queued segment, so that the next write fails its assertion. |
| `Sender.Waiting` | lwip/src/core/tcp_out.c:1384-1422 | Two writes, two outputs and a third duplicate ACK lead to queues in which the first segment waits, unsent, for its retransmission while the second is unacked. |
| `Sender.WrittenWhileWaiting` | lwip/src/core/tcp_out.c:440-540 | A write then goes behind the waiting segment and destroys the order. |
| `Sender.ClosedWhileWaiting` | lwip/src/core/tcp_out.c:139-156 | A close then puts the FIN before the end of the data. |
| `Sender.TimedOutWhileWaiting` | lwip/src/core/tcp_out.c:1353-1365 | A timeout then puts the second segment before the first. |
| `Sender.Happen` | lwip/src/core/tcp_out.c:957-1124 | One event of any kind keeps the queue invariant and, once the peer has announced a window of two, the segment limit; lastack and snd_nxt never move back. |
| `Sender.Run` | lwip/src/core/tcp_in.c:883-931 | Over every run of writes, closes, output, ACKs, window changes, both retransmissions and probes, for every window: the queues partition the sequence space, the segment limit holds once a window of two was announced, and FIN_WAIT_2 and TIME_WAIT imply an acknowledged FIN. |
| `HeapBlocks.LiveDisjoint` | lwip/src/core/mem.c:599-738 | The data areas of different used blocks are disjoint. |
| `HeapBlocks.LiveNotHeader` | lwip/src/core/mem.c:599-738 | No live byte lies in a block header, so header writes spare user data. |
| `HeapBlocks.PlugForward` | lwip/src/core/mem.c:340-372 | After joining with the next block, only the previous one can still be a free neighbour. |
| `Heap.MemHeap.constructor` | lwip/src/core/mem.c:378-406 | One free block and the sentinel satisfy the heap invariant. |
| `Heap.MemHeap.Store` | lwip/src/core/mem.c:599-738 | A user writing into its own memory destroys no header. |
| `Heap.MemHeap.PlugHoles` | lwip/src/core/mem.c:340-372 | Joining with free neighbours restores: no two adjacent free blocks, links inverse, live bytes untouched, lfree lowest. |
| `Heap.MemHeap.Free` | lwip/src/core/mem.c:415-461 | mem_free keeps the heap invariant, frees exactly that block, with the used counter, and alters no live byte; pointers outside the heap are ignored. |
| `Heap.MemHeap.FindFit` | lwip/src/core/mem.c:634-655 | The scan from lfree with its early stop finds the lowest block with room, or none exists. |
| `Heap.MemHeap.ScanFree` | lwip/src/core/mem.c:699-717 | lfree moves to the next free block or to the sentinel. |
| `Heap.MemHeap.Take` | lwip/src/core/mem.c:653-697 | The block is split exactly when the rest can hold a block: what is given out has less than a header and a smallest block more than needed, the rest of the old block is one free block, and the used counter follows. |
| `Heap.MemHeap.Malloc` | lwip/src/core/mem.c:599-738 | mem_malloc returns NULL exactly when no free block has room for the rounded size, otherwise the lowest one that has; it gives out less than a header and a smallest block more than the rounded size and leaves the rest of that block free; the address is aligned, the invariant is kept and no live byte changes. |
| `Heap.MemHeap.Shrink` | lwip/src/core/mem.c:514-588 | The cut-off part joins the free block behind or becomes a block, and the used counter follows. |
| `Heap.MemHeap.Trim` | lwip/src/core/mem.c:474-588 | mem_trim keeps the invariant, keeps the first bytes of the block and all other live bytes, and refuses exactly requests larger than the block. The block ends with exactly the rounded size, unless what is behind it is used and the rest too small for a block; the used counter follows. |
| `Heap.NeedCovers` | lwip/src/core/mem.c:612-624 | Rounding covers the request if and only if it does not wrap around in mem_size_t. |
| `Heap.NoFitAbove` | lwip/src/core/mem.c:634-639 | Stopping the scan early misses no block with room. |
| `Heap.GivenLive` | lwip/src/core/mem.c:653-697 | A block given out has room for the request, none of its bytes was live, and all live bytes stay live. |
| `Heap.GivenTight` | lwip/src/core/mem.c:653-681 | What is given out exceeds the need by less than a header and a smallest block; what it does not take is one free block up to the old end. |
| `Heap.TrimmedLive` | lwip/src/core/mem.c:514-588 | Trimming ends the life of the cut-off bytes and of no other. |
| `Heap.TrimmedTight` | lwip/src/core/mem.c:514-582 | Trimming leaves exactly what is needed, unless the block behind is used and the rest too small for a block; what is cut off is one free block, joined with a free one behind. |
| `Heap.FreedLive` | lwip/src/core/mem.c:415-461 | Freeing ends the life of the bytes of that block and of no other. |
| `Heap.MallocThenFree` | lwip/src/core/mem.c:415-461 | Freeing what was just allocated restores the list of blocks. |
| `Heap.LargestRequest` | lwip/src/core/mem.c:612-620 | With 16-bit sizes a request of 65535 bytes is rounded to zero and gets the smallest block. |
| `HeapClient.GivenKeeps` | lwip/src/core/mem.c:653-697 | Giving out a block moves and resizes no other block. |
| `HeapClient.TrimmedKeeps` | lwip/src/core/mem.c:514-588 | Trimming a block moves and resizes no other used block. |
| `HeapClient.FreedKeeps` | lwip/src/core/mem.c:415-461 | Freeing a block, with all joining, moves and resizes no other used block. |
| `HeapClient.GivenCount` | lwip/src/core/mem.c:653-697 | Allocating makes exactly one more block used. |
| `HeapClient.FreedCount` | lwip/src/core/mem.c:415-461 | Freeing, with all joining, makes exactly one block less used. |
| `HeapClient.OwnedApart` | lwip/src/core/mem.c:599-738 | Areas at different addresses do not overlap. |
| `HeapClient.NeedWithin` | lwip/src/core/mem.c:474-500 | A size that fits a block still fits it when rounded up. |
| `HeapClient.Client.Alloc` | lwip/src/core/mem.c:599-738 | mem_malloc succeeds exactly for a positive size for which some block is large enough, and adds an area of the requested size, or of the smallest size if rounding up wraps around; every other area still holds what its owner wrote. The used size grows by the rounded size and a header, and by less than a header and a smallest block more. |
| `HeapClient.Client.Get` | lwip/src/core/mem.c:599-738 | Reading an area returns what its owner last wrote there. |
| `HeapClient.Client.Put` | lwip/src/core/mem.c:599-738 | Writing one byte of an area changes that byte and no other area. |
| `HeapClient.Client.Release` | lwip/src/core/mem.c:415-461 | mem_free removes the one area, and at least its size and a header leave the used size; all other areas hold what they held. |
| `HeapClient.Client.TrimTo` | lwip/src/core/mem.c:474-588 | mem_trim never fails for a size the area has; it keeps the first bytes of the area and all of the others, or changes nothing. |
| `HeapClient.Client.NothingLeaks` | lwip/src/core/mem.c:340-738 | When every area has been freed, in whatever order and whatever was trimmed, the heap is one free block again, as mem_init left it. |
| `HeapClient.Run` | lwip/src/core/mem.c:340-738 | Over every run of mem_malloc, mem_free, mem_trim and writes the heap invariant holds, every area holds what its owner wrote, and when no area is left the heap is one free block. |
| `Select.LinkKeeps` | lwip/src/api/sockets.c:1389-1402 | Putting a call on the list keeps the protocol invariant. |
| `Select.CountingKeeps` | lwip/src/api/sockets.c:1404-1472 | Counting a call into select_waiting and out again keeps the invariant. |
| `Select.PhaseKeeps` | lwip/src/api/sockets.c:1427-1447 | The second scan, which also counts data left behind by a receive call as readable, and going to sleep keep the invariant: a socket scanned as not ready is covered from then on, and a call sleeps only when every socket it watches was. |
| `Select.UnlinkKeeps` | lwip/src/api/sockets.c:1473-1488 | Taking a call off the list keeps the invariant: every walk then restarts. |
| `Select.RaiseCovers` | lwip/src/api/sockets.c:1576-1638 | The walk that an event starts will test every call the event makes ready. |
| `Select.RaiseKeeps` | lwip/src/api/sockets.c:1576-1638 | An event and its first test keep the invariant. |
| `Select.AdvanceCovers` | lwip/src/api/sockets.c:1608-1650 | A walk that goes on or restarts because the list changed still covers what it had yet to test. |
| `Select.AdvanceKeeps` | lwip/src/api/sockets.c:1608-1650 | Going on, restarting and finishing a walk keep the invariant. |
| `Select.EveryRun` | lwip/src/api/sockets.c:1389-1488 | In every interleaving of select calls and event callbacks: no wake-up is lost, a sleeping call has found every socket it watches not ready, no walk stands on an entry that left the current list, no semaphore is signalled twice. |
| `Select.WaitersAreWoken` | lwip/src/api/sockets.c:1576-1650 | With all callbacks finished, a sleeping call for which any socket has data to read, room to write or an error it asked for has been signalled exactly once. |
| `Select.EventWakes` | lwip/src/api/sockets.c:1540-1651 | An event that a sleeping call asked for: its callback comes to its end, through every restart, and then the call has been signalled exactly once. |
| `Select.WalkEnds` | lwip/src/api/sockets.c:1608-1650 | Every callback comes to its end when it is left alone, and then all others are where they were. |
| `Select.SleepsIffIdle` | lwip/src/api/sockets.c:1427-1447 | A call whose scan is not disturbed goes to sleep if and only if no socket it watches has data, room or an error it asked for, nor data left behind by a receive call. |
| `Select.SignalledForAReason` | lwip/src/api/sockets.c:1608-1638 | A semaphore is signalled only by a callback, for a socket that has data, room or an error the call asked for. |
| `Select.ChangesAreTold` | lwip/src/api/sockets.c:1389-1402 | The counter of changes grows exactly when the list changes. |
| `Select.EventsAddUp` | lwip/src/api/sockets.c:1576-1604 | Over every sequence of events the receive counter grows by the arrivals and shrinks by the reads, an error stays, and room is as an event on it says and stays as it is without one. |
| `Select.Initially` | lwip/src/api/sockets.c:1335-1389 | Idle sockets and an empty list satisfy the invariant. |
| `Checksum.SumOdd` | lwip/src/core/inet_chksum.c:260-295 | Behind an odd number of bytes the words are read the other way round: the byte swap of a chain sum is right. |
| `Checksum.SumSwapped` | lwip/src/core/inet_chksum.c:168-171 | Reading all words swapped multiplies the one's complement sum by 256. |
| `Checksum.FoldTwice` | lwip/src/core/inet_chksum.c:163-166 | Two folds reduce every 32-bit sum to its representative. |
| `Checksum.AddCarryCanon` | lwip/src/core/inet_chksum.c:214-225 | A 32-bit addition with the carry added back is addition in one's complement. |
| `Checksum.Chksum1` | lwip/src/core/inet_chksum.c:81-115 | Version 1 returns the reference sum of the buffer in either byte order. |
| `Checksum.Chksum2` | lwip/src/core/inet_chksum.c:134-174 | Version 2 returns the same reference sum at every start alignment. |
| `Checksum.Chksum3` | lwip/src/core/inet_chksum.c:190-256 | Version 3 returns the same reference sum at every start alignment, with no overflow beyond the carries it counts. |
| `Checksum.AddPbuf` | lwip/src/core/inet_chksum.c:266-283 | One pbuf of any length, odd or empty, is added to the accumulator. |
| `Checksum.ChainSum` | lwip/src/core/inet_chksum.c:566-590 | The sum over a chain is that of the flat bytes, for every splitting. |
| `Checksum.PartialSum` | lwip/src/core/inet_chksum.c:399-441 | The sum over a chain is that of its first bytes, for every splitting. |
| `Checksum.ChksumPseudo` | lwip/src/core/inet_chksum.c:260-328 | The pseudo-header checksum of a chain equals that of the flat bytes (sections 1 and 2 of RFC 1071). |
| `Checksum.ChksumPseudoPartial` | lwip/src/core/inet_chksum.c:399-474 | The partial form equals the checksum of pseudo header and first chksum_len bytes. |
| `Checksum.ChksumPbuf` | lwip/src/core/inet_chksum.c:568-590 | The plain chain checksum equals that of the flat bytes. |
| `Checksum.CarriesItsChecksum` | lwip/src/core/tcp_in.c:146-148 | A packet with a checksum in its field verifies to zero if and only if the field holds the checksum computed over the packet with a zero field, up to the two forms of zero. |
| `Timeouts.AlarmsSorted` | lwip/src/core/timeouts.c:236-262 | A delta list is always sorted by deadline. |
| `Timeouts.AlarmsDetermine` | lwip/src/core/timeouts.c:236-262 | Two delta lists with the same alarms are the same list. |
| `Timeouts.ScheduledMeaning` | lwip/src/core/timeouts.c:236-262 | Scheduling puts an alarm behind all that are due no later and before all that are due later. |
| `Timeouts.FindPlace` | lwip/src/core/timeouts.c:245-249 | The walk stops at the sorted place with the remaining distance, through 32-bit wrap-around. |
| `Timeouts.LinkBehind` | lwip/src/core/timeouts.c:243-260 | Insertion behind the head moves no other deadline, exact or not, and enters the new one, whose deadline is stated, before those that are due later; it is the one asked for if and only if `Exact` holds. |
| `Timeouts.InFrontAlarms` | lwip/src/core/timeouts.c:238-242 | Insertion before the head moves all other deadlines by the difference between stored distance and delay. |
| `Timeouts.InFrontIsScheduled` | lwip/src/core/timeouts.c:238-242 | It gives the schedule with the new alarm if and only if no time has passed since the last check. |
| `Timeouts.UnlinkedAlarms` | lwip/src/core/timeouts.c:279-295 | Removing an entry moves no other deadline if and only if the joined distance fits 32 bits. |
| `Timeouts.UnlinkedDue` | lwip/src/core/timeouts.c:279-295 | What removing an entry makes of all deadlines, whether the joined distance fits or not. |
| `Timeouts.HeadInsertionDelays` | lwip/src/core/timeouts.c:238-242 | A new head delays the timer behind it by the time since the last check. |
| `Timeouts.CancellingWraps` | lwip/src/core/timeouts.c:279-295 | A run in which two timeouts are entered exactly and cancelling the first moves the second from 2^32 + 9 ms to 9 ms. |
| `Timeouts.TimerList.Timeout` | lwip/src/core/timeouts.c:203-262 | sys_timeout adds exactly the alarm asked for and keeps all others, their order and the order of ties, if and only if `Exact` holds. In every other case too no alarm is lost, and which deadlines move, and by how much, is stated (`Done`): in front of the head all, behind it none; with an empty pool nothing changes. |
| `Timeouts.TimerList.Untimeout` | lwip/src/core/timeouts.c:272-299 | sys_untimeout removes the first matching alarm and keeps the deadlines of all others, if and only if the joined distance fits 32 bits; otherwise those behind it move back by exactly 2^32 ms. |
| `Timeouts.TimerList.Handle` | lwip/src/core/timeouts.c:313-365 | What a handler does is its actions, one after the other, each with the effect stated for it; the number of timers follows what was set and cancelled; the time the list counts from moves exactly if a timeout is set when there is none. |
| `Timeouts.TimerList.FireAndHandle` | lwip/src/core/timeouts.c:334-362 | One turn of the loop: the first timer is called once and gone, and its handler has done all its actions. |
| `Timeouts.TimerList.FireAll` | lwip/src/core/timeouts.c:334-362 | With handlers that leave the list alone, the loop calls, in the order of their deadlines, exactly the timers due within the time to account for; the others keep their deadlines. |
| `Timeouts.TimerList.Check` | lwip/src/core/timeouts.c:313-365 | With handlers that set and cancel any timeouts: timers are called in the order of their deadlines; as long as no handler restarts the empty list while the check is late, only timers that are due, until all others are later; after a restart, of the list the handler leaves behind, exactly the timers due up to that lateness too early. No timer is lost or invented: those called and those left are those set before and by the handlers called, less at most those cancelled. |
| `Timeouts.TimerList.SleepTime` | lwip/src/core/timeouts.c:380-393 | The time left until the first deadline, zero when it has passed, 0xffffffff when none is set. |
| `Timeouts.SetAgain` | lwip/src/core/timeouts.c:313-365 | The smallest such case: when the handler of the only timer sets it again, it goes off again in the same check, before it is due, if and only if the new delay is at most the time by which the check is late. |
| `Rto.AfterBounded` | lwip/src/core/tcp_in.c:1233-1255 | For every sequence of round trips of 0 to M ticks: sa stays in [0, 8M+7] and sv in [3, 4M+3]. |
| `Rto.BackoffFits` | lwip/src/core/tcp.c:1003-1005 | For M up to 50 the base timeout stays in [3, 5M+3] and no tcp_backoff shift overflows a signed 16-bit rto. |
| `Rto.BackoffFactors` | lwip/src/core/tcp.c:107-108 | The back-off starts at a factor of two and doubles with every retransmission up to 128, for all retransmissions allowed. |
| `Rto.LongTripsOverflow` | lwip/src/core/tcp.c:1003-1005 | Three round trips of a minute make the shifted timeout negative. |
| `Rto.Converges` | lwip/src/core/tcp_in.c:1233-1255 | Steady round trips of m ticks end in a base timeout of m + 3 ticks, from every bounded state. |
| `Rto.ShortTripsFit` | lwip/src/core/tcp_in.c:1233-1255 | For round trips of up to 4095 ticks the next estimate and its timeout always fit 16 bits. |
| `Rto.LongTripsDoNotFit` | lwip/src/core/tcp_in.c:1233-1255 | For every round trip of more than 4095 ticks: if it goes on, the smoothed value outgrows its 16-bit field. |
| `Rto.StoresLose` | lwip/src/core/tcp_in.c:1233-1255 | Of all 16-bit stores of a measurement only the last two can lose something, and exactly when the new estimate does not fit. |
| `Rto.RttEstimator.constructor` | lwip/src/core/tcp.c:1553-1554 | The initial values are the start of the unbounded estimator. |
| `Rto.RttEstimator.Measure` | lwip/src/core/tcp_in.c:1233-1255 | The 16-bit fields hold what the unbounded estimator makes of all round trips so far if and only if the new estimate fits them, which it always does for round trips of up to 4095 ticks; the same for the timeout. |
| `Rto.RttEstimator.BackOff` | lwip/src/core/tcp.c:1003-1005 | The stored rto is the shifted base timeout cut to 16 bits, and the shifted base timeout itself if and only if that fits. |
| `NetconnWrite.Chunk` | lwip/src/api/api_msg.c:1537-1555 | A round tries no more than is left, fits the send buffer and fits 16 bits, and something whenever there is room. |
| `NetconnWrite.Netconn.TryWrite` | lwip/src/api/api_msg.c:1537-1577 | The next bytes in order are handed to tcp_write; a nonblocking write that cannot take all is marked for a later writable event. |
| `NetconnWrite.Netconn.Finish` | lwip/src/api/api_msg.c:1612-1630 | The write is on record with what it handed over, the caller is woken, the connection is idle. |
| `NetconnWrite.Netconn.WriteMore` | lwip/src/api/api_msg.c:1496-1635 | A round hands over the next bytes exactly once. The write goes on if and only if it is blocking, tcp_output reports nothing fatal, and memory ran out or data is left; otherwise it ends with the answer and the length stated, and the answer is truthful. |
| `NetconnWrite.Netconn.Write` | lwip/src/api/api_msg.c:1644-1692 | A message is answered at once with an error, or becomes the one write in progress. |
| `NetconnWrite.Netconn.CloseMore` | lwip/src/api/api_msg.c:811-998 | An attempt to close ends at once unless memory is short and polls are left; then its caller is woken once with a truthful answer, the connection is gone exactly if it was closed as a whole, and the select events follow the sides shut down. |
| `NetconnWrite.Netconn.Close` | lwip/src/api/api_msg.c:1767-1830 | A close is answered at once with an error, is over, or becomes the one operation in progress. |
| `NetconnWrite.Netconn.Connect` | lwip/src/api/api_msg.c:1215-1270 | A connect is answered at once, with ERR_INPROGRESS when nonblocking, or becomes the one operation in progress. |
| `NetconnWrite.Netconn.Connected` | lwip/src/api/api_msg.c:1165-1205 | The connection is idle again, and a blocking caller is woken once. |
| `NetconnWrite.Netconn.GoOn` | lwip/src/api/api_msg.c:299-365 | A sent or poll callback continues the write, which goes on exactly in the cases of `WriteMore`, or the close in progress, counts the polls of a close, and touches nothing else. |
| `NetconnWrite.Netconn.Died` | lwip/src/api/api_msg.c:374-440 | When the connection dies, whoever waits is woken once: a writer or connector with the error, a closer with success. |
| `NetconnWrite.Run` | lwip/src/api/api_msg.c:1496-1692 | Over every mix of writes, closes, connects, callbacks, memory errors and the death of the connection: the stream is the finished writes in order, then a prefix of the current one; every caller but the current one was woken exactly once; a blocking success means all bytes were taken. |
| `NetconnWrite.Drain` | lwip/src/api/api_msg.c:1496-1635 | A blocking write completes with ERR_OK after at most as many rounds with room as it has bytes. |
| `NetconnWrite.GivesUp` | lwip/src/api/api_msg.c:299-330 | Every close ends after at most as many polls as its message allows, whatever TCP answers. |
| `Pbufs.Cat` | lwip/src/core/pbuf.c:828-850 | pbuf_cat gives one chain whose packet is both packets, with every tot_len right modulo 2^16. |
| `Pbufs.ChainUp` | lwip/src/core/pbuf.c:870-877 | pbuf_chain does the same and adds a reference to the tail. |
| `Pbufs.Free` | lwip/src/core/pbuf.c:704-781 | pbuf_free gives back exactly the maximal head run of pbufs with count one, takes one reference from the next and leaves the rest; the 8-bit count is that number modulo 256. |
| `Pbufs.Dechain` | lwip/src/core/pbuf.c:887-916 | pbuf_dechain leaves two right chains with the same bytes; the tail it returns is alive if and only if none of it was freed. |
| `Pbufs.CountWraps` | lwip/src/core/pbuf.c:761-780 | For a tail of 256 single-reference pbufs the count is zero, and a freed tail is returned. |
| `Pbufs.ChainThenDechain` | lwip/src/core/pbuf.c:870-916 | Chaining and dechaining restores both packets and all reference counts. |
| `Pbufs.Header` | lwip/src/core/pbuf.c:558-625 | pbuf_header hides or reveals exactly the asked bytes in front of the packet with all totals right, or refuses and changes nothing; exactly when is stated. |
| `Pbufs.Realloc` | lwip/src/core/pbuf.c:482-545 | pbuf_realloc leaves the exact prefix of the packet with all totals right and releases what follows. |
| `PbufCopy.CopyPartial` | lwip/src/core/pbuf.c:1003-1040 | pbuf_copy_partial returns exactly the requested part of the packet, as far as there is one. |
| `PbufCopy.Take` | lwip/src/core/pbuf.c:1136-1173 | pbuf_take overwrites exactly the first bytes of the packet, or refuses and changes nothing. |
| `PbufCopy.Skip` | lwip/src/core/pbuf.c:1093-1109 | pbuf_skip finds the pbuf and offset of a position, and none exactly at or beyond the end. |
| `PbufCopy.TakeAt` | lwip/src/core/pbuf.c:1180-1201 | pbuf_take_at overwrites exactly the bytes at the offset across any splitting, and refuses exactly what does not fit. |
| `PbufCopy.TakeThenCopy` | lwip/src/core/pbuf.c:1003-1201 | Reading back what was written at an offset returns the data; all other bytes are as before. |
| `PbufChainCopy.Copy` | lwip/src/core/pbuf.c:936-986 | pbuf_copy terminates for all chains; with ERR_OK the target packet begins with the exact source packet and keeps the rest; on an error it has copied some prefix. |
| `PbufChainCopy.CopiesExactlyWhen` | lwip/src/core/pbuf.c:948-984 | Exactly which pairs of splittings are copied: all that end in a non-empty pbuf, and otherwise by a closed condition on the lengths. |
| `PbufChainCopy.EmptyTailRefused` | lwip/src/core/pbuf.c:972-983 | Three packets ending in an empty pbuf whose copy is refused. |

## Left out

- Connection set-up and resets: SYN, RST, listening, TIME_WAIT timing (its input is modelled), keep-alive and the state machine before ESTABLISHED.
- Congestion control: cwnd and ssthresh appear only as an arbitrary bound on output; fast recovery arithmetic is not modelled.
- Window scaling, timestamps, urgent data, MSS negotiation and TCP options.
- Linked lists of segments, timers, select entries and heap blocks are sequences: next pointers are modelled only for pbufs and for the in-band headers of the heap.
- Reentrant callbacks: application callbacks do not call back into the stack, and timer handlers only set and cancel timeouts.
- Buffers shared between pbufs: two pbufs of a model never alias the same memory; pbuf queues of several packets; pbuf allocation and custom pbufs.
- Sockets closed while select watches them: the code admits this gap, and the model excludes it.
- 16- and 32-bit wrap-around of select_cb_ctr, select_waiting and pbuf reference counts: unbounded here.
- Freeing heap memory from interrupt context, and heap statistics other than the used counter.
- UDP, IP, ARP, DNS, PPP and all other protocols and the socket layer beyond select.
- Receiver.RecvPcb.TrimFirstEdge: requires the code's assertion on the distance; `FirstEdge.TrimFront` says exactly when the cut is right without it, `Receiver.BytesGivenTwice` what happens when it is not.
- Receiver.RecvPcb.Input: conservation, announcement, queue bounds and the code's assertions on rcv_wnd are stated for a peer that stays inside the window, because the first insertion into an empty queue is not trimmed to the window, and for an announced edge less than half the number space behind (`Fresh`), because announcements are compared as 32-bit numbers. For a peer beyond the window `overran` notes a failed assertion, and the 16-bit tot_len of what is passed on, which may then wrap, is not modelled.
- Delayed ACKs: whether an ACK goes out at the end of tcp_input is a parameter of `Receiver.RecvPcb.Input`; the delayed-ACK flags that decide it are not modelled.
- The third scan of select, and what select returns to its caller, are not modelled.
- Receiver.Happen: the connection frees no refused data and keeps `Fresh`; `Receiver.RecvPcb.Input` and `Receiver.RecvPcb.Shutdown` prove that freeing it is exactly what breaks reassembly. Refused data is retried by the fast timer only outside TIME_WAIT, as in the code.
- OutOfSequence.Enqueue: held positions need not grow, because trimming the previous segment can forget bytes behind the new one.
- Sender.SendPcb.Write: requires the assertions of tcp_write; what the code does after a failed one is not modelled. `Sender.SendPcb.UpdateWindow` says exactly when they stay true, `Sender.ShrinkingLimit` how they fail.
- Sender.Happen: a timeout is followed further only where unacked precedes unsent, a write and a close only where they keep the order; `Sender.SendPcb.RexmitRto`, `Write` and `Close` say exactly what happens elsewhere.
- Sender.SendPcb.Ack: acknowledgement numbers are assumed to lie within half the number space of lastack, so that their comparison means something.
- Timeouts.TimerList.Check: after a handler has restarted the empty list while the check is late, the handlers of the timers that go off early leave the list alone; the clock advances less than 2^32 ms between two looks at the list.
- NetconnWrite.Netconn.WriteMore: tcp_write and tcp_output are their answers; that tcp_write is atomic is `Sender.SendPcb.Write`.
- NetconnWrite.Netconn.Close: requires the code's assertion that no close is going on; listening netconns and netconn_delete are not modelled.
- PbufChainCopy.Copy: packets shorter than 2^16 bytes, which is what tot_len can express.
- Pbufs.Header: the header is moved on the first pbuf of a packet; a forced move of a ROM or REF pbuf stays inside the memory it refers to.
