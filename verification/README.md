# A verified model of the VDE network code

Virtual Distributed Ethernet connects virtual machines with switches, wires and a user-mode TCP/IP
stack.  This project models the parts of it that keep state over many steps and proves, in Dafny,
what those parts promise: over every run, every arrival order, every interleaving.

`dafny verify dfyconfig.toml` checks everything.

| file | what it models |
|---|---|
| `Common.dfy` | what several files share |
| `SeqSpace.dfy`, `Reassembly.dfy` | modular sequence numbers; the overlap-trimming ordered list that TCP and IP reassembly share |
| `TcpReceive.dfy` | the receiving half of slirp's TCP: window trimming, `tcp_reass`, FIN, the window it advertises |
| `TcpSend.dfy`, `TcpInput.dfy`, `TcpRun.dfy` | `tcp_output`, acknowledgment processing and header prediction, timers; whole runs of a connection |
| `TcpPath.dfy` | sender and receiver joined by a network that loses, repeats and reorders |
| `IpFragment.dfy` | `ip_output`'s fragmentation and `ip_reass` |
| `OutputQueue.dfy` | the fastq/batchq list of lists and its round-robin cursor |
| `SocketBuffer.dfy`, `Checksum.dfy` | the socket ring buffer; the unrolled Internet checksum |
| `DelayLine.dfy` | wirefilter's heap of delayed packets |
| `LearningTable.dfy`, `Switch.dfy` | the IPN switch: MAC table with expiry, port table, forwarding |
| `MsgPool.dfy` | IPN's reference-counted messages, under arbitrary interleaving |
| `VdeStream.dfy` | the vdestream framing |
| `Realpath.dfy` | `vde_realpath` |

Two kinds of partner run through the project.  Methods that follow the code's loops and in-place
updates are proved equal to small specification functions (`Reassembly.Insert`, `SiftUp`/`SiftDown`,
`Ring`, `Feed`, `Walk`, a map with expiry), and those functions are related by lemmas to something
that does not mention them (coverage of a byte stream, heap order and multisets, slices, the list
of packets sent, pathname resolution on component lists).  Whole runs are either methods that take an
arbitrary list of events (`Run`, `SendRun`, `TimerRun`) or lemmas over arbitrary lists of steps.

## The main results

* **TCP receive** (`TcpReceive.Run`): whatever slices of the peer's stream arrive, in whatever order,
  repeated or overlapping, across 32-bit wraparound, exactly the bytes are held that some arrival
  offered inside the window of its time; the bytes handed to the host plus those buffered are exactly
  the stream up to `rcv_nxt`; `rcv_nxt` is the first byte not held, so that all of the stream has been
  handed over once all of it was offered.  End of file comes only after all of it and only if a FIN has
  arrived, and it does come when one arrives next in order; the state then says exactly that.
* **TCP send** (`TcpRun.SendRun`): from the acknowledged SYN until a FIN is due, in every run of segments
  in, timeouts, reads from the host and calls of `tcp_output`, with `m_get` and `ip_output` failing at any of
  them, every snapshot between two events has `snd_una <= snd_nxt <= snd_max <= snd_una + sb_cc`.  The stream is what
  `so_snd` held plus the host's data that fitted; every segment ever emitted carries exactly the stream
  bytes at its sequence number, inside the window that the control block showed at its call of
  `tcp_output`, except for the one-byte probe, which only the persist timer sends.  Each snapshot is what
  its event makes of the one before (`TcpRun.Effect`): a segment moves `snd_una` exactly to an acceptable
  acknowledgment, has the window taken over if it is newer and its text merged, and is answered when it is
  out of order or out of window; the third duplicate and the retransmit timer put the bytes at `snd_una`
  on the wire again; a running timer counts down.  A call of `tcp_output` sends exactly when something is
  due, the segments of a call are adjacent, all but the last full, and leave nothing due behind unless
  mbufs or `ip_output` gave out; `snd_nxt` ends behind the last byte sent, `snd_max` is the later of itself
  and that, new data are timed, and data sent leave the retransmit timer running (`TcpSend.Dispatched`,
  `TcpRun.DataTimed`).  Text that moves `rcv_nxt` is acknowledged at once or by the next fast tick
  (`TcpRun.Answered`).
* **Both ends** (`TcpPath.Transfer`): deliver any of the segments a sender's run has put on the wire to a
  receiver, in any order, any number of times: its host gets a prefix of the sender's stream, all of it
  once all of it has arrived in the window, and no end of file that was not sent.
* **Timers** (`TcpRun.TimerRun`): the retransmit and the persist timer never run at the same time, in
  any state, in any snapshot of any run from a fresh control block.
* **Header prediction** (`TcpInput.PredictionAgrees`): whenever the fast path takes a segment, the general
  path on the same state ends with the same `t_state`, `snd_una`, `snd_nxt`, `rcv_nxt`, send and receive
  buffers and retransmit timer, with one exact exception: an acknowledgment half the sequence space
  away from `snd_max`, which the sequence invariant rules out.  The window to send into is the same too.
* **IP** (`IpFragment.Receive`, `IpFragment.RoundTrip`): a datagram comes out at exactly the fragment
  that first completes its cover, and is the original; hence what `ip_output` makes of a datagram
  reassembles in every arrival order with any repeats.  `IpFragment.Interleaved` says the same for any
  number of datagrams at once, with queues timing out at any moment.  `IpFragment.Exchange` joins both ends:
  of up to 2^16 datagrams sent one after the other, with their packets in any interleaving, every one
  comes out, and nothing else does.
* **Output queues** (`OutputQueue.Run`, `Interface.RoundRobinPass`): no packet is lost, each session
  leaves in arrival order across downgrades, as many leave as the link takes at each event, counters are
  exact, the cursor never dangles, and one pass serves every batchq session once.  A session that has
  queued six packets since it last had none, three of them gone, is at the front of the batchq.
* **Delay line** (`DelayLine.Run`, `Line.Dequeue`, `DelayLine.KeysIncrease`): over every run the heap keeps
  order and contents, byte accounts are exact, and exactly those packets wait whose time no poll has
  reached; a poll emits what is due in key order.  In FIFO mode the keys increase strictly exactly as long
  as the counter does not wrap within one value of `maxwhen`, which a burst of 2^32 packets does
  (`BurstWraps`); as long as it does not, packets leave in arrival order.  Through changes of mode, an
  arrival in FIFO mode gets a key above all earlier ones exactly when it does not wrap the counter
  (`FifoArrival`).  Each packet waits until the first poll at or after its time and no longer, that time
  being the one it asked for in free (`nofifo`) mode and in FIFO mode the latest asked for so far (`Schedule`,
  `WaitsUntilThen`, `LeavesInTime`).
* **Checksum** (`Checksum.Cksum`, `Checksum.StoreThenVerify`): the unrolled loops compute the RFC 1071
  sum at both alignments without overflow, and a stored checksum verifies.
* **Learning switch** (`LearningTable.Table.*`, `Switch.KvdeSwitch.Run`): the buckets and the expiry list
  are a map with expiry; ports, table and deliveries after a run are those its events make, also when the
  timer runs between learning and lookup; a learned port is always occupied by the node it was learned
  from; a frame to a known address goes to that node only, any other to everybody but its sender; and an
  address that was heard is known for the whole timeout (`Switch.HeardIsFound`).
* **Message pool** (`MsgPool.PoolSafe`, `MsgPool.CountersExact`): counts equal references in every
  interleaving, items are freed exactly once; a reader gets the oldest out-of-band message first, and
  otherwise the oldest message (`MsgPool.ReadTakes`); the 16-bit per-node counters are the queue lengths modulo
  2^16, and exact in all runs exactly on lossy nets with a `msgpool_size` of at most 32767.
* **vdestream** (`VdeStream.Transfer`): the packets delivered are the packets sent if and only if no chunk
  boundary falls inside a length field.
* **Canonical paths** (`Realpath.Realpath`, `Realpath.ResolveSound`): the buffer-editing loop computes the
  stack walk; a result is canonical, denotes the file the name leads to, and is its own canonical name.

## Where the code does not do what it is said to do

* `if_output` says a downgraded session moves from the fastq; `on_fastq` is never 0
  (vde-2/src/slirpvde/if.c:54, 90), so a busy batchq session is moved to the front of the batchq too.
  The model does the same, and order and counts survive it.
* `TCP_REASS` takes FIN from the segment header rather than from the flags from which the window trim
  has removed it (vde-2/src/slirpvde/tcp_input.c:89, 803).  `TcpReceive.Receiver.TrimRight` proves that
  what is left of a segment is a true slice of the stream if and only if it had no FIN or its FIN was
  inside the window; `Receiver.InputNext` proves that end of file is reported before the end of the
  stream exactly when an open window cuts such a segment, and `CutFin` is a receiver where it happens.
  The runs exclude just those arrivals: a FIN segment of which an open window holds a part but not the FIN.
* `tcp_output` casts the unsigned `rcv_adv - rcv_nxt` to `long` (vde-2/src/slirpvde/tcp_output.c:365-366).
  In a 64-bit build, once `rcv_nxt` has passed `rcv_adv`, the window it advertises is the low 16 bits of a
  huge number; `TcpReceive.Receiver.Advertise` gives both builds, and `PastEdge` is a receiver where it
  happens.
* Text queued before the handshake ends is presented when it does, but the FIN that `tcp_reass` then
  reports is not looked at (vde-2/src/slirpvde/tcp_input.c:888): `Receiver.Establish` leaves `eof` false.
* `sbappendsb` overruns a buffer that is already full (vde-2/src/slirpvde/sbuf.c:134-152), where its comment
  makes the caller responsible for room: `SocketBuffer.Sbuf.SbAppendSb`.
* The presenting loop of `tcp_reass` ends by comparing with `tp` (vde-2/src/slirpvde/tcp_input.c:207), not
  with the list's end test; the model uses the end test.
* `snd_wnd -= acked` is unsigned and can wrap below zero (vde-2/src/slirpvde/tcp_input.c:1020-1025); the
  model wraps, and the send properties hold regardless.
* wirefilter tests for growth before it increments `npq` (vde-2/src/wirefilter.c:528, 536):
  `DelayLine.GrowthTest` says exactly when the slot is missing, and `DelayLine.FillUp` reaches that state
  with 99 packets.  The modelled array has one slot more.
* `vdestream_recv` throws a lone trailing byte away (vde-2/src/lib/libvdeplug.c:765); see
  `VdeStream.DeliversExactlyWhen`.
* `ipn_hash_new` allocates `size` buckets but masks with the next power of two
  (ipn/kvde_switch/ipn_hash.c:73, 77): `LearningTable.MaskFits` says they agree exactly for powers of
  two, and the table is modelled for those.  The only caller asks for 256.
* `totmsgcount` is an `unsigned short` that can count two full queues (ipn/af_ipn.h:143): on a lossy net
  from a `msgpool_size` of 32768 on, and on every lossless net, a reader can sleep on 65536 waiting
  messages (`MsgPool.OverflowLost`).
* The header comment of canonicalize.c says a failed call leaves the path of the first component that
  cannot be resolved in the buffer; when the name grows too long it leaves the parent of that component
  (vde-2/src/common/canonicalize.c:138-145).

## Model

| member | source | states |
|---|---|---|
| SeqSpace.DiffWire | vde-2/src/slirpvde/tcp.h:146-149 | the signed difference of two wire numbers is the distance of their stream positions exactly when that lies in [-2^31, 2^31) |
| SeqSpace.DiffWireWrapped | vde-2/src/slirpvde/tcp.h:146-149 | outside that range it is off by one turn, in the stated direction |
| SeqSpace.CompareWire | vde-2/src/slirpvde/tcp.h:146-149 | within half the space all comparisons order wire numbers as their positions, across wraparound |
| TcpStates.FinMoves | vde-2/src/slirpvde/tcp_input.c:1199-1238 | the state after the peer's FIN says that it was received and nothing else about our side |
| TcpStates.StatesApart | vde-2/src/slirpvde/tcp.h:122-135 | whether the FIN was received, whether we have closed and whether our FIN is acknowledged tell the synchronized states apart, but for CLOSING and LAST_ACK |
| Reassembly.TrimNextOrdered | vde-2/src/slirpvde/tcp_input.c:156-174 | trimming the successors leaves a sorted, disjoint list of slices beginning at or beyond the newcomer's end |
| Reassembly.TrimNextCovers | vde-2/src/slirpvde/tcp_input.c:156-174 | it gives up exactly the bytes below that end |
| Reassembly.InsertKeeps | vde-2/src/slirpvde/tcp_input.c:119-179 | inserting any slice keeps the queue sorted, disjoint and made of true slices |
| Reassembly.InsertCovers | vde-2/src/slirpvde/tcp_input.c:119-179 | afterwards the queue covers what it covered plus the newcomer, and nothing else |
| TcpReceive.FindAfter | vde-2/src/slirpvde/tcp_input.c:122-125 | the search on 32-bit numbers finds the position the unbounded stream offsets give |
| TcpReceive.TrimNewcomer | vde-2/src/slirpvde/tcp_input.c:132-153 | the predecessor's overlap is computed and cut off correctly on 32-bit numbers; the newcomer is dropped exactly when fully covered |
| TcpReceive.TrimSuccessors | vde-2/src/slirpvde/tcp_input.c:160-174 | the trimming loop on 32-bit numbers is the list operation on stream offsets |
| TcpReceive.SpliceIn | vde-2/src/slirpvde/tcp_input.c:119-179 | the queueing part of tcp_reass is insertion of a slice |
| TcpReceive.Receiver.constructor | vde-2/src/slirpvde/tcp.h:156-157 | a connection after the peer's SYN satisfies the receive invariant |
| TcpReceive.Receiver.SbAppend | vde-2/src/slirpvde/sbuf.c:63-117 | host plus buffer grow by a prefix of the bytes that fills the buffer at least, by all of them when there is room, whatever part the host socket takes at once |
| TcpReceive.Receiver.PresentOne | vde-2/src/slirpvde/tcp_input.c:194-206 | the head of the queue extends what was delivered by the next stream bytes |
| TcpReceive.Receiver.Present | vde-2/src/slirpvde/tcp_input.c:181-208 | presents up to the first gap and loses nothing; FIN is reported exactly when one was queued and everything has been presented |
| TcpReceive.Receiver.Enqueue | vde-2/src/slirpvde/tcp_input.c:119-179 | the queue invariant holds after insertion |
| TcpReceive.Receiver.TcpReass | vde-2/src/slirpvde/tcp_input.c:104-209 | delivered bytes are the stream prefix up to rcv_nxt; exactly the segment's bytes are added to what is held; FIN is reported exactly when one is in the queue so formed and all of it has been presented |
| TcpReceive.Receiver.InOrder | vde-2/src/slirpvde/tcp_input.c:84-93 | the inline case delivers the next bytes of the stream |
| TcpReceive.Receiver.ReassMacro | vde-2/src/slirpvde/tcp_input.c:83-98 | both branches of TCP_REASS keep the invariant, add exactly the segment's bytes and report FIN under the same condition |
| TcpReceive.Receiver.OutOfLine | vde-2/src/slirpvde/tcp_input.c:94-97 | the branch through tcp_reass does |
| TcpReceive.LastCloses | vde-2/src/slirpvde/tcp_input.c:194-206 | in a queue of slices the flags of the last segment say whether a FIN is queued |
| TcpReceive.InsertLast | vde-2/src/slirpvde/tcp_input.c:119-179 | insertion invents no FIN |
| TcpReceive.Receiver.AcceptFin | vde-2/src/slirpvde/tcp_input.c:1183-1239 | a FIN reached by reassembly takes one sequence number, once, is to be acknowledged, and moves the state as section 3.9 of RFC 793 says |
| TcpReceive.Receiver.Text | vde-2/src/slirpvde/tcp_input.c:1165-1239 | merging the text adds exactly the segment's bytes; end of file is set exactly when the queue so formed holds a FIN and has been presented; a FIN next in order on an empty queue sets it; the state changes with a FIN only; text leaves an acknowledgment owed |
| TcpReceive.Receiver.TrimLeft | vde-2/src/slirpvde/tcp_input.c:718-757 | what is left is the part at or after rcv_nxt, and a FIN survives exactly when not already received |
| TcpReceive.Receiver.Window | vde-2/src/slirpvde/tcp_input.c:516-521 | the receive window is the free space |
| TcpReceive.Receiver.TrimRight | vde-2/src/slirpvde/tcp_input.c:768-804 | what is left ends at the window's edge; it is a true slice if and only if no FIN was cut; a segment dropped had nothing in the window |
| TcpReceive.Receiver.Input | vde-2/src/slirpvde/tcp_input.c:712-804 | afterwards held bytes are those held before plus the segment's in-window bytes; a FIN next in order on an empty queue sets end of file; no FIN is invented; the state changes with a FIN only; progress, a repeat or text beyond the window leaves an acknowledgment owed |
| TcpReceive.Receiver.InputNext | vde-2/src/slirpvde/tcp_input.c:712-1198 | for the segment next in order, wherever its FIN lies: what fits is handed over, and end of file is reported only at the end of the stream if and only if an open window does not cut the segment |
| TcpReceive.Receiver.TextNext | vde-2/src/slirpvde/tcp_input.c:83-98 | the inline case of TCP_REASS and the FIN it takes from ti_flags, whatever the segment carries: bytes, rcv_nxt, state and acknowledgments owed |
| TcpReceive.CutFin | vde-2/src/slirpvde/tcp_input.c:89 | a receiver that reports end of file after one byte of two |
| TcpReceive.PastEdge | vde-2/src/slirpvde/tcp_output.c:365-366 | a receiver with rcv_nxt past rcv_adv, where a 64-bit build computes a window of 2^32 - 1 |
| TcpReceive.Receiver.Establish | vde-2/src/slirpvde/tcp_input.c:112-117 | text queued before the handshake ends is presented, none lost; a FIN among it is not acted on |
| TcpReceive.Receiver.SoWrite | vde-2/src/slirpvde/socket.c:344-423 | the host takes the oldest buffered bytes |
| TcpReceive.Receiver.Advertise | vde-2/src/slirpvde/tcp_output.c:357-367 | the window is the larger of what is wanted and what was promised, and rcv_adv moves exactly to its edge, never back and never beyond the free space; except in a 64-bit build once rcv_nxt has passed rcv_adv, where the window is the stated huge number |
| TcpReceive.Unsigned | vde-2/src/slirpvde/tcp_output.c:365-366 | the unsigned difference is off by 2^32 exactly when the distance is negative |
| TcpReceive.Receiver.NextMissing | vde-2/src/slirpvde/tcp_input.c:186-207 | once established, rcv_nxt is the first byte not held |
| TcpReceive.Step | vde-2/src/slirpvde/tcp_input.c:712-1239 | every event keeps the receive invariant; exactly the bytes it offers in the window are held in addition; rcv_nxt, the right edge and rcv_adv never move back; a FIN next in order is reported, and none that has not arrived; the state after every event, what the host takes and what is advertised |
| TcpReceive.Run | vde-2/src/slirpvde/tcp_input.c:83-209 | receive safety over whole runs, with the bytes held tied to the arrivals; the whole stream is handed over once all of it was offered; end of file if a FIN arrived next in order and only if one arrived; the state tells whether it was |
| TcpReceive.ProperThroughout | vde-2/src/slirpvde/tcp_input.c:718-804 | a text segment inside the initial window of a stream shorter than half the sequence space is taken whenever it arrives |
| TcpSend.PlanOutput | vde-2/src/slirpvde/tcp_output.c:84-151 | the plan is what is usable up to a segment, inside so_snd and, unless forced into a closed window, inside min(snd_wnd, snd_cwnd); a shut window pulls snd_nxt back and stops the timer; FIN exactly with the last data; sequence order and timer exclusion kept |
| TcpSend.Opening | vde-2/src/slirpvde/tcp_output.c:99-124 | the window to send into: a forced call opens a closed one by a byte, without FIN exactly while there are data, and otherwise leaves persist state |
| TcpSend.PlanSends | vde-2/src/slirpvde/tcp_output.c:126-218 | in the data phase exactly what is due passes the tests for sending: data, a window update, an acknowledgment or urgent data |
| TcpSend.SetPersist | vde-2/src/slirpvde/tcp_output.c:479-492 | starts the persist timer with the next interval, twice the one before up to the sixth, steps the back-off, and touches nothing else |
| TcpSend.BackoffDoubles | vde-2/src/slirpvde/tcp_timer.c:115-116 | the back-off table doubles six times and then stays |
| TcpSend.FlagsMean | vde-2/src/slirpvde/tcp_output.c:43-47 | SYN is sent until the connection is established, FIN from our close until it is acknowledged |
| TcpSend.Idle | vde-2/src/slirpvde/tcp_output.c:241-250 | persist is entered exactly when there are data and neither timer runs |
| TcpSend.MssForSyn | vde-2/src/slirpvde/tcp_input.c:1463-1492 | a SYN's call makes the buffers the least whole number of segments that holds the default space; a resize empties them, the same size leaves them alone |
| TcpSend.AdjustForSyn | vde-2/src/slirpvde/tcp_output.c:261-285 | without SYN nothing changes; with it sending starts at iss; the length is cut to what a segment with its options holds |
| TcpSend.Advance | vde-2/src/slirpvde/tcp_output.c:390-439 | in transmit state snd_nxt moves over everything sent, the retransmit timer is started if it does not run and something is outstanding, leaving persist state, and new data are timed; in persist state only snd_max moves; snd_max is the later of itself and the end |
| TcpSend.AdvanceWithin | vde-2/src/slirpvde/tcp_output.c:408-410 | modular advance and comparison agree with offsets from snd_una |
| TcpSend.Transmit | vde-2/src/slirpvde/tcp_output.c:287-439 | the segment carries exactly the unacknowledged bytes at its sequence number and is accounted for; a FIN sent again keeps its number |
| TcpSend.DataIsTrue | vde-2/src/slirpvde/tcp_output.c:292-350 | what a plan in bounds copies from so_snd are the bytes at snd_nxt |
| TcpSend.Emit | vde-2/src/slirpvde/tcp_output.c:252-472 | a planned length within the segment size is emitted in full from snd_nxt and accounted for; a segment that leaves pays what acknowledgments are owed and moves rcv_adv to the edge it announces; another round follows exactly when more was usable |
| TcpSend.AnnouncedOnce | vde-2/src/slirpvde/tcp_output.c:357-367 | announcing the window again changes nothing |
| TcpSend.Announce | vde-2/src/slirpvde/tcp_output.c:443-472 | rcv_adv moves to the announced edge and the marks of acknowledgments owed are cleared |
| TcpSend.OutputOnce | vde-2/src/slirpvde/tcp_output.c:84-474 | one round keeps all send invariants; a segment goes out exactly when one is due and there is an mbuf, as long as window and segment size allow, and is accounted for; without failure nothing due stays behind the last round; data left unsent have a timer running |
| TcpSend.RoundSent | vde-2/src/slirpvde/tcp_output.c:252-474 | a round that sends accounts for snd_nxt, snd_max, adjacency, timing and the retransmit timer |
| TcpSend.RoundIdle | vde-2/src/slirpvde/tcp_output.c:219-250 | a round that does not leaves nothing due, and persist entered if data wait without a timer |
| TcpSend.AccountedOn | vde-2/src/slirpvde/tcp_output.c:84-474 | the accounts of successive rounds add up |
| TcpSend.RoundsOn | vde-2/src/slirpvde/tcp_output.c:84-474 | what one round keeps, any number of rounds keep |
| TcpSend.TcpOutput | vde-2/src/slirpvde/tcp_output.c:55-477 | the whole sendalot loop does: segments of a call are adjacent, all but the last full, and nothing due is left unless mbufs or ip_output gave out; after a while of idleness the congestion window starts over; an owed acknowledgment goes out |
| TcpInput.FastAck | vde-2/src/slirpvde/tcp_input.c:441-479 | the pure-ack case means: release the acknowledged bytes, time the round trip, stop or restart the timer |
| TcpInput.Smoothed | vde-2/src/slirpvde/tcp_input.c:1377-1450 | round-trip time and deviation move by an eighth and a quarter of their error up to rounding, the first measurement sets both, and the interval stays in range |
| TcpInput.FastPath | vde-2/src/slirpvde/tcp_input.c:436-509 | header prediction takes a segment exactly when it is a pure ack or pure in-order data, with the stated meaning |
| TcpInput.FastKeeps | vde-2/src/slirpvde/tcp_input.c:436-509 | that meaning keeps the sequence and timer invariants and releases a prefix of so_snd |
| TcpInput.PredictionAgrees | vde-2/src/slirpvde/tcp_input.c:436-1177 | fast and general path agree on everything observable if and only if the ack is not antipodal; always under the sequence invariant; and on the window to send into whenever the segment is newer than the last window update |
| TcpInput.SameUsableWindow | vde-2/src/slirpvde/tcp_input.c:436-440 | prediction demands an unchanged peer window that limits sending, so that neither path changes the window to send into |
| TcpInput.TrimToWindow | vde-2/src/slirpvde/tcp_input.c:516-804 | what is left are exactly the bytes in the receive window; a segment is dropped only when there are none; the outcome in modular arithmetic for every segment |
| TcpInput.WindowHonoured | vde-2/src/slirpvde/tcp_input.c:516-521 | the receive window accepts what was advertised and what there is room for, and is one of the two or closed |
| TcpInput.NewAck | vde-2/src/slirpvde/tcp_input.c:969-1090 | so_snd loses exactly the acknowledged bytes, order and timer exclusion kept, snd_wnd reduced modulo 2^32, the round trip timed, the timer stopped or restarted, the congestion window opened, the duplicates forgotten, and our FIN acknowledged exactly when covered |
| TcpInput.WindowOpens | vde-2/src/slirpvde/tcp_input.c:1010-1018 | the congestion window never shrinks below its cap, and opens by a segment for each acknowledgment below the threshold |
| TcpInput.WindowCreeps | vde-2/src/slirpvde/tcp_input.c:1010-1018 | above the threshold a window of acknowledgments opens it by about a segment |
| TcpInput.FinAckMoves | vde-2/src/slirpvde/tcp_input.c:1034-1069 | the acknowledgment of our FIN says that it has arrived and nothing about the peer's |
| TcpInput.ShiftUna | vde-2/src/slirpvde/tcp_input.c:1028-1030 | moving snd_una to an ack within what was sent keeps the order; snd_nxt is pulled exactly for antipodal acks |
| TcpInput.DupAck | vde-2/src/slirpvde/tcp_input.c:910-968 | fast retransmit is asked for at exactly the third duplicate of snd_una, more output at exactly the later ones |
| TcpInput.AckProcessing | vde-2/src/slirpvde/tcp_input.c:902-1091 | every acknowledgment keeps the invariants; snd_una moves exactly to an acceptable one, so_snd loses exactly what it acknowledges and snd_wnd shrinks by it; the third duplicate asks for a retransmission, one of unsent data for an acknowledgment, and the last FIN's ends the connection |
| TcpInput.Step6 | vde-2/src/slirpvde/tcp_input.c:1093-1108 | the window is taken from exactly the newer segments, by the test of RFC 793 |
| TcpInput.Text | vde-2/src/slirpvde/tcp_input.c:1155-1177 | in-order data with an empty queue mean hand-over and a delayed acknowledgment, other data what reassembly makes of them and an immediate one; no data means no change |
| TcpInput.Finishing | vde-2/src/slirpvde/tcp_input.c:1093-1259 | the peer's window is taken over exactly from a newer segment, the text is merged as stated, the send side is untouched, and output follows exactly on a need, a window update or an owed acknowledgment |
| TcpInput.Process | vde-2/src/slirpvde/tcp_input.c:902-1259 | acknowledgment, window update and text of every segment in the window, with everything the general path promises |
| TcpInput.GeneralPath | vde-2/src/slirpvde/tcp_input.c:510-1259 | the general path keeps all invariants and means the same as prediction where that applies; a segment outside the window changes nothing and is answered; every other takes exactly acceptable acknowledgments, updates the window, merges its text, and asks for a fast retransmit at exactly the third duplicate |
| TcpInput.SameNewer | vde-2/src/slirpvde/tcp_input.c:1097-1101 | acknowledgment processing does not disturb the test for a newer segment |
| TcpRun.TruthfulOnStream | vde-2/src/slirpvde/tcp_output.c:301-302 | bytes true to so_snd are the stream bytes at the segment's position |
| TcpRun.EmittedOnStream | vde-2/src/slirpvde/tcp_output.c:292-350 | all emitted segments stay true to the stream as more are emitted |
| TcpRun.ReleasePrefix | vde-2/src/slirpvde/tcp_input.c:1019-1028 | an acknowledgment moves so_snd along the stream |
| TcpRun.Conn.Output | vde-2/src/slirpvde/tcp_output.c:55-477 | output extends the wire log with true segments, each recorded with the control block of the call, and does what tcp_output promises |
| TcpRun.Conn.Input | vde-2/src/slirpvde/tcp_input.c:436-1259 | a segment in, by either path, keeps the connection invariant and has its effect: the predicted meaning, or nothing but an answer outside the window, or acknowledgment, window update and merged text; the third duplicate resends the bytes at snd_una |
| TcpRun.TookGeneral | vde-2/src/slirpvde/tcp_input.c:510-1271 | general path and verdict together have the stated effect of a segment |
| TcpRun.AbsorbedBy | vde-2/src/slirpvde/tcp_input.c:902-1271 | so do they for a segment in the window: snd_una, snd_wnd, so_snd, queue, rcv_nxt, received bytes, answers and resends |
| TcpRun.ForeseenIs | vde-2/src/slirpvde/tcp_input.c:436-509 | what the fast path leaves is the predicted meaning, field by field |
| TcpRun.Conn.Act | vde-2/src/slirpvde/tcp_input.c:938-1271 | the verdict is acted on exactly: which control block tcp_output is called with, and whether |
| TcpRun.ActedKeeps | vde-2/src/slirpvde/tcp_input.c:938-1271 | that answers what is to be answered, resends on the third duplicate, and leaves nothing owed that is neither paid nor marked |
| TcpRun.Conn.Respond | vde-2/src/slirpvde/tcp_input.c:1251-1271 | the closing call of tcp_output, with the control block as adjusted |
| TcpRun.Conn.FastRetransmit | vde-2/src/slirpvde/tcp_input.c:941-959 | the third duplicate ack resends from snd_una when the window is open, with half the window as threshold, and then goes on where sending was with the window inflated |
| TcpRun.HalfTheWindow | vde-2/src/slirpvde/tcp_input.c:942-949 | the threshold is half the window in whole segments, or two |
| TcpRun.Halve | vde-2/src/slirpvde/tcp_input.c:941-954 | the control block before the resend |
| TcpRun.Resume | vde-2/src/slirpvde/tcp_input.c:955-959 | and after it |
| TcpRun.Conn.SoRead | vde-2/src/slirpvde/socket.c:149-208 | data from the host extend the stream |
| TcpRun.BackOff | vde-2/src/slirpvde/tcp_timer.c:156-241 | the back-off: shift, segment size, interval, estimators and both windows after a timeout, and exactly when to give up |
| TcpRun.Conn.RexmtTimeout | vde-2/src/slirpvde/tcp_timer.c:149-243 | with data unacknowledged and an open window the bytes at snd_una are sent again; the connection is dropped exactly when back-off and segment size are exhausted |
| TcpRun.Conn.PersistTimeout | vde-2/src/slirpvde/tcp_timer.c:249-254 | data from snd_nxt on are forced out whenever any lie in the window, counted as one byte when it is closed |
| TcpRun.Conn.Push | vde-2/src/slirpvde/tcp_timer.c:252-253 | a forced call sends whenever any data lie in the window |
| TcpRun.Conn.TickRexmt | vde-2/src/slirpvde/tcp_timer.c:86-91 | a running retransmit timer counts down, with no other effect until it runs out |
| TcpRun.Conn.TickPersist | vde-2/src/slirpvde/tcp_timer.c:86-91 | so does the persist timer |
| TcpRun.SlowBoth | vde-2/src/slirpvde/tcp_timer.c:86-95 | the parts of both timers make up the effect of a tick |
| TcpRun.SentBoth | vde-2/src/slirpvde/tcp_timer.c:86-95 | what both timers send in a tick is sent under one window |
| TcpRun.Conn.SlowTimo | vde-2/src/slirpvde/tcp_timer.c:86-95 | running timers count down, and if none runs out nothing is sent; the retransmit timer running out resends the bytes at snd_una or, when exhausted, gives up; the persist timer running out forces data out |
| TcpRun.Conn.FastTimo | vde-2/src/slirpvde/tcp_timer.c:51-56 | a delayed acknowledgment goes out; without one nothing happens |
| TcpRun.Answered | vde-2/src/slirpvde/tcp_timer.c:51-56 | an arrival whose text moves rcv_nxt is acknowledged by the next fast tick if not before, given an mbuf at the arrival or TF_DELACK; without either the tick sends nothing |
| TcpRun.DataTimed | vde-2/src/slirpvde/tcp_output.c:429-436 | data that a call sends, other than a probe, leave the retransmit timer running |
| TcpRun.StaysPaced | vde-2/src/slirpvde/tcp_timer.c:189-192 | the interval of the retransmit timer stays positive through measurements and timeouts |
| TcpRun.Step | vde-2/src/slirpvde/tcp_timer.c:64-101 | every event keeps the connection invariant and has its effect on the snapshot; host data are taken exactly when they fit; every emission is tied to the window it was sent under |
| TcpRun.TimerRun | vde-2/src/slirpvde/tcp_output.c:219-245 | retransmit and persist exclude each other in every snapshot of every run, each snapshot being the effect of its event on the one before |
| TcpRun.SendRun | vde-2/src/slirpvde/tcp_output.c:84-440 | send safety in every snapshot of every run, each being the effect of its event on the one before, with an mbuf supply of its own for each event; the stream is tied to the host data and every emission to the control block of its event |
| TcpRun.CollectedNext | vde-2/src/slirpvde/socket.c:149-208 | the data taken from the host, event by event |
| TcpPath.WireCarries | vde-2/src/slirpvde/tcp_output.c:301-302 | the segment the receiver takes in is the one on the wire |
| TcpPath.SameWindow | vde-2/src/slirpvde/tcp_output.c:357-367 | sending and receiving half agree on the window a connection advertises |
| TcpPath.Transfer | vde-2/src/slirpvde/tcp_input.c:83-209 | sender and receiver composed over a network that loses, repeats and reorders: the receiving host gets a prefix of the stream sent, all of it once all of it has arrived in the window, and no end of file that was not sent |
| IpFragment.Gap | vde-2/src/slirpvde/ip_input.c:331-337 | a hole between neighbours is a hole in the cover |
| IpFragment.GaplessCovers | vde-2/src/slirpvde/ip_input.c:331-337 | no hole means full cover |
| IpFragment.Complete | vde-2/src/slirpvde/ip_input.c:331-339 | the walk plus the last MF flag decide exactly whether the datagram is covered |
| IpFragment.Concatenate | vde-2/src/slirpvde/ip_input.c:344-352 | concatenation gives the datagram |
| IpFragment.FindAfter | vde-2/src/slirpvde/ip_input.c:285-288 | finds the insertion point |
| IpFragment.TrimSuccessors | vde-2/src/slirpvde/ip_input.c:311-323 | trims or dequeues exactly the overlapped successors |
| IpFragment.SpliceIn | vde-2/src/slirpvde/ip_input.c:282-330 | the queue after a fragment is the insertion; unchanged when the fragment is dropped |
| IpFragment.IpStack.IpReass | vde-2/src/slirpvde/ip_input.c:240-389 | yields the datagram exactly when the fragment completes its cover; other queues untouched |
| IpFragment.IpStack.Collect | vde-2/src/slirpvde/ip_input.c:331-384 | completeness decides between handing out and keeping |
| IpFragment.IpStack.IpFreef | vde-2/src/slirpvde/ip_input.c:395-407 | the key is free for the next datagram, whatever it is, and no other datagram under way is touched |
| IpFragment.IpStack.IpInput | vde-2/src/slirpvde/ip_input.c:161-208 | whole packets pass, fragments go to the queue of their id, addresses and protocol; a whole packet frees a queue only if ip_off has other bits than DF |
| IpFragment.IpStack.IpOutput | vde-2/src/slirpvde/ip_output.c:53-172 | fails exactly for an oversized datagram with DF or too few mbufs; otherwise a complete fragmentation; ip_id moves on by one, modulo 2^16 |
| IpFragment.Fragment | vde-2/src/slirpvde/ip_output.c:97-154 | the loop makes the consecutive pieces, MF on all but the last, each within the MTU |
| IpFragment.FragmentAt | vde-2/src/slirpvde/ip_output.c:120-141 | header and data of one piece |
| IpFragment.HeaderRoundTrip | vde-2/src/slirpvde/ip_output.c:125-131 | ip_input reads back the offset and MF that ip_output wrote |
| IpFragment.Receive | vde-2/src/slirpvde/ip_input.c:240-389 | over any sequence of fragments the datagram comes out at the first one that completes the cover, and not before |
| IpFragment.Step | vde-2/src/slirpvde/ip_input.c:161-389 | one fragment or timeout, with any number of datagrams under way |
| IpFragment.Interleaved | vde-2/src/slirpvde/ip_input.c:161-389 | any interleaving of fragments of several datagrams and timeouts: each datagram comes out exactly at the fragment that first completes its cover |
| IpFragment.RoundTrip | vde-2/src/slirpvde/ip_output.c:97-163 | fragmentation then reassembly is the identity in every arrival order with repeats |
| IpFragment.KeysApart | vde-2/src/slirpvde/ip_output.c:72 | identifications repeat only after 2^16 datagrams |
| IpFragment.OutputAll | vde-2/src/slirpvde/ip_output.c:53-172 | successive datagrams go out under successive identifications, each completely fragmented |
| IpFragment.NotYetOut | vde-2/src/slirpvde/ip_input.c:240-389 | as long as a datagram has not come out, all its fragments are held and do not cover it |
| IpFragment.Exchange | vde-2/src/slirpvde/ip_output.c:53-172 | up to 2^16 datagrams sent one after the other, their packets in any interleaving with repeats: each comes out, and nothing else |
| OutputQueue.PendingConcat | vde-2/src/slirpvde/if.c:103-106 | pending packets of a session add up over the lists |
| OutputQueue.AppendAt | vde-2/src/slirpvde/if.c:79-83 | appending to a session's last list puts the packet behind all its pending ones |
| OutputQueue.SendAt | vde-2/src/slirpvde/if.c:184-193 | taking a session's first head takes its oldest pending packet |
| OutputQueue.MoveFront | vde-2/src/slirpvde/if.c:122-130 | moving a batchq list to the front changes no session's order |
| OutputQueue.Downgrade | vde-2/src/slirpvde/if.c:122-130 | neither does moving a session's last fastq list to the batchq |
| OutputQueue.Interface.FindBatch | vde-2/src/slirpvde/if.c:77-85 | finds the session's batchq list if there is one |
| OutputQueue.Interface.Place | vde-2/src/slirpvde/if.c:70-106 | the packet goes behind all of its session's; to the fastq exactly for a low-delay socket without batchq list; both queues exactly |
| OutputQueue.Interface.Demote | vde-2/src/slirpvde/if.c:122-130 | the downgrade keeps every session's order and the count |
| OutputQueue.Interface.Enqueue | vde-2/src/slirpvde/if.c:49-131 | if_output keeps FIFO, counts, history and cursor; both queues exactly; a greedy session ends up at the front of the batchq |
| OutputQueue.Interface.GreedyIs | vde-2/src/slirpvde/if.c:117-126 | greedy means six packets since none was left, three of them gone |
| OutputQueue.ToldIn | vde-2/src/slirpvde/if.c:111-113 | so_nqueued counts the packets since none was left |
| OutputQueue.ToldOut | vde-2/src/slirpvde/if.c:196-200 | and starts again when none is |
| OutputQueue.Interface.SendOne | vde-2/src/slirpvde/if.c:168-200 | sends a session's oldest packet, fastq first, and says where the cursor goes |
| OutputQueue.Interface.IfStart | vde-2/src/slirpvde/if.c:153-209 | sends as many packets as allowed and queued |
| OutputQueue.Interface.IfOutput | vde-2/src/slirpvde/if.c:49-139 | both together: where the packet goes, and how many leave |
| OutputQueue.Interface.RoundRobinPass | vde-2/src/slirpvde/if.c:172-193 | a pass sends one packet per batchq session, from the cursor on and around |
| OutputQueue.Run | vde-2/src/slirpvde/if.c:49-209 | conservation, FIFO, exact counters and live cursor over every interleaving; exactly as many packets leave at each event as its budget allows; so_nqueued is the number since none was left; a session that overdoes it is at the front of the batchq |
| DelayLine.SiftUpHeap | vde-2/src/wirefilter.c:536-543 | sifting up restores heap order |
| DelayLine.SiftUpMultiset | vde-2/src/wirefilter.c:536-543 | and keeps the packets |
| DelayLine.SiftDownHeap | vde-2/src/wirefilter.c:465-487 | sifting down restores heap order |
| DelayLine.SiftDownMultiset | vde-2/src/wirefilter.c:465-487 | and keeps the packets |
| DelayLine.RootLeast | vde-2/src/wirefilter.c:456-458 | the root is the least (when, counter) |
| DelayLine.BytesAdd | vde-2/src/wirefilter.c:519 | the byte account of a direction is a sum over the queued packets in any order |
| DelayLine.FifoKey | vde-2/src/wirefilter.c:500-510 | in FIFO mode the new key exceeds all earlier ones exactly unless the counter wraps, and is never before the requested time |
| DelayLine.KeysIncrease | vde-2/src/wirefilter.c:500-510 | over a run in FIFO mode the keys increase strictly if and only if the counter never wraps within one maxwhen |
| DelayLine.KeysBounded | vde-2/src/wirefilter.c:502-510 | through changes of mode no key exceeds (maxwhen, counter), and a counter that has moved is the key of some packet |
| DelayLine.FifoArrival | vde-2/src/wirefilter.c:502-510 | after any changes of mode an arrival in FIFO mode gets a key above all earlier ones if and only if it does not wrap the counter |
| DelayLine.BurstWraps | vde-2/src/wirefilter.c:506-509 | packets due at once keep increasing keys if and only if there are fewer than 2^32 of them |
| DelayLine.Schedule | vde-2/src/wirefilter.c:501-510 | when a packet may leave, from the events alone: at the requested time in free mode, in FIFO mode at the latest requested so far |
| DelayLine.LeavesInTime | vde-2/src/wirefilter.c:451-489 | after the first poll at or after that time the packet waits no more |
| DelayLine.WaitsUntilThen | vde-2/src/wirefilter.c:451-489 | and until then it waits |
| DelayLine.ShortRun | vde-2/src/wirefilter.c:506-509 | fewer than 2^32 events cannot wrap it |
| DelayLine.GrowthTest | vde-2/src/wirefilter.c:528-536 | when the growth test leaves the new packet without a slot |
| DelayLine.FillUp | vde-2/src/wirefilter.c:520-536 | 99 packets reach the state where the slot is missing |
| DelayLine.PushHeap | vde-2/src/wirefilter.c:535-544 | insertion as a whole |
| DelayLine.PopHeap | vde-2/src/wirefilter.c:459-487 | removal of the root as a whole |
| DelayLine.Line.Push | vde-2/src/wirefilter.c:535-544 | the array holds a heap of one packet more |
| DelayLine.Line.RaiseHole | vde-2/src/wirefilter.c:537-543 | the loop is the sift on the array |
| DelayLine.Line.Pop | vde-2/src/wirefilter.c:459-487 | the array holds a heap without its least packet |
| DelayLine.Line.LowerHole | vde-2/src/wirefilter.c:465-487 | the loop is the sift on the array |
| DelayLine.Line.AssignKey | vde-2/src/wirefilter.c:500-510 | in free mode exactly the time requested, in FIFO mode the latest so far; strictly later than all before in FIFO mode exactly unless the counter wraps |
| DelayLine.Line.Enqueue | vde-2/src/wirefilter.c:491-545 | keeps heap, accounts and, unless the counter wraps, FIFO; the packet gets the stated key |
| DelayLine.Line.SendRoot | vde-2/src/wirefilter.c:459-487 | the least packet leaves and its bytes are taken off the account |
| DelayLine.Line.Dequeue | vde-2/src/wirefilter.c:451-489 | exactly the packets due leave, in key order, none before its requested time |
| DelayLine.PollLeaves | vde-2/src/wirefilter.c:458-488 | what a poll leaves is exactly the packets due later |
| DelayLine.Line.NextMs | vde-2/src/wirefilter.c:392-405 | the time to the earliest queued packet, or none |
| DelayLine.Step | vde-2/src/wirefilter.c:451-545 | one event of a run |
| DelayLine.Run | vde-2/src/wirefilter.c:451-545 | over every run: the packets that arrived are those offered with the keys stated, nothing lost, accounts exact, exactly those wait that no poll has reached, arrival order while FIFO mode is kept and the counter does not wrap |
| Checksum.ReduceIsFold | vde-2/src/slirpvde/cksum.c:44-45 | REDUCE is the one's complement residue for every 32-bit sum |
| Checksum.FoldEarly | vde-2/src/slirpvde/cksum.c:100-109 | reducing midway, or before a shift by a byte, does no harm |
| Checksum.OnesSumIsFold | vde-2/src/slirpvde/cksum.c:135-136 | folding once at the end is the end-around-carry sum of RFC 1071 |
| Checksum.OddStart | vde-2/src/slirpvde/cksum.c:75-82 | the odd-address trick sums the same words |
| Checksum.SumBySixteen | vde-2/src/slirpvde/cksum.c:83-94 | the loop sums the words and the int does not overflow |
| Checksum.SumByFour | vde-2/src/slirpvde/cksum.c:95-99 | so does the second loop |
| Checksum.SumRest | vde-2/src/slirpvde/cksum.c:102-105 | and the last |
| Checksum.Even | vde-2/src/slirpvde/cksum.c:100-135 | the end of an even-address sum |
| Checksum.Odd | vde-2/src/slirpvde/cksum.c:100-135 | the end of an odd-address sum |
| Checksum.Cksum | vde-2/src/slirpvde/cksum.c:47-137 | the complement of the RFC 1071 sum, at either alignment, for up to 65535 bytes |
| Checksum.SelfCheck | vde-2/src/slirpvde/ip_output.c:81-82 | storing the complement in the zeroed field makes the sum all ones |
| Checksum.StoreThenVerify | vde-2/src/slirpvde/ip_input.c:97-99 | so verification yields 0, whatever both alignments |
| Checksum.ByteOrder | vde-2/src/slirpvde/cksum.c:47-137 | host-order summing puts the network-order sum into memory |
| SocketBuffer.WrittenAppends | vde-2/src/slirpvde/sbuf.c:130-152 | writing to the right edge, then from the left edge, appends |
| SocketBuffer.Parts | vde-2/src/slirpvde/sbuf.c:130-147 | the two parts copied are what fits |
| SocketBuffer.CopyRing | vde-2/src/slirpvde/sbuf.c:165-180 | a slice of the contents is the ring from the moved start |
| SocketBuffer.Sbuf.SbDrop | vde-2/src/slirpvde/sbuf.c:18-32 | drops the oldest bytes, at most all |
| SocketBuffer.Sbuf.SbAppendSb | vde-2/src/slirpvde/sbuf.c:123-153 | as much is appended as fits, in every wrap position, and a full buffer is overrun |
| SocketBuffer.Sbuf.SbCopy | vde-2/src/slirpvde/sbuf.c:160-181 | sbcopy is a slice, in every wrap position including full |
| SocketBuffer.Sbuf.SoPrepRBuf | vde-2/src/slirpvde/socket.c:83-142 | the room offered is free, and whole segments whenever it exceeds one |
| SocketBuffer.OfferFits | vde-2/src/slirpvde/socket.c:106-136 | the offer fits and wastes less than a segment |
| SocketBuffer.Sbuf.SoRead | vde-2/src/slirpvde/socket.c:149-208 | appends what the host had, up to the offer |
| SocketBuffer.Sbuf.SoReadBuf | vde-2/src/slirpvde/socket.c:210-250 | appends all, or nothing when it exceeds the offer |
| SocketBuffer.Sbuf.SoWrite | vde-2/src/slirpvde/socket.c:344-423 | writes and removes the oldest bytes in order |
| LearningTable.Po2Round | ipn/kvde_switch/ipn_hash.c:52-59 | the least power of two not below its argument |
| LearningTable.MaskFits | ipn/kvde_switch/ipn_hash.c:69-83 | every bucket index is in the table exactly when its size is a power of two |
| LearningTable.UnlinkKeeps | ipn/kvde_switch/ipn_hash.c:140-141 | removing an element keeps both lists consistent and the expiry order |
| LearningTable.LinkKeeps | ipn/kvde_switch/ipn_hash.c:223-230 | so does adding one that expires last |
| LearningTable.HeadFirst | ipn/kvde_switch/ipn_hash.c:168-182 | the head of the list is the first to expire |
| LearningTable.Table.Search | ipn/kvde_switch/ipn_hash.c:197-206 | searching one bucket decides membership of the map |
| LearningTable.Table.Find | ipn/kvde_switch/ipn_hash.c:234-264 | lookup in the abstract map, -1 if absent |
| LearningTable.Table.Add | ipn/kvde_switch/ipn_hash.c:186-232 | sets the entry with a full timeout; a new key needs memory and a nonzero timeout; a timer that does not run is set to a full timeout |
| LearningTable.Table.FlushPort | ipn/kvde_switch/ipn_hash.c:129-146 | removes exactly the entries of the port |
| LearningTable.Table.TimerExpired | ipn/kvde_switch/ipn_hash.c:157-184 | removes exactly the expired entries and sets the timer to exactly the next expiry, if there is one |
| LearningTable.Table.NothingStale | ipn/kvde_switch/ipn_hash.c:178-181 | until the pending timer is overdue no entry has outlived its expiry |
| LearningTable.Table.Run | ipn/kvde_switch/ipn_hash.c:129-232 | any sequence of operations keeps the table equal to the map with expiry, sorted, and its timer pending in time |
| LearningTable.EntryHasSource | ipn/kvde_switch/ipn_hash.c:186-232 | every entry stems from the last event that named its key, untouched by flush or expiry since |
| LearningTable.LearnedIsKept | ipn/kvde_switch/ipn_hash.c:186-232 | and whatever was so learned is there |
| Switch.KvdeSwitch.NewPort | ipn/kvde_switch/kvde_switch_main.c:13-21 | the first free port, or -1 when all are taken |
| Switch.KvdeSwitch.Connect | ipn/af_ipn.c:1024-1041 | the node gets that port and joins the queue; otherwise nothing changes |
| Switch.KvdeSwitch.Close | ipn/af_ipn.c:426-446 | the port is freed and exactly its learned addresses are forgotten |
| Switch.KvdeSwitch.Resize | ipn/af_ipn.c:1618-1665 | the exact error for each case; nodes keep their ports; a failure changes nothing |
| Switch.LeaveFaithful | ipn/kvde_switch/kvde_switch_main.c:48-52 | flushing the port of a closed node keeps learned ports faithful |
| Switch.LearnKeeps | ipn/kvde_switch/kvde_switch_main.c:31-32 | so does learning from a connected node |
| Switch.FloodReaches | ipn/kvde_switch/kvde_switch_main.c:37-40 | flooding reaches every connected node but the sender, once |
| Switch.KvdeSwitch.Flood | ipn/kvde_switch/kvde_switch_main.c:37-40 | the loop floods |
| Switch.KvdeSwitch.LearnFrom | ipn/kvde_switch/kvde_switch_main.c:29-32 | exactly the unicast source of a whole frame is learned |
| Switch.KvdeSwitch.Forward | ipn/kvde_switch/kvde_switch_main.c:33-44 | to the node last heard from at a known address, else flooded |
| Switch.KvdeSwitch.HandleMsg | ipn/kvde_switch/kvde_switch_main.c:23-46 | the table, the nodes chosen and the log entry, also when the timer runs between learning and lookup |
| Switch.ExpireKeeps | ipn/kvde_switch/ipn_hash.c:157-184 | expiry keeps learned ports right |
| Switch.DeliveryRight | ipn/kvde_switch/kvde_switch_main.c:33-44 | every delivery so made is right |
| Switch.FreePortIs | ipn/kvde_switch/kvde_switch_main.c:16-20 | the first free port is determined by the port table |
| Switch.KvdeSwitch.Step | ipn/kvde_switch/kvde_switch_main.c:13-52 | one event makes of ports, table and deliveries what it should |
| Switch.KvdeSwitch.Run | ipn/kvde_switch/kvde_switch_main.c:13-52 | switch safety across connect, close, resize, frames and expiry, with ports, table and deliveries determined by the events |
| Switch.HeardIsFound | ipn/kvde_switch/kvde_switch_main.c:23-46 | a frame to an address that was heard goes to that node only, for the whole timeout, as long as the node stays and nobody else uses the address |
| Switch.LocatedStays | ipn/kvde_switch/kvde_switch_main.c:23-46 | no other event takes the address away |
| MsgPool.PutCounts | ipn/af_ipn.c:251-264 | a put takes off one reference of one item |
| MsgPool.PutRefKeeps | ipn/af_ipn.c:251-264 | giving back a held reference keeps counts and lifetimes |
| MsgPool.SendStepKeeps | ipn/af_ipn.c:1508-1561 | both send routines keep counts, order and bounds |
| MsgPool.TakenKeeps | ipn/af_ipn.c:391-422 | so does taking a message off either queue |
| MsgPool.ReadKeeps | ipn/af_ipn.c:1576-1597 | a reader that finds a nonzero count finds a message |
| MsgPool.ReadTakes | ipn/af_ipn.c:1576-1597 | in every reachable state a reader gets the oldest oob message if one waits, otherwise the oldest ordinary one, with its reference; it sleeps only on a multiple of 2^16 messages |
| MsgPool.SendQueues | ipn/af_ipn.c:1508-1561 | in every reachable state a message is queued last exactly when the node is not shut down and, on a lossy net, counts fewer than msgpool_size |
| MsgPool.Releases | ipn/af_ipn.c:251-264 | in every reachable state giving back takes off one reference, and the last one frees the item |
| MsgPool.StepKeeps | ipn/af_ipn.c:206-264 | every atomic step keeps the invariant |
| MsgPool.PoolSafe | ipn/af_ipn.c:195-264 | over every interleaving: count equals references, freed exactly once and only unreferenced, msgpool_nelem exact |
| MsgPool.QueuesSafe | ipn/af_ipn.c:1508-1605 | on every net queues are FIFO and counters are the lengths modulo 2^16, exact exactly below 65536 messages; on lossy nets queues stay within msgpool_size, up to 32767 |
| MsgPool.OverflowLost | ipn/af_ipn.c:1576-1585 | beyond that, and on every lossless net, a run that leaves a reader asleep on 65536 messages |
| MsgPool.CountersExact | ipn/af_ipn.c:1508-1605 | exact counters in every run if and only if the net is lossy and msgpool_size at most 32767 |
| VdeStream.ParseEncoded | vde-2/src/lib/libvdeplug.c:735-745 | the encoding of a list of packets parses to the list |
| VdeStream.ParseResume | vde-2/src/lib/libvdeplug.c:765-793 | parsing can stop anywhere and resume |
| VdeStream.FeedAccounts | vde-2/src/lib/libvdeplug.c:747-794 | every byte fed is delivered with its packet, part of an empty packet, pending or lost |
| VdeStream.FeedStep | vde-2/src/lib/libvdeplug.c:747-794 | a chunk keeps the receiver in step, or loses one byte exactly when it ends inside a length field |
| VdeStream.RoundTrip | vde-2/src/lib/libvdeplug.c:735-794 | chunks that split no length field deliver the packets in order |
| VdeStream.DeliversExactlyWhen | vde-2/src/lib/libvdeplug.c:735-794 | and only those do |
| VdeStream.Receiver.OneHeader | vde-2/src/lib/libvdeplug.c:766-792 | one round of the loop |
| VdeStream.Receiver.Recv | vde-2/src/lib/libvdeplug.c:747-794 | vdestream_recv is one step of the abstract receiver and stays in its fragment buffer |
| VdeStream.Transfer | vde-2/src/lib/libvdeplug.c:735-794 | the receiver object delivers the packets sent if and only if no length field is split |
| Realpath.WalkCanonical | vde-2/src/common/canonicalize.c:112-208 | success means no empty, . or .. component, no symbolic link in any prefix, existing searchable directories, length below PATH_MAX |
| Realpath.WalkFails | vde-2/src/common/canonicalize.c:135-206 | why a walk fails, from what is at the path left in the buffer |
| Realpath.SplitConcat | vde-2/src/common/canonicalize.c:182-184 | a link's target in front of the rest of the name concatenates the component lists |
| Realpath.WalkFollows | vde-2/src/common/canonicalize.c:112-208 | the walk succeeds where plain resolution with at most MAXSYMLINKS links does, with the same file, unless the name grows too long |
| Realpath.WalkPlain | vde-2/src/common/canonicalize.c:112-208 | a canonical path walks to itself |
| Realpath.ResolveSound | vde-2/src/common/canonicalize.c:46-223 | a result is canonical, names the file the name leads to, and is its own result from anywhere |
| Realpath.BackUp | vde-2/src/common/canonicalize.c:130-131 | the backward scan stops behind the previous slash |
| Realpath.BackUpPops | vde-2/src/common/canonicalize.c:130-131 | which removes exactly the last component |
| Realpath.Scan | vde-2/src/common/canonicalize.c:116-121 | the scanning loops find the next component and the rest |
| Realpath.Enter | vde-2/src/common/canonicalize.c:135-149 | appends the component within the buffer, or leaves the parent when it does not fit |
| Realpath.Restart | vde-2/src/common/canonicalize.c:186-191 | after a link the buffer is the root or the link's directory |
| Realpath.Step | vde-2/src/common/canonicalize.c:133-206 | one component: the exact error and buffer, or one step of the walk |
| Realpath.Look | vde-2/src/common/canonicalize.c:151-206 | what becomes of the component, by the kind of file: the exact error, the restart after a link, or the next step |
| Realpath.Loop | vde-2/src/common/canonicalize.c:112-211 | the loop terminates with the outcome of the walk |
| Realpath.Realpath | vde-2/src/common/canonicalize.c:46-223 | result, errors and buffer contents of every call |

## Left out

- Linux kernel glue of `ipn/` (VFS, bind paths, netdev, chrdev, ioctl, socket options): calls into code outside the repository. Locks appear as atomic steps.
- `ipn_hash_flush_key`, the leaky branch of `ipn_msgpool_alloc`, `numreaders`/`numwriters`: what they do does not match their stated purpose, so there is no invariant to state.
- `tcp_emu`, ICMP, URG and out-of-band data, TFTP, ARP, host sockets and select loops: I/O and text rewriting. Host reads and writes are byte counts or byte strings given as parameters.
- SYN, RST and URG segments in `tcp_input`, the 2MSL and keepalive timers: in `TcpRun` other code changes the state through an arbitrary transition event.
- Raw mbuf memory (`dtom`, `M_EXT`, header overlays): payload and offsets only; `m_get` succeeding or failing is a parameter.
- A claim that a connection with pending data never stalls: a pure ack sent into a zero window returns before the persist timer is set.
- wirefilter's random loss, noise, duplication and Markov chain, and `splitpacket`: probabilistic, or covered by the vdestream model.
- `vde_autolink.c`, `cmdparse.c`, `libvdehist.c`, `vdetelweb`, `consmgmt.c`, `vdeq.c`, plugs and terminals: process control and management. The bootp lease table and vde_plug's IP set: small fixed tables.
- TcpReceive.Run: arrivals are slices of one stream from less than half the sequence space away, with no FIN segment that an open window cuts (`Receiver.Reaches`); the receive buffer is smaller than 2^30 and is not resized; `rcv_nxt` is at most 2^31 ahead of `rcv_adv`. State changes by the sending half are any that leave whether the FIN was received as it is.
- TcpReceive.Receiver.SbAppend: does not model appending to a full buffer, which corrupts it (`SocketBuffer.Sbuf.SbAppendSb`); the window trim never does.
- TcpReceive.Receiver.AcceptFin: without the transition of emulated control connections and the 2MSL timer.
- TcpReceive.Receiver.TrimLeft: without the adjustments for SYN and URG.
- TcpReceive.Receiver.TrimRight: without the restart of a connection by a SYN in TIME_WAIT.
- TcpReceive.Receiver.Input: a FIN segment that an open window cuts is excluded; `InputNext` says what happens with one.
- TcpSend.PlanOutput: the window update test and `rcv_adv` are those of a 32-bit build; see `Receiver.Advertise`.
- TcpPath.Transfer: segments from half the sequence space away or more do not reach the receiver.
- TcpRun.SendRun: begins when the SYN is acknowledged and nothing else is outstanding, with a send buffer below 2^30 that is not resized, no FIN sent and no emulation.
- TcpRun.Conn.Input: segments with ACK and none of SYN, FIN, RST, URG; text that is not simply next in order goes through an arbitrary reassembly function, which `TcpReceive` models.
- TcpInput.PredictionAgrees: leaves out the congestion window, on which the two paths differ, and the closing call of `tcp_output`.
- IpFragment.IpStack.IpReass: fragments are consistent slices of one datagram of at most 65535 bytes with headers; the queue's time to live appears as `IpFreef` at any moment.
- DelayLine.Run: times are unbounded, where the source has 64 bits.
- DelayLine.Line.Push: the array has one slot more than the source allocates; see `GrowthTest`.
- Checksum.Cksum: little-endian loads, as on the machines slirp is built for; `ByteOrder` gives the sum in network order.
- SocketBuffer.Sbuf.SoRead: a read that fails or returns nothing, which may disconnect, is not modelled.
- SocketBuffer.Sbuf.SbCopy: requires the slice to lie within the contents, as its only caller makes sure.
- LearningTable.Table.constructor: the number of buckets is a power of two. The clock is read once per operation, does not wrap and does not run backwards.
- Switch.KvdeSwitch.Run: messages, connects and closes exclude each other under the network's mutex, while the timer, which takes the table's lock only, may run between and within them; interrupted system calls are not modelled. "Goes to a node" means handed to its queue, which may then be full.
- MsgPool.PoolSafe: modelled on values, one transition for each locked or atomic section, because interleavings and not the updates in place are the subject. The wait of a sender on a full lossless net is not modelled: allocation may happen at any time. Nodes with a network device keep no queue and are absent.
- Realpath.Realpath: the file system does not change during the call; null arguments are not representable; a link target of PATH_MAX bytes or more gives ENAMETOOLONG, where the source also writes one byte behind its own buffer. PATH_MAX is 4096 and MAXSYMLINKS 20, the values on Linux.
- Realpath.ResolveSound: the starting directory is canonical and can be searched.
