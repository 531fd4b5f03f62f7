/**
 * The part of `tcp_input` that a segment with TH_ACK and none of SYN, FIN, RST, URG goes through on
 * a synchronized connection: header prediction on the one hand, and on the other the general path
 * of window trimming, acknowledgment processing, window update and text.  Calls of tcp_output are
 * left to the caller (module TcpRun).
 */
module TcpInput {
  import opened Common
  import opened SeqSpace
  import opened TcpStates
  import opened TcpSend

  const TCPREXMTTHRESH := 3
  const U32 := 0x1_0000_0000

  /** A received segment; `first` is the byte behind the headers that the ESC test looks at. */
  datatype InSeg = InSeg(sq: tcp_seq, ack: tcp_seq, win: nat, data: seq<byte>, first: byte)

  /** What tcp_reass does with a segment that is not simply next in order: the new queue, rcv_nxt
      and the bytes presented.  (Module TcpReceive models it; here it may be anything.) */
  datatype Reassembled = Reassembled(queue: seq<InSeg>, rcvNxt: tcp_seq, presented: seq<byte>)

  type Reass = (seq<InSeg>, tcp_seq, InSeg) -> Reassembled

  /** What is left to the caller after a segment was looked at. */
  datatype Verdict =
    | Finish(output: bool)     // the end of tcp_input; output: tcp_output is called
    | DropAfterAck             // TF_ACKNOW is set and tcp_output called
    | FastRexmit               // third duplicate ack
    | Inflate                  // further duplicate ack
    | Closed                   // tcp_close

  /** tcp_xmit_timer(tp, tp->t_rtt). */
  function XmitTimer(r: Rtt): Rtt {
    var delta := r.rtt - 1 - r.srtt / 8;
    var srtt := if r.srtt == 0 then r.rtt * 8 else Max(r.srtt + delta, 1);
    var dev := (if delta < 0 then -delta else delta) - r.rttvar / 4;
    var rttvar := if r.srtt == 0 then r.rtt * 2 else Max(r.rttvar + dev, 1);
    Rtt(0, srtt, rttvar, 0, Range(srtt / 8 + rttvar, r.min, TCPTV_REXMTMAX), r.min)
  }

  /** Round-trip times are smoothed as Jacobson does: srtt, kept times 8, moves by an eighth of the
      difference, rttvar, kept times 4, by a quarter of its own, up to the rounding of the shifts; the
      first measurement sets both; the back-off and the measurement end, and the interval is in range. */
  lemma Smoothed(r: Rtt)
    ensures var x, n := XmitTimer(r), r.rtt - 1;
      && x.rtt == 0 && x.shift == 0 && x.min == r.min
      && (r.min <= TCPTV_REXMTMAX ==> r.min <= x.cur <= TCPTV_REXMTMAX)
      && (r.srtt == 0 ==> x.srtt == 8 * r.rtt && 4 * x.rttvar == x.srtt)
      && (r.srtt != 0 ==> x.srtt == 1 || 7 * r.srtt + 8 * n <= 8 * x.srtt < 7 * r.srtt + 8 * n + 8)
      && (r.srtt != 0 ==>
            var err := if 8 * n < r.srtt - r.srtt % 8 then (r.srtt - r.srtt % 8) / 8 - n else n - r.srtt / 8;
            x.rttvar == 1 || 3 * r.rttvar + 4 * err <= 4 * x.rttvar < 3 * r.rttvar + 4 * err + 4)
      && (r.srtt != 0 && r.min <= x.srtt / 8 + x.rttvar <= TCPTV_REXMTMAX ==> x.cur == x.srtt / 8 + x.rttvar)
  {
  }

  /** sbdrop. */
  function Drop(buf: seq<byte>, num: int): seq<byte> {
    if num <= 0 then buf else if num > |buf| then [] else buf[num..]
  }

  /** sbappend, when slirp_send would take `ret` bytes. */
  function Append(so: Sock, data: seq<byte>, ret: int): (r: Sock)
    ensures r == so.(host := r.host, rcvBuf := r.rcvBuf)
    ensures |so.rcvBuf| + |data| <= so.rcvSize ==> r.host + r.rcvBuf == so.host + so.rcvBuf + data
    ensures |r.host| == |so.host| + if so.rcvBuf == [] then Min(Max(ret, 0), |data|) else 0
  {
    var n := if so.rcvBuf == [] then Min(Max(ret, 0), |data|) else 0;
    var rest := data[n..];
    var fits := Min(|rest|, Max(so.rcvSize - |so.rcvBuf|, 0));
    so.(host := so.host + data[..n], rcvBuf := so.rcvBuf + rest[..fits])
  }

  /** The guard common to both cases of header prediction. */
  predicate Candidate(tp: Tcb, seg: InSeg) {
    && tp.state == TCPS_ESTABLISHED && seg.sq == tp.rcvNxt
    && seg.win != 0 && seg.win == tp.sndWnd && tp.sndNxt == tp.sndMax
  }

  predicate PureAck(tp: Tcb, seg: InSeg) {
    && Candidate(tp, seg) && seg.data == []
    && SeqGt(seg.ack, tp.sndUna) && SeqLeq(seg.ack, tp.sndMax) && tp.sndCwnd >= tp.sndWnd
  }

  predicate PureData(tp: Tcb, so: Sock, queue: seq<InSeg>, seg: InSeg) {
    && Candidate(tp, seg) && seg.data != []
    && seg.ack == tp.sndUna && queue == [] && |seg.data| <= so.rcvSize - |so.rcvBuf|
  }

  /** The retransmit timer after the acknowledgment of everything up to `ack`. */
  function RexmtAfter(tp: Tcb, rt: Rtt, ack: tcp_seq): int {
    if ack == tp.sndMax then 0 else if tp.persist == 0 then rt.cur else tp.rexmt
  }

  function RttAfter(tp: Tcb, ack: tcp_seq): Rtt {
    if tp.rt.rtt != 0 && SeqGt(ack, tp.rtseq) then XmitTimer(tp.rt) else tp.rt
  }

  /** The pure-ack case of header prediction. */
  method FastAck(tp0: Tcb, so0: Sock, ack: tcp_seq) returns (tp: Tcb, so: Sock)
    ensures Observe(tp, so) == AckMeaning(tp0, so0, ack)
    ensures tp == tp0.(rt := tp.rt, sndUna := ack, rexmt := tp.rexmt)
    ensures so == so0.(sndBuf := so.sndBuf)
  {
    hide Add, Diff, XmitTimer;
    var rt, rexmt := tp0.rt, tp0.rexmt;
    if rt.rtt != 0 && SeqGt(ack, tp0.rtseq) {
      rt := XmitTimer(rt);
    }
    var acked := Diff(ack, tp0.sndUna);
    so := so0.(sndBuf := Drop(so0.sndBuf, acked));
    if ack == tp0.sndMax {
      rexmt := 0;
    } else if tp0.persist == 0 {
      rexmt := rt.cur;
    }
    tp := tp0.(rt := rt, sndUna := ack, rexmt := rexmt);
  }

  /** Header prediction, up to its closing call of tcp_output. */
  method FastPath(tp0: Tcb, so0: Sock, queue: seq<InSeg>, seg: InSeg, ret: int)
    returns (taken: bool, tp: Tcb, so: Sock, output: bool)
    ensures taken <==> PureAck(tp0, seg) || PureData(tp0, so0, queue, seg)
    ensures taken ==> Observe(tp, so) == Predicted(tp0, so0, seg, ret)
    ensures taken ==>
      tp == tp0.(rt := tp.rt, sndUna := tp.sndUna, rexmt := tp.rexmt, rcvNxt := tp.rcvNxt, ackNow := tp.ackNow)
    ensures so == so0.(sndBuf := so.sndBuf, rcvBuf := so.rcvBuf, host := so.host)
    ensures !taken ==> tp == tp0 && so == so0
    ensures taken ==> tp.ackNow == (tp0.ackNow || seg.data != [])
    ensures taken ==> output == (seg.data != [] || so.sndBuf != [])
  {
    hide Add, Diff, AckMeaning, Append;
    taken, tp, so, output := false, tp0, so0, false;
    if Candidate(tp, seg) {
      if seg.data == [] {
        if SeqGt(seg.ack, tp.sndUna) && SeqLeq(seg.ack, tp.sndMax) && tp.sndCwnd >= tp.sndWnd {
          taken := true;
          tp, so := FastAck(tp, so, seg.ack);
          output := so.sndBuf != [];
        }
      } else if seg.ack == tp.sndUna && queue == [] && |seg.data| <= so.rcvSize - |so.rcvBuf| {
        taken, output := true, true;
        so := Append(so, seg.data, ret);
        tp := tp.(rcvNxt := Add(tp.rcvNxt, |seg.data|), ackNow := true);
      }
    }
  }

  /** What header prediction does keeps the sequence and timer invariants. */
  lemma FastKeeps(tp0: Tcb, so0: Sock, queue: seq<InSeg>, seg: InSeg, ret: int, tp: Tcb, so: Sock)
    requires PureAck(tp0, seg) || PureData(tp0, so0, queue, seg)
    requires Observe(tp, so) == Predicted(tp0, so0, seg, ret) && so.sndSize == so0.sndSize && tp.sentFin == tp0.sentFin
    ensures TimersExclusive(tp0) ==> TimersExclusive(tp)
    ensures Sending(tp0, so0) ==> Sending(tp, so) && Released(tp0, so0, tp, so)
  {
    hide Add, Diff, Append, XmitTimer;
    DiffSelf(tp0.sndUna);
    if seg.data == [] {
      ShiftUna(tp0, so0, seg.ack);
    }
  }

  /** Header prediction refines the general path: whenever it accepts a segment, the general path
      run on the same state agrees on the connection state, the send and receive sequence numbers,
      both buffers, both timers and the round-trip estimate, up to the closing tcp_output.  They
      disagree in one corner only, an acknowledgment exactly half the sequence space behind snd_max,
      which no state with the sequence invariant has. */
  method PredictionAgrees(tp: Tcb, so: Sock, queue: seq<InSeg>, seg: InSeg, ret: int, reass: Reass)
    returns (taken: bool, fast: Observed, slow: Observed, sameQueue: bool, fastWnd: nat, slowWnd: nat)
    requires |so.rcvBuf| <= so.rcvSize < 0x4000_0000
    ensures taken <==> PureAck(tp, seg) || PureData(tp, so, queue, seg)
    ensures taken ==> sameQueue && (fast == slow <==> !(seg.data == [] && Antipodal(seg.ack, tp)))
    ensures taken && SeqInv(tp, so) ==> fast == slow
    ensures taken && seg.win <= TCP_MAXWIN && tp.dupacks <= TCPREXMTTHRESH && Updates(tp, so, seg) ==>
      fastWnd == slowWnd
  {
    hide Add, Append, XmitTimer, RttAfter, RexmtAfter, SeqGt, SeqLeq, Handled, OpenCwnd;
    var tp1, so1, out1 := tp, so, false;
    taken, tp1, so1, out1 := FastPath(tp, so, queue, seg, ret);
    fast, slow, sameQueue := Observe(tp1, so1), Observe(tp, so), true;
    fastWnd, slowWnd := Min(tp1.sndWnd, tp1.sndCwnd), Min(tp.sndWnd, tp.sndCwnd);
    if taken {
      if seg.data == [] {
        ShiftUna(tp, so, seg.ack);
        AntipodalDiffers(tp, seg.ack);
      }
      var tp2, so2, queue2, verdict := GeneralPath(tp, so, queue, seg, ret, reass);
      slow, sameQueue := Observe(tp2, so2), queue2 == queue;
      slowWnd := Min(tp2.sndWnd, tp2.sndCwnd);
      if seg.win <= TCP_MAXWIN && tp.dupacks <= TCPREXMTTHRESH && Updates(tp, so, seg) {
        PredictedIsNext(tp, so, queue, seg);
        NextIsWhole(tp, so, seg);
        SameUsableWindow(tp, so, queue, seg, ret, reass, tp2, so2, queue2, verdict);
      }
    }
  }

  /** The segment is newer than the one the send window was last taken from, or has nothing to change. */
  predicate Updates(tp: Tcb, so: Sock, seg: InSeg) {
    seg.data != [] || Newer(tp.(sndWnd := WndAcked(tp, so, seg.ack)), seg)
  }

  /** The segment next in order that fits is not trimmed. */
  lemma NextIsWhole(tp: Tcb, so: Sock, seg: InSeg)
    requires Next(tp, so, seg)
    ensures Trimmed(tp, so, seg) == Some(seg)
  {
    NextUntouched(tp, so, seg);
    hide Diff, Add, RcvWnd;
    assert seg.data[..|seg.data|] == seg.data;
  }

  /** A predicted segment leaves the window to send into the same on both paths, because prediction
      demands that the peer's window is unchanged and that it is what limits sending. */
  lemma SameUsableWindow(tp0: Tcb, so0: Sock, queue0: seq<InSeg>, seg: InSeg, ret: int, reass: Reass,
                         tp: Tcb, so: Sock, queue: seq<InSeg>, verdict: Verdict)
    requires PureAck(tp0, seg) || PureData(tp0, so0, queue0, seg)
    requires Handled(tp0, so0, queue0, seg, ret, reass, tp, so, queue, verdict) && verdict.Finish?
    requires seg.win <= TCP_MAXWIN && tp0.dupacks <= TCPREXMTTHRESH && Updates(tp0, so0, seg)
    ensures Min(tp.sndWnd, tp.sndCwnd) == Min(tp0.sndWnd, tp0.sndCwnd)
  {
    assert tp.sndWnd == WndFinal(tp0, so0, seg) && SendSide(tp0, so0, seg, tp);
    hide Handled, SendSide;
    if seg.data == [] { PureAckWindow(tp0, so0, seg, tp); } else { PureDataWindow(tp0, so0, queue0, seg, tp); }
  }

  lemma PureAckWindow(tp0: Tcb, so0: Sock, seg: InSeg, tp: Tcb)
    requires PureAck(tp0, seg) && tp.sndWnd == WndFinal(tp0, so0, seg) && SendSide(tp0, so0, seg, tp)
    requires seg.win <= TCP_MAXWIN && tp0.dupacks <= TCPREXMTTHRESH && Updates(tp0, so0, seg)
    ensures Min(tp.sndWnd, tp.sndCwnd) == Min(tp0.sndWnd, tp0.sndCwnd)
  {
    hide Diff, RttAfter, RexmtAfter, StateAfter, WndAcked, OpenCwnd;
    WindowOpens(tp0.sndCwnd, tp0.sndSsthresh, tp0.maxseg);
  }

  lemma PureDataWindow(tp0: Tcb, so0: Sock, queue0: seq<InSeg>, seg: InSeg, tp: Tcb)
    requires PureData(tp0, so0, queue0, seg) && tp.sndWnd == WndFinal(tp0, so0, seg) && SendSide(tp0, so0, seg, tp)
    ensures Min(tp.sndWnd, tp.sndCwnd) == Min(tp0.sndWnd, tp0.sndCwnd)
  {
    hide Diff, TookAck;
    DiffSelf(tp0.sndUna);
  }

  lemma AntipodalDiffers(tp: Tcb, ack: tcp_seq)
    ensures Antipodal(ack, tp) ==> ack != tp.sndMax
  {
    DiffSelf(tp.sndMax);
  }

  /** What header prediction promises to get right. */
  datatype Observed = Observed(
    state: int, sndUna: tcp_seq, sndNxt: tcp_seq, sndMax: tcp_seq, rcvNxt: tcp_seq,
    sndBuf: seq<byte>, rcvBuf: seq<byte>, host: seq<byte>, rexmt: int, persist: int, rt: Rtt)

  function Observe(tp: Tcb, so: Sock): Observed {
    Observed(tp.state, tp.sndUna, tp.sndNxt, tp.sndMax, tp.rcvNxt,
             so.sndBuf, so.rcvBuf, so.host, tp.rexmt, tp.persist, tp.rt)
  }

  /** The meaning of a pure ack: it releases the acknowledged bytes and times the round trip. */
  function AckMeaning(tp: Tcb, so: Sock, ack: tcp_seq): Observed {
    var rt := RttAfter(tp, ack);
    Observe(tp, so).(sndUna := ack, sndBuf := Drop(so.sndBuf, Diff(ack, tp.sndUna)), rt := rt,
                     rexmt := RexmtAfter(tp, rt, ack))
  }

  /** The meaning of in-order data: it is handed over. */
  function DataMeaning(tp: Tcb, so: Sock, data: seq<byte>, ret: int): Observed {
    var so' := Append(so, data, ret);
    Observe(tp, so).(rcvNxt := Add(tp.rcvNxt, |data|), rcvBuf := so'.rcvBuf, host := so'.host)
  }

  function Predicted(tp: Tcb, so: Sock, seg: InSeg, ret: int): Observed {
    if seg.data == [] then AckMeaning(tp, so, seg.ack) else DataMeaning(tp, so, seg.data, ret)
  }

  /** As far as header prediction goes, the general path means the same by a pure ack, except that it
      also pulls snd_nxt to an antipodal acknowledgment. */
  function AckMeaningGeneral(tp: Tcb, so: Sock, ack: tcp_seq): Observed {
    AckMeaning(tp, so, ack).(sndNxt := if Antipodal(ack, tp) then ack else tp.sndNxt)
  }

  /** rcv_wnd: the free space, but not less than what was advertised. */
  function RcvWnd(tp: Tcb, so: Sock): nat {
    Max(Max(so.rcvSize - |so.rcvBuf|, 0), Diff(tp.rcvAdv, tp.rcvNxt))
  }

  /** The window accepts what was advertised and what there is room for, and is one of the two or closed. */
  lemma WindowHonoured(tp: Tcb, so: Sock)
    ensures Diff(tp.rcvAdv, tp.rcvNxt) <= RcvWnd(tp, so) && so.rcvSize - |so.rcvBuf| <= RcvWnd(tp, so)
    ensures RcvWnd(tp, so) in {0, Diff(tp.rcvAdv, tp.rcvNxt), so.rcvSize - |so.rcvBuf|}
  {
    hide Diff;
  }

  /** The segment and the window are near rcv_nxt, so that the modular differences are distances. */
  predicate Near(tp: Tcb, so: Sock, seg: InSeg) {
    -0x4000_0000 < Diff(seg.sq, tp.rcvNxt) < 0x4000_0000 && |seg.data| <= 65535 && RcvWnd(tp, so) < 0x4000_0000
  }

  /** Where the in-window part of the segment's data begins and ends. */
  function First(tp: Tcb, seg: InSeg): nat {
    Min(Max(-Diff(seg.sq, tp.rcvNxt), 0), |seg.data|)
  }

  function Last(tp: Tcb, so: Sock, seg: InSeg): (k: nat)
    ensures First(tp, seg) <= k <= |seg.data|
  {
    Max(First(tp, seg), Min(|seg.data|, RcvWnd(tp, so) - Diff(seg.sq, tp.rcvNxt)))
  }

  /** What the trimming leaves of a segment, in modular arithmetic; none when it is dropped. */
  function Trimmed(tp: Tcb, so: Sock, seg: InSeg): Option<InSeg> {
    var t := Behind(tp.rcvNxt, seg);
    var wnd := RcvWnd(tp, so);
    var over := Diff(Add(t.sq, |t.data|), Add(tp.rcvNxt, wnd));
    if over <= 0 || over < |t.data| || (wnd == 0 && t.sq == tp.rcvNxt)
    then Some(t.(data := t.data[..|t.data| - Min(Max(over, 0), |t.data|)]))
    else None
  }

  /** The segment without the data that precede rcv_nxt. */
  function Behind(nxt: tcp_seq, seg: InSeg): InSeg {
    var k := Min(Max(Diff(nxt, seg.sq), 0), |seg.data|);
    if Diff(nxt, seg.sq) > 0 then seg.(sq := Add(seg.sq, k), data := seg.data[k..]) else seg
  }

  /** The general path trims the segment to exactly its bytes in the receive window; when there are
      none it may be dropped after an ack. */
  method TrimToWindow(tp: Tcb, so: Sock, seg: InSeg) returns (ok: bool, t: InSeg, ackNow: bool)
    ensures ok ==> t == seg.(sq := t.sq, data := t.data)
    ensures Trimmed(tp, so, seg) == if ok then Some(t) else None
    ensures Next(tp, so, seg) ==> ok && t == seg && ackNow == tp.ackNow
    ensures Near(tp, so, seg) && ok ==>
      t.data == seg.data[First(tp, seg)..Last(tp, so, seg)] && t.sq == Add(seg.sq, First(tp, seg))
    ensures Near(tp, so, seg) && !ok ==> First(tp, seg) == Last(tp, so, seg)
  {
    hide Diff, Add, RcvWnd;
    var wnd := RcvWnd(tp, so);
    NextUntouched(tp, so, seg);
    if Near(tp, so, seg) {
      WindowDiffs(tp.rcvNxt, seg.sq, First(tp, seg), |seg.data|, wnd);
    }
    t, ackNow := TrimFront(tp.rcvNxt, seg, tp.ackNow);
    ghost var lo := t;
    ok, t, ackNow := TrimBack(tp.rcvNxt, wnd, t, ackNow);
    if Near(tp, so, seg) && ok {
      var a, b := First(tp, seg), Last(tp, so, seg);
      assert lo.data == seg.data[a..] && lo.data[..b - a] == seg.data[a..b];
    }
  }

  /** Neither trim touches the segment next in order that fits. */
  lemma NextUntouched(tp: Tcb, so: Sock, seg: InSeg)
    ensures Next(tp, so, seg) ==>
      Diff(tp.rcvNxt, seg.sq) == 0 && Diff(Add(seg.sq, |seg.data|), Add(tp.rcvNxt, RcvWnd(tp, so))) <= 0
  {
    DiffSelf(tp.rcvNxt);
    if Next(tp, so, seg) {
      var wnd := RcvWnd(tp, so);
      WireZero(tp.rcvNxt);
      AddWire(tp.rcvNxt, 0, |seg.data|);
      AddWire(tp.rcvNxt, 0, wnd);
      CompareWire(tp.rcvNxt, |seg.data|, wnd);
    }
  }

  /** Drop leading data that precede rcv_nxt. */
  method TrimFront(nxt: tcp_seq, seg: InSeg, ackNow0: bool) returns (t: InSeg, ackNow: bool)
    ensures t == Behind(nxt, seg)
    ensures ackNow == (ackNow0 || (Diff(nxt, seg.sq) > 0 && Diff(nxt, seg.sq) >= |seg.data|))
  {
    hide Diff, Add;
    t, ackNow := seg, ackNow0;
    var todrop := Diff(nxt, t.sq);
    if todrop > 0 {
      if todrop >= |t.data| {
        ackNow := true;
        todrop := |t.data|;
      }
      t := t.(sq := Add(t.sq, todrop), data := t.data[todrop..]);
    }
  }

  /** Drop trailing data beyond the window, or the whole segment when none of it is inside. */
  method TrimBack(nxt: tcp_seq, wnd: nat, seg: InSeg, ackNow0: bool) returns (ok: bool, t: InSeg, ackNow: bool)
    ensures var over := Diff(Add(seg.sq, |seg.data|), Add(nxt, wnd));
      && (ok <==> over <= 0 || over < |seg.data| || (wnd == 0 && seg.sq == nxt))
      && (ok ==> t == seg.(data := seg.data[..|seg.data| - Min(Max(over, 0), |seg.data|)]))
      && ackNow == (ackNow0 || (over > 0 && over >= |seg.data|))
  {
    hide Diff, Add;
    ok, t, ackNow := true, seg, ackNow0;
    var todrop := Diff(Add(t.sq, |t.data|), Add(nxt, wnd));
    if todrop > 0 {
      if todrop >= |t.data| {
        ackNow := true;
        if !(wnd == 0 && t.sq == nxt) {
          ok := false;
          return;
        }
        todrop := |t.data|;
      }
      t := t.(data := t.data[..|t.data| - todrop]);
    }
  }

  lemma WindowDiffs(nxt: tcp_seq, sq: tcp_seq, lo: nat, n: nat, wnd: nat)
    requires -0x4000_0000 < Diff(sq, nxt) < 0x4000_0000 && lo <= n <= 65535 && wnd < 0x4000_0000
    ensures Diff(nxt, sq) == -Diff(sq, nxt) && Add(sq, 0) == sq
    ensures Diff(Add(sq, n), Add(nxt, wnd)) == Diff(sq, nxt) + n - wnd
    ensures Add(Add(sq, lo), n - lo) == Add(sq, n)
    ensures Add(sq, lo) == nxt <==> Diff(sq, nxt) + lo == 0
  {
    var a := Diff(sq, nxt);
    WireOfDiff(sq, nxt);
    WireZero(nxt);
    AddWire(nxt, a, n);
    AddWire(nxt, a, lo);
    AddWire(nxt, a, 0);
    AddWire(nxt, a + lo, n - lo);
    AddWire(nxt, 0, wnd);
    CompareWire(nxt, 0, a);
    CompareWire(nxt, a + n, wnd);
    CompareWire(nxt, a + lo, 0);
  }

  /** Unsigned subtraction: snd_wnd wraps below zero when the peer has shrunk its window. */
  function Sub32(a: int, b: int): nat {
    (a - b) % U32
  }

  /** What the acknowledgment of our FIN does to the state. */
  function StateAfter(state: int, ourFinIsAcked: bool): int {
    if ourFinIsAcked && state == TCPS_FIN_WAIT_1 then TCPS_FIN_WAIT_2
    else if ourFinIsAcked && state == TCPS_CLOSING then TCPS_TIME_WAIT
    else state
  }

  /** Slow start and congestion avoidance. */
  function OpenCwnd(cw: nat, ssthresh: nat, maxseg: nat): nat {
    var incr := if cw > ssthresh then maxseg * maxseg / cw else maxseg;
    if cw + incr < TCP_MAXWIN then cw + incr else TCP_MAXWIN
  }

  /** Below the threshold every acknowledgment opens the window by a segment; it never shrinks, and stays
      within the largest window. */
  lemma WindowOpens(cw: nat, ssthresh: nat, maxseg: nat)
    ensures var w := OpenCwnd(cw, ssthresh, maxseg);
      Min(cw, TCP_MAXWIN) <= w <= TCP_MAXWIN && (cw <= ssthresh ==> w == Min(cw + maxseg, TCP_MAXWIN))
  {
  }

  /** Above it, a window of acknowledgments does. */
  lemma WindowCreeps(cw: nat, ssthresh: nat, maxseg: nat)
    requires ssthresh < cw && OpenCwnd(cw, ssthresh, maxseg) < TCP_MAXWIN
    ensures var k := OpenCwnd(cw, ssthresh, maxseg) - cw; k * cw <= maxseg * maxseg < k * cw + cw
  {
    var n := maxseg * maxseg;
    assert OpenCwnd(cw, ssthresh, maxseg) - cw == n / cw;
    hide OpenCwnd;
    DivBounds(n, cw);
  }

  lemma DivBounds(n: nat, d: nat)
    requires d > 0
    ensures n / d * d <= n < n / d * d + d
  {
  }

  /** After more duplicates than the threshold the congestion window is as large as if none had come. */
  function Deflated(tp: Tcb): nat {
    if tp.dupacks > TCPREXMTTHRESH && tp.sndCwnd > tp.sndSsthresh then tp.sndSsthresh else tp.sndCwnd
  }

  /** The acknowledgment of our FIN says that it has arrived and nothing else about either side. */
  lemma FinAckMoves(state: int)
    requires TCPS_ESTABLISHED <= state <= TCPS_TIME_WAIT && state != TCPS_LAST_ACK && HasClosed(state)
    ensures var s := StateAfter(state, true);
      FinIsAcked(s) && HasClosed(s) && GotFin(s) == GotFin(state)
    ensures StateAfter(state, false) == state
  {
  }

  /** The acknowledgment is exactly half the sequence space away from snd_max, where both orders of
      the modular comparison hold.  The sequence invariant excludes it. */
  predicate Antipodal(ack: tcp_seq, tp: Tcb) {
    Diff(ack, tp.sndMax) == -HALF
  }

  /** All that acknowledgment processing may touch. */
  predicate AckFrame(tp0: Tcb, tp: Tcb) {
    tp == tp0.(dupacks := tp.dupacks, sndCwnd := tp.sndCwnd, rt := tp.rt, rexmt := tp.rexmt, persist := tp.persist,
               sndWnd := tp.sndWnd, sndUna := tp.sndUna, sndNxt := tp.sndNxt, state := tp.state)
  }

  /** Acknowledgment processing for snd_una < ti_ack <= snd_max. */
  method NewAck(tp0: Tcb, so0: Sock, ack: tcp_seq) returns (tp: Tcb, so: Sock, needoutput: bool, verdict: Verdict)
    requires SeqGt(ack, tp0.sndUna) && SeqLeq(ack, tp0.sndMax)
    ensures TimersExclusive(tp0) ==> TimersExclusive(tp)
    ensures so == so0.(sndBuf := Drop(so0.sndBuf, Diff(ack, tp0.sndUna))) && tp.sndUna == ack
    ensures AckFrame(tp0, tp)
    ensures Sending(tp0, so0) ==> Sending(tp, so) && tp.state == tp0.state && verdict == Finish(needoutput)
    ensures Sending(tp0, so0) ==> 0 < Diff(ack, tp0.sndUna) <= |so0.sndBuf|
    ensures tp0.state == TCPS_ESTABLISHED && tp0.sndNxt == tp0.sndMax ==>
      verdict == Finish(needoutput) &&
      Observe(tp, so) == AckMeaningGeneral(tp0, so0, ack)
    ensures !verdict.FastRexmit? && !verdict.Inflate?
    ensures TCPS_ESTABLISHED <= tp0.state ==> TCPS_ESTABLISHED <= tp.state
    ensures verdict.Finish? ==> verdict == Finish(needoutput)
    ensures needoutput == (ack == tp0.sndMax) && tp.dupacks == 0 && TookAck(tp0, so0, ack, tp)
    ensures verdict.Closed? <==> tp0.state == TCPS_LAST_ACK && Diff(ack, tp0.sndUna) > |so0.sndBuf|
    ensures tp.sndWnd == Sub32(tp0.sndWnd, Min(Diff(ack, tp0.sndUna), |so0.sndBuf|))
  {
    hide Add, Diff, XmitTimer, OpenCwnd, Append, Sub32, SeqGt, SeqLt, SeqLeq, Antipodal;
    var cwnd := tp0.sndCwnd;
    if tp0.dupacks > TCPREXMTTHRESH && cwnd > tp0.sndSsthresh {
      cwnd := tp0.sndSsthresh;
    }
    assert cwnd == Deflated(tp0);
    var acked := Diff(ack, tp0.sndUna);
    var rt := tp0.rt;
    if rt.rtt != 0 && SeqGt(ack, tp0.rtseq) {
      rt := XmitTimer(rt);
    }
    var rexmt, persist := tp0.rexmt, tp0.persist;
    needoutput := false;
    if ack == tp0.sndMax {
      rexmt, needoutput := 0, true;
    } else if persist == 0 {
      rexmt := rt.cur;
    }
    cwnd := OpenCwnd(cwnd, tp0.sndSsthresh, tp0.maxseg);
    var ourFinIsAcked := acked > |so0.sndBuf|;
    var wnd := Sub32(tp0.sndWnd, if ourFinIsAcked then |so0.sndBuf| else acked);
    so := so0.(sndBuf := Drop(so0.sndBuf, acked));
    var nxt := if SeqLt(tp0.sndNxt, ack) then ack else tp0.sndNxt;
    verdict := if tp0.state == TCPS_LAST_ACK && ourFinIsAcked then Closed
               else if tp0.state == TCPS_TIME_WAIT then DropAfterAck
               else Finish(needoutput);
    var state := StateAfter(tp0.state, ourFinIsAcked);
    if tp0.state == TCPS_CLOSING && ourFinIsAcked {
      rexmt, persist := 0, 0;
    }
    ShiftUna(tp0, so0, ack);
    tp := tp0.(dupacks := 0, sndCwnd := cwnd, rt := rt, rexmt := rexmt, persist := persist, sndWnd := wnd,
               sndUna := ack, sndNxt := nxt, state := state);
  }

  /** What an acceptable acknowledgment does besides releasing data: snd_nxt is not left behind it, the
      round trip is timed, the retransmit timer stopped or restarted, the congestion window opened, and
      our FIN may be acknowledged. */
  predicate TookAck(tp0: Tcb, so0: Sock, ack: tcp_seq, tp: Tcb) {
    var finAcked := Diff(ack, tp0.sndUna) > |so0.sndBuf|;
    var over := tp0.state == TCPS_CLOSING && finAcked;
    && tp.sndNxt == (if SeqLt(tp0.sndNxt, ack) then ack else tp0.sndNxt)
    && tp.rt == RttAfter(tp0, ack) && tp.state == StateAfter(tp0.state, finAcked)
    && tp.rexmt == (if over then 0 else RexmtAfter(tp0, RttAfter(tp0, ack), ack))
    && tp.persist == (if over then 0 else tp0.persist)
    && tp.sndCwnd == OpenCwnd(Deflated(tp0), tp0.sndSsthresh, tp0.maxseg)
  }

  /** Moving snd_una up to an acknowledgment within what was sent keeps the sequence invariant. */
  lemma ShiftUna(tp: Tcb, so: Sock, ack: tcp_seq)
    requires SeqGt(ack, tp.sndUna) && SeqLeq(ack, tp.sndMax)
    ensures SeqInv(tp, so) ==>
      var k := Diff(ack, tp.sndUna);
      var nxt := if SeqLt(tp.sndNxt, ack) then ack else tp.sndNxt;
      && 0 < k <= |so.sndBuf|
      && SeqInv(tp.(sndUna := ack, sndNxt := nxt), so.(sndBuf := so.sndBuf[k..]))
    ensures tp.sndNxt == tp.sndMax ==> (SeqLt(tp.sndNxt, ack) <==> Antipodal(ack, tp))
    ensures SeqInv(tp, so) ==> !Antipodal(ack, tp)
  {
    if SeqInv(tp, so) {
      var u, k, n, m := tp.sndUna, Diff(ack, tp.sndUna), Diff(tp.sndNxt, tp.sndUna), Diff(tp.sndMax, tp.sndUna);
      WireOfDiff(ack, u);
      WireOfDiff(tp.sndNxt, u);
      WireOfDiff(tp.sndMax, u);
      DiffWireWrapped(u, k, m);
      CompareWire(u, n, k);
      CompareWire(u, m, k);
      DiffSelf(ack);
    }
  }

  /** A completely duplicate acknowledgment while data are outstanding. */
  predicate Duplicate(tp: Tcb, seg: InSeg) {
    seg.data == [] && seg.win == tp.sndWnd && tp.rexmt != 0 && seg.ack == tp.sndUna
  }

  predicate ThirdDuplicate(tp: Tcb, seg: InSeg) {
    Duplicate(tp, seg) && tp.dupacks + 1 == TCPREXMTTHRESH
  }

  /** An old acknowledgment: count it if it is a duplicate, and ask for a retransmission at exactly
      the third, for more output at every later one. */
  method DupAck(tp0: Tcb, seg: InSeg) returns (tp: Tcb, verdict: Verdict)
    ensures tp == tp0.(dupacks := if Duplicate(tp0, seg) then tp0.dupacks + 1 else 0)
    ensures verdict.FastRexmit? <==> ThirdDuplicate(tp0, seg)
    ensures verdict.Inflate? <==> Duplicate(tp0, seg) && tp0.dupacks + 1 > TCPREXMTTHRESH
    ensures verdict.FastRexmit? || verdict.Inflate? || verdict == Finish(false)
  {
    tp, verdict := tp0, Finish(false);
    if seg.data == [] && seg.win == tp.sndWnd {
      if tp.rexmt == 0 || seg.ack != tp.sndUna {
        tp := tp.(dupacks := 0);
      } else {
        tp := tp.(dupacks := tp.dupacks + 1);
        if tp.dupacks == TCPREXMTTHRESH {
          verdict := FastRexmit;
        } else if tp.dupacks > TCPREXMTTHRESH {
          verdict := Inflate;
        }
      }
    } else {
      tp := tp.(dupacks := 0);
    }
  }

  /** snd_una < ack <= snd_max. */
  predicate Acceptable(tp: Tcb, ack: tcp_seq) { SeqGt(ack, tp.sndUna) && SeqLeq(ack, tp.sndMax) }

  /** snd_max < ack: what is acknowledged was never sent. */
  predicate Unsent(tp: Tcb, ack: tcp_seq) { SeqGt(ack, tp.sndUna) && SeqGt(ack, tp.sndMax) }

  /** Acknowledgment processing lets the segment go on to step6. */
  predicate Settled(tp: Tcb, seg: InSeg) {
    || Acceptable(tp, seg.ack)
    || (SeqLeq(seg.ack, tp.sndUna) && !(Duplicate(tp, seg) && tp.dupacks + 1 >= TCPREXMTTHRESH))
  }

  /** The last acknowledgment of a closing connection: it covers our FIN, behind all of so_snd. */
  predicate FinAcked(tp: Tcb, so: Sock, ack: tcp_seq) {
    Acceptable(tp, ack) && tp.state == TCPS_LAST_ACK && Diff(ack, tp.sndUna) > |so.sndBuf|
  }

  /** snd_wnd after the acknowledgment: reduced by what is released. */
  function WndAcked(tp: Tcb, so: Sock, ack: tcp_seq): nat {
    if Acceptable(tp, ack) then Sub32(tp.sndWnd, Min(Diff(ack, tp.sndUna), |so.sndBuf|)) else tp.sndWnd
  }

  /** snd_wnd after step6: the peer's window if the segment is newer than the last update. */
  function WndFinal(tp: Tcb, so: Sock, seg: InSeg): nat {
    var wnd := WndAcked(tp, so, seg.ack);
    if Newer(tp.(sndWnd := wnd), seg) then seg.win else wnd
  }

  /** Acknowledgment processing in the synchronized states. */
  method AckProcessing(tp0: Tcb, so0: Sock, seg: InSeg) returns (tp: Tcb, so: Sock, verdict: Verdict)
    requires TCPS_ESTABLISHED <= tp0.state
    ensures TimersExclusive(tp0) ==> TimersExclusive(tp)
    ensures AckFrame(tp0, tp) && TCPS_ESTABLISHED <= tp.state
    ensures Unsent(tp0, seg.ack) ==> verdict == DropAfterAck
    ensures verdict.FastRexmit? <==> ThirdDuplicate(tp0, seg)
    ensures Acceptable(tp0, seg.ack) || Unsent(tp0, seg.ack) ==> !verdict.Inflate?
    ensures verdict.FastRexmit? ==> tp == tp0.(dupacks := tp.dupacks) && so == so0 && seg.ack == tp.sndUna
    ensures tp.sndUna == if Acceptable(tp0, seg.ack) then seg.ack else tp0.sndUna
    ensures tp.sndWnd == WndAcked(tp0, so0, seg.ack)
    ensures verdict.Closed? <==> FinAcked(tp0, so0, seg.ack)
    ensures Answers(tp0, so0, seg, tp, verdict)
    ensures verdict.Finish? ==> Settled(tp0, seg)
    ensures Sending(tp0, so0) && Settled(tp0, seg) ==> verdict.Finish?
    ensures Sending(tp0, so0) ==> Sending(tp, so) && !verdict.Closed? && tp.state == tp0.state
    ensures Sending(tp0, so0) ==> 0 <= Diff(tp.sndUna, tp0.sndUna) <= |so0.sndBuf|
    ensures Acknowledged(tp0, so0, tp, so)
    ensures seg.data != [] && seg.ack == tp0.sndUna ==>
      verdict == Finish(false) && so == so0 && tp == tp0.(dupacks := tp.dupacks)
    ensures PureAck(tp0, seg) ==> verdict.Finish? && Observe(tp, so) == AckMeaningGeneral(tp0, so0, seg.ack)
  {
    hide Add, Diff, AckMeaningGeneral;
    DiffSelf(tp0.sndUna);
    so := so0;
    if SeqLeq(seg.ack, tp0.sndUna) {
      tp, verdict := DupAck(tp0, seg);
    } else if SeqGt(seg.ack, tp0.sndMax) {
      tp := tp0.(dupacks := 0, sndCwnd := Deflated(tp0));
      verdict := DropAfterAck;
    } else {
      var needoutput;
      tp, so, needoutput, verdict := NewAck(tp0, so0, seg.ack);
    }
  }

  /** The rest of acknowledgment processing: an acceptable one is taken, an old one counted if it is a
      duplicate, one of unsent data ends the count; the verdict follows. */
  predicate Answers(tp0: Tcb, so0: Sock, seg: InSeg, tp: Tcb, verdict: Verdict) {
    if Acceptable(tp0, seg.ack) then
      && tp.dupacks == 0 && TookAck(tp0, so0, seg.ack, tp)
      && (verdict.Finish? ==> verdict.output == (seg.ack == tp0.sndMax))
    else if SeqLeq(seg.ack, tp0.sndUna) then
      && tp == tp0.(dupacks := if Duplicate(tp0, seg) then tp0.dupacks + 1 else 0)
      && (verdict.Inflate? <==> Duplicate(tp0, seg) && tp0.dupacks + 1 > TCPREXMTTHRESH)
      && (verdict.Finish? ==> !verdict.output)
    else
      tp == tp0.(dupacks := 0, sndCwnd := Deflated(tp0))
  }

  /** snd_una has advanced over the first bytes of so_snd, which are gone. */
  predicate Released(tp0: Tcb, so0: Sock, tp: Tcb, so: Sock) {
    0 <= Diff(tp.sndUna, tp0.sndUna) <= |so0.sndBuf| && so.sndBuf == Drop(so0.sndBuf, Diff(tp.sndUna, tp0.sndUna))
  }

  /** so_snd loses exactly the bytes by which snd_una advances. */
  predicate Acknowledged(tp0: Tcb, so0: Sock, tp: Tcb, so: Sock) {
    so == so0.(sndBuf := Drop(so0.sndBuf, Diff(tp.sndUna, tp0.sndUna)))
  }

  /** The segment was sent after the one that the send window was last taken from, or is the same one
      with a larger window (section 3.9 of RFC 793). */
  predicate Newer(tp: Tcb, seg: InSeg) {
    || SeqLt(tp.sndWl1, seg.sq)
    || (tp.sndWl1 == seg.sq && SeqLt(tp.sndWl2, seg.ack))
    || (tp.sndWl1 == seg.sq && tp.sndWl2 == seg.ack && tp.sndWnd < seg.win)
  }

  /** step6: take over the peer's window if the segment is newer than the last update. */
  method Step6(tp0: Tcb, seg: InSeg) returns (tp: Tcb, update: bool)
    ensures tp == tp0.(sndWnd := tp.sndWnd, sndWl1 := tp.sndWl1, sndWl2 := tp.sndWl2, maxSndwnd := tp.maxSndwnd,
                       rcvUp := tp.rcvUp)
    ensures update <==> Newer(tp0, seg)
    ensures tp.sndWnd == if update then seg.win else tp0.sndWnd
    ensures (tp.sndWl1, tp.sndWl2) == if update then (seg.sq, seg.ack) else (tp0.sndWl1, tp0.sndWl2)
    ensures tp.maxSndwnd == if update then Max(tp0.maxSndwnd, seg.win) else tp0.maxSndwnd
    ensures tp.rcvUp == if SeqGt(tp0.rcvNxt, tp0.rcvUp) then tp0.rcvNxt else tp0.rcvUp
  {
    tp, update := tp0, false;
    DiffSelf(tp.rcvNxt);
    if SeqLt(tp.sndWl1, seg.sq) ||
       (tp.sndWl1 == seg.sq && (SeqLt(tp.sndWl2, seg.ack) || (tp.sndWl2 == seg.ack && seg.win > tp.sndWnd)))
    {
      tp := tp.(sndWnd := seg.win, sndWl1 := seg.sq, sndWl2 := seg.ack,
                maxSndwnd := if seg.win > tp.maxSndwnd then seg.win else tp.maxSndwnd);
      update := true;
    }
    if SeqGt(tp.rcvNxt, tp.rcvUp) {
      tp := tp.(rcvUp := tp.rcvNxt);
    }
  }

  /** The reassembly queue, rcv_nxt and the receive side of the socket. */
  datatype Merge = Merge(queue: seq<InSeg>, rcvNxt: tcp_seq, so: Sock)

  /** What a segment's text does: nothing without data or after a FIN, hand-over in the in-order case,
      and otherwise what reassembly makes of it. */
  function Merged(state: int, m: Merge, seg: InSeg, ret: int, reass: Reass): Merge {
    if seg.data == [] || state >= TCPS_TIME_WAIT then m
    else if seg.sq == m.rcvNxt && m.queue == [] && state == TCPS_ESTABLISHED
    then Merge([], Add(m.rcvNxt, |seg.data|), Append(m.so, seg.data, ret))
    else
      var r := reass(m.queue, m.rcvNxt, seg);
      Merge(r.queue, r.rcvNxt, Append(m.so, r.presented, ret))
  }

  /** The segment's text is handed over at once and acknowledged later. */
  predicate InOrder(tp: Tcb, queue: seq<InSeg>, seg: InSeg) {
    seg.data != [] && seg.sq == tp.rcvNxt && queue == [] && tp.state == TCPS_ESTABLISHED
  }

  /** A few bytes that begin with ESC: a key was pressed, and an echo is waited for. */
  predicate Escape(seg: InSeg) { 0 < |seg.data| <= 5 && seg.first == 27 }

  /** The segment's text goes to reassembly, which calls for an immediate acknowledgment. */
  predicate OutOfOrder(tp: Tcb, queue: seq<InSeg>, seg: InSeg) {
    seg.data != [] && tp.state < TCPS_TIME_WAIT && !InOrder(tp, queue, seg)
  }

  /** dodata: TCP_REASS, then the ESC test. */
  method Text(tp0: Tcb, so0: Sock, queue0: seq<InSeg>, seg: InSeg, ret: int, reass: Reass)
    returns (tp: Tcb, so: Sock, queue: seq<InSeg>)
    ensures tp == tp0.(rcvNxt := tp.rcvNxt, ackNow := tp.ackNow, delAck := tp.delAck)
    ensures so == so0.(rcvBuf := so.rcvBuf, host := so.host)
    ensures Merge(queue, tp.rcvNxt, so) == Merged(tp0.state, Merge(queue0, tp0.rcvNxt, so0), seg, ret, reass)
    ensures tp.ackNow == (tp0.ackNow || OutOfOrder(tp0, queue0, seg) || Escape(seg))
    ensures tp.delAck == (tp0.delAck || InOrder(tp0, queue0, seg))
    ensures tp.rcvNxt != tp0.rcvNxt ==> tp.delAck || tp.ackNow
    ensures seg.data == [] ==> tp.rcvNxt == tp0.rcvNxt && so == so0 && queue == queue0
    ensures seg.data != [] && seg.sq == tp0.rcvNxt && queue0 == [] && tp0.state == TCPS_ESTABLISHED ==>
      tp.rcvNxt == Add(tp0.rcvNxt, |seg.data|) && so == Append(so0, seg.data, ret) && queue == []
  {
    tp, so, queue := tp0, so0, queue0;
    if seg.data != [] && tp.state < TCPS_TIME_WAIT {
      if seg.sq == tp.rcvNxt && queue == [] && tp.state == TCPS_ESTABLISHED {
        tp := tp.(delAck := true, rcvNxt := Add(tp.rcvNxt, |seg.data|));
        so := Append(so, seg.data, ret);
      } else {
        var r := reass(queue, tp.rcvNxt, seg);
        queue := r.queue;
        so := Append(so, r.presented, ret);
        tp := tp.(rcvNxt := r.rcvNxt, ackNow := true);
      }
    }
    if 0 < |seg.data| <= 5 && seg.first == 27 {
      tp := tp.(ackNow := true);
    }
  }

  /** From step6 to the end of tcp_input. */
  method Finishing(tp0: Tcb, so0: Sock, queue0: seq<InSeg>, seg: InSeg, ret: int, reass: Reass, needoutput: bool)
    returns (tp: Tcb, so: Sock, queue: seq<InSeg>, verdict: Verdict)
    ensures TimersExclusive(tp0) ==> TimersExclusive(tp)
    ensures tp.maxseg == tp0.maxseg && tp.force == tp0.force && tp.sndUna == tp0.sndUna && tp.state == tp0.state
    ensures so.sndBuf == so0.sndBuf && so.sndSize == so0.sndSize
    ensures verdict == Finish(needoutput || Newer(tp0, seg) || tp.ackNow)
    ensures tp.sndWnd == if Newer(tp0, seg) then seg.win else tp0.sndWnd
    ensures tp.ackNow == (tp0.ackNow || OutOfOrder(tp0, queue0, seg) || Escape(seg))
    ensures tp.delAck == (tp0.delAck || InOrder(tp0, queue0, seg))
    ensures tp.rcvNxt != tp0.rcvNxt ==> tp.delAck || tp.ackNow
    ensures tp == tp0.(sndWnd := tp.sndWnd, sndWl1 := tp.sndWl1, sndWl2 := tp.sndWl2, maxSndwnd := tp.maxSndwnd,
                       rcvUp := tp.rcvUp, rcvNxt := tp.rcvNxt, ackNow := tp.ackNow, delAck := tp.delAck)
    ensures Merge(queue, tp.rcvNxt, so) == Merged(tp0.state, Merge(queue0, tp0.rcvNxt, so0), seg, ret, reass)
    ensures Sending(tp0, so0) ==> Sending(tp, so)
    ensures seg.data == [] ==> queue == queue0 && Observe(tp, so) == Observe(tp0, so0)
    ensures seg.data != [] && seg.sq == tp0.rcvNxt && queue0 == [] && tp0.state == TCPS_ESTABLISHED ==>
      queue == [] && Observe(tp, so) == DataMeaning(tp0, so0, seg.data, ret)
  {
    hide Add, Diff, Append, Merged;
    var update;
    tp, update := Step6(tp0, seg);
    tp, so, queue := Text(tp, so0, queue0, seg, ret, reass);
    verdict := Finish(needoutput || update || tp.ackNow);
  }

  /** The segment is the next one in order, and there is room for its data. */
  predicate Next(tp: Tcb, so: Sock, seg: InSeg) {
    seg.sq == tp.rcvNxt && |so.rcvBuf| + |seg.data| <= so.rcvSize < 0x4000_0000
  }

  /** More duplicates than the threshold have come. */
  predicate Inflates(tp: Tcb, seg: InSeg) {
    SeqLeq(seg.ack, tp.sndUna) && Duplicate(tp, seg) && tp.dupacks + 1 > TCPREXMTTHRESH
  }

  /** The send side after the segment: taken with the acknowledgment, or else as it was, but for the count
      of duplicates and an inflated window. */
  predicate SendSide(tp0: Tcb, so0: Sock, seg: InSeg, tp: Tcb) {
    && tp.sndMax == tp0.sndMax && tp.sndSsthresh == tp0.sndSsthresh && tp.rtseq == tp0.rtseq && tp.maxseg == tp0.maxseg
    && tp.dupacks == (if SeqLeq(seg.ack, tp0.sndUna) && Duplicate(tp0, seg) then tp0.dupacks + 1 else 0)
    && if Acceptable(tp0, seg.ack) then TookAck(tp0, so0, seg.ack, tp)
       else
         && tp.sndNxt == tp0.sndNxt && tp.rt == tp0.rt && tp.state == tp0.state
         && tp.rexmt == tp0.rexmt && tp.persist == tp0.persist
         && tp.sndCwnd == (if SeqLeq(seg.ack, tp0.sndUna) then tp0.sndCwnd else Deflated(tp0))
  }

  /** What the general path makes of a segment that lies in the window. */
  ghost predicate Handled(tp0: Tcb, so0: Sock, queue0: seq<InSeg>, seg: InSeg, ret: int, reass: Reass,
                          tp: Tcb, so: Sock, queue: seq<InSeg>, verdict: Verdict) {
    && (verdict.FastRexmit? <==> ThirdDuplicate(tp0, seg))
    && tp.sndUna == (if Acceptable(tp0, seg.ack) then seg.ack else tp0.sndUna)
    && (verdict.Closed? <==> FinAcked(tp0, so0, seg.ack)) && (Unsent(tp0, seg.ack) ==> verdict == DropAfterAck)
    && (verdict.Finish? && OutOfOrder(tp0.(state := tp.state), queue0, seg) ==> verdict.output && tp.ackNow)
    && (verdict.Finish? && tp.rcvNxt != tp0.rcvNxt ==> tp.delAck || (verdict.output && tp.ackNow))
    && SendSide(tp0, so0, seg, tp) && (verdict.Inflate? <==> Inflates(tp0, seg))
    && (verdict.Finish? ==> Settled(tp0, seg)) && (Sending(tp0, so0) && Settled(tp0, seg) ==> verdict.Finish?)
    && (verdict.Finish? ==> tp.sndWnd == WndFinal(tp0, so0, seg))
    && (verdict.Finish? ==>
          Merge(queue, tp.rcvNxt, so) ==
          Merged(tp.state, Merge(queue0, tp0.rcvNxt, so0.(sndBuf := so.sndBuf)), seg, ret, reass))
    && (!verdict.Finish? ==> tp.sndWnd == WndAcked(tp0, so0, seg.ack))
    && (!verdict.Finish? ==> Merge(queue, tp.rcvNxt, so) == Merge(queue0, tp0.rcvNxt, so0.(sndBuf := so.sndBuf)))
    && (Sending(tp0, so0) ==> tp.state == tp0.state)
  }

  /** The general path of tcp_input, up to its closing call of tcp_output. */
  method GeneralPath(tp0: Tcb, so0: Sock, queue0: seq<InSeg>, seg: InSeg, ret: int, reass: Reass)
    returns (tp: Tcb, so: Sock, queue: seq<InSeg>, verdict: Verdict)
    requires TCPS_ESTABLISHED <= tp0.state
    ensures TimersExclusive(tp0) ==> TimersExclusive(tp)
    ensures tp.maxseg == tp0.maxseg && tp.force == tp0.force && so.sndSize == so0.sndSize
      && TCPS_ESTABLISHED <= tp.state
    ensures verdict.FastRexmit? ==> tp.sndUna == seg.ack
    ensures verdict.FastRexmit? ==> tp == tp0.(dupacks := tp.dupacks, ackNow := tp.ackNow) && so == so0
    ensures match Trimmed(tp0, so0, seg)
      case None => verdict == DropAfterAck && tp == tp0.(ackNow := tp.ackNow) && so == so0 && queue == queue0
      case Some(t) => Handled(tp0, so0, queue0, t, ret, reass, tp, so, queue, verdict)
    ensures Sending(tp0, so0) ==> Sending(tp, so) && !verdict.Closed? && Released(tp0, so0, tp, so)
    ensures PureAck(tp0, seg) && |so0.rcvBuf| <= so0.rcvSize < 0x4000_0000 ==>
      verdict.Finish? && queue == queue0 && Observe(tp, so) == AckMeaningGeneral(tp0, so0, seg.ack)
    ensures PureData(tp0, so0, queue0, seg) && so0.rcvSize < 0x4000_0000 ==>
      verdict.Finish? && queue == queue0 && Observe(tp, so) == DataMeaning(tp0, so0, seg.data, ret)
  {
    hide Sending, TimersExclusive, PureAck, PureData, AckMeaningGeneral, DataMeaning;
    hide Diff, Observe, Next, Drop, Handled, Trimmed;
    PredictedIsNext(tp0, so0, queue0, seg);
    var ok, t, ackNow := TrimToWindow(tp0, so0, seg);
    if !ok {
      Untouched(tp0, so0, ackNow);
      tp, so, queue, verdict := tp0.(ackNow := ackNow), so0, queue0, DropAfterAck;
      return;
    }
    tp, so, queue, verdict := Process(tp0.(ackNow := ackNow), so0, queue0, t, ret, reass);
    AckNowApart(tp0, so0, queue0, seg, ret, ackNow);
    HandledApart(tp0, so0, queue0, t, ret, reass, tp, so, queue, verdict, ackNow);
  }

  /** TF_ACKNOW plays no part in how a segment is handled. */
  lemma HandledApart(tp0: Tcb, so0: Sock, queue0: seq<InSeg>, seg: InSeg, ret: int, reass: Reass,
                     tp: Tcb, so: Sock, queue: seq<InSeg>, verdict: Verdict, ackNow: bool)
    requires Handled(tp0.(ackNow := ackNow), so0, queue0, seg, ret, reass, tp, so, queue, verdict)
    ensures Handled(tp0, so0, queue0, seg, ret, reass, tp, so, queue, verdict)
  {
    SendSideApart(tp0, so0, seg, tp, ackNow);
    hide Diff, Add, Append, Merged, Sub32, SendSide;
  }

  lemma SendSideApart(tp0: Tcb, so0: Sock, seg: InSeg, tp: Tcb, ackNow: bool)
    ensures SendSide(tp0.(ackNow := ackNow), so0, seg, tp) == SendSide(tp0, so0, seg, tp)
  {
    hide Diff, XmitTimer, OpenCwnd, StateAfter;
  }

  /** Nor does the idle time. */
  lemma HandledIdle(tp0: Tcb, so0: Sock, queue0: seq<InSeg>, seg: InSeg, ret: int, reass: Reass,
                    tp: Tcb, so: Sock, queue: seq<InSeg>, verdict: Verdict)
    requires Handled(tp0, so0, queue0, seg, ret, reass, tp, so, queue, verdict)
    ensures Handled(tp0, so0, queue0, seg, ret, reass, tp.(idle := 0), so, queue, verdict)
  {
    hide Diff, Add, Append, Merged, Sub32;
  }

  /** Acknowledgment and text of a segment that lies in the window. */
  method Process(tp0: Tcb, so0: Sock, queue0: seq<InSeg>, seg: InSeg, ret: int, reass: Reass)
    returns (tp: Tcb, so: Sock, queue: seq<InSeg>, verdict: Verdict)
    requires TCPS_ESTABLISHED <= tp0.state
    ensures TimersExclusive(tp0) ==> TimersExclusive(tp)
    ensures tp.maxseg == tp0.maxseg && tp.force == tp0.force && so.sndSize == so0.sndSize
      && TCPS_ESTABLISHED <= tp.state
    ensures verdict.FastRexmit? ==> tp == tp0.(dupacks := tp.dupacks) && so == so0 && seg.ack == tp.sndUna
    ensures Handled(tp0, so0, queue0, seg, ret, reass, tp, so, queue, verdict)
    ensures Sending(tp0, so0) ==> Sending(tp, so) && !verdict.Closed? && Released(tp0, so0, tp, so)
    ensures PureAck(tp0, seg) ==>
      verdict.Finish? && queue == queue0 && Observe(tp, so) == AckMeaningGeneral(tp0, so0, seg.ack)
    ensures PureData(tp0, so0, queue0, seg) ==>
      verdict.Finish? && queue == queue0 && Observe(tp, so) == DataMeaning(tp0, so0, seg.data, ret)
  {
    hide Diff, Add, Append, AckMeaningGeneral, DataMeaning, ThirdDuplicate, Acceptable, TimersExclusive, Merged,
      Settled, Answers, SendSide, Inflates, Escape, OutOfOrder, InOrder, Newer, FinAcked, Unsent, WndAcked, WndFinal;
    queue := queue0;
    tp, so, verdict := AckProcessing(tp0, so0, seg);
    SendSideBy(tp0, so0, seg, tp, verdict);
    if verdict.Finish? {
      SameMeaning(tp0, tp, so0, so, seg.data, ret);
      SameNewer(tp0, so0, tp, seg);
      ghost var tp1 := tp;
      tp, so, queue, verdict := Finishing(tp, so, queue, seg, ret, reass, verdict.output);
      SendSideSame(tp0, so0, seg, tp1, tp);
      SameOrder(tp0, tp1, queue0, seg);
    }
  }

  lemma SameOrder(tp0: Tcb, tp: Tcb, queue: seq<InSeg>, seg: InSeg)
    requires AckFrame(tp0, tp)
    ensures OutOfOrder(tp, queue, seg) == OutOfOrder(tp0.(state := tp.state), queue, seg)
  {
  }

  lemma SendSideBy(tp0: Tcb, so0: Sock, seg: InSeg, tp: Tcb, verdict: Verdict)
    requires AckFrame(tp0, tp) && Answers(tp0, so0, seg, tp, verdict)
    requires (Acceptable(tp0, seg.ack) || Unsent(tp0, seg.ack)) ==> !verdict.Inflate?
    ensures SendSide(tp0, so0, seg, tp) && (verdict.Inflate? <==> Inflates(tp0, seg))
  {
    hide Diff, TookAck;
  }

  /** Window update and text do not touch the send side. */
  lemma SendSideSame(tp0: Tcb, so0: Sock, seg: InSeg, tp: Tcb, tp': Tcb)
    requires tp' == tp.(sndWnd := tp'.sndWnd, sndWl1 := tp'.sndWl1, sndWl2 := tp'.sndWl2, maxSndwnd := tp'.maxSndwnd,
                        rcvUp := tp'.rcvUp, rcvNxt := tp'.rcvNxt, ackNow := tp'.ackNow, delAck := tp'.delAck)
    ensures SendSide(tp0, so0, seg, tp) ==> SendSide(tp0, so0, seg, tp')
  {
    hide Diff, RttAfter, RexmtAfter, OpenCwnd, StateAfter, Deflated, Acceptable, Duplicate;
  }

  /** Acknowledgment processing leaves the marks of the last window update alone. */
  lemma SameNewer(tp0: Tcb, so0: Sock, tp: Tcb, seg: InSeg)
    requires AckFrame(tp0, tp) && tp.sndWnd == WndAcked(tp0, so0, seg.ack)
    ensures WndFinal(tp0, so0, seg) == if Newer(tp, seg) then seg.win else tp.sndWnd
  {
    hide WndAcked, Diff;
  }

  /** The count of duplicate acks plays no part in what in-order data means. */
  lemma SameMeaning(tp: Tcb, tp': Tcb, so: Sock, so': Sock, data: seq<byte>, ret: int)
    ensures tp' == tp.(dupacks := tp'.dupacks) && so' == so ==>
      DataMeaning(tp', so', data, ret) == DataMeaning(tp, so, data, ret)
  {
  }

  /** Nothing but the wish to acknowledge has changed. */
  lemma Untouched(tp: Tcb, so: Sock, ackNow: bool)
    ensures TimersExclusive(tp) ==> TimersExclusive(tp.(ackNow := ackNow))
    ensures Sending(tp, so) ==> Sending(tp.(ackNow := ackNow), so) && Released(tp, so, tp.(ackNow := ackNow), so)
  {
    DiffSelf(tp.sndUna);
  }

  /** TF_ACKNOW plays no part in what a segment means. */
  lemma AckNowApart(tp: Tcb, so: Sock, queue: seq<InSeg>, seg: InSeg, ret: int, ackNow: bool)
    ensures var tp' := tp.(ackNow := ackNow);
      && (TimersExclusive(tp) ==> TimersExclusive(tp')) && (Sending(tp, so) ==> Sending(tp', so))
      && (PureAck(tp, seg) ==> PureAck(tp', seg)) && (PureData(tp, so, queue, seg) ==> PureData(tp', so, queue, seg))
      && AckMeaningGeneral(tp', so, seg.ack) == AckMeaningGeneral(tp, so, seg.ack)
      && DataMeaning(tp', so, seg.data, ret) == DataMeaning(tp, so, seg.data, ret)
      && ThirdDuplicate(tp', seg) == ThirdDuplicate(tp, seg) && Acceptable(tp', seg.ack) == Acceptable(tp, seg.ack)
  {
    hide Diff, XmitTimer, Append, Drop;
  }

  /** A predicted segment is next in order and fits. */
  lemma PredictedIsNext(tp: Tcb, so: Sock, queue: seq<InSeg>, seg: InSeg)
    ensures PureAck(tp, seg) && |so.rcvBuf| <= so.rcvSize < 0x4000_0000 ==> Next(tp, so, seg)
    ensures PureData(tp, so, queue, seg) && so.rcvSize < 0x4000_0000 ==> Next(tp, so, seg)
  {
  }
}
