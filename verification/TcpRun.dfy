/**
 * A slirp TCP connection over whole runs: `tcp_input` (with header prediction), `tcp_output`, the
 * slow and fast timers, data read from the host and state changes, in any order.
 *
 * History variables follow the data phase, from the acknowledgment of our SYN until a FIN is to be
 * sent: `stream` is everything the host gave us to send since then, `una` the stream offset of
 * snd_una, and `log` where on the stream each emitted segment lies.
 */
module TcpRun {
  import opened Common
  import opened SeqSpace
  import opened TcpStates
  import opened TcpSend
  import opened TcpInput

  /** Where on the stream a segment was sent from: the offset of its first byte, and the offset of
      snd_una and the control block at the call of tcp_output that sent it. */
  datatype Emission = Emission(pos: nat, una: nat, tp: Tcb)

  /** The segment carries exactly the stream bytes at its sequence number, not before snd_una, and
      stays in the usable window, unless it is the one-byte probe into a closed window. */
  ghost predicate OnStream(o: OutSeg, e: Emission, isn: tcp_seq, stream: seq<byte>) {
    var win := Min(e.tp.sndWnd, e.tp.sndCwnd);
    && o.sq == Wire(isn, e.pos) && e.una <= e.pos && e.tp.sndUna == Wire(isn, e.una)
    && e.pos + |o.data| <= |stream| && o.data == stream[e.pos..e.pos + |o.data|]
    && (o.data != [] ==>
          e.pos + |o.data| <= e.una + win || (e.tp.force && win == 0 && e.pos == e.una && |o.data| == 1))
    && !o.flags.syn && !o.flags.fin
  }

  /** The emission was made under the window that the control block tp shows, tcp_output being called
      with the congestion window of tp or one of a single segment. */
  predicate SentUnder(e: Emission, tp: Tcb, una: nat) {
    && e.una == una && e.tp.sndUna == tp.sndUna && e.tp.sndWnd == tp.sndWnd
    && (e.tp.sndCwnd == tp.sndCwnd || e.tp.sndCwnd == tp.maxseg)
  }

  /** So were all from a point on, and a probe is among them only if there may be one. */
  ghost predicate Sent(log: seq<Emission>, from: nat, tp: Tcb, una: nat, probe: bool) {
    forall i :: from <= i < |log| ==> SentUnder(log[i], tp, una) && (log[i].tp.force ==> probe)
  }

  ghost predicate AllOnStream(wire: seq<OutSeg>, log: seq<Emission>, isn: tcp_seq, stream: seq<byte>) {
    |wire| == |log| && forall i :: 0 <= i < |log| ==> OnStream(wire[i], log[i], isn, stream)
  }

  /** so_snd holds exactly the unacknowledged rest of the stream. */
  ghost predicate Placed(tp: Tcb, so: Sock, isn: tcp_seq, stream: seq<byte>, una: nat) {
    tp.sndUna == Wire(isn, una) && una <= |stream| && so.sndBuf == stream[una..]
  }

  function Emissions(out: seq<OutSeg>, tp: Tcb, una: nat): seq<Emission> {
    seq(|out|, i requires 0 <= i < |out| =>
      Emission(una + Max(Diff(out[i].sq, tp.sndUna), 0), una, tp))
  }

  lemma TruthfulOnStream(o: OutSeg, tp: Tcb, so: Sock, isn: tcp_seq, stream: seq<byte>, una: nat)
    requires Truthful(o, tp, so) && Placed(tp, so, isn, stream, una)
    ensures OnStream(o, Emissions([o], tp, una)[0], isn, stream)
  {
    var a := Diff(o.sq, tp.sndUna);
    WireOfDiff(o.sq, tp.sndUna);
    AddWire(isn, una, a);
    assert so.sndBuf[a..a + |o.data|] == stream[una + a..una + a + |o.data|];
  }

  lemma EmittedOnStream(wire: seq<OutSeg>, log: seq<Emission>, out: seq<OutSeg>, tp: Tcb, so: Sock, isn: tcp_seq,
                        stream: seq<byte>, una: nat)
    requires AllOnStream(wire, log, isn, stream) && AllTruthful(out, tp, so) && Placed(tp, so, isn, stream, una)
    ensures AllOnStream(wire + out, log + Emissions(out, tp, una), isn, stream)
  {
    hide OnStream, Truthful;
    forall i | 0 <= i < |out|
      ensures OnStream(out[i], Emissions(out, tp, una)[i], isn, stream)
    {
      TruthfulOnStream(out[i], tp, so, isn, stream, una);
    }
  }

  /** More data to send does not invalidate what was sent. */
  lemma GrowStream(wire: seq<OutSeg>, log: seq<Emission>, isn: tcp_seq, stream: seq<byte>, more: seq<byte>)
    requires AllOnStream(wire, log, isn, stream)
    ensures AllOnStream(wire, log, isn, stream + more)
  {
    forall i | 0 <= i < |log|
      ensures OnStream(wire[i], log[i], isn, stream + more)
    {
      var a, b := log[i].pos, log[i].pos + |wire[i].data|;
      assert (stream + more)[a..b] == stream[a..b];
    }
  }

  /** An acknowledgment within what was sent releases a prefix of so_snd and moves `una` along. */
  lemma ReleasePrefix(tp: Tcb, so: Sock, tp': Tcb, so': Sock, isn: tcp_seq, stream: seq<byte>, una: nat)
    requires Placed(tp, so, isn, stream, una) && Released(tp, so, tp', so')
    ensures Placed(tp', so', isn, stream, una + Diff(tp'.sndUna, tp.sndUna))
  {
    WireOfDiff(tp'.sndUna, tp.sndUna);
    AddWire(isn, una, Diff(tp'.sndUna, tp.sndUna));
  }

  lemma PlacedStarted(tp: Tcb, so: Sock, isn: tcp_seq, stream: seq<byte>, una: nat)
    requires Placed(tp, so, isn, stream, una)
    ensures Placed(Started(tp), so, isn, stream, una)
  {
  }

  /** Emissions of both timers are emissions under the window that is the same throughout. */
  lemma SentBoth(log1: seq<Emission>, log: seq<Emission>, from: nat, tp1: Tcb, tp2: Tcb, tp: Tcb, una: nat, probe: bool)
    requires log1 <= log && from <= |log1| && Sent(log1, from, tp1, una, false) && Sent(log, |log1|, tp2, una, probe)
    requires SameEdges(tp2, tp1) && tp2.maxseg == tp1.maxseg && tp == Aged(tp2)
    requires from < |log1| ==> tp1.sndCwnd == tp1.maxseg
    ensures Sent(log, from, tp, una, probe)
  {
    forall i | from <= i < |log|
      ensures SentUnder(log[i], tp, una) && (log[i].tp.force ==> probe)
    {
      if i < |log1| { assert log[i] == log1[i]; }
    }
  }

  lemma BackedOffApart(tp: Tcb, tp': Tcb)
    requires BackedOff(tp.(rexmt := 0), tp')
    ensures BackedOff(tp, tp')
  {
    hide Product, Range, Pow2;
  }

  lemma MaxGrows(tp0: Tcb, so: Sock, tp: Tcb, out: seq<OutSeg>, net: Supply)
    requires Dispatched(tp0, so, tp, out, net)
    ensures Diff(tp0.sndMax, tp0.sndUna) <= Diff(tp.sndMax, tp.sndUna)
  {
    hide Diff, Due, DataDue;
  }

  /** Back-off and segment size leave nothing to try. */
  predicate Exhausted(tp: Tcb) { tp.rt.shift >= TCP_MAXRXTSHIFT && tp.maxseg / 2 < 32 }

  /** The retransmission timeout up to its call of tcp_output: a longer interval, snd_nxt back at
      snd_una, one segment of congestion window, half the window as threshold. */
  predicate BackedOff(tp0: Tcb, tp: Tcb) {
    var spent := tp0.rt.shift >= TCP_MAXRXTSHIFT;
    && tp.maxseg > 0 && tp.maxseg == (if spent then tp0.maxseg / 2 else tp0.maxseg)
    && tp.sndCwnd == tp.maxseg && tp.sndNxt == tp0.sndUna && tp.rexmt == tp.rt.cur
    && tp.rt.shift == (if spent then 6 else tp0.rt.shift + 1) && tp.rt.rtt == 0 && tp.rt.min == tp0.rt.min
    && tp.rt.cur
      == Range(Product(tp0.rt.srtt / 8 + tp0.rt.rttvar, Pow2(Min(tp.rt.shift, 6))), tp0.rt.min, TCPTV_REXMTMAX)
    && (if tp.rt.shift > TCP_MAXRXTSHIFT / 4 then tp.rt.srtt == 0 && tp.rt.rttvar == tp0.rt.rttvar + tp0.rt.srtt / 8
        else tp.rt.srtt == tp0.rt.srtt && tp.rt.rttvar == tp0.rt.rttvar)
    && tp.sndSsthresh == Product(Max(Min(tp0.sndWnd, tp0.sndCwnd) / 2 / tp.maxseg, 2), tp.maxseg)
    && tp == tp0.(maxseg := tp.maxseg, rt := tp.rt, rexmt := tp.rexmt, sndNxt := tp.sndNxt, sndCwnd := tp.sndCwnd,
                  sndSsthresh := tp.sndSsthresh, dupacks := 0)
  }

  /** That, or, when nothing is left to try, giving up. */
  method BackOff(tp0: Tcb) returns (drop: bool, tp: Tcb)
    requires tp0.maxseg > 0
    ensures drop <==> Exhausted(tp0)
    ensures !drop ==> BackedOff(tp0, tp)
  {
    var shift, maxseg := tp0.rt.shift + 1, tp0.maxseg;
    drop, tp := false, tp0;
    if shift > TCP_MAXRXTSHIFT {
      maxseg := maxseg / 2;
      if maxseg < 32 {
        drop := true;
        return;
      }
      shift := 6;
    }
    BackoffDoubles(shift);
    var cur := Range(Product(tp.rt.srtt / 8 + tp.rt.rttvar, Backoff(shift)), tp.rt.min, TCPTV_REXMTMAX);
    var rt := Rtt(0, tp.rt.srtt, tp.rt.rttvar, shift, cur, tp.rt.min);
    if shift > TCP_MAXRXTSHIFT / 4 {
      rt := rt.(rttvar := rt.rttvar + rt.srtt / 8, srtt := 0);
    }
    var win := Max(Min(tp.sndWnd, tp.sndCwnd) / 2 / maxseg, 2);
    tp := tp.(maxseg := maxseg, rt := rt, rexmt := cur, sndNxt := tp.sndUna, sndCwnd := maxseg,
              sndSsthresh := Product(win, maxseg), dupacks := 0);
  }

  /** Going back to snd_una with data unacknowledged and the window open, there is something to send. */
  lemma Resend(tp: Tcb, so: Sock)
    ensures Sending(tp, so) && tp.sndNxt == tp.sndUna && Outstanding(tp) && 0 < tp.maxseg == tp.sndCwnd ==>
      Started(tp) == tp && MustSend(tp, so)
  {
    DiffSelf(tp.sndUna);
  }

  /** A forced call with room in the window, of one byte if it is closed, has something to send. */
  lemma Probe(tp: Tcb, so: Sock)
    ensures Sending(tp, so) && tp.force && 0 < tp.maxseg && 0 < Usable(tp, so) ==> MustSend(tp, so)
  {
  }

  /** Starting over changes nothing when the congestion window is a single segment. */
  lemma StartedSegment(tp: Tcb)
    ensures tp.sndCwnd == tp.maxseg ==> Started(tp) == tp
  {}

  /** Setting the persist timer changes nothing about what a forced call can send. */
  lemma Forced(tp: Tcb, tp': Tcb, so: Sock)
    requires tp' == tp.(persist := tp'.persist, rt := tp.rt.(shift := tp'.rt.shift), force := true)
    ensures Started(tp').sndCwnd == Started(tp).sndCwnd && Started(tp').sndNxt == tp.sndNxt && Started(tp').force
    ensures Usable(Started(tp'), so) == Usable(Started(tp).(force := true), so)
    ensures Sending(tp', so) ==> Sending(Started(tp'), so)
    ensures Started(tp').maxseg == tp.maxseg && Started(tp').sndUna == tp.sndUna && Started(tp').sndWnd == tp.sndWnd
  {}

  /** The retransmit timer and persist timer play no part in what can be sent. */
  lemma SameUsable(tp: Tcb, tp': Tcb, so: Sock)
    ensures tp' == tp.(rexmt := tp'.rexmt, persist := tp'.persist) ==>
      Usable(Started(tp').(force := true), so) == Usable(Started(tp).(force := true), so)
        && Started(tp').sndCwnd == Started(tp).sndCwnd
  {}

  /** Beyond the first n segments of the wire, the next one carries data from sq on. */
  predicate Resends(wire: seq<OutSeg>, n: nat, sq: tcp_seq) {
    n < |wire| && wire[n].sq == sq && wire[n].data != []
  }

  /** Data are outstanding and the peer's window is open. */
  predicate Outstanding(tp: Tcb) { tp.sndMax != tp.sndUna && tp.sndWnd > 0 }

  /** What can be seen of a connection between two events. */
  datatype Snap = Snap(
    tp: Tcb, so: Sock, queue: seq<InSeg>, gone: bool,
    live: bool, una: nat, stream: seq<byte>, wire: seq<OutSeg>, log: seq<Emission>)

  /** A call of tcp_output, or none: segments go out exactly when due, the first acknowledging what was
      received and paying what was owed, the data accounted for in snd_nxt, snd_max and the timers. */
  ghost predicate Put(a: Snap, output: bool, net: Supply, b: Snap) {
    var out := b.wire[Min(|a.wire|, |b.wire|)..];
    && b == a.(tp := b.tp, so := b.so, wire := b.wire, log := b.log)
    && SameWindow(b.tp, a.tp) && (!output ==> b == a)
    && (output && out != [] ==> Acks(out, a.tp)) && (output && net.mbufs > 0 && a.tp.ackNow ==> out != [])
    && (output && !OutFlags(a.tp.state).syn ==>
          b.so == a.so && Informed(Started(a.tp), a.so, b.tp, out != [] && net.oks > 0))
    && (output && Sending(a.tp, a.so) && 0 < a.tp.maxseg ==> Dispatched(Started(a.tp), a.so, b.tp, out, net))
  }

  lemma PutBy(a: Snap, out: seq<OutSeg>, net: Supply, b: Snap)
    requires b == a.(tp := b.tp, so := b.so, wire := a.wire + out, log := b.log)
    requires Rounds(Started(a.tp), a.so, b.tp, b.so, out) && (out != [] ==> Acks(out, a.tp))
    requires net.mbufs > 0 && a.tp.ackNow ==> out != []
    requires !OutFlags(a.tp.state).syn ==> Informed(Started(a.tp), a.so, b.tp, out != [] && net.oks > 0)
    requires Sending(a.tp, a.so) && 0 < a.tp.maxseg ==> Dispatched(Started(a.tp), a.so, b.tp, out, net)
    ensures Put(a, true, net, b)
  {
    hide Informed, Dispatched, Sending, Acks, AllTruthful, OutFlags, TimersExclusive, FarOff, Diff;
    assert b.wire[Min(|a.wire|, |b.wire|)..] == out;
  }

  /** A delayed acknowledgment that is due. */
  function Owing(a: Snap): Snap {
    if a.tp.delAck then a.(tp := a.tp.(delAck := false, ackNow := true)) else a
  }

  /** The segment taken as header prediction means it. */
  function Foreseen(a: Snap, seg: InSeg, ret: int): Snap {
    var p := Predicted(a.tp, a.so, seg, ret);
    a.(tp := a.tp.(rt := p.rt, sndUna := p.sndUna, rexmt := p.rexmt, rcvNxt := p.rcvNxt,
                   ackNow := a.tp.ackNow || seg.data != [], idle := 0),
       so := a.so.(sndBuf := p.sndBuf, rcvBuf := p.rcvBuf, host := p.host),
       una := if a.live then a.una + Max(Diff(p.sndUna, a.tp.sndUna), 0) else a.una)
  }

  /** The outcome of the general path, before its verdict is acted on. */
  ghost predicate Generally(a: Snap, seg: InSeg, ret: int, reass: Reass, m: Snap, verdict: Verdict) {
    && m == a.(tp := m.tp, so := m.so, queue := m.queue, una := m.una) && TCPS_ESTABLISHED <= m.tp.state
    && (a.live ==> !a.gone && Sending(a.tp, a.so) && Released(a.tp, a.so, m.tp, m.so))
    && m.una == (if a.live then a.una + Max(Diff(m.tp.sndUna, a.tp.sndUna), 0) else a.una)
    && (verdict.FastRexmit? ==> Outstanding(m.tp) == Outstanding(a.tp))
    && match Trimmed(a.tp, a.so, seg)
       case None =>
         verdict == DropAfterAck && m == a.(tp := a.tp.(ackNow := m.tp.ackNow, idle := 0))
       case Some(t) =>
         Handled(a.tp, a.so, a.queue, t, ret, reass, m.tp, m.so, m.queue, verdict)
  }

  lemma GenerallyBy(a: Snap, seg: InSeg, ret: int, reass: Reass, tp: Tcb, m: Snap, verdict: Verdict)
    requires m == a.(tp := tp.(idle := 0), so := m.so, queue := m.queue, una := m.una) && TCPS_ESTABLISHED <= tp.state
    requires a.live ==> !a.gone && Sending(a.tp, a.so) && Released(a.tp, a.so, tp, m.so)
    requires m.una == if a.live then a.una + Max(Diff(tp.sndUna, a.tp.sndUna), 0) else a.una
    requires verdict.FastRexmit? ==> tp == a.tp.(dupacks := tp.dupacks, ackNow := tp.ackNow)
    requires match Trimmed(a.tp, a.so, seg)
      case None => verdict == DropAfterAck && tp == a.tp.(ackNow := tp.ackNow) && m.so == a.so && m.queue == a.queue
      case Some(t) => Handled(a.tp, a.so, a.queue, t, ret, reass, tp, m.so, m.queue, verdict)
    ensures Generally(a, seg, ret, reass, m, verdict)
  {
    hide Handled, Trimmed, Diff, Sending, Drop;
    DiffSelf(a.tp.sndUna);
    match Trimmed(a.tp, a.so, seg)
    case Some(t) => HandledIdle(a.tp, a.so, a.queue, t, ret, reass, tp, m.so, m.queue, verdict);
    case None =>
  }

  /** The third duplicate up to its call of tcp_output: half the window as threshold, one segment of
      congestion window, no timing, snd_nxt back at snd_una. */
  function Halved(tp: Tcb): Tcb
    requires tp.maxseg > 0
  {
    var win := Max(Min(tp.sndWnd, tp.sndCwnd) / 2 / tp.maxseg, 2);
    tp.(sndSsthresh := Product(win, tp.maxseg), rexmt := 0, rt := tp.rt.(rtt := 0), sndNxt := tp.sndUna,
        sndCwnd := tp.maxseg)
  }

  /** The threshold is half the window in whole segments, or two segments. */
  lemma HalfTheWindow(tp: Tcb)
    requires tp.maxseg > 0
    ensures var t, half := Halved(tp).sndSsthresh, Min(tp.sndWnd, tp.sndCwnd) / 2;
      t == Product(2, tp.maxseg) || t <= half < t + tp.maxseg
  {
    var half, n := Min(tp.sndWnd, tp.sndCwnd) / 2, tp.maxseg;
    assert half == half / n * n + half % n;
  }

  /** And after it: the window inflated by the duplicates, snd_nxt where it was unless output went past. */
  function Resumed(tp: Tcb, onxt: tcp_seq): Tcb {
    tp.(sndCwnd := tp.sndSsthresh + Product(tp.maxseg, tp.dupacks),
        sndNxt := if SeqGt(onxt, tp.sndNxt) then onxt else tp.sndNxt)
  }

  method Halve(tp0: Tcb) returns (tp: Tcb)
    requires tp0.maxseg > 0
    ensures tp == Halved(tp0)
  {
    var win := Min(tp0.sndWnd, tp0.sndCwnd) / 2 / tp0.maxseg;
    if win < 2 {
      win := 2;
    }
    tp := tp0.(sndSsthresh := Product(win, tp0.maxseg), rexmt := 0, rt := tp0.rt.(rtt := 0), sndNxt := tp0.sndUna,
               sndCwnd := tp0.maxseg);
  }

  method Resume(tp0: Tcb, onxt: tcp_seq) returns (tp: Tcb)
    ensures tp == Resumed(tp0, onxt)
  {
    tp := tp0.(sndCwnd := tp0.sndSsthresh + Product(tp0.maxseg, tp0.dupacks));
    if SeqGt(onxt, tp.sndNxt) {
      tp := tp.(sndNxt := onxt);
    }
  }

  /** A fast retransmit resends from snd_una and goes on where sending was. */
  ghost predicate Retransmitted(m: Snap, net: Supply, b: Snap)
    requires m.tp.maxseg > 0
  {
    && (m.live && net.mbufs > 0 && Outstanding(m.tp) ==> Resends(b.wire, |m.wire|, m.tp.sndUna))
    && exists n :: Put(m.(tp := Halved(m.tp)), true, net, n) && b == n.(tp := Resumed(n.tp, m.tp.sndNxt))
  }

  /** What remains of tcp_input after its verdict. */
  ghost predicate Acted(m: Snap, verdict: Verdict, net: Supply, b: Snap) {
    match verdict
    case Finish(output) => Put(m, output, net, b)
    case DropAfterAck => Put(m.(tp := m.tp.(ackNow := true)), true, net, b)
    case Inflate => Put(m.(tp := m.tp.(sndCwnd := m.tp.sndCwnd + m.tp.maxseg)), true, net, b)
    case FastRexmit => m.tp.maxseg > 0 && Retransmitted(m, net, b)
    case Closed => b == m.(gone := true, live := false)
  }

  /** It moves neither the windows nor what was received, answers what is to be answered and leaves
      nothing owed that is not paid or still marked. */
  ghost predicate Reacted(m: Snap, verdict: Verdict, net: Supply, b: Snap) {
    var out := b.wire[Min(|m.wire|, |b.wire|)..];
    && b == m.(tp := b.tp, wire := b.wire, log := b.log, gone := b.gone, live := b.live)
    && (b.gone <==> m.gone || verdict.Closed?) && (b.live <==> m.live && !b.gone) && SameWindow(b.tp, m.tp)
    && (verdict.FastRexmit? && m.live && net.mbufs > 0 && Outstanding(m.tp) ==> Resends(b.wire, |m.wire|, m.tp.sndUna))
    && (verdict.DropAfterAck? && net.mbufs > 0 ==> Acks(out, m.tp))
    && (verdict == Finish(true) && net.mbufs > 0 && m.tp.ackNow ==> Acks(out, m.tp))
    && (verdict.Finish? && m.tp.delAck ==> b.tp.delAck || Acks(out, m.tp))
    && (verdict == Finish(true) && m.tp.ackNow ==> b.tp.ackNow || Acks(out, m.tp))
  }

  lemma ActedKeeps(m: Snap, verdict: Verdict, net: Supply, b: Snap)
    requires Acted(m, verdict, net, b) && TCPS_ESTABLISHED <= m.tp.state && (m.live ==> !m.gone)
    ensures Reacted(m, verdict, net, b)
  {
    hide Dispatched, Sending, Announced, Resends, Outstanding, Product;
    match verdict
    case FastRexmit =>
      var n :| Put(m.(tp := Halved(m.tp)), true, net, n) && b == n.(tp := Resumed(n.tp, m.tp.sndNxt));
    case Finish(output) =>
    case DropAfterAck =>
    case Inflate =>
    case Closed =>
  }

  /** A segment outside the receive window is acknowledged and has no other effect. */
  ghost predicate Refused(a: Snap, net: Supply, b: Snap) {
    && b == a.(tp := b.tp, wire := b.wire, log := b.log) && SameWindow(b.tp, a.tp)
    && (net.mbufs > 0 ==> Acks(b.wire[Min(|a.wire|, |b.wire|)..], a.tp))
  }

  /** A segment, trimmed to the window, moves snd_una exactly to an acceptable acknowledgment, ends the
      connection exactly when it acknowledges the last FIN, and in the data phase releases what it
      acknowledges, updates the send window if it is newer, and has its text merged; text out of order
      and acknowledgments of what was not sent are answered, the third duplicate brings a resend. */
  ghost predicate Absorbed(a: Snap, t: InSeg, ret: int, net: Supply, reass: Reass, b: Snap) {
    var out := b.wire[Min(|a.wire|, |b.wire|)..];
    var kept := Merge(a.queue, a.tp.rcvNxt, a.so.(sndBuf := b.so.sndBuf));
    && b.stream == a.stream && b.tp.sndUna == (if Acceptable(a.tp, t.ack) then t.ack else a.tp.sndUna)
    && (b.gone <==> a.gone || FinAcked(a.tp, a.so, t.ack))
    && (a.live ==>
          && Released(a.tp, a.so, b.tp, b.so) && b.una == a.una + Diff(b.tp.sndUna, a.tp.sndUna)
          && b.tp.sndWnd == (if Settled(a.tp, t) then WndFinal(a.tp, a.so, t) else WndAcked(a.tp, a.so, t.ack))
          && Merge(b.queue, b.tp.rcvNxt, b.so)
             == (if Settled(a.tp, t) then Merged(a.tp.state, kept, t, ret, reass) else kept))
    && (a.live && net.mbufs > 0 && Settled(a.tp, t) && OutOfOrder(a.tp, a.queue, t) ==> Acks(out, b.tp))
    && (net.mbufs > 0 && Unsent(a.tp, t.ack) ==> Acks(out, b.tp))
    && (a.live && b.tp.rcvNxt != a.tp.rcvNxt ==> Acks(out, b.tp) || Owes(b.tp, net))
    && (a.live && net.mbufs > 0 && ThirdDuplicate(a.tp, t) && Outstanding(a.tp) ==> Resends(b.wire, |a.wire|, t.ack))
  }

  /** An acknowledgment is owed, to the fast timer or for want of an mbuf. */
  predicate Owes(tp: Tcb, net: Supply) { tp.delAck || (tp.ackNow && net.mbufs == 0) }

  /** The general path and what follows on its verdict, one after the other. */
  ghost predicate InSteps(a: Snap, seg: InSeg, ret: int, net: Supply, reass: Reass, b: Snap) {
    exists m, verdict :: Generally(a, seg, ret, reass, m, verdict) && Acted(m, verdict, net, b)
  }

  /** What tcp_input does with a segment. */
  ghost predicate Took(a: Snap, seg: InSeg, ret: int, net: Supply, reass: Reass, b: Snap) {
    if PureAck(a.tp, seg) || PureData(a.tp, a.so, a.queue, seg) then
      var m := Foreseen(a, seg, ret);
      Put(m, seg.data != [] || m.so.sndBuf != [], net, b)
    else
      match Trimmed(a.tp, a.so, seg)
      case None => Refused(a, net, b) && InSteps(a, seg, ret, net, reass, b)
      case Some(t) => Absorbed(a, t, ret, net, reass, b) && InSteps(a, seg, ret, net, reass, b)
  }

  lemma TookGeneral(a: Snap, seg: InSeg, ret: int, net: Supply, reass: Reass, m: Snap, verdict: Verdict, b: Snap)
    requires !(PureAck(a.tp, seg) || PureData(a.tp, a.so, a.queue, seg))
    requires Generally(a, seg, ret, reass, m, verdict) && Acted(m, verdict, net, b)
    ensures Took(a, seg, ret, net, reass, b)
  {
    ActedKeeps(m, verdict, net, b);
    hide Trimmed, PureAck, PureData, Absorbed, Handled, Acks, Released, Sending, Diff, Acted;
    match Trimmed(a.tp, a.so, seg)
    case None =>
      AcksAlike(b.wire[Min(|a.wire|, |b.wire|)..], a.tp, m.tp);
    case Some(t) =>
      AbsorbedBy(a, t, ret, net, reass, m, verdict, b);
  }

  lemma AbsorbedBy(a: Snap, t: InSeg, ret: int, net: Supply, reass: Reass, m: Snap, verdict: Verdict, b: Snap)
    requires m == a.(tp := m.tp, so := m.so, queue := m.queue, una := m.una)
    requires a.live ==> !a.gone && Sending(a.tp, a.so) && Released(a.tp, a.so, m.tp, m.so)
    requires m.una == if a.live then a.una + Max(Diff(m.tp.sndUna, a.tp.sndUna), 0) else a.una
    requires verdict.FastRexmit? ==> Outstanding(m.tp) == Outstanding(a.tp)
    requires Handled(a.tp, a.so, a.queue, t, ret, reass, m.tp, m.so, m.queue, verdict)
    requires Reacted(m, verdict, net, b)
    ensures Absorbed(a, t, ret, net, reass, b)
  {
    hide Sending, Diff, Merged, Drop, Resends, Acceptable, WndFinal, SendSide;
  }

  lemma AcksAlike(out: seq<OutSeg>, tp: Tcb, tp': Tcb)
    requires tp'.rcvNxt == tp.rcvNxt
    ensures Acks(out, tp') == Acks(out, tp)
  {}

  /** What prediction computes, in one record. */
  lemma ForeseenIs(a: Snap, seg: InSeg, ret: int, m: Snap)
    requires Observe(m.tp, m.so) == Predicted(a.tp, a.so, seg, ret)
    requires m.tp == a.tp.(rt := m.tp.rt, sndUna := m.tp.sndUna, rexmt := m.tp.rexmt, rcvNxt := m.tp.rcvNxt,
                           ackNow := m.tp.ackNow, idle := 0)
    requires m.so == a.so.(sndBuf := m.so.sndBuf, rcvBuf := m.so.rcvBuf, host := m.so.host)
    requires m == a.(tp := m.tp, so := m.so, una := m.una) && m.tp.ackNow == (a.tp.ackNow || seg.data != [])
    requires m.una == if a.live then a.una + Max(Diff(m.tp.sndUna, a.tp.sndUna), 0) else a.una
    ensures m == Foreseen(a, seg, ret)
  {
    hide Predicted, Diff;
  }

  /** One interval of a timer. */
  function Ticked(t: int): int { if t != 0 then t - 1 else 0 }

  /** Another interval without a segment. */
  function Aged(tp: Tcb): Tcb {
    tp.(idle := tp.idle + 1, rt := if tp.rt.rtt != 0 then tp.rt.(rtt := tp.rt.rtt + 1) else tp.rt)
  }

  /** The persist timeout up to its call of tcp_output: the next interval, and the call forced. */
  function Prodded(tp: Tcb): Tcb { PersistSet(tp).(force := true) }

  /** A tick of the slow timer: both timers count down; if neither runs out nothing else happens.  The
      retransmit timer running out ends the connection exactly when nothing is left to try, and
      otherwise resends from snd_una; the persist timer running out forces data out. */
  ghost predicate SlowEffect(a: Snap, net: Supply, b: Snap) {
    && b == a.(tp := b.tp, so := b.so, wire := b.wire, log := b.log, gone := b.gone, live := b.live)
    && (b.gone <==> a.gone || (a.tp.rexmt == 1 && Exhausted(a.tp)))
    && SameEdges(b.tp, a.tp) && (!OutFlags(a.tp.state).syn ==> b.so == a.so)
    && (a.tp.rexmt != 1 && a.tp.persist != 1 ==>
          b == a.(tp := Aged(a.tp.(rexmt := Ticked(a.tp.rexmt), persist := Ticked(a.tp.persist)))))
    && (a.tp.rexmt == 1 && b.live && net.mbufs > 0 && Outstanding(a.tp) ==> Resends(b.wire, |a.wire|, a.tp.sndUna))
    && (a.tp.persist == 1 && b.live && net.mbufs > 0 && Usable(Started(a.tp).(force := true), a.so) > 0 ==>
          Resends(b.wire, |a.wire|, a.tp.sndNxt))
    && InTurn(a, net, b)
  }

  /** First the retransmit timer, then the persist timer, then the counts of idle and round-trip time. */
  ghost predicate InTurn(a: Snap, net: Supply, b: Snap) {
    exists m, n :: RexmtEffect(a, net, m) &&
      if m.gone then b == m && n == m else PersistEffect(m, net, n) && b == n.(tp := Aged(n.tp))
  }

  /** The persist timeout as a whole. */
  ghost predicate Probed(a: Snap, net: Supply, b: Snap) {
    exists n :: Put(a.(tp := Prodded(a.tp)), true, net, n) && b == n.(tp := n.tp.(force := false))
  }

  /** The retransmit timeout as a whole, unless it gives up. */
  ghost predicate Retried(a: Snap, net: Supply, b: Snap) {
    exists tp :: BackedOff(a.tp, tp) && Put(a.(tp := tp), true, net, b)
  }

  /** The retransmit timer's part. */
  ghost predicate RexmtEffect(a: Snap, net: Supply, b: Snap) {
    && b == a.(tp := b.tp, so := b.so, wire := b.wire, log := b.log, gone := b.gone, live := b.live)
    && (b.gone <==> a.gone || (a.tp.rexmt == 1 && Exhausted(a.tp)))
    && SameEdges(b.tp, a.tp) && (!OutFlags(a.tp.state).syn ==> b.so == a.so)
    && (a.tp.rexmt != 1 ==> b == a.(tp := a.tp.(rexmt := Ticked(a.tp.rexmt))))
    && (a.tp.rexmt == 1 && b.live && net.mbufs > 0 && Outstanding(a.tp) ==> Resends(b.wire, |a.wire|, a.tp.sndUna))
    && (a.tp.rexmt == 1 && !b.gone ==> Retried(a, net, b))
  }

  /** The persist timer's part. */
  ghost predicate PersistEffect(a: Snap, net: Supply, b: Snap) {
    && b == a.(tp := b.tp, so := b.so, wire := b.wire, log := b.log)
    && SameEdges(b.tp, a.tp) && (!OutFlags(a.tp.state).syn ==> b.so == a.so)
    && (a.tp.persist != 1 ==> b == a.(tp := a.tp.(persist := Ticked(a.tp.persist))))
    && (a.tp.persist == 1 && b.live && net.mbufs > 0 && Usable(Started(a.tp).(force := true), a.so) > 0 ==>
          Resends(b.wire, |a.wire|, a.tp.sndNxt))
    && (a.tp.persist == 1 ==> Probed(a, net, b))
  }

  lemma RexmtTicks(a: Snap, net: Supply, b: Snap)
    requires a.tp.rexmt != 1 && b == a.(tp := a.tp.(rexmt := Ticked(a.tp.rexmt)))
    ensures RexmtEffect(a, net, b)
  {
    hide Retried, Resends;
  }

  /** What the timeout does to the connection that has just counted to 0 it does to the one that counts. */
  lemma RexmtRunsOut(a: Snap, net: Supply, b: Snap)
    requires a.tp.rexmt == 1
      && b == a.(tp := b.tp, so := b.so, wire := b.wire, log := b.log, gone := b.gone, live := b.live)
    requires (b.gone <==> a.gone || Exhausted(a.tp)) && SameEdges(b.tp, a.tp)
      && (!OutFlags(a.tp.state).syn ==> b.so == a.so)
    requires b.live && net.mbufs > 0 && Outstanding(a.tp) ==> Resends(b.wire, |a.wire|, a.tp.sndUna)
    requires !b.gone ==> Retried(a.(tp := a.tp.(rexmt := 0)), net, b)
    ensures RexmtEffect(a, net, b)
  {
    hide Put, BackedOff, Resends, OutFlags;
    if !b.gone {
      var tp :| BackedOff(a.tp.(rexmt := 0), tp) && Put(a.(tp := tp), true, net, b);
      BackedOffApart(a.tp, tp);
    }
  }

  lemma PersistTicks(a: Snap, net: Supply, b: Snap)
    requires a.tp.persist != 1 && b == a.(tp := a.tp.(persist := Ticked(a.tp.persist)))
    ensures PersistEffect(a, net, b)
  {
    hide Probed, Resends, Usable;
  }

  lemma PersistRunsOut(a: Snap, net: Supply, b: Snap)
    requires a.tp.persist == 1 && b == a.(tp := b.tp, so := b.so, wire := b.wire, log := b.log) && SameEdges(b.tp, a.tp)
    requires b.live && net.mbufs > 0 && Usable(Started(a.tp.(persist := 0)).(force := true), a.so) > 0 ==>
      Resends(b.wire, |a.wire|, a.tp.sndNxt)
    requires Probed(a.(tp := a.tp.(persist := 0)), net, b)
    ensures PersistEffect(a, net, b)
  {
    hide Put, PersistSet, Resends, Usable;
    PersistApart(a.tp);
    SameUsable(a.tp, a.tp.(persist := 0), a.so);
    var n :| Put(a.(tp := Prodded(a.tp)), true, net, n) && b == n.(tp := n.tp.(force := false));
    PutKeeps(a.(tp := Prodded(a.tp)), net, n);
  }

  lemma SlowBoth(a: Snap, net: Supply, m: Snap, b: Snap)
    requires !a.gone && TimersExclusive(a.tp) && RexmtEffect(a, net, m) && !m.gone && PersistEffect(m, net, b)
    requires m.wire <= b.wire
    ensures SlowEffect(a, net, b.(tp := Aged(b.tp)))
  {
    hide Usable, OutFlags, Outstanding, Started, Retried, Probed, Exhausted;
    SameUsable(a.tp, m.tp, a.so);
    assert InTurn(a, net, b.(tp := Aged(b.tp)));
  }

  lemma SlowGone(a: Snap, net: Supply, b: Snap)
    requires !a.gone && RexmtEffect(a, net, b) && b.gone && (b.live ==> !b.gone) && TimersExclusive(a.tp)
    ensures SlowEffect(a, net, b)
  {
    hide Usable, OutFlags, Outstanding, Started, Retried, Probed, Exhausted;
    assert InTurn(a, net, b);
  }

  lemma PutNone(a: Snap, net: Supply)
    ensures Put(a, false, net, a)
  {
  }

  lemma PutKeeps(a: Snap, net: Supply, b: Snap)
    requires Put(a, true, net, b)
    ensures !OutFlags(a.tp.state).syn ==> b.so == a.so
  {
    hide Dispatched, Informed, OutFlags;
  }

  lemma PersistApart(tp: Tcb)
    ensures var tp' := PersistSet(tp);
      tp' == tp.(persist := tp'.persist, rt := tp.rt.(shift := tp'.rt.shift)) && tp'.persist >= TCPTV_PERSMIN
    ensures forall k :: Prodded(tp.(persist := k)) == Prodded(tp)
  {
  }

  /** The state of the connection changes elsewhere. */
  function Moved(a: Snap, state: int, cancel: bool): Snap {
    a.(live := a.live && (state == TCPS_ESTABLISHED || state == TCPS_CLOSE_WAIT),
       tp := a.tp.(state := state, rexmt := if cancel then 0 else a.tp.rexmt,
                   persist := if cancel then 0 else a.tp.persist))
  }

  /** The retransmit timer, when started, runs. */
  predicate Paced(tp: Tcb) { 0 < tp.rt.min && 0 < tp.rt.cur }

  /** It keeps doing so, whatever round-trip times are measured and however often it runs out. */
  lemma StaysPaced(tp: Tcb, ack: tcp_seq, tp': Tcb)
    requires Paced(tp)
    ensures Paced(tp.(rt := RttAfter(tp, ack))) && (BackedOff(tp, tp') ==> Paced(tp'))
  {
    hide Diff, Pow2, Product;
  }

  lemma PredictedPaced(tp0: Tcb, so0: Sock, seg: InSeg, ret: int, tp: Tcb, so: Sock)
    requires Observe(tp, so) == Predicted(tp0, so0, seg, ret)
    ensures Paced(tp0) ==> Paced(tp)
  {
    hide Diff, XmitTimer, Append;
    if Paced(tp0) { StaysPaced(tp0, seg.ack, tp); }
  }

  lemma GenerallyPaced(tp0: Tcb, so0: Sock, queue0: seq<InSeg>, seg: InSeg, ret: int, reass: Reass,
                       tp: Tcb, so: Sock, queue: seq<InSeg>, verdict: Verdict)
    requires match Trimmed(tp0, so0, seg)
      case None => tp == tp0.(ackNow := tp.ackNow)
      case Some(t) => Handled(tp0, so0, queue0, t, ret, reass, tp, so, queue, verdict)
    ensures Paced(tp0) ==> Paced(tp)
  {
    hide Diff, XmitTimer, Append, Merged, RttAfter, RexmtAfter, Trimmed;
    if Paced(tp0) {
      match Trimmed(tp0, so0, seg)
      case Some(t) => StaysPaced(tp0, t.ack, tp);
      case None =>
    }
  }

  class Conn {
    var tp: Tcb
    var so: Sock
    var queue: seq<InSeg>
    var wire: seq<OutSeg>      // everything handed to ip_output
    var gone: bool             // tcp_close has freed the control block
    const reass: Reass
    const paced: bool          // the interval of the retransmit timer began positive

    // History variables.
    var live: bool             // in the data phase
    var isn: tcp_seq
    var stream: seq<byte>
    var una: nat
    var phase: nat             // length of `wire` when the data phase began
    var log: seq<Emission>

    ghost predicate Valid()
      reads this
    {
      && TimersExclusive(tp) && tp.maxseg > 0 && (paced ==> Paced(tp))
      && phase <= |wire| && (live ==> !gone)
      && (live ==> Sending(tp, so) && Placed(tp, so, isn, stream, una) && AllOnStream(wire[phase..], log, isn, stream))
    }

    function Shot(): Snap
      reads this
    {
      Snap(tp, so, queue, gone, live, una, stream, wire, log)
    }

    /** A fresh control block: timers off. */
    constructor (tp: Tcb, so: Sock, reass: Reass)
      requires tp.rexmt == 0 && tp.persist == 0 && tp.maxseg > 0
      ensures Valid() && Shot() == Snap(tp, so, [], false, false, 0, [], [], []) && this.reass == reass
        && paced == Paced(tp)
    {
      this.tp, this.so, this.reass, paced := tp, so, reass, Paced(tp);
      queue, wire, gone := [], [], false;
      live, isn, stream, una, phase, log := false, 0, [], 0, 0, [];
    }

    /** tcp_output. */
    method Output(net: Supply)
      requires Valid()
      modifies this`tp, this`so, this`wire, this`log
      ensures Valid() && SameWindow(tp, old(tp)) && old(wire) <= wire
      ensures live ==> so == old(so) && Diff(old(tp).sndMax, old(tp).sndUna) <= Diff(tp.sndMax, tp.sndUna)
      ensures live ==> tp.maxseg == old(tp).maxseg && tp.sndCwnd == Started(old(tp)).sndCwnd
      ensures FarOff(old(tp)) ==> FarOff(tp)
      ensures old(log) <= log && |log| - |old(log)| == |wire| - |old(wire)|
      ensures forall i :: |old(log)| <= i < |log| ==> log[i].una == una && log[i].tp == Started(old(tp))
      ensures Put(old(Shot()), true, net, Shot())
      ensures live ==> Dispatched(Started(old(tp)), old(so), tp, wire[|old(wire)|..], net)
    {
      hide Diff, Truthful, OnStream, Acks, OutFlags, Informed, Dispatched, Put;
      var out;
      var sent := Started(tp);
      if live { PlacedStarted(tp, so, isn, stream, una); }
      tp, so, out := TcpOutput(tp, so, net);
      if live {
        MaxGrows(sent, so, tp, out, net);
        EmittedOnStream(wire[phase..], log, out, sent, so, isn, stream, una);
        assert (wire + out)[phase..] == wire[phase..] + out;
      }
      wire := wire + out;
      assert wire[|old(wire)|..] == out;
      log := log + Emissions(out, sent, una);
      PutBy(old(Shot()), out, net, Shot());
    }

    /** Change what the order of the sequence numbers does not depend on. */
    method Adjust(tp1: Tcb)
      requires Valid() && TimersExclusive(tp1) && tp1.rt.min == tp.rt.min && tp1.rt.cur == tp.rt.cur
      requires tp1 == tp.(ackNow := tp1.ackNow, delAck := tp1.delAck, sndCwnd := tp1.sndCwnd, idle := tp1.idle,
                          rt := tp1.rt, rexmt := tp1.rexmt, persist := tp1.persist, force := tp1.force)
      modifies this`tp
      ensures Valid() && tp == tp1
    {
      hide Diff, AllOnStream;
      tp := tp1;
    }

    /** Take over the records an input routine has computed; a segment resets the idle time. */
    method Commit(tp1: Tcb, so1: Sock)
      requires Valid() && TimersExclusive(tp1) && tp1.maxseg > 0 && (Paced(tp) ==> Paced(tp1))
      requires live ==> Sending(tp1, so1) && Released(tp, so, tp1, so1)
      modifies this`tp, this`so, this`una
      ensures Valid() && tp == tp1.(idle := 0) && so == so1
      ensures una == if live then old(una) + Max(Diff(tp1.sndUna, old(tp).sndUna), 0) else old(una)
    {
      hide Diff, OnStream, AllOnStream, Wire;
      if live {
        ReleasePrefix(tp, so, tp1, so1, isn, stream, una);
        una := una + Diff(tp1.sndUna, tp.sndUna);
      }
      tp, so := tp1.(idle := 0), so1;
    }

    /** tcp_input for a segment with TH_ACK and none of SYN, FIN, RST, URG on a synchronized
        connection; `ret` is what slirp_send would return. */
    method Input(seg: InSeg, ret: int, net: Supply)
      requires Valid() && TCPS_ESTABLISHED <= tp.state
      modifies this`tp, this`so, this`queue, this`una, this`wire, this`log, this`gone, this`live
      ensures Valid() && old(wire) <= wire && (old(live) && !gone ==> live) && tp.force == old(tp).force
      ensures old(log) <= log && |log| - |old(log)| == |wire| - |old(wire)|
      ensures live ==> old(live) && so.sndSize == old(so).sndSize && Sent(log, |old(log)|, tp, una, tp.force)
      ensures Took(old(Shot()), seg, ret, net, reass, Shot())
    {
      hide Valid, PureAck, PureData, Predicted, Observe, Foreseen, Generally, Acted, Absorbed, Refused, Trimmed, Sent,
        Diff, OutFlags, Dispatched, Informed;
      ghost var a := Shot();
      var taken, tp1, so1, output := FastPath(tp, so, queue, seg, ret);
      if taken {
        InputFast(seg, ret, tp1, so1);
        InputOutput(output, net);
      } else {
        var verdict := InputGeneral(seg, ret);
        ghost var m := Shot();
        Act(verdict, net);
        TookGeneral(a, seg, ret, net, reass, m, verdict, Shot());
      }
    }

    /** The closing call of tcp_output. */
    method InputOutput(output: bool, net: Supply)
      requires Valid()
      modifies this`tp, this`so, this`wire, this`log
      ensures Valid() && old(wire) <= wire && tp.force == old(tp).force
      ensures old(log) <= log && |log| - |old(log)| == |wire| - |old(wire)|
      ensures live ==> so == old(so) && tp.maxseg == old(tp).maxseg && Sent(log, |old(log)|, tp, una, tp.force)
      ensures Put(old(Shot()), output, net, Shot())
    {
      hide Valid, Diff, Acks, OutFlags, Dispatched, Informed;
      if output {
        Output(net);
      }
    }

    method InputFast(seg: InSeg, ret: int, tp1: Tcb, so1: Sock)
      requires Valid() && (PureAck(tp, seg) || PureData(tp, so, queue, seg))
      requires Observe(tp1, so1) == Predicted(tp, so, seg, ret)
      requires tp1 == tp.(rt := tp1.rt, sndUna := tp1.sndUna, rexmt := tp1.rexmt, rcvNxt := tp1.rcvNxt,
                          ackNow := tp1.ackNow)
      requires so1 == so.(sndBuf := so1.sndBuf, rcvBuf := so1.rcvBuf, host := so1.host)
      requires tp1.ackNow == (tp.ackNow || seg.data != [])
      modifies this`tp, this`so, this`una
      ensures Valid() && tp == tp1.(idle := 0) && so == so1
      ensures Shot() == Foreseen(old(Shot()), seg, ret)
    {
      hide Sending, TimersExclusive, PureAck, PureData, Predicted, AllOnStream, Placed, Released, Foreseen, Diff;
      FastKeeps(tp, so, queue, seg, ret, tp1, so1);
      PredictedPaced(tp, so, seg, ret, tp1, so1);
      Commit(tp1, so1);
      ForeseenIs(old(Shot()), seg, ret, Shot());
    }

    method InputGeneral(seg: InSeg, ret: int) returns (verdict: Verdict)
      requires Valid() && TCPS_ESTABLISHED <= tp.state
      modifies this`tp, this`so, this`una, this`queue
      ensures Valid() && (verdict.FastRexmit? ==> seg.ack == tp.sndUna) && (live ==> !verdict.Closed?)
      ensures tp.force == old(tp).force && so.sndSize == old(so).sndSize && TCPS_ESTABLISHED <= tp.state
      ensures Generally(old(Shot()), seg, ret, reass, Shot(), verdict)
    {
      hide Sending, TimersExclusive, PureAck, PureData, Observe, AllOnStream, Placed, Drop, AckMeaningGeneral,
        DataMeaning;
      hide Handled, Trimmed, Diff, Released, Generally;
      var tp1, so1, queue1;
      tp1, so1, queue1, verdict := GeneralPath(tp, so, queue, seg, ret, reass);
      GenerallyPaced(tp, so, queue, seg, ret, reass, tp1, so1, queue1, verdict);
      Commit(tp1, so1);
      queue := queue1;
      GenerallyBy(old(Shot()), seg, ret, reass, tp1, Shot(), verdict);
    }

    /** What remains of tcp_input after the general path. */
    method Act(verdict: Verdict, net: Supply)
      requires Valid() && (live ==> !verdict.Closed?) && TCPS_ESTABLISHED <= tp.state
      modifies this`tp, this`so, this`wire, this`log, this`gone, this`live
      ensures Valid() && old(wire) <= wire && (old(live) && !gone ==> live) && tp.force == old(tp).force
      ensures old(log) <= log && |log| - |old(log)| == |wire| - |old(wire)|
      ensures live ==> old(live) && so == old(so) && Sent(log, |old(log)|, tp, una, tp.force)
      ensures Acted(old(Shot()), verdict, net, Shot())
    {
      hide Sending, Placed, AllOnStream, Sent, Put, Resends, Outstanding, Retransmitted, Paced;
      match verdict
      case Finish(output) =>
        Respond(tp, output, net);
      case DropAfterAck =>
        Respond(tp.(ackNow := true), true, net);
      case Inflate =>
        Respond(tp.(sndCwnd := tp.sndCwnd + tp.maxseg), true, net);
      case FastRexmit =>
        FastRetransmit(net);
      case Closed =>
        gone, live := true, false;
    }

    /** Call tcp_output, or not. */
    method Respond(tp1: Tcb, output: bool, net: Supply)
      requires Valid() && tp1 == tp.(ackNow := tp1.ackNow, sndCwnd := tp1.sndCwnd)
      modifies this`tp, this`so, this`wire, this`log
      ensures Valid() && old(wire) <= wire && tp.force == old(tp).force
      ensures old(log) <= log && |log| - |old(log)| == |wire| - |old(wire)|
      ensures live ==> so == old(so) && Sent(log, |old(log)|, tp, una, tp.force)
      ensures Put(old(Shot()).(tp := tp1), output, net, Shot())
    {
      hide Sending, Placed, AllOnStream, Sent, Put, Paced;
      Adjust(tp1);
      InputOutput(output, net);
    }

    /** The third duplicate acknowledgment: resend one segment from snd_una, then put snd_nxt back. */
    method FastRetransmit(net: Supply)
      requires Valid()
      modifies this`tp, this`so, this`wire, this`log
      ensures Valid() && old(wire) <= wire && tp.force == old(tp).force
      ensures old(log) <= log && |log| - |old(log)| == |wire| - |old(wire)|
      ensures live ==> so == old(so) && Sent(log, |old(log)|, tp, una, tp.force)
      ensures live ==> forall i :: |old(log)| <= i < |log| ==> log[i].tp.sndCwnd == tp.maxseg
      ensures Retransmitted(old(Shot()), net, Shot())
    {
      hide Diff, OnStream, AllOnStream, MustSend, Put, Dispatched, Product;
      DiffSelf(tp.sndUna);
      var onxt := tp.sndNxt;
      tp := Halve(tp);
      Resend(tp, so);
      StartedSegment(tp);
      ghost var tp1, so1 := tp, so;
      Output(net);
      ghost var n := Shot();
      if live && net.mbufs > 0 && MustSend(tp1, so1) { FirstSent(tp1, so1, tp, wire[|old(wire)|..], net); }
      tp := Resume(tp, onxt);
      assert Put(old(Shot()).(tp := Halved(old(tp))), true, net, n) && Shot() == n.(tp := Resumed(n.tp, onxt));
    }

    /** soread: the host has `data` for us, no more than fits. */
    method SoRead(data: seq<byte>)
      requires Valid() && |so.sndBuf| + |data| <= so.sndSize
      modifies this`so, this`stream
      ensures Valid() && stream == old(stream) + data && so == old(so).(sndBuf := old(so).sndBuf + data)
    {
      hide Diff, OnStream;
      if live {
        GrowStream(wire[phase..], log, isn, stream, data);
        assert (stream + data)[una..] == stream[una..] + data;
      }
      so := so.(sndBuf := so.sndBuf + data);
      stream := stream + data;
    }

    /** The retransmission timer went off: back off, and resend from snd_una in slow start.  With
        unacknowledged data and an open window, the first unacknowledged bytes do go out again; the
        connection is given up exactly when back-off and segment size are exhausted. */
    method RexmtTimeout(net: Supply)
      requires Valid() && tp.persist == 0
      modifies this`tp, this`so, this`wire, this`log, this`gone, this`live
      ensures gone <==> old(gone) || Exhausted(old(tp))
      ensures live && net.mbufs > 0 && Outstanding(old(tp)) ==> Resends(wire, |old(wire)|, old(tp).sndUna)
      ensures !gone ==> Retried(old(Shot()), net, Shot())
      ensures Valid() && old(wire) <= wire && (old(live) && !gone ==> live) && SameWindow(tp, old(tp))
      ensures old(log) <= log && |log| - |old(log)| == |wire| - |old(wire)|
      ensures live ==> FarOff(tp)
      ensures !OutFlags(tp.state).syn ==> so == old(so)
      ensures live ==> old(live) && so == old(so) && tp.sndCwnd == tp.maxseg && Sent(log, |old(log)|, tp, una, tp.force)
    {
      hide Diff, OnStream, AllOnStream, MustSend, Put, Dispatched, BackedOff, Paced, Sending, Placed;
      var drop, tp1 := BackOff(tp);
      if drop {
        gone, live := true, false;
        return;
      }
      Retreat(tp1);
      Resend(tp, so);
      StartedSegment(tp);
      ghost var so1 := so;
      Output(net);
      if live && net.mbufs > 0 && MustSend(tp1, so1) { FirstSent(tp1, so1, tp, wire[|old(wire)|..], net); }
      PutKeeps(old(Shot()).(tp := tp1), net, Shot());
    }

    /** A forced call of tcp_output: data go out, from snd_nxt on, if any of them lie within the window,
        counted as one byte when it is closed. */
    method Push(net: Supply)
      requires Valid() && tp.force
      modifies this`tp, this`so, this`wire, this`log
      ensures Valid() && old(wire) <= wire && SameWindow(tp, old(tp))
      ensures old(log) <= log && |log| - |old(log)| == |wire| - |old(wire)|
      ensures live ==> so == old(so) && tp.maxseg == old(tp).maxseg && Sent(log, |old(log)|, tp, una, true)
      ensures live ==> tp.sndCwnd == Started(old(tp)).sndCwnd
      ensures live && net.mbufs > 0 && Usable(Started(old(tp)), old(so)) > 0 ==>
        Resends(wire, |old(wire)|, old(tp).sndNxt)
      ensures Put(old(Shot()), true, net, Shot())
    {
      hide Sending, Placed, AllOnStream, MustSend, Put, Dispatched, Usable, Paced;
      ghost var tp1, so1 := Started(tp), so;
      StartedSending(tp, so);
      Probe(tp1, so);
      Output(net);
      if live && net.mbufs > 0 && MustSend(tp1, so1) { FirstSent(tp1, so1, tp, wire[|old(wire)|..], net); }
    }

    /** The persist timer went off: set it again and force data out. */
    method PersistTimeout(net: Supply)
      requires Valid() && tp.rexmt == 0
      modifies this`tp, this`so, this`wire, this`log
      ensures Valid() && old(wire) <= wire && !tp.force && SameEdges(tp, old(tp))
      ensures old(log) <= log && |log| - |old(log)| == |wire| - |old(wire)|
      ensures live ==> so == old(so) && tp.maxseg == old(tp).maxseg && Sent(log, |old(log)|, tp, una, true)
      ensures live ==> tp.sndCwnd == Started(old(tp)).sndCwnd
      ensures live && net.mbufs > 0 && Usable(Started(old(tp)).(force := true), old(so)) > 0 ==>
        Resends(wire, |old(wire)|, old(tp).sndNxt)
      ensures Probed(old(Shot()), net, Shot())
    {
      hide Sending, Placed, AllOnStream, Put, Usable, PersistSet, Paced, Resends;
      PersistApart(tp);
      Forced(tp, Prodded(tp), so);
      var tp2 := SetPersist(tp);
      Adjust(tp2.(force := true));
      Push(net);
      ghost var n := Shot();
      Adjust(tp.(force := false));
      assert Put(old(Shot()).(tp := Prodded(old(tp))), true, net, n) && Shot() == n.(tp := n.tp.(force := false));
    }

    /** Go back to snd_una. */
    method Retreat(tp1: Tcb)
      requires Valid() && tp.persist == 0 && BackedOff(tp, tp1)
      modifies this`tp
      ensures Valid() && tp == tp1 && SameWindow(tp, old(tp)) && FarOff(tp) && tp.sndMax == old(tp).sndMax
      ensures tp.sndNxt == tp.sndUna && 0 < tp.maxseg == tp.sndCwnd
    {
      hide Diff, AllOnStream, Product, Pow2, Range;
      DiffSelf(tp.sndUna);
      if Paced(tp) { StaysPaced(tp, 0, tp1); }
      tp := tp1;
    }

    method TickRexmt(net: Supply)
      requires Valid()
      modifies this`tp, this`so, this`wire, this`log, this`gone, this`live
      ensures Valid() && old(wire) <= wire && (old(live) && !gone ==> live) && tp.force == old(tp).force
      ensures old(log) <= log && |log| - |old(log)| == |wire| - |old(wire)|
      ensures live ==> old(live) && so == old(so) && Sent(log, |old(log)|, tp, una, tp.force)
      ensures old(tp).rexmt > 1 ==> tp.rexmt == old(tp).rexmt - 1
      ensures old(tp).rexmt == 1 && live ==> tp.sndCwnd == tp.maxseg && FarOff(tp)
      ensures old(tp).rexmt != 1 ==> log == old(log) && gone == old(gone)
      ensures (old(tp).rexmt != 1 ==> tp.persist == old(tp).persist) && (old(gone) ==> gone)
      ensures RexmtEffect(old(Shot()), net, Shot())
    {
      hide Sending, Placed, AllOnStream, SentUnder, Retried, Paced, Resends, OutFlags, RexmtEffect;
      if tp.rexmt != 0 {
        Adjust(tp.(rexmt := tp.rexmt - 1));
        if tp.rexmt == 0 {
          RexmtTimeout(net);
          RexmtRunsOut(old(Shot()), net, Shot());
          return;
        }
      }
      RexmtTicks(old(Shot()), net, Shot());
    }

    method TickPersist(net: Supply)
      requires Valid()
      modifies this`tp, this`so, this`wire, this`log
      ensures Valid() && old(wire) <= wire && (!old(tp).force ==> !tp.force) && SameEdges(tp, old(tp))
      ensures old(log) <= log && |log| - |old(log)| == |wire| - |old(wire)|
      ensures live ==>
        so == old(so) && tp.maxseg == old(tp).maxseg && Sent(log, |old(log)|, tp, una, old(tp).persist == 1)
      ensures old(tp).persist > 1 ==> tp.persist == old(tp).persist - 1
      ensures old(tp).persist == 0 ==> tp.persist == 0 && tp.rexmt == old(tp).rexmt
      ensures PersistEffect(old(Shot()), net, Shot())
    {
      hide Sending, Placed, AllOnStream, SentUnder, Probed, Paced, Usable, Resends, PersistEffect;
      if tp.persist != 0 {
        Adjust(tp.(persist := tp.persist - 1));
        if tp.persist == 0 {
          PersistTimeout(net);
          PersistRunsOut(old(Shot()), net, Shot());
          return;
        }
      }
      PersistTicks(old(Shot()), net, Shot());
    }

    /** t_idle and the running round-trip time. */
    method Age()
      requires Valid()
      modifies this`tp
      ensures Valid() && tp == Aged(old(tp))
    {
      Adjust(tp.(idle := tp.idle + 1, rt := if tp.rt.rtt != 0 then tp.rt.(rtt := tp.rt.rtt + 1) else tp.rt));
    }

    /** tcp_slowtimo for this connection: count both timers down, the retransmit timer first.  The
        retransmit timer running out resends the bytes at snd_una, or gives up; the persist timer
        running out forces data out. */
    method SlowTimo(net: Supply)
      requires Valid()
      modifies this`tp, this`so, this`wire, this`log, this`gone, this`live
      ensures Valid() && old(wire) <= wire && (old(live) && !gone ==> live) && (!old(tp).force ==> !tp.force)
      ensures old(log) <= log && |log| - |old(log)| == |wire| - |old(wire)|
      ensures live ==>
        old(live) && so == old(so) && (!old(tp).force ==> Sent(log, |old(log)|, tp, una, old(tp).persist == 1))
      ensures !old(gone) && old(tp).rexmt > 1 ==> tp.rexmt == old(tp).rexmt - 1
      ensures !old(gone) && old(tp).persist > 1 ==> tp.persist == old(tp).persist - 1
      ensures !old(gone) ==> SlowEffect(old(Shot()), net, Shot())
    {
      hide AllOnStream, Sent, Sending, Placed, RexmtEffect, PersistEffect, SlowEffect;
      ghost var a := Shot();
      TickRexmt(net);
      ghost var m := Shot();
      if gone {
        if !a.gone { SlowGone(a, net, m); }
      } else {
        TickPersist(net);
        ghost var tp2 := tp;
        SlowBoth(a, net, m, Shot());
        Age();
        if live && !a.tp.force {
          SentBoth(m.log, log, |a.log|, m.tp, tp2, tp, una, a.tp.persist == 1);
        }
      }
    }

    /** tcp_fasttimo for this connection: send a delayed ack. */
    method FastTimo(net: Supply)
      requires Valid()
      modifies this`tp, this`so, this`wire, this`log
      ensures Valid() && old(wire) <= wire && tp.force == old(tp).force
      ensures old(log) <= log && |log| - |old(log)| == |wire| - |old(wire)|
      ensures live ==> so == old(so) && Sent(log, |old(log)|, tp, una, tp.force)
      ensures Put(Owing(old(Shot())), old(tp).delAck, net, Shot())
    {
      hide Sending, Placed, AllOnStream, SentUnder, Put, Paced;
      PutNone(Shot(), net);
      if tp.delAck {
        Adjust(tp.(delAck := false, ackNow := true));
        InputOutput(true, net);
      }
    }

    /** A change of state elsewhere (a close, a FIN, the handshake), with or without cancelling the
        timers.  The data phase survives ESTABLISHED to CLOSE_WAIT only. */
    method Transition(state: int, cancel: bool)
      requires Valid()
      modifies this`tp, this`live
      ensures Valid() && Shot() == Moved(old(Shot()), state, cancel)
    {
      hide Diff, OnStream, AllOnStream;
      live := live && (state == TCPS_ESTABLISHED || state == TCPS_CLOSE_WAIT);
      tp := tp.(state := state, rexmt := if cancel then 0 else tp.rexmt, persist := if cancel then 0 else tp.persist);
    }

    /** The SYN has been acknowledged and nothing else is outstanding: the data phase begins with
        what so_snd holds. */
    method BeginData()
      requires Valid() && !gone && tp.state == TCPS_ESTABLISHED && !tp.sentFin
      requires tp.sndNxt == tp.sndUna && tp.sndMax == tp.sndUna && |so.sndBuf| <= so.sndSize < 0x4000_0000
      modifies this`live, this`isn, this`stream, this`una, this`phase, this`log
      ensures Valid() && live && isn == tp.sndUna && stream == so.sndBuf && una == 0 && phase == |wire| && log == []
    {
      hide OnStream;
      DiffSelf(tp.sndUna);
      WireZero(tp.sndUna);
      live, isn, stream, una, phase, log := true, tp.sndUna, so.sndBuf, 0, |wire|, [];
    }
  }

  datatype Event =
    | Arrive(seg: InSeg, ret: int)
    | HostData(data: seq<byte>)
    | Call                        // tcp_output called from elsewhere
    | SlowTick
    | FastTick
    | Change(state: int, cancel: bool)

  /** The host's data are taken if the connection exists and so_snd has room for them. */
  predicate Takes(e: Event, gone: bool, so: Sock) {
    !gone && e.HostData? && |so.sndBuf| + |e.data| <= so.sndSize
  }

  /** A change that leaves the data phase. */
  predicate Leaves(e: Event) {
    e.Change? && e.state != TCPS_ESTABLISHED && e.state != TCPS_CLOSE_WAIT
  }

  /** What an event makes of a connection that still exists. */
  ghost predicate Does(a: Snap, e: Event, net: Supply, reass: Reass, b: Snap) {
    match e
    case Arrive(seg, ret) => if TCPS_ESTABLISHED <= a.tp.state then Took(a, seg, ret, net, reass, b) else b == a
    case HostData(data) =>
      b == if Takes(e, a.gone, a.so) then a.(so := a.so.(sndBuf := a.so.sndBuf + data), stream := a.stream + data)
        else a
    case Call => Put(a, true, net, b)
    case SlowTick => SlowEffect(a, net, b)
    case FastTick => Put(Owing(a), a.tp.delAck, net, b)
    case Change(state, cancel) => b == Moved(a, state, cancel)
  }

  /** An event on a connection: nothing once it is gone; and every segment sent is sent under the window
      that the control block shows afterwards, a probe only when the persist timer runs out. */
  ghost predicate Effect(a: Snap, e: Event, net: Supply, reass: Reass, b: Snap) {
    && (if a.gone then b == a else Does(a, e, net, reass, b))
    && a.wire <= b.wire && a.log <= b.log && |b.log| - |a.log| == |b.wire| - |a.wire|
    && b.stream == a.stream + (if Takes(e, a.gone, a.so) then e.data else [])
    && (a.live && !b.gone && !Leaves(e) ==> b.live) && (b.live ==> a.live && b.so.sndSize == a.so.sndSize)
    && (!a.tp.force ==> !b.tp.force)
    && (b.live && !a.tp.force ==> Sent(b.log, |a.log|, b.tp, b.una, e.SlowTick? && a.tp.persist == 1))
  }

  /** One event, if the connection still exists. */
  method Step(c: Conn, e: Event, net: Supply)
    requires c.Valid()
    modifies c`tp, c`so, c`queue, c`una, c`stream, c`wire, c`log, c`gone, c`live
    ensures c.Valid() && Effect(old(c.Shot()), e, net, c.reass, c.Shot())
  {
    hide SentUnder, Diff, AllOnStream, Sending, Placed, Put, Took, SlowEffect;
    if c.gone {
      return;
    }
    match e
    case Arrive(seg, ret) =>
      if TCPS_ESTABLISHED <= c.tp.state {
        c.Input(seg, ret, net);
      }
    case HostData(data) =>
      if |c.so.sndBuf| + |data| <= c.so.sndSize {
        c.SoRead(data);
      }
    case Call => c.InputOutput(true, net);
    case SlowTick => c.SlowTimo(net);
    case FastTick => c.FastTimo(net);
    case Change(state, cancel) => c.Transition(state, cancel);
  }

  /** Data that a call of tcp_output sends, other than a probe, leave the retransmit timer running. */
  lemma DataTimed(a: Snap, net: Supply, b: Snap)
    requires Put(a, true, net, b) && Sending(a.tp, a.so) && 0 < a.tp.maxseg && Paced(a.tp)
    requires Bytes(b.wire[Min(|a.wire|, |b.wire|)..]) > 0 && !Probing(Started(a.tp))
    ensures b.tp.rexmt != 0
  {
    hide Sending, Diff, Due, DataDue, Informed;
  }

  /** Some segment from the n-th on acknowledges everything up to `nxt`. */
  ghost predicate AckedFrom(wire: seq<OutSeg>, n: nat, nxt: tcp_seq) {
    exists i :: n <= i < |wire| && wire[i].ack == nxt
  }

  /** An arrival whose text moves rcv_nxt is acknowledged by the next fast tick, if not before, when there
      was an mbuf for it at the arrival or the acknowledgment was left to the fast timer.  Without either
      (text that calls for an immediate acknowledgment and finds no mbuf) the tick sends nothing. */
  lemma Answered(a: Snap, e: Event, net: Supply, b: Snap, net': Supply, c: Snap, reass: Reass)
    requires e.Arrive? && Effect(a, e, net, reass, b) && Effect(b, FastTick, net', reass, c)
    requires a.live && !a.gone && Sending(a.tp, a.so) && 0 < a.tp.maxseg && net'.mbufs > 0
    requires !b.gone && b.tp.rcvNxt != a.tp.rcvNxt
    ensures net.mbufs > 0 || b.tp.delAck ==> AckedFrom(c.wire, |a.wire|, b.tp.rcvNxt)
    ensures net.mbufs == 0 && !b.tp.delAck ==> c.wire == b.wire
  {
    var out := b.wire[|a.wire|..];
    ArrivalOwes(a, e.seg, e.ret, net, reass, b);
    hide Took, Sent, Dispatched, Informed, SameEdges;
    if Acks(out, b.tp) {
      assert c.wire[|a.wire|] == out[0];
    } else if b.tp.delAck {
      assert c.wire[|b.wire|..][0] == c.wire[|b.wire|];
    }
  }

  lemma ArrivalOwes(a: Snap, seg: InSeg, ret: int, net: Supply, reass: Reass, b: Snap)
    requires Took(a, seg, ret, net, reass, b) && a.live && a.wire <= b.wire && b.tp.rcvNxt != a.tp.rcvNxt
    requires Sending(a.tp, a.so) && 0 < a.tp.maxseg
    ensures Acks(b.wire[|a.wire|..], b.tp) || Owes(b.tp, net)
  {
    hide Sending, Diff, Add, Append, XmitTimer, Trimmed, Merged, Dispatched, Announced, InSteps;
    if PureAck(a.tp, seg) || PureData(a.tp, a.so, a.queue, seg) {
      ForeseenOwes(a, seg, ret);
    }
  }

  lemma ForeseenOwes(a: Snap, seg: InSeg, ret: int)
    ensures Foreseen(a, seg, ret).tp.rcvNxt == a.tp.rcvNxt || (seg.data != [] && Foreseen(a, seg, ret).tp.ackNow)
  {
    hide Diff, Append, XmitTimer, Add;
  }

  /** Each event has its effect, from one snapshot to the next. */
  ghost predicate Traced(events: seq<Event>, nets: seq<Supply>, reass: Reass, trace: seq<Snap>) {
    && |trace| == |events| + 1 == |nets| + 1
    && forall i :: 0 <= i < |events| ==> Effect(trace[i], events[i], nets[i], reass, trace[i + 1])
  }

  /** Timers over every run from a fresh control block, through all states: the retransmit and the
      persist timer never run at the same time.  `nets` says for each event what
      tcp_output has to work with. */
  method TimerRun(tp: Tcb, so: Sock, reass: Reass, events: seq<Event>, nets: seq<Supply>)
    returns (c: Conn, ghost trace: seq<Snap>)
    requires tp.rexmt == 0 && tp.persist == 0 && tp.maxseg > 0 && |nets| == |events|
    ensures fresh(c) && Traced(events, nets, reass, trace)
    ensures trace[0] == Snap(tp, so, [], false, false, 0, [], [], []) && trace[|events|] == c.Shot()
    ensures forall s :: s in trace ==> !(s.tp.rexmt != 0 && s.tp.persist != 0)
  {
    hide Effect;
    c := new Conn(tp, so, reass);
    trace := [c.Shot()];
    for i := 0 to |events|
      invariant fresh(c) && c.Valid() && c.reass == reass && |trace| == i + 1
      invariant trace[0] == Snap(tp, so, [], false, false, 0, [], [], []) && trace[i] == c.Shot()
      invariant forall k :: 0 <= k < i ==> Effect(trace[k], events[k], nets[k], reass, trace[k + 1])
      invariant forall s :: s in trace ==> TimersExclusive(s.tp)
    {
      Step(c, events[i], nets[i]);
      trace := trace + [c.Shot()];
    }
  }

  /** The host's data that were taken. */
  ghost function Collected(events: seq<Event>, trace: seq<Snap>): seq<byte>
    requires |events| <= |trace|
  {
    if events == [] then []
    else
      var n := |events| - 1;
      Collected(events[..n], trace) + if Takes(events[n], trace[n].gone, trace[n].so) then events[n].data else []
  }

  lemma {:induction false} CollectedSame(events: seq<Event>, trace: seq<Snap>, s: Snap)
    requires |events| <= |trace|
    ensures Collected(events, trace + [s]) == Collected(events, trace)
  {
    if events != [] {
      CollectedSame(events[..|events| - 1], trace, s);
    }
  }

  /** In the data phase the sequence numbers are in order, so_snd is the unacknowledged rest of the
      stream, and every segment sent carries the stream bytes at its sequence number. */
  ghost predicate Sound(s: Snap, isn: tcp_seq, phase: nat, paced: bool) {
    && TimersExclusive(s.tp) && !s.tp.force && (paced ==> Paced(s.tp))
    && (s.live ==>
          && 0 <= Diff(s.tp.sndNxt, s.tp.sndUna) <= Diff(s.tp.sndMax, s.tp.sndUna) <= |s.so.sndBuf|
          && s.tp.sndUna == Wire(isn, s.una) && s.una <= |s.stream| && s.so.sndBuf == s.stream[s.una..]
          && phase <= |s.wire| && AllOnStream(s.wire[phase..], s.log, isn, s.stream))
  }

  /** Send safety over every run from the acknowledgment of the SYN on.  As long as no FIN is to be
      sent, snd_una <= snd_nxt <= snd_max <= snd_una + sb_cc, the stream is what so_snd held plus the
      host's data that fitted, so_snd is its unacknowledged rest, and every segment ever emitted carries
      exactly the stream bytes at its sequence number within the window it was sent under: in every
      snapshot of the run, each being what its event makes of the one before. */
  method SendRun(c: Conn, events: seq<Event>, nets: seq<Supply>) returns (ghost trace: seq<Snap>)
    requires c.Valid() && !c.gone && c.tp.state == TCPS_ESTABLISHED && !c.tp.sentFin && |nets| == |events|
    requires !c.tp.force      // set only while a persist timeout is handled
    requires c.tp.sndNxt == c.tp.sndUna && c.tp.sndMax == c.tp.sndUna && |c.so.sndBuf| <= c.so.sndSize < 0x4000_0000
    modifies c
    ensures c.Valid() && c.isn == old(c.tp.sndUna) && c.phase == old(|c.wire|) && Traced(events, nets, c.reass, trace)
    ensures trace[0] == Snap(old(c.tp), old(c.so), old(c.queue), false, true, 0, old(c.so.sndBuf), old(c.wire), [])
    ensures trace[|events|] == c.Shot()
    ensures forall s :: s in trace ==> Sound(s, c.isn, c.phase, c.paced)
    ensures !c.gone && (forall e :: e in events ==> !Leaves(e)) ==> c.live
    ensures c.stream == old(c.so.sndBuf) + Collected(events, trace)
  {
    hide Effect, Sound, Collected;
    c.BeginData();
    ghost var start := c.Shot();
    trace := [start];
    SoundNow(c);
    CollectedNone(trace);
    assert events[..0] == [];
    for i := 0 to |events|
      invariant c.Valid() && c.isn == old(c.tp.sndUna) && c.phase == old(|c.wire|) && |trace| == i + 1 && !c.tp.force
      invariant trace[0] == start && trace[i] == c.Shot()
      invariant forall k :: 0 <= k < i ==> Effect(trace[k], events[k], nets[k], c.reass, trace[k + 1])
      invariant forall s :: s in trace ==> Sound(s, c.isn, c.phase, c.paced)
      invariant !c.gone && (forall e :: e in events ==> !Leaves(e)) ==> c.live
      invariant c.stream == start.stream + Collected(events[..i], trace)
    {
      ghost var a := c.Shot();
      Step(c, events[i], nets[i]);
      assert events[i] in events;
      EffectKeeps(a, events[i], nets[i], c.reass, c.Shot());
      SoundNow(c);
      CollectedNext(events, i, trace, c.Shot());
      trace := trace + [c.Shot()];
    }
    assert events[..|events|] == events;
  }

  lemma SoundNow(c: Conn)
    requires c.Valid() && !c.tp.force
    ensures Sound(c.Shot(), c.isn, c.phase, c.paced)
  {
    hide Diff, AllOnStream;
  }

  lemma EffectKeeps(a: Snap, e: Event, net: Supply, reass: Reass, b: Snap)
    requires Effect(a, e, net, reass, b)
    ensures b.stream == a.stream + if Takes(e, a.gone, a.so) then e.data else []
    ensures a.live && !b.gone && !Leaves(e) ==> b.live
    ensures !a.tp.force ==> !b.tp.force
    ensures a.gone ==> b.gone
  {
    hide Does, Sent;
  }

  lemma CollectedNone(trace: seq<Snap>)
    ensures Collected([], trace) == []
  {}

  lemma CollectedNext(events: seq<Event>, i: nat, trace: seq<Snap>, s: Snap)
    requires i < |events| && |trace| == i + 1
    ensures Collected(events[..i + 1], trace + [s])
         == Collected(events[..i], trace) + if Takes(events[i], trace[i].gone, trace[i].so) then events[i].data else []
  {
    assert events[..i + 1][..i] == events[..i];
    CollectedSame(events[..i], trace, s);
  }

  function Product(a: int, b: int): (r: int)
    ensures a >= 0 && b >= 0 ==> r >= 0
  {
    a * b
  }
}
