/**
 * The sending half of a slirp TCP connection: `tcp_output` and the persist and retransmit cases
 * of `tcp_timers`.  Sequence numbers are 32-bit and wrap.  A `Tcb` is the part of struct tcpcb
 * that this code touches, a `Sock` the two socket buffers; the routines below take them by value
 * and return the updated record.
 */
module TcpSend {
  import opened Common
  import opened SeqSpace
  import opened TcpStates

  const TCP_SPACE := 8192          // TCP_SNDSPACE, TCP_RCVSPACE
  const TCP_MSS_MAX := 1460        // min(IF_MTU, IF_MRU) - sizeof(struct tcpiphdr)
  const TCP_MAXRXTSHIFT := 12
  const TCPTV_PERSMIN := 10
  const TCPTV_PERSMAX := 120
  const TCPTV_REXMTMAX := 24

  /** TCPT_RANGESET. */
  function Range(v: int, lo: int, hi: int): int {
    if v < lo then lo else if v > hi then hi else v
  }

  /** t_rtt, t_srtt, t_rttvar, t_rxtshift, t_rxtcur, t_rttmin. */
  datatype Rtt = Rtt(rtt: int, srtt: int, rttvar: int, shift: nat, cur: int, min: int)

  datatype Tcb = Tcb(
    state: int,
    sndUna: tcp_seq, sndNxt: tcp_seq, sndMax: tcp_seq, sndUp: tcp_seq,
    sndWl1: tcp_seq, sndWl2: tcp_seq, iss: tcp_seq,
    sndWnd: nat, sndCwnd: nat, sndSsthresh: nat, maxSndwnd: nat,
    rcvNxt: tcp_seq, rcvAdv: tcp_seq, rcvUp: tcp_seq,
    rexmt: int,          // t_timer[TCPT_REXMT]
    persist: int,        // t_timer[TCPT_PERSIST]
    rt: Rtt, rtseq: tcp_seq, dupacks: nat, maxseg: nat, idle: int,
    force: bool,         // t_force
    ackNow: bool,        // TF_ACKNOW
    delAck: bool,        // TF_DELACK
    sentFin: bool,       // TF_SENTFIN
    noOpt: bool)         // TF_NOOPT

  /** so_snd and so_rcv as byte sequences with their capacities, and what the host socket took. */
  datatype Sock = Sock(sndBuf: seq<byte>, sndSize: nat, rcvBuf: seq<byte>, rcvSize: nat, host: seq<byte>)

  datatype Flags = Flags(syn: bool, fin: bool, rst: bool)

  /** A segment handed to ip_output. */
  datatype OutSeg = OutSeg(sq: tcp_seq, ack: tcp_seq, data: seq<byte>, flags: Flags)

  /** tcp_outflags. */
  function OutFlags(state: int): Flags {
    Flags(state == TCPS_SYN_SENT || state == TCPS_SYN_RECEIVED,
          TCPS_FIN_WAIT_1 <= state <= TCPS_LAST_ACK,
          state == TCPS_CLOSED)
  }

  /** SYN is sent until it is acknowledged, and FIN from our close until it is. */
  lemma FlagsMean(state: int)
    requires TCPS_SYN_SENT <= state <= TCPS_TIME_WAIT
    ensures OutFlags(state).syn <==> state < TCPS_ESTABLISHED
    ensures OutFlags(state).fin <==> HasClosed(state) && !FinIsAcked(state)
    ensures !OutFlags(state).rst
  {
  }

  const TCP_BACKOFF: seq<int> := [1, 2, 4, 8, 16, 32, 64, 64, 64, 64, 64, 64, 64]

  function Backoff(shift: nat): int {
    if shift < |TCP_BACKOFF| then TCP_BACKOFF[shift] else 64
  }

  function Pow2(n: nat): nat { if n == 0 then 1 else 2 * Pow2(n - 1) }

  /** The back-off doubles six times and then stays. */
  lemma BackoffDoubles(shift: nat)
    ensures Backoff(shift) == Pow2(Min(shift, 6))
  {
    assert Pow2(6) == 64;
  }

  /** The retransmit and persist timers are mutually exclusive. */
  predicate TimersExclusive(tp: Tcb) {
    !(tp.rexmt != 0 && tp.persist != 0)
  }

  /** The persist timer, if it runs, has its shortest interval still before it. */
  predicate FarOff(tp: Tcb) { tp.persist == 0 || tp.persist >= TCPTV_PERSMIN }

  /** snd_una <= snd_nxt <= snd_max <= snd_una + sb_cc, by the modular comparison. */
  predicate SeqInv(tp: Tcb, so: Sock) {
    && 0 <= Diff(tp.sndNxt, tp.sndUna) <= Diff(tp.sndMax, tp.sndUna) <= |so.sndBuf|
    && |so.sndBuf| <= so.sndSize < 0x4000_0000
  }

  /** From the acknowledgment of the SYN until a FIN is to be sent. */
  predicate Sending(tp: Tcb, so: Sock) {
    (tp.state == TCPS_ESTABLISHED || tp.state == TCPS_CLOSE_WAIT) && !tp.sentFin && SeqInv(tp, so)
  }

  /** The segment carries exactly the unacknowledged bytes at its sequence number, and stays within
      the usable window unless it is the one-byte probe of a forced call into a closed window. */
  predicate Truthful(o: OutSeg, tp: Tcb, so: Sock) {
    var a := Diff(o.sq, tp.sndUna);
    var win := Min(tp.sndWnd, tp.sndCwnd);
    && 0 <= a <= a + |o.data| <= |so.sndBuf|
    && o.data == so.sndBuf[a..a + |o.data|]
    && (o.data != [] ==> a + |o.data| <= win || (tp.force && win == 0 && a == 0 && |o.data| == 1))
    && !o.flags.syn && !o.flags.fin
  }

  /** The outcome of the first part of tcp_output: offset into so_snd, length, sendalot, flags. */
  datatype Plan = Plan(off: int, len: int, sendalot: bool, flags: Flags)

  /** What a plan with data promises. */
  predicate InBounds(p: Plan, tp: Tcb, so: Sock) {
    && p.off == Diff(tp.sndNxt, tp.sndUna) && p.off + p.len <= |so.sndBuf|
    && (p.off + p.len <= Min(tp.sndWnd, tp.sndCwnd) ||
        (tp.force && Min(tp.sndWnd, tp.sndCwnd) == 0 && p.off == 0 && p.len == 1))
  }

  /** The window to send into; a forced call sends one byte into a closed one. */
  function SendWindow(tp: Tcb): int {
    var win := Min(tp.sndWnd, tp.sndCwnd);
    if tp.force && win == 0 then 1 else win
  }

  /** How much of so_snd lies between snd_nxt and the edge of the window. */
  function Usable(tp: Tcb, so: Sock): int {
    Min(|so.sndBuf|, SendWindow(tp)) - Diff(tp.sndNxt, tp.sndUna)
  }

  /** Data are due: there is some room for them, and it is a full segment, or all there is, or half the
      largest window ever offered, or a retransmission, or the call is forced. */
  predicate DataDue(tp: Tcb, so: Sock) {
    var n := Usable(tp, so);
    && 0 < n
    && (|| n >= tp.maxseg
        || n + Diff(tp.sndNxt, tp.sndUna) == |so.sndBuf|
        || (n >= tp.maxSndwnd / 2 && tp.maxSndwnd > 0)
        || SeqLt(tp.sndNxt, tp.sndMax)
        || tp.force)
  }

  /** A window update is due: there is room, and it would move the advertised edge by two segments or half
      the buffer. */
  predicate WindowDue(tp: Tcb, so: Sock) {
    var room, promised := so.rcvSize - |so.rcvBuf|, Diff(tp.rcvAdv, tp.rcvNxt);
    var window := Min(room, TCP_MAXWIN);
    0 < room && (promised + 2 * tp.maxseg <= window || 2 * promised + so.rcvSize <= 2 * window)
  }

  /** A segment is due, in the data phase: for its data, the window, an acknowledgment or urgent data. */
  predicate Due(tp: Tcb, so: Sock) {
    DataDue(tp, so) || WindowDue(tp, so) || tp.ackNow || SeqGt(tp.sndUp, tp.sndUna)
  }

  /** Data must go out. */
  predicate MustSend(tp: Tcb, so: Sock) { Sending(tp, so) && 0 < tp.maxseg && DataDue(tp, so) }

  /** A forced call into a closed window in persist state, which leaves snd_nxt where it is. */
  predicate Probing(tp: Tcb) { tp.force && Min(tp.sndWnd, tp.sndCwnd) == 0 && tp.persist != 0 }

  /** The window has closed behind snd_nxt, which is pulled back to snd_una. */
  predicate Shut(tp: Tcb, so: Sock) { SendWindow(tp) == 0 && Usable(tp, so) < 0 }

  /** Where sending starts, counted from snd_una. */
  function Origin(tp: Tcb, so: Sock): int {
    if Shut(tp, so) then 0 else Diff(tp.sndNxt, tp.sndUna)
  }

  function Bytes(out: seq<OutSeg>): nat {
    if out == [] then 0 else |out[0].data| + Bytes(out[1..])
  }

  /** The data of the segments follow one another without gap or overlap, from offset `from` on. */
  predicate Adjacent(out: seq<OutSeg>, una: tcp_seq, from: int) {
    out == [] ||
    ((out[0].data != [] ==> Diff(out[0].sq, una) == from) && Adjacent(out[1..], una, from + |out[0].data|))
  }

  /** Some segment starts at sq and carries the byte at offset `at`. */
  predicate Carries(out: seq<OutSeg>, sq: tcp_seq, una: tcp_seq, at: int) {
    exists i :: 0 <= i < |out| && out[i].sq == sq && Diff(sq, una) <= at < Diff(sq, una) + |out[i].data|
  }

  /** What was sent is accounted for: snd_nxt ends behind the last byte sent, snd_max is the later of
      itself and that end, the segments are adjacent, data sent leave the retransmit timer running, and
      a segment with new data is timed unless one already was. */
  predicate Accounted(tp0: Tcb, so: Sock, tp: Tcb, out: seq<OutSeg>) {
    var max0, max := Diff(tp0.sndMax, tp0.sndUna), Diff(tp.sndMax, tp.sndUna);
    var end := Origin(tp0, so) + Bytes(out);
    && Adjacent(out, tp0.sndUna, Origin(tp0, so))
    && Diff(tp.sndNxt, tp.sndUna) == (if Probing(tp0) then Diff(tp0.sndNxt, tp0.sndUna) else end)
    && max == Max(max0, end)
    && (SendWindow(tp0) == 0 ==> Bytes(out) == 0)
    && tp.rt == tp0.rt.(rtt := tp.rt.rtt, shift := tp.rt.shift)
    && Timing(tp0, tp, out, Bytes(out) > 0 && !Probing(tp0), Shut(tp0, so))
    && (if max0 < max && !Probing(tp0) && tp0.rt.rtt == 0
        then tp.rt.rtt == 1 && Carries(out, tp.rtseq, tp.sndUna, max0)
        else tp.rt.rtt == tp0.rt.rtt && tp.rtseq == tp0.rtseq)
  }

  /** A forced call with an open window leaves persist state. */
  predicate Unforces(tp: Tcb) { tp.force && Min(tp.sndWnd, tp.sndCwnd) != 0 }

  /** The retransmit timer is started if it was not running, or stopped if the window has shut. */
  predicate Timing(tp0: Tcb, tp: Tcb, out: seq<OutSeg>, sent: bool, shut: bool) {
    var started := if tp0.rexmt == 0 then tp0.rt.cur else tp0.rexmt;
    && (sent ==> tp.rexmt == started)
    && (shut ==> tp.rexmt == 0)
    && (!shut ==> tp.rexmt == tp0.rexmt || tp.rexmt == started)
    && (tp0.persist != 0 && tp.persist == 0 ==> tp.rt.shift == 0)
    && (tp0.persist == 0 && tp.persist == 0 ==> tp.rt.shift == if Unforces(tp0) then 0 else tp0.rt.shift)
    && (tp0.persist == 0 && tp.persist != 0 ==> tp.rt.shift == 1 && TCPTV_PERSMIN <= tp.persist <= TCPTV_PERSMAX)
  }

  /** The first segment acknowledges everything received in order. */
  predicate Acks(out: seq<OutSeg>, tp: Tcb) { out != [] && out[0].ack == tp.rcvNxt }

  /** tcp_output from `again` on: how much to send and with which flags.  If the window has closed
      behind us, snd_nxt is pulled back and the retransmit timer cancelled. */
  method PlanOutput(tp0: Tcb, so: Sock) returns (tp: Tcb, p: Plan)
    ensures TimersExclusive(tp0) ==> TimersExclusive(tp)
    ensures FarOff(tp0) ==> FarOff(tp)
    ensures p.len >= 0
    ensures !OutFlags(tp.state).syn ==> !p.flags.syn
    ensures !OutFlags(tp.state).fin ==> !p.flags.fin
    ensures tp == tp0.(rexmt := tp.rexmt, persist := tp.persist, rt := tp.rt, sndNxt := tp.sndNxt)
    ensures SeqInv(tp0, so) ==> SeqInv(tp, so) && (p.len > 0 ==> InBounds(p, tp, so))
    ensures Planned(tp0, so, tp, p)
    ensures tp0.ackNow ==> ShouldSend(tp, so, p)
    ensures Sending(tp0, so) && 0 < tp0.maxseg ==> (ShouldSend(tp, so, p) <==> Due(tp0, so))
    ensures p.flags.fin <==>
      && OutFlags(tp0.state).fin && !SeqLt(Add(tp.sndNxt, p.len), Add(tp0.sndUna, |so.sndBuf|))
      && !(tp0.force && Min(tp0.sndWnd, tp0.sndCwnd) == 0 && 0 <= p.off < |so.sndBuf|)
  {
    hide Add, Diff, Due, ShouldSend, OutFlags;
    DiffSelf(tp0.sndUna);
    var cc := |so.sndBuf|;
    var off := Diff(tp0.sndNxt, tp0.sndUna);
    var win, nofin;
    tp, win, nofin := Opening(tp0, 0 <= off < cc);
    var len, sendalot := Min(cc, win) - off, false;
    if len < 0 {
      len := 0;
      if win == 0 {
        tp := tp.(rexmt := 0, sndNxt := tp.sndUna);
      }
    }
    if len > tp.maxseg {
      len := tp.maxseg;
      sendalot := true;
    }
    if SeqLt(Add(tp.sndNxt, len), Add(tp.sndUna, cc)) {
      nofin := true;
    }
    var flags := OutFlags(tp.state);
    DataFlags(tp0, so);
    p := Plan(off, len, sendalot, if nofin then flags.(fin := false) else flags);
    PlanSends(tp0, so, tp, p);
  }

  /** No flags belong to the data phase. */
  lemma DataFlags(tp: Tcb, so: Sock)
    ensures Sending(tp, so) ==> OutFlags(tp.state) == Flags(false, false, false)
  {
  }

  /** The window to send into.  A forced call opens a closed one by a byte, without FIN while there are
      data, and otherwise leaves persist state. */
  method Opening(tp0: Tcb, data: bool) returns (tp: Tcb, win: int, nofin: bool)
    ensures win == SendWindow(tp0) && nofin == (data && tp0.force && Min(tp0.sndWnd, tp0.sndCwnd) == 0)
    ensures tp == if Unforces(tp0) then tp0.(persist := 0, rt := tp0.rt.(shift := 0)) else tp0
  {
    tp, win, nofin := tp0, Min(tp0.sndWnd, tp0.sndCwnd), false;
    if tp.force {
      if win == 0 {
        nofin := data;
        win := 1;
      } else {
        tp := tp.(persist := 0, rt := tp.rt.(shift := 0));
      }
    }
  }

  /** As much is planned as is usable, up to a segment; snd_nxt is pulled back and the retransmit timer
      stopped if the window has shut; a forced call with an open window leaves persist state. */
  predicate Planned(tp0: Tcb, so: Sock, tp: Tcb, p: Plan) {
    && p.off == Diff(tp0.sndNxt, tp0.sndUna) && p.len == Min(Max(Usable(tp0, so), 0), tp0.maxseg)
    && p.sendalot == (Max(Usable(tp0, so), 0) > tp0.maxseg)
    && tp.sndNxt == (if Shut(tp0, so) then tp0.sndUna else tp0.sndNxt)
    && tp.rexmt == (if Shut(tp0, so) then 0 else tp0.rexmt)
    && tp.persist == (if Unforces(tp0) then 0 else tp0.persist)
    && tp.rt == (if Unforces(tp0) then tp0.rt.(shift := 0) else tp0.rt)
  }

  /** What is due passes the tests for sending, and nothing else does. */
  lemma PlanSends(tp0: Tcb, so: Sock, tp: Tcb, p: Plan)
    requires tp == tp0.(rexmt := tp.rexmt, persist := tp.persist, rt := tp.rt, sndNxt := tp.sndNxt)
    requires Planned(tp0, so, tp, p)
    ensures tp0.ackNow ==> ShouldSend(tp, so, p)
    ensures !p.flags.syn && !p.flags.rst && !p.flags.fin && 0 < tp0.maxseg ==> (ShouldSend(tp, so, p) <==> Due(tp0, so))
  {
    hide Diff;
  }

  /** The tests of tcp_output that lead to `send`. */
  predicate ShouldSend(tp: Tcb, so: Sock, p: Plan) {
    var win := so.rcvSize - |so.rcvBuf|;
    var adv := Min(win, TCP_MAXWIN) - Diff(tp.rcvAdv, tp.rcvNxt);
    || (p.len > 0 &&
          (|| p.len == tp.maxseg
           || p.len + p.off >= |so.sndBuf|
           || tp.force
           || (p.len >= tp.maxSndwnd / 2 && tp.maxSndwnd > 0)
           || SeqLt(tp.sndNxt, tp.sndMax)))
    || (win > 0 && (adv >= 2 * tp.maxseg || 2 * adv >= so.rcvSize))
    || tp.ackNow
    || p.flags.syn || p.flags.rst
    || SeqGt(tp.sndUp, tp.sndUna)
    || (p.flags.fin && (!tp.sentFin || tp.sndNxt == tp.sndUna))
  }

  /** The persist timer with its next interval, twice the one before until the sixth. */
  function PersistSet(tp: Tcb): (r: Tcb)
    ensures TCPTV_PERSMIN <= r.persist <= TCPTV_PERSMAX
  {
    var t := (tp.rt.srtt / 4 + tp.rt.rttvar) / 2;
    tp.(persist := Range(t * Pow2(Min(tp.rt.shift, 6)), TCPTV_PERSMIN, TCPTV_PERSMAX),
        rt := tp.rt.(shift := if tp.rt.shift < TCP_MAXRXTSHIFT then tp.rt.shift + 1 else tp.rt.shift))
  }

  /** tcp_setpersist. */
  method SetPersist(tp0: Tcb) returns (tp: Tcb)
    ensures tp == PersistSet(tp0)
  {
    hide Backoff;
    BackoffDoubles(tp0.rt.shift);
    tp := tp0;
    var t := (tp.rt.srtt / 4 + tp.rt.rttvar) / 2;
    tp := tp.(persist := Range(t * Backoff(tp.rt.shift), TCPTV_PERSMIN, TCPTV_PERSMAX));
    if tp.rt.shift < TCP_MAXRXTSHIFT {
      tp := tp.(rt := tp.rt.(shift := tp.rt.shift + 1));
    }
  }

  /** Outside persist state, or unforced, what is sent moves snd_nxt. */
  predicate Transmits(tp: Tcb) { !tp.force || tp.persist == 0 }

  /** The sequence and timer part of `send`: in transmit state snd_nxt advances over the segment and
      the retransmit timer is started, leaving persist state; in persist state only snd_max moves. */
  method Advance(tp0: Tcb, so: Sock, len: nat, syn: bool, fin: bool) returns (tp: Tcb)
    ensures TimersExclusive(tp0) ==> TimersExclusive(tp)
    ensures FarOff(tp0) ==> FarOff(tp)
    ensures !fin ==> tp.sentFin == tp0.sentFin
    ensures tp.rt.cur == tp0.rt.cur && tp.rt.min == tp0.rt.min
    ensures tp == tp0.(sndNxt := tp.sndNxt, sndMax := tp.sndMax, rt := tp.rt, rtseq := tp.rtseq, rexmt := tp.rexmt,
                       persist := tp.persist, sentFin := tp.sentFin)
    ensures SeqInv(tp0, so) && !syn && !fin && Diff(tp0.sndNxt, tp0.sndUna) + len <= |so.sndBuf| ==>
      SeqInv(tp, so) && Advanced(tp0, tp, len)
    ensures !syn && !fin ==> Clocked(tp0, tp, Add(tp0.sndNxt, len))
    ensures Transmits(tp0) ==> tp.sndNxt == Add(Add(Add(tp0.sndNxt, if syn then 1 else 0), if fin then 1 else 0), len)
    ensures tp.sentFin == (tp0.sentFin || (fin && Transmits(tp0)))
  {
    hide Add, Diff, SeqGt;
    AddZero(tp0.sndNxt);
    AddZero(Add(tp0.sndNxt, 1));
    if SeqInv(tp0, so) && Diff(tp0.sndNxt, tp0.sndUna) + len <= |so.sndBuf| {
      AdvanceWithin(tp0.sndUna, tp0.sndNxt, len, tp0.sndMax);
    }
    var nxt, mx, rexmt, persist := tp0.sndNxt, tp0.sndMax, tp0.rexmt, tp0.persist;
    var rt, rtseq, sentFin := tp0.rt, tp0.rtseq, tp0.sentFin;
    if !tp0.force || persist == 0 {
      var startseq := nxt;
      if syn {
        nxt := Add(nxt, 1);
      }
      if fin {
        nxt := Add(nxt, 1);
        sentFin := true;
      }
      nxt := Add(nxt, len);
      if SeqGt(nxt, mx) {
        mx := nxt;
        if rt.rtt == 0 {
          rt, rtseq := rt.(rtt := 1), startseq;
        }
      }
      if rexmt == 0 && nxt != tp0.sndUna {
        rexmt := rt.cur;
        if persist != 0 {
          persist, rt := 0, rt.(shift := 0);
        }
      }
    } else if SeqGt(Add(nxt, len), mx) {
      mx := Add(nxt, len);
    }
    tp := tp0.(sndNxt := nxt, sndMax := mx, rt := rt, rtseq := rtseq, rexmt := rexmt, persist := persist,
               sentFin := sentFin);
  }

  /** snd_nxt and snd_max after len bytes were sent, counted from snd_una. */
  predicate Advanced(tp0: Tcb, tp: Tcb, len: nat) {
    var end := Diff(tp0.sndNxt, tp0.sndUna) + len;
    && Diff(tp.sndNxt, tp.sndUna) == (if Transmits(tp0) then end else Diff(tp0.sndNxt, tp0.sndUna))
    && Diff(tp.sndMax, tp.sndUna) == Max(Diff(tp0.sndMax, tp0.sndUna), end)
  }

  /** The timers after sending up to `end`: the retransmit timer is started, and persist state left, when
      something is outstanding and the timer does not run; new data are timed if nothing else is. */
  predicate Clocked(tp0: Tcb, tp: Tcb, end: tcp_seq) {
    var starts := Transmits(tp0) && tp0.rexmt == 0 && end != tp0.sndUna;
    var times := Transmits(tp0) && tp0.rt.rtt == 0 && SeqGt(end, tp0.sndMax);
    && tp.rexmt == (if starts then tp0.rt.cur else tp0.rexmt)
    && tp.persist == (if starts then 0 else tp0.persist)
    && tp.rt == tp0.rt.(rtt := if times then 1 else tp0.rt.rtt,
                        shift := if starts && tp0.persist != 0 then 0 else tp0.rt.shift)
    && tp.rtseq == (if times then tp0.sndNxt else tp0.rtseq)
  }

  lemma AddZero(x: tcp_seq)
    ensures Add(x, 0) == x
  {
  }

  /** tcp_mss(tp, 0), called when a SYN goes out: may resize, and so empty, the buffers. */
  method MssForSyn(tp0: Tcb, so0: Sock) returns (tp: Tcb, so: Sock)
    ensures tp == tp0.(maxseg := tp.maxseg, sndCwnd := TCP_MSS_MAX) && tp.maxseg == Min(tp0.maxseg, TCP_MSS_MAX)
    ensures so == so0.(sndBuf := so.sndBuf, sndSize := so.sndSize, rcvBuf := so.rcvBuf, rcvSize := so.rcvSize)
    ensures so.sndSize == so.rcvSize && so.sndSize % TCP_MSS_MAX == 0
    ensures TCP_SPACE <= so.sndSize < TCP_SPACE + TCP_MSS_MAX
    ensures so.sndBuf == if so0.sndSize == so.sndSize then so0.sndBuf else []
    ensures so.rcvBuf == if so0.rcvSize == so.rcvSize then so0.rcvBuf else []
  {
    tp, so := tp0.(sndCwnd := TCP_MSS_MAX), so0;
    if TCP_MSS_MAX < tp.maxseg {
      tp := tp.(maxseg := TCP_MSS_MAX);
    }
    var size := TCP_SPACE + (if TCP_SPACE % TCP_MSS_MAX != 0 then TCP_MSS_MAX - TCP_SPACE % TCP_MSS_MAX else 0);
    if so.sndSize != size {
      so := so.(sndBuf := [], sndSize := size);
    }
    if so.rcvSize != size {
      so := so.(rcvBuf := [], rcvSize := size);
    }
  }

  /** The SYN adjustments at the start of `send`, before the mbuf is allocated. */
  method AdjustForSyn(tp0: Tcb, so0: Sock, p: Plan) returns (tp: Tcb, so: Sock, len: nat, sendalot: bool)
    requires p.len >= 0
    ensures len <= p.len
    ensures tp == tp0.(sndNxt := tp.sndNxt, maxseg := tp.maxseg, sndCwnd := tp.sndCwnd)
    ensures tp0.maxseg > 0 ==> tp.maxseg > 0
    ensures !p.flags.syn ==> tp == tp0 && so == so0
    ensures p.flags.syn ==> tp.sndNxt == tp0.iss
    ensures p.flags.syn && tp0.noOpt ==> tp == tp0.(sndNxt := tp0.iss) && so == so0
    ensures p.flags.syn && !tp0.noOpt ==>
      tp.maxseg == Min(tp0.maxseg, TCP_MSS_MAX) && so.sndSize == so.rcvSize && so.sndSize % TCP_MSS_MAX == 0
    ensures var room := if p.flags.syn && !tp0.noOpt then tp.maxseg - 4 else tp.maxseg;
      len == Max(Min(p.len, room), 0) && sendalot == (p.sendalot || p.len > room)
    ensures !p.flags.syn && p.len <= tp0.maxseg ==> len == p.len && sendalot == p.sendalot
  {
    tp, so, len, sendalot := tp0, so0, p.len, p.sendalot;
    var optlen := 0;
    if p.flags.syn {
      tp := tp.(sndNxt := tp.iss);
      if !tp.noOpt {
        tp, so := MssForSyn(tp, so);
        optlen := 4;
      }
    }
    if len > tp.maxseg - optlen {
      len := Max(tp.maxseg - optlen, 0);
      sendalot := true;
    }
  }

  /** sbcopy, which never reads beyond what the buffer holds. */
  function Copy(buf: seq<byte>, off: int, len: int): seq<byte> {
    if 0 <= off <= off + len <= |buf| then buf[off..off + len] else []
  }

  /** What to advertise: the free space, but no silly window and no shrinking.  The scale is 0. */
  function AdvertisedWindow(tp: Tcb, so: Sock): int {
    var space := so.rcvSize - |so.rcvBuf|;
    var w := if space < so.rcvSize / 4 && space < tp.maxseg then 0 else Min(space, TCP_MAXWIN);
    Max(w, Diff(tp.rcvAdv, tp.rcvNxt))
  }

  /** `send`, once there is an mbuf: build the segment and account for it. */
  method Transmit(tp0: Tcb, so: Sock, p: Plan, len: nat) returns (tp: Tcb, o: OutSeg)
    requires len <= p.len
    ensures o.ack == tp0.rcvNxt && tp.rt.cur == tp0.rt.cur && tp.rt.min == tp0.rt.min
    ensures len > 0 && !p.flags.fin && InBounds(p, tp0, so) && SeqInv(tp0, so) ==> o.sq == tp0.sndNxt && |o.data| == len
    ensures TimersExclusive(tp0) ==> TimersExclusive(tp)
    ensures FarOff(tp0) ==> FarOff(tp)
    ensures tp == tp0.(sndNxt := tp.sndNxt, sndMax := tp.sndMax, sndUp := tp.sndUp, rt := tp.rt, rtseq := tp.rtseq,
                       rexmt := tp.rexmt, persist := tp.persist, sentFin := tp.sentFin)
    ensures Sending(tp0, so) && !p.flags.syn && !p.flags.fin && (len > 0 ==> InBounds(p, tp0, so)) ==>
      Sending(tp, so) && Truthful(o, tp0, so) && Advanced(tp0, tp, len)
    ensures !p.flags.syn && !p.flags.fin ==> Clocked(tp0, tp, Add(tp0.sndNxt, len))
    ensures o.flags == p.flags && tp.sndUp == if SeqGt(tp0.sndUp, tp0.sndUna) then tp0.sndUp else tp0.sndUna
    ensures len == 0 ==> o.data == []
    ensures o.sq == if len == 0 && !p.flags.syn && !p.flags.fin && tp0.persist == 0 then tp0.sndMax
      else StartsAt(tp0, p)
    ensures Transmits(tp0) ==>
      tp.sndNxt == Add(Add(Add(StartsAt(tp0, p), if p.flags.syn then 1 else 0), if p.flags.fin then 1 else 0), len)
    ensures p.flags.fin && !p.flags.syn && len == 0 && tp0.sentFin && tp0.sndNxt == tp0.sndMax && Transmits(tp0) ==>
      tp.sndNxt == tp0.sndMax
  {
    hide Add, Diff, SeqGt, Copy, Truthful, InBounds, Advanced, Clocked, TimersExclusive, FarOff, SeqInv;
    DataIsTrue(tp0, so, p, len);
    var nxt := tp0.sndNxt;
    if p.flags.fin && tp0.sentFin && nxt == tp0.sndMax {
      nxt := Add(nxt, -1);
    }
    var sq := if len != 0 || p.flags.syn || p.flags.fin || tp0.persist != 0 then nxt else tp0.sndMax;
    o := OutSeg(sq, tp0.rcvNxt, Copy(so.sndBuf, p.off, len), p.flags);
    var up := if SeqGt(tp0.sndUp, tp0.sndUna) then tp0.sndUp else tp0.sndUna;
    var tp1 := tp0.(sndNxt := nxt, sndUp := up);
    AddBackAndForth(tp0.sndNxt);
    tp := Advance(tp1, so, len, p.flags.syn, p.flags.fin);
    UpApart(tp0, tp1, tp, so, len);
  }

  /** Where the segment starts: a FIN that is sent again keeps its sequence number. */
  function StartsAt(tp: Tcb, p: Plan): tcp_seq {
    if p.flags.fin && tp.sentFin && tp.sndNxt == tp.sndMax then Add(tp.sndNxt, -1) else tp.sndNxt
  }

  lemma AddBackAndForth(x: tcp_seq)
    ensures Add(Add(Add(Add(x, -1), 0), 1), 0) == x
  {
  }

  /** The urgent pointer plays no part in the sequence and timer accounts. */
  lemma UpApart(tp0: Tcb, tp1: Tcb, tp: Tcb, so: Sock, len: nat)
    requires tp1 == tp0.(sndNxt := tp1.sndNxt, sndUp := tp1.sndUp)
    ensures TimersExclusive(tp1) == TimersExclusive(tp0) && FarOff(tp1) == FarOff(tp0)
    ensures tp1.sndNxt == tp0.sndNxt ==>
      && SeqInv(tp1, so) == SeqInv(tp0, so) && Advanced(tp1, tp, len) == Advanced(tp0, tp, len)
      && Clocked(tp1, tp, Add(tp0.sndNxt, len)) == Clocked(tp0, tp, Add(tp0.sndNxt, len))
  {
    hide Add, Diff;
  }

  /** What a plan in bounds copies from so_snd is true, from snd_nxt on; so is an empty segment. */
  lemma DataIsTrue(tp: Tcb, so: Sock, p: Plan, len: nat)
    requires len <= p.len
    ensures len == 0 ==> Copy(so.sndBuf, p.off, len) == []
    ensures len > 0 && InBounds(p, tp, so) && SeqInv(tp, so) ==> |Copy(so.sndBuf, p.off, len)| == len
    ensures SeqInv(tp, so) && (len > 0 ==> InBounds(p, tp, so)) ==> Diff(tp.sndNxt, tp.sndUna) + len <= |so.sndBuf|
    ensures SeqInv(tp, so) && (len > 0 ==> InBounds(p, tp, so)) && !p.flags.syn && !p.flags.fin ==>
      var data := Copy(so.sndBuf, p.off, len);
      && Truthful(OutSeg(tp.sndNxt, tp.rcvNxt, data, p.flags), tp, so)
      && (len == 0 ==> Truthful(OutSeg(tp.sndMax, tp.rcvNxt, data, p.flags), tp, so))
  {
    hide Diff;
  }

  /** No reason to send: enter persist state if there is data and neither timer runs. */
  method Idle(tp0: Tcb, so: Sock) returns (tp: Tcb)
    ensures TimersExclusive(tp0) ==> TimersExclusive(tp)
    ensures FarOff(tp0) ==> FarOff(tp)
    ensures tp == tp0.(persist := tp.persist, rt := tp0.rt.(shift := tp.rt.shift))
    ensures if so.sndBuf != [] && tp0.rexmt == 0 && tp0.persist == 0
            then TCPTV_PERSMIN <= tp.persist <= TCPTV_PERSMAX && tp.rt.shift == 1
            else tp == tp0
  {
    tp := tp0;
    if so.sndBuf != [] && tp.rexmt == 0 && tp.persist == 0 {
      tp := SetPersist(tp.(rt := tp.rt.(shift := 0)));
    }
  }

  /** One round of tcp_output: `mbuf` says whether m_get succeeds, `ok` whether ip_output does; `more` is
      sendalot. */
  method OutputOnce(tp0: Tcb, so0: Sock, mbuf: bool, ok: bool)
    returns (tp: Tcb, so: Sock, out: seq<OutSeg>, more: bool)
    ensures Rounds(tp0, so0, tp, so, out)
    ensures more ==> mbuf && ok && out != []
    ensures |out| <= 1 && (out != [] ==> Acks(out, tp0)) && (mbuf && tp0.ackNow ==> out != [])
    ensures !OutFlags(tp0.state).syn ==> Informed(tp0, so0, tp, out != [] && ok)
    ensures Sending(tp0, so0) && 0 < tp0.maxseg ==> Round(tp0, so0, tp, out, mbuf, ok, more)
  {
    hide Diff, ShouldSend, InBounds, Truthful, TimersExclusive, Due, Round, Shut, Announced, Usable;
    var p;
    tp, p := PlanOutput(tp0, so0);
    ghost var tp1 := tp;
    DataFlags(tp0, so0);
    if !ShouldSend(tp, so0, p) {
      tp := Idle(tp, so0);
      so, out, more := so0, [], false;
      if Sending(tp0, so0) && 0 < tp0.maxseg { RoundIdle(tp0, so0, tp1, p, tp, mbuf, ok); }
      return;
    }
    tp, so, out, more := SendPlanned(tp0, so0, tp, p, mbuf, ok);
  }

  /** The rest of a round that has planned to send. */
  method SendPlanned(tp0: Tcb, so0: Sock, tp1: Tcb, p: Plan, mbuf: bool, ok: bool)
    returns (tp: Tcb, so: Sock, out: seq<OutSeg>, more: bool)
    requires p.len >= 0 && (!OutFlags(tp0.state).syn ==> !p.flags.syn) && (!OutFlags(tp0.state).fin ==> !p.flags.fin)
    requires tp1 == tp0.(rexmt := tp1.rexmt, persist := tp1.persist, rt := tp1.rt, sndNxt := tp1.sndNxt)
    requires (TimersExclusive(tp0) ==> TimersExclusive(tp1)) && (FarOff(tp0) ==> FarOff(tp1))
    requires SeqInv(tp0, so0) ==> SeqInv(tp1, so0) && (p.len > 0 ==> InBounds(p, tp1, so0))
    requires Planned(tp0, so0, tp1, p) && (Sending(tp0, so0) && 0 < tp0.maxseg ==> Due(tp0, so0))
    ensures Rounds(tp0, so0, tp, so, out)
    ensures (more ==> mbuf && ok && out != []) && |out| <= 1 && (out != [] ==> Acks(out, tp0)) && (mbuf ==> out != [])
    ensures !OutFlags(tp0.state).syn ==> Informed(tp0, so0, tp, out != [] && ok)
    ensures Sending(tp0, so0) && 0 < tp0.maxseg ==> Round(tp0, so0, tp, out, mbuf, ok, more)
  {
    hide Diff, InBounds, Truthful, TimersExclusive, FarOff, Due, Round, Shut, Announced, Usable;
    DataFlags(tp0, so0);
    tp, so, out, more := Emit(tp1, so0, p, mbuf, ok);
    PlanFits(tp0, so0, tp1, p);
    SameAnnounced(tp1, tp0, so0);
    if Sending(tp0, so0) { TruthfulSame(out, tp1, tp0, so); }
    if Sending(tp0, so0) && 0 < tp0.maxseg { RoundSent(tp0, so0, tp1, p, tp, out, mbuf, ok, more); }
  }

  lemma PlanFits(tp0: Tcb, so: Sock, tp1: Tcb, p: Plan)
    requires Planned(tp0, so, tp1, p)
    ensures p.len <= tp0.maxseg
  {
    hide Usable, Shut;
  }

  /** What `send` keeps, and what it does with the plan when there is an mbuf. */
  ghost predicate Sends(tp0: Tcb, so0: Sock, p: Plan, tp: Tcb, so: Sock, out: seq<OutSeg>, mbuf: bool)
    requires p.len >= 0
  {
    && (TimersExclusive(tp0) ==> TimersExclusive(tp)) && (FarOff(tp0) ==> FarOff(tp))
    && SameWindow(tp, tp0) && (tp0.maxseg > 0 ==> tp.maxseg > 0)
    && tp.maxSndwnd == tp0.maxSndwnd && tp.rt.cur == tp0.rt.cur && tp.rt.min == tp0.rt.min
    && (if mbuf then |out| == 1 && Acks(out, tp0) else out == [])
    && (!p.flags.syn ==> so == so0 && tp.maxseg == tp0.maxseg)
    && (Sending(tp0, so0) && !p.flags.syn && !p.flags.fin && (p.len > 0 ==> InBounds(p, tp0, so0)) ==>
          && Sending(tp, so) && tp.sndCwnd == tp0.sndCwnd && AllTruthful(out, tp0, so)
          && (p.len <= tp0.maxseg ==> CarriedOut(tp0, p, tp, out, mbuf)))
  }

  /** From `send` on: options, the mbuf, the segment, and what was advertised with it. */
  method Emit(tp0: Tcb, so0: Sock, p: Plan, mbuf: bool, ok: bool)
    returns (tp: Tcb, so: Sock, out: seq<OutSeg>, more: bool)
    requires p.len >= 0
    ensures Sends(tp0, so0, p, tp, so, out, mbuf) && (more ==> mbuf && ok)
    ensures !p.flags.syn ==> Informed(tp0, so0, tp, mbuf && ok)
    ensures !p.flags.syn && p.len <= tp0.maxseg ==> more == (mbuf && ok && p.sendalot)
  {
    hide Sends, Announced, Acks;
    var len;
    out := [];
    tp, so, len, more := AdjustForSyn(tp0, so0, p);
    Adjusted(tp0, so0, p, tp, so);
    if !mbuf {
      more := false;
      return;
    }
    var o;
    tp, o := Build(tp0, so0, p, tp, so, len);
    out := [o];
    SameAnnounced(tp0, tp, so);
    if !ok {
      more := false;
      return;
    }
    ghost var tp1 := tp;
    tp := Announce(tp, so);
    Told(tp0, so0, p, tp1, tp, so, out);
  }

  /** Options only. */
  lemma Adjusted(tp0: Tcb, so0: Sock, p: Plan, tp: Tcb, so: Sock)
    requires p.len >= 0 && tp == tp0.(sndNxt := tp.sndNxt, maxseg := tp.maxseg, sndCwnd := tp.sndCwnd)
    requires (tp0.maxseg > 0 ==> tp.maxseg > 0) && (!p.flags.syn ==> tp == tp0 && so == so0)
    ensures Sends(tp0, so0, p, tp, so, [], false)
  {
    hide Diff, InBounds;
  }

  /** The segment. */
  method Build(tp0: Tcb, so0: Sock, p: Plan, tp1: Tcb, so: Sock, len: nat) returns (tp: Tcb, o: OutSeg)
    requires 0 <= len <= p.len && tp1 == tp0.(sndNxt := tp1.sndNxt, maxseg := tp1.maxseg, sndCwnd := tp1.sndCwnd)
    requires (tp0.maxseg > 0 ==> tp1.maxseg > 0) && (!p.flags.syn ==> tp1 == tp0 && so == so0)
    requires !p.flags.syn && p.len <= tp0.maxseg ==> len == p.len
    ensures Sends(tp0, so0, p, tp, so, [o], true)
    ensures tp.rcvAdv == tp0.rcvAdv && tp.rcvNxt == tp0.rcvNxt && tp.ackNow == tp0.ackNow && tp.delAck == tp0.delAck
    ensures !p.flags.syn ==> tp.maxseg == tp0.maxseg
  {
    hide Add, Diff, InBounds, Truthful, Advanced, Clocked, SeqInv;
    tp, o := Transmit(tp1, so, p, len);
  }

  /** The marks of what the peer has been told play no part in that. */
  lemma Told(tp0: Tcb, so0: Sock, p: Plan, tp1: Tcb, tp: Tcb, so: Sock, out: seq<OutSeg>)
    requires p.len >= 0 && Sends(tp0, so0, p, tp1, so, out, true)
    requires tp == tp1.(rcvAdv := tp.rcvAdv, ackNow := tp.ackNow, delAck := tp.delAck)
    ensures Sends(tp0, so0, p, tp, so, out, true)
  {
    hide Add, Diff, InBounds, AllTruthful;
  }

  /** What a segment that leaves announces, and what it settles. */
  method Announce(tp0: Tcb, so: Sock) returns (tp: Tcb)
    ensures tp == tp0.(rcvAdv := Announced(tp0, so), ackNow := false, delAck := false)
  {
    hide Add, SeqGt;
    var win := AdvertisedWindow(tp0, so);
    tp := tp0.(ackNow := false, delAck := false);
    if win > 0 && SeqGt(Add(tp.rcvNxt, win), tp.rcvAdv) {
      tp := tp.(rcvAdv := Add(tp.rcvNxt, win));
    }
  }

  /** With an mbuf the planned data go out in one segment, and are accounted for. */
  predicate CarriedOut(tp0: Tcb, p: Plan, tp: Tcb, out: seq<OutSeg>, mbuf: bool)
    requires p.len >= 0
  {
    if mbuf then
      && |out| == 1 && |out[0].data| == p.len && (p.len > 0 ==> out[0].sq == tp0.sndNxt)
      && Advanced(tp0, tp, p.len) && Clocked(tp0, tp, Add(tp0.sndNxt, p.len))
    else
      out == [] && tp == tp0
  }

  /** rcv_adv after a segment has announced the window. */
  function Announced(tp: Tcb, so: Sock): tcp_seq {
    var win := AdvertisedWindow(tp, so);
    var edge := Add(tp.rcvNxt, win);
    if win > 0 && SeqGt(edge, tp.rcvAdv) then edge else tp.rcvAdv
  }

  /** A segment that leaves pays the acknowledgments owed and announces the window. */
  predicate Informed(tp0: Tcb, so: Sock, tp: Tcb, told: bool) {
    && tp.ackNow == (tp0.ackNow && !told) && tp.delAck == (tp0.delAck && !told)
    && tp.rcvAdv == (if told then Announced(tp0, so) else tp0.rcvAdv)
  }

  lemma SameAnnounced(tp: Tcb, tp': Tcb, so: Sock)
    ensures tp'.rcvAdv == tp.rcvAdv && tp'.rcvNxt == tp.rcvNxt && tp'.maxseg == tp.maxseg ==>
      Announced(tp', so) == Announced(tp, so)
  {
  }

  /** Announcing the window again changes nothing. */
  lemma AnnouncedOnce(tp: Tcb, so: Sock, tp': Tcb)
    requires tp'.rcvAdv == Announced(tp, so) && tp'.rcvNxt == tp.rcvNxt && tp'.maxseg == tp.maxseg
    ensures Announced(tp', so) == tp'.rcvAdv
  {
    var win := AdvertisedWindow(tp, so);
    DiffSelf(tp.rcvAdv);
    DiffSelf(Add(tp.rcvNxt, win));
    if 0 < win < HALF {
      WireZero(tp.rcvNxt);
      AddWire(tp.rcvNxt, 0, win);
      DiffWire(tp.rcvNxt, win, 0);
    }
    hide Add;
  }

  /** Neither the connection state nor the edges of the send window have moved. */
  predicate SameWindow(tp: Tcb, tp0: Tcb) { SameEdges(tp, tp0) && tp.force == tp0.force }

  predicate SameEdges(tp: Tcb, tp0: Tcb) {
    tp.state == tp0.state && tp.sndUna == tp0.sndUna && tp.sndWnd == tp0.sndWnd && tp.rcvNxt == tp0.rcvNxt
  }

  /** After a while of idleness the congestion window starts over. */
  function Started(tp: Tcb): Tcb {
    if tp.sndMax == tp.sndUna && tp.idle >= tp.rt.cur then tp.(sndCwnd := tp.maxseg) else tp
  }

  /** What rounds of tcp_output keep: the timers exclude each other, the window does not move, and in
      the data phase all that is sent is true. */
  predicate Rounds(tp0: Tcb, so0: Sock, tp: Tcb, so: Sock, out: seq<OutSeg>) {
    && (TimersExclusive(tp0) ==> TimersExclusive(tp)) && (FarOff(tp0) ==> FarOff(tp))
    && SameWindow(tp, tp0) && (tp0.maxseg > 0 ==> tp.maxseg > 0) && tp.rt.cur == tp0.rt.cur && tp.rt.min == tp0.rt.min
    && (!OutFlags(tp0.state).syn ==> so == so0 && tp.maxseg == tp0.maxseg)
    && (Sending(tp0, so0) ==>
          && Sending(tp, so) && so == so0 && tp.sndCwnd == tp0.sndCwnd && tp.maxseg == tp0.maxseg
          && AllTruthful(out, tp0, so))
  }

  /** Rounds follow one another. */
  lemma RoundsOn(tp0: Tcb, so0: Sock, tp1: Tcb, so1: Sock, tp2: Tcb, so2: Sock, out: seq<OutSeg>, more: seq<OutSeg>)
    requires Rounds(tp0, so0, tp1, so1, out) && Rounds(tp1, so1, tp2, so2, more)
    ensures Rounds(tp0, so0, tp2, so2, out + more)
  {
    hide TimersExclusive, FarOff, OutFlags, Sending, AllTruthful, Diff;
    if Sending(tp0, so0) {
      TruthfulMore(out, more, tp1, tp0, so2);
    }
  }

  lemma SameCwnd(tp0: Tcb, so0: Sock, tp: Tcb, so: Sock, out: seq<OutSeg>)
    requires Rounds(tp0, so0, tp, so, out)
    ensures Sending(tp0, so0) ==> tp.sndCwnd == tp0.sndCwnd
  {
    hide Sending, AllTruthful;
  }

  lemma NoRounds(tp: Tcb, so: Sock)
    ensures Rounds(tp, so, tp, so, []) && Informed(tp, so, tp, false)
  {
    hide Truthful, Announced;
  }

  /** A smaller congestion window does not end the data phase. */
  lemma StartedSending(tp: Tcb, so: Sock)
    ensures Sending(Started(tp), so) == Sending(tp, so)
  {
    hide Diff;
  }

  /** One round in the data phase: a segment goes out exactly when one is due and there is an mbuf, what it
      carries is accounted for, another round follows exactly when more than a segment was usable, and
      without failure nothing that is due stays behind the last round. */
  ghost predicate Round(tp0: Tcb, so: Sock, tp: Tcb, out: seq<OutSeg>, mbuf: bool, ok: bool, more: bool) {
    && Accounted(tp0, so, tp, out) && (out != [] <==> mbuf && Due(tp0, so)) && |out| <= 1
    && (out != [] ==> |out[0].data| == Min(Max(Usable(tp0, so), 0), tp0.maxseg))
    && (more ==> out != [] && Usable(tp0, so) > tp0.maxseg && |out[0].data| == tp0.maxseg && TurnsTo(tp0, tp))
    && (mbuf && (ok || out == []) && !more && !Probing(tp0) ==> !DataDue(tp, so))
    && (mbuf && out == [] && so.sndBuf != [] ==> tp.rexmt != 0 || tp.persist != 0)
  }

  /** Between two rounds the window is the same and persist state is not entered. */
  predicate TurnsTo(tp0: Tcb, tp: Tcb) {
    && SameWindow(tp, tp0) && tp.sndCwnd == tp0.sndCwnd && tp.maxseg == tp0.maxseg && tp.maxSndwnd == tp0.maxSndwnd
    && !Probing(tp0) && !Probing(tp) && (tp0.persist == 0 ==> tp.persist == 0)
  }

  /** A round that does not send. */
  lemma RoundIdle(tp0: Tcb, so: Sock, tp1: Tcb, p: Plan, tp: Tcb, mbuf: bool, ok: bool)
    requires Sending(tp0, so) && 0 < tp0.maxseg && !Due(tp0, so)
    requires tp1 == tp0.(rexmt := tp1.rexmt, persist := tp1.persist, rt := tp1.rt, sndNxt := tp1.sndNxt)
    requires Planned(tp0, so, tp1, p)
    requires tp == tp1.(persist := tp.persist, rt := tp1.rt.(shift := tp.rt.shift))
    requires if so.sndBuf != [] && tp1.rexmt == 0 && tp1.persist == 0
             then TCPTV_PERSMIN <= tp.persist <= TCPTV_PERSMAX && tp.rt.shift == 1
             else tp == tp1
    ensures Round(tp0, so, tp, [], mbuf, ok, false)
  {
    hide Diff, WindowDue;
    DiffSelf(tp0.sndUna);
  }

  /** A round that finds something due. */
  lemma RoundSent(tp0: Tcb, so: Sock, tp1: Tcb, p: Plan, tp: Tcb, out: seq<OutSeg>, mbuf: bool, ok: bool, more: bool)
    requires Sending(tp0, so) && 0 < tp0.maxseg && Due(tp0, so)
    requires tp1 == tp0.(rexmt := tp1.rexmt, persist := tp1.persist, rt := tp1.rt, sndNxt := tp1.sndNxt)
    requires p.len >= 0 && Planned(tp0, so, tp1, p) && CarriedOut(tp1, p, tp, out, mbuf)
      && more == (mbuf && ok && p.sendalot)
    requires Sending(tp, so) && SameWindow(tp, tp0) && tp.sndCwnd == tp0.sndCwnd
    requires tp.maxseg == tp0.maxseg && tp.maxSndwnd == tp0.maxSndwnd
    ensures Round(tp0, so, tp, out, mbuf, ok, more)
  {
    hide Diff, WindowDue, Due;
    DiffSelf(tp0.sndUna);
    if mbuf {
      assert out == [out[0]] && Bytes(out) == |out[0].data| + Bytes([]);
      AdvanceWithin(tp0.sndUna, tp1.sndNxt, p.len, tp0.sndMax);
      assert Adjacent(out, tp0.sndUna, Origin(tp0, so));
    }
    assert Accounted(tp0, so, tp, out);
  }

  /** What a call of tcp_output has to work with: how many times m_get succeeds and how many times
      ip_output does. */
  datatype Supply = Supply(mbufs: nat, oks: nat)

  /** tcp_output in the data phase: segments go out exactly when one is due and there is an mbuf; the first
      one starts at snd_nxt and all but the last are full; they are accounted for; and unless the supply
      gave out, no data that are due are left. */
  ghost predicate Dispatched(tp0: Tcb, so: Sock, tp: Tcb, out: seq<OutSeg>, net: Supply) {
    && Accounted(tp0, so, tp, out) && (out != [] <==> net.mbufs > 0 && Due(tp0, so)) && |out| <= net.mbufs
    && (out != [] ==> |out[0].data| == Min(Max(Usable(tp0, so), 0), tp0.maxseg))
    && (forall i :: 0 <= i < |out| - 1 ==> |out[i].data| == tp0.maxseg)
    && (|out| < net.mbufs && |out| <= net.oks && !Probing(tp0) ==> !DataDue(tp, so))
    && (net.mbufs > 0 && out == [] && so.sndBuf != [] ==> tp.rexmt != 0 || tp.persist != 0)
  }

  /** The rounds so far, with `left` mbufs and `oks` successes still to come. */
  ghost predicate SoFar(tp0: Tcb, so0: Sock, net: Supply, tp: Tcb, so: Sock, out: seq<OutSeg>,
                        left: nat, oks: nat, more: bool) {
    && Rounds(tp0, so0, tp, so, out)
    && (out == [] && more ==> tp == tp0 && so == so0) && (out != [] ==> Acks(out, tp0))
    && (more ==> left == net.mbufs - |out| && oks == net.oks - |out|)
    && (net.mbufs > 0 && tp0.ackNow && !more ==> out != [])
    && (!OutFlags(tp0.state).syn ==> Informed(tp0, so0, tp, out != [] && net.oks > 0))
    && (Sending(tp0, so0) && 0 < tp0.maxseg ==>
          if more then out == [] || Midway(tp0, so0, tp, out) else Dispatched(tp0, so0, tp, out, net))
  }

  /** Full segments have gone out and more than one was usable. */
  ghost predicate Midway(tp0: Tcb, so: Sock, tp: Tcb, out: seq<OutSeg>) {
    && out != [] && Accounted(tp0, so, tp, out) && Due(tp0, so) && Usable(tp0, so) > tp0.maxseg && TurnsTo(tp0, tp)
    && (forall i :: 0 <= i < |out| ==> |out[i].data| == tp0.maxseg)
  }

  lemma SoFarNext(tp0: Tcb, so0: Sock, net: Supply, tp1: Tcb, so1: Sock, out: seq<OutSeg>, left: nat, oks: nat,
                  tp: Tcb, so: Sock, o: seq<OutSeg>, more: bool)
    requires SoFar(tp0, so0, net, tp1, so1, out, left, oks, true)
    requires Rounds(tp1, so1, tp, so, o) && |o| <= 1 && (o != [] ==> Acks(o, tp1)) && (more ==> o != [])
    requires more ==> left > 0 && oks > 0
    requires left > 0 && tp1.ackNow ==> o != []
    requires !OutFlags(tp1.state).syn ==> Informed(tp1, so1, tp, o != [] && oks > 0)
    requires Sending(tp1, so1) && 0 < tp1.maxseg ==> Round(tp1, so1, tp, o, left > 0, oks > 0, more)
    ensures SoFar(tp0, so0, net, tp, so, out + o, Max(left - 1, 0), Max(oks - 1, 0), more)
  {
    RoundsOn(tp0, so0, tp1, so1, tp, so, out, o);
    InformedOn(tp0, so0, tp1, tp, out != [] && net.oks > 0, o != [] && oks > 0);
    if out == [] {
      assert out + o == o;
    }
    if Sending(tp0, so0) && 0 < tp0.maxseg {
      if out == [] { RoundFirst(tp0, so0, tp, o, net, more); } else { RoundNext(tp0, so0, tp1, out, tp, o, net, more); }
    }
    hide Rounds, Round, Dispatched, Midway, Informed, OutFlags, SeqInv;
  }

  lemma InformedOn(tp0: Tcb, so: Sock, tp1: Tcb, tp: Tcb, told: bool, more: bool)
    requires SameWindow(tp1, tp0)
    ensures tp1.maxseg == tp0.maxseg && Informed(tp0, so, tp1, told) && Informed(tp1, so, tp, more) ==>
      Informed(tp0, so, tp, told || more)
  {
    if tp1.maxseg == tp0.maxseg && Informed(tp0, so, tp1, told) {
      if told { AnnouncedOnce(tp0, so, tp1); } else { SameAnnounced(tp0, tp1, so); }
    }
    hide Announced;
  }

  lemma RoundFirst(tp0: Tcb, so: Sock, tp: Tcb, out: seq<OutSeg>, net: Supply, more: bool)
    requires Round(tp0, so, tp, out, net.mbufs > 0, net.oks > 0, more)
    ensures if more then Midway(tp0, so, tp, out) else Dispatched(tp0, so, tp, out, net)
  {
    hide Accounted, Due, DataDue, Usable, Probing;
  }

  lemma RoundNext(tp0: Tcb, so: Sock, tp1: Tcb, out: seq<OutSeg>, tp: Tcb, o: seq<OutSeg>, net: Supply, more: bool)
    requires Midway(tp0, so, tp1, out) && 0 < tp0.maxseg && |out| <= net.mbufs && |out| <= net.oks
    requires Round(tp1, so, tp, o, net.mbufs > |out|, net.oks > |out|, more) && tp.sndUna == tp1.sndUna
    ensures if more then Midway(tp0, so, tp, out + o) else Dispatched(tp0, so, tp, out + o, net)
  {
    hide Accounted, Due, DataDue, Usable, Probing;
    assert Bytes(out) == |out[0].data| + Bytes(out[1..]);
    AccountedOn(tp0, so, tp1, tp, out, o);
    FullOn(out, o, tp0.maxseg);
  }

  lemma FullOn(out: seq<OutSeg>, o: seq<OutSeg>, n: nat)
    requires out != [] && |o| <= 1 && forall i :: 0 <= i < |out| ==> |out[i].data| == n
    ensures (out + o)[0] == out[0] && forall i :: 0 <= i < |out + o| - 1 ==> |(out + o)[i].data| == n
    ensures o != [] && |o[0].data| == n ==> forall i :: 0 <= i < |out + o| ==> |(out + o)[i].data| == n
  {
  }

  lemma AccountedOn(tp0: Tcb, so: Sock, tp1: Tcb, tp: Tcb, out: seq<OutSeg>, o: seq<OutSeg>)
    requires Accounted(tp0, so, tp1, out) && Accounted(tp1, so, tp, o) && Bytes(out) > 0 && TurnsTo(tp0, tp1)
    requires tp.sndUna == tp1.sndUna
    ensures Accounted(tp0, so, tp, out + o)
  {
    BytesOn(out, o, tp0.sndUna, Origin(tp0, so));
    hide Diff, Carries;
    CarriesOn(out, o, tp.rtseq, tp.sndUna, Diff(tp0.sndMax, tp0.sndUna));
  }

  lemma CarriesOn(out: seq<OutSeg>, o: seq<OutSeg>, sq: tcp_seq, una: tcp_seq, at: int)
    ensures Carries(out, sq, una, at) || Carries(o, sq, una, at) ==> Carries(out + o, sq, una, at)
  {
    if Carries(out, sq, una, at) {
      var i :| 0 <= i < |out| && out[i].sq == sq && Diff(sq, una) <= at < Diff(sq, una) + |out[i].data|;
      assert (out + o)[i] == out[i];
    } else if Carries(o, sq, una, at) {
      var i :| 0 <= i < |o| && o[i].sq == sq && Diff(sq, una) <= at < Diff(sq, una) + |o[i].data|;
      assert (out + o)[|out| + i] == o[i];
    }
  }

  lemma {:induction false} BytesOn(out: seq<OutSeg>, o: seq<OutSeg>, una: tcp_seq, from: int)
    ensures Bytes(out + o) == Bytes(out) + Bytes(o)
    ensures Adjacent(out, una, from) && Adjacent(o, una, from + Bytes(out)) ==> Adjacent(out + o, una, from)
  {
    if out == [] {
      assert out + o == o;
    } else {
      assert (out + o)[1..] == out[1..] + o;
      BytesOn(out[1..], o, una, from + |out[0].data|);
    }
  }

  /** tcp_output: figure out what should be sent and send it. */
  method TcpOutput(tp0: Tcb, so0: Sock, net: Supply) returns (tp: Tcb, so: Sock, out: seq<OutSeg>)
    ensures Rounds(Started(tp0), so0, tp, so, out)
    ensures Sending(tp0, so0) && 0 < tp0.maxseg ==> Dispatched(Started(tp0), so0, tp, out, net)
    ensures (out != [] ==> Acks(out, tp0)) && (net.mbufs > 0 && tp0.ackNow ==> out != [])
    ensures Sending(tp0, so0) ==>
      tp.sndCwnd == if tp0.sndMax == tp0.sndUna && tp0.idle >= tp0.rt.cur then tp0.maxseg else tp0.sndCwnd
    ensures !OutFlags(tp0.state).syn ==> Informed(Started(tp0), so0, tp, out != [] && net.oks > 0)
  {
    hide Rounds, Round, Dispatched, Midway, Informed, OutFlags, SeqInv, Due;
    tp, so, out := tp0, so0, [];
    if tp.sndMax == tp.sndUna && tp.idle >= tp.rt.cur {
      tp := tp.(sndCwnd := tp.maxseg);
    }
    ghost var start := tp;
    StartedSending(tp0, so0);
    NoRounds(tp, so);
    var left, oks, more := net.mbufs, net.oks, true;
    while more
      invariant left >= 0 && oks >= 0 && SoFar(start, so0, net, tp, so, out, left, oks, more)
      decreases left, more
    {
      ghost var tp1, so1 := tp, so;
      var o;
      tp, so, o, more := OutputOnce(tp, so, left > 0, oks > 0);
      SoFarNext(start, so0, net, tp1, so1, out, left, oks, tp, so, o, more);
      out := out + o;
      left, oks := Max(left - 1, 0), Max(oks - 1, 0);
    }
    SameCwnd(start, so0, tp, so, out);
  }

  lemma TruthfulSame(out: seq<OutSeg>, tp: Tcb, tp': Tcb, so: Sock)
    requires SameWindow(tp', tp) && tp'.sndCwnd == tp.sndCwnd && AllTruthful(out, tp, so)
    ensures AllTruthful(out, tp', so)
  {
  }

  lemma TruthfulMore(out: seq<OutSeg>, more: seq<OutSeg>, tp: Tcb, tp': Tcb, so: Sock)
    requires SameWindow(tp', tp) && tp'.sndCwnd == tp.sndCwnd && AllTruthful(more, tp, so) && AllTruthful(out, tp', so)
    ensures AllTruthful(out + more, tp', so)
  {
    hide Truthful;
    TruthfulSame(more, tp, tp', so);
  }

  predicate AllTruthful(out: seq<OutSeg>, tp: Tcb, so: Sock) {
    forall i :: 0 <= i < |out| ==> Truthful(out[i], tp, so)
  }

  /** Advancing a number by len, everything staying within half the space of u. */
  lemma AdvanceWithin(u: tcp_seq, x: tcp_seq, len: nat, m: tcp_seq)
    requires 0 <= Diff(x, u) <= Diff(m, u) < 0x4000_0000 && Diff(x, u) + len < 0x4000_0000
    ensures Diff(Add(x, len), u) == Diff(x, u) + len
    ensures SeqGt(Add(x, len), m) == (Diff(x, u) + len > Diff(m, u))
  {
    WireOfDiff(x, u);
    WireOfDiff(m, u);
    AddWire(u, Diff(x, u), len);
    CompareWire(u, Diff(x, u) + len, 0);
    CompareWire(u, Diff(x, u) + len, Diff(m, u));
    WireZero(u);
  }

  lemma DiffInjective(a: tcp_seq, b: tcp_seq, u: tcp_seq)
    requires Diff(a, u) == Diff(b, u)
    ensures a == b
  {
    WireOfDiff(a, u);
    WireOfDiff(b, u);
  }

  /** Data that must go out do, from snd_nxt on. */
  lemma FirstSent(tp: Tcb, so: Sock, tp': Tcb, out: seq<OutSeg>, net: Supply)
    requires Dispatched(tp, so, tp', out, net) && net.mbufs > 0 && MustSend(tp, so)
    ensures out != [] && out[0].sq == tp.sndNxt && out[0].data != []
  {
    hide Diff, WindowDue;
    DiffInjective(out[0].sq, tp.sndNxt, tp.sndUna);
  }

  lemma WireOfDiff(a: tcp_seq, b: tcp_seq)
    ensures Wire(b, Diff(a, b)) == a
  {
  }

  lemma DiffSelf(u: tcp_seq)
    ensures Diff(u, u) == 0
  {
  }

  lemma WireZero(u: tcp_seq)
    ensures Wire(u, 0) == u
  {
  }
}
