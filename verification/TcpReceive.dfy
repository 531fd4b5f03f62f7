/**
 * The receiving half of a slirp TCP connection: window trimming (`tcp_input`), the inline
 * `TCP_REASS` macro, the reassembly queue (`tcp_reass`), the hand-over to the host socket
 * (`sbappend`, `sowrite`) and the window advertisement (`tcp_output`).
 *
 * Sequence numbers are 32-bit and wrap.  The peer's byte stream, the stream offset of `rcv_nxt`
 * and the positions of the queued segments are history variables: no branch of the modelled
 * code looks at them.
 */
module TcpReceive {
  import opened Common
  import opened SeqSpace
  import opened TcpStates
  import opened Reassembly

  /** A text segment: ti_seq, the mbuf data (ti_len bytes) and TH_FIN of ti_flags. */
  datatype Segment = Segment(sq: tcp_seq, data: seq<byte>, fin: bool)

  /** The segment that carries a piece of the stream starting at `isn`. */
  function Encode(isn: tcp_seq, p: Piece): Segment {
    Segment(Wire(isn, p.pos), p.data, p.last)
  }

  ghost predicate Rep(q: seq<Segment>, ps: seq<Piece>, isn: tcp_seq) {
    |q| == |ps| && forall i :: 0 <= i < |q| ==> q[i] == Encode(isn, ps[i])
  }

  /** The queued pieces lie in the window [nxt, nxt + space], and an empty one is a bare FIN. */
  ghost predicate InWindow(ps: seq<Piece>, nxt: nat, space: nat) {
    forall i :: 0 <= i < |ps| ==>
      nxt <= ps[i].pos && ps[i].End() <= nxt + space && (ps[i].data == [] ==> ps[i].last)
  }

  /** A FIN is among the pieces. */
  ghost predicate HasLast(ps: seq<Piece>) {
    exists i :: 0 <= i < |ps| && ps[i].last
  }

  /** Nothing but bare FINs can follow a FIN. */
  lemma LastCloses(ps: seq<Piece>, stream: seq<byte>, nxt: nat, space: nat)
    requires Ordered(ps) && SlicesOf(ps, stream) && InWindow(ps, nxt, space)
    ensures HasLast(ps) <==> ps != [] && ps[|ps| - 1].last
  {
    if HasLast(ps) {
      var i :| 0 <= i < |ps| && ps[i].last;
      assert SliceOf(ps[i], stream) && SliceOf(ps[|ps| - 1], stream);
    }
  }

  /** Insertion invents no FIN. */
  lemma InsertLast(ps: seq<Piece>, p: Piece)
    ensures HasLast(Insert(ps, p)) ==> HasLast(ps) || p.last
  {
    var k := After(ps, p.pos);
    if Insert(ps, p) != ps {
      var g := if Overlap(ps, p) > 0 then p.Trim(Overlap(ps, p)) else p;
      TrimNextLast(ps[k..], g.End());
      hide TrimNext;
      LastSplit(ps[..k] + [g], TrimNext(ps[k..], g.End()));
      LastSplit(ps[..k], [g]);
      LastSplit(ps[..k], ps[k..]);
      assert ps == ps[..k] + ps[k..];
    }
  }

  lemma LastSplit(ps: seq<Piece>, qs: seq<Piece>)
    ensures HasLast(ps + qs) <==> HasLast(ps) || HasLast(qs)
  {
    var rs := ps + qs;
    if HasLast(ps) {
      var i :| 0 <= i < |ps| && ps[i].last;
      assert rs[i].last;
    }
    if HasLast(qs) {
      var i :| 0 <= i < |qs| && qs[i].last;
      assert rs[|ps| + i].last;
    }
  }

  lemma {:induction false} TrimNextLast(ps: seq<Piece>, end: nat)
    ensures HasLast(TrimNext(ps, end)) ==> HasLast(ps)
  {
    if ps == [] || end <= ps[0].pos {
    } else {
      assert ps == [ps[0]] + ps[1..];
      LastSplit([ps[0]], ps[1..]);
      if end - ps[0].pos < |ps[0].data| {
        LastSplit([ps[0].Trim(end - ps[0].pos)], ps[1..]);
        assert [ps[0]][0] == ps[0];
      } else {
        TrimNextLast(ps[1..], end);
      }
    }
  }

  /** The pieces that are left once the first of them have been presented. */
  predicate Suffix(ps: seq<Piece>, all: seq<Piece>) {
    |ps| <= |all| && ps == all[|all| - |ps|..]
  }

  class Receiver {
    var state: int
    var rcvNxt: tcp_seq
    var rcvAdv: tcp_seq
    var queue: seq<Segment>
    var cantSendMore: bool     // SS_FCANTSENDMORE
    var ackNow: bool           // TF_ACKNOW
    var delAck: bool           // TF_DELACK
    var eof: bool              // sofwdrain has been called: the peer's FIN was accepted
    var rcvBuf: seq<byte>      // so_rcv
    const datalen: nat         // so_rcv.sb_datalen
    var host: seq<byte>        // everything the host socket has taken

    // History variables.
    const isn: tcp_seq         // sequence number of the first data byte, irs + 1
    const stream: seq<byte>    // all the bytes the peer sends before its FIN
    var nxt: nat               // stream offset of rcv_nxt
    var adv: int               // stream offset of rcv_adv
    ghost var pieces: seq<Piece>

    ghost function Space(): int
      reads this`rcvBuf
    {
      datalen - |rcvBuf|
    }

    /** The byte at stream offset x has been received and kept. */
    ghost predicate Has(x: nat)
      reads this`nxt, this`pieces
    {
      x < nxt || Covers(pieces, x)
    }

    /** What decides which bytes of an arrival are kept. */
    ghost function Look(): View
      reads this`nxt, this`adv, this`rcvBuf, this`state, this`queue
    {
      View(nxt, nxt + Space(), adv, state >= TCPS_ESTABLISHED && queue == [])
    }

    /** The peer's FIN has been received and not been lost again. */
    ghost predicate HasFin()
      reads this`eof, this`pieces
    {
      eof || HasLast(pieces)
    }

    ghost predicate QueueValid()
      reads this
    {
      && rcvNxt == Wire(isn, nxt) && rcvAdv == Wire(isn, adv)
      && Rep(queue, pieces, isn)
      && Ordered(pieces) && SlicesOf(pieces, stream)
      && |rcvBuf| <= datalen < 0x4000_0000
      && InWindow(pieces, nxt, Space())
      && adv - nxt <= Space()
    }

    /** The head of the queue lies in the window. */
    lemma Head()
      requires QueueValid() && queue != []
      ensures |queue| == |pieces| && queue[0] == Encode(isn, pieces[0])
      ensures nxt <= pieces[0].pos < nxt + HALF && pieces[0].pos <= |stream|
    {
      assert SliceOf(pieces[0], stream);
    }

    lemma SameLength()
      requires QueueValid()
      ensures |queue| == |pieces|
    {}

    ghost predicate Valid()
      reads this
    {
      && QueueValid()
      && (if eof then nxt == |stream| + 1 && pieces == [] else nxt <= |stream|)
      && (eof <==> GotFin(state)) && TCPS_SYN_RECEIVED <= state <= TCPS_TIME_WAIT
      && (state >= TCPS_ESTABLISHED && pieces != [] ==> nxt < pieces[0].pos)
      && (!cantSendMore ==> host + rcvBuf == stream[..Min(nxt, |stream|)])
    }

    /** Once established, rcv_nxt is the first byte not held. */
    lemma NextMissing()
      requires Valid() && !eof && state >= TCPS_ESTABLISHED
      ensures !Has(nxt)
    {
      hide Rep, SlicesOf, Wire;
    }

    /** tcp_rcvseqinit after the peer's SYN, with the buffers as sbreserve left them. */
    constructor (irs: tcp_seq, stream: seq<byte>, datalen: nat)
      requires datalen < 0x4000_0000
      ensures Valid() && nxt == 0 && host == [] && !eof && !cantSendMore
      ensures state == TCPS_SYN_RECEIVED && pieces == [] && rcvBuf == [] && adv == 0 && ackNow && !delAck
      ensures this.stream == stream && this.isn == Add(irs, 1) && this.datalen == datalen
    {
      assert Wire(Add(irs, 1), 0) == Add(irs, 1);
      hide Add, Wire;
      state := TCPS_SYN_RECEIVED;
      rcvNxt, rcvAdv := Add(irs, 1), Add(irs, 1);
      queue, rcvBuf, host := [], [], [];
      cantSendMore, ackNow, delAck, eof := false, true, false, false;
      this.datalen := datalen;
      isn := Add(irs, 1);
      this.stream := stream;
      nxt, adv := 0, 0;
      pieces := [];
      new;
      assert stream[..0] == [];
    }

    /** sbappend: offer the bytes to the host when nothing is buffered, buffer the rest.  With
        room for them nothing is lost, whatever part of them the host takes; otherwise a prefix of
        them is kept that fills the buffer at least.  (Appending to a buffer that is already full
        corrupts it, see SocketBuffer.)  `sent` is what slirp_send would return. */
    method SbAppend(m: seq<byte>, sent: int)
      requires -1 <= sent <= |m|
      requires |rcvBuf| <= datalen && (|m| <= Space() || |rcvBuf| < datalen || rcvBuf == [])
      modifies this`host, this`rcvBuf
      ensures old(host + rcvBuf) <= host + rcvBuf <= old(host + rcvBuf) + m
      ensures |host + rcvBuf| >= old(|host + rcvBuf|) + Min(|m|, old(Space()))
      ensures |m| <= old(Space()) ==> host + rcvBuf == old(host + rcvBuf) + m
      ensures host == if old(rcvBuf) == [] && sent > 0 then old(host) + m[..sent] else old(host)
      ensures |rcvBuf| <= datalen && |rcvBuf| <= old(|rcvBuf|) + |m|
    {
      if |m| == 0 {
        return;
      }
      var ret := 0;
      if rcvBuf == [] {
        ret := sent;
      }
      if ret <= 0 {
        SbAppendSb(m);
      } else {
        host := host + m[..ret];
        SbAppendSb(m[ret..]);
        assert m[ret..][..|rcvBuf|] == m[ret..ret + |rcvBuf|]
          && m[..ret] + m[ret..ret + |rcvBuf|] == m[..ret + |rcvBuf|];
      }
    }

    /** sbappendsb copies only what fits. */
    method SbAppendSb(m: seq<byte>)
      requires |rcvBuf| <= datalen
      modifies this`rcvBuf
      ensures rcvBuf == old(rcvBuf) + m[..Min(|m|, old(Space()))]
    {
      rcvBuf := rcvBuf + m[..Min(|m|, datalen - |rcvBuf|)];
    }

    /** One round of the presenting loop: the head of the queue goes to the host. */
    method PresentOne() returns (fin: bool)
      requires QueueValid() && queue != [] && pieces[0].pos == nxt
      requires !cantSendMore ==> host + rcvBuf == stream[..nxt]
      modifies this`rcvNxt, this`queue, this`rcvBuf, this`host, this`nxt, this`pieces
      ensures QueueValid() && |queue| == old(|queue|) - 1
      ensures pieces == old(pieces)[1..] && nxt == old(pieces)[0].End() && nxt <= |stream|
      ensures !cantSendMore ==> host + rcvBuf == stream[..nxt]
      ensures fin == old(pieces)[0].last && (fin ==> nxt == |stream|)
      ensures old(host) <= host && (cantSendMore ==> host == old(host) && rcvBuf == old(rcvBuf))
    {
      var ti := queue[0];
      ghost var p := pieces[0];
      AddWire(isn, nxt, |ti.data|);
      rcvNxt := Add(rcvNxt, |ti.data|);
      fin := ti.fin;
      queue := queue[1..];
      pieces := pieces[1..];
      nxt := nxt + |ti.data|;
      if !cantSendMore {
        var ret :| -1 <= ret <= |ti.data|;  // slirp_send
        SbAppend(ti.data, ret);
        assert stream[..p.End()] == stream[..p.pos] + stream[p.pos..p.End()];
      }
    }

    /** The `present` label of tcp_reass.  The loop test is the sentinel test used everywhere
        else on this queue. */
    method Present() returns (fin: bool)
      requires QueueValid() && nxt <= |stream|
      requires !cantSendMore ==> host + rcvBuf == stream[..nxt]
      modifies this`rcvNxt, this`queue, this`rcvBuf, this`host, this`nxt, this`pieces
      ensures QueueValid() && old(nxt) <= nxt <= |stream|
      ensures !cantSendMore ==> host + rcvBuf == stream[..nxt]
      ensures state >= TCPS_ESTABLISHED && pieces != [] ==> nxt < pieces[0].pos
      ensures fin <==> state >= TCPS_ESTABLISHED && pieces == [] && HasLast(old(pieces))
      ensures fin ==> nxt == |stream|
      ensures forall x: nat :: Has(x) <==> old(Has(x))
      ensures old(host) <= host && Suffix(pieces, old(pieces))
      ensures cantSendMore ==> host == old(host) && rcvBuf == old(rcvBuf)
    {
      hide HasLast, Rep, Ordered, SlicesOf, InWindow, Covers, Wire, Suffix;
      SuffixAll(pieces);
      fin := false;
      SameLength();
      LastCloses(pieces, stream, nxt, Space());
      if state < TCPS_ESTABLISHED {
        return;
      }
      while queue != [] && queue[0].sq == rcvNxt
        invariant QueueValid() && old(nxt) <= nxt <= |stream|
        invariant !cantSendMore ==> host + rcvBuf == stream[..nxt]
        invariant fin ==> nxt == |stream|
        invariant forall x: nat :: Has(x) <==> old(Has(x))
        invariant old(host) <= host && Suffix(pieces, old(pieces))
        invariant cantSendMore ==> host == old(host) && rcvBuf == old(rcvBuf)
        invariant fin <==> |pieces| < |old(pieces)| && old(pieces)[|old(pieces)| - |pieces| - 1].last
        invariant |queue| == |pieces|
        decreases |queue|
      {
        Head();
        WireInjective(isn, pieces[0].pos, nxt);
        ghost var ps, n := pieces, nxt;
        SuffixNext(ps, old(pieces));
        fin := PresentOne();
        SameLength();
        forall x: nat
          ensures Has(x) <==> x < n || Covers(ps, x)
        {
          PopCovers(ps, n, x);
        }
      }
      if queue != [] {
        Head();
      }
    }

    /** The queueing part of tcp_reass: drop what the predecessor provides, trim or dequeue the
        successors, stick the segment in its place. */
    method Enqueue(ti: Segment, ghost p: Piece)
      requires QueueValid() && ti == Encode(isn, p) && SliceOf(p, stream) && InWindow([p], nxt, Space())
      modifies this`queue, this`pieces
      ensures QueueValid() && pieces == Insert(old(pieces), p)
    {
      ghost var ps := pieces;
      InWindowWider(pieces, nxt, Space(), 0x4000_0000);
      InWindowWider([p], nxt, Space(), 0x4000_0000);
      queue := SpliceIn(queue, ti, pieces, p, isn, nxt);
      pieces := Insert(pieces, p);
      InsertKeeps(ps, p, stream);
      InsertInWindow(ps, p, nxt, Space());
    }

    /** tcp_reass.  Called with no segment after the three-way handshake, to present what was
        queued before. */
    method TcpReass(ti: Option<Segment>, ghost p: Piece) returns (fin: bool)
      requires QueueValid() && nxt <= |stream|
      requires ti.Some? ==> ti.value == Encode(isn, p) && SliceOf(p, stream) && InWindow([p], nxt, Space())
      requires !cantSendMore ==> host + rcvBuf == stream[..nxt]
      modifies this`rcvNxt, this`queue, this`rcvBuf, this`host, this`nxt, this`pieces
      ensures QueueValid() && old(nxt) <= nxt <= |stream|
      ensures !cantSendMore ==> host + rcvBuf == stream[..nxt]
      ensures state >= TCPS_ESTABLISHED && pieces != [] ==> nxt < pieces[0].pos
      ensures fin <==> state >= TCPS_ESTABLISHED && pieces == [] && HasLast(Queued(old(pieces), ti, p))
      ensures fin ==> nxt == |stream|
      ensures forall x: nat :: Has(x) <==> old(Has(x)) || (ti.Some? && p.pos <= x < p.End())
      ensures old(host) <= host && Suffix(pieces, Queued(old(pieces), ti, p))
      ensures cantSendMore ==> host == old(host) && rcvBuf == old(rcvBuf)
    {
      if ti.Some? {
        ghost var ps := pieces;
        Enqueue(ti.value, p);
        forall x: nat
          ensures Covers(pieces, x) <==> Covers(ps, x) || p.pos <= x < p.End()
        {
          InsertCovers(ps, p, x);
        }
      }
      fin := Present();
    }

    /** The in-order case of TCP_REASS, also the data case of header prediction: the segment is
        the next one expected and nothing is queued. */
    method InOrder(ti: Segment, ghost p: Piece)
      requires Valid() && !eof && ti == Encode(isn, p) && SliceOf(p, stream)
      requires p.pos == nxt && pieces == [] && |p.data| <= Space()
      modifies this`rcvNxt, this`rcvBuf, this`host, this`nxt
      ensures Valid() && nxt == p.End()
      ensures forall x: nat :: Has(x) <==> old(Has(x)) || p.pos <= x < p.End()
      ensures old(host) <= host
    {
      AddWire(isn, nxt, |ti.data|);
      rcvNxt := Add(rcvNxt, |ti.data|);
      nxt := nxt + |ti.data|;
      var ret :| -1 <= ret <= |ti.data|;  // slirp_send
      SbAppend(ti.data, ret);
      assert stream[..p.End()] == stream[..p.pos] + stream[p.pos..p.End()];
    }

    /** The TCP_REASS macro: the in-order case inline, everything else through tcp_reass. */
    method ReassMacro(ti: Segment, ghost p: Piece) returns (fin: bool)
      requires Valid() && !eof && ti == Encode(isn, p) && SliceOf(p, stream) && InWindow([p], nxt, Space())
      modifies this`rcvNxt, this`queue, this`rcvBuf, this`host, this`nxt, this`pieces, this`ackNow, this`delAck
      ensures Valid() && old(nxt) <= nxt
      ensures fin <==> state >= TCPS_ESTABLISHED && pieces == [] && HasLast(Insert(old(pieces), p))
      ensures fin ==> nxt == |stream|
      ensures forall x: nat :: Has(x) <==> old(Has(x)) || p.pos <= x < p.End()
      ensures old(host) <= host && (HasLast(pieces) ==> HasLast(Insert(old(pieces), p)))
      ensures old(pieces) == [] && p.pos == old(nxt) && state >= TCPS_ESTABLISHED ==> pieces == []
      ensures if old(ti.sq == rcvNxt && queue == [] && state == TCPS_ESTABLISHED)
              then delAck && ackNow == old(ackNow) else ackNow && delAck == old(delAck)
    {
      hide HasLast, Insert, Rep, SlicesOf, Ordered, Covers, Wire;
      SameLength();
      InsertFirst(p);
      if ti.sq == rcvNxt && queue == [] && state == TCPS_ESTABLISHED {
        assert [p][0] == p;
        WireInjective(isn, p.pos, nxt);
        delAck := true;
        fin := ti.fin;
        InOrder(ti, p);
      } else {
        fin := OutOfLine(ti, p);
      }
    }

    /** The other case of TCP_REASS. */
    method OutOfLine(ti: Segment, ghost p: Piece) returns (fin: bool)
      requires Valid() && !eof && ti == Encode(isn, p) && SliceOf(p, stream) && InWindow([p], nxt, Space())
      modifies this`rcvNxt, this`queue, this`rcvBuf, this`host, this`nxt, this`pieces, this`ackNow
      ensures Valid() && old(nxt) <= nxt
      ensures fin <==> state >= TCPS_ESTABLISHED && pieces == [] && HasLast(Insert(old(pieces), p))
      ensures fin ==> nxt == |stream|
      ensures forall x: nat :: Has(x) <==> old(Has(x)) || p.pos <= x < p.End()
      ensures old(host) <= host && (HasLast(pieces) ==> HasLast(Insert(old(pieces), p)))
      ensures old(pieces) == [] && p.pos == old(nxt) && state >= TCPS_ESTABLISHED ==> pieces == []
      ensures ackNow && (cantSendMore ==> host == old(host) && rcvBuf == old(rcvBuf))
    {
      hide HasLast, Insert, Rep, SlicesOf, Ordered, Covers, Wire;
      assert [p][0] == p;
      InsertFirst(p);
      fin := TcpReass(Some(ti), p);
      SuffixLast(pieces, Insert(old(pieces), p));
      ackNow := true;
    }

    /** A FIN that reassembly has reached occupies one sequence number. */
    method AcceptFin()
      requires Valid() && !eof && nxt == |stream| && pieces == [] && state >= TCPS_ESTABLISHED
      modifies this`eof, this`ackNow, this`rcvNxt, this`nxt, this`state
      ensures Valid() && eof && nxt == |stream| + 1 && ackNow && state == AfterFin(old(state))
    {
      eof := true;
      ackNow := true;
      AddWire(isn, nxt, 1);
      rcvNxt := Add(rcvNxt, 1);
      nxt := nxt + 1;
      if state == TCPS_ESTABLISHED {
        state := TCPS_CLOSE_WAIT;
      } else if state == TCPS_FIN_WAIT_1 {
        state := TCPS_CLOSING;
      } else if state == TCPS_FIN_WAIT_2 {
        state := TCPS_TIME_WAIT;
      }
    }

    /** From `dodata` on: merge the text, then act on a FIN that reassembly has reached. */
    method Text(ti: Segment, tiFin: bool, ghost p: Piece)
      requires Valid() && ti == Encode(isn, p)
      requires p.data != [] || tiFin ==> !eof && SliceOf(p, stream) && InWindow([p], nxt, Space())
      modifies this
      ensures Valid() && old(nxt) <= nxt && cantSendMore == old(cantSendMore)
      ensures forall x: nat :: x < |stream| ==> (Has(x) <==> old(Has(x)) || p.pos <= x < p.End())
      ensures old(host) <= host && adv == old(adv)
      ensures eof <==>
        old(eof) || ((p.data != [] || tiFin) && old(state) >= TCPS_ESTABLISHED && pieces == []
          && HasLast(Insert(old(pieces), p)))
      ensures HasFin() ==> old(HasFin()) || (p.last && (p.data != [] || tiFin))
      ensures state == if eof && !old(eof) then AfterFin(old(state)) else old(state)
      ensures (p.data != [] || tiFin ==> delAck || ackNow) && (eof && !old(eof) ==> ackNow)
      ensures (old(ackNow) ==> ackNow) && (p.data == [] && !tiFin ==> nxt == old(nxt))
      ensures old(state) >= TCPS_ESTABLISHED && old(pieces) == [] && p.pos == old(nxt) && p.last && tiFin ==> eof
    {
      InsertLast(pieces, p);
      InsertFirst(p);
      var fin := false;
      if (|ti.data| > 0 || tiFin) && state < TCPS_TIME_WAIT {
        fin := ReassMacro(ti, p);
      }
      if fin {
        AcceptFin();
      }
    }

    /** All of the segment has been received before. */
    ghost predicate Repeats(p: Piece)
      reads this`nxt
    {
      p.pos < nxt && (p.End() < nxt || (p.End() == nxt && !p.last))
    }

    /** Drop leading data that precedes rcv_nxt; `fin` is TH_FIN of the local tiflags. */
    method TrimLeft(seg: Segment, ghost p: Piece) returns (ti: Segment, fin: bool, ghost g: Piece)
      requires rcvNxt == Wire(isn, nxt) && seg == Encode(isn, p) && SliceOf(p, stream)
      requires -HALF <= nxt - p.pos < HALF
      modifies this`ackNow
      ensures ti == Encode(isn, g) && SliceOf(g, stream) && g.End() == p.End() && g.last == p.last
      ensures g.data != [] || fin ==> nxt <= g.pos
      ensures fin ==> p.last
      ensures p.last && nxt <= p.End() ==> fin
      ensures g.pos == if p.pos < nxt then Min(nxt, p.End()) else p.pos
      ensures ackNow == (old(ackNow) || Repeats(p))
    {
      var todrop := Diff(rcvNxt, seg.sq);
      DiffWire(isn, nxt, p.pos);
      ti, fin, g := seg, seg.fin, p;
      if todrop > 0 {
        if todrop > |ti.data| || (todrop == |ti.data| && !fin) {
          fin := false;
          ackNow := true;
          todrop := |ti.data|;
        }
        EncodeTrim(isn, p, todrop);
        ti := Segment(Add(ti.sq, todrop), ti.data[todrop..], ti.fin);
        g := p.Trim(todrop);
      }
    }

    /** rcv_wnd: the free space, but not less than what was advertised. */
    method Window() returns (wnd: nat)
      requires QueueValid() && nxt - adv <= HALF
      ensures wnd == Space()
    {
      DiffWire(isn, adv, nxt);
      var win := Max(datalen - |rcvBuf|, 0);
      wnd := Max(win, Diff(rcvAdv, rcvNxt));
    }

    /** Drop trailing data beyond the window, or the whole segment when none of it is inside. */
    method TrimRight(seg: Segment, tiFin: bool, ghost p: Piece)
      returns (ok: bool, ti: Segment, fin: bool, ghost g: Piece)
      requires QueueValid() && seg == Encode(isn, p) && SliceOf(p, stream)
      requires nxt - adv <= HALF && -HALF <= p.End() - nxt < HALF && |p.data| <= 65535
      modifies this`ackNow
      ensures !ok ==> p.pos != nxt && (nxt + Space() <= p.pos || p.End() <= nxt)
      ensures ok ==>
        ti == Encode(isn, g) && g.pos == p.pos && g.last == p.last && g.End() == Min(p.End(), nxt + Space())
      ensures ok ==> |g.data| <= |p.data| && g.data == p.data[..|g.data|]
      // TCP_REASS looks at ti_flags, which trimming leaves alone: the segment it sees is truthful
      // exactly when no FIN was cut off.
      ensures ok ==> (SliceOf(g, stream) <==> (p.last ==> p.End() <= nxt + Space()))
      ensures ok ==> fin == (tiFin && p.End() <= nxt + Space())
      ensures old(ackNow) ==> ackNow
      ensures -HALF <= p.End() - (nxt + Space()) ==>
        ackNow == (old(ackNow) || (p.End() > nxt + Space() && p.pos >= nxt + Space()))
    {
      var wnd := Window();
      AddWire(isn, p.pos, |p.data|);
      AddWire(isn, nxt, wnd);
      DiffWireWrapped(isn, p.End(), nxt + wnd);
      var todrop := Diff(Add(seg.sq, |seg.data|), Add(rcvNxt, wnd));
      ok, ti, fin, g := true, seg, tiFin, p;
      if todrop > 0 {
        if todrop >= |ti.data| {
          ackNow := true;
          if !(wnd == 0 && ti.sq == rcvNxt) {
            ok := false;
            return;
          }
          WireInjective(isn, p.pos, nxt);
        }
        ti := Segment(ti.sq, ti.data[..|ti.data| - todrop], ti.fin);
        g := Piece(p.pos, p.data[..|p.data| - todrop], p.last);
        fin := false;
      }
    }

    /** The segment is a slice of the peer's stream from less than half the sequence space away.
        TCP_REASS takes FIN from ti_flags, so a FIN is excluded when the window cuts its segment: when
        a part of it lies inside and the FIN beyond. */
    ghost predicate Reaches(p: Piece)
      reads this
    {
      && SliceOf(p, stream) && |p.data| <= 65535
      && -HALF < p.pos - nxt && p.End() - nxt < HALF
      && (p.last ==> p.End() <= nxt + Space() || nxt + Space() <= Max(p.pos, nxt))
    }

    /** Segment arrival on a synchronized connection: trim to the window, then merge the text.
        What is kept afterwards is exactly what was kept before plus the in-window bytes of this
        segment, and rcv_nxt is again the first byte not yet received. */
    method Input(seg: Segment, ghost p: Piece)
      requires Valid() && seg == Encode(isn, p) && Reaches(p) && nxt - adv <= HALF
      modifies this
      ensures Valid() && old(nxt) <= nxt && cantSendMore == old(cantSendMore) && (old(eof) ==> eof)
      ensures forall x: nat :: x < |stream| ==>
        (Has(x) <==> old(Has(x)) || (p.pos <= x < p.End() && x < old(nxt + Space())))
      ensures old(host) <= host && adv == old(adv)
      ensures old(state) >= TCPS_ESTABLISHED && old(pieces) == [] && p.last ==>
        p.pos <= old(nxt) <= p.End() <= old(nxt + Space()) ==> eof
      ensures HasFin() ==> old(HasFin()) || (p.last && p.End() <= old(nxt + Space()))
      ensures state == if eof && !old(eof) then AfterFin(old(state)) else old(state)
      ensures old(nxt) < nxt || old(Repeats(p)) || (p.pos >= old(nxt + Space()) && p.data != []) ==> ackNow || delAck
    {
      hide Ordered, Rep, SlicesOf, Add, Wire, HasLast, Covers, AfterFin, GotFin, Insert;
      var ti, fin, g := TrimLeft(seg, p);
      var ok, t, f, h := TrimRight(ti, fin, g);
      if ok {
        assert [h][0] == h;
        Text(t, f, h);
      }
    }

    /** The same for the segment next in order, on an empty queue in ESTABLISHED, wherever its FIN
        lies.  As much of it as fits is handed over; the end of file is reported at the end of the
        stream exactly unless the window cuts the segment short of its FIN without being closed. */
    method InputNext(seg: Segment, ghost p: Piece)
      requires Valid() && !cantSendMore && !eof && state == TCPS_ESTABLISHED && pieces == [] && nxt - adv <= HALF
      requires seg == Encode(isn, p) && SliceOf(p, stream) && p.pos == nxt && |p.data| <= 65535
      modifies this
      ensures host + rcvBuf == stream[..Min(p.End(), old(nxt + Space()))]
      ensures eof <==> p.last && (p.End() <= old(nxt + Space()) || old(Space()) > 0)
      ensures (eof ==> host + rcvBuf == stream) <==> !(p.last && 0 < old(Space()) < |p.data|)
      ensures state == if eof then TCPS_CLOSE_WAIT else TCPS_ESTABLISHED
    {
      var ti, fin, g := TrimLeft(seg, p);
      assert g == p;
      var ok, t, f, h := TrimRight(ti, fin, g);
      assert h.data == p.data[..|h.data|];
      TextNext(t, f);
      assert stream[..h.End()] == stream[..p.pos] + stream[p.pos..h.End()];
      assert stream[..|stream|] == stream;
    }

    /** From `dodata` on, for the segment next in order, whatever it carries. */
    method TextNext(ti: Segment, tiFin: bool)
      requires rcvNxt == ti.sq && queue == [] && state == TCPS_ESTABLISHED && !eof && |ti.data| <= Space()
      modifies this
      ensures host + rcvBuf == old(host + rcvBuf) + ti.data
      ensures eof <==> ti.fin && (ti.data != [] || tiFin)
      ensures state == if eof then TCPS_CLOSE_WAIT else TCPS_ESTABLISHED
      ensures rcvNxt == Add(Add(old(rcvNxt), |ti.data|), if eof then 1 else 0)
      ensures (ti.data != [] || tiFin ==> delAck) && (eof ==> ackNow)
    {
      AddNothing(rcvNxt);
      AddNothing(Add(rcvNxt, |ti.data|));
      var fin := false;
      if (|ti.data| > 0 || tiFin) && state < TCPS_TIME_WAIT {
        delAck := true;
        rcvNxt := Add(rcvNxt, |ti.data|);
        fin := ti.fin;
        var ret :| -1 <= ret <= |ti.data|;  // slirp_send
        SbAppend(ti.data, ret);
      }
      if fin {
        eof, ackNow := true, true;
        rcvNxt := Add(rcvNxt, 1);
        state := TCPS_CLOSE_WAIT;
      }
    }

    /** SYN_RECEIVED becomes ESTABLISHED and queued text is presented. */
    method Establish()
      requires Valid() && !eof && state == TCPS_SYN_RECEIVED
      modifies this
      ensures state == TCPS_ESTABLISHED && !eof && Suffix(pieces, old(pieces))
      ensures Valid() && old(nxt) <= nxt && cantSendMore == old(cantSendMore)
      ensures forall x: nat :: x < |stream| ==> (Has(x) <==> old(Has(x)))
      ensures old(host) <= host && adv == old(adv)
    {
      state := TCPS_ESTABLISHED;
      var _ := TcpReass(None, Piece(0, [], false));
    }

    /** sowrite: the host socket takes the first `nn` buffered bytes. */
    method SoWrite(nn: nat)
      requires Valid() && nn <= |rcvBuf|
      modifies this`host, this`rcvBuf
      ensures Valid() && host == old(host) + old(rcvBuf)[..nn] && rcvBuf == old(rcvBuf)[nn..]
    {
      host := host + rcvBuf[..nn];
      rcvBuf := rcvBuf[nn..];
      assert host + rcvBuf == old(host + rcvBuf);
    }

    /** The window part of tcp_output.  The advertised edge never moves back and never promises more
        than the buffer can take, except in a 64-bit build (`lp64`) once rcv_nxt has passed rcv_adv:
        there the unsigned difference, cast to long, is huge, and the window field of the segment is
        its low 16 bits. */
    method Advertise(maxseg: nat, lp64: bool) returns (win: int)
      requires Valid() && nxt - adv <= HALF
      modifies this`rcvAdv, this`adv, this`ackNow, this`delAck
      ensures Valid() && old(adv) <= adv && !ackNow && !delAck
      ensures adv == AdvAfter(nxt, old(adv), Space(), datalen, maxseg, lp64)
      ensures !lp64 || nxt <= old(adv) ==>
        && win == Max(Wanted(Space(), datalen, maxseg), old(adv) - nxt) && 0 <= win <= Space()
        && adv == if win > 0 && 0 < nxt + win - old(adv) < HALF then nxt + win else old(adv)
      ensures lp64 && old(adv) < nxt ==> adv == old(adv) && win == MODULUS - (nxt - adv) > Space()
    {
      hide Ordered, Rep, SlicesOf, InWindow, Wire, Add, Sub, Diff;
      DiffWire(isn, adv, nxt);
      Unsigned(isn, adv, nxt);
      var lag: int := if lp64 then Sub(rcvAdv, rcvNxt) else Diff(rcvAdv, rcvNxt);
      win := datalen - |rcvBuf|;
      if win < datalen / 4 && win < maxseg {
        win := 0;
      }
      if win > TCP_MAXWIN {
        win := TCP_MAXWIN;
      }
      if win < lag {
        win := lag;
      }
      AddWire(isn, nxt, win);
      if -MODULUS < nxt + win - adv < MODULUS { DiffWireWrapped(isn, nxt + win, adv); }
      if win > 0 && SeqGt(Add(rcvNxt, win), rcvAdv) {
        rcvAdv := Add(rcvNxt, win);
        adv := nxt + win;
      }
      ackNow, delAck := false, false;
    }

    /** A transition caused by the sending half: a local close, or its FIN acknowledged. */
    method LocalTransition(s: int)
      requires Valid() && TCPS_ESTABLISHED <= state && TCPS_ESTABLISHED <= s <= TCPS_TIME_WAIT
      requires GotFin(s) == GotFin(state)
      modifies this`state
      ensures Valid() && state == s
    {
      state := s;
    }
  }

  lemma AddNothing(x: tcp_seq)
    ensures Add(x, 0) == x
  {}

  /** The queue that tcp_reass presents from. */
  function Queued(ps: seq<Piece>, ti: Option<Segment>, p: Piece): seq<Piece> {
    if ti.Some? then Insert(ps, p) else ps
  }

  lemma InsertFirst(p: Piece)
    ensures Insert([], p) == [p] && (HasLast([p]) <==> p.last) && !HasLast([])
  {
    assert [p][0] == p;
  }

  lemma SuffixAll(all: seq<Piece>)
    ensures Suffix(all, all)
  {}

  lemma SuffixNext(ps: seq<Piece>, all: seq<Piece>)
    requires Suffix(ps, all) && ps != []
    ensures Suffix(ps[1..], all) && |ps| <= |all| && all[|all| - |ps|] == ps[0]
  {}

  lemma SuffixLast(ps: seq<Piece>, all: seq<Piece>)
    requires Suffix(ps, all)
    ensures HasLast(ps) ==> HasLast(all)
  {
    assert all == all[..|all| - |ps|] + ps;
    LastSplit(all[..|all| - |ps|], ps);
  }

  /** `a - b` on unsigned 32-bit numbers. */
  function Sub(a: tcp_seq, b: tcp_seq): tcp_seq {
    var x: int, y: int := a, b;
    if x < y then x - y + MODULUS else x - y
  }

  /** The unsigned difference of two wire numbers at most half the space apart. */
  lemma Unsigned(isn: tcp_seq, x: int, y: int)
    requires -HALF <= x - y < HALF
    ensures Sub(Wire(isn, x), Wire(isn, y)) == if y <= x then x - y else x - y + MODULUS
    ensures x < y ==> Wire(isn, x + MODULUS) == Wire(isn, x) && !SeqGt(Wire(isn, x), Wire(isn, x))
  {
  }

  /** What to advertise: the free space, but no silly window and no more than the field holds. */
  function Wanted(space: int, datalen: nat, maxseg: nat): int {
    if space < datalen / 4 && space < maxseg then 0 else Min(space, TCP_MAXWIN)
  }

  /** Where rcv_adv is after the window has been advertised. */
  function AdvAfter(nxt: nat, adv: int, space: int, datalen: nat, maxseg: nat, lp64: bool): int {
    var win := Max(Wanted(space, datalen, maxseg), adv - nxt);
    if win > 0 && 0 < nxt + win - adv < HALF && !(lp64 && adv < nxt) then nxt + win else adv
  }

  /** rcv_nxt, the right edge of the window and rcv_adv, as stream offsets, and whether text next in
      order can be presented at once. */
  datatype View = View(nxt: nat, edge: int, adv: int, ready: bool)

  datatype Event =
    | Arrive(off: nat, len: nat, fin: bool)
    | HandshakeDone
    | HostTakes(nn: nat)
    | Output(maxseg: nat, lp64: bool)
    | Local(state: int)

  /** The arrival is a slice of the stream from less than half the sequence space away, and if it has
      a FIN the window does not cut it. */
  predicate Proper(e: Event, v: View, stream: seq<byte>) {
    && e.Arrive? && e.off + e.len <= |stream| && e.len <= 65535 && (e.fin ==> e.off + e.len == |stream|)
    && -HALF < e.off - v.nxt && e.off + e.len - v.nxt < HALF && v.nxt - v.adv <= HALF
    && (e.fin ==> e.off + e.len <= v.edge || v.edge <= Max(e.off, v.nxt))
  }

  /** The arrival offers the byte at stream offset x, in the window. */
  predicate Offers(e: Event, v: View, stream: seq<byte>, x: nat) {
    Proper(e, v, stream) && e.off <= x < e.off + e.len && x < v.edge
  }

  /** The peer's FIN arrives in the window. */
  predicate Closes(e: Event, v: View, stream: seq<byte>) {
    Proper(e, v, stream) && e.fin && e.off + e.len <= v.edge
  }

  /** It does so next in order, with nothing queued. */
  predicate ClosesNext(e: Event, v: View, stream: seq<byte>) {
    Closes(e, v, stream) && v.ready && e.off <= v.nxt <= e.off + e.len
  }

  /** The state after an event, given whether it has brought the FIN. */
  function NextState(e: Event, state: int, fin: bool): int {
    match e
    case Arrive(_, _, _) => if fin then AfterFin(state) else state
    case HandshakeDone => if state == TCPS_SYN_RECEIVED then TCPS_ESTABLISHED else state
    case Local(s) =>
      if TCPS_ESTABLISHED <= state && TCPS_ESTABLISHED <= s <= TCPS_TIME_WAIT && GotFin(s) == GotFin(state) then s
      else state
    case HostTakes(_) => state
    case Output(_, _) => state
  }

  /** One event of a run: exactly the bytes it offers are held from then on.  An arrival that is not
      proper does not reach this code. */
  method Step(r: Receiver, e: Event)
    requires r.Valid() && !r.cantSendMore
    modifies r
    ensures r.Valid() && !r.cantSendMore && (old(r.eof) ==> r.eof) && old(r.host) <= r.host
    ensures Later(old(r.Look()), r.Look())
    ensures forall x: nat :: x < |r.stream| ==> (r.Has(x) <==> old(r.Has(x)) || Offers(e, old(r.Look()), r.stream, x))
    ensures ClosesNext(e, old(r.Look()), r.stream) ==> r.eof
    ensures r.HasFin() ==> old(r.HasFin()) || Closes(e, old(r.Look()), r.stream)
    ensures r.state == NextState(e, old(r.state), r.eof && !old(r.eof))
    ensures e.Arrive? && old(r.nxt) < r.nxt ==> r.ackNow || r.delAck
    ensures e.HostTakes? && e.nn <= |old(r.rcvBuf)| ==>
      r.host == old(r.host) + old(r.rcvBuf)[..e.nn] && r.rcvBuf == old(r.rcvBuf)[e.nn..]
    ensures e.Output? && old(r.nxt - r.adv) <= HALF ==>
      r.adv == AdvAfter(r.nxt, old(r.adv), r.datalen - |r.rcvBuf|, r.datalen, e.maxseg, e.lp64)
    ensures e.Output? && old(r.nxt - r.adv) <= HALF ==> !r.ackNow && !r.delAck
    ensures e.Output? || e.Local? ==> r.host == old(r.host) && r.rcvBuf == old(r.rcvBuf) && r.nxt == old(r.nxt)
    ensures !e.Output? ==> r.adv == old(r.adv)
  {
    hide Ordered, Rep, SlicesOf, InWindow, Covers, Wire, HasLast, Suffix;
    match e
    case Arrive(_, _, _) => TakeIn(r, e);
    case HandshakeDone =>
      if r.state == TCPS_SYN_RECEIVED && !r.eof {
        ghost var ps := r.pieces;
        r.Establish();
        SuffixLast(r.pieces, ps);
      }
    case HostTakes(nn) =>
      if nn <= |r.rcvBuf| {
        r.SoWrite(nn);
      }
    case Output(maxseg, lp64) =>
      if r.nxt - r.adv <= HALF {
        var _ := r.Advertise(maxseg, lp64);
      }
    case Local(s) =>
      if TCPS_ESTABLISHED <= r.state && TCPS_ESTABLISHED <= s <= TCPS_TIME_WAIT && GotFin(s) == GotFin(r.state) {
        r.LocalTransition(s);
      }
  }

  /** The arrival of a segment. */
  method TakeIn(r: Receiver, e: Event)
    requires r.Valid() && !r.cantSendMore && e.Arrive?
    modifies r
    ensures r.Valid() && !r.cantSendMore && (old(r.eof) ==> r.eof) && old(r.host) <= r.host
    ensures Later(old(r.Look()), r.Look())
    ensures forall x: nat :: x < |r.stream| ==> (r.Has(x) <==> old(r.Has(x)) || Offers(e, old(r.Look()), r.stream, x))
    ensures ClosesNext(e, old(r.Look()), r.stream) ==> r.eof
    ensures r.HasFin() ==> old(r.HasFin()) || Closes(e, old(r.Look()), r.stream)
    ensures r.state == NextState(e, old(r.state), r.eof && !old(r.eof))
    ensures e.Arrive? && old(r.nxt) < r.nxt ==> r.ackNow || r.delAck
    ensures r.adv == old(r.adv)
  {
    hide Ordered, Rep, SlicesOf, InWindow, Covers, Wire, HasLast, AfterFin, GotFin;
    r.SameLength();
    if Proper(e, View(r.nxt, r.nxt + (r.datalen - |r.rcvBuf|), r.adv, false), r.stream) {
      var p := Piece(e.off, r.stream[e.off..e.off + e.len], e.fin);
      r.Input(Encode(r.isn, p), p);
    }
  }

  /** Nothing moves back: rcv_nxt, the right edge of the window, rcv_adv. */
  predicate Later(v: View, w: View) { v.nxt <= w.nxt && v.edge <= w.edge && v.adv <= w.adv }

  /** The views before each event of a run that begins with a buffer of datalen bytes. */
  ghost predicate Progress(views: seq<View>, datalen: nat, end: View) {
    && (forall i :: 0 <= i < |views| ==> Later(View(0, datalen, 0, false), views[i]) && Later(views[i], end))
    && (forall i, j :: 0 <= i < j < |views| ==> Later(views[i], views[j]))
  }

  /** Some event offered the byte at stream offset x. */
  ghost predicate Offered(events: seq<Event>, views: seq<View>, stream: seq<byte>, x: nat) {
    exists i :: 0 <= i < |events| && i < |views| && Offers(events[i], views[i], stream, x)
  }

  /** The peer's FIN has arrived. */
  ghost predicate Closed(events: seq<Event>, views: seq<View>, stream: seq<byte>) {
    exists i :: 0 <= i < |events| && i < |views| && Closes(events[i], views[i], stream)
  }

  ghost predicate ClosedInOrder(events: seq<Event>, views: seq<View>, stream: seq<byte>) {
    exists i :: 0 <= i < |events| && i < |views| && ClosesNext(events[i], views[i], stream)
  }

  lemma ClosedNext(events: seq<Event>, e: Event, views: seq<View>, v: View, stream: seq<byte>)
    requires |events| == |views|
    ensures Closed(events, views, stream) || Closes(e, v, stream) ==> Closed(events + [e], views + [v], stream)
    ensures ClosedInOrder(events + [e], views + [v], stream) ==>
      ClosedInOrder(events, views, stream) || ClosesNext(e, v, stream)
  {
    hide Proper;
    var es, vs := events + [e], views + [v];
    if Closed(events, views, stream) {
      var i :| 0 <= i < |events| && i < |views| && Closes(events[i], views[i], stream);
      assert Closes(es[i], vs[i], stream);
    }
    if Closes(e, v, stream) {
      assert Closes(es[|events|], vs[|events|], stream);
    }
    if ClosedInOrder(es, vs, stream) {
      var i :| 0 <= i < |es| && i < |vs| && ClosesNext(es[i], vs[i], stream);
      assert i < |events| ==> ClosesNext(events[i], views[i], stream);
    }
  }

  lemma OfferedNext(events: seq<Event>, e: Event, views: seq<View>, v: View, stream: seq<byte>, x: nat)
    requires |events| == |views|
    ensures Offered(events + [e], views + [v], stream, x) <==>
      Offered(events, views, stream, x) || Offers(e, v, stream, x)
  {
    hide Offers;
    var es, vs := events + [e], views + [v];
    if Offered(events, views, stream, x) {
      var i :| 0 <= i < |events| && i < |views| && Offers(events[i], views[i], stream, x);
      assert Offers(es[i], vs[i], stream, x);
    }
    if Offers(e, v, stream, x) {
      assert Offers(es[|events|], vs[|events|], stream, x);
    }
  }

  lemma RunStarts(stream: seq<byte>, datalen: nat)
    ensures Progress([], datalen, View(0, datalen, 0, false))
    ensures forall x: nat :: !Offered([], [], stream, x) && !Covers([], x)
    ensures !HasLast([]) && !ClosedInOrder([], [], stream)
  {
  }

  lemma ProgressNext(views: seq<View>, datalen: nat, end: View, next: View)
    requires Progress(views, datalen, end) && Later(View(0, datalen, 0, false), end) && Later(end, next)
    ensures Progress(views + [end], datalen, next)
  {
  }

  /** A text segment inside the initial window of a stream shorter than half the sequence space is
      proper whenever it arrives. */
  lemma ProperThroughout(e: Event, v: View, stream: seq<byte>, datalen: nat)
    requires e.Arrive? && !e.fin && e.len <= 65535 && e.off + e.len <= Min(|stream|, datalen) && |stream| + 1 < HALF
    requires Later(View(0, datalen, 0, false), v) && v.nxt <= |stream| + 1
    ensures forall x: nat :: Offers(e, v, stream, x) <==> e.off <= x < e.off + e.len
  {
  }

  /** Receive safety over whole runs: after any sequence of arrivals (reordered, duplicated,
      overlapping, wrapping), host reads, outputs and state changes, exactly the bytes are held that
      some arrival offered in the window of its time, those handed over are exactly the stream up to
      rcv_nxt, rcv_nxt is the first byte not held, and all of the stream is handed over once all of it
      was offered.  End of file is signalled only after all of it and only if a FIN has arrived, and it
      is signalled if one has arrived next in order. */
  method Run(irs: tcp_seq, stream: seq<byte>, datalen: nat, events: seq<Event>)
    returns (r: Receiver, ghost views: seq<View>)
    requires datalen < 0x4000_0000
    ensures fresh(r) && r.Valid() && r.stream == stream && r.isn == Add(irs, 1)
    ensures |views| == |events| && Progress(views, datalen, r.Look())
      && (events != [] ==> views[0] == View(0, datalen, 0, false))
    ensures forall x: nat :: x < |stream| ==> (r.Has(x) <==> Offered(events, views, stream, x))
    ensures r.host + r.rcvBuf == stream[..Min(r.nxt, |stream|)]
    ensures r.rcvNxt == Wire(Add(irs, 1), r.nxt)
    ensures r.eof ==> r.host + r.rcvBuf == stream && Closed(events, views, stream)
    ensures ClosedInOrder(events, views, stream) ==> r.eof
    ensures r.eof <==> GotFin(r.state)
    ensures r.state >= TCPS_ESTABLISHED && (forall x: nat :: x < |stream| ==> Offered(events, views, stream, x)) ==>
      r.host + r.rcvBuf == stream
    ensures !r.eof && r.state >= TCPS_ESTABLISHED ==> !r.Has(r.nxt)
  {
    hide Ordered, Rep, SlicesOf, InWindow, Wire, Offers, Offered, Covers, Progress, Closed, ClosedInOrder, Closes,
      ClosesNext, HasLast;
    r := new Receiver(irs, stream, datalen);
    views := [];
    assert events[..0] == [];
    RunStarts(stream, datalen);
    for i := 0 to |events|
      invariant fresh(r) && r.Valid() && !r.cantSendMore
      invariant r.stream == stream && r.isn == Add(irs, 1)
      invariant |views| == i && Progress(views, datalen, r.Look()) && Later(View(0, datalen, 0, false), r.Look())
      invariant if i == 0 then r.Look() == View(0, datalen, 0, false) else views[0] == View(0, datalen, 0, false)
      invariant forall x: nat :: x < |stream| ==> (r.Has(x) <==> Offered(events[..i], views, stream, x))
      invariant (r.HasFin() ==> Closed(events[..i], views, stream))
        && (ClosedInOrder(events[..i], views, stream) ==> r.eof)
    {
      ghost var v := r.Look();
      assert events[..i + 1] == events[..i] + [events[i]];
      forall x: nat
        ensures Offered(events[..i + 1], views + [v], stream, x) <==>
          Offered(events[..i], views, stream, x) || Offers(events[i], v, stream, x)
      {
        OfferedNext(events[..i], events[i], views, v, stream, x);
      }
      ClosedNext(events[..i], events[i], views, v, stream);
      Step(r, events[i]);
      ProgressNext(views, datalen, v, r.Look());
      views := views + [v];
    }
    assert events[..|events|] == events;
    assert stream[..|stream|] == stream;
    if !r.eof && r.state >= TCPS_ESTABLISHED { r.NextMissing(); }
  }

  /** The FIN that a window cuts off and that is taken all the same: two bytes and a FIN arrive at a
      buffer of one byte, and the end of file is reported after the first. */
  method CutFin() returns (r: Receiver)
    ensures fresh(r) && r.stream == [1, 2] && r.eof && r.host + r.rcvBuf == [1]
  {
    hide Ordered, Rep, InWindow, Wire, Add;
    r := new Receiver(0, [1, 2], 1);
    assert !r.Has(0);
    r.Establish();
    var p := Piece(0, [1, 2], true);
    assert !r.Has(0);
    r.InputNext(Encode(r.isn, p), p);
  }

  /** A receiver with rcv_nxt past rcv_adv: the last byte that the window had room for comes with the
      FIN, and a 64-bit build then announces a window of all but one sequence number. */
  method PastEdge() returns (r: Receiver, win: int)
    ensures fresh(r) && r.Valid() && r.eof && r.adv < r.nxt && win == MODULUS - 1 && r.datalen == 1
  {
    hide Ordered, Rep, InWindow, Wire, Add;
    r := new Receiver(0, [1], 1);
    assert !r.Has(0);
    r.Establish();
    assert !r.Has(0) && r.nxt == 0;
    win := r.Advertise(1460, true);
    var p := Piece(0, [1], true);
    r.Input(Encode(r.isn, p), p);
    win := r.Advertise(1460, true);
  }

  /** The search loop of tcp_reass, on 32-bit numbers. */
  method FindAfter(q: seq<Segment>, sq: tcp_seq, ghost ps: seq<Piece>, ghost pos: nat, ghost isn: tcp_seq,
                   ghost nxt: nat)
    returns (k: nat)
    requires Rep(q, ps, isn) && sq == Wire(isn, pos)
    requires nxt <= pos <= nxt + 0x4000_0000 && InWindow(ps, nxt, 0x4000_0000)
    ensures k == After(ps, pos)
  {
    k := 0;
    while k < |q| && !SeqGt(q[k].sq, sq)
      invariant k <= |q| && forall i :: 0 <= i < k ==> ps[i].pos <= pos
    {
      DiffWire(isn, ps[k].pos, pos);
      k := k + 1;
    }
    if k < |q| {
      DiffWire(isn, ps[k].pos, pos);
    }
    AfterUnique(ps, pos, k);
  }

  /** The loop of tcp_reass over the segments that follow the newcomer, on 32-bit numbers. */
  method TrimSuccessors(q: seq<Segment>, endSeq: tcp_seq, ghost ps: seq<Piece>, ghost end: nat, ghost isn: tcp_seq,
                        ghost nxt: nat)
    returns (r: seq<Segment>)
    requires Rep(q, ps, isn) && endSeq == Wire(isn, end)
    requires nxt <= end <= nxt + 0x4000_0000 && InWindow(ps, nxt, 0x4000_0000)
    ensures Rep(r, TrimNext(ps, end), isn)
  {
    r := q;
    ghost var rs := ps;
    while r != []
      invariant Rep(r, rs, isn) && InWindow(rs, nxt, 0x4000_0000)
      invariant TrimNext(rs, end) == TrimNext(ps, end)
      decreases |r|
    {
      DiffWire(isn, end, rs[0].pos);
      var i := Diff(endSeq, r[0].sq);
      if i <= 0 {
        break;
      }
      if i < |r[0].data| {
        AddWire(isn, rs[0].pos, i);
        r := [Segment(Add(r[0].sq, i), r[0].data[i..], r[0].fin)] + r[1..];
        rs := [rs[0].Trim(i)] + rs[1..];
        break;
      }
      r, rs := r[1..], rs[1..];
    }
  }

  /** What tcp_reass does to the queue before it presents data. */
  method SpliceIn(q: seq<Segment>, ti: Segment, ghost ps: seq<Piece>, ghost p: Piece, ghost isn: tcp_seq,
                  ghost nxt: nat)
    returns (r: seq<Segment>)
    requires Rep(q, ps, isn) && ti == Encode(isn, p)
    requires InWindow(ps, nxt, 0x4000_0000) && InWindow([p], nxt, 0x4000_0000)
    ensures Rep(r, Insert(ps, p), isn)
  {
    hide TrimNext, Wire, Diff, Add, After;
    assert [p][0] == p;
    var k := FindAfter(q, ti.sq, ps, p.pos, isn, nxt);
    var kept, t, g := TrimNewcomer(q, ti, k, ps, p, isn, nxt);
    if !kept {
      return q;
    }
    EncodeTrim(isn, g, |g.data|);
    InWindowSuffix(ps, k, nxt, 0x4000_0000);
    var back := TrimSuccessors(q[k..], Add(t.sq, |t.data|), ps[k..], g.End(), isn, nxt);
    r := q[..k] + [t] + back;
    RepSplice(q[..k], ps[..k], g, back, TrimNext(ps[k..], g.End()), isn);
  }

  /** Cut off what the segment before the newcomer already provides; drop it if that is everything. */
  method TrimNewcomer(q: seq<Segment>, ti: Segment, k: nat, ghost ps: seq<Piece>, ghost p: Piece, ghost isn: tcp_seq,
                      ghost nxt: nat) returns (kept: bool, t: Segment, ghost g: Piece)
    requires Rep(q, ps, isn) && ti == Encode(isn, p) && k == After(ps, p.pos)
    requires InWindow(ps, nxt, 0x4000_0000) && nxt <= p.pos <= p.End() <= nxt + 0x4000_0000
    ensures kept <==> Overlap(ps, p) <= 0 || Overlap(ps, p) < |p.data|
    ensures kept ==> g == (if Overlap(ps, p) > 0 then p.Trim(Overlap(ps, p)) else p)
    ensures kept ==> t == Encode(isn, if Overlap(ps, p) > 0 then p.Trim(Overlap(ps, p)) else p)
    ensures kept ==> nxt <= g.End() <= nxt + 0x4000_0000
  {
    hide Wire, Diff, Add, After;
    kept, t, g := true, ti, p;
    if k > 0 {
      OverlapOnWire(isn, ps[k - 1], p);
      var i := Diff(Add(q[k - 1].sq, |q[k - 1].data|), ti.sq);
      if i > 0 {
        if i >= |ti.data| {
          return false, ti, p;
        }
        EncodeTrim(isn, p, i);
        t := Segment(Add(t.sq, i), t.data[i..], t.fin);
        g := p.Trim(i);
      }
    }
  }

  lemma OverlapOnWire(isn: tcp_seq, pp: Piece, p: Piece)
    requires -HALF <= pp.End() - p.pos < HALF
    ensures Diff(Add(Wire(isn, pp.pos), |pp.data|), Wire(isn, p.pos)) == pp.End() - p.pos
  {
    AddWire(isn, pp.pos, |pp.data|);
    DiffWire(isn, pp.End(), p.pos);
  }

  lemma EncodeTrim(isn: tcp_seq, p: Piece, i: nat)
    requires i <= |p.data|
    ensures Encode(isn, p.Trim(i)) == Segment(Add(Wire(isn, p.pos), i), p.data[i..], p.last)
  {
    AddWire(isn, p.pos, i);
  }

  lemma RepSplice(front: seq<Segment>, ps: seq<Piece>, g: Piece, back: seq<Segment>, rs: seq<Piece>, isn: tcp_seq)
    requires Rep(front, ps, isn) && Rep(back, rs, isn)
    ensures Rep(front + [Encode(isn, g)] + back, ps + [g] + rs, isn)
  {
  }

  lemma AfterUnique(ps: seq<Piece>, pos: nat, k: nat)
    requires k <= |ps| && (forall i :: 0 <= i < k ==> ps[i].pos <= pos) && (k < |ps| ==> pos < ps[k].pos)
    ensures k == After(ps, pos)
  {
  }

  lemma InWindowWider(ps: seq<Piece>, nxt: nat, space: nat, wide: nat)
    requires InWindow(ps, nxt, space) && space <= wide
    ensures InWindow(ps, nxt, wide)
  {
  }

  lemma InWindowSuffix(ps: seq<Piece>, k: nat, nxt: nat, space: nat)
    requires InWindow(ps, nxt, space) && k <= |ps|
    ensures InWindow(ps[k..], nxt, space)
  {
  }

  lemma {:induction false} TrimNextInWindow(ps: seq<Piece>, end: nat, nxt: nat, space: nat)
    requires InWindow(ps, nxt, space)
    ensures InWindow(TrimNext(ps, end), nxt, space)
  {
    if ps == [] || end <= ps[0].pos {
    } else if end - ps[0].pos < |ps[0].data| {
    } else {
      TrimNextInWindow(ps[1..], end, nxt, space);
    }
  }

  lemma InsertInWindow(ps: seq<Piece>, p: Piece, nxt: nat, space: nat)
    requires InWindow(ps, nxt, space) && InWindow([p], nxt, space)
    ensures InWindow(Insert(ps, p), nxt, space)
  {
    assert [p][0] == p;
    var k := After(ps, p.pos);
    var i := Overlap(ps, p);
    if i > 0 && i >= |p.data| {
    } else {
      var g := if i > 0 then p.Trim(i) else p;
      TrimNextInWindow(ps[k..], g.End(), nxt, space);
      hide TrimNext;
      InWindowConcat(ps[..k], g, TrimNext(ps[k..], g.End()), nxt, space);
    }
  }

  lemma InWindowConcat(front: seq<Piece>, p: Piece, back: seq<Piece>, nxt: nat, space: nat)
    requires InWindow(front, nxt, space) && InWindow(back, nxt, space)
    requires nxt <= p.pos && p.End() <= nxt + space && (p.data == [] ==> p.last)
    ensures InWindow(front + [p] + back, nxt, space)
  {}

  lemma PopCovers(ps: seq<Piece>, n: nat, x: nat)
    requires ps != [] && ps[0].pos == n
    ensures x < ps[0].End() || Covers(ps[1..], x) <==> x < n || Covers(ps, x)
  {
    assert ps == [ps[0]] + ps[1..];
    CoversSplit([ps[0]], ps[1..], x);
    CoversOne(ps[0], x);
  }
}
