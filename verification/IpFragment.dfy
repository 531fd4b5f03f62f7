/**
 * IP fragmentation (`ip_output`) and reassembly (`ip_input`, `ip_reass`), section 3.2 of RFC 791.
 * A packet is its header fields and payload; ip_off keeps its 16-bit wire form (flags and an
 * offset in units of eight bytes).
 */
module IpFragment {
  import opened Common
  import opened Reassembly

  const IF_MTU := 1500
  const HLEN := 20          // sizeof(struct ip)
  const IP_DF := 0x4000
  const IP_MF := 0x2000

  type u16 = x: int | 0 <= x < 0x1_0000

  datatype Key = Key(id: u16, src: nat, dst: nat, proto: nat)

  datatype Packet = Packet(key: Key, ipOff: u16, data: seq<byte>)

  predicate HasBit(off: u16, bit: int)
    requires bit > 0
  {
    off / bit % 2 == 1
  }

  /** What ip_input makes of the header: offset in bytes (a 16-bit shift) and the MF flag. */
  function PieceOf(pkt: Packet): Piece {
    Piece(pkt.ipOff * 8 % 0x1_0000, pkt.data, !HasBit(pkt.ipOff, IP_MF))
  }

  /** A fragment of the datagram: a slice of it whose MF flag tells truly whether it is the last. */
  ghost predicate FragmentOf(p: Piece, d: seq<byte>) {
    SliceOf(p, d) && (p.End() == |d| ==> p.last)
  }

  ghost predicate Queue(ps: seq<Piece>, d: seq<byte>) {
    Ordered(ps) && SlicesOf(ps, d) && Marked(ps, d)
  }

  ghost predicate Full(ps: seq<Piece>, d: seq<byte>) {
    forall x: nat :: x < |d| ==> Covers(ps, x)
  }

  /** Where the first i pieces end. */
  ghost function EndOf(ps: seq<Piece>, i: nat): nat
    requires i <= |ps|
  {
    if i == 0 then 0 else ps[i - 1].End()
  }

  /** The first n pieces follow each other from position zero without a gap. */
  ghost predicate Gapless(ps: seq<Piece>, n: nat)
    requires n <= |ps|
  {
    (n > 0 ==> ps[0].pos == 0) && forall i, j :: 0 <= i && j == i + 1 < n ==> ps[i].End() == ps[j].pos
  }

  /** A byte between two neighbours of an ordered list is not covered. */
  lemma Gap(ps: seq<Piece>, i: nat, x: nat)
    requires Ordered(ps) && i <= |ps|
    requires i > 0 ==> ps[i - 1].End() <= x
    requires i < |ps| ==> x < ps[i].pos
    ensures !Covers(ps, x)
  {
    forall j | 0 <= j < |ps|
      ensures !(ps[j].pos <= x < ps[j].End())
    {
      if j < i {
        assert j == i - 1 || ps[j].End() <= ps[i - 1].pos;
      } else {
        assert j == i || ps[i].End() <= ps[j].pos;
      }
    }
  }

  /** A gapless list from zero to its end covers everything below its end. */
  lemma {:induction false} GaplessCovers(ps: seq<Piece>, n: nat, x: nat)
    requires n <= |ps|
    requires Gapless(ps, n)
    requires n > 0 && x < ps[n - 1].End()
    ensures Covers(ps, x)
  {
    if ps[n - 1].pos <= x {
    } else {
      assert n > 1 && ps[n - 2].End() == ps[n - 1].pos;
      GaplessCovers(ps, n - 1, x);
    }
  }

  /** The completeness test of ip_reass: walk the list, then look at the last MF flag. */
  method Complete(ps: seq<Piece>, ghost d: seq<byte>) returns (ok: bool)
    requires ps != [] && Queue(ps, d)
    ensures ok <==> Full(ps, d)
    ensures ok ==> Gapless(ps, |ps|)
    ensures ok ==> ps[|ps| - 1].End() == |d|
  {
    var next, i := 0, 0;
    while i < |ps|
      invariant i <= |ps| && next == EndOf(ps, i) && Gapless(ps, i)
    {
      if ps[i].pos != next {
        Gap(ps, i, next);
        assert SliceOf(ps[i], d);
        return false;
      }
      next := next + |ps[i].data|;
      i := i + 1;
    }
    if !ps[|ps| - 1].last {
      Gap(ps, |ps|, next);
      return false;
    }
    ok := true;
    forall x: nat | x < |d|
      ensures Covers(ps, x)
    {
      GaplessCovers(ps, |ps|, x);
    }
  }

  /** The m_cat loop of ip_reass. */
  method Concatenate(ps: seq<Piece>, ghost d: seq<byte>) returns (m: seq<byte>)
    requires ps != [] && SlicesOf(ps, d)
    requires Gapless(ps, |ps|)
    ensures m == d[..ps[|ps| - 1].End()]
  {
    m := ps[0].data;
    var i := 1;
    assert SliceOf(ps[0], d);
    while i < |ps|
      invariant 1 <= i <= |ps| && m == d[..ps[i - 1].End()]
    {
      assert ps[i - 1].End() == ps[i].pos && SliceOf(ps[i], d);
      m := m + ps[i].data;
      i := i + 1;
    }
  }

  /** The search loop of ip_reass. */
  method FindAfter(ps: seq<Piece>, pos: nat) returns (k: nat)
    ensures k == After(ps, pos)
  {
    k := 0;
    while k < |ps| && !(ps[k].pos > pos)
      invariant k <= |ps| && forall i :: 0 <= i < k ==> ps[i].pos <= pos
    {
      k := k + 1;
    }
    assert k == After(ps, pos);
  }

  /** The loop of ip_reass that trims or dequeues the fragments the newcomer overlaps. */
  method TrimSuccessors(ps: seq<Piece>, end: nat) returns (r: seq<Piece>)
    ensures r == TrimNext(ps, end)
  {
    r := ps;
    while r != [] && end > r[0].pos
      invariant TrimNext(r, end) == TrimNext(ps, end)
      decreases |r|
    {
      var i := end - r[0].pos;
      if i < |r[0].data| {
        r := [r[0].Trim(i)] + r[1..];
        break;
      }
      r := r[1..];
    }
  }

  class IpStack {
    var ipId: u16
    var ipq: map<Key, seq<Piece>>

    function Fragments(key: Key): seq<Piece>
      reads this
    {
      if key in ipq then ipq[key] else []
    }

    /** The queue of `key` holds fragments of the datagram d and does not cover it yet. */
    ghost predicate Pending(key: Key, d: seq<byte>)
      reads this
    {
      Queue(Fragments(key), d) && !Full(Fragments(key), d)
    }

    constructor ()
      ensures ipq == map[]
    {
      ipId := 0;
      ipq := map[];
    }

    /** ip_reass on a fragment p of datagram d: insert it, then hand the datagram out if it is
        complete.  `mbuf` tells whether m_get can make a new queue header. */
    method IpReass(key: Key, p: Piece, mbuf: bool, ghost d: seq<byte>) returns (r: Option<seq<byte>>)
      requires FragmentOf(p, d) && Pending(key, d)
      modifies this`ipq
      ensures key !in old(ipq) && !mbuf ==> r == None && ipq == old(ipq)
      ensures key in old(ipq) || mbuf ==> r == if Full(Insert(old(Fragments(key)), p), d) then Some(d) else None
      ensures key in old(ipq) || mbuf ==> Fragments(key) == if r.Some? then [] else Insert(old(Fragments(key)), p)
      ensures r.None? ==> Pending(key, d)
      ensures r.Some? ==> key !in ipq
      ensures ipq - {key} == old(ipq) - {key}
    {
      ghost var before := Fragments(key);
      InsertKeeps(before, p, d);
      r := None;
      var ps := [p];
      if key in ipq {
        var kept;
        kept, ps := SpliceIn(ipq[key], p);
        if !kept {
          return;
        }
      } else {
        InsertEmpty(p);
        if !mbuf {
          return;
        }
      }
      r := Collect(key, ps, d);
    }

    /** The rest of ip_reass: test for completeness and, if so, concatenate and drop the queue. */
    method Collect(key: Key, ps: seq<Piece>, ghost d: seq<byte>) returns (r: Option<seq<byte>>)
      requires ps != [] && Queue(ps, d)
      modifies this`ipq
      ensures r == if Full(ps, d) then Some(d) else None
      ensures ipq == if r.Some? then old(ipq) - {key} else old(ipq)[key := ps]
    {
      ipq := ipq[key := ps];
      r := None;
      var done := Complete(ps, d);
      if done {
        var m := Concatenate(ps, d);
        assert d[..|d|] == d;
        ipq := ipq - {key};
        r := Some(m);
      }
    }

    /** ip_freef, also what ip_slowtimo does to a queue whose time is up.  The key is free for the
        next datagram, whatever that is, and no other datagram under way is touched. */
    method IpFreef(key: Key)
      modifies this`ipq
      ensures key !in ipq && ipq - {key} == old(ipq) - {key}
      ensures forall d: seq<byte> :: d != [] ==> Pending(key, d)
      ensures forall k, d: seq<byte> :: k != key && old(Pending(k, d)) ==> Pending(k, d)
    {
      hide Queue, Full;
      ipq := ipq - {key};
      forall d: seq<byte> | d != [] ensures Pending(key, d) { NothingCovers(d); }
    }

    /** The fragment handling of ip_input, for a packet of datagram d. */
    method IpInput(pkt: Packet, mbuf: bool, ghost d: seq<byte>) returns (r: Option<seq<byte>>)
      requires IsFragment(pkt) ==> FragmentOf(PieceOf(pkt), d) && Pending(pkt.key, d)
      modifies this`ipq
      ensures !IsFragment(pkt) ==> r == Some(pkt.data) && ipq == if Plain(pkt) then old(ipq) else old(ipq) - {pkt.key}
      ensures IsFragment(pkt) && (pkt.key in old(ipq) || mbuf) ==>
        var ps := Insert(old(Fragments(pkt.key)), PieceOf(pkt));
        r == (if Full(ps, d) then Some(d) else None) && Fragments(pkt.key) == if r.Some? then [] else ps
      ensures IsFragment(pkt) && r.None? ==> Pending(pkt.key, d)
      ensures IsFragment(pkt) && r.Some? ==> pkt.key !in ipq
      ensures IsFragment(pkt) && pkt.key !in old(ipq) && !mbuf ==> r == None && ipq == old(ipq)
      ensures ipq - {pkt.key} == old(ipq) - {pkt.key}
    {
      r := Some(pkt.data);
      if pkt.ipOff != 0 && pkt.ipOff != IP_DF {
        var p := PieceOf(pkt);
        if !p.last || p.pos != 0 {
          r := IpReass(pkt.key, p, mbuf, d);
        } else if pkt.key in ipq {
          IpFreef(pkt.key);
        }
      }
    }

    /** ip_output: one packet when the datagram fits the interface, otherwise fragments of it.
        Every packet fits the MTU, and the fragments are consecutive slices of the payload, MF set
        on all but the last.  `mbufs` is how many times m_get succeeds. */
    method IpOutput(payload: seq<byte>, src: nat, dst: nat, proto: nat, df: bool, mbufs: nat)
      returns (err: bool, pkts: seq<Packet>)
      requires HLEN + |payload| <= 65535
      modifies this`ipId
      ensures err <==> HLEN + |payload| > IF_MTU && (df || mbufs < FragmentCount(|payload|) - 1)
      ensures err ==> pkts == []
      ensures !err ==> |pkts| == FragmentCount(|payload|)
      ensures !err ==> Fragmentation(pkts, Key(old(ipId), src, dst, proto), payload)
      ensures !err && HLEN + |payload| <= IF_MTU ==> pkts[0].ipOff == if df then IP_DF else 0
      ensures ipId == (old(ipId) + 1) % 0x1_0000
    {
      var key := Key(ipId, src, dst, proto);
      ipId := (ipId + 1) % 0x1_0000;
      var ipLen := HLEN + |payload|;
      if ipLen <= IF_MTU {
        return false, [Packet(key, if df then IP_DF else 0, payload)];
      }
      if df {
        return true, [];
      }
      err, pkts := Fragment(key, payload, mbufs);
    }
  }

  /** The fragmentation loop of ip_output. */
  method Fragment(key: Key, payload: seq<byte>, mbufs: nat) returns (err: bool, pkts: seq<Packet>)
    requires IF_MTU < HLEN + |payload| <= 65535
    ensures err <==> mbufs < FragmentCount(|payload|) - 1
    ensures err ==> pkts == []
    ensures !err ==> |pkts| == FragmentCount(|payload|) && Consecutive(pkts, key, payload, |payload|)
  {
    hide Consecutive, IsFragment, FragmentOf;
    pkts := [Packet(key, IP_MF, payload[..PER_PACKET])];
    ConsecutiveFirst(pkts[0], payload);
    var off, left := HLEN + PER_PACKET, mbufs;
    while off < HLEN + |payload|
      invariant |pkts| >= 1 && left >= 0 && left + |pkts| == mbufs + 1
      invariant off <= HLEN + |payload|
      invariant off < HLEN + |payload| ==> off == HLEN + PER_PACKET * |pkts|
      invariant off == HLEN + |payload| ==> |pkts| == FragmentCount(|payload|)
      invariant Consecutive(pkts, key, payload, off - HLEN)
    {
      CountIs(|payload|, |pkts|);
      if left == 0 {
        return true, [];
      }
      left := left - 1;
      var mh := FragmentAt(key, payload, off - HLEN);
      ConsecutiveNext(pkts, key, payload, off - HLEN, mh);
      pkts := pkts + [mh];
      off := off + |mh.data|;
    }
    err := false;
  }

  /** The body of the fragmentation loop: header and data of the fragment at `pos`. */
  method FragmentAt(key: Key, payload: seq<byte>, pos: nat) returns (mh: Packet)
    requires 0 < pos < |payload| <= 65535 && pos % 8 == 0
    ensures mh.key == key && IsFragment(mh) && FragmentOf(PieceOf(mh), payload)
    ensures PieceOf(mh).pos == pos && |mh.data| == if pos + PER_PACKET >= |payload| then |payload| - pos else PER_PACKET
  {
    var mhOff, len := pos / 8, PER_PACKET;
    if pos + len >= |payload| {
      len := |payload| - pos;
    } else {
      mhOff := mhOff + IP_MF;
    }
    mh := Packet(key, mhOff, payload[pos..pos + len]);
    HeaderRoundTrip(mh, pos);
  }

  const PER_PACKET := (IF_MTU - HLEN) / 8 * 8

  function FragmentCount(n: nat): nat {
    if HLEN + n <= IF_MTU then 1 else (n + PER_PACKET - 1) / PER_PACKET
  }

  /** Nothing in ip_off but perhaps DF, so that no queue is looked at. */
  predicate Plain(pkt: Packet) { pkt.ipOff == 0 || pkt.ipOff == IP_DF }

  /** ip_input sends the packet through ip_reass. */
  predicate IsFragment(pkt: Packet) {
    !Plain(pkt) && (!PieceOf(pkt).last || PieceOf(pkt).pos != 0)
  }

  ghost function Pieces(pkts: seq<Packet>): seq<Piece> {
    seq(|pkts|, i requires 0 <= i < |pkts| => PieceOf(pkts[i]))
  }

  /** The packets carry payload[..upTo] piece after piece. */
  ghost predicate Consecutive(pkts: seq<Packet>, key: Key, payload: seq<byte>, upTo: int) {
    && (forall i :: 0 <= i < |pkts| ==>
          pkts[i].key == key && HLEN + |pkts[i].data| <= IF_MTU && IsFragment(pkts[i])
            && FragmentOf(PieceOf(pkts[i]), payload))
    && Gapless(Pieces(pkts), |pkts|)
    && (forall i :: 0 <= i < |pkts| ==> PieceOf(pkts[i]).pos == PER_PACKET * i)
    && EndOf(Pieces(pkts), |pkts|) == upTo
  }

  ghost predicate Fragmentation(pkts: seq<Packet>, key: Key, payload: seq<byte>) {
    if HLEN + |payload| <= IF_MTU then
      |pkts| == 1 && pkts[0].key == key && pkts[0].data == payload && Plain(pkts[0])
    else
      Consecutive(pkts, key, payload, |payload|)
  }

  /** The header ip_output builds is read back by ip_input as the same offset and MF flag. */
  lemma HeaderRoundTrip(pkt: Packet, pos: nat)
    requires pos % 8 == 0 && pos < 0x1_0000 && (pkt.ipOff == pos / 8 || pkt.ipOff == pos / 8 + IP_MF)
    ensures PieceOf(pkt) == Piece(pos, pkt.data, pkt.ipOff == pos / 8)
  {
  }

  lemma CountIs(n: nat, k: nat)
    requires HLEN + n > IF_MTU && PER_PACKET * k < n
    ensures k < FragmentCount(n)
    ensures n <= PER_PACKET * k + PER_PACKET ==> FragmentCount(n) == k + 1
  {
  }

  lemma ConsecutiveFirst(pkt: Packet, payload: seq<byte>)
    requires IF_MTU < HLEN + |payload| && pkt.ipOff == IP_MF && pkt.data == payload[..PER_PACKET]
    ensures Consecutive([pkt], pkt.key, payload, PER_PACKET)
  {
    HeaderRoundTrip(pkt, 0);
    assert Pieces([pkt]) == [PieceOf(pkt)];
  }

  lemma ConsecutiveNext(pkts: seq<Packet>, key: Key, payload: seq<byte>, upTo: nat, mh: Packet)
    requires Consecutive(pkts, key, payload, upTo) && pkts != []
    requires mh.key == key && HLEN + |mh.data| <= IF_MTU && IsFragment(mh) && FragmentOf(PieceOf(mh), payload)
    requires PieceOf(mh).pos == upTo == PER_PACKET * |pkts|
    ensures Consecutive(pkts + [mh], key, payload, PieceOf(mh).End())
  {
    assert Pieces(pkts + [mh]) == Pieces(pkts) + [PieceOf(mh)];
  }

  /** What ip_reass does to an existing queue: give up on a fragment its predecessor covers, or
      trim it, trim its successors and put it in its place. */
  method SpliceIn(q: seq<Piece>, p: Piece) returns (kept: bool, ps: seq<Piece>)
    ensures ps == Insert(q, p) && ps != []
    ensures !kept ==> ps == q
  {
    var k := FindAfter(q, p.pos);
    var t := p;
    if k > 0 {
      var i := q[k - 1].End() - p.pos;
      if i > 0 {
        if i >= |p.data| {
          return false, q;
        }
        t := p.Trim(i);
      }
    }
    var back := TrimSuccessors(q[k..], t.End());
    kept, ps := true, q[..k] + [t] + back;
  }

  lemma InsertEmpty(p: Piece)
    ensures Insert([], p) == [p]
  {
  }

  /** ip_reass completes a datagram exactly when the fragments seen so far first cover it: the
      method feeds fragments of d, in whatever order and with whatever repeats and overlaps, until
      one of them makes the datagram come out. */
  method Receive(s: IpStack, pkts: seq<Packet>, key: Key, ghost d: seq<byte>) returns (k: nat, r: Option<seq<byte>>)
    requires key !in s.ipq && d != []
    requires forall i :: 0 <= i < |pkts| ==>
      pkts[i].key == key && IsFragment(pkts[i]) && FragmentOf(PieceOf(pkts[i]), d)
    modifies s
    ensures r.Some? ==> r.value == d && k < |pkts|
    ensures r.Some? ==> Full(Pieces(pkts[..k + 1]), d) && !Full(Pieces(pkts[..k]), d)
    ensures r.None? ==> !Full(Pieces(pkts), d)
  {
    k, r := 0, None;
    NothingCovers(d);
    while k < |pkts|
      invariant k <= |pkts| && r == None && s.Pending(key, d)
      invariant forall x: nat :: Covers(s.Fragments(key), x) <==> Covers(Pieces(pkts[..k]), x)
    {
      ghost var held := s.Fragments(key);
      PiecesNext(pkts, k, held);
      FullSame(held, Pieces(pkts[..k]), d);
      FullSame(Insert(held, PieceOf(pkts[k])), Pieces(pkts[..k + 1]), d);
      r := s.IpInput(pkts[k], true, d);
      if r.Some? {
        return;
      }
      k := k + 1;
    }
    assert pkts[..k] == pkts;
    FullSame(s.Fragments(key), Pieces(pkts), d);
  }

  lemma FullSame(ps: seq<Piece>, qs: seq<Piece>, d: seq<byte>)
    requires forall x: nat :: Covers(ps, x) <==> Covers(qs, x)
    ensures Full(ps, d) <==> Full(qs, d)
  {
  }

  lemma NothingCovers(d: seq<byte>)
    requires d != []
    ensures Queue([], d) && !Full([], d)
  {
    assert !Covers([], 0);
  }

  lemma PiecesNext(pkts: seq<Packet>, k: nat, held: seq<Piece>)
    requires k < |pkts| && Ordered(held)
    requires forall x: nat :: Covers(held, x) <==> Covers(Pieces(pkts[..k]), x)
    ensures forall x: nat :: Covers(Insert(held, PieceOf(pkts[k])), x) <==> Covers(Pieces(pkts[..k + 1]), x)
  {
    assert Pieces(pkts[..k + 1]) == Pieces(pkts[..k]) + [PieceOf(pkts[k])];
    forall x: nat
      ensures Covers(Insert(held, PieceOf(pkts[k])), x) <==> Covers(Pieces(pkts[..k + 1]), x)
    {
      InsertCovers(held, PieceOf(pkts[k]), x);
      CoversSplit(Pieces(pkts[..k]), [PieceOf(pkts[k])], x);
      CoversOne(PieceOf(pkts[k]), x);
    }
  }

  // Several datagrams at once.

  /** A packet of datagram d arrives, or a queue is dropped because its time is up. */
  datatype Event = Arrive(pkt: Packet, mbuf: bool, d: seq<byte>) | Free(key: Key)

  /** The fragments of one key since its last datagram was completed or dropped, in arrival order. */
  datatype Held = Held(pieces: seq<Piece>, d: seq<byte>)

  ghost function HeldAfter(events: seq<Event>, key: Key): Held {
    if events == [] then Held([], [])
    else
      var h := HeldAfter(events[..|events| - 1], key);
      match events[|events| - 1]
      case Arrive(pkt, mbuf, d) =>
        if pkt.key != key || (h.pieces == [] && !mbuf) || Plain(pkt) then h
        else if !IsFragment(pkt) then Held([], [])
        else if Full(h.pieces + [PieceOf(pkt)], d) then Held([], [])
        else Held(h.pieces + [PieceOf(pkt)], d)
      case Free(k) => if k == key then Held([], []) else h
  }

  /** What comes out: a whole packet's data, or the datagram, exactly when its fragments since the last one
      first cover it. */
  ghost function Delivered(before: seq<Event>, e: Event): Option<seq<byte>> {
    if e.Free? then None
    else if !IsFragment(e.pkt) then Some(e.pkt.data)
    else
      var h := HeldAfter(before, e.pkt.key);
      if (h.pieces != [] || e.mbuf) && Full(h.pieces + [PieceOf(e.pkt)], e.d) then Some(e.d) else None
  }

  /** The packet is a fragment of its datagram, and so are those held under its key. */
  ghost predicate Consistent(before: seq<Event>, e: Event) {
    e.Arrive? && IsFragment(e.pkt) ==>
      && e.d != [] && FragmentOf(PieceOf(e.pkt), e.d)
      && (HeldAfter(before, e.pkt.key).pieces != [] ==> HeldAfter(before, e.pkt.key).d == e.d)
  }

  /** The queue of a key covers what the held fragments cover. */
  ghost predicate Mirrors(ipq: map<Key, seq<Piece>>, key: Key, h: Held) {
    if h.pieces == [] then key !in ipq
    else
      && key in ipq && Queue(ipq[key], h.d) && !Full(ipq[key], h.d)
      && forall x: nat :: Covers(ipq[key], x) <==> Covers(h.pieces, x)
  }

  lemma InsertLike(held: seq<Piece>, ps: seq<Piece>, p: Piece, d: seq<byte>)
    requires Ordered(held) && forall x: nat :: Covers(held, x) <==> Covers(ps, x)
    ensures forall x: nat :: Covers(Insert(held, p), x) <==> Covers(ps + [p], x)
    ensures Full(Insert(held, p), d) <==> Full(ps + [p], d)
  {
    forall x: nat ensures Covers(Insert(held, p), x) <==> Covers(ps + [p], x) {
      InsertCovers(held, p, x);
      CoversSplit(ps, [p], x);
      CoversOne(p, x);
    }
    FullSame(Insert(held, p), ps + [p], d);
  }

  lemma InsertSome(ps: seq<Piece>, p: Piece)
    ensures Insert(ps, p) != []
  {
  }

  /** One event, with any number of datagrams under way. */
  method Step(s: IpStack, e: Event, ghost before: seq<Event>) returns (r: Option<seq<byte>>)
    requires Consistent(before, e) && forall k :: Mirrors(s.ipq, k, HeldAfter(before, k))
    modifies s
    ensures r == Delivered(before, e)
    ensures forall k :: Mirrors(s.ipq, k, HeldAfter(before + [e], k))
  {
    hide Queue, Full, Insert, Covers, PieceOf, FragmentOf;
    assert (before + [e])[..|before|] == before;
    match e
    case Free(key) =>
      s.IpFreef(key);
      r := None;
      forall k | k != key ensures Mirrors(s.ipq, k, HeldAfter(before + [e], k)) {
        assert Mirrors(old(s.ipq), k, HeldAfter(before, k));
        SameQueue(old(s.ipq), s.ipq, key, k);
      }
    case Arrive(pkt, mbuf, d) =>
      ghost var key, h := pkt.key, HeldAfter(before, pkt.key);
      assert Mirrors(s.ipq, key, h);
      if !IsFragment(pkt) {
        r := s.IpInput(pkt, mbuf, d);
        forall k ensures Mirrors(s.ipq, k, HeldAfter(before + [e], k)) {
          assert Mirrors(old(s.ipq), k, HeldAfter(before, k));
          if k != key { SameQueue(old(s.ipq), s.ipq, key, k); }
        }
        return;
      }
      ghost var held := s.Fragments(key);
      if h.pieces == [] { NothingCovers(d); NothingHeld(); }
      QueueOrdered(held, d);
      InsertLike(held, h.pieces, PieceOf(pkt), d);
      InsertSome(held, PieceOf(pkt));
      r := s.IpInput(pkt, mbuf, d);
      forall k | k != key ensures Mirrors(s.ipq, k, HeldAfter(before + [e], k)) {
        assert Mirrors(old(s.ipq), k, HeldAfter(before, k));
        SameQueue(old(s.ipq), s.ipq, key, k);
      }
  }

  lemma SameQueue(m: map<Key, seq<Piece>>, n: map<Key, seq<Piece>>, key: Key, k: Key)
    requires m - {key} == n - {key} && k != key
    ensures (k in m <==> k in n) && (k in m ==> m[k] == n[k])
  {
    assert k in m <==> k in m - {key};
    assert k in n <==> k in n - {key};
    if k in m { assert (m - {key})[k] == (n - {key})[k]; }
  }

  lemma QueueOrdered(ps: seq<Piece>, d: seq<byte>)
    requires Queue(ps, d)
    ensures Ordered(ps)
  {
  }

  lemma NothingHeld()
    ensures forall x: nat :: !Covers([], x)
  {
  }

  /** Any number of datagrams in any interleaving, with whole packets between, and with queues dropped at
      any moment: each datagram comes out exactly at the fragment that first completes its cover since
      its queue was opened. */
  method Interleaved(s: IpStack, events: seq<Event>) returns (outs: seq<Option<seq<byte>>>)
    requires s.ipq == map[] && forall i :: 0 <= i < |events| ==> Consistent(events[..i], events[i])
    modifies s
    ensures |outs| == |events| && forall i :: 0 <= i < |events| ==> outs[i] == Delivered(events[..i], events[i])
  {
    hide Consistent, Mirrors, Delivered;
    outs := [];
    NoneHeld(s.ipq);
    assert events[..0] == [];
    for i := 0 to |events|
      invariant |outs| == i && forall j :: 0 <= j < i ==> outs[j] == Delivered(events[..j], events[j])
      invariant forall k :: Mirrors(s.ipq, k, HeldAfter(events[..i], k))
    {
      assert events[..i + 1] == events[..i] + [events[i]];
      var r := Step(s, events[i], events[..i]);
      outs := outs + [r];
    }
  }

  lemma NoneHeld(ipq: map<Key, seq<Piece>>)
    requires ipq == map[]
    ensures forall k :: Mirrors(ipq, k, HeldAfter([], k))
  {
  }

  /** Every packet of the fragmentation arrives at least once. */
  ghost predicate EachArrives(order: seq<nat>, n: nat) {
    && (forall i :: 0 <= i < |order| ==> order[i] < n)
    && (forall j :: 0 <= j < n ==> j in order)
  }

  /** RFC 791 round trip: whatever ip_output makes of a datagram, in every arrival order and with
      any duplicates, comes out of ip_input as the datagram. */
  method RoundTrip(tx: IpStack, rx: IpStack, payload: seq<byte>, src: nat, dst: nat, proto: nat, order: seq<nat>)
    returns (r: Option<seq<byte>>)
    requires tx != rx && 0 < |payload| && HLEN + |payload| <= 65535
    requires rx.ipq == map[]
    requires EachArrives(order, FragmentCount(|payload|))
    modifies tx, rx
    ensures r == Some(payload)
  {
    ghost var id := tx.ipId;
    var err, pkts := tx.IpOutput(payload, src, dst, proto, false, FragmentCount(|payload|));
    var arrivals := seq(|order|, i requires 0 <= i < |order| => pkts[order[i]]);
    if |pkts| == 1 && !IsFragment(pkts[0]) {
      assert 0 in order;
      assert arrivals[0] == pkts[0];
      r := rx.IpInput(arrivals[0], true, payload);
    } else {
      ArrivalsCover(pkts, order, arrivals, payload);
      var _, got := Receive(rx, arrivals, pkts[0].key, payload);
      r := got;
    }
  }

  lemma ArrivalsCover(pkts: seq<Packet>, order: seq<nat>, arrivals: seq<Packet>, payload: seq<byte>)
    requires EachArrives(order, |pkts|) && pkts != []
    requires |arrivals| == |order| && forall i :: 0 <= i < |order| ==> arrivals[i] == pkts[order[i]]
    requires Gapless(Pieces(pkts), |pkts|) && EndOf(Pieces(pkts), |pkts|) == |payload|
    ensures Full(Pieces(arrivals), payload)
  {
    forall x: nat | x < |payload|
      ensures Covers(Pieces(arrivals), x)
    {
      GaplessCovers(Pieces(pkts), |pkts|, x);
      var j :| 0 <= j < |pkts| && Pieces(pkts)[j].pos <= x < Pieces(pkts)[j].End();
      assert j in order;
      var i :| 0 <= i < |order| && order[i] == j;
      assert Pieces(arrivals)[i] == Pieces(pkts)[j];
    }
  }

  // Many datagrams from one sender.

  datatype Datagram = Datagram(payload: seq<byte>, src: nat, dst: nat, proto: nat)

  /** The key under which the i-th datagram goes out when ip_id starts at `id`. */
  function KeyAt(id: u16, i: nat, d: Datagram): Key {
    Key((id + i) % 0x1_0000, d.src, d.dst, d.proto)
  }

  /** Identifications repeat only after 2^16 datagrams. */
  lemma KeysApart(id: u16, i: nat, j: nat, d: Datagram, e: Datagram)
    requires i < j < i + 0x1_0000
    ensures KeyAt(id, i, d) != KeyAt(id, j, e)
  {
  }

  predicate Sendable(d: Datagram) { 0 < |d.payload| && HLEN + |d.payload| <= 65535 }

  ghost predicate SentAs(sent: seq<seq<Packet>>, id: u16, dgs: seq<Datagram>) {
    && |sent| == |dgs|
    && forall i :: 0 <= i < |dgs| ==>
         |sent[i]| == FragmentCount(|dgs[i].payload|) && Fragmentation(sent[i], KeyAt(id, i, dgs[i]), dgs[i].payload)
  }

  /** Datagrams sent one after the other, each under an identification of its own. */
  method OutputAll(s: IpStack, dgs: seq<Datagram>) returns (sent: seq<seq<Packet>>)
    requires forall i :: 0 <= i < |dgs| ==> Sendable(dgs[i])
    modifies s`ipId
    ensures SentAs(sent, old(s.ipId), dgs) && s.ipId == (old(s.ipId) + |dgs|) % 0x1_0000
  {
    hide Fragmentation, FragmentCount;
    sent := [];
    for i := 0 to |dgs|
      invariant |sent| == i && s.ipId == (old(s.ipId) + i) % 0x1_0000
      invariant forall j :: 0 <= j < i ==>
        |sent[j]| == FragmentCount(|dgs[j].payload|) &&
        Fragmentation(sent[j], KeyAt(old(s.ipId), j, dgs[j]), dgs[j].payload)
    {
      var d := dgs[i];
      var err, pkts := s.IpOutput(d.payload, d.src, d.dst, d.proto, false, FragmentCount(|d.payload|));
      sent := sent + [pkts];
    }
  }

  /** Packet j of datagram i arrives. */
  datatype Arrival = Arrival(i: nat, j: nat)

  /** The arrivals are packets of the datagrams, each at least once, in any order. */
  ghost predicate AllArrive(order: seq<Arrival>, dgs: seq<Datagram>) {
    && (forall k :: 0 <= k < |order| ==> order[k].i < |dgs| && order[k].j < FragmentCount(|dgs[order[k].i].payload|))
    && (forall i, j :: 0 <= i < |dgs| && 0 <= j < FragmentCount(|dgs[i].payload|) ==> Arrival(i, j) in order)
  }

  /** Up to 2^16 datagrams, sent one after the other, whose packets arrive in any interleaving, any order
      and with any repeats: every datagram comes out, and nothing else does. */
  method Exchange(tx: IpStack, rx: IpStack, dgs: seq<Datagram>, order: seq<Arrival>)
    returns (outs: seq<Option<seq<byte>>>)
    requires tx != rx && rx.ipq == map[] && |dgs| <= 0x1_0000
    requires (forall i :: 0 <= i < |dgs| ==> Sendable(dgs[i])) && AllArrive(order, dgs)
    modifies tx, rx
    ensures |outs| == |order|
    ensures forall k :: 0 <= k < |order| && outs[k].Some? ==> outs[k].value == dgs[order[k].i].payload
    ensures forall i :: 0 <= i < |dgs| ==> ComesOut(order, outs, i, dgs[i].payload)
  {
    ghost var id := tx.ipId;
    var sent := OutputAll(tx, dgs);
    var events := seq(|order|, k requires 0 <= k < |order| =>
      Arrive(sent[order[k].i][order[k].j], true, dgs[order[k].i].payload));
    AllConsistent(sent, id, dgs, order, events);
    outs := Interleaved(rx, events);
    forall k | 0 <= k < |order| && outs[k].Some? ensures outs[k].value == dgs[order[k].i].payload {
      OutIsPayload(sent, id, dgs, order, events, k);
    }
    forall i | 0 <= i < |dgs| ensures ComesOut(order, outs, i, dgs[i].payload) {
      EachComesOut(sent, id, dgs, order, events, outs, i);
    }
  }

  ghost predicate ComesOut(order: seq<Arrival>, outs: seq<Option<seq<byte>>>, i: nat, d: seq<byte>)
    requires |outs| == |order|
  {
    exists k :: 0 <= k < |order| && order[k].i == i && outs[k] == Some(d)
  }

  /** The events are the arrivals in order. */
  ghost predicate Arrivals(sent: seq<seq<Packet>>, id: u16, dgs: seq<Datagram>, order: seq<Arrival>,
                           events: seq<Event>) {
    && SentAs(sent, id, dgs) && |dgs| <= 0x1_0000 && |events| == |order| && AllArrive(order, dgs)
    && (forall i :: 0 <= i < |dgs| ==> Sendable(dgs[i]))
    && forall k :: 0 <= k < |order| ==>
         events[k] == Arrive(sent[order[k].i][order[k].j], true, dgs[order[k].i].payload)
  }

  /** What one arrival is. */
  lemma ArrivalIs(sent: seq<seq<Packet>>, id: u16, dgs: seq<Datagram>, order: seq<Arrival>, events: seq<Event>, k: nat)
    requires Arrivals(sent, id, dgs, order, events) && k < |order|
    ensures var i, e := order[k].i, events[k];
      && i < |dgs| && e.Arrive? && e.mbuf && e.d == dgs[i].payload != [] && e.pkt.key == KeyAt(id, i, dgs[i])
      && (IsFragment(e.pkt) ==> FragmentOf(PieceOf(e.pkt), e.d))
      && (!IsFragment(e.pkt) ==> Plain(e.pkt) && e.pkt.data == e.d)
  {
    hide FragmentCount, KeyAt, FragmentOf, PieceOf, Gapless, EndOf;
    var i := order[k].i;
    assert Fragmentation(sent[i], KeyAt(id, i, dgs[i]), dgs[i].payload);
  }

  /** Arrivals under one key are of one datagram. */
  lemma SameDatagram(sent: seq<seq<Packet>>, id: u16, dgs: seq<Datagram>, order: seq<Arrival>, events: seq<Event>,
                     k: nat, i: nat)
    requires Arrivals(sent, id, dgs, order, events) && k < |order| && i < |dgs|
    ensures order[k].i == i <==> events[k].pkt.key == KeyAt(id, i, dgs[i])
  {
    ArrivalIs(sent, id, dgs, order, events, k);
    var h := order[k].i;
    if h < i { KeysApart(id, h, i, dgs[h], dgs[i]); } else if i < h { KeysApart(id, i, h, dgs[i], dgs[h]); }
  }

  /** What is held under a key is of its datagram. */
  lemma {:induction false} HeldOwn(events: seq<Event>, key: Key, d: seq<byte>)
    requires forall e :: e in events && e.Arrive? && e.pkt.key == key ==> e.d == d
    ensures HeldAfter(events, key).pieces != [] ==> HeldAfter(events, key).d == d
  {
    if events != [] {
      assert events[|events| - 1] in events;
      HeldOwn(events[..|events| - 1], key, d);
    }
  }

  lemma AllConsistent(sent: seq<seq<Packet>>, id: u16, dgs: seq<Datagram>, order: seq<Arrival>, events: seq<Event>)
    requires Arrivals(sent, id, dgs, order, events)
    ensures forall k :: 0 <= k < |events| ==> Consistent(events[..k], events[k])
  {
    hide Arrivals, FragmentOf, PieceOf, IsFragment, KeyAt;
    assert |events| == |order| by { SameLength(sent, id, dgs, order, events); }
    forall k | 0 <= k < |events| ensures Consistent(events[..k], events[k]) {
      ArrivalIs(sent, id, dgs, order, events, k);
      var i := order[k].i;
      forall e | e in events[..k] && e.Arrive? && e.pkt.key == events[k].pkt.key ensures e.d == events[k].d {
        var h :| 0 <= h < k && events[h] == e;
        SameDatagram(sent, id, dgs, order, events, h, i);
        ArrivalIs(sent, id, dgs, order, events, h);
      }
      HeldOwn(events[..k], events[k].pkt.key, events[k].d);
    }
  }

  lemma SameLength(sent: seq<seq<Packet>>, id: u16, dgs: seq<Datagram>, order: seq<Arrival>, events: seq<Event>)
    requires Arrivals(sent, id, dgs, order, events)
    ensures |events| == |order|
  {}

  lemma OutIsPayload(sent: seq<seq<Packet>>, id: u16, dgs: seq<Datagram>, order: seq<Arrival>, events: seq<Event>,
                     k: nat)
    requires Arrivals(sent, id, dgs, order, events) && k < |order|
    ensures Delivered(events[..k], events[k]).Some? ==>
      order[k].i < |dgs| && Delivered(events[..k], events[k]).value == dgs[order[k].i].payload
  {
    ArrivalIs(sent, id, dgs, order, events, k);
    hide Full, HeldAfter, IsFragment;
  }

  /** The fragments that arrived under a key. */
  ghost function Under(events: seq<Event>, key: Key): seq<Piece> {
    if events == [] then []
    else
      var e := events[|events| - 1];
      Under(events[..|events| - 1], key) +
      if e.Arrive? && e.pkt.key == key && IsFragment(e.pkt) then [PieceOf(e.pkt)] else []
  }

  /** As long as a datagram has not come out, all its fragments are held, and they do not cover it. */
  lemma {:induction false} NotYetOut(events: seq<Event>, key: Key, d: seq<byte>)
    requires d != [] && forall e :: e in events ==>
      e.Arrive? && (e.pkt.key == key ==> e.mbuf && e.d == d && IsFragment(e.pkt))
    requires forall k :: 0 <= k < |events| && events[k].pkt.key == key ==> Delivered(events[..k], events[k]).None?
    ensures HeldAfter(events, key).pieces == Under(events, key) && !Full(Under(events, key), d)
  {
    if events == [] {
      NothingCovers(d);
    } else {
      var n := |events| - 1;
      forall k | 0 <= k < n && events[..n][k].pkt.key == key ensures Delivered(events[..n][..k], events[..n][k]).None? {
        assert events[..n][..k] == events[..k];
      }
      assert events[n] in events;
      NotYetOut(events[..n], key, d);
      hide Full, PieceOf, IsFragment;
      if events[n].pkt.key == key { assert Delivered(events[..n], events[n]).None?; }
    }
  }

  lemma {:induction false} UnderHas(events: seq<Event>, key: Key, k: nat, x: nat)
    requires k < |events| && events[k].Arrive? && events[k].pkt.key == key && IsFragment(events[k].pkt)
    requires PieceOf(events[k].pkt).pos <= x < PieceOf(events[k].pkt).End()
    ensures Covers(Under(events, key), x)
  {
    var n := |events| - 1;
    var e := events[n];
    var last := if e.Arrive? && e.pkt.key == key && IsFragment(e.pkt) then [PieceOf(e.pkt)] else [];
    CoversSplit(Under(events[..n], key), last, x);
    if k < n {
      UnderHas(events[..n], key, k, x);
    } else {
      CoversOne(PieceOf(e.pkt), x);
    }
  }

  /** All packets of a fragmentation cover the datagram. */
  lemma UnderFull(sent: seq<seq<Packet>>, id: u16, dgs: seq<Datagram>, order: seq<Arrival>, events: seq<Event>, i: nat)
    requires Arrivals(sent, id, dgs, order, events) && i < |dgs| && HLEN + |dgs[i].payload| > IF_MTU
    ensures Full(Under(events, KeyAt(id, i, dgs[i])), dgs[i].payload)
  {
    var pkts, key, d := sent[i], KeyAt(id, i, dgs[i]), dgs[i].payload;
    assert Fragmentation(pkts, key, d);
    forall x: nat | x < |d| ensures Covers(Under(events, key), x) {
      GaplessCovers(Pieces(pkts), |pkts|, x);
      var j :| 0 <= j < |pkts| && Pieces(pkts)[j].pos <= x < Pieces(pkts)[j].End();
      assert Arrival(i, j) in order;
      var k :| 0 <= k < |order| && order[k] == Arrival(i, j);
      UnderHas(events, key, k, x);
    }
  }

  lemma EachComesOut(sent: seq<seq<Packet>>, id: u16, dgs: seq<Datagram>, order: seq<Arrival>, events: seq<Event>,
                     outs: seq<Option<seq<byte>>>, i: nat)
    requires Arrivals(sent, id, dgs, order, events) && i < |dgs| && |outs| == |order|
    requires forall k :: 0 <= k < |events| ==> outs[k] == Delivered(events[..k], events[k])
    ensures ComesOut(order, outs, i, dgs[i].payload)
  {
    var key, d := KeyAt(id, i, dgs[i]), dgs[i].payload;
    if HLEN + |d| <= IF_MTU {
      assert Fragmentation(sent[i], key, d) && Arrival(i, 0) in order;
      var k :| 0 <= k < |order| && order[k] == Arrival(i, 0);
      ArrivalIs(sent, id, dgs, order, events, k);
      assert outs[k] == Some(d);
    } else {
      UnderFull(sent, id, dgs, order, events, i);
      if forall k :: 0 <= k < |events| && events[k].pkt.key == key ==> Delivered(events[..k], events[k]).None? {
        OwnFragments(sent, id, dgs, order, events, i);
        NotYetOut(events, key, d);
        assert false;
      }
      var k :| 0 <= k < |events| && events[k].pkt.key == key && Delivered(events[..k], events[k]).Some?;
      SameDatagram(sent, id, dgs, order, events, k, i);
      OutIsPayload(sent, id, dgs, order, events, k);
      assert order[k].i == i && outs[k] == Some(d);
    }
  }

  lemma OwnFragments(sent: seq<seq<Packet>>, id: u16, dgs: seq<Datagram>, order: seq<Arrival>, events: seq<Event>,
                     i: nat)
    requires Arrivals(sent, id, dgs, order, events) && i < |dgs| && HLEN + |dgs[i].payload| > IF_MTU
    ensures var key := KeyAt(id, i, dgs[i]);
      forall e :: e in events ==>
        e.Arrive? && (e.pkt.key == key ==> e.mbuf && e.d == dgs[i].payload && IsFragment(e.pkt))
  {
    var key := KeyAt(id, i, dgs[i]);
    forall e | e in events
      ensures e.Arrive? && (e.pkt.key == key ==> e.mbuf && e.d == dgs[i].payload && IsFragment(e.pkt))
    {
      var k :| 0 <= k < |events| && events[k] == e;
      ArrivalIs(sent, id, dgs, order, events, k);
      SameDatagram(sent, id, dgs, order, events, k, i);
      assert Fragmentation(sent[order[k].i], KeyAt(id, order[k].i, dgs[order[k].i]), dgs[order[k].i].payload);
    }
  }
}
