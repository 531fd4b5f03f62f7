/**
 * The reassembly list that `tcp_reass` and `ip_reass` both maintain: pieces of one byte stream,
 * kept sorted and disjoint by trimming the newcomer against its predecessor and the successors
 * against the newcomer.  Positions are offsets into the stream; `last` marks a piece that closes
 * the stream (TH_FIN set, or IP_MF clear).  The list operations are pure; the two protocol
 * modules refine them with their own loops.
 */
module Reassembly {
  import opened Common

  datatype Piece = Piece(pos: nat, data: seq<byte>, last: bool) {
    function End(): nat {
      pos + |data|
    }

    /** `m_adj(m, n)` together with the header updates: drop n leading bytes. */
    function Trim(n: nat): Piece
      requires n <= |data|
    {
      Piece(pos + n, data[n..], last)
    }
  }

  /** The piece carries exactly the bytes of `stream` at its position. */
  ghost predicate SliceOf(p: Piece, stream: seq<byte>) {
    && p.End() <= |stream|
    && p.data == stream[p.pos..p.End()]
    && (p.last ==> p.End() == |stream|)
  }

  ghost predicate SlicesOf(ps: seq<Piece>, stream: seq<byte>) {
    forall i :: 0 <= i < |ps| ==> SliceOf(ps[i], stream)
  }

  /** Every piece that reaches the end of the stream says so. */
  ghost predicate Marked(ps: seq<Piece>, stream: seq<byte>) {
    forall i :: 0 <= i < |ps| && ps[i].End() == |stream| ==> ps[i].last
  }

  /** Sorted and pairwise disjoint. */
  ghost predicate Ordered(ps: seq<Piece>) {
    forall i, j :: 0 <= i < j < |ps| ==> ps[i].End() <= ps[j].pos
  }

  ghost predicate Covers(ps: seq<Piece>, x: nat) {
    exists i :: 0 <= i < |ps| && ps[i].pos <= x < ps[i].End()
  }

  /** Index of the first piece that begins after `pos`. */
  function After(ps: seq<Piece>, pos: nat): (k: nat)
    ensures k <= |ps|
    ensures forall i :: 0 <= i < k ==> ps[i].pos <= pos
    ensures k < |ps| ==> pos < ps[k].pos
  {
    if ps == [] || pos < ps[0].pos then 0 else 1 + After(ps[1..], pos)
  }

  /** Trim or dequeue the successors that a piece ending at `end` overlaps. */
  function TrimNext(ps: seq<Piece>, end: nat): seq<Piece> {
    if ps == [] || end <= ps[0].pos then ps
    else if end - ps[0].pos < |ps[0].data| then [ps[0].Trim(end - ps[0].pos)] + ps[1..]
    else TrimNext(ps[1..], end)
  }

  /** What the piece before the insertion point already provides of the newcomer. */
  function Overlap(ps: seq<Piece>, p: Piece): int {
    var k := After(ps, p.pos);
    if k == 0 then 0 else ps[k - 1].End() - p.pos
  }

  function Insert(ps: seq<Piece>, p: Piece): seq<Piece> {
    var k := After(ps, p.pos);
    var i := Overlap(ps, p);
    if i > 0 && i >= |p.data| then ps
    else
      var p' := if i > 0 then p.Trim(i) else p;
      ps[..k] + [p'] + TrimNext(ps[k..], p'.End())
  }

  lemma CoversSplit(ps: seq<Piece>, qs: seq<Piece>, x: nat)
    ensures Covers(ps + qs, x) <==> Covers(ps, x) || Covers(qs, x)
  {
    var rs := ps + qs;
    if Covers(ps, x) {
      var i :| 0 <= i < |ps| && ps[i].pos <= x < ps[i].End();
      assert rs[i] == ps[i];
    }
    if Covers(qs, x) {
      var i :| 0 <= i < |qs| && qs[i].pos <= x < qs[i].End();
      assert rs[|ps| + i] == qs[i];
    }
    if Covers(rs, x) {
      var i :| 0 <= i < |rs| && rs[i].pos <= x < rs[i].End();
      assert if i < |ps| then rs[i] == ps[i] else rs[i] == qs[i - |ps|];
    }
  }

  /** Trimming the successors leaves a sorted list of slices that begins at or beyond `end`. */
  lemma {:induction false} TrimNextOrdered(ps: seq<Piece>, end: nat, stream: seq<byte>)
    requires Ordered(ps) && SlicesOf(ps, stream)
    ensures Ordered(TrimNext(ps, end)) && SlicesOf(TrimNext(ps, end), stream)
    ensures forall i :: 0 <= i < |TrimNext(ps, end)| ==> end <= TrimNext(ps, end)[i].pos
    ensures Marked(ps, stream) ==> Marked(TrimNext(ps, end), stream)
  {
    if ps == [] || end <= ps[0].pos {
    } else if end - ps[0].pos < |ps[0].data| {
    } else {
      TrimNextOrdered(ps[1..], end, stream);
    }
  }

  /** Trimming the successors gives up only bytes that lie below `end`. */
  lemma {:induction false} TrimNextCovers(ps: seq<Piece>, end: nat, x: nat)
    requires Ordered(ps)
    ensures Covers(TrimNext(ps, end), x) <==> Covers(ps, x) && end <= x
  {
    if ps == [] || end <= ps[0].pos {
      if Covers(ps, x) {
        var i :| 0 <= i < |ps| && ps[i].pos <= x < ps[i].End();
        assert i > 0 ==> ps[0].End() <= ps[i].pos;
      }
    } else {
      assert ps == [ps[0]] + ps[1..];
      CoversSplit([ps[0]], ps[1..], x);
      CoversOne(ps[0], x);
      if end - ps[0].pos < |ps[0].data| {
        var h := ps[0].Trim(end - ps[0].pos);
        CoversSplit([h], ps[1..], x);
        CoversOne(h, x);
        CoversBeyond(ps[1..], ps[0].End(), x);
      } else {
        TrimNextCovers(ps[1..], end, x);
      }
    }
  }

  lemma CoversOne(p: Piece, x: nat)
    ensures Covers([p], x) <==> p.pos <= x < p.End()
  {
    assert [p][0] == p;
  }

  lemma CoversBeyond(ps: seq<Piece>, bound: nat, x: nat)
    requires forall i :: 0 <= i < |ps| ==> bound <= ps[i].pos
    ensures Covers(ps, x) ==> bound <= x
  {
  }

  /** The list that `Insert` builds when the newcomer survives. */
  lemma SplicedOrdered(front: seq<Piece>, p: Piece, back: seq<Piece>)
    requires Ordered(front) && Ordered(back)
    requires forall i :: 0 <= i < |front| ==> front[i].End() <= p.pos
    requires forall i :: 0 <= i < |back| ==> p.End() <= back[i].pos
    ensures Ordered(front + [p] + back)
  {
    var r := front + [p] + back;
    forall i, j | 0 <= i < j < |r| ensures r[i].End() <= r[j].pos {
      assert i < |front| ==> r[i] == front[i];
      assert i > |front| ==> r[i] == back[i - |front| - 1];
      assert j > |front| ==> r[j] == back[j - |front| - 1];
    }
  }

  lemma InsertOrdered(ps: seq<Piece>, p: Piece, k: nat, stream: seq<byte>)
    requires Ordered(ps) && SlicesOf(ps, stream) && SliceOf(p, stream) && k <= |ps|
    requires forall i :: 0 <= i < k ==> ps[i].End() <= p.pos
    ensures var r := ps[..k] + [p] + TrimNext(ps[k..], p.End());
            Ordered(r) && SlicesOf(r, stream)
              && (Marked(ps, stream) && (p.End() == |stream| ==> p.last) ==> Marked(r, stream))
  {
    TrimNextOrdered(ps[k..], p.End(), stream);
    SplicedOrdered(ps[..k], p, TrimNext(ps[k..], p.End()));
    hide Ordered, TrimNext;
  }

  /** A piece before the insertion point ends no later than the one just before it. */
  lemma BeforeInsertion(ps: seq<Piece>, pos: nat)
    requires Ordered(ps)
    ensures var k := After(ps, pos); forall i :: 0 <= i < k ==> ps[i].End() <= ps[k - 1].End()
  {
  }

  /** Inserting a slice keeps the list sorted, disjoint and made of slices, whatever the overlap. */
  lemma InsertKeeps(ps: seq<Piece>, p: Piece, stream: seq<byte>)
    requires Ordered(ps) && SlicesOf(ps, stream) && SliceOf(p, stream)
    ensures Ordered(Insert(ps, p)) && SlicesOf(Insert(ps, p), stream)
    ensures Marked(ps, stream) && (p.End() == |stream| ==> p.last) ==> Marked(Insert(ps, p), stream)
  {
    var k := After(ps, p.pos);
    var i := Overlap(ps, p);
    BeforeInsertion(ps, p.pos);
    if i > 0 && i >= |p.data| {
    } else {
      InsertOrdered(ps, if i > 0 then p.Trim(i) else p, k, stream);
    }
  }

  lemma OrderedFrom(ps: seq<Piece>, x: nat)
    requires Ordered(ps) && ps != []
    ensures Covers(ps, x) ==> ps[0].pos <= x
  {
  }

  lemma SplicedCovers(front: seq<Piece>, p: Piece, back: seq<Piece>, x: nat)
    requires Ordered(back)
    ensures Covers(front + [p] + TrimNext(back, p.End()), x)
       <==> Covers(front, x) || p.pos <= x < p.End() || (Covers(back, x) && p.End() <= x)
  {
    CoversSplit(front + [p], TrimNext(back, p.End()), x);
    CoversSplit(front, [p], x);
    CoversOne(p, x);
    TrimNextCovers(back, p.End(), x);
  }

  /** After an insertion the list covers exactly what it covered before plus the newcomer. */
  lemma InsertCovers(ps: seq<Piece>, p: Piece, x: nat)
    requires Ordered(ps)
    ensures Covers(Insert(ps, p), x) <==> Covers(ps, x) || p.pos <= x < p.End()
  {
    hide TrimNext;
    var k := After(ps, p.pos);
    var i := Overlap(ps, p);
    if i > 0 && i >= |p.data| {
      assert p.pos <= x < p.End() ==> ps[k - 1].pos <= x < ps[k - 1].End();
    } else {
      var front, back := ps[..k], ps[k..];
      var q := if i > 0 then p.Trim(i) else p;
      assert ps == front + back;
      CoversSplit(front, back, x);
      SplicedCovers(front, q, back, x);
      if i > 0 && p.pos <= x < p.pos + i {
        assert front[k - 1].pos <= x < front[k - 1].End();
      }
      hide Covers;
      if back != [] {
        OrderedFrom(back, x);
      } else {
        CoversNone(x);
      }
    }
  }

  lemma CoversNone(x: nat)
    ensures !Covers([], x)
  {}
}
