/**
 * slirp's output queue (`if_output`, `if_start`).  Packets of one session (socket) form a list;
 * the lists sit on the fastq, which has absolute priority, or on the batchq, which is served one
 * packet per session in turn under the `next_m` cursor.  A greedy session is downgraded to the
 * front of the batchq.  A missing socket (`so == NULL`) is a session of its own.
 */
module OutputQueue {
  import opened Common

  type Session = Option<nat>

  /** An mbuf on the queue: its identity and ifq_so. */
  datatype Packet = Packet(id: nat, so: Session)

  type Lists = seq<seq<Packet>>

  /** Every list on the queue is a nonempty list of packets of one session. */
  ghost predicate WellFormed(q: Lists) {
    forall i :: 0 <= i < |q| ==> q[i] != [] && OneSession(q[i])
  }

  ghost predicate OneSession(l: seq<Packet>) {
    forall j :: 0 <= j < |l| ==> l[j].so == l[0].so
  }

  /** No session has two lists. */
  ghost predicate DistinctSessions(q: Lists)
    requires WellFormed(q)
  {
    forall i, j :: 0 <= i < j < |q| ==> q[i][0].so != q[j][0].so
  }

  ghost predicate NoList(q: Lists, s: Session)
    requires WellFormed(q)
  {
    forall i :: 0 <= i < |q| ==> q[i][0].so != s
  }

  /** The packets of session s on the queue, list after list. */
  ghost function PendingIn(q: Lists, s: Session): seq<Packet> {
    if q == [] then []
    else (if q[0] != [] && q[0][0].so == s then q[0] else []) + PendingIn(q[1..], s)
  }

  ghost function OfSession(xs: seq<Packet>, s: Session): seq<Packet> {
    if xs == [] then []
    else OfSession(xs[..|xs| - 1], s) + (if xs[|xs| - 1].so == s then [xs[|xs| - 1]] else [])
  }

  ghost function Count(q: Lists): nat {
    if q == [] then 0 else |q[0]| + Count(q[1..])
  }

  /** What if_start puts back after it has taken the head of a list. */
  function Rest(l: seq<Packet>): Lists
    requires l != []
  {
    if |l| == 1 then [] else [l[1..]]
  }

  /** Index of the list whose head is p. */
  function HeadIndex(q: Lists, p: Packet): (i: nat)
    ensures i <= |q|
    ensures i < |q| ==> q[i] != [] && q[i][0] == p
    ensures forall j :: 0 <= j < i ==> q[j] == [] || q[j][0] != p
  {
    if q == [] || (q[0] != [] && q[0][0] == p) then 0 else 1 + HeadIndex(q[1..], p)
  }

  lemma {:induction false} PendingConcat(a: Lists, b: Lists, s: Session)
    ensures PendingIn(a + b, s) == PendingIn(a, s) + PendingIn(b, s)
  {
    if a == [] {
      assert a + b == b;
    } else {
      assert (a + b)[1..] == a[1..] + b;
      PendingConcat(a[1..], b, s);
    }
  }

  lemma {:induction false} CountConcat(a: Lists, b: Lists)
    ensures Count(a + b) == Count(a) + Count(b)
  {
    if a == [] {
      assert a + b == b;
    } else {
      assert (a + b)[1..] == a[1..] + b;
      CountConcat(a[1..], b);
    }
  }

  lemma {:induction false} NoListPending(q: Lists, s: Session)
    requires WellFormed(q) && NoList(q, s)
    ensures PendingIn(q, s) == []
  {
    if q != [] {
      NoListPending(q[1..], s);
    }
  }

  lemma PendingOne(l: seq<Packet>, s: Session)
    requires l != []
    ensures PendingIn([l], s) == if l[0].so == s then l else []
  {
  }

  /** Replacing a list in the middle changes the pending packets of its session only. */
  lemma PendingMiddle(a: Lists, m: Lists, b: Lists, s: Session)
    ensures PendingIn(a + m + b, s) == PendingIn(a, s) + PendingIn(m, s) + PendingIn(b, s)
  {
    PendingConcat(a + m, b, s);
    PendingConcat(a, m, s);
  }

  lemma CountMiddle(a: Lists, m: Lists, b: Lists)
    ensures Count(a + m + b) == Count(a) + Count(m) + Count(b)
  {
    CountConcat(a + m, b);
    CountConcat(a, m);
  }

  ghost function One(p: Packet, s: Session): seq<Packet> {
    if p.so == s then [p] else []
  }

  lemma AppendKeepsForm(q: Lists, i: nat, p: Packet)
    requires WellFormed(q) && i < |q| && q[i][0].so == p.so
    ensures WellFormed(q[i := q[i] + [p]]) && Count(q[i := q[i] + [p]]) == Count(q) + 1
    ensures DistinctSessions(q) ==> DistinctSessions(q[i := q[i] + [p]])
  {
    var a, b := q[..i], q[i + 1..];
    assert q == a + [q[i]] + b;
    assert q[i := q[i] + [p]] == a + [q[i] + [p]] + b;
    CountMiddle(a, [q[i]], b);
    CountMiddle(a, [q[i] + [p]], b);
  }

  /** Appending to a list behind which its session has no other list. */
  lemma AppendAt(q: Lists, i: nat, p: Packet, s: Session)
    requires WellFormed(q) && i < |q| && q[i][0].so == p.so
    requires forall j :: i < j < |q| ==> q[j][0].so != p.so
    ensures PendingIn(q[i := q[i] + [p]], s) == PendingIn(q, s) + One(p, s)
  {
    hide PendingIn;
    var a, l, b := q[..i], q[i], q[i + 1..];
    assert q == a + [l] + b;
    assert q[i := l + [p]] == a + [l + [p]] + b;
    PendingMiddle(a, [l], b, s);
    PendingMiddle(a, [l + [p]], b, s);
    PendingOne(l, s);
    PendingOne(l + [p], s);
    if s == p.so {
      NoListPending(b, s);
    }
  }

  /** Opening a new list at the end of the queue. */
  lemma AppendNew(q: Lists, p: Packet, s: Session)
    requires WellFormed(q)
    ensures WellFormed(q + [[p]]) && PendingIn(q + [[p]], s) == PendingIn(q, s) + One(p, s)
      && Count(q + [[p]]) == Count(q) + 1
  {
    PendingConcat(q, [[p]], s);
    CountConcat(q, [[p]]);
    PendingOne([p], s);
  }

  lemma SendKeepsForm(q: Lists, i: nat)
    requires WellFormed(q) && i < |q|
    ensures var r := q[..i] + Rest(q[i]) + q[i + 1..];
            WellFormed(r) && (DistinctSessions(q) ==> DistinctSessions(r))
  {
    var r: Lists := q[..i] + Rest(q[i]) + q[i + 1..];
    forall k | 0 <= k < |r|
      ensures r[k] != [] && OneSession(r[k])
    {
      if k == i && |q[i]| > 1 {
        assert r[k] == q[i][1..];
      }
    }
    if DistinctSessions(q) {
      forall k, l | 0 <= k < l < |r|
        ensures r[k][0].so != r[l][0].so
      {
        var d := if |q[i]| > 1 then 0 else 1;
        var k', l' := if k < i then k else k + d, if l < i then l else l + d;
        assert r[k][0].so == q[k'][0].so && r[l][0].so == q[l'][0].so;
      }
    }
  }

  lemma MoveKeepsForm(q: Lists, i: nat)
    requires WellFormed(q) && DistinctSessions(q) && i < |q|
    ensures var r := [q[i]] + q[..i] + q[i + 1..];
            WellFormed(r) && DistinctSessions(r)
  {
  }

  lemma CountRest(l: seq<Packet>)
    requires l != []
    ensures Count([l]) == Count(Rest(l)) + 1
  {
  }

  lemma SendCount(q: Lists, i: nat)
    requires WellFormed(q) && i < |q|
    ensures Count(q) == Count(q[..i] + Rest(q[i]) + q[i + 1..]) + 1
  {
    hide Count;
    var a, l, b := q[..i], q[i], q[i + 1..];
    assert q == a + [l] + b;
    CountMiddle(a, [l], b);
    CountMiddle(a, Rest(l), b);
    CountRest(l);
  }

  lemma PendingRest(l: seq<Packet>, s: Session)
    requires l != [] && OneSession(l)
    ensures PendingIn([l], s) == One(l[0], s) + PendingIn(Rest(l), s)
  {
    PendingOne(l, s);
    if |l| > 1 {
      PendingOne(l[1..], s);
      assert l[1..][0] == l[1];
      assert l == [l[0]] + l[1..];
    }
  }

  /** Taking the head of a list before which its session has no other list. */
  lemma SendAt(q: Lists, i: nat, s: Session)
    requires WellFormed(q) && i < |q|
    requires forall j :: 0 <= j < i ==> q[j][0].so != q[i][0].so
    ensures PendingIn(q, s) == One(q[i][0], s) + PendingIn(q[..i] + Rest(q[i]) + q[i + 1..], s)
  {
    hide PendingIn;
    var a, l, b := q[..i], q[i], q[i + 1..];
    assert q == a + [l] + b;
    PendingMiddle(a, [l], b, s);
    PendingMiddle(a, Rest(l), b, s);
    PendingRest(l, s);
    if s == l[0].so {
      NoListPending(a, s);
    }
  }

  /** Moving a list of a queue of distinct sessions to the front disturbs no session. */
  lemma MoveFront(q: Lists, i: nat, s: Session)
    requires WellFormed(q) && DistinctSessions(q) && i < |q|
    ensures var r := [q[i]] + q[..i] + q[i + 1..];
            PendingIn(r, s) == PendingIn(q, s) && Count(r) == Count(q)
  {
    hide PendingIn;
    var a, l, b := q[..i], q[i], q[i + 1..];
    assert q == a + [l] + b;
    PendingMiddle(a, [l], b, s);
    PendingMiddle([l], a, b, s);
    CountMiddle(a, [l], b);
    CountMiddle([l], a, b);
    PendingOne(l, s);
    if s == l[0].so {
      NoListPending(a, s);
    }
  }

  /** Downgrading: the last fastq list of a session without batchq list goes to the batchq. */
  lemma Downgrade(fq: Lists, bq: Lists, l: seq<Packet>, s: Session)
    requires WellFormed(fq) && WellFormed(bq) && DistinctSessions(bq) && l != [] && OneSession(l)
    requires NoList(bq, l[0].so)
    ensures WellFormed([l] + bq) && DistinctSessions([l] + bq)
    ensures PendingIn(fq, s) + PendingIn([l] + bq, s) == PendingIn(fq + [l], s) + PendingIn(bq, s)
    ensures Count(fq) + Count([l] + bq) == Count(fq + [l]) + Count(bq)
  {
    hide PendingIn;
    PendingConcat(fq, [l], s);
    PendingConcat([l], bq, s);
    CountConcat(fq, [l]);
    CountConcat([l], bq);
  }

  /** All pending packets of a session: its fastq lists in order, then its batchq list. */
  ghost function Pend(fq: Lists, bq: Lists, s: Session): seq<Packet> {
    PendingIn(fq, s) + PendingIn(bq, s)
  }

  ghost predicate Shape(fq: Lists, bq: Lists) {
    WellFormed(fq) && WellFormed(bq) && DistinctSessions(bq)
  }

  lemma FastTaken(fq: Lists, bq: Lists)
    requires Shape(fq, bq) && fq != []
    ensures fq[0] != []
    ensures var r := fq[..0] + Rest(fq[0]) + fq[1..];
      && Shape(r, bq) && Count(r) == Count(fq) - 1
      && forall s :: Pend(fq, bq, s) == One(fq[0][0], s) + Pend(r, bq, s)
  {
    SendKeepsForm(fq, 0);
    SendCount(fq, 0);
    hide Pend, One, Count, DistinctSessions;
    var r := fq[..0] + Rest(fq[0]) + fq[1..];
    forall s ensures Pend(fq, bq, s) == One(fq[0][0], s) + Pend(r, bq, s) {
      FastPending(fq, bq, s);
    }
  }

  lemma FastPending(fq: Lists, bq: Lists, s: Session)
    requires WellFormed(fq) && fq != []
    ensures Pend(fq, bq, s) == One(fq[0][0], s) + Pend(fq[..0] + Rest(fq[0]) + fq[1..], bq, s)
  {
    SendAt(fq, 0, s);
    hide PendingIn, One, WellFormed, Rest;
  }

  ghost predicate CursorOk(bq: Lists, nextM: Option<Packet>) {
    nextM.Some? ==> exists i :: 0 <= i < |bq| && bq[i] != [] && bq[i][0] == nextM.value
  }

  /** The downgrade of a fastq list disturbs no session, and not the cursor. */
  lemma DowngradeAll(fq: Lists, bq: Lists, l: seq<Packet>, nextM: Option<Packet>)
    requires Shape(fq + [l], bq) && CursorOk(bq, nextM) && l != [] && NoList(bq, l[0].so)
    ensures Shape(fq, [l] + bq) && CursorOk([l] + bq, nextM)
    ensures forall s :: Pend(fq, [l] + bq, s) == Pend(fq + [l], bq, s)
    ensures Count(fq) + Count([l] + bq) == Count(fq + [l]) + Count(bq)
  {
    hide PendingIn, Count;
    assert (fq + [l])[|fq|] == l && forall j :: 0 <= j < |fq| ==> (fq + [l])[j] == fq[j];
    Downgrade(fq, bq, l, None);
    forall s ensures Pend(fq, [l] + bq, s) == Pend(fq + [l], bq, s) { Downgrade(fq, bq, l, s); }
    assert forall j :: 0 <= j < |bq| ==> ([l] + bq)[j + 1] == bq[j];
  }

  /** Neither does moving a batchq list to the front. */
  lemma MoveAll(fq: Lists, bq: Lists, i: nat, nextM: Option<Packet>)
    requires Shape(fq, bq) && CursorOk(bq, nextM) && i < |bq|
    ensures var r := [bq[i]] + bq[..i] + bq[i + 1..];
      Shape(fq, r) && CursorOk(r, nextM) && Count(r) == Count(bq) && forall s :: Pend(fq, r, s) == Pend(fq, bq, s)
  {
    hide PendingIn, Count;
    var r := [bq[i]] + bq[..i] + bq[i + 1..];
    MoveKeepsForm(bq, i);
    MoveFront(bq, i, None);
    forall s ensures Pend(fq, r, s) == Pend(fq, bq, s) { MoveFront(bq, i, s); }
    assert forall j :: 0 <= j < |bq| ==> bq[j] == r[if j == i then 0 else if j < i then j + 1 else j];
  }

  function Get(m: map<nat, nat>, n: nat): nat {
    if n in m then m[n] else 0
  }

  /** Conservation and order: per session, what was sent followed by what is pending is what
      arrived, in arrival order. */
  ghost predicate Fifo(fq: Lists, bq: Lists, sent: seq<Packet>, arrived: seq<Packet>) {
    forall s :: OfSession(sent, s) + Pend(fq, bq, s) == OfSession(arrived, s)
  }

  ghost predicate Counted(fq: Lists, bq: Lists, queued: map<nat, nat>) {
    forall n: nat :: Get(queued, n) == |Pend(fq, bq, Some(n))|
  }

  // What has happened to the queue, packet by packet.

  datatype Action = In(p: Packet) | Out(p: Packet)

  ghost function Ins(h: seq<Action>): seq<Packet> {
    if h == [] then []
    else Ins(h[..|h| - 1]) + if h[|h| - 1].In? then [h[|h| - 1].p] else []
  }

  ghost function Outs(h: seq<Action>): seq<Packet> {
    if h == [] then []
    else Outs(h[..|h| - 1]) + if h[|h| - 1].Out? then [h[|h| - 1].p] else []
  }

  /** How many packets of the session have come and not gone. */
  ghost function Left(h: seq<Action>, n: nat): int {
    |OfSession(Ins(h), Some(n))| - |OfSession(Outs(h), Some(n))|
  }

  /** How many have come since none was left. */
  ghost function Since(h: seq<Action>, n: nat): nat {
    if h == [] || Left(h, n) == 0 then 0
    else
      var a := h[|h| - 1];
      Since(h[..|h| - 1], n) + if a.In? && a.p.so == Some(n) then 1 else 0
  }

  /** The history accounts for arrivals, departures and the counts of unpaused packets. */
  ghost predicate Told(h: seq<Action>, arrived: seq<Packet>, sent: seq<Packet>, nqueued: map<nat, nat>) {
    Ins(h) == arrived && Outs(h) == sent && forall n: nat :: Get(nqueued, n) == Since(h, n)
  }

  /** Since the history g, k packets have gone and none has come. */
  ghost predicate Departures(h: seq<Action>, g: seq<Action>, k: int) {
    g <= h && |h| == |g| + k && forall i :: |g| <= i < |h| ==> h[i].Out?
  }

  lemma LeftIs(fq: Lists, bq: Lists, sent: seq<Packet>, arrived: seq<Packet>, queued: map<nat, nat>, h: seq<Action>,
               n: nat)
    requires Fifo(fq, bq, sent, arrived) && Counted(fq, bq, queued) && Ins(h) == arrived && Outs(h) == sent
    ensures Left(h, n) == Get(queued, n)
  {
    hide Pend, OfSession;
    assert OfSession(sent, Some(n)) + Pend(fq, bq, Some(n)) == OfSession(arrived, Some(n));
  }

  lemma ToldIn(h: seq<Action>, arrived: seq<Packet>, sent: seq<Packet>, nqueued: map<nat, nat>, queued: map<nat, nat>,
               p: Packet)
    requires Told(h, arrived, sent, nqueued)
    requires forall n: nat :: Left(h + [In(p)], n) == Get(queued, n)
    requires p.so.Some? ==> Get(queued, p.so.value) > 0
    ensures Told(h + [In(p)], arrived + [p], sent,
                 if p.so.Some? then nqueued[p.so.value := Get(nqueued, p.so.value) + 1] else nqueued)
  {
    var g := h + [In(p)];
    assert g[..|h|] == h;
    forall n: nat ensures Since(g, n) == Since(h, n) + if p.so == Some(n) then 1 else 0 {
      if p.so != Some(n) { OthersLeft(h, In(p), n); }
    }
  }

  lemma ToldOut(h: seq<Action>, arrived: seq<Packet>, sent: seq<Packet>, nqueued: map<nat, nat>, queued: map<nat, nat>,
                p: Packet)
    requires Told(h, arrived, sent, nqueued)
    requires forall n: nat :: Left(h + [Out(p)], n) == Get(queued, n)
    ensures Told(h + [Out(p)], arrived, sent + [p],
                 if p.so.Some? && Get(queued, p.so.value) == 0 then nqueued[p.so.value := 0] else nqueued)
  {
    var g := h + [Out(p)];
    assert g[..|h|] == h;
    forall n: nat ensures Since(g, n) == if Get(queued, n) == 0 then 0 else Since(h, n) {}
    forall n: nat | p.so != Some(n) && Get(queued, n) == 0 ensures Since(h, n) == 0 { OthersLeft(h, Out(p), n); }
  }

  /** What happens to a packet of another session does not change what is left. */
  lemma OthersLeft(h: seq<Action>, a: Action, n: nat)
    requires a.p.so != Some(n)
    ensures Left(h + [a], n) == Left(h, n)
  {
    assert (h + [a])[..|h|] == h;
    if a.In? {
      OfSessionAppend(Ins(h), a.p, Some(n));
      assert Ins(h + [a]) == Ins(h) + [a.p] && Outs(h + [a]) == Outs(h);
    } else {
      OfSessionAppend(Outs(h), a.p, Some(n));
      assert Outs(h + [a]) == Outs(h) + [a.p] && Ins(h + [a]) == Ins(h);
    }
    assert One(a.p, Some(n)) == [];
    hide OfSession;
  }

  // Where if_output puts a packet.

  /** Index of the session's list on the batchq. */
  function ListOf(q: Lists, s: Session): (i: nat)
    ensures i <= |q|
  {
    if q == [] || (q[0] != [] && q[0][0].so == s) then 0 else 1 + ListOf(q[1..], s)
  }

  /** On the fastq: behind its session's packets if they come last, otherwise as a list of its own. */
  function OnFast(fq: Lists, p: Packet): Lists {
    var k := |fq| - 1;
    if k >= 0 && fq[k] != [] && fq[k][0].so == p.so then fq[k := fq[k] + [p]] else fq + [[p]]
  }

  function OnBatch(bq: Lists, p: Packet): Lists {
    var i := ListOf(bq, p.so);
    if i < |bq| then bq[i := bq[i] + [p]] else bq + [[p]]
  }

  /** The fastq is for interactive sessions that have nothing on the batchq. */
  predicate GoesFast(bq: Lists, p: Packet, lowdelay: bool) {
    lowdelay && p.so.Some? && ListOf(bq, p.so) == |bq|
  }

  function ToFront(q: Lists, i: nat): Lists
    requires i < |q|
  {
    [q[i]] + q[..i] + q[i + 1..]
  }

  datatype Queues = Queues(fast: Lists, batch: Lists)

  /** Both queues after a packet has come; a greedy session's list goes to the front of the batchq. */
  function Arrived(fq: Lists, bq: Lists, p: Packet, lowdelay: bool, greedy: bool): Queues {
    if GoesFast(bq, p, lowdelay) then
      var f := OnFast(fq, p);
      if greedy then Queues(f[..|f| - 1], [f[|f| - 1]] + bq) else Queues(f, bq)
    else
      var b, i := OnBatch(bq, p), ListOf(bq, p.so);
      Queues(fq, if greedy then ToFront(b, i) else b)
  }

  lemma {:induction false} ListOfIs(q: Lists, s: Session, i: nat)
    requires WellFormed(q) && DistinctSessions(q) && i <= |q|
    requires if i < |q| then q[i][0].so == s else NoList(q, s)
    ensures ListOf(q, s) == i
  {
    if q != [] && q[0][0].so != s {
      ListOfIs(q[1..], s, i - 1);
    }
  }

  lemma NothingQueued()
    ensures Shape([], []) && CursorOk([], None) && Count([]) == 0 && Fifo([], [], [], [])
    ensures Counted([], [], map[]) && Told([], [], [], map[])
  {
    assert forall s :: Pend([], [], s) == [];
  }

  class Interface {
    var fastq: Lists
    var batchq: Lists
    var nextM: Option<Packet>     // None stands for the batchq sentinel
    var ifQueued: int
    var soQueued: map<nat, nat>
    var soNqueued: map<nat, nat>
    var sent: seq<Packet>         // everything passed to if_encap
    ghost var arrived: seq<Packet>
    ghost var hist: seq<Action>

    ghost predicate Valid()
      reads this
    {
      && Shape(fastq, batchq) && CursorOk(batchq, nextM)
      && ifQueued == Count(fastq) + Count(batchq)
      && Fifo(fastq, batchq, sent, arrived)
      && Counted(fastq, batchq, soQueued)
      && Told(hist, arrived, sent, soNqueued)
    }

    constructor ()
      ensures Valid() && sent == [] && arrived == [] && hist == [] && ifQueued == 0
    {
      fastq, batchq, nextM := [], [], None;
      ifQueued, soQueued, soNqueued := 0, map[], map[];
      sent, arrived, hist := [], [], [];
      NothingQueued();
      hide Shape, CursorOk, Count, Fifo, Counted, Told;
    }

    /** Look for the session on the batchq, from the back. */
    method FindBatch(so: Session) returns (i: nat)
      requires WellFormed(batchq)
      ensures i <= |batchq|
      ensures i < |batchq| ==> batchq[i][0].so == so
      ensures i == |batchq| ==> NoList(batchq, so)
    {
      i := |batchq|;
      while i > 0
        invariant i <= |batchq| && forall j :: i <= j < |batchq| ==> batchq[j][0].so != so
      {
        i := i - 1;
        if batchq[i][0].so == so {
          return;
        }
      }
      i := |batchq|;
    }

    /** The first half of if_output: put the packet on a list of its session.  `fast` and `i`
        locate that list. */
    method Place(ifm: Packet, lowdelay: bool) returns (fast: bool, i: nat)
      requires Shape(fastq, batchq) && CursorOk(batchq, nextM)
      modifies this`fastq, this`batchq
      ensures Shape(fastq, batchq) && CursorOk(batchq, nextM)
      ensures forall s :: Pend(fastq, batchq, s) == Pend(old(fastq), old(batchq), s) + One(ifm, s)
      ensures Count(fastq) + Count(batchq) == old(Count(fastq) + Count(batchq)) + 1
      ensures fast ==> i + 1 == |fastq| && fastq[i] != [] && fastq[i][0].so == ifm.so && NoList(batchq, ifm.so)
      ensures !fast ==> i < |batchq| && batchq[i] != [] && batchq[i][0].so == ifm.so
      ensures fast <==> lowdelay && ifm.so.Some? && NoList(old(batchq), ifm.so)
      ensures fast == GoesFast(old(batchq), ifm, lowdelay) && (!fast ==> i == ListOf(old(batchq), ifm.so))
      ensures Queues(fastq, batchq) == Arrived(old(fastq), old(batchq), ifm, lowdelay, false)
    {
      i := FindBatch(ifm.so);
      ListOfIs(batchq, ifm.so, i);
      if i < |batchq| {
        fast := false;
        PlaceBatch(i, ifm);
      } else if ifm.so.Some? && lowdelay {
        fast := true;
        PlaceFast(ifm);
        i := |fastq| - 1;
      } else {
        fast := false;
        i := |batchq|;
        PlaceNew(ifm);
      }
    }

    method PlaceBatch(i: nat, ifm: Packet)
      requires Shape(fastq, batchq) && CursorOk(batchq, nextM) && i < |batchq| && batchq[i][0].so == ifm.so
      modifies this`batchq
      ensures Shape(fastq, batchq) && CursorOk(batchq, nextM) && i < |batchq| && batchq[i][0].so == ifm.so
      ensures forall s :: Pend(fastq, batchq, s) == Pend(old(fastq), old(batchq), s) + One(ifm, s)
      ensures Count(batchq) == old(Count(batchq)) + 1
      ensures batchq == old(batchq)[i := old(batchq)[i] + [ifm]]
    {
      ghost var bq := batchq;
      batchq := batchq[i := batchq[i] + [ifm]];
      AppendKeepsForm(bq, i, ifm);
      forall s
        ensures Pend(fastq, batchq, s) == Pend(fastq, bq, s) + One(ifm, s)
      {
        AppendAt(bq, i, ifm, s);
      }
      assert forall j :: 0 <= j < |bq| ==> batchq[j][0] == bq[j][0];
    }

    method PlaceFast(ifm: Packet)
      requires Shape(fastq, batchq) && NoList(batchq, ifm.so)
      modifies this`fastq
      ensures Shape(fastq, batchq) && fastq != [] && fastq[|fastq| - 1][0].so == ifm.so
      ensures forall s :: Pend(fastq, batchq, s) == Pend(old(fastq), old(batchq), s) + One(ifm, s)
      ensures Count(fastq) == old(Count(fastq)) + 1
      ensures fastq == OnFast(old(fastq), ifm)
    {
      ghost var fq := fastq;
      var last := |fastq| - 1;
      if last >= 0 && fastq[last][0].so == ifm.so {
        fastq := fastq[last := fastq[last] + [ifm]];
        AppendKeepsForm(fq, last, ifm);
      } else {
        fastq := fastq + [[ifm]];
        AppendNew(fq, ifm, ifm.so);
      }
      NoListPending(batchq, ifm.so);
      forall s
        ensures Pend(fastq, batchq, s) == Pend(fq, batchq, s) + One(ifm, s)
      {
        if last >= 0 && fq[last][0].so == ifm.so {
          AppendAt(fq, last, ifm, s);
        } else {
          AppendNew(fq, ifm, s);
        }
      }
    }

    method PlaceNew(ifm: Packet)
      requires Shape(fastq, batchq) && CursorOk(batchq, nextM) && NoList(batchq, ifm.so)
      modifies this`batchq
      ensures Shape(fastq, batchq) && CursorOk(batchq, nextM) && batchq == old(batchq) + [[ifm]]
      ensures forall s :: Pend(fastq, batchq, s) == Pend(old(fastq), old(batchq), s) + One(ifm, s)
      ensures Count(batchq) == old(Count(batchq)) + 1
    {
      ghost var bq := batchq;
      batchq := batchq + [[ifm]];
      AppendNew(bq, ifm, ifm.so);
      forall s
        ensures Pend(fastq, batchq, s) == Pend(fastq, bq, s) + One(ifm, s)
      {
        AppendNew(bq, ifm, s);
      }
      assert forall j :: 0 <= j < |bq| ==> batchq[j] == bq[j];
    }

    /** The downgrade: the list goes to the front of the batchq, from whichever queue it is on
        (the source never clears `on_fastq`). */
    method Demote(fast: bool, i: nat)
      requires Shape(fastq, batchq) && CursorOk(batchq, nextM)
      requires if fast then i + 1 == |fastq| && NoList(batchq, fastq[i][0].so) else i < |batchq|
      modifies this`fastq, this`batchq
      ensures Shape(fastq, batchq) && CursorOk(batchq, nextM)
      ensures forall s :: Pend(fastq, batchq, s) == Pend(old(fastq), old(batchq), s)
      ensures Count(fastq) + Count(batchq) == old(Count(fastq) + Count(batchq))
      ensures batchq == if fast then [old(fastq)[i]] + old(batchq)
        else [old(batchq)[i]] + old(batchq)[..i] + old(batchq)[i + 1..]
      ensures fastq == if fast then old(fastq)[..i] else old(fastq)
    {
      hide PendingIn, Count, Pend, CursorOk;
      if fast {
        assert fastq == fastq[..i] + [fastq[i]];
        DowngradeAll(fastq[..i], batchq, fastq[i], nextM);
        batchq := [fastq[i]] + batchq;
        fastq := fastq[..i];
      } else {
        MoveAll(fastq, batchq, i, nextM);
        batchq := [batchq[i]] + batchq[..i] + batchq[i + 1..];
      }
    }

    /** With the packet that is coming, the session has queued six packets without pausing, and three of
        them are gone. */
    predicate Greedy(so: Session)
      reads this
    {
      so.Some? && Get(soNqueued, so.value) + 1 >= 6 && Get(soNqueued, so.value) - Get(soQueued, so.value) as int >= 3
    }

    /** Which the history tells. */
    lemma GreedyIs(n: nat)
      requires Valid()
      ensures Greedy(Some(n)) <==> Since(hist, n) + 1 >= 6 && Since(hist, n) - Left(hist, n) >= 3
    {
      hide Shape, CursorOk;
      LeftIs(fastq, batchq, sent, arrived, soQueued, hist, n);
      hide Fifo, Counted, Left, Since;
    }

    /** if_output up to its closing call of if_start: where the packet goes. */
    method Enqueue(ifm: Packet, lowdelay: bool)
      requires Valid()
      modifies this
      ensures Valid() && arrived == old(arrived) + [ifm] && sent == old(sent) && ifQueued == old(ifQueued) + 1
      ensures hist == old(hist) + [In(ifm)] && nextM == old(nextM)
      ensures Queues(fastq, batchq) == Arrived(old(fastq), old(batchq), ifm, lowdelay, old(Greedy(ifm.so)))
      ensures old(Greedy(ifm.so)) ==> batchq != [] && batchq[0] != [] && batchq[0][0].so == ifm.so
      ensures !old(Greedy(ifm.so)) ==>
        if lowdelay && ifm.so.Some? && NoList(old(batchq), ifm.so)
        then fastq != [] && fastq[|fastq| - 1] != [] && fastq[|fastq| - 1][0].so == ifm.so
        else exists i :: 0 <= i < |batchq| && batchq[i] != [] && batchq[i][0].so == ifm.so
    {
      hide Pend, Fifo, Counted, Count, Shape, Told, OnFast, OnBatch, GoesFast, ListOf;
      ghost var fq, bq := fastq, batchq;
      ghost var queued := if ifm.so.Some? then soQueued[ifm.so.value := Get(soQueued, ifm.so.value) + 1] else soQueued;
      var fast, i := Place(ifm, lowdelay);
      FifoArrive(fq, bq, fastq, batchq, sent, arrived, ifm);
      CountedArrive(fq, bq, fastq, batchq, soQueued, ifm);
      HistoryIn(fastq, batchq, sent, arrived, queued, hist, soNqueued, ifm);
      arrived := arrived + [ifm];
      hist := hist + [In(ifm)];
      ifQueued := ifQueued + 1;
      if ifm.so.Some? {
        var n := ifm.so.value;
        soQueued := soQueued[n := Get(soQueued, n) + 1];
        soNqueued := soNqueued[n := Get(soNqueued, n) + 1];
        var inFlight: int := soNqueued[n] - soQueued[n] as int;
        if soNqueued[n] >= 6 && inFlight >= 3 {
          Downgraded(ifm, fast, i);
        }
      }
    }

    /** The downgrade, with everything accounted for. */
    method Downgraded(ghost ifm: Packet, fast: bool, i: nat)
      requires Valid()
      requires if fast then i + 1 == |fastq| && NoList(batchq, fastq[i][0].so) else i < |batchq|
      modifies this`fastq, this`batchq
      ensures Valid()
      ensures batchq == if fast then [old(fastq)[i]] + old(batchq) else ToFront(old(batchq), i)
      ensures fastq == if fast then old(fastq)[..i] else old(fastq)
    {
      hide Pend, Fifo, Counted, Count, Told, PendingIn;
      ghost var fq, bq := fastq, batchq;
      Demote(fast, i);
      SamePending(fq, bq, fastq, batchq, sent, arrived, soQueued);
    }

    /** One round of if_start: the head of the first fastq list if there is one, otherwise the
        packet under the cursor.  It is the oldest pending packet of its session. */
    method SendOne() returns (ifm: Packet)
      requires Valid() && ifQueued > 0
      modifies this
      ensures Valid() && sent == old(sent) + [ifm] && arrived == old(arrived) && ifQueued == old(ifQueued) - 1
      ensures hist == old(hist) + [Out(ifm)]
      ensures old(fastq) != [] ==>
        ifm == old(fastq)[0][0] && fastq == Rest(old(fastq)[0]) + old(fastq)[1..] && batchq == old(batchq)
        && nextM == old(nextM)
      ensures old(fastq) == [] ==> fastq == [] && old(batchq) != []
      ensures old(fastq) == [] ==>
        var i := CursorIndex(old(batchq), old(nextM));
        i < |old(batchq)| && ifm == old(batchq)[i][0] &&
        batchq == old(batchq)[..i] + Rest(old(batchq)[i]) + old(batchq)[i + 1..] &&
        nextM == if i + 1 < |old(batchq)| then Some(old(batchq)[i + 1][0]) else None
    {
      hide Pend, Fifo, Counted, Told, CursorOk, DistinctSessions, OneSession;
      if fastq != [] {
        ifm := TakeFast();
      } else {
        ifm := TakeBatch();
      }
      ifQueued := ifQueued - 1;
      FifoSend(old(fastq), old(batchq), fastq, batchq, sent, arrived, ifm);
      CountedSend(old(fastq), old(batchq), fastq, batchq, soQueued, ifm);
      ghost var queued := if ifm.so.Some? then soQueued[ifm.so.value := Get(soQueued, ifm.so.value) - 1] else soQueued;
      HistoryOut(fastq, batchq, sent, arrived, queued, hist, soNqueued, ifm);
      hist := hist + [Out(ifm)];
      if ifm.so.Some? {
        var n := ifm.so.value;
        soQueued := soQueued[n := Get(soQueued, n) - 1];
        if soQueued[n] == 0 {
          soNqueued := soNqueued[n := 0];
        }
      }
      sent := sent + [ifm];
    }

    method TakeFast() returns (ifm: Packet)
      requires Shape(fastq, batchq) && fastq != []
      modifies this`fastq
      ensures Shape(fastq, batchq) && ifm == old(fastq)[0][0] && fastq == Rest(old(fastq)[0]) + old(fastq)[1..]
      ensures forall s :: Pend(old(fastq), old(batchq), s) == One(ifm, s) + Pend(fastq, batchq, s)
      ensures Count(fastq) == Count(old(fastq)) - 1
    {
      ghost var fq := fastq;
      ifm := fastq[0][0];
      fastq := Rest(fastq[0]) + fastq[1..];
      assert fastq == fq[..0] + Rest(fq[0]) + fq[1..];
      FastTaken(fq, batchq);
      hide WellFormed, PendingIn, Count, DistinctSessions, One, Pend;
    }

    method TakeBatch() returns (ifm: Packet)
      requires Shape(fastq, batchq) && CursorOk(batchq, nextM) && fastq == [] && batchq != []
      modifies this`batchq, this`nextM
      ensures Shape(fastq, batchq) && CursorOk(batchq, nextM)
      ensures forall s :: Pend(old(fastq), old(batchq), s) == One(ifm, s) + Pend(fastq, batchq, s)
      ensures Count(batchq) == Count(old(batchq)) - 1
      ensures var i := CursorIndex(old(batchq), old(nextM));
        i < |old(batchq)| && ifm == old(batchq)[i][0] &&
        batchq == old(batchq)[..i] + Rest(old(batchq)[i]) + old(batchq)[i + 1..] &&
        nextM == if i + 1 < |old(batchq)| then Some(old(batchq)[i + 1][0]) else None
    {
      ghost var bq := batchq;
      var i := CursorIndex(batchq, nextM);
      ifm := batchq[i][0];
      nextM := if i + 1 < |batchq| then Some(batchq[i + 1][0]) else None;
      batchq := batchq[..i] + Rest(batchq[i]) + batchq[i + 1..];
      SendKeepsForm(bq, i);
      SendCount(bq, i);
      forall s
        ensures Pend(fastq, bq, s) == One(ifm, s) + Pend(fastq, batchq, s)
      {
        SendAt(bq, i, s);
      }
      if i + 1 < |bq| {
        var k := i + |Rest(bq[i])|;
        assert batchq[k] == bq[i + 1];
      }
    }

    /** if_start, when slirp_can_output holds `budget` more times. */
    method IfStart(budget: nat)
      requires Valid()
      modifies this
      ensures Valid() && arrived == old(arrived) && old(sent) <= sent
      ensures Departures(hist, old(hist), |sent| - |old(sent)|)
      ensures |sent| == |old(sent)| + (if budget < old(ifQueued) then budget else old(ifQueued))
      ensures ifQueued == old(ifQueued) - (|sent| - |old(sent)|)
      ensures budget == 0 ==> fastq == old(fastq) && batchq == old(batchq)
    {
      hide Fifo, Counted, Told;
      var left := budget;
      while ifQueued > 0 && left > 0
        invariant Valid() && arrived == old(arrived) && old(sent) <= sent
        invariant Departures(hist, old(hist), |sent| - |old(sent)|)
        invariant left >= 0 && |sent| == |old(sent)| + budget - left && ifQueued == old(ifQueued) - (budget - left)
        invariant ifQueued >= 0
        invariant left == budget ==> fastq == old(fastq) && batchq == old(batchq)
        decreases left
      {
        var _ := SendOne();
        left := left - 1;
      }
    }

    /** if_output: the packet is queued where it belongs, and as many packets leave as the link takes. */
    method IfOutput(ifm: Packet, lowdelay: bool, budget: nat)
      requires Valid()
      modifies this
      ensures Valid() && arrived == old(arrived) + [ifm] && old(sent) <= sent
      ensures Departures(hist, old(hist) + [In(ifm)], |sent| - |old(sent)|)
      ensures |sent| == |old(sent)| + Min(budget, old(ifQueued) + 1)
      ensures budget == 0 ==>
        Queues(fastq, batchq) == Arrived(old(fastq), old(batchq), ifm, lowdelay, old(Greedy(ifm.so)))
      ensures ifQueued == old(ifQueued) + 1 - (|sent| - |old(sent)|)
      ensures budget == 0 ==> (old(Greedy(ifm.so)) ==> batchq != [] && batchq[0] != [] && batchq[0][0].so == ifm.so)
      ensures budget == 0 && !old(Greedy(ifm.so)) ==>
        if lowdelay && ifm.so.Some? && NoList(old(batchq), ifm.so)
        then fastq != [] && fastq[|fastq| - 1] != [] && fastq[|fastq| - 1][0].so == ifm.so
        else exists i :: 0 <= i < |batchq| && batchq[i] != [] && batchq[i][0].so == ifm.so
    {
      hide Fifo, Counted, Shape, CursorOk, Count, NoList, Greedy;
      Enqueue(ifm, lowdelay);
      IfStart(budget);
    }

    /** One step of a pass: the list m[0], which the cursor stands before, sends its head. */
    method ServeOne(ghost p: Lists, ghost m: Lists, ghost s: Lists)
      requires Valid() && fastq == [] && batchq == p + m + s && m != [] && WellFormed(m)
      requires CursorIndex(batchq, nextM) == |p|
      modifies this
      ensures Valid() && fastq == [] && batchq == p + Rest(m[0]) + m[1..] + s && arrived == old(arrived)
      ensures sent == old(sent) + [m[0][0]]
      ensures m[1..] + s == [] ==> nextM == None
      ensures m[1..] + s != [] ==> (m[1..] + s)[0] != [] && nextM == Some((m[1..] + s)[0][0])
      ensures m[1..] + s != [] ==> CursorIndex(batchq, nextM) == |p + Rest(m[0])|
    {
      hide Fifo, Counted;
      ServeStep(p, m, s);
      CountPositive(batchq);
      ghost var b := batchq;
      var ifm := SendOne();
      if |b| > |p| + 1 {
        assert b[|p| + 1] == b[|p| + 1..][0];
        HeadIndexAt(batchq, |p + Rest(m[0])|);
      }
    }

    /** Serve the lists m of the batchq, which the cursor stands before, once each. */
    method Serve(n: nat, ghost p: Lists, ghost m: Lists, ghost s: Lists)
      requires Valid() && fastq == [] && n == |m| && batchq == p + m + s && WellFormed(m)
      requires m != [] ==> CursorIndex(batchq, nextM) == |p|
      modifies this
      ensures Valid() && fastq == [] && batchq == p + Served(m) + s && arrived == old(arrived)
      ensures sent == old(sent) + Heads(m)
      ensures m == [] ==> nextM == old(nextM)
      ensures m != [] && s == [] ==> nextM == None
      decreases n
    {
      ServedFirst(p, m, s, sent);
      hide Valid, WellFormed, Served, Heads, Rest, CursorIndex;
      if n > 0 {
        ServeOne(p, m, s);
        Serve(n - 1, p + Rest(m[0]), m[1..], s);
      }
    }

    /** A full pass with the fastq empty and no arrivals: every batchq session sends exactly one
        packet, its oldest, before any sends a second, starting under the cursor. */
    method RoundRobinPass()
      requires Valid() && fastq == []
      modifies this
      ensures Valid() && fastq == [] && arrived == old(arrived)
      ensures var k := CursorIndex(old(batchq), old(nextM));
              k <= |old(batchq)| && sent == old(sent) + Heads(old(batchq)[k..]) + Heads(old(batchq)[..k])
    {
      hide Fifo, Counted;
      var n, k := |batchq|, CursorIndex(batchq, nextM);
      ghost var b := batchq;
      assert b == b[..k] + b[k..] + [];
      Serve(n - k, b[..k], b[k..], []);
      assert batchq == [] + b[..k] + Served(b[k..]);
      Serve(k, [], b[..k], Served(b[k..]));
    }
  }

  ghost function Heads(q: Lists): seq<Packet>
    requires WellFormed(q)
  {
    seq(|q|, i requires 0 <= i < |q| => q[i][0])
  }

  /** The lists after each has lost its head. */
  ghost function Served(q: Lists): Lists
    requires WellFormed(q)
  {
    if q == [] then [] else Rest(q[0]) + Served(q[1..])
  }

  lemma ServedFirst(p: Lists, m: Lists, s: Lists, sent: seq<Packet>)
    requires WellFormed(m)
    ensures m == [] ==> p + Served(m) + s == p + m + s && sent + Heads(m) == sent
    ensures m != [] ==>
      && m[0] != [] && WellFormed(m[1..]) && |m[1..] + s| == |m| - 1 + |s|
      && p + Rest(m[0]) + Served(m[1..]) + s == p + Served(m) + s
      && sent + [m[0][0]] + Heads(m[1..]) == sent + Heads(m)
  {
    if m != [] {
      HeadsFirst(m);
      var r, t, h, k := Rest(m[0]), Served(m[1..]), m[0][0], Heads(m[1..]);
      assert Served(m) == r + t;
      hide *;
      assert p + r + t == p + (r + t);
      assert sent + [h] + k == sent + ([h] + k);
    }
  }

  lemma HeadsFirst(m: Lists)
    requires WellFormed(m) && m != []
    ensures Heads(m) == [m[0][0]] + Heads(m[1..])
  {}

  lemma ServeStep(p: Lists, m: Lists, s: Lists)
    requires m != [] && WellFormed(m)
    ensures var b := p + m + s;
            b[|p|] == m[0] && b[|p| + 1..] == m[1..] + s
              && b[..|p|] + Rest(m[0]) + b[|p| + 1..] == p + Rest(m[0]) + m[1..] + s
  {
  }

  lemma HeadIndexAt(q: Lists, i: nat)
    requires WellFormed(q) && DistinctSessions(q) && i < |q|
    ensures HeadIndex(q, q[i][0]) == i
  {
  }

  lemma CountPositive(q: Lists)
    requires WellFormed(q) && q != []
    ensures Count(q) > 0
  {
  }

  datatype Event = Output(ifm: Packet, lowdelay: bool, budget: nat) | Start(budget: nat)

  ghost function Arrivals(events: seq<Event>): seq<Packet> {
    if events == [] then []
    else Arrivals(events[..|events| - 1]) + (match events[|events| - 1] case Output(p, _, _) => [p] case Start(_) => [])
  }

  /** How many packets the link has taken: at each event all that are there, up to its budget. */
  ghost function Sends(events: seq<Event>): (n: int)
    ensures 0 <= n <= |Arrivals(events)|
  {
    if events == [] then 0
    else
      var before := Sends(events[..|events| - 1]);
      before + Min(events[|events| - 1].budget, |Arrivals(events)| - before)
  }

  /** A history without the identity of the packets that have gone. */
  ghost function Skeleton(h: seq<Action>): seq<Option<Packet>> {
    seq(|h|, i requires 0 <= i < |h| => if h[i].In? then Some(h[i].p) else None)
  }

  /** What the events make of it: an arrival, then as many departures as the budget allows. */
  ghost function Expected(events: seq<Event>): seq<Option<Packet>> {
    if events == [] then []
    else
      var before, e := events[..|events| - 1], events[|events| - 1];
      Expected(before) + (if e.Output? then [Some(e.ifm)] else []) + seq(Sends(events) - Sends(before), _ => None)
  }

  /** The last event has brought a packet of a session that has then queued six without pausing, with
      three of them gone, and no packet has left since. */
  ghost predicate Overdone(events: seq<Event>, h: seq<Action>) {
    events != [] &&
    var e := events[|events| - 1];
    && e.Output? && e.budget == 0 && e.ifm.so.Some?
    && Since(h, e.ifm.so.value) >= 6 && Since(h, e.ifm.so.value) - Left(h, e.ifm.so.value) >= 3
  }

  lemma ExpectedNext(before: seq<Event>, e: Event)
    ensures Expected(before + [e]) == Expected(before) + (if e.Output? then [Some(e.ifm)] else [])
                                      + seq(Sends(before + [e]) - Sends(before), _ => None)
  {
    assert (before + [e])[..|before|] == before;
  }

  lemma SkeletonOn(g: seq<Action>, h: seq<Action>, k: int)
    requires Departures(h, g, k) && k >= 0
    ensures Skeleton(h) == Skeleton(g) + seq(k, _ => None)
  {}

  lemma SkeletonIn(h: seq<Action>, p: Packet)
    ensures Skeleton(h + [In(p)]) == Skeleton(h) + [Some(p)]
  {}

  /** Overdone is what if_output finds greedy. */
  lemma OverdoneIs(q: Interface, before: seq<Event>, e: Event)
    requires q.Valid() && e.Output?
    ensures Overdone(before + [e], q.hist + [In(e.ifm)]) ==> q.Greedy(e.ifm.so)
  {
    hide Interface.Valid, Interface.Greedy, Since, Left;
    if e.ifm.so.Some? {
      var n := e.ifm.so.value;
      q.GreedyIs(n);
      SinceIn(q.hist, e.ifm, n);
      assert (before + [e])[|before|] == e;
    }
  }

  lemma SinceIn(h: seq<Action>, p: Packet, n: nat)
    requires p.so == Some(n)
    ensures Left(h + [In(p)], n) == Left(h, n) + 1 && Since(h + [In(p)], n) <= Since(h, n) + 1
  {
    assert (h + [In(p)])[..|h|] == h;
    OfSessionAppend(Ins(h), p, Some(n));
    assert Ins(h + [In(p)]) == Ins(h) + [p] && Outs(h + [In(p)]) == Outs(h);
    hide OfSession;
  }

  /** Every interleaving of arrivals and transmissions conserves packets and keeps each session
      in order; as many packets leave as the budgets of the events allow, the counters are the true
      counts and the cursor is never dangling. */
  method Run(events: seq<Event>) returns (q: Interface)
    ensures fresh(q) && q.Valid()
    ensures forall s :: OfSession(q.sent, s) + Pend(q.fastq, q.batchq, s) == OfSession(Arrivals(events), s)
    ensures forall n: nat :: Get(q.soQueued, n) == |Pend(q.fastq, q.batchq, Some(n))|
    ensures |q.sent| == Sends(events) && Ins(q.hist) == Arrivals(events) && Outs(q.hist) == q.sent
    ensures Skeleton(q.hist) == Expected(events)
    ensures forall n: nat :: Get(q.soNqueued, n) == Since(q.hist, n)
    ensures Overdone(events, q.hist) ==>
      q.batchq != [] && q.batchq[0] != [] && q.batchq[0][0].so == events[|events| - 1].ifm.so
    ensures q.ifQueued == Count(q.fastq) + Count(q.batchq) == |Arrivals(events)| - Sends(events)
    ensures q.nextM.Some? ==> exists i :: 0 <= i < |q.batchq| && q.batchq[i] != [] && q.batchq[i][0] == q.nextM.value
  {
    hide Overdone, Skeleton, Expected, Arrivals, Sends;
    q := new Interface();
    RunStarts();
    assert events[..0] == [];
    for i := 0 to |events|
      invariant fresh(q) && q.Valid() && Underway(q, events[..i])
    {
      assert events[..i + 1] == events[..i] + [events[i]];
      RunStep(q, events[i], events[..i]);
    }
    assert events[..|events|] == events;
    hide Shape, Fifo, Counted, Since;
  }

  /** What the events so far have made of the queue. */
  ghost predicate Underway(q: Interface, events: seq<Event>)
    reads q
  {
    && q.arrived == Arrivals(events) && |q.sent| == Sends(events) && q.ifQueued == |Arrivals(events)| - Sends(events)
    && Skeleton(q.hist) == Expected(events)
    && (Overdone(events, q.hist) ==>
          q.batchq != [] && q.batchq[0] != [] && q.batchq[0][0].so == events[|events| - 1].ifm.so)
  }

  lemma RunStarts()
    ensures Arrivals([]) == [] && Sends([]) == 0 && Expected([]) == [] == Skeleton([]) && !Overdone([], [])
  {
  }

  method RunStep(q: Interface, e: Event, ghost before: seq<Event>)
    requires q.Valid() && Underway(q, before)
    modifies q
    ensures q.Valid() && Underway(q, before + [e])
  {
    hide Interface.Valid, Interface.Greedy, Overdone, Expected, Arrived, Skeleton, Fifo;
    ghost var h, n := q.hist, |q.sent|;
    assert (before + [e])[..|before|] == before;
    ExpectedNext(before, e);
    match e
    case Output(ifm, lowdelay, budget) =>
      OverdoneIs(q, before, e);
      q.IfOutput(ifm, lowdelay, budget);
      if budget == 0 { assert q.hist == h + [In(ifm)]; }
      OverdoneOutput(before, e, q.hist);
      SkeletonOn(h + [In(ifm)], q.hist, |q.sent| - n);
      SkeletonIn(h, ifm);
    case Start(budget) =>
      q.IfStart(budget);
      OverdoneOutput(before, e, q.hist);
      SkeletonOn(h, q.hist, |q.sent| - n);
  }

  lemma OverdoneOutput(before: seq<Event>, e: Event, h: seq<Action>)
    ensures Overdone(before + [e], h) ==> e.Output? && e.budget == 0
  {
  }

  /** The list next_m points to; the first one when it is the sentinel. */
  function CursorIndex(bq: Lists, nextM: Option<Packet>): nat {
    if nextM.Some? then HeadIndex(bq, nextM.value) else 0
  }

  lemma OfSessionAppend(xs: seq<Packet>, p: Packet, s: Session)
    ensures OfSession(xs + [p], s) == OfSession(xs, s) + One(p, s)
  {
    assert (xs + [p])[..|xs|] == xs;
  }

  lemma HistoryIn(fq: Lists, bq: Lists, sent: seq<Packet>, arrived: seq<Packet>, queued: map<nat, nat>, h: seq<Action>,
                  nqueued: map<nat, nat>, p: Packet)
    requires Told(h, arrived, sent, nqueued) && Fifo(fq, bq, sent, arrived + [p]) && Counted(fq, bq, queued)
    requires p.so.Some? ==> Get(queued, p.so.value) > 0
    ensures Told(h + [In(p)], arrived + [p], sent,
                 if p.so.Some? then nqueued[p.so.value := Get(nqueued, p.so.value) + 1] else nqueued)
  {
    hide Fifo, Counted, Since, Left;
    assert (h + [In(p)])[..|h|] == h;
    forall n: nat ensures Left(h + [In(p)], n) == Get(queued, n) {
      LeftIs(fq, bq, sent, arrived + [p], queued, h + [In(p)], n);
    }
    ToldIn(h, arrived, sent, nqueued, queued, p);
  }

  lemma HistoryOut(fq: Lists, bq: Lists, sent: seq<Packet>, arrived: seq<Packet>, queued: map<nat, nat>, h: seq<Action>,
                   nqueued: map<nat, nat>, p: Packet)
    requires Told(h, arrived, sent, nqueued) && Fifo(fq, bq, sent + [p], arrived) && Counted(fq, bq, queued)
    ensures Told(h + [Out(p)], arrived, sent + [p],
                 if p.so.Some? && Get(queued, p.so.value) == 0 then nqueued[p.so.value := 0] else nqueued)
  {
    hide Fifo, Counted, Since, Left;
    assert (h + [Out(p)])[..|h|] == h;
    forall n: nat ensures Left(h + [Out(p)], n) == Get(queued, n) {
      LeftIs(fq, bq, sent + [p], arrived, queued, h + [Out(p)], n);
    }
    ToldOut(h, arrived, sent, nqueued, queued, p);
  }

  lemma FifoArrive(fq: Lists, bq: Lists, fq': Lists, bq': Lists, sent: seq<Packet>, arrived: seq<Packet>, p: Packet)
    requires Fifo(fq, bq, sent, arrived)
    requires forall s :: Pend(fq', bq', s) == Pend(fq, bq, s) + One(p, s)
    ensures Fifo(fq', bq', sent, arrived + [p])
  {
    hide OfSession, Pend, One;
    forall s
      ensures OfSession(sent, s) + Pend(fq', bq', s) == OfSession(arrived + [p], s)
    {
      OfSessionAppend(arrived, p, s);
      assert OfSession(sent, s) + Pend(fq, bq, s) == OfSession(arrived, s);
    }
  }

  lemma FifoSend(fq: Lists, bq: Lists, fq': Lists, bq': Lists, sent: seq<Packet>, arrived: seq<Packet>, p: Packet)
    requires Fifo(fq, bq, sent, arrived)
    requires forall s :: Pend(fq, bq, s) == One(p, s) + Pend(fq', bq', s)
    ensures Fifo(fq', bq', sent + [p], arrived)
  {
    forall s
      ensures OfSession(sent + [p], s) + Pend(fq', bq', s) == OfSession(arrived, s)
    {
      OfSessionAppend(sent, p, s);
      Shift(OfSession(sent, s), Pend(fq, bq, s), One(p, s), Pend(fq', bq', s), OfSession(arrived, s));
    }
  }

  lemma Shift(done: seq<Packet>, todo: seq<Packet>, next: seq<Packet>, rest: seq<Packet>, all: seq<Packet>)
    requires done + todo == all && todo == next + rest
    ensures (done + next) + rest == all
  {
  }

  lemma CountedArrive(fq: Lists, bq: Lists, fq': Lists, bq': Lists, queued: map<nat, nat>, p: Packet)
    requires Counted(fq, bq, queued)
    requires forall s :: Pend(fq', bq', s) == Pend(fq, bq, s) + One(p, s)
    ensures Counted(fq', bq', if p.so.Some? then queued[p.so.value := Get(queued, p.so.value) + 1] else queued)
  {
    forall n: nat
      ensures |Pend(fq', bq', Some(n))| == Get(queued, n) + if p.so == Some(n) then 1 else 0
    {
      assert Pend(fq', bq', Some(n)) == Pend(fq, bq, Some(n)) + One(p, Some(n));
    }
  }

  lemma CountedSend(fq: Lists, bq: Lists, fq': Lists, bq': Lists, queued: map<nat, nat>, p: Packet)
    requires Counted(fq, bq, queued)
    requires forall s :: Pend(fq, bq, s) == One(p, s) + Pend(fq', bq', s)
    ensures p.so.Some? ==> Get(queued, p.so.value) > 0
    ensures p.so.Some? ==> Counted(fq', bq', queued[p.so.value := Max(Get(queued, p.so.value) - 1, 0)])
    ensures p.so.None? ==> Counted(fq', bq', queued)
  {
    forall n: nat
      ensures Get(queued, n) == |Pend(fq', bq', Some(n))| + if p.so == Some(n) then 1 else 0
    {
      assert Pend(fq, bq, Some(n)) == One(p, Some(n)) + Pend(fq', bq', Some(n));
    }
  }

  lemma SamePending(fq: Lists, bq: Lists, fq': Lists, bq': Lists, sent: seq<Packet>, arrived: seq<Packet>,
                    queued: map<nat, nat>)
    requires Fifo(fq, bq, sent, arrived) && Counted(fq, bq, queued)
    requires forall s :: Pend(fq', bq', s) == Pend(fq, bq, s)
    ensures Fifo(fq', bq', sent, arrived) && Counted(fq', bq', queued)
  {
    forall s
      ensures OfSession(sent, s) + Pend(fq', bq', s) == OfSession(arrived, s)
    {
      assert Pend(fq', bq', s) == Pend(fq, bq, s);
    }
  }
}
