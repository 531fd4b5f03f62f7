/**
 * wirefilter's delay line (`packet_enqueue`, `packet_dequeue`): a binary heap in an array, slots
 * 1 to npq with a sentinel in slot 0, keyed by the time a packet is due and a counter that keeps
 * packets of the same millisecond in order.
 */
module DelayLine {
  import opened Common

  const PQCHUNK := 100
  const COUNTER_MAX := 0xffff_ffff

  /** A struct packpq.  `due` is a history field: the time the caller asked for. */
  datatype Packet = Packet(when: nat, counter: nat, dir: nat, buf: seq<byte>, due: nat)

  const SENTINEL := Packet(0, 0, 0, [], 0)

  /** The comparison of both sift loops. */
  predicate Less(a: Packet, b: Packet) {
    a.when < b.when || (a.when == b.when && a.counter < b.counter)
  }

  predicate Leq(a: Packet, b: Packet) {
    !Less(b, a)
  }

  /** Slot i is the parent of slot j. */
  predicate Parent(i: int, j: int) {
    1 <= i && (j == 2 * i || j == 2 * i + 1)
  }

  ghost predicate Heap(h: seq<Packet>) {
    forall i, j :: Parent(i, j) && j < |h| ==> Leq(h[i], h[j])
  }

  /** What `packet_enqueue` does from slot k, where the hole is, with the new packet x. */
  function SiftUp(h: seq<Packet>, k: nat, x: Packet): (r: seq<Packet>)
    requires 0 < k < |h| && h[0] == SENTINEL
    ensures |r| == |h| && r[0] == SENTINEL
    decreases k
  {
    if Less(x, h[k / 2]) then SiftUp(h[k := h[k / 2]], k / 2, x) else h[k := x]
  }

  /** The smaller child of slot k. */
  function Child(h: seq<Packet>, k: nat): (j: nat)
    requires 0 < k && 2 * k < |h|
    ensures j == 2 * k || j == 2 * k + 1 < |h|
  {
    if 2 * k + 1 < |h| && Less(h[2 * k + 1], h[2 * k]) then 2 * k + 1 else 2 * k
  }

  /** What `packet_dequeue` does from slot k, where the hole is, with the displaced packet x. */
  function SiftDown(h: seq<Packet>, k: nat, x: Packet): (r: seq<Packet>)
    requires 0 < k < |h|
    ensures |r| == |h| && r[0] == h[0]
    decreases |h| - k
  {
    if 2 * k < |h| then
      var j := Child(h, k);
      if Less(x, h[j]) then h[k := x] else SiftDown(h[k := h[j]], j, x)
    else h[k := x]
  }

  lemma SiftDownStep(h: seq<Packet>, k: nat, x: Packet)
    requires 0 < k < |h|
    ensures SiftDown(h, k, x) ==
      if 2 * k < |h| && !Less(x, h[Child(h, k)]) then SiftDown(h[k := h[Child(h, k)]], Child(h, k), x) else h[k := x]
  {}

  /** A heap but for slot k, into which x is to go, x not above the packets below the hole. */
  ghost predicate HoleUp(h: seq<Packet>, k: nat, x: Packet)
    requires 0 < k < |h|
  {
    && (forall i, j :: Parent(i, j) && j < |h| && j != k && i != k ==> Leq(h[i], h[j]))
    && (forall j :: Parent(k, j) && j < |h| ==> Leq(x, h[j]) && (k > 1 ==> Leq(h[k / 2], h[j])))
  }

  lemma RaiseHoleKeeps(h: seq<Packet>, k: nat, x: Packet)
    requires 1 < k < |h| && HoleUp(h, k, x) && Less(x, h[k / 2])
    ensures HoleUp(h[k := h[k / 2]], k / 2, x)
  {
    var g := h[k := h[k / 2]];
    assert Parent(k / 2, k) && (k / 2 > 1 ==> Parent(k / 2 / 2, k / 2));
    forall j | Parent(k / 2, j) && j < |h|
      ensures Leq(x, g[j]) && (k / 2 > 1 ==> Leq(g[k / 2 / 2], g[j]))
    {
      assert j != k ==> Leq(h[k / 2], h[j]);
    }
  }

  lemma DropInHole(h: seq<Packet>, k: nat, x: Packet)
    requires 0 < k < |h| && HoleUp(h, k, x) && (k > 1 ==> !Less(x, h[k / 2]))
    ensures Heap(h[k := x])
  {
  }

  lemma {:induction false} SiftUpHeap(h: seq<Packet>, k: nat, x: Packet)
    requires 0 < k < |h| && h[0] == SENTINEL && HoleUp(h, k, x)
    ensures Heap(SiftUp(h, k, x))
    decreases k
  {
    hide HoleUp, Heap;
    if Less(x, h[k / 2]) {
      RaiseHoleKeeps(h, k, x);
      SiftUpHeap(h[k := h[k / 2]], k / 2, x);
    } else {
      DropInHole(h, k, x);
    }
  }

  lemma {:induction false} SiftUpMultiset(h: seq<Packet>, k: nat, x: Packet)
    requires 0 < k < |h| && h[0] == SENTINEL
    ensures multiset(SiftUp(h, k, x)) == multiset(h[k := x])
    decreases k
  {
    if Less(x, h[k / 2]) {
      SiftUpMultiset(h[k := h[k / 2]], k / 2, x);
    }
  }

  /** A heap but for slot k, into which x is to go, x not below the packets above the hole. */
  ghost predicate HoleDown(h: seq<Packet>, k: nat, x: Packet)
    requires 0 < k < |h|
  {
    && (forall i, j :: Parent(i, j) && j < |h| && j != k && i != k ==> Leq(h[i], h[j]))
    && (k > 1 ==> Leq(h[k / 2], x))
    && (forall j :: Parent(k, j) && j < |h| && k > 1 ==> Leq(h[k / 2], h[j]))
  }

  lemma LowerHoleKeeps(h: seq<Packet>, k: nat, x: Packet)
    requires 0 < k && 2 * k < |h| && HoleDown(h, k, x) && !Less(x, h[Child(h, k)])
    ensures HoleDown(h[k := h[Child(h, k)]], Child(h, k), x)
  {
    var j := Child(h, k);
    var g := h[k := h[j]];
    forall a, b | Parent(a, b) && b < |h| && b != j && a != j
      ensures Leq(g[a], g[b])
    {
      if a == k {
        assert b == 2 * k || b == 2 * k + 1;
      } else if b == k {
        assert a == k / 2 && Parent(k, j);
      }
    }
  }

  lemma FillHole(h: seq<Packet>, k: nat, x: Packet)
    requires 0 < k < |h| && HoleDown(h, k, x)
    requires 2 * k < |h| ==> Less(x, h[Child(h, k)])
    ensures Heap(h[k := x])
  {
  }

  lemma {:induction false} SiftDownHeap(h: seq<Packet>, k: nat, x: Packet)
    requires 0 < k < |h| && HoleDown(h, k, x)
    ensures Heap(SiftDown(h, k, x))
    decreases |h| - k
  {
    hide HoleDown, Heap;
    if 2 * k < |h| && !Less(x, h[Child(h, k)]) {
      LowerHoleKeeps(h, k, x);
      SiftDownHeap(h[k := h[Child(h, k)]], Child(h, k), x);
    } else {
      FillHole(h, k, x);
    }
  }

  lemma {:induction false} SiftDownMultiset(h: seq<Packet>, k: nat, x: Packet)
    requires 0 < k < |h|
    ensures multiset(SiftDown(h, k, x)) == multiset(h[k := x])
    decreases |h| - k
  {
    if 2 * k < |h| {
      var j := Child(h, k);
      if !Less(x, h[j]) {
        SiftDownMultiset(h[k := h[j]], j, x);
      }
    }
  }

  /** The root of a heap is its minimum. */
  lemma {:induction false} RootLeast(h: seq<Packet>, i: nat)
    requires Heap(h) && 1 <= i < |h|
    ensures Leq(h[1], h[i])
  {
    if i > 1 {
      assert Parent(i / 2, i);
      RootLeast(h, i / 2);
    }
  }

  /** Bytes of direction d among the packets. */
  ghost function BytesOf(m: multiset<Packet>, d: nat): nat
    decreases |m|
  {
    if m == multiset{} then 0
    else
      var x :| x in m;
      SizeIn(x, d) + BytesOf(m - multiset{x}, d)
  }

  ghost function SizeIn(x: Packet, d: nat): nat {
    if x.dir == d then |x.buf| else 0
  }

  /** The sum does not depend on the order in which packets are counted. */
  lemma {:induction false} BytesAdd(m: multiset<Packet>, x: Packet, d: nat)
    ensures BytesOf(m + multiset{x}, d) == BytesOf(m, d) + SizeIn(x, d)
    decreases |m|
  {
    var y := Counted(m + multiset{x}, d);
    hide BytesOf, SizeIn;
    Exchange(m, x, y);
    if y != x {
      var k := m - multiset{y};
      BytesAdd(k, x, d);
      BytesAdd(k, y, d);
    }
  }

  /** The packet that the sum counts first. */
  lemma Counted(m: multiset<Packet>, d: nat) returns (y: Packet)
    requires m != multiset{}
    ensures y in m && BytesOf(m, d) == SizeIn(y, d) + BytesOf(m - multiset{y}, d)
  {
    y :| y in m && BytesOf(m, d) == SizeIn(y, d) + BytesOf(m - multiset{y}, d);
  }

  lemma Exchange(m: multiset<Packet>, x: Packet, y: Packet)
    requires y in m + multiset{x}
    ensures y == x ==> m + multiset{x} - multiset{y} == m
    ensures y != x ==> y in m && m - multiset{y} + multiset{y} == m
    ensures y != x ==> m + multiset{x} - multiset{y} == m - multiset{y} + multiset{x}
  {
  }

  /** The key packet_enqueue gives a packet due at `when`: (when, maxwhen, counter) afterwards. */
  function NextKey(nofifo: bool, maxwhen: nat, counter: nat, when: nat): (nat, nat, nat) {
    var (m, c) := if when > maxwhen then (when, 0) else (maxwhen, counter);
    if !nofifo && when <= m then (m, m, (c + 1) % (COUNTER_MAX + 1)) else (when, m, c)
  }

  /** A packet due no later than maxwhen finds the 32-bit counter used up: the counter wraps. */
  predicate Wraps(maxwhen: nat, counter: nat, when: nat) {
    when <= maxwhen && counter == COUNTER_MAX
  }

  /** In FIFO mode the new key is greater than every earlier one exactly as long as the 32-bit
      counter does not wrap within one value of maxwhen; it is never earlier than asked. */
  lemma FifoKey(maxwhen: nat, counter: nat, when: nat)
    requires counter <= COUNTER_MAX
    ensures var (w, m, c) := NextKey(false, maxwhen, counter, when);
      && w == m && when <= w && c <= COUNTER_MAX
      && (maxwhen < w || (maxwhen == w && counter < c) <==> !Wraps(maxwhen, counter, when))
  {
  }

  lemma TailMultiset(h: seq<Packet>, g: seq<Packet>)
    requires h != [] && g != [] && h[0] == g[0] && multiset(h) == multiset(g)
    ensures multiset(h[1..]) == multiset(g[1..])
  {
    assert h == [h[0]] + h[1..] && g == [g[0]] + g[1..];
    assert multiset(h[1..]) == multiset(h) - multiset{h[0]};
    assert multiset(g[1..]) == multiset(g) - multiset{g[0]};
  }

  lemma HoleAtEnd(h: seq<Packet>, x: Packet)
    requires |h| >= 2 && Heap(h[..|h| - 1])
    ensures HoleUp(h, |h| - 1, x)
  {
    forall i, j | Parent(i, j) && j < |h| - 1
      ensures Leq(h[i], h[j])
    {
      assert Leq(h[..|h| - 1][i], h[..|h| - 1][j]);
    }
  }

  /** A heap with an unused slot at its end takes a new packet. */
  lemma PushHeap(h: seq<Packet>, x: Packet)
    requires |h| >= 2 && h[0] == SENTINEL && Heap(h[..|h| - 1])
    ensures var r := SiftUp(h, |h| - 1, x);
      Heap(r) && multiset(r[1..]) == multiset(h[1..|h| - 1]) + multiset{x}
  {
    hide SiftUp, Heap;
    var k := |h| - 1;
    HoleAtEnd(h, x);
    SiftUpHeap(h, k, x);
    SiftUpMultiset(h, k, x);
    TailMultiset(SiftUp(h, k, x), h[k := x]);
    assert h[k := x][1..] == h[1..k] + [x];
  }

  lemma HoleAtRoot(h: seq<Packet>, x: Packet)
    requires |h| >= 3 && Heap(h)
    ensures HoleDown(h[..|h| - 1], 1, x)
  {
  }

  /** Removing the root: its place is taken by the last packet, sifted down. */
  lemma PopHeap(h: seq<Packet>)
    requires |h| >= 3 && Heap(h)
    ensures var n := |h| - 1; var r := SiftDown(h[..n], 1, h[n]);
      Heap(r) && multiset(r[1..]) + multiset{h[1]} == multiset(h[1..])
  {
    hide SiftDown, Heap, HoleDown;
    var n := |h| - 1;
    var g := h[..n];
    HoleAtRoot(h, h[n]);
    SiftDownHeap(g, 1, h[n]);
    SiftDownMultiset(g, 1, h[n]);
    TailMultiset(SiftDown(g, 1, h[n]), g[1 := h[n]]);
    RootReplaced(h);
  }

  /** The last packet put in the place of the root. */
  lemma RootReplaced(h: seq<Packet>)
    requires |h| >= 3
    ensures var n := |h| - 1; multiset(h[..n][1 := h[n]][1..]) + multiset{h[1]} == multiset(h[1..])
  {
    var n := |h| - 1;
    assert h[..n][1 := h[n]][1..] == [h[n]] + h[2..n];
    assert h[1..] == [h[1]] + h[2..n] + [h[n]];
  }

  /** The growth test as the source makes it, before npq is incremented, on an array of maxpq slots:
      the slot that the new packet goes to exists unless exactly one slot was left. */
  lemma GrowthTest(npq: nat, maxpq: nat)
    requires npq <= maxpq
    ensures var slots := if npq >= maxpq then maxpq + PQCHUNK else maxpq;
      npq + 1 < slots <==> npq + 1 != maxpq
  {
  }

  class Line {
    var pqh: array<Packet>
    var npq: nat
    var maxpq: nat
    var maxwhen: nat
    var counter: nat
    var nofifo: bool
    var bufsize: seq<int>         // delay_bufsize
    var out: seq<Packet>          // packets written so far
    ghost var arrived: seq<Packet>
    ghost var fifoRun: bool       // nofifo has been 0 and the counter has not wrapped all along

    /** The array holds a heap in slots 1 to npq; slot npq + 1 exists. */
    ghost predicate HeapValid()
      reads this`pqh, this`npq, this`maxpq, pqh
    {
      && npq < pqh.Length == maxpq + 1
      && pqh[0] == SENTINEL && Heap(pqh[..npq + 1])
    }

    ghost function Queued(): multiset<Packet>
      reads this`pqh, this`npq, pqh
    {
      if npq < pqh.Length then multiset(pqh[1..npq + 1]) else multiset{}
    }

    /** The root is queued and no queued packet is less. */
    lemma RootQueued()
      requires HeapValid()
      ensures npq > 0 ==> pqh[1] in Queued() && forall p :: p in Queued() ==> Leq(pqh[1], p)
      ensures npq == 0 <==> Queued() == multiset{}
    {
      RootIsLeast(pqh[..npq + 1]);
      assert pqh[..npq + 1][1..] == pqh[1..npq + 1];
      assert npq > 0 ==> pqh[1] == pqh[1..npq + 1][0];
    }

    /** The last block of packet_enqueue. */
    method Push(x: Packet)
      requires HeapValid() && npq < maxpq
      modifies this`npq, pqh
      ensures HeapValid() && npq == old(npq) + 1
      ensures Queued() == old(Queued()) + multiset{x}
    {
      npq := npq + 1;
      ghost var h := pqh[..npq + 1];
      assert h[..npq] == old(pqh[..npq + 1]);
      assert old(pqh[1..npq + 1]) == h[1..npq];
      PushHeap(h, x);
      RaiseHole(npq, x);
      assert pqh[1..npq + 1] == pqh[..npq + 1][1..];
    }

    /** The sifting loop of packet_enqueue; the sentinel stops it at the root. */
    method RaiseHole(start: nat, x: Packet)
      requires 0 < start <= npq < pqh.Length && pqh[0] == SENTINEL
      modifies pqh
      ensures pqh[..npq + 1] == SiftUp(old(pqh[..npq + 1]), start, x)
    {
      var k := start;
      ghost var h := pqh[..npq + 1];
      while Less(x, pqh[k / 2])
        invariant 0 < k <= npq < pqh.Length && pqh[0] == SENTINEL
        invariant SiftUp(pqh[..npq + 1], k, x) == SiftUp(h, start, x)
        decreases k
      {
        ghost var g := pqh[..npq + 1];
        pqh[k] := pqh[k / 2];
        assert pqh[..npq + 1] == g[k := g[k / 2]];
        k := k / 2;
      }
      ghost var g := pqh[..npq + 1];
      pqh[k] := x;
      assert pqh[..npq + 1] == g[k := x];
    }

    /** One round of packet_dequeue: take the root and rebuild the heap. */
    method Pop() returns (root: Packet)
      requires HeapValid() && npq > 0
      modifies this`npq, pqh
      ensures HeapValid() && npq == old(npq) - 1
      ensures root == old(pqh[1]) && Queued() + multiset{root} == old(Queued())
    {
      root := pqh[1];
      if npq == 1 {
        npq := 0;
        pqh[1] := root;
        assert old(pqh[1..npq + 1]) == [root];
        return;
      }
      hide Heap, SiftDown;
      ghost var h := pqh[..npq + 1];
      assert pqh[1..npq + 1] == h[1..];
      PopHeap(h);
      Rebuild(h);
    }

    /** Removal of the root from a heap of more than one packet. */
    method Rebuild(ghost h: seq<Packet>)
      requires npq > 1 && npq < pqh.Length == maxpq + 1 && h == pqh[..npq + 1]
      modifies this`npq, pqh
      ensures npq == old(npq) - 1 && pqh[..npq + 1] == SiftDown(h[..npq + 1], 1, h[npq + 1])
      ensures pqh[1..npq + 1] == SiftDown(h[..npq + 1], 1, h[npq + 1])[1..]
    {
      hide SiftDown;
      var last := pqh[npq];
      npq := npq - 1;
      assert pqh[..npq + 1] == h[..npq + 1];
      LowerHole(1, last);
      assert pqh[1..npq + 1] == pqh[..npq + 1][1..];
    }

    /** The rebuilding loop of packet_dequeue. */
    method LowerHole(start: nat, x: Packet)
      requires 0 < start <= npq < pqh.Length
      modifies pqh
      ensures pqh[..npq + 1] == SiftDown(old(pqh[..npq + 1]), start, x)
    {
      hide SiftDown;
      var k := start;
      ghost var h := pqh[..npq + 1];
      while k <= npq / 2
        invariant 0 < k <= npq < pqh.Length
        invariant SiftDown(pqh[..npq + 1], k, x) == SiftDown(h, start, x)
        invariant pqh[..npq + 1][0] == h[0]
        decreases npq - k
      {
        ghost var g := pqh[..npq + 1];
        SiftDownStep(g, k, x);
        var j := 2 * k;
        if j < npq && Less(pqh[j + 1], pqh[j]) {
          j := j + 1;
        }
        assert j == Child(g, k);
        if Less(x, pqh[j]) {
          break;
        }
        pqh[k] := pqh[j];
        assert pqh[..npq + 1] == g[k := g[j]];
        k := j;
      }
      ghost var g := pqh[..npq + 1];
      SiftDownStep(g, k, x);
      pqh[k] := x;
      assert pqh[..npq + 1] == g[k := x];
    }

    ghost predicate Valid()
      reads this, pqh
    {
      && HeapValid() && counter <= COUNTER_MAX
      && Balanced(Queued(), out, arrived, bufsize)
      && (fifoRun ==> !nofifo && Fifo(Queued(), out, arrived, maxwhen, counter))
    }

    constructor (nofifo: bool)
      ensures Valid() && fresh(pqh) && npq == 0 && maxpq == PQCHUNK && out == [] && arrived == []
      ensures maxwhen == 0 && counter == 0 && Queued() == multiset{}
      ensures this.nofifo == nofifo && fifoRun == !nofifo
    {
      pqh := new Packet[PQCHUNK + 1](_ => SENTINEL);
      npq, maxpq, maxwhen, counter := 0, PQCHUNK, 0, 0;
      this.nofifo := nofifo;
      bufsize, out, arrived, fifoRun := [0, 0], [], [], !nofifo;
    }

    /** The growth step of packet_enqueue. */
    method Grow()
      requires HeapValid()
      modifies this`pqh, this`maxpq
      ensures HeapValid() && npq < maxpq && (pqh == old(pqh) || fresh(pqh))
      ensures old(npq) < old(maxpq) ==> maxpq == old(maxpq)
      ensures pqh[..npq + 1] == old(pqh[..npq + 1])
    {
      if npq >= maxpq {
        var bigger := new Packet[maxpq + PQCHUNK + 1](_ => SENTINEL);
        forall i | 0 <= i <= npq {
          bigger[i] := pqh[i];
        }
        maxpq := maxpq + PQCHUNK;
        pqh := bigger;
        assert pqh[..npq + 1] == old(pqh[..npq + 1]);
      }
    }

    /** The key assignment of packet_enqueue. */
    method AssignKey(due: nat) returns (when: nat)
      requires counter <= COUNTER_MAX
      modifies this`maxwhen, this`counter
      ensures (when, maxwhen, counter) == NextKey(nofifo, old(maxwhen), old(counter), due)
      ensures due <= when && counter <= COUNTER_MAX
      ensures when == (if nofifo then due else maxwhen) && maxwhen == Max(old(maxwhen), due)
      ensures !nofifo ==> (old(maxwhen) < when || (old(maxwhen) == when && old(counter) < counter) <==>
                           !Wraps(old(maxwhen), old(counter), due))
    {
      FifoKey(maxwhen, counter, due);
      when := due;
      if when > maxwhen {
        maxwhen := when;
        counter := 0;
      }
      if !nofifo && when <= maxwhen {
        when := maxwhen;
        counter := (counter + 1) % (COUNTER_MAX + 1);
      }
    }

    method Store(x: Packet)
      requires HeapValid()
      modifies this`pqh, this`maxpq, this`npq, pqh
      ensures npq == old(npq) + 1 && (old(npq) < old(maxpq) ==> maxpq == old(maxpq))
      ensures HeapValid() && (pqh == old(pqh) || fresh(pqh)) && Queued() == old(Queued()) + multiset{x}
    {
      Grow();
      assert pqh[1..npq + 1] == pqh[..npq + 1][1..] == old(pqh[..npq + 1])[1..] == old(pqh[1..npq + 1]);
      Push(x);
    }

    /** packet_enqueue at time `now` with a delay of `delms` milliseconds. */
    method Enqueue(dir: nat, buf: seq<byte>, now: nat, delms: nat)
      requires Valid() && dir < 2
      modifies this, pqh
      ensures Valid() && (pqh == old(pqh) || fresh(pqh))
      ensures out == old(out) && nofifo == old(nofifo) && npq == old(npq) + 1
        && (old(npq) < old(maxpq) ==> maxpq == old(maxpq))
      ensures fifoRun == (old(fifoRun) && !Wraps(old(maxwhen), old(counter), now + delms))
      ensures var (w, m, c) := NextKey(nofifo, old(maxwhen), old(counter), now + delms);
        var x := Packet(w, c, dir, buf, now + delms);
        && maxwhen == m && counter == c && x.due <= x.when
        && arrived == old(arrived) + [x] && Queued() == old(Queued()) + multiset{x}
    {
      hide Balanced, Fifo, HeapValid, Queued, NextKey, Wraps;
      ghost var q := Queued();
      var x := Admit(dir, buf, now, delms, q);
      Store(x);
    }

    /** packet_enqueue up to the heap insertion: key, copy and accounting. */
    method Admit(dir: nat, buf: seq<byte>, now: nat, delms: nat, ghost q: multiset<Packet>) returns (x: Packet)
      requires counter <= COUNTER_MAX && dir < 2
      requires Balanced(q, out, arrived, bufsize)
      requires fifoRun ==> !nofifo && Fifo(q, out, arrived, maxwhen, counter)
      modifies this`maxwhen, this`counter, this`bufsize, this`arrived, this`fifoRun
      ensures counter <= COUNTER_MAX && arrived == old(arrived) + [x] && now + delms <= x.when
      ensures (x.when, maxwhen, counter) == NextKey(nofifo, old(maxwhen), old(counter), now + delms)
      ensures x == Packet(x.when, counter, dir, buf, now + delms)
      ensures fifoRun == (old(fifoRun) && !Wraps(old(maxwhen), old(counter), now + delms))
      ensures Balanced(q + multiset{x}, out, arrived, bufsize)
      ensures fifoRun ==> Fifo(q + multiset{x}, out, arrived, maxwhen, counter)
    {
      hide Balanced, Fifo, NextKey, Wraps;
      var when := AssignKey(now + delms);
      x := Packet(when, counter, dir, buf, now + delms);
      BalancedArrive(q, out, arrived, bufsize, x);
      fifoRun := fifoRun && !Wraps(old(maxwhen), old(counter), now + delms);
      if fifoRun {
        FifoArrive(q, out, arrived, old(maxwhen), old(counter), x);
      }
      bufsize := bufsize[dir := bufsize[dir] + |buf|];
      arrived := arrived + [x];
    }

    /** One round of packet_dequeue: the least packet leaves. */
    method SendRoot()
      requires Valid() && npq > 0
      modifies this`npq, this`bufsize, this`out, pqh
      ensures Valid() && npq == old(npq) - 1
      ensures var x := old(pqh[1]);
        out == old(out) + [x] && Queued() + multiset{x} == old(Queued()) && x.due <= x.when
      ensures forall p :: p in old(Queued()) ==> Leq(old(pqh[1]), p)
    {
      hide Balanced, Fifo, Heap, Queued;
      RootQueued();
      var x := Pop();
      BalancedSend(Queued(), out, arrived, bufsize, x);
      if fifoRun {
        FifoSend(Queued(), out, arrived, maxwhen, counter, x);
      }
      bufsize := bufsize[x.dir := bufsize[x.dir] - |x.buf|];
      out := out + [x];
    }

    /** packet_dequeue at time `now`: exactly the packets whose time has come leave, in key order,
        and none before the delay it asked for. */
    method Dequeue(now: nat) returns (ghost es: seq<Packet>)
      requires Valid()
      modifies this`npq, this`bufsize, this`out, pqh
      ensures Valid() && out == old(out) + es
      ensures Emitted(es, Queued(), old(Queued()), now)
      ensures forall p :: p in Queued() ==> now < p.when
    {
      hide Balanced, Fifo, Heap, Queued, Emitted;
      es := [];
      EmitNone(Queued(), now);
      while npq > 0 && pqh[1].when <= now
        invariant Valid() && out == old(out) + es
        invariant Emitted(es, Queued(), old(Queued()), now)
        decreases npq
      {
        ghost var x := pqh[1];
        SendRoot();
        EmitOne(es, Queued(), old(Queued()), now, x);
        es := es + [x];
      }
      RootQueued();
    }

    /** nextms: how long until the next packet is due; None when nothing waits. */
    method NextMs(now: nat) returns (ms: Option<nat>)
      requires Valid()
      ensures ms.None? <==> Queued() == multiset{}
      ensures ms.Some? ==> forall p :: p in Queued() ==> now + ms.value <= p.when || ms.value == 0
      ensures ms.Some? && ms.value > 0 ==> exists p :: p in Queued() && p.when == now + ms.value
      ensures ms == Some(0) ==> exists p :: p in Queued() && p.when <= now
    {
      hide Balanced, Fifo, Heap, Queued;
      RootQueued();
      if npq > 0 {
        ms := Some(if pqh[1].when > now then pqh[1].when - now else 0);
      } else {
        ms := None;
      }
    }

    /** The management command that switches FIFO mode. */
    method SetFifo(value: bool)
      requires Valid()
      modifies this`nofifo, this`fifoRun
      ensures Valid() && nofifo == !value && fifoRun == (old(fifoRun) && value)
    {
      hide Balanced, Fifo, HeapValid, Queued;
      nofifo := !value;
      fifoRun := fifoRun && value;
    }
  }

  /** The packets es have left a queue that held `before` and holds q now: nothing is lost, all were
      due, they left in order and before everything that stays. */
  ghost predicate Emitted(es: seq<Packet>, q: multiset<Packet>, before: multiset<Packet>, now: nat) {
    && multiset(es) + q == before
    && (forall i :: 0 <= i < |es| ==> es[i].due <= es[i].when <= now)
    && (forall i, j :: 0 <= i < j < |es| ==> Leq(es[i], es[j]))
    && (forall i, p :: 0 <= i < |es| && p in q ==> Leq(es[i], p))
  }

  lemma EmitNone(q: multiset<Packet>, now: nat)
    ensures Emitted([], q, q, now)
  {
  }

  lemma EmitOne(es: seq<Packet>, q: multiset<Packet>, before: multiset<Packet>, now: nat, x: Packet)
    requires Emitted(es, q + multiset{x}, before, now) && x.due <= x.when <= now
    requires forall p :: p in q + multiset{x} ==> Leq(x, p)
    ensures Emitted(es + [x], q, before, now)
  {
    assert x in q + multiset{x};
    assert forall p :: p in q ==> p in q + multiset{x};
  }

  lemma RootIsLeast(h: seq<Packet>)
    requires Heap(h) && h != []
    ensures forall p :: p in multiset(h[1..]) ==> |h| > 1 && Leq(h[1], p)
  {
    forall p | p in multiset(h[1..])
      ensures |h| > 1 && Leq(h[1], p)
    {
      var i :| 0 <= i < |h[1..]| && h[1..][i] == p;
      RootLeast(h, i + 1);
    }
  }

  /** Conservation and accounting, in either mode. */
  ghost predicate Balanced(q: multiset<Packet>, out: seq<Packet>, arrived: seq<Packet>, bufsize: seq<int>) {
    && multiset(out) + q == multiset(arrived)
    && (forall p :: p in q ==> p.due <= p.when && p.dir < 2)
    && |bufsize| == 2 && bufsize[0] == BytesOf(q, 0) && bufsize[1] == BytesOf(q, 1)
  }

  /** First in, first out: the keys given out increase strictly, what has left is a prefix of
      what arrived, what is queued is the rest. */
  ghost predicate Fifo(q: multiset<Packet>, out: seq<Packet>, arrived: seq<Packet>, maxwhen: nat, counter: nat) {
    && Increasing(arrived) && out <= arrived
    && q == multiset(arrived[|out|..])
    && (arrived != [] ==> arrived[|arrived| - 1].when == maxwhen && arrived[|arrived| - 1].counter == counter)
  }

  lemma BalancedArrive(q: multiset<Packet>, out: seq<Packet>, arrived: seq<Packet>, bufsize: seq<int>, x: Packet)
    requires Balanced(q, out, arrived, bufsize) && x.due <= x.when && x.dir < 2
    ensures |bufsize| == 2 && Balanced(q + multiset{x}, out, arrived + [x], bufsize[x.dir := bufsize[x.dir] + |x.buf|])
  {
    BytesAdd(q, x, 0);
    BytesAdd(q, x, 1);
  }

  lemma FifoArrive(q: multiset<Packet>, out: seq<Packet>, arrived: seq<Packet>, maxwhen: nat, counter: nat, x: Packet)
    requires Fifo(q, out, arrived, maxwhen, counter)
    requires maxwhen < x.when || (maxwhen == x.when && counter < x.counter)
    ensures Fifo(q + multiset{x}, out, arrived + [x], x.when, x.counter)
  {
    assert (arrived + [x])[|out|..] == arrived[|out|..] + [x];
  }

  lemma BalancedSend(q: multiset<Packet>, out: seq<Packet>, arrived: seq<Packet>, bufsize: seq<int>, x: Packet)
    requires Balanced(q + multiset{x}, out, arrived, bufsize)
    ensures x.dir < 2 && |bufsize| == 2 && x.due <= x.when
    ensures Balanced(q, out + [x], arrived, bufsize[x.dir := bufsize[x.dir] - |x.buf|])
  {
    assert x in q + multiset{x};
    BytesAdd(q, x, 0);
    BytesAdd(q, x, 1);
  }

  /** In FIFO mode the least queued packet is the oldest one. */
  lemma FifoSend(q: multiset<Packet>, out: seq<Packet>, arrived: seq<Packet>, maxwhen: nat, counter: nat, x: Packet)
    requires Fifo(q + multiset{x}, out, arrived, maxwhen, counter)
    requires forall p :: p in q + multiset{x} ==> Leq(x, p)
    ensures Fifo(q, out + [x], arrived, maxwhen, counter)
  {
    var rest := arrived[|out|..];
    OldestFirst(q + multiset{x}, rest, x);
    assert arrived[|out|] == x;
    assert out + [x] == arrived[..|out| + 1];
  }

  /** The least of an increasing sequence comes first in it. */
  lemma OldestFirst(q: multiset<Packet>, rest: seq<Packet>, x: Packet)
    requires x in q && q == multiset(rest) && Increasing(rest) && forall p :: p in q ==> Leq(x, p)
    ensures rest != [] && rest[0] == x && q - multiset{x} == multiset(rest[1..])
  {
    assert x in rest;
    var i :| 0 <= i < |rest| && rest[i] == x;
    assert rest[0] in q;
    assert rest == [rest[0]] + rest[1..];
  }

  ghost predicate Increasing(xs: seq<Packet>) {
    forall i, j :: 0 <= i < j < |xs| ==> Less(xs[i], xs[j])
  }

  datatype Event =
    | Arrive(dir: nat, buf: seq<byte>, now: nat, delms: nat)
    | Poll(now: nat)
    | SwitchFifo(value: bool)

  // What a run comes to, computed from its events alone.

  /** nofifo, maxwhen and counter. */
  datatype Keys = Keys(nofifo: bool, maxwhen: nat, counter: nat)

  function KeysAfter(events: seq<Event>): Keys {
    if events == [] then Keys(false, 0, 0)
    else
      var k := KeysAfter(events[..|events| - 1]);
      match events[|events| - 1]
      case Arrive(_, _, now, delms) =>
        var (w, m, c) := NextKey(k.nofifo, k.maxwhen, k.counter, now + delms);
        Keys(k.nofifo, m, c)
      case Poll(_) => k
      case SwitchFifo(value) => k.(nofifo := !value)
  }

  /** The packet that an arrival in state k makes. */
  function Keyed(k: Keys, e: Event): Packet
    requires e.Arrive?
  {
    var (w, m, c) := NextKey(k.nofifo, k.maxwhen, k.counter, e.now + e.delms);
    Packet(w, c, e.dir, e.buf, e.now + e.delms)
  }

  /** The packets that arrive, with their keys. */
  function Offered(events: seq<Event>): seq<Packet> {
    if events == [] then []
    else
      var before := events[..|events| - 1];
      var e := events[|events| - 1];
      if e.Arrive? then Offered(before) + [Keyed(KeysAfter(before), e)] else Offered(before)
  }

  /** The packets of s whose time comes after `now`. */
  function Later(s: seq<Packet>, now: nat): seq<Packet> {
    if s == [] then [] else (if s[0].when > now then [s[0]] else []) + Later(s[1..], now)
  }

  /** The packets that wait: each poll takes away exactly those that are due. */
  function Waiting(events: seq<Event>): seq<Packet> {
    if events == [] then []
    else
      var before := events[..|events| - 1];
      match events[|events| - 1]
      case Arrive(dir, buf, now, delms) => Waiting(before) + [Keyed(KeysAfter(before), Arrive(dir, buf, now, delms))]
      case Poll(now) => Later(Waiting(before), now)
      case SwitchFifo(_) => Waiting(before)
  }

  /** The arrival at the end of `before` and e wraps the counter. */
  predicate WrapsAt(before: seq<Event>, e: Event) {
    e.Arrive? && Wraps(KeysAfter(before).maxwhen, KeysAfter(before).counter, e.now + e.delms)
  }

  /** FIFO mode is never left and the counter never wraps. */
  predicate FifoThroughout(events: seq<Event>) {
    forall i :: 0 <= i < |events| ==> events[i] != SwitchFifo(false) && !WrapsAt(events[..i], events[i])
  }

  lemma {:induction false} LaterCount(s: seq<Packet>, now: nat, p: Packet)
    ensures multiset(Later(s, now))[p] == if p.when > now then multiset(s)[p] else 0
  {
    if s != [] {
      LaterCount(s[1..], now, p);
      assert s == [s[0]] + s[1..];
      assert multiset(s)[p] == multiset([s[0]])[p] + multiset(s[1..])[p];
      var head := if s[0].when > now then [s[0]] else [];
      assert multiset(Later(s, now))[p] == multiset(head)[p] + multiset(Later(s[1..], now))[p];
    }
  }

  /** What a poll leaves is exactly the later packets. */
  lemma PollLeaves(es: seq<Packet>, q: multiset<Packet>, s: seq<Packet>, now: nat)
    requires Emitted(es, q, multiset(s), now) && forall p :: p in q ==> now < p.when
    ensures q == multiset(Later(s, now))
  {
    forall p ensures q[p] == multiset(Later(s, now))[p] {
      LaterCount(s, now, p);
      assert multiset(s)[p] == multiset(es)[p] + q[p];
    }
  }

  lemma NoEvents()
    ensures KeysAfter([]) == Keys(false, 0, 0) && Offered([]) == [] && Waiting([]) == [] && FifoThroughout([])
  {
  }

  lemma CounterSmall(events: seq<Event>)
    ensures KeysAfter(events).counter <= COUNTER_MAX
  {
  }

  lemma LastOffered(events: seq<Event>)
    requires SwitchFifo(false) !in events
    ensures !KeysAfter(events).nofifo
    ensures Offered(events) == [] ==> KeysAfter(events).counter == 0
    ensures Offered(events) != [] ==>
      var x := Offered(events)[|Offered(events)| - 1];
      x.when == KeysAfter(events).maxwhen && x.counter == KeysAfter(events).counter
  {
    if events != [] {
      var before := events[..|events| - 1];
      LastOffered(before);
    }
  }

  lemma KeyIncreases(before: seq<Event>, e: Event)
    requires SwitchFifo(false) !in before && e.Arrive?
    ensures Increasing(Offered(before) + [Keyed(KeysAfter(before), e)]) <==>
      Increasing(Offered(before)) && !WrapsAt(before, e)
  {
    LastOffered(before);
    CounterSmall(before);
    var k := KeysAfter(before);
    FifoKey(k.maxwhen, k.counter, e.now + e.delms);
    IncreasingLast(Offered(before), Keyed(k, e));
    hide Increasing, KeysAfter, Offered;
  }

  /** In FIFO mode the keys given out over a run increase strictly exactly when the counter never
      wraps within one value of maxwhen. */
  lemma {:induction false} KeysIncrease(events: seq<Event>)
    requires SwitchFifo(false) !in events
    ensures Increasing(Offered(events)) <==> FifoThroughout(events)
  {
    if events != [] {
      var before := events[..|events| - 1];
      var e := events[|events| - 1];
      assert forall x :: x in before ==> x in events;
      KeysIncrease(before);
      ThroughoutLast(events);
      hide Increasing, FifoThroughout, KeysAfter;
      if e.Arrive? { KeyIncreases(before, e); }
    }
  }

  lemma ThroughoutLast(events: seq<Event>)
    requires events != []
    ensures var n := |events| - 1;
      FifoThroughout(events) <==>
        FifoThroughout(events[..n]) && events[n] != SwitchFifo(false) && !WrapsAt(events[..n], events[n])
  {
    var n := |events| - 1;
    assert forall i :: 0 <= i < n ==> events[..n][..i] == events[..i] && events[..n][i] == events[i];
  }

  lemma IncreasingLast(xs: seq<Packet>, x: Packet)
    ensures Increasing(xs + [x]) <==> Increasing(xs) && (xs != [] ==> Less(xs[|xs| - 1], x))
  {
    var ys := xs + [x];
    if Increasing(ys) {
      assert forall i :: 0 <= i < |xs| ==> ys[i] == xs[i];
      if xs != [] { assert Less(ys[|xs| - 1], ys[|xs|]); }
    }
    if Increasing(xs) && xs != [] && Less(xs[|xs| - 1], x) {
      forall i, j | 0 <= i < j < |ys| ensures Less(ys[i], ys[j]) {
        if j == |xs| && i < |xs| - 1 { assert Less(xs[i], xs[|xs| - 1]); }
      }
    }
  }

  lemma CounterStep(before: seq<Event>, e: Event)
    ensures KeysAfter(before + [e]).counter <= KeysAfter(before).counter + 1
  {
    assert (before + [e])[..|before|] == before;
  }

  /** A run with fewer than 2^32 events cannot wrap the counter. */
  lemma {:induction false} ShortRun(events: seq<Event>)
    requires |events| <= COUNTER_MAX && SwitchFifo(false) !in events
    ensures FifoThroughout(events) && KeysAfter(events).counter <= |events|
  {
    if events != [] {
      var before := events[..|events| - 1];
      assert forall x :: x in before ==> x in events;
      ShortRun(before);
      ThroughoutLast(events);
      CounterStep(before, events[|events| - 1]);
      assert before + [events[|events| - 1]] == events;
      hide FifoThroughout, KeysAfter;
    }
  }

  /** FIFO mode has been left and not entered again. */
  predicate FreeMode(events: seq<Event>) {
    events != [] &&
    match events[|events| - 1]
    case SwitchFifo(value) => !value
    case Arrive(_, _, _, _) => FreeMode(events[..|events| - 1])
    case Poll(_) => FreeMode(events[..|events| - 1])
  }

  /** The latest time any packet was asked to leave at. */
  function LatestDue(events: seq<Event>): nat {
    if events == [] then 0
    else
      var e, before := events[|events| - 1], LatestDue(events[..|events| - 1]);
      if e.Arrive? then Max(before, e.now + e.delms) else before
  }

  lemma {:induction false} ModeAndLatest(events: seq<Event>)
    ensures KeysAfter(events).nofifo == FreeMode(events) && KeysAfter(events).maxwhen == LatestDue(events)
  {
    if events != [] {
      ModeAndLatest(events[..|events| - 1]);
    }
  }

  /** When a packet may leave, from the events alone: in free mode at the time it asked for, in FIFO mode
      not before any earlier one. */
  lemma Schedule(before: seq<Event>, e: Event)
    requires e.Arrive?
    ensures var due := e.now + e.delms;
      Keyed(KeysAfter(before), e).when == if FreeMode(before) then due else Max(LatestDue(before), due)
  {
    ModeAndLatest(before);
    hide KeysAfter, FreeMode, LatestDue;
  }

  /** Hence when it has left: after the first poll at or after that time it waits no more. */
  lemma LeavesInTime(events: seq<Event>, i: nat, j: nat)
    requires i < j < |events| && events[i].Arrive? && events[j].Poll?
    requires var due := events[i].now + events[i].delms;
      events[j].now >= if FreeMode(events[..i]) then due else Max(LatestDue(events[..i]), due)
    ensures Keyed(KeysAfter(events[..i]), events[i]) !in Waiting(events[..j + 1])
  {
    var p := Keyed(KeysAfter(events[..i]), events[i]);
    Schedule(events[..i], events[i]);
    assert events[..j + 1][..j] == events[..j];
    hide KeysAfter, FreeMode, LatestDue;
    LaterHas(Waiting(events[..j]), events[j].now, p);
  }

  /** And until when it waits: as long as no poll has come at or after that time. */
  lemma WaitsUntilThen(events: seq<Event>, i: nat, n: nat)
    requires i < n <= |events| && events[i].Arrive?
    requires var due := events[i].now + events[i].delms;
      forall j :: i < j < n && events[j].Poll? ==>
        events[j].now < if FreeMode(events[..i]) then due else Max(LatestDue(events[..i]), due)
    ensures Keyed(KeysAfter(events[..i]), events[i]) in Waiting(events[..n])
  {
    hide FreeMode, LatestDue, Keyed, KeysAfter, Waiting;
    Schedule(events[..i], events[i]);
    StillWaits(events, i, n, Keyed(KeysAfter(events[..i]), events[i]));
  }

  lemma {:induction false} StillWaits(events: seq<Event>, i: nat, n: nat, p: Packet)
    requires i < n <= |events| && events[i].Arrive? && p == Keyed(KeysAfter(events[..i]), events[i])
    requires forall j :: i < j < n && events[j].Poll? ==> events[j].now < p.when
    ensures p in Waiting(events[..n])
  {
    hide Keyed, KeysAfter, Waiting;
    if i < n - 1 {
      StillWaits(events, i, n - 1, p);
    }
    WaitsOn(events[..n - 1], events[n - 1], p);
    assert events[..n] == events[..n - 1] + [events[n - 1]];
  }

  /** A packet keeps waiting until a poll at or after its time; one that arrives begins to wait. */
  lemma WaitsOn(before: seq<Event>, e: Event, p: Packet)
    requires p in Waiting(before) || (e.Arrive? && p == Keyed(KeysAfter(before), e))
    requires e.Poll? ==> e.now < p.when
    ensures p in Waiting(before + [e])
  {
    assert (before + [e])[..|before|] == before;
    hide KeysAfter, Keyed;
    if e.Poll? {
      LaterHas(Waiting(before), e.now, p);
    }
  }

  lemma {:induction false} LaterHas(s: seq<Packet>, now: nat, p: Packet)
    ensures p in Later(s, now) <==> p in s && p.when > now
  {
    if s != [] {
      LaterHas(s[1..], now, p);
      assert s == [s[0]] + s[1..];
    }
  }

  /** n packets due at once in the first instant. */
  function Burst(n: nat): seq<Event> {
    seq(n, _ => Arrive(0, [], 0, 0))
  }

  lemma {:induction false} BurstKeys(n: nat)
    requires n <= COUNTER_MAX
    ensures KeysAfter(Burst(n)) == Keys(false, 0, n)
  {
    if n > 0 {
      BurstKeys(n - 1);
      assert Burst(n)[..n - 1] == Burst(n - 1);
    }
  }

  /** Such a burst wraps the counter exactly when it has 2^32 packets or more: their keys are then no
      longer in order. */
  lemma BurstWraps(n: nat)
    ensures Increasing(Offered(Burst(n))) <==> n <= COUNTER_MAX
  {
    KeysIncrease(Burst(n));
    if n <= COUNTER_MAX {
      ShortRun(Burst(n));
    } else {
      BurstKeys(COUNTER_MAX);
      assert Burst(n)[..COUNTER_MAX] == Burst(COUNTER_MAX);
      hide Increasing, Offered, KeysAfter;
      assert WrapsAt(Burst(n)[..COUNTER_MAX], Burst(n)[COUNTER_MAX]);
    }
  }

  /** An arrival wraps the counter, which only FIFO mode moves. */
  predicate FifoWrapsAt(before: seq<Event>, e: Event) {
    !KeysAfter(before).nofifo && WrapsAt(before, e)
  }

  predicate Unwrapped(events: seq<Event>) {
    forall i :: 0 <= i < |events| ==> !FifoWrapsAt(events[..i], events[i])
  }

  /** The packet's key is not above (maxwhen, counter). */
  predicate Within(p: Packet, k: Keys) {
    p.when < k.maxwhen || (p.when == k.maxwhen && p.counter <= k.counter)
  }

  lemma UnwrappedLast(events: seq<Event>)
    requires events != []
    ensures var n := |events| - 1;
      Unwrapped(events) <==> Unwrapped(events[..n]) && !FifoWrapsAt(events[..n], events[n])
  {
    var n := |events| - 1;
    assert forall i :: 0 <= i < n ==> events[..n][..i] == events[..i] && events[..n][i] == events[i];
  }

  /** Through changes of mode, (maxwhen, counter) bounds every key given out, and once the counter has
      moved it is one of them. */
  lemma {:induction false} KeysBounded(events: seq<Event>)
    requires Unwrapped(events)
    ensures forall p :: p in Offered(events) ==> Within(p, KeysAfter(events))
    ensures KeysAfter(events).counter > 0 ==>
      exists p :: p in Offered(events) && p.when == KeysAfter(events).maxwhen && p.counter == KeysAfter(events).counter
  {
    if events != [] {
      var before, e := events[..|events| - 1], events[|events| - 1];
      UnwrappedLast(events);
      KeysBounded(before);
      CounterSmall(before);
      hide Unwrapped;
      if e.Arrive? {
        assert Keyed(KeysAfter(before), e) in Offered(events);
      }
    }
  }

  /** Whatever changes of mode came before: a packet that arrives in FIFO mode gets a key above all
      earlier ones exactly when it does not wrap the counter. */
  lemma FifoArrival(before: seq<Event>, e: Event)
    requires Unwrapped(before) && e.Arrive? && !KeysAfter(before).nofifo
    ensures (forall p :: p in Offered(before) ==> Less(p, Keyed(KeysAfter(before), e))) <==> !WrapsAt(before, e)
  {
    KeysBounded(before);
    CounterSmall(before);
    hide Unwrapped, KeysAfter, Offered;
  }

  /** One event. */
  method Step(line: Line, e: Event, ghost before: seq<Event>)
    requires line.Valid() && (e.Arrive? ==> e.dir < 2)
    requires Keys(line.nofifo, line.maxwhen, line.counter) == KeysAfter(before)
    requires line.arrived == Offered(before) && line.Queued() == multiset(Waiting(before))
    modifies line, line.pqh
    ensures line.Valid() && (line.pqh == old(line.pqh) || fresh(line.pqh))
    ensures Keys(line.nofifo, line.maxwhen, line.counter) == KeysAfter(before + [e])
    ensures line.arrived == Offered(before + [e]) && line.Queued() == multiset(Waiting(before + [e]))
    ensures line.fifoRun == (old(line.fifoRun) && e != SwitchFifo(false) && !WrapsAt(before, e))
  {
    hide Balanced, Fifo, Line.HeapValid, Line.Queued, Emitted, Wraps, NextKey, Later;
    NextWaiting(before, e);
    NextOffered(before, e);
    hide Waiting, KeysAfter, Offered, Line.Valid;
    match e
    case Arrive(dir, buf, now, delms) =>
      line.Enqueue(dir, buf, now, delms);
    case Poll(now) =>
      var es := line.Dequeue(now);
      PollLeaves(es, line.Queued(), Waiting(before), now);
    case SwitchFifo(value) =>
      line.SetFifo(value);
  }

  lemma NextOffered(before: seq<Event>, e: Event)
    ensures e.Arrive? ==>
      var k := KeysAfter(before);
      var (w, m, c) := NextKey(k.nofifo, k.maxwhen, k.counter, e.now + e.delms);
      && KeysAfter(before + [e]) == Keys(k.nofifo, m, c)
      && Offered(before + [e]) == Offered(before) + [Packet(w, c, e.dir, e.buf, e.now + e.delms)]
      && Keyed(k, e) == Packet(w, c, e.dir, e.buf, e.now + e.delms)
    ensures !e.Arrive? ==> Offered(before + [e]) == Offered(before)
    ensures e.Poll? ==> KeysAfter(before + [e]) == KeysAfter(before)
    ensures e.SwitchFifo? ==> KeysAfter(before + [e]) == KeysAfter(before).(nofifo := !e.value)
  {
    hide NextKey;
    assert (before + [e])[..|before|] == before;
  }

  lemma NextWaiting(before: seq<Event>, e: Event)
    ensures e.Arrive? ==>
      multiset(Waiting(before + [e])) == multiset(Waiting(before)) + multiset{Keyed(KeysAfter(before), e)}
    ensures e.Poll? ==> Waiting(before + [e]) == Later(Waiting(before), e.now)
    ensures e.SwitchFifo? ==> Waiting(before + [e]) == Waiting(before)
  {
    assert (before + [e])[..|before|] == before;
  }

  /** Over every run, whatever the mode: the packets that arrived are those offered, none is lost, the
      accounts are exact, and exactly those wait whose time no poll has reached.  As long as FIFO mode
      is kept and the counter does not wrap, packets leave in arrival order, whatever delays were
      asked for. */
  method Run(events: seq<Event>) returns (line: Line)
    requires forall e :: e in events && e.Arrive? ==> e.dir < 2
    ensures fresh(line) && line.Valid() && line.arrived == Offered(events)
    ensures Balanced(line.Queued(), line.out, line.arrived, line.bufsize)
    ensures line.Queued() == multiset(Waiting(events))
    ensures FifoThroughout(events) ==>
      Increasing(line.arrived) && line.out <= line.arrived && line.Queued() == multiset(line.arrived[|line.out|..])
  {
    hide Balanced, Line.HeapValid, Increasing, NextKey, Emitted, WrapsAt, Later, KeysAfter, Offered, Waiting,
      FifoThroughout;
    NoEvents();
    line := new Line(false);
    assert events[..0] == [];
    for i := 0 to |events|
      invariant fresh(line) && fresh(line.pqh) && line.Valid()
      invariant Keys(line.nofifo, line.maxwhen, line.counter) == KeysAfter(events[..i])
      invariant line.arrived == Offered(events[..i]) && line.Queued() == multiset(Waiting(events[..i]))
      invariant FifoThroughout(events[..i]) ==> line.fifoRun
    {
      ghost var before := events[..i];
      assert events[..i + 1] == before + [events[i]] && (before + [events[i]])[..i] == before;
      ThroughoutLast(before + [events[i]]);
      assert events[i] in events;
      Step(line, events[i], before);
    }
    assert events[..|events|] == events;
  }

  /** The state that the growth test overlooks is reached by filling a new line: PQCHUNK - 1 packets,
      and the next one has no slot in an array of maxpq. */
  method FillUp(buf: seq<byte>) returns (line: Line)
    ensures fresh(line) && line.Valid() && line.npq + 1 == line.maxpq
  {
    hide Balanced, Fifo, Line.HeapValid, Line.Queued, NextKey, Wraps;
    line := new Line(false);
    for i := 0 to PQCHUNK - 1
      invariant fresh(line) && fresh(line.pqh) && line.Valid() && line.npq == i && line.maxpq == PQCHUNK
    {
      line.Enqueue(0, buf, 0, 1);
    }
  }
}
