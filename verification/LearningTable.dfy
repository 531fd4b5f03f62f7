/**
 * The address table of the IPN kernel switch (ipn/kvde_switch/ipn_hash.c).  Entries hang both in
 * hash buckets, where they are searched, and in one list in order of expiry, which the timer scans
 * from the front.  The lists hold element numbers, standing for the pointers of the code, so that an
 * entry is one object on two lists.
 */
module LearningTable {
  import opened Common

  type Id = nat
  type Mac = s: seq<byte> | |s| == 6 witness [0, 0, 0, 0, 0, 0]

  datatype Key = Key(mac: Mac, vlan: bv16)
  datatype Elem = Elem(key: Key, port: nat, expire: nat)
  datatype Entry = Entry(port: nat, expire: nat)

  // Sizes and hashing.

  predicate PowerOfTwo(n: nat) { n == 1 || (n > 1 && n % 2 == 0 && PowerOfTwo(n / 2)) }

  /** po2round: the smallest power of two that is not below vx. */
  method Po2Round(vx: nat) returns (rv: nat)
    requires 1 <= vx <= 0x4000_0000
    ensures PowerOfTwo(rv) && vx <= rv < 2 * vx
  {
    rv := 1;
    var x: nat := vx - 1;
    while x != 0
      invariant Halved(vx - 1, rv, x)
    {
      HalfStep(vx - 1, rv, x);
      x, rv := x / 2, 2 * rv;
    }
  }

  /** After some halvings of n the quotient is x and the divisor rv. */
  predicate Halved(n: nat, rv: nat, x: nat) {
    PowerOfTwo(rv) && rv * x <= n < rv * x + rv && rv < 2 * (n + 1)
  }

  lemma Quotient(rv: nat, h: nat, x: nat)
    requires x == 2 * h || x == 2 * h + 1
    ensures 2 * rv * h <= rv * x <= 2 * rv * h + rv
    ensures x > 0 ==> rv <= rv * x
  {
    if x == 2 * h {
      assert rv * x == 2 * rv * h;
    } else {
      assert rv * x == 2 * rv * h + rv;
    }
    if x > 0 { assert rv * x == rv + rv * (x - 1); }
  }

  lemma HalfStep(n: nat, rv: nat, x: nat)
    requires Halved(n, rv, x) && x != 0
    ensures Halved(n, 2 * rv, x / 2)
  {
    assert PowerOfTwo(2 * rv);
    Quotient(rv, x / 2, x);
  }

  lemma {:induction false} PowersApart(a: nat, b: nat)
    requires PowerOfTwo(a) && PowerOfTwo(b) && a < b
    ensures 2 * a <= b
  {
    if a > 1 { PowersApart(a / 2, b / 2); }
  }

  /** The table has `size` buckets and the mask reaches po2round(size) of them: no bucket index can
      fall outside exactly when the size is a power of two. */
  lemma MaskFits(size: nat, rounded: nat)
    requires size >= 1 && PowerOfTwo(rounded) && size <= rounded < 2 * size
    ensures rounded <= size <==> PowerOfTwo(size)
  {
    if PowerOfTwo(size) && size < rounded { PowersApart(size, rounded); }
  }

  function Word(mac: Mac, i: nat): bv32
    requires i < 3
  {
    var lo: int, hi: int := mac[2 * i], mac[2 * i + 1];
    (lo + 256 * hi) as bv32
  }

  /** Arithmetic shift of a signed int. */
  function Shift(x: bv32, n: nat): bv32
    requires n < 32
  {
    if x < 0x8000_0000 then x >> n else !(!x >> n)
  }

  /** hashfun, with mask == buckets - 1 for a power of two: taking the low bits is the remainder. */
  function Hash(key: Key, buckets: nat): (h: nat)
    requires buckets > 0
    ensures h < buckets
  {
    var x := Word(key.mac, 0) * 0x0305_0000 + Word(key.mac, 1) * 0x0709 + Word(key.mac, 2) * 0x0b0d_0000
             + key.vlan as bv32 * 0x1113;
    (x ^ Shift(x, 12) ^ Shift(x, 8) ^ Shift(x, 4)) as nat % buckets
  }

  // Lists of elements.

  function Without(q: seq<Id>, id: Id): seq<Id> {
    if q == [] then [] else (if q[0] == id then [] else [q[0]]) + Without(q[1..], id)
  }

  /** In order of expiry. */
  predicate Sorted(q: seq<Id>, elems: map<Id, Elem>)
    requires forall id :: id in q ==> id in elems
  {
    q == [] || ((forall id :: id in q[1..] ==> elems[q[0]].expire <= elems[id].expire) && Sorted(q[1..], elems))
  }

  lemma {:induction false} WithoutMembers(q: seq<Id>, id: Id, x: Id)
    ensures x in Without(q, id) <==> x in q && x != id
  {
    if q != [] {
      WithoutMembers(q[1..], id, x);
      assert q == [q[0]] + q[1..];
    }
  }

  lemma {:induction false} WithoutRepeats(q: seq<Id>, id: Id)
    requires NoRepeats(q)
    ensures NoRepeats(Without(q, id))
  {
    if q != [] {
      WithoutRepeats(q[1..], id);
      WithoutMembers(q[1..], id, q[0]);
      if q[0] != id { assert Without(q, id)[1..] == Without(q[1..], id); }
      else { assert Without(q, id) == Without(q[1..], id); }
    }
  }

  lemma {:induction false} WithoutSorted(q: seq<Id>, id: Id, elems: map<Id, Elem>, rest: map<Id, Elem>)
    requires forall x :: x in q ==> x in elems
    requires Sorted(q, elems)
    requires forall x :: x in elems && x != id ==> x in rest && rest[x] == elems[x]
    requires forall x :: x in Without(q, id) ==> x in rest
    ensures Sorted(Without(q, id), rest)
  {
    if q != [] {
      var w := Without(q[1..], id);
      forall x ensures x in w <==> x in q[1..] && x != id { WithoutMembers(q[1..], id, x); }
      WithoutSorted(q[1..], id, elems, rest);
      if q[0] != id { assert Without(q, id)[1..] == w; }
      else { assert Without(q, id) == w; }
    }
  }

  lemma {:induction false} AppendSorted(q: seq<Id>, id: Id, elems: map<Id, Elem>, more: map<Id, Elem>)
    requires forall x :: x in q ==> x in elems && x in more && more[x] == elems[x]
    requires Sorted(q, elems) && id in more
    requires forall x :: x in q ==> elems[x].expire <= more[id].expire
    ensures Sorted(q + [id], more)
  {
    if q == [] {
      assert q + [id] == [id];
    } else {
      assert (q + [id])[1..] == q[1..] + [id] && (q + [id])[0] == q[0];
      AppendSorted(q[1..], id, elems, more);
    }
  }

  // Both lists together.

  datatype Lists = Lists(elems: map<Id, Elem>, buckets: seq<seq<Id>>, lru: seq<Id>)

  predicate UniqueKeys(elems: map<Id, Elem>) {
    forall a, b :: a in elems && b in elems && elems[a].key == elems[b].key ==> a == b
  }

  /** Each element is once on the expiry list, and once in the bucket of its key and no other. */
  ghost predicate Linked(l: Lists) {
    && |l.buckets| > 0
    && NoRepeats(l.lru) && (forall id :: id in l.lru <==> id in l.elems)
    && (forall b :: 0 <= b < |l.buckets| ==> NoRepeats(l.buckets[b]))
    && (forall b, id :: 0 <= b < |l.buckets| ==>
         (id in l.buckets[b] <==> id in l.elems && Hash(l.elems[id].key, |l.buckets|) == b))
  }

  ghost predicate WellFormed(l: Lists) {
    Linked(l) && UniqueKeys(l.elems) && Sorted(l.lru, l.elems)
  }

  /** The elements are the entries of m. */
  ghost predicate Shows(elems: map<Id, Elem>, m: map<Key, Entry>) {
    && (forall id :: id in elems ==> elems[id].key in m && m[elems[id].key] == Entry(elems[id].port, elems[id].expire))
    && (forall k :: k in m ==> exists id :: id in elems && elems[id].key == k)
  }

  /** list_del, hlist_del. */
  function Unlink(l: Lists, id: Id): Lists
    requires |l.buckets| > 0 && id in l.elems
  {
    var b := Hash(l.elems[id].key, |l.buckets|);
    Lists(l.elems - {id}, l.buckets[b := Without(l.buckets[b], id)], Without(l.lru, id))
  }

  /** list_add_tail, hlist_add_head. */
  function Link(l: Lists, id: Id, e: Elem): Lists
    requires |l.buckets| > 0
  {
    var b := Hash(e.key, |l.buckets|);
    Lists(l.elems[id := e], l.buckets[b := [id] + l.buckets[b]], l.lru + [id])
  }

  lemma UnlinkLinked(l: Lists, id: Id)
    requires Linked(l) && id in l.elems
    ensures Linked(Unlink(l, id))
  {
    hide Hash;
    var b := Hash(l.elems[id].key, |l.buckets|);
    WithoutRepeats(l.lru, id);
    WithoutRepeats(l.buckets[b], id);
    forall x ensures x in Without(l.lru, id) <==> x in l.lru && x != id { WithoutMembers(l.lru, id, x); }
    forall x ensures x in Without(l.buckets[b], id) <==> x in l.buckets[b] && x != id {
      WithoutMembers(l.buckets[b], id, x);
    }
  }

  lemma UnlinkKeeps(l: Lists, id: Id)
    requires WellFormed(l) && id in l.elems
    ensures WellFormed(Unlink(l, id))
  {
    hide Hash, NoRepeats;
    UnlinkLinked(l, id);
    var r := Unlink(l, id);
    WithoutSorted(l.lru, id, l.elems, r.elems);
  }

  lemma UnlinkShows(l: Lists, id: Id, m: map<Key, Entry>)
    requires |l.buckets| > 0 && id in l.elems && UniqueKeys(l.elems) && Shows(l.elems, m)
    ensures Shows(Unlink(l, id).elems, m - {l.elems[id].key})
  {
    hide Hash;
    var r := Unlink(l, id);
    forall k | k in m - {l.elems[id].key} ensures exists x :: x in r.elems && r.elems[x].key == k {
      var x :| x in l.elems && l.elems[x].key == k;
      assert r.elems[x].key == k;
    }
  }

  lemma LinkLinked(l: Lists, id: Id, e: Elem)
    requires Linked(l) && id !in l.elems
    ensures Linked(Link(l, id, e))
  {
    hide Hash;
    AppendRepeats(l.lru, id);
    var b := Hash(e.key, |l.buckets|);
    assert ([id] + l.buckets[b])[1..] == l.buckets[b];
  }

  lemma LinkShows(l: Lists, id: Id, e: Elem, m: map<Key, Entry>)
    requires |l.buckets| > 0 && UniqueKeys(l.elems) && Shows(l.elems, m) && id !in l.elems && e.key !in m
    ensures UniqueKeys(Link(l, id, e).elems)
    ensures Shows(Link(l, id, e).elems, m[e.key := Entry(e.port, e.expire)])
  {
    hide Hash, UniqueKeys, Shows;
    AddShows(l.elems, id, e, m);
  }

  lemma AddShows(elems: map<Id, Elem>, id: Id, e: Elem, m: map<Key, Entry>)
    requires UniqueKeys(elems) && Shows(elems, m) && id !in elems && e.key !in m
    ensures UniqueKeys(elems[id := e])
    ensures Shows(elems[id := e], m[e.key := Entry(e.port, e.expire)])
  {
    var r := elems[id := e];
    forall k | k in m ensures exists x :: x in r && r[x].key == k {
      var x :| x in elems && elems[x].key == k;
      assert r[x].key == k;
    }
    assert r[id].key == e.key;
  }

  lemma LinkKeeps(l: Lists, id: Id, e: Elem, m: map<Key, Entry>)
    requires WellFormed(l) && Shows(l.elems, m) && id !in l.elems && e.key !in m
    requires forall x :: x in l.elems ==> l.elems[x].expire <= e.expire
    ensures WellFormed(Link(l, id, e))
    ensures Shows(Link(l, id, e).elems, m[e.key := Entry(e.port, e.expire)])
  {
    LinkLinked(l, id, e);
    LinkShows(l, id, e, m);
    hide Hash, NoRepeats, Shows, UniqueKeys;
    AppendSorted(l.lru, id, l.elems, Link(l, id, e).elems);
  }

  // The map that the table stands for.

  function Learn(m: map<Key, Entry>, key: Key, port: nat, expire: nat, room: bool): map<Key, Entry> {
    if key in m || room then m[key := Entry(port, expire)] else m
  }

  function DropPort(m: map<Key, Entry>, port: nat): map<Key, Entry> {
    map k | k in m && m[k].port != port :: m[k]
  }

  function DropExpired(m: map<Key, Entry>, now: nat): map<Key, Entry> {
    map k | k in m && m[k].expire >= now :: m[k]
  }

  /** The lists are in order and hold exactly the entries of m. */
  ghost predicate Rep(l: Lists, m: map<Key, Entry>) { WellFormed(l) && Shows(l.elems, m) }

  /** No entry expires later than a full timeout from now; a table with entries has its timer set,
      for the first expiry or before. */
  ghost predicate Timed(l: Lists, timer: Option<nat>, now: nat, timeout: nat) {
    && Within(l, now + timeout)
    && (timer.Some? ==> timer.value <= now + timeout)
    && (l.lru != [] ==> l.lru[0] in l.elems && timer.Some? && timer.value <= l.elems[l.lru[0]].expire)
  }

  predicate Within(l: Lists, limit: nat) { forall id :: id in l.elems ==> l.elems[id].expire <= limit }

  /** The first element of the expiry list is the first to expire. */
  lemma HeadFirst(l: Lists, id: Id)
    requires WellFormed(l) && id in l.elems
    ensures l.lru != [] && l.elems[l.lru[0]].expire <= l.elems[id].expire
  {
    hide Hash, NoRepeats;
    assert l.lru == [l.lru[0]] + l.lru[1..];
  }

  lemma RemoveRep(l: Lists, id: Id, m: map<Key, Entry>)
    requires Rep(l, m) && id in l.elems
    ensures |l.buckets| > 0 && Rep(Unlink(l, id), m - {l.elems[id].key})
  {
    UnlinkKeeps(l, id);
    UnlinkShows(l, id, m);
    hide Hash, Shows, WellFormed;
  }

  lemma RemoveTimed(l: Lists, id: Id, timer: Option<nat>, now: nat, timeout: nat)
    requires WellFormed(l) && id in l.elems && Timed(l, timer, now, timeout)
    ensures Timed(Unlink(l, id), timer, now, timeout)
  {
    UnlinkKeeps(l, id);
    hide Hash, NoRepeats, Sorted, Without;
    var r := Unlink(l, id);
    if r.lru != [] {
      assert r.lru[0] in r.elems;
      HeadFirst(l, r.lru[0]);
    }
  }

  lemma InsertTimed(l: Lists, id: Id, e: Elem, timer: Option<nat>, now: nat, timeout: nat)
    requires |l.buckets| > 0 && id !in l.elems && Timed(l, timer, now, timeout) && e.expire == now + timeout
    ensures Timed(Link(l, id, e), if timer.Some? then timer else Some(now + timeout), now, timeout)
  {
    hide Hash;
  }

  lemma Shown(l: Lists, m: map<Key, Entry>, id: Id)
    requires Rep(l, m) && id in l.elems
    ensures l.elems[id].key in m && m[l.elems[id].key] == Entry(l.elems[id].port, l.elems[id].expire)
  {
    hide WellFormed;
  }

  lemma Held(l: Lists, m: map<Key, Entry>, key: Key) returns (id: Id)
    requires Rep(l, m) && key in m
    ensures id in l.elems && l.elems[id].key == key
    ensures |l.buckets| > 0 && id in l.buckets[Hash(key, |l.buckets|)]
  {
    hide NoRepeats, Sorted, Hash;
    id :| id in l.elems && l.elems[id].key == key;
  }

  class Table {
    const timeout: nat
    var l: Lists
    var timer: Option<nat>                // when the pending timer is due
    ghost var m: map<Key, Entry>          // the map that the lists stand for
    ghost var clock: nat                  // jiffies at the last operation

    ghost predicate Valid()
      reads this
    {
      |l.buckets| > 0 && Rep(l, m) && Timed(l, timer, clock, timeout)
    }

    /** ipn_hash_new, for a number of buckets that the mask covers. */
    constructor (size: nat, timeout: nat)
      requires PowerOfTwo(size)
      ensures Valid() && m == map[] && this.timeout == timeout && clock == 0
    {
      this.timeout := timeout;
      l := Lists(map[], seq(size, _ => []), []);
      timer, m, clock := None, map[], 0;
    }

    /** The search both ipn_hash_add and ipn_hash_find begin with. */
    method Search(key: Key) returns (r: Option<Id>)
      requires Valid()
      ensures match r
        case Some(id) => id in l.elems && l.elems[id].key == key && key in m && m[key].port == l.elems[id].port
        case None => key !in m
    {
      hide NoRepeats, Sorted, Hash, Timed, Shows;
      var b := Hash(key, |l.buckets|);
      var i := 0;
      while i < |l.buckets[b]|
        invariant i <= |l.buckets[b]|
        invariant forall j :: 0 <= j < i ==> l.buckets[b][j] in l.elems && l.elems[l.buckets[b][j]].key != key
      {
        var id := l.buckets[b][i];
        assert id in l.buckets[b];
        if l.elems[id].key == key {
          Shown(l, m, id);
          return Some(id);
        }
        i := i + 1;
      }
      r := None;
      Missing(key);
    }

    lemma Missing(key: Key)
      requires Valid()
      requires var bucket := l.buckets[Hash(key, |l.buckets|)];
        forall j :: 0 <= j < |bucket| ==> bucket[j] in l.elems && l.elems[bucket[j]].key != key
      ensures key !in m
    {
      hide Rep, Timed, Hash;
      if key in m { var id := Held(l, m, key); }
    }

    /** ipn_hash_find. */
    method Find(key: Key) returns (rv: int)
      requires Valid()
      ensures rv == if key in m then m[key].port else -1
    {
      hide Rep, Timed;
      var r := Search(key);
      rv := if r.Some? then l.elems[r.value].port else -1;
    }

    method Remove(id: Id)
      requires Valid() && id in l.elems
      modifies this`l, this`m
      ensures Valid() && l.elems == old(l.elems) - {id} && m == old(m) - {old(l.elems[id].key)}
    {
      RemoveRep(l, id, m);
      RemoveTimed(l, id, timer, clock, timeout);
      hide Rep, Timed, Hash;
      m := m - {l.elems[id].key};
      l := Unlink(l, id);
    }

    method Insert(id: Id, key: Key, port: nat, now: nat)
      requires Valid() && id !in l.elems && key !in m && now == clock
      modifies this`l, this`m, this`timer
      ensures Valid() && m == old(m)[key := Entry(port, now + timeout)]
      ensures l.elems.Keys == old(l.elems.Keys) + {id}
      ensures timer == if old(timer).Some? then old(timer) else Some(now + timeout)
    {
      hide WellFormed, Shows, Hash;
      var e := Elem(key, port, now + timeout);
      LinkKeeps(l, id, e, m);
      InsertTimed(l, id, e, timer, now, timeout);
      hide Timed;
      m := m[key := Entry(port, now + timeout)];
      l := Link(l, id, e);
      if timer.None? { timer := Some(now + timeout); }
    }

    method Tick(now: nat)
      requires Valid() && now >= clock
      modifies this`clock
      ensures Valid() && clock == now
    {
      hide Rep;
      clock := now;
    }

    /** ipn_hash_add at time `now`; `alloc` is what the allocator returns. */
    method Add(key: Key, port: nat, now: nat, alloc: Option<Id>)
      requires Valid() && now >= clock
      requires alloc.Some? ==> alloc.value !in l.elems
      modifies this
      ensures Valid() && clock == now
      ensures m == Learn(old(m), key, port, now + timeout, timeout > 0 && alloc.Some?)
      ensures l.elems.Keys <= old(l.elems.Keys) + if alloc.Some? then {alloc.value} else {}
      ensures timer == if old(timer).None? && (key in old(m) || (timeout > 0 && alloc.Some?)) then Some(now + timeout)
                       else old(timer)
    {
      hide Rep, Timed;
      Tick(now);
      var r := Search(key);
      if r.Some? {
        Remove(r.value);
        Insert(r.value, key, port, now);
      } else if timeout > 0 && alloc.Some? {
        Insert(alloc.value, key, port, now);
      }
    }

    /** What is left to do of a flush of `port`, once the elements outside `rest` are done. */
    ghost predicate Flushed(was: map<Key, Entry>, port: nat, rest: seq<Id>)
      reads this
    {
      && (forall id :: id in rest ==> id in l.elems)
      && (forall k :: k in m ==> k in was && m[k] == was[k])
      && (forall k :: k in was && was[k].port != port ==> k in m)
      && (forall id :: id in l.elems && l.elems[id].port == port ==> id in rest)
    }

    lemma FlushDone(was: map<Key, Entry>, port: nat)
      requires Valid() && Flushed(was, port, [])
      ensures m == DropPort(was, port)
    {
      hide Rep, Timed;
      forall k | k in m ensures m[k].port != port {
        var id := Held(l, m, k);
        Shown(l, m, id);
      }
    }

    lemma Whole(port: nat)
      requires Valid()
      ensures Flushed(m, port, l.lru) && NoRepeats(l.lru)
    {
      hide Hash, Sorted, Shows;
    }

    /** ipn_hash_flush_port. */
    method FlushPort(port: nat)
      requires Valid()
      modifies this`l, this`m
      ensures Valid() && m == DropPort(old(m), port) && l.elems.Keys <= old(l.elems.Keys)
    {
      hide Rep, Timed;
      Whole(port);
      var rest := l.lru;
      while rest != []
        invariant Valid() && NoRepeats(rest) && Flushed(old(m), port, rest) && l.elems.Keys <= old(l.elems.Keys)
        decreases |rest|
      {
        var id := rest[0];
        assert id in rest;
        assert rest == [id] + rest[1..];
        rest := rest[1..];
        Shown(l, m, id);
        if l.elems[id].port == port { Remove(id); }
      }
      FlushDone(old(m), port);
    }

    /** ipn_hash_timer_expired at time `now`: the timer is no longer pending when it runs. */
    method TimerExpired(now: nat)
      requires Valid() && now >= clock
      modifies this
      ensures Valid() && clock == now && m == DropExpired(old(m), now) && l.elems.Keys <= old(l.elems.Keys)
      ensures timer.Some? <==> m != map[]
      ensures timer.Some? ==> exists k :: k in m && m[k].expire == timer.value
      ensures timer.Some? ==> forall k :: k in m ==> timer.value <= m[k].expire
    {
      ScanStart(l, m, timer, clock, now, timeout);
      hide Rep, Timed, Scanning, Hash, DropExpired, Without;
      clock, timer := now, None;
      while l.lru != []
        invariant |l.buckets| > 0 && Scanning(l, m, old(m), now, timeout) && timer == None && clock == now
        invariant l.elems.Keys <= old(l.elems.Keys)
        decreases l.elems.Keys
      {
        var id := l.lru[0];
        OnList(l, m, old(m), now, timeout);
        if l.elems[id].expire >= now {
          timer := Some(l.elems[id].expire);
          break;
        }
        ScanOne(id, old(m), now);
      }
      ScanDone(l, m, old(m), timer, now, timeout);
      NextExpiry();
    }

    /** The head of the expiry list is the entry to expire next. */
    lemma NextExpiry()
      requires Valid()
      ensures l.lru == [] <==> m == map[]
      ensures l.lru != [] ==>
        && l.lru[0] in l.elems
        && (exists k :: k in m && m[k].expire == l.elems[l.lru[0]].expire)
        && forall k :: k in m ==> l.elems[l.lru[0]].expire <= m[k].expire
    {
      hide Hash, Timed, NoRepeats, Sorted;
      forall k | k in m ensures l.lru != [] && l.elems[l.lru[0]].expire <= m[k].expire {
        var id := Held(l, m, k);
        Shown(l, m, id);
        HeadFirst(l, id);
      }
      if l.lru != [] {
        assert l.lru[0] in l.lru;
        Shown(l, m, l.lru[0]);
      }
    }

    method ScanOne(id: Id, ghost was: map<Key, Entry>, now: nat)
      requires |l.buckets| > 0 && Scanning(l, m, was, now, timeout) && id in l.elems && l.elems[id].expire < now
      modifies this`l, this`m
      ensures |l.buckets| > 0 && Scanning(l, m, was, now, timeout) && l.elems.Keys < old(l.elems.Keys)
    {
      ScanRemoves(l, id, m, was, now, timeout);
      hide Scanning, Hash;
      m := m - {l.elems[id].key};
      l := Unlink(l, id);
    }

    /** As long as the pending timer is not overdue, no entry has outlived its expiry. */
    lemma NothingStale(now: nat, key: Key)
      requires Valid() && (timer.Some? ==> now <= timer.value) && key in m
      ensures now <= m[key].expire
    {
      hide Hash, NoRepeats, Sorted, Linked, Shows;
      var id := Held(l, m, key);
      Shown(l, m, id);
      HeadFirst(l, id);
    }

    /** Any sequence of operations; the allocator gives out element numbers from `next` on. */
    method Run(events: seq<Event>, next: Id)
      requires Valid() && Timely(clock, events) && forall id :: id in l.elems ==> id < next
      modifies this
      ensures Valid() && m == After(old(m), events, timeout)
    {
      hide Rep, Timed;
      var i := 0;
      assert events[..0] == [];
      while i < |events|
        invariant i <= |events| && Valid() && m == After(old(m), events[..i], timeout)
        invariant Timely(clock, events[i..])
        invariant forall id :: id in l.elems ==> id < next + i
      {
        assert events[..i + 1][..i] == events[..i];
        assert events[i..][0] == events[i] && events[i..][1..] == events[i + 1..];
        match events[i] {
          case Add(key, port, now, room) => Add(key, port, now, if room then Some(next + i) else None);
          case Flush(port) => FlushPort(port);
          case Timer(now) => TimerExpired(now);
        }
        i := i + 1;
      }
      assert events[..i] == events;
    }
  }

  // Whole runs.

  datatype Event =
    | Add(key: Key, port: nat, now: nat, room: bool)     // room: memory for a new element
    | Flush(port: nat)
    | Timer(now: nat)

  predicate Timely(clock: nat, events: seq<Event>)
    decreases |events|
  {
    events == [] ||
    if events[0].Flush? then Timely(clock, events[1..])
    else clock <= events[0].now && Timely(events[0].now, events[1..])
  }

  function Next(m: map<Key, Entry>, e: Event, timeout: nat): map<Key, Entry> {
    match e
    case Add(key, port, now, room) => Learn(m, key, port, now + timeout, timeout > 0 && room)
    case Flush(port) => DropPort(m, port)
    case Timer(now) => DropExpired(m, now)
  }

  function After(m: map<Key, Entry>, events: seq<Event>, timeout: nat): map<Key, Entry> {
    if events == [] then m else Next(After(m, events[..|events| - 1], timeout), events[|events| - 1], timeout)
  }

  /** Nothing from the i-th event on learns the key again, flushes its port or expires its entry. */
  predicate Undisturbed(events: seq<Event>, i: nat, key: Key, e: Entry) {
    forall j :: i <= j < |events| ==>
      match events[j]
      case Add(k, _, _, _) => k != key
      case Flush(port) => port != e.port
      case Timer(now) => now <= e.expire
  }

  predicate LearnedAt(events: seq<Event>, i: nat, key: Key, e: Entry, timeout: nat) {
    && i < |events| && events[i].Add? && events[i].key == key
    && e == Entry(events[i].port, events[i].now + timeout)
    && Undisturbed(events, i + 1, key, e)
  }

  /** Every entry was put there by the last event that named its key, and nothing has touched it since. */
  lemma {:induction false} EntryHasSource(events: seq<Event>, key: Key, timeout: nat)
    requires key in After(map[], events, timeout)
    ensures exists i :: LearnedAt(events, i, key, After(map[], events, timeout)[key], timeout)
    decreases |events|
  {
    var n := |events| - 1;
    var before := events[..n];
    var m := After(map[], before, timeout);
    var e := After(map[], events, timeout)[key];
    if events[n].Add? && events[n].key == key {
      assert LearnedAt(events, n, key, e, timeout);
    } else {
      EntryHasSource(before, key, timeout);
      var i :| LearnedAt(before, i, key, m[key], timeout);
      assert LearnedAt(events, i, key, e, timeout);
    }
  }

  /** Whatever was learned with memory at hand, and not touched since, is found. */
  lemma {:induction false} LearnedIsKept(events: seq<Event>, i: nat, key: Key, e: Entry, timeout: nat)
    requires LearnedAt(events, i, key, e, timeout) && events[i].room && timeout > 0
    ensures key in After(map[], events, timeout) && After(map[], events, timeout)[key] == e
    decreases |events|
  {
    var n := |events| - 1;
    if i < n {
      assert forall j :: 0 <= j < n ==> events[..n][j] == events[j];
      LearnedIsKept(events[..n], i, key, e, timeout);
    }
  }

  /** What holds during a scan for entries that expired before `now`. */
  ghost predicate Scanning(l: Lists, m: map<Key, Entry>, was: map<Key, Entry>, now: nat, timeout: nat) {
    && Rep(l, m) && Within(l, now + timeout)
    && (forall k :: k in m ==> k in was && m[k] == was[k])
    && (forall k :: k in was && was[k].expire >= now ==> k in m)
  }

  lemma ScanStart(l: Lists, m: map<Key, Entry>, timer: Option<nat>, clock: nat, now: nat, timeout: nat)
    requires Rep(l, m) && Timed(l, timer, clock, timeout) && clock <= now
    ensures Scanning(l, m, m, now, timeout)
  {
    hide Rep;
  }

  lemma ScanRemoves(l: Lists, id: Id, m: map<Key, Entry>, was: map<Key, Entry>, now: nat, timeout: nat)
    requires Scanning(l, m, was, now, timeout) && id in l.elems && l.elems[id].expire < now
    ensures |l.buckets| > 0 && Scanning(Unlink(l, id), m - {l.elems[id].key}, was, now, timeout)
  {
    Shown(l, m, id);
    RemoveRep(l, id, m);
    hide Rep, Hash;
  }

  /** Once the first entry has not expired, none has. */
  lemma ScanDone(l: Lists, m: map<Key, Entry>, was: map<Key, Entry>, timer: Option<nat>, now: nat, timeout: nat)
    requires Scanning(l, m, was, now, timeout)
    requires if l.lru == [] then timer == None
             else l.lru[0] in l.elems && l.elems[l.lru[0]].expire >= now && timer == Some(l.elems[l.lru[0]].expire)
    ensures m == DropExpired(was, now) && Rep(l, m) && Timed(l, timer, now, timeout)
  {
    hide Hash, NoRepeats, Sorted, Linked, Shows;
    forall k | k in m ensures m[k].expire >= now {
      var id := Held(l, m, k);
      Shown(l, m, id);
      HeadFirst(l, id);
    }
  }

  lemma OnList(l: Lists, m: map<Key, Entry>, was: map<Key, Entry>, now: nat, timeout: nat)
    requires Scanning(l, m, was, now, timeout) && l.lru != []
    ensures l.lru[0] in l.elems
  {
    hide Hash, NoRepeats, Sorted, Shows;
    assert l.lru[0] in l.lru;
  }
}
