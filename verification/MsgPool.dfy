/**
 * The message pool of an IPN network.  One message is shared by reference count between the sender
 * that allocated it, the queues of the nodes it was sent to and the readers that are copying it.
 * Threads interleave freely: every transition below is one section that the code runs under a spin
 * lock or as one atomic instruction, and a thread that is between two such sections is recorded in
 * `senders`, `holders`, `born` or `retiring`.
 */
module MsgPool {
  import opened Common

  type Id = nat

  const U16 := 65536

  /** The last four fields are histories: every message ever queued and ever taken off. */
  datatype Node = Node(
    msgq: seq<Id>, oobq: seq<Id>,
    tot: nat, oob: nat,                 // totmsgcount and oobmsgcount, unsigned short
    noRecv: bool, noOob: bool,          // RCV_SHUTDOWN and RCV_SHUTDOWN_NO_OOB
    msgIn: seq<Id>, msgOut: seq<Id>, oobIn: seq<Id>, oobOut: seq<Id>)

  /** `fault` is raised by any access to the count of an item that is not allocated. */
  datatype Pool = Pool(items: map<Id, nat>, issued: set<Id>, frees: seq<Id>, retiring: set<Id>, fault: bool)

  datatype Net = Net(
    size: nat, lossless: bool,          // msgpool_size, IPN_FLAG_LOSSLESS
    pool: Pool, nelem: int,             // msgpool_nelem
    nodes: seq<Node>,
    senders: multiset<Id>,              // one reference for each sender under way
    holders: multiset<Id>,              // one reference for each reader or flush that took a message off a queue
    born: set<Id>)                      // allocated, msgpool_nelem not incremented yet

  datatype Step =
    | Alloc(id: Id)
    | CountIn(id: Id)
    | Send(id: Id, to: nat, memory: bool)
    | SendOob(id: Id, to: nat, memory: bool)
    | PutSender(id: Id)
    | Read(at: nat)
    | FlushMsg(at: nat)
    | FlushOob(at: nat)
    | PutHolder(id: Id)
    | CountOut(id: Id)
    | Join
    | Shutdown(at: nat, noRecv: bool, noOob: bool)

  function Fresh(size: nat, lossless: bool): Net {
    Net(size, lossless, Pool(map[], {}, [], {}, false), 0, [], multiset{}, multiset{}, {})
  }

  function EmptyNode(): Node { Node([], [], 0, 0, false, true, [], [], [], []) }

  /** ipn_msgpool_hold. */
  function Hold(p: Pool, id: Id): Pool {
    if id in p.items then p.(items := p.items[id := p.items[id] + 1]) else p.(fault := true)
  }

  /** atomic_dec_and_test and the free that follows it. */
  function Put(p: Pool, id: Id): Pool {
    if id !in p.items || p.items[id] == 0 then p.(fault := true)
    else if p.items[id] == 1 then
      p.(items := p.items - {id}, frees := p.frees + [id], retiring := p.retiring + {id})
    else p.(items := p.items[id := p.items[id] - 1])
  }

  function Dec(n: nat): nat { (n + U16 - 1) % U16 }

  function PushMsg(n: Node, id: Id): Node {
    n.(msgq := n.msgq + [id], tot := (n.tot + 1) % U16, msgIn := n.msgIn + [id])
  }

  function PushOob(n: Node, id: Id): Node {
    n.(oobq := n.oobq + [id], tot := (n.tot + 1) % U16, oob := (n.oob + 1) % U16, oobIn := n.oobIn + [id])
  }

  function PopMsg(n: Node): Node
    requires n.msgq != []
  {
    n.(msgq := n.msgq[1..], tot := Dec(n.tot), msgOut := n.msgOut + [n.msgq[0]])
  }

  function PopOob(n: Node): Node
    requires n.oobq != []
  {
    n.(oobq := n.oobq[1..], tot := Dec(n.tot), oob := Dec(n.oob), oobOut := n.oobOut + [n.oobq[0]])
  }

  predicate AcceptsMsg(s: Net, n: Node) { !n.noRecv && (s.lossless || n.tot < s.size) }
  predicate AcceptsOob(s: Net, n: Node) { !n.noOob && (s.lossless || n.oob < s.size) }

  function MsgTaken(s: Net, at: nat): Net
    requires at < |s.nodes| && s.nodes[at].msgq != []
  {
    s.(nodes := s.nodes[at := PopMsg(s.nodes[at])], holders := s.holders + multiset{s.nodes[at].msgq[0]})
  }

  function OobTaken(s: Net, at: nat): Net
    requires at < |s.nodes| && s.nodes[at].oobq != []
  {
    s.(nodes := s.nodes[at := PopOob(s.nodes[at])], holders := s.holders + multiset{s.nodes[at].oobq[0]})
  }

  /** ipn_node_read up to the end of its locked section: it waits while totmsgcount is 0, and
      takes an oob message first.  Finding neither queue filled would be a read past the list. */
  function ReadStep(s: Net, at: nat): Net
    requires at < |s.nodes|
  {
    var n := s.nodes[at];
    if n.tot == 0 || (n.noRecv && n.noOob) then s
    else if n.oobq != [] then OobTaken(s, at)
    else if n.msgq != [] then MsgTaken(s, at)
    else s.(pool := s.pool.(fault := true))
  }

  /** A step that its thread cannot take in this state leaves the state alone. */
  function Apply(s: Net, step: Step): Net {
    match step
    case Alloc(id) =>
      if id in s.pool.issued then s
      else s.(pool := s.pool.(items := s.pool.items[id := 1], issued := s.pool.issued + {id}),
              senders := s.senders + multiset{id}, born := s.born + {id})
    case CountIn(id) =>
      if id in s.born then s.(born := s.born - {id}, nelem := s.nelem + 1) else s
    case Send(id, to, memory) =>
      if id in s.senders && id !in s.born && to < |s.nodes| && memory && AcceptsMsg(s, s.nodes[to])
      then s.(nodes := s.nodes[to := PushMsg(s.nodes[to], id)], pool := Hold(s.pool, id))
      else s
    case SendOob(id, to, memory) =>
      if id in s.senders && id !in s.born && to < |s.nodes| && memory && AcceptsOob(s, s.nodes[to])
      then s.(nodes := s.nodes[to := PushOob(s.nodes[to], id)], pool := Hold(s.pool, id))
      else s
    case PutSender(id) =>
      if id in s.senders && id !in s.born then s.(senders := s.senders - multiset{id}, pool := Put(s.pool, id)) else s
    case Read(at) => if at < |s.nodes| then ReadStep(s, at) else s
    case FlushMsg(at) => if at < |s.nodes| && s.nodes[at].msgq != [] then MsgTaken(s, at) else s
    case FlushOob(at) => if at < |s.nodes| && s.nodes[at].oobq != [] then OobTaken(s, at) else s
    case PutHolder(id) =>
      if id in s.holders then s.(holders := s.holders - multiset{id}, pool := Put(s.pool, id)) else s
    case CountOut(id) =>
      if id in s.pool.retiring
      then s.(pool := s.pool.(retiring := s.pool.retiring - {id}), nelem := s.nelem - 1)
      else s
    case Join => s.(nodes := s.nodes + [EmptyNode()])
    case Shutdown(at, noRecv, noOob) =>
      if at < |s.nodes| then s.(nodes := s.nodes[at := s.nodes[at].(noRecv := noRecv, noOob := noOob)]) else s
  }

  function Exec(s: Net, steps: seq<Step>): Net
    decreases |steps|
  {
    if steps == [] then s else Exec(Apply(s, steps[0]), steps[1..])
  }

  // What holds in every reachable state.

  function Count(p: Pool, id: Id): nat { if id in p.items then p.items[id] else 0 }

  function Occurs(q: seq<Id>, id: Id): nat {
    if q == [] then 0 else (if q[0] == id then 1 else 0) + Occurs(q[1..], id)
  }

  function NodeUses(n: Node, id: Id): nat { Occurs(n.msgq, id) + Occurs(n.oobq, id) }

  /** How many queue entries point to an item. */
  function Uses(ns: seq<Node>, id: Id): nat {
    if ns == [] then 0 else NodeUses(ns[0], id) + Uses(ns[1..], id)
  }

  function Refs(s: Net, id: Id): nat { s.senders[id] + s.holders[id] + Uses(s.nodes, id) }

  ghost predicate Balanced(s: Net) {
    forall id :: Count(s.pool, id) == Refs(s, id)
  }

  /** Every issued item is live or freed, and none is freed twice. */
  ghost predicate Lifetimes(p: Pool) {
    && !p.fault
    && NoRepeats(p.frees)
    && (forall id :: id in p.issued <==> id in p.items || id in p.frees)
    && (forall id :: id in p.items ==> id !in p.frees && p.items[id] > 0)
    && (forall id :: id in p.retiring ==> id in p.frees)
  }

  predicate Numbers(s: Net) {
    && (forall id :: id in s.born ==> id in s.senders && Count(s.pool, id) == 1)
    && s.nelem == |s.pool.items.Keys| - |s.born| + |s.pool.retiring|
  }

  /** Counters are the queue lengths as far as 16 bits go, and both queues are first in first out. */
  predicate Orderly(n: Node) {
    && n.tot == (|n.msgq| + |n.oobq|) % U16
    && n.oob == |n.oobq| % U16
    && n.msgIn == n.msgOut + n.msgq
    && n.oobIn == n.oobOut + n.oobq
  }

  /** On a lossy net: the oob queue is bounded for every pool size, the other one up to 32767. */
  predicate Bounded(size: nat, lossless: bool, n: Node) {
    !lossless && size < U16 ==> |n.oobq| <= size && (2 * size < U16 ==> |n.msgq| <= size)
  }

  predicate Sound(s: Net) {
    forall i :: 0 <= i < |s.nodes| ==> Orderly(s.nodes[i]) && Bounded(s.size, s.lossless, s.nodes[i])
  }

  ghost predicate Inv(s: Net) { Lifetimes(s.pool) && Balanced(s) && Numbers(s) && Sound(s) }

  // Counting queue entries.

  lemma {:induction false} OccursAppend(q: seq<Id>, x: Id, id: Id)
    ensures Occurs(q + [x], id) == Occurs(q, id) + if x == id then 1 else 0
  {
    if q == [] {
      assert q + [x] == [x];
    } else {
      assert (q + [x])[1..] == q[1..] + [x];
      OccursAppend(q[1..], x, id);
    }
  }

  lemma {:induction false} UsesUpdate(ns: seq<Node>, i: nat, n: Node, id: Id)
    requires i < |ns|
    ensures Uses(ns[i := n], id) == Uses(ns, id) - NodeUses(ns[i], id) + NodeUses(n, id)
  {
    if i > 0 {
      assert ns[i := n][1..] == ns[1..][i - 1 := n];
      UsesUpdate(ns[1..], i - 1, n, id);
    } else {
      assert ns[i := n][1..] == ns[1..];
    }
  }

  lemma {:induction false} UsesAppend(ns: seq<Node>, n: Node, id: Id)
    ensures Uses(ns + [n], id) == Uses(ns, id) + NodeUses(n, id)
  {
    if ns == [] {
      assert ([n])[1..] == [] && ns + [n] == [n];
    } else {
      assert (ns + [n])[1..] == ns[1..] + [n];
      UsesAppend(ns[1..], n, id);
    }
  }

  // The pool.

  lemma PutLifetimes(p: Pool, id: Id)
    requires Lifetimes(p) && id in p.items
    ensures Lifetimes(Put(p, id))
  {
    var f := p.frees + [id];
    assert forall x :: x in f <==> x in p.frees || x == id;
    AppendRepeats(p.frees, id);
    hide NoRepeats;
  }

  lemma PutNumbers(p: Pool, id: Id)
    requires id in p.items && p.items[id] > 0 && id !in p.retiring
    ensures |Put(p, id).items.Keys| + |Put(p, id).retiring| == |p.items.Keys| + |p.retiring|
  {
    if p.items[id] == 1 {
      assert Put(p, id).items.Keys == p.items.Keys - {id};
    } else {
      assert Put(p, id).items.Keys == p.items.Keys;
    }
  }

  lemma PutCounts(p: Pool, id: Id, x: Id)
    requires id in p.items && p.items[id] > 0
    ensures Count(Put(p, id), x) == Count(p, x) - if x == id then 1 else 0
  {}

  // Steps.

  lemma SendKeeps(s: Net, to: nat, id: Id, n: Node)
    requires Inv(s) && id in s.senders && id !in s.born && to < |s.nodes|
    requires forall x :: NodeUses(n, x) == NodeUses(s.nodes[to], x) + if x == id then 1 else 0
    requires Orderly(n) && Bounded(s.size, s.lossless, n)
    ensures Inv(s.(nodes := s.nodes[to := n], pool := Hold(s.pool, id)))
  {
    hide Orderly, Bounded, NodeUses, Uses;
    var t := s.(nodes := s.nodes[to := n], pool := Hold(s.pool, id));
    assert Refs(s, id) > 0;
    assert Count(s.pool, id) == Refs(s, id);
    assert t.pool.items.Keys == s.pool.items.Keys;
    forall x ensures Count(t.pool, x) == Refs(t, x) {
      UsesUpdate(s.nodes, to, n, x);
      assert Count(s.pool, x) == Refs(s, x);
    }
  }

  lemma TakeKeeps(s: Net, at: nat, id: Id, n: Node)
    requires Inv(s) && at < |s.nodes|
    requires forall x :: NodeUses(s.nodes[at], x) == NodeUses(n, x) + if x == id then 1 else 0
    requires Orderly(n) && Bounded(s.size, s.lossless, n)
    ensures Inv(s.(nodes := s.nodes[at := n], holders := s.holders + multiset{id}))
  {
    hide Orderly, Bounded, NodeUses, Uses, Lifetimes;
    var t := s.(nodes := s.nodes[at := n], holders := s.holders + multiset{id});
    forall x ensures Count(t.pool, x) == Refs(t, x) {
      UsesUpdate(s.nodes, at, n, x);
      assert Count(s.pool, x) == Refs(s, x);
    }
  }

  lemma DecExact(n: nat)
    requires n > 0
    ensures Dec(n % U16) == (n - 1) % U16
  {}

  lemma IncExact(n: nat)
    ensures (n % U16 + 1) % U16 == (n + 1) % U16
  {}

  lemma PopMsgSound(size: nat, lossless: bool, n: Node)
    requires n.msgq != [] && Orderly(n) && Bounded(size, lossless, n)
    ensures Orderly(PopMsg(n)) && Bounded(size, lossless, PopMsg(n))
  {
    DecExact(|n.msgq| + |n.oobq|);
    hide Dec;
    assert n.msgOut + n.msgq == n.msgOut + [n.msgq[0]] + n.msgq[1..];
  }

  lemma PopOobSound(size: nat, lossless: bool, n: Node)
    requires n.oobq != [] && Orderly(n) && Bounded(size, lossless, n)
    ensures Orderly(PopOob(n)) && Bounded(size, lossless, PopOob(n))
  {
    DecExact(|n.msgq| + |n.oobq|);
    DecExact(|n.oobq|);
    hide Dec;
    assert n.oobOut + n.oobq == n.oobOut + [n.oobq[0]] + n.oobq[1..];
  }

  lemma TakenKeeps(s: Net, at: nat)
    requires Inv(s) && at < |s.nodes|
    ensures s.nodes[at].msgq != [] ==> Inv(MsgTaken(s, at))
    ensures s.nodes[at].oobq != [] ==> Inv(OobTaken(s, at))
  {
    hide Orderly, Bounded, Lifetimes, Balanced, Numbers;
    var n := s.nodes[at];
    if n.msgq != [] {
      PopMsgSound(s.size, s.lossless, n);
      TakeKeeps(s, at, n.msgq[0], PopMsg(n));
    }
    if n.oobq != [] {
      PopOobSound(s.size, s.lossless, n);
      TakeKeeps(s, at, n.oobq[0], PopOob(n));
    }
  }

  lemma PushMsgSound(s: Net, n: Node, id: Id)
    requires Orderly(n) && Bounded(s.size, s.lossless, n) && AcceptsMsg(s, n)
    ensures Orderly(PushMsg(n, id)) && Bounded(s.size, s.lossless, PushMsg(n, id))
  {
    IncExact(|n.msgq| + |n.oobq|);
    assert n.msgOut + n.msgq + [id] == n.msgOut + (n.msgq + [id]);
  }

  lemma PushOobSound(s: Net, n: Node, id: Id)
    requires Orderly(n) && Bounded(s.size, s.lossless, n) && AcceptsOob(s, n)
    ensures Orderly(PushOob(n, id)) && Bounded(s.size, s.lossless, PushOob(n, id))
  {
    IncExact(|n.msgq| + |n.oobq|);
    IncExact(|n.oobq|);
    assert n.oobOut + n.oobq + [id] == n.oobOut + (n.oobq + [id]);
  }

  lemma SendStepKeeps(s: Net, id: Id, to: nat, memory: bool)
    requires Inv(s) && to < |s.nodes|
    ensures Inv(Apply(s, Send(id, to, memory))) && Inv(Apply(s, SendOob(id, to, memory)))
  {
    hide Orderly, Bounded, Lifetimes, Balanced, Numbers, AcceptsMsg, AcceptsOob;
    var n := s.nodes[to];
    if id in s.senders && id !in s.born && memory {
      if AcceptsMsg(s, n) {
        PushMsgSound(s, n, id);
        forall x { OccursAppend(n.msgq, id, x); }
        SendKeeps(s, to, id, PushMsg(n, id));
      }
      if AcceptsOob(s, n) {
        PushOobSound(s, n, id);
        forall x { OccursAppend(n.oobq, id, x); }
        SendKeeps(s, to, id, PushOob(n, id));
      }
    }
  }

  lemma PutRefKeeps(s: Net, t: Net, id: Id)
    requires Inv(s) && id !in s.born
    requires t == s.(senders := t.senders, holders := t.holders, pool := Put(s.pool, id))
    requires forall x :: s.senders[x] + s.holders[x] == t.senders[x] + t.holders[x] + if x == id then 1 else 0
    requires forall x :: x in s.born ==> x in t.senders
    ensures Inv(t)
  {
    hide Uses;
    assert Count(s.pool, id) == Refs(s, id) > 0;
    PutLifetimes(s.pool, id);
    PutNumbers(s.pool, id);
    forall x ensures Count(t.pool, x) == Refs(t, x) {
      PutCounts(s.pool, id, x);
      assert Count(s.pool, x) == Refs(s, x);
    }
    forall x | x in s.born ensures Count(t.pool, x) == 1 { PutCounts(s.pool, id, x); }
  }

  lemma PutStepKeeps(s: Net, id: Id)
    requires Inv(s)
    ensures Inv(Apply(s, PutSender(id))) && Inv(Apply(s, PutHolder(id)))
  {
    hide Uses, Put, Lifetimes, Sound;
    if id in s.senders && id !in s.born { PutRefKeeps(s, Apply(s, PutSender(id)), id); }
    if id in s.holders {
      assert Count(s.pool, id) == Refs(s, id);
      PutRefKeeps(s, Apply(s, PutHolder(id)), id);
    }
  }

  lemma AllocLifetimes(p: Pool, id: Id)
    requires Lifetimes(p) && id !in p.issued
    ensures Lifetimes(p.(items := p.items[id := 1], issued := p.issued + {id})) && id !in p.items
  {}

  lemma AllocBalanced(s: Net, id: Id)
    requires Balanced(s) && id !in s.pool.issued && id !in s.pool.items
    ensures Balanced(Apply(s, Alloc(id)))
  {
    hide Uses;
    var t := Apply(s, Alloc(id));
    forall x ensures Count(t.pool, x) == Refs(t, x) { assert Count(s.pool, x) == Refs(s, x); }
  }

  lemma AllocNumbers(s: Net, id: Id)
    requires Numbers(s) && id !in s.pool.issued && id !in s.pool.items
    ensures Numbers(Apply(s, Alloc(id)))
  {
    var t := Apply(s, Alloc(id));
    assert t.pool.items.Keys == s.pool.items.Keys + {id};
    assert id !in s.born;
  }

  lemma AllocKeeps(s: Net, id: Id)
    requires Inv(s)
    ensures Inv(Apply(s, Alloc(id)))
  {
    if id !in s.pool.issued {
      AllocLifetimes(s.pool, id);
      AllocBalanced(s, id);
      AllocNumbers(s, id);
      hide Orderly, Bounded, Lifetimes, Balanced, Numbers;
    }
  }

  lemma MembershipKeeps(s: Net, step: Step)
    requires Inv(s) && (step.Join? || step.Shutdown?)
    ensures Inv(Apply(s, step))
  {
    hide Lifetimes;
    var t := Apply(s, step);
    forall x ensures Refs(t, x) == Refs(s, x) {
      match step
      case Join => UsesAppend(s.nodes, EmptyNode(), x);
      case Shutdown(at, a, b) =>
        if at < |s.nodes| { UsesUpdate(s.nodes, at, s.nodes[at].(noRecv := a, noOob := b), x); }
    }
    assert forall x :: Count(t.pool, x) == Count(s.pool, x);
  }

  lemma CountInKeeps(s: Net, id: Id)
    requires Inv(s)
    ensures Inv(Apply(s, CountIn(id)))
  {
    hide Uses, Orderly, Bounded, Lifetimes, Count;
    var t := Apply(s, CountIn(id));
    forall x ensures Count(t.pool, x) == Refs(t, x) { assert Count(s.pool, x) == Refs(s, x); }
  }

  lemma CountOutKeeps(s: Net, id: Id)
    requires Inv(s)
    ensures Inv(Apply(s, CountOut(id)))
  {
    hide Uses, Orderly, Bounded;
    var t := Apply(s, CountOut(id));
    assert t.pool.items == s.pool.items;
    forall x ensures Count(t.pool, x) == Refs(t, x) { assert Count(s.pool, x) == Refs(s, x); }
  }

  lemma ReadKeeps(s: Net, at: nat)
    requires Inv(s) && at < |s.nodes|
    ensures Inv(ReadStep(s, at))
  {
    TakenKeeps(s, at);
    assert Orderly(s.nodes[at]);
    hide Inv;
  }

  lemma StepKeeps(s: Net, step: Step)
    requires Inv(s)
    ensures Inv(Apply(s, step))
  {
    hide Inv;
    match step
    case Alloc(id) => AllocKeeps(s, id);
    case CountIn(id) => CountInKeeps(s, id);
    case Send(id, to, memory) => if to < |s.nodes| { SendStepKeeps(s, id, to, memory); }
    case SendOob(id, to, memory) => if to < |s.nodes| { SendStepKeeps(s, id, to, memory); }
    case PutSender(id) => PutStepKeeps(s, id);
    case Read(at) => if at < |s.nodes| { ReadKeeps(s, at); }
    case FlushMsg(at) => if at < |s.nodes| { TakenKeeps(s, at); }
    case FlushOob(at) => if at < |s.nodes| { TakenKeeps(s, at); }
    case PutHolder(id) => PutStepKeeps(s, id);
    case CountOut(id) => CountOutKeeps(s, id);
    case _ => MembershipKeeps(s, step);
  }

  lemma {:induction false} ExecKeeps(s: Net, steps: seq<Step>)
    requires Inv(s)
    ensures Inv(Exec(s, steps))
    decreases |steps|
  {
    hide Inv, Apply;
    if steps != [] {
      StepKeeps(s, steps[0]);
      ExecKeeps(Apply(s, steps[0]), steps[1..]);
    }
  }

  lemma {:induction false} Once(q: seq<Id>, id: Id)
    requires NoRepeats(q)
    ensures Occurs(q, id) == if id in q then 1 else 0
  {
    if q != [] {
      assert q == [q[0]] + q[1..];
      Once(q[1..], id);
    }
  }

  /** No thread is between two atomic sections. */
  predicate Quiet(s: Net) {
    s.senders == multiset{} && s.holders == multiset{} && s.born == {} && s.pool.retiring == {}
  }

  /**
   * In every interleaving: the count of each item is the number of its senders, readers and queue
   * entries; a freed item has none; an item without any has been freed, exactly once; no step touches
   * a freed item or takes from an empty queue; msgpool_nelem is the number of live items, up to
   * threads caught between the two updates.
   */
  lemma PoolSafe(size: nat, lossless: bool, steps: seq<Step>)
    ensures var s := Exec(Fresh(size, lossless), steps);
      && !s.pool.fault
      && (forall id :: id in s.pool.items ==> s.pool.items[id] == s.senders[id] + s.holders[id] + Uses(s.nodes, id) > 0)
      && (forall id :: id in s.pool.issued ==> Occurs(s.pool.frees, id) == if Refs(s, id) == 0 then 1 else 0)
      && s.nelem == |s.pool.items.Keys| - |s.born| + |s.pool.retiring|
      && (Quiet(s) ==> s.nelem == |s.pool.items.Keys|)
  {
    hide Apply, Uses, Exec, Orderly, Bounded;
    FreshInv(size, lossless);
    ExecKeeps(Fresh(size, lossless), steps);
    var s := Exec(Fresh(size, lossless), steps);
    forall id ensures Count(s.pool, id) == Refs(s, id) {}
    forall id | id in s.pool.issued ensures Occurs(s.pool.frees, id) == if Refs(s, id) == 0 then 1 else 0 {
      Once(s.pool.frees, id);
      assert Count(s.pool, id) == Refs(s, id);
    }
  }

  lemma FreshInv(size: nat, lossless: bool)
    ensures Inv(Fresh(size, lossless))
  {}

  // What each step does, in every reachable state.

  function Reached(size: nat, lossless: bool, steps: seq<Step>): Net { Exec(Fresh(size, lossless), steps) }

  lemma ReachedInv(size: nat, lossless: bool, steps: seq<Step>)
    ensures Inv(Reached(size, lossless, steps))
  {
    hide Apply, Exec, Inv;
    FreshInv(size, lossless);
    ExecKeeps(Fresh(size, lossless), steps);
  }

  /** The reader takes over the oldest oob message and its reference; the other queue is left alone. */
  predicate TakesOob(s: Net, at: nat, t: Net)
    requires at < |s.nodes| && s.nodes[at].oobq != []
  {
    var n, id := s.nodes[at], s.nodes[at].oobq[0];
    && |t.nodes| == |s.nodes| && t.nodes == s.nodes[at := t.nodes[at]] && t.pool == s.pool
    && t.nodes[at].oobOut == n.oobOut + [id] && n.oobq == [id] + t.nodes[at].oobq
    && t.nodes[at].msgq == n.msgq && t.nodes[at].msgOut == n.msgOut && t.holders == s.holders + multiset{id}
  }

  predicate TakesMsg(s: Net, at: nat, t: Net)
    requires at < |s.nodes| && s.nodes[at].msgq != []
  {
    var n, id := s.nodes[at], s.nodes[at].msgq[0];
    && |t.nodes| == |s.nodes| && t.nodes == s.nodes[at := t.nodes[at]] && t.pool == s.pool
    && t.nodes[at].msgOut == n.msgOut + [id] && n.msgq == [id] + t.nodes[at].msgq
    && t.nodes[at].oobq == n.oobq && t.nodes[at].oobOut == n.oobOut && t.holders == s.holders + multiset{id}
  }

  /** A reader gets the oldest oob message if one waits, otherwise the oldest ordinary one; it sleeps only
      when the number of messages waiting is a multiple of 2^16. */
  lemma ReadTakes(size: nat, lossless: bool, steps: seq<Step>, at: nat)
    requires at < |Reached(size, lossless, steps).nodes|
    ensures var s := Reached(size, lossless, steps);
      var n, t := s.nodes[at], Apply(s, Read(at));
      if (|n.msgq| + |n.oobq|) % U16 == 0 || (n.noRecv && n.noOob) then t == s
      else if n.oobq != [] then TakesOob(s, at, t)
      else n.msgq != [] && TakesMsg(s, at, t)
  {
    ReachedInv(size, lossless, steps);
    hide Reached, Lifetimes, Balanced, Numbers, ReadStep, TakesOob, TakesMsg;
    ReadDoes(Reached(size, lossless, steps), at);
  }

  lemma ReadDoes(s: Net, at: nat)
    requires at < |s.nodes| && Orderly(s.nodes[at])
    ensures var n, t := s.nodes[at], ReadStep(s, at);
      if (|n.msgq| + |n.oobq|) % U16 == 0 || (n.noRecv && n.noOob) then t == s
      else if n.oobq != [] then TakesOob(s, at, t)
      else n.msgq != [] && TakesMsg(s, at, t)
  {
  }

  /** A flush takes the oldest message of its queue, if there is one. */
  lemma FlushTakes(s: Net, at: nat)
    requires at < |s.nodes|
    ensures if s.nodes[at].msgq == [] then Apply(s, FlushMsg(at)) == s else TakesMsg(s, at, Apply(s, FlushMsg(at)))
    ensures if s.nodes[at].oobq == [] then Apply(s, FlushOob(at)) == s else TakesOob(s, at, Apply(s, FlushOob(at)))
  {
  }

  /** A sender's message is queued behind the others exactly when the node can take it: not shut down, and
      on a lossy net fewer messages counted than the size of the pool.  Oob messages are counted apart. */
  lemma SendQueues(size: nat, lossless: bool, steps: seq<Step>, id: Id, to: nat)
    ensures var s := Reached(size, lossless, steps);
      to < |s.nodes| && id in s.senders && id !in s.born ==>
        var n, t, u := s.nodes[to], Apply(s, Send(id, to, true)), Apply(s, SendOob(id, to, true));
        && (if !n.noRecv && (lossless || (|n.msgq| + |n.oobq|) % U16 < size)
            then t.nodes == s.nodes[to := n.(msgq := n.msgq + [id], msgIn := n.msgIn + [id], tot := t.nodes[to].tot)]
                 && Count(t.pool, id) == Count(s.pool, id) + 1
            else t == s)
        && (if !n.noOob && (lossless || |n.oobq| % U16 < size)
            then u.nodes == s.nodes[to := n.(oobq := n.oobq + [id], oobIn := n.oobIn + [id], tot := u.nodes[to].tot,
                                             oob := u.nodes[to].oob)]
                 && Count(u.pool, id) == Count(s.pool, id) + 1
            else u == s)
  {
    ReachedInv(size, lossless, steps);
    ExecNet(Fresh(size, lossless), steps);
    var s := Reached(size, lossless, steps);
    if to < |s.nodes| && id in s.senders && id !in s.born {
      assert Orderly(s.nodes[to]);
      assert Count(s.pool, id) == Refs(s, id);
      hide Exec, Orderly, Lifetimes, Balanced, Numbers, Uses;
    }
  }

  /** A reference that is given back is gone, and the item with the last one. */
  lemma Releases(size: nat, lossless: bool, steps: seq<Step>, id: Id)
    ensures var s := Reached(size, lossless, steps);
      && (id in s.senders && id !in s.born ==>
            var t := Apply(s, PutSender(id));
            t.senders == s.senders - multiset{id} && t.holders == s.holders && Released(s.pool, t.pool, id))
      && (id in s.holders ==>
            var t := Apply(s, PutHolder(id));
            t.holders == s.holders - multiset{id} && t.senders == s.senders && Released(s.pool, t.pool, id))
  {
    ReachedInv(size, lossless, steps);
    var s := Reached(size, lossless, steps);
    assert Count(s.pool, id) == Refs(s, id);
    if Count(s.pool, id) > 0 { PutReleases(s.pool, id); }
    hide Reached, Balanced, Numbers, Sound, Uses, Released, Put, Lifetimes;
  }

  lemma PutReleases(p: Pool, id: Id)
    requires Count(p, id) > 0
    ensures Released(p, Put(p, id), id)
  {
  }

  ghost predicate Released(p: Pool, q: Pool, id: Id) {
    && Count(q, id) == Count(p, id) - 1 && (id in q.items <==> Count(p, id) > 1)
    && q.frees == (if Count(p, id) == 1 then p.frees + [id] else p.frees)
    && (forall x :: x != id ==> Count(q, x) == Count(p, x))
  }

  /** A new item begins with the sender's reference; the count of items follows its birth and its end. */
  lemma Counts(s: Net, id: Id)
    ensures id !in s.pool.issued ==>
      var t := Apply(s, Alloc(id));
      Count(t.pool, id) == 1 && t.senders == s.senders + multiset{id} && id in t.pool.issued && id in t.born
    ensures id in s.born ==> Apply(s, CountIn(id)).nelem == s.nelem + 1 && id !in Apply(s, CountIn(id)).born
    ensures id in s.pool.retiring ==>
      Apply(s, CountOut(id)).nelem == s.nelem - 1 && id !in Apply(s, CountOut(id)).pool.retiring
  {
  }

  /** A node joins with empty queues, closed to oob messages; a shutdown changes what it accepts and nothing
      that is queued. */
  lemma Membership(s: Net, at: nat, noRecv: bool, noOob: bool)
    ensures Apply(s, Join) == s.(nodes := s.nodes + [Node([], [], 0, 0, false, true, [], [], [], [])])
    ensures var t := Apply(s, Shutdown(at, noRecv, noOob));
      if at < |s.nodes| then t == s.(nodes := s.nodes[at := s.nodes[at].(noRecv := noRecv, noOob := noOob)]) else t == s
  {
  }

  /** The pool size and the kind of net never change. */
  lemma {:induction false} ExecNet(s: Net, steps: seq<Step>)
    ensures Exec(s, steps).size == s.size && Exec(s, steps).lossless == s.lossless
    decreases |steps|
  {
    if steps != [] { ExecNet(Apply(s, steps[0]), steps[1..]); }
  }

  // The 16-bit counters.

  predicate Exact(n: Node) { n.tot == |n.msgq| + |n.oobq| && n.oob == |n.oobq| }

  predicate AllExact(s: Net) { forall i :: 0 <= i < |s.nodes| ==> Exact(s.nodes[i]) }

  /** On every net the queues are first in first out and the counters are the queue lengths modulo
      2^16, so both are exact exactly as long as fewer than 65536 messages are queued.  On lossy nets
      the oob queue is bounded and its counter exact. */
  lemma QueuesSafe(size: nat, lossless: bool, steps: seq<Step>, i: nat)
    requires size < U16
    requires i < |Exec(Fresh(size, lossless), steps).nodes|
    ensures var n := Exec(Fresh(size, lossless), steps).nodes[i];
      && n.msgIn == n.msgOut + n.msgq
      && n.oobIn == n.oobOut + n.oobq
      && n.tot == (|n.msgq| + |n.oobq|) % U16 && n.oob == |n.oobq| % U16
      && (Exact(n) <==> |n.msgq| + |n.oobq| < U16)
      && (n.tot != 0 ==> n.msgq != [] || n.oobq != [])
      && (!lossless ==> |n.oobq| <= size && n.oob == |n.oobq|)
      && (!lossless && 2 * size < U16 ==> |n.msgq| <= size && Exact(n))
  {
    hide Exec, Lifetimes, Balanced, Numbers;
    FreshInv(size, lossless);
    ExecKeeps(Fresh(size, lossless), steps);
    ExecNet(Fresh(size, lossless), steps);
    assert Orderly(Exec(Fresh(size, lossless), steps).nodes[i]);
  }

  /** A sender's whole visit to the pool: one message queued at node 0. */
  function Visit(id: Id, oob: bool): seq<Step> {
    [Alloc(id), CountIn(id), if oob then SendOob(id, 0, true) else Send(id, 0, true), PutSender(id)]
  }

  function Visits(from: Id, n: nat, oob: bool): seq<Step>
    decreases n
  {
    if n == 0 then [] else Visit(from, oob) + Visits(from + 1, n - 1, oob)
  }

  /** One node, ready for both kinds of message, and no item numbered `from` or more issued yet. */
  ghost predicate Ready(s: Net, from: Id) {
    && Inv(s) && s.size < U16
    && |s.nodes| == 1 && !s.nodes[0].noRecv && !s.nodes[0].noOob
    && (forall id :: id in s.pool.issued ==> id < from)
  }

  lemma {:induction false} ExecConcat(s: Net, a: seq<Step>, b: seq<Step>)
    ensures Exec(s, a + b) == Exec(Exec(s, a), b)
    decreases |a|
  {
    hide Apply;
    if a == [] {
      assert a + b == b;
    } else {
      assert (a + b)[1..] == a[1..] + b;
      ExecConcat(Apply(s, a[0]), a[1..], b);
    }
  }

  lemma ExecNone(s: Net)
    ensures Exec(s, []) == s
  {}

  lemma ExecFour(s: Net, a: Step, b: Step, c: Step, d: Step)
    ensures Exec(s, [a, b, c, d]) == Apply(Apply(Apply(Apply(s, a), b), c), d)
  {
    hide Apply;
    var q := [a, b, c, d];
    assert q[1..] == [b, c, d] && q[1..][1..] == [c, d] && q[1..][1..][1..] == [d];
    assert Exec(s, q) == Exec(Apply(s, a), [b, c, d]);
    assert Exec(Apply(s, a), [b, c, d]) == Exec(Apply(Apply(s, a), b), [c, d]);
    assert Exec(Apply(Apply(s, a), b), [c, d]) == Exec(Apply(Apply(Apply(s, a), b), c), [d]);
    ExecOne(Apply(Apply(Apply(s, a), b), c), d);
  }

  lemma ExecOne(s: Net, step: Step)
    ensures Exec(s, [step]) == Apply(s, step)
  {
    hide Apply;
    assert [step][1..] == [];
  }

  lemma Opened(s: Net, from: Id)
    requires Ready(s, from)
    ensures var t := Apply(Apply(s, Alloc(from)), CountIn(from));
      && Ready(t, from + 1) && from in t.senders && from !in t.born
      && t.nodes == s.nodes && t.size == s.size && t.lossless == s.lossless
  {
    StepKeeps(s, Alloc(from));
    StepKeeps(Apply(s, Alloc(from)), CountIn(from));
    hide Inv;
    assert from !in s.pool.issued;
  }

  /** One node that holds so many messages of each kind, on a net of the given size and kind. */
  predicate Holding(s: Net, net: Net, msgs: nat, oobs: nat) {
    && s.size == net.size && s.lossless == net.lossless
    && |s.nodes| == 1 && |s.nodes[0].msgq| == msgs && |s.nodes[0].oobq| == oobs
  }

  lemma Sent(s: Net, from: Id, oob: bool, msgs: nat, oobs: nat)
    requires Ready(s, from + 1) && from in s.senders && from !in s.born
    requires Holding(s, s, msgs, oobs)
    requires if oob then AcceptsOob(s, s.nodes[0]) else AcceptsMsg(s, s.nodes[0])
    ensures var send := if oob then SendOob(from, 0, true) else Send(from, 0, true);
      var t := Apply(Apply(s, send), PutSender(from));
      Ready(t, from + 1) && if oob then Holding(t, s, msgs, oobs + 1) else Holding(t, s, msgs + 1, oobs)
  {
    hide Inv;
    var send := if oob then SendOob(from, 0, true) else Send(from, 0, true);
    StepKeeps(s, send);
    StepKeeps(Apply(s, send), PutSender(from));
  }

  lemma VisitQueues(s: Net, from: Id, oob: bool, msgs: nat, oobs: nat)
    requires Ready(s, from) && Holding(s, s, msgs, oobs)
    requires if oob then AcceptsOob(s, s.nodes[0]) else AcceptsMsg(s, s.nodes[0])
    ensures var t := Exec(s, Visit(from, oob));
      Ready(t, from + 1) && if oob then Holding(t, s, msgs, oobs + 1) else Holding(t, s, msgs + 1, oobs)
  {
    hide Inv, Exec, Apply;
    Opened(s, from);
    Sent(Apply(Apply(s, Alloc(from)), CountIn(from)), from, oob, msgs, oobs);
    var send := if oob then SendOob(from, 0, true) else Send(from, 0, true);
    ExecFour(s, Alloc(from), CountIn(from), send, PutSender(from));
  }

  lemma Accepting(s: Net, from: Id, msgs: nat, oobs: nat)
    requires Ready(s, from) && Holding(s, s, msgs, oobs)
    ensures s.lossless || oobs < s.size ==> AcceptsOob(s, s.nodes[0])
    ensures oobs == 0 && msgs < s.size ==> AcceptsMsg(s, s.nodes[0])
  {
    assert Orderly(s.nodes[0]);
  }

  lemma {:induction false} VisitsQueue(s: Net, from: Id, n: nat, oob: bool, msgs: nat, oobs: nat)
    requires Ready(s, from) && Holding(s, s, msgs, oobs)
    requires if oob then s.lossless || oobs + n <= s.size else oobs == 0 && msgs + n <= s.size
    ensures var t := Exec(s, Visits(from, n, oob));
      Ready(t, from + n) && if oob then Holding(t, s, msgs, oobs + n) else Holding(t, s, msgs + n, oobs)
    decreases n
  {
    hide Visit, Apply, Ready, AcceptsOob, AcceptsMsg, Exec;
    if n > 0 {
      Accepting(s, from, msgs, oobs);
      VisitQueues(s, from, oob, msgs, oobs);
      var t := Exec(s, Visit(from, oob));
      ExecConcat(s, Visit(from, oob), Visits(from + 1, n - 1, oob));
      if oob { VisitsQueue(t, from + 1, n - 1, oob, msgs, oobs + 1); }
      else { VisitsQueue(t, from + 1, n - 1, oob, msgs + 1, oobs); }
    } else {
      ExecNone(s);
    }
  }

  /** How many ordinary messages an overflow begins with: oob messages alone do on a lossless net. */
  function Filling(size: nat, lossless: bool): nat { if lossless then 0 else size }

  /** Fill the message queue, then send oob messages until totmsgcount has wrapped to 0. */
  function Overflow(size: nat, lossless: bool): seq<Step>
    requires (lossless || U16 / 2 <= size) && size < U16
  {
    var n := Filling(size, lossless);
    [Join, Shutdown(0, false, false)] + (Visits(0, n, false) + Visits(n, U16 - n, true))
  }

  lemma OverflowStart(size: nat, lossless: bool)
    requires size < U16
    ensures var s := Exec(Fresh(size, lossless), [Join, Shutdown(0, false, false)]);
      Ready(s, 0) && Holding(s, Fresh(size, lossless), 0, 0)
  {
    var s := Fresh(size, lossless);
    FreshInv(size, lossless);
    StepKeeps(s, Join);
    StepKeeps(Apply(s, Join), Shutdown(0, false, false));
    hide Inv;
    var q := [Join, Shutdown(0, false, false)];
    assert q[1..] == [Shutdown(0, false, false)];
    assert Exec(Apply(s, Join), q[1..]) == Apply(Apply(s, Join), Shutdown(0, false, false));
  }

  /** On a lossy net from a pool size of 32768 on, and on every lossless net, a node can hold 65536
      messages with totmsgcount at 0: its reader sleeps, and its queue takes still more messages. */
  lemma OverflowLost(size: nat, lossless: bool)
    requires (lossless || U16 / 2 <= size) && size < U16
    ensures var s := Exec(Fresh(size, lossless), Overflow(size, lossless));
      |s.nodes| == 1 && s.nodes[0].tot == 0 && |s.nodes[0].msgq| + |s.nodes[0].oobq| == U16
  {
    hide Apply, Visits, Exec, Inv;
    OverflowStart(size, lossless);
    var n := Filling(size, lossless);
    var join, fill, spill := [Join, Shutdown(0, false, false)], Visits(0, n, false), Visits(n, U16 - n, true);
    var s := Exec(Fresh(size, lossless), join);
    VisitsQueue(s, 0, n, false, 0, 0);
    VisitsQueue(Exec(s, fill), n, U16 - n, true, n, 0);
    ExecConcat(Fresh(size, lossless), join, fill + spill);
    ExecConcat(s, fill, spill);
    InvOrderly(Exec(Fresh(size, lossless), Overflow(size, lossless)));
  }

  lemma InvOrderly(s: Net)
    requires Inv(s)
    ensures forall i :: 0 <= i < |s.nodes| ==> Orderly(s.nodes[i])
  {
    hide Orderly;
  }

  /** The counters are the queue lengths in every run exactly on lossy nets with a msgpool_size of at
      most 32767. */
  lemma CountersExact(size: nat, lossless: bool)
    requires size < U16
    ensures (forall steps: seq<Step> :: AllExact(Exec(Fresh(size, lossless), steps))) <==> !lossless && size <= 32767
  {
    hide Exec;
    if !lossless && size <= 32767 {
      forall steps: seq<Step> ensures AllExact(Exec(Fresh(size, lossless), steps)) {
        var s := Exec(Fresh(size, lossless), steps);
        forall i | 0 <= i < |s.nodes| ensures Exact(s.nodes[i]) { QueuesSafe(size, lossless, steps, i); }
      }
    } else {
      OverflowLost(size, lossless);
      assert !Exact(Exec(Fresh(size, lossless), Overflow(size, lossless)).nodes[0]);
      assert !AllExact(Exec(Fresh(size, lossless), Overflow(size, lossless)));
    }
  }
}
