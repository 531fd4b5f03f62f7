/**
 * The IPN learning switch (ipn/kvde_switch/kvde_switch_main.c) with the port table of ipn/af_ipn.c:
 * nodes connect to the first free port, frames teach the switch where addresses live, closing a node
 * flushes its port, and the port table can be resized while in use.  A frame "goes to" a node when it
 * is handed to that node's queue.
 */
module Switch {
  import opened Common
  import opened LearningTable

  type Node = nat
  type Frame = seq<byte>

  const ETHHDR := 14
  const EADDRINUSE := -98
  const ENOMEM := -12

  datatype Ports = Ports(connport: seq<Option<Node>>, queue: seq<Node>, portno: map<Node, nat>)

  /** A frame handled by the switch: who was connected, whether its destination was in the table, and
      the nodes it was handed to. */
  datatype Delivery = Delivery(from: Node, frame: Frame, connected: seq<Node>, known: bool, targets: seq<Node>)

  predicate Group(mac: Mac) { mac[0] % 2 == 1 }

  function Dest(f: Frame): Mac
    requires |f| >= ETHHDR
  {
    f[0..6]
  }

  function Source(f: Frame): Mac
    requires |f| >= ETHHDR
  {
    f[6..12]
  }

  function KeyOf(mac: Mac): Key { Key(mac, 0) }

  /** Whether the switch learns from the frame that the address is at its sender. */
  predicate Teaches(f: Frame, key: Key) {
    |f| >= ETHHDR && !Group(Source(f)) && KeyOf(Source(f)) == key
  }

  /** The node that last sent a frame from the address. */
  function LastSender(log: seq<Delivery>, key: Key): Option<Node> {
    if log == [] then None
    else
      var d := log[|log| - 1];
      if Teaches(d.frame, key) then Some(d.from) else LastSender(log[..|log| - 1], key)
  }

  /** A frame to a known address goes only to the node last heard from there, which is connected; any
      other whole frame to every connected node except its sender; a short one nowhere. */
  predicate Right(log: seq<Delivery>, i: nat)
    requires i < |log|
  {
    var d := log[i];
    if |d.frame| < ETHHDR then d.targets == []
    else if !Group(Dest(d.frame)) && d.known then
      var owner := LastSender(log[..i + 1], KeyOf(Dest(d.frame)));
      owner.Some? && owner.value in d.connected && d.targets == [owner.value]
    else d.targets == Without(d.connected, d.from)
  }

  predicate AllRight(log: seq<Delivery>) { forall i :: 0 <= i < |log| ==> Right(log, i) }

  /** Ports and connected nodes are in one-to-one correspondence. */
  ghost predicate Seated(p: Ports) {
    && (forall i :: 0 <= i < |p.connport| && p.connport[i].Some? ==>
         p.connport[i].value in p.portno && p.portno[p.connport[i].value] == i)
    && (forall n :: n in p.portno ==> p.portno[n] < |p.connport| && p.connport[p.portno[n]] == Some(n))
    && NoRepeats(p.queue) && (forall n :: n in p.queue <==> n in p.portno)
  }

  /** Every learned port exists and is occupied by the node it was learned from. */
  ghost predicate Faithful(p: Ports, m: map<Key, Entry>, log: seq<Delivery>) {
    forall k :: k in m ==>
      m[k].port < |p.connport| && LastSender(log, k).Some? && p.connport[m[k].port] == LastSender(log, k)
  }

  /** The first free port, if any. */
  predicate FirstFree(connport: seq<Option<Node>>, port: int) {
    && -1 <= port < |connport|
    && (port >= 0 ==> connport[port].None? && forall i :: 0 <= i < port ==> connport[i].Some?)
    && (port < 0 ==> forall i :: 0 <= i < |connport| ==> connport[i].Some?)
  }

  predicate Shrinkable(connport: seq<Option<Node>>, size: nat) {
    forall i :: size <= i < |connport| ==> connport[i].None?
  }

  function Resized(connport: seq<Option<Node>>, size: nat): seq<Option<Node>> {
    if size <= |connport| then connport[..size] else connport + seq(size - |connport|, _ => None)
  }

  // Each change of the port table.

  function Joined(p: Ports, node: Node, port: nat): Ports
    requires port < |p.connport|
  {
    Ports(p.connport[port := Some(node)], p.queue + [node], p.portno[node := port])
  }

  function Left(p: Ports, node: Node): Ports
    requires node in p.portno && p.portno[node] < |p.connport|
  {
    Ports(p.connport[p.portno[node] := None], Without(p.queue, node), p.portno - {node})
  }

  lemma JoinKeeps(p: Ports, node: Node, port: nat, m: map<Key, Entry>, log: seq<Delivery>)
    requires Seated(p) && Faithful(p, m, log) && node !in p.portno && port < |p.connport| && p.connport[port].None?
    ensures Seated(Joined(p, node, port)) && Faithful(Joined(p, node, port), m, log)
  {
    AppendRepeats(p.queue, node);
    hide NoRepeats, LastSender;
  }

  lemma LeaveSeated(p: Ports, node: Node)
    requires Seated(p) && node in p.portno
    ensures Seated(Left(p, node))
  {
    WithoutRepeats(p.queue, node);
    forall x ensures x in Without(p.queue, node) <==> x in p.queue && x != node { WithoutMembers(p.queue, node, x); }
    hide Without, NoRepeats;
  }

  lemma LeaveFaithful(p: Ports, node: Node, m: map<Key, Entry>, log: seq<Delivery>)
    requires Faithful(p, m, log) && node in p.portno && p.portno[node] < |p.connport|
    ensures Faithful(Left(p, node), DropPort(m, p.portno[node]), log)
  {
    hide LastSender, Without;
  }

  lemma ResizeKeeps(p: Ports, size: nat, m: map<Key, Entry>, log: seq<Delivery>)
    requires Seated(p) && Faithful(p, m, log) && Shrinkable(p.connport, size)
    ensures Seated(p.(connport := Resized(p.connport, size)))
      && Faithful(p.(connport := Resized(p.connport, size)), m, log)
  {
    hide NoRepeats, LastSender;
  }

  /** A frame adds its own sender's knowledge and keeps everyone else's. */
  lemma LearnKeeps(p: Ports, m: map<Key, Entry>, log: seq<Delivery>, d: Delivery, key: Key, expire: nat, room: bool)
    requires Seated(p) && Faithful(p, m, log) && d.from in p.portno && Teaches(d.frame, key)
    ensures Faithful(p, Learn(m, key, p.portno[d.from], expire, room), log + [d])
  {
    hide NoRepeats, KeyOf, Group;
    forall k ensures LastSender(log + [d], k) == if k == key then Some(d.from) else LastSender(log, k) {
      LastAfter(log, d, k);
    }
    hide LastSender, Teaches;
  }

  lemma LastAfter(log: seq<Delivery>, d: Delivery, key: Key)
    ensures LastSender(log + [d], key) == if Teaches(d.frame, key) then Some(d.from) else LastSender(log, key)
  {
    assert (log + [d])[..|log|] == log;
  }

  lemma SilentKeeps(p: Ports, m: map<Key, Entry>, log: seq<Delivery>, d: Delivery)
    requires Faithful(p, m, log) && (|d.frame| < ETHHDR || Group(Source(d.frame)))
    ensures Faithful(p, m, log + [d])
  {
    forall k ensures LastSender(log + [d], k) == LastSender(log, k) { LastAfter(log, d, k); }
    hide LastSender;
  }

  lemma RightAppend(log: seq<Delivery>, d: Delivery)
    requires AllRight(log) && Right(log + [d], |log|)
    ensures AllRight(log + [d])
  {
    forall i | 0 <= i < |log| ensures Right(log + [d], i) {
      assert Right(log, i);
      assert (log + [d])[..i + 1] == log[..i + 1];
    }
  }

  lemma WithoutFrom(q: seq<Node>, i: nat, x: Node)
    requires i <= |q|
    ensures Without(q[i..], x) ==
      if i == |q| then [] else if q[i] == x then Without(q[i + 1..], x) else [q[i]] + Without(q[i + 1..], x)
  {
    if i < |q| { assert q[i..][1..] == q[i + 1..]; }
  }

  /** Flooding reaches every connected node but the sender, each once. */
  lemma FloodReaches(connected: seq<Node>, from: Node, x: Node)
    requires NoRepeats(connected)
    ensures NoRepeats(Without(connected, from))
    ensures x in Without(connected, from) <==> x in connected && x != from
  {
    WithoutRepeats(connected, from);
    WithoutMembers(connected, from, x);
  }

  datatype Event =
    | Connect(node: Node)
    | Close(node: Node)
    | Send(from: Node, frame: Frame, now: nat, room: bool, tick: Option<nat>)   // tick: see HandleMsg
    | Resize(size: nat, memory: bool, err: int)
    | Expire(now: nat)

  /** The event does not begin before `clock`, nor end before it begins. */
  predicate OnTime(e: Event, clock: nat) {
    match e
    case Send(_, _, now, _, tick) => clock <= now && (tick.Some? ==> now <= tick.value)
    case Expire(now) => clock <= now
    case _ => true
  }

  /** When the event is over. */
  function Over(e: Event, clock: nat): nat {
    match e
    case Send(_, _, now, _, tick) => if tick.Some? then tick.value else now
    case Expire(now) => now
    case _ => clock
  }

  predicate Clocked(clock: nat, events: seq<Event>)
    decreases |events|
  {
    events == [] || (OnTime(events[0], clock) && Clocked(Over(events[0], clock), events[1..]))
  }

  class KvdeSwitch {
    const table: Table
    var p: Ports
    ghost var log: seq<Delivery>

    ghost predicate Valid()
      reads this, table
    {
      table.Valid() && Seated(p) && Faithful(p, table.m, log) && AllRight(log)
    }

    /** ipn_kvde_switch_newnet, and a network created with maxports ports; the
        timeout is 30 seconds in clock ticks. */
    constructor (maxports: nat, timeout: nat)
      ensures Valid() && fresh(table) && |p.connport| == maxports && p.portno == map[] && table.m == map[] && log == []
    {
      table := new Table(256, timeout);
      p := Ports(seq(maxports, _ => None), [], map[]);
      log := [];
    }

    /** ipn_kvde_switch_newport. */
    method NewPort() returns (port: int)
      ensures FirstFree(p.connport, port)
    {
      var i := 0;
      while i < |p.connport|
        invariant i <= |p.connport| && forall j :: 0 <= j < i ==> p.connport[j].Some?
      {
        if p.connport[i].None? { return i; }
        i := i + 1;
      }
      port := -1;
    }

    /** The port part of ipn_connect. */
    method Connect(node: Node) returns (port: int)
      requires Valid() && node !in p.portno
      modifies this`p
      ensures Valid() && FirstFree(old(p.connport), port)
      ensures p == if port >= 0 then Joined(old(p), node, port) else old(p)
    {
      port := NewPort();
      if port >= 0 {
        JoinKeeps(p, node, port, table.m, log);
        hide Seated, Faithful, AllRight;
        p := Joined(p, node, port);
      }
    }

    /** ipn_terminate_node with ipn_kvde_switch_delport. */
    method Close(node: Node)
      requires Valid() && node in p.portno
      modifies this`p, table
      ensures Valid() && p == Left(old(p), node) && table.m == DropPort(old(table.m), old(p).portno[node])
      ensures table.clock == old(table.clock) && table.l.elems.Keys <= old(table.l.elems.Keys)
    {
      LeaveSeated(p, node);
      LeaveFaithful(p, node, table.m, log);
      var port := p.portno[node];
      p := Left(p, node);
      hide Seated, Faithful, AllRight;
      table.FlushPort(port);
    }

    /** ipn_netresize; err is the answer of the protocol's own resize. */
    method Resize(newsize: nat, memory: bool, err: int) returns (rv: int)
      requires Valid()
      modifies this`p
      ensures Valid()
      ensures rv == if newsize == |old(p).connport| then 0
                    else if !Shrinkable(old(p).connport, newsize) then EADDRINUSE
                    else if !memory then ENOMEM else err
      ensures p == if rv == 0 then old(p).(connport := Resized(old(p).connport, newsize)) else old(p)
    {
      hide Seated, Faithful, AllRight;
      var oldsize := |p.connport|;
      if newsize == oldsize { return 0; }
      var i := newsize;
      while i < oldsize
        invariant newsize <= i && forall j :: newsize <= j < i && j < oldsize ==> p.connport[j].None?
      {
        if p.connport[i].Some? { return EADDRINUSE; }
        i := i + 1;
      }
      if !memory { return ENOMEM; }
      var oldp := p;
      ResizeKeeps(p, newsize, table.m, log);
      p := p.(connport := Resized(p.connport, newsize));
      if err != 0 { p := oldp; }
      rv := err;
    }

    /** ipn_kvde_switch_handlemsg at time `now`; `alloc` is what the table's allocator returns.  The
        timer takes the table's lock only, so it may run, at time `tick`, between the two halves. */
    method HandleMsg(from: Node, frame: Frame, now: nat, alloc: Option<Id>, tick: Option<nat>)
      returns (targets: seq<Node>)
      requires Valid() && from in p.portno && now >= table.clock && (tick.Some? ==> now <= tick.value)
      requires alloc.Some? ==> alloc.value !in table.l.elems
      modifies this`log, table
      ensures Valid() && table.clock <= if tick.Some? then tick.value else now
      ensures table.l.elems.Keys <= old(table.l.elems.Keys) + if alloc.Some? then {alloc.value} else {}
      ensures table.m
        == Rested(Taught(p, old(table.m), from, frame, now + table.timeout, table.timeout > 0 && alloc.Some?), tick)
      ensures targets == Chosen(p.queue, table.m, old(log) + [Heard(from, frame)], from, frame)
      ensures log == old(log) + [Delivery(from, frame, p.queue,
                                          |frame| >= ETHHDR && KeyOf(Dest(frame)) in table.m, targets)]
    {
      hide Seated, Faithful, AllRight, Group, Learn, LastSender, Without, Chosen, LearningTable.Rep,
        LearningTable.Timed, DropExpired, Taught;
      LearnFrom(from, frame, now, alloc);
      if tick.Some? {
        ExpireKeeps(p, table.m, log + [Heard(from, frame)], tick.value);
        table.TimerExpired(tick.value);
      }
      targets := Forward(from, frame);
      ghost var d := Delivery(from, frame, p.queue, |frame| >= ETHHDR && KeyOf(Dest(frame)) in table.m, targets);
      HeardIsEnough(p, table.m, log, d);
      DeliveryRight(p, table.m, log, d);
      log := log + [d];
    }

    /** The second half of ipn_kvde_switch_handlemsg: where the frame goes. */
    method Forward(from: Node, frame: Frame) returns (targets: seq<Node>)
      requires table.Valid() && Seated(p) && Faithful(p, table.m, log + [Heard(from, frame)])
      ensures targets == Chosen(p.queue, table.m, log + [Heard(from, frame)], from, frame)
    {
      hide Seated, Faithful, Group, LastSender, Without, LearningTable.Rep, LearningTable.Timed;
      targets := [];
      if |frame| >= ETHHDR {
        var key := KeyOf(Dest(frame));
        var port := -1;
        if !Group(Dest(frame)) { port := table.Find(key); }
        if port < 0 {
          targets := Flood(from);
        } else {
          Occupied(p, table.m, log + [Heard(from, frame)], key);
          targets := [p.connport[port].value];
        }
      }
    }

    /** The first half of ipn_kvde_switch_handlemsg: the source address goes into the table. */
    method LearnFrom(from: Node, frame: Frame, now: nat, alloc: Option<Id>)
      requires Valid() && from in p.portno && now >= table.clock
      requires alloc.Some? ==> alloc.value !in table.l.elems
      modifies table
      ensures table.Valid() && table.clock <= now && Faithful(p, table.m, log + [Heard(from, frame)])
      ensures table.l.elems.Keys <= old(table.l.elems.Keys) + if alloc.Some? then {alloc.value} else {}
      ensures table.m == Taught(p, old(table.m), from, frame, now + table.timeout, table.timeout > 0 && alloc.Some?)
    {
      var d := Heard(from, frame);
      hide Faithful, AllRight, Group, Learn, LastSender, NoRepeats, LearningTable.Rep, LearningTable.Timed, Source;
      if |frame| < ETHHDR || Group(Source(frame)) {
        SilentKeeps(p, table.m, log, d);
      } else {
        var key := KeyOf(Source(frame));
        LearnKeeps(p, table.m, log, d, key, now + table.timeout, table.timeout > 0 && alloc.Some?);
        hide Seated;
        table.Add(key, p.portno[from], now, alloc);
      }
    }

    /** The loop over the connect queue. */
    method Flood(from: Node) returns (targets: seq<Node>)
      ensures targets == Without(p.queue, from)
    {
      hide Without;
      targets := [];
      var i := 0;
      assert p.queue[0..] == p.queue;
      while i < |p.queue|
        invariant i <= |p.queue| && targets + Without(p.queue[i..], from) == Without(p.queue, from)
      {
        WithoutFrom(p.queue, i, from);
        if p.queue[i] != from { targets := targets + [p.queue[i]]; }
        i := i + 1;
      }
      WithoutFrom(p.queue, i, from);
    }

    /** ipn_hash_timer_expired for this switch's table. */
    method Expire(now: nat)
      requires Valid() && now >= table.clock
      modifies table
      ensures Valid() && table.clock == now && table.m == DropExpired(old(table.m), now)
      ensures table.l.elems.Keys <= old(table.l.elems.Keys)
    {
      hide Seated, AllRight, LastSender;
      table.TimerExpired(now);
    }

    /** One event; a frame of a node that is not connected, like a second connect or close, does not
        reach the switch. */
    method Step(e: Event, id: Id)
      requires Valid() && OnTime(e, table.clock) && id !in table.l.elems
      modifies this, table
      ensures Valid() && State(p, table.m, log) == NextState(old(State(p, table.m, log)), e, table.timeout)
      ensures table.l.elems.Keys <= old(table.l.elems.Keys) + {id}
      ensures table.clock <= Over(e, old(table.clock))
    {
      hide Faithful, AllRight, LearningTable.Rep, LearningTable.Timed, Learn, Chosen, Without, Resized, FirstFree,
        NoRepeats, FreePort;
      match e {
        case Connect(node) =>
          if node !in p.portno {
            var port := Connect(node);
            FreePortIs(old(p.connport), port);
          }
        case Close(node) => if node in p.portno { Close(node); }
        case Send(from, frame, now, room, tick) =>
          if from in p.portno {
            var _ := HandleMsg(from, frame, now, if room then Some(id) else None, tick);
          }
        case Resize(size, memory, err) =>
          SameSize(p.connport);
          var _ := Resize(size, memory, err);
        case Expire(now) => Expire(now);
      }
    }

    /** Any interleaving of nodes that connect and close, frames, resizes and timer runs: ports, table
        and deliveries are what the events make them, and every delivery is right. */
    method Run(events: seq<Event>, next: Id)
      requires Valid() && Clocked(table.clock, events) && forall id :: id in table.l.elems ==> id < next
      modifies this, table
      ensures Valid() && State(p, table.m, log) == StateAfter(old(State(p, table.m, log)), events, table.timeout)
    {
      hide Seated, Faithful, AllRight, LearningTable.Rep, LearningTable.Timed, NextState;
      var i := 0;
      assert events[0..] == events;
      while i < |events|
        invariant i <= |events| && Valid() && Clocked(table.clock, events[i..])
        invariant StateAfter(State(p, table.m, log), events[i..], table.timeout)
          == StateAfter(old(State(p, table.m, log)), events, table.timeout)
        invariant forall id :: id in table.l.elems ==> id < next + i
      {
        assert events[i..][0] == events[i] && events[i..][1..] == events[i + 1..];
        ghost var clock := table.clock;
        Step(events[i], next + i);
        ClockedEarlier(events[i..], clock, table.clock);
        i := i + 1;
      }
    }
  }

  // What the events make of a switch.

  datatype State = State(p: Ports, m: map<Key, Entry>, log: seq<Delivery>)

  function FreePort(connport: seq<Option<Node>>): int {
    if connport == [] then -1
    else if connport[0].None? then 0
    else
      var rest := FreePort(connport[1..]);
      if rest < 0 then -1 else rest + 1
  }

  lemma {:induction false} FreePortIs(connport: seq<Option<Node>>, port: int)
    requires FirstFree(connport, port)
    ensures FreePort(connport) == port < |connport|
  {
    if connport != [] && connport[0].Some? {
      FreePortIs(connport[1..], if port < 0 then -1 else port - 1);
    }
  }

  lemma SameSize(connport: seq<Option<Node>>)
    ensures Resized(connport, |connport|) == connport
  {
  }

  /** The table after a frame from a connected node. */
  function Taught(p: Ports, m: map<Key, Entry>, from: Node, frame: Frame, expire: nat, room: bool): map<Key, Entry>
    requires from in p.portno
  {
    if |frame| < ETHHDR || Group(Source(frame)) then m
    else Learn(m, KeyOf(Source(frame)), p.portno[from], expire, room)
  }

  /** The table after a run of the timer, if there is one. */
  function Rested(m: map<Key, Entry>, tick: Option<nat>): map<Key, Entry> {
    if tick.Some? then DropExpired(m, tick.value) else m
  }

  lemma ExpireKeeps(p: Ports, m: map<Key, Entry>, log: seq<Delivery>, now: nat)
    requires Faithful(p, m, log)
    ensures Faithful(p, DropExpired(m, now), log)
  {
    hide LastSender;
  }

  function NextState(s: State, e: Event, timeout: nat): State {
    match e
    case Connect(node) =>
      var port := FreePort(s.p.connport);
      if node in s.p.portno || !(0 <= port < |s.p.connport|) then s else s.(p := Joined(s.p, node, port))
    case Close(node) =>
      if node !in s.p.portno || s.p.portno[node] >= |s.p.connport| then s
      else s.(p := Left(s.p, node), m := DropPort(s.m, s.p.portno[node]))
    case Send(from, frame, now, room, tick) =>
      if from !in s.p.portno then s
      else
        var m := Rested(Taught(s.p, s.m, from, frame, now + timeout, timeout > 0 && room), tick);
        var targets := Chosen(s.p.queue, m, s.log + [Heard(from, frame)], from, frame);
        var known := |frame| >= ETHHDR && KeyOf(Dest(frame)) in m;
        s.(m := m, log := s.log + [Delivery(from, frame, s.p.queue, known, targets)])
    case Resize(size, memory, err) =>
      if !Shrinkable(s.p.connport, size) || !memory || err != 0 then s
      else s.(p := s.p.(connport := Resized(s.p.connport, size)))
    case Expire(now) => s.(m := DropExpired(s.m, now))
  }

  function StateAfter(s: State, events: seq<Event>, timeout: nat): State
    decreases |events|
  {
    if events == [] then s else StateAfter(NextState(s, events[0], timeout), events[1..], timeout)
  }

  function Chosen(queue: seq<Node>, m: map<Key, Entry>, log: seq<Delivery>, from: Node, frame: Frame): seq<Node> {
    if |frame| < ETHHDR then []
    else
      var key := KeyOf(Dest(frame));
      var owner := LastSender(log, key);
      if !Group(Dest(frame)) && key in m && owner.Some? then [owner.value] else Without(queue, from)
  }

  function Heard(from: Node, frame: Frame): Delivery { Delivery(from, frame, [], false, []) }

  lemma Occupied(p: Ports, m: map<Key, Entry>, log: seq<Delivery>, key: Key)
    requires Seated(p) && Faithful(p, m, log) && key in m
    ensures LastSender(log, key).Some? && LastSender(log, key).value in p.queue
    ensures m[key].port < |p.connport| && p.connport[m[key].port] == LastSender(log, key)
  {
    hide LastSender, NoRepeats;
  }

  lemma HeardIsEnough(p: Ports, m: map<Key, Entry>, log: seq<Delivery>, d: Delivery)
    requires Faithful(p, m, log + [Heard(d.from, d.frame)])
    ensures Faithful(p, m, log + [d])
  {
    forall k ensures LastSender(log + [d], k) == LastSender(log + [Heard(d.from, d.frame)], k) {
      LastAfter(log, d, k);
      LastAfter(log, Heard(d.from, d.frame), k);
    }
    hide LastSender;
  }

  lemma DeliveryRight(p: Ports, m: map<Key, Entry>, log: seq<Delivery>, d: Delivery)
    requires Seated(p) && Faithful(p, m, log + [d]) && AllRight(log) && d.connected == p.queue
    requires d.known == (|d.frame| >= ETHHDR && KeyOf(Dest(d.frame)) in m)
    requires d.targets == Chosen(p.queue, m, log + [Heard(d.from, d.frame)], d.from, d.frame)
    ensures AllRight(log + [d])
  {
    hide Seated, Faithful, AllRight, LastSender, Group, Without;
    if d.known {
      var key := KeyOf(Dest(d.frame));
      Occupied(p, m, log + [d], key);
      LastAfter(log, d, key);
      LastAfter(log, Heard(d.from, d.frame), key);
    }
    assert (log + [d])[..|log| + 1] == log + [d];
    RightAppend(log, d);
  }

  lemma {:induction false} ClockedEarlier(events: seq<Event>, clock: nat, later: nat)
    requires events != [] && Clocked(clock, events) && later <= Over(events[0], clock)
    ensures Clocked(later, events[1..])
    decreases |events|
  {
    if |events| > 1 {
      var e := events[1];
      if Over(e, later) == later {
        ClockedEarlier(events[1..], Over(events[0], clock), later);
      }
    }
  }

  // What was heard is found again.

  /** The address is in the table until time `until`, at the port of the node last heard from there. */
  ghost predicate Located(s: State, key: Key, node: Node, until: nat) {
    && key in s.m && until <= s.m[key].expire && LastSender(s.log, key) == Some(node)
    && node in s.p.portno && s.m[key].port == s.p.portno[node] < |s.p.connport|
    && s.p.connport[s.p.portno[node]] == Some(node)
    && forall n :: n in s.p.portno && n != node ==> s.p.portno[n] != s.p.portno[node]
  }

  /** The event does not take the address away: the node stays, nobody else uses the address, and the timer
      does not run later than `until`. */
  predicate Spares(e: Event, key: Key, node: Node, until: nat, timeout: nat) {
    match e
    case Connect(_) => true
    case Close(n) => n != node
    case Send(from, frame, now, room, tick) =>
      && (Teaches(frame, key) ==> from == node && until <= now + timeout)
      && (tick.Some? ==> tick.value <= until)
    case Resize(_, _, _) => true
    case Expire(now) => now <= until
  }

  lemma {:induction false} FreePortFree(connport: seq<Option<Node>>)
    ensures var port := FreePort(connport); 0 <= port ==> port < |connport| && connport[port].None?
  {
    if connport != [] && connport[0].Some? {
      FreePortFree(connport[1..]);
    }
  }

  /** Learning an address locates it. */
  lemma HeardIsLocated(s: State, e: Event, key: Key, timeout: nat)
    requires Seated(s.p) && e.Send? && e.from in s.p.portno && Teaches(e.frame, key) && e.room && timeout > 0
    requires e.tick.Some? ==> e.tick.value <= e.now + timeout
    ensures Located(NextState(s, e, timeout), key, e.from, e.now + timeout)
  {
    hide NoRepeats, Without, LastSender, Chosen;
    var t := NextState(s, e, timeout);
    LastAfter(s.log, t.log[|s.log|], key);
  }

  lemma LocatedStays(s: State, e: Event, key: Key, node: Node, until: nat, timeout: nat)
    requires Located(s, key, node, until) && Spares(e, key, node, until, timeout)
    ensures Located(NextState(s, e, timeout), key, node, until)
  {
    hide LastSender, Chosen, Without, FreePort;
    FreePortFree(s.p.connport);
    if e.Send? && e.from in s.p.portno {
      var t := NextState(s, e, timeout);
      LastAfter(s.log, t.log[|s.log|], key);
    }
  }

  lemma {:induction false} LocatedThroughout(s: State, events: seq<Event>, key: Key, node: Node, until: nat,
                                             timeout: nat)
    requires Located(s, key, node, until) && forall e :: e in events ==> Spares(e, key, node, until, timeout)
    ensures Located(StateAfter(s, events, timeout), key, node, until)
    decreases |events|
  {
    if events != [] {
      LocatedStays(s, events[0], key, node, until, timeout);
      LocatedThroughout(NextState(s, events[0], timeout), events[1..], key, node, until, timeout);
    }
  }

  /** A frame to an address that was heard goes to the node it was heard from and to nobody else, whatever
      happens in between, as long as the node stays, nobody else uses the address and the timeout has not
      passed at a run of the timer. */
  lemma HeardIsFound(s: State, heard: Event, events: seq<Event>, e: Event, key: Key, timeout: nat)
    requires Seated(s.p) && heard.Send? && heard.from in s.p.portno && Teaches(heard.frame, key) && heard.room
      && timeout > 0
    requires heard.tick.Some? ==> heard.tick.value <= heard.now + timeout
    requires forall x :: x in events ==> Spares(x, key, heard.from, heard.now + timeout, timeout)
    requires e.Send? && Spares(e, key, heard.from, heard.now + timeout, timeout)
    requires |e.frame| >= ETHHDR && !Group(Dest(e.frame)) && KeyOf(Dest(e.frame)) == key
    ensures var t := StateAfter(NextState(s, heard, timeout), events, timeout);
      e.from in t.p.portno ==>
        var log := NextState(t, e, timeout).log;
        |log| == |t.log| + 1 && log[|t.log|].targets == [heard.from]
  {
    var t := StateAfter(NextState(s, heard, timeout), events, timeout);
    HeardIsLocated(s, heard, key, timeout);
    LocatedThroughout(NextState(s, heard, timeout), events, key, heard.from, heard.now + timeout, timeout);
    LastAfter(t.log, Heard(e.from, e.frame), key);
    hide Without, LastSender, Seated, StateAfter;
  }
}
