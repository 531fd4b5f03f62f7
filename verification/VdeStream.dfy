/**
 * The vdestream framing of packets over a byte stream (`vdestream_send`, `vdestream_recv`): a
 * two-byte length before each packet.  The receiver gets the stream in arbitrary chunks; it keeps
 * a partial packet in a fragment buffer between calls, but throws away a lone byte left at the end
 * of a chunk, so a chunk boundary inside a length field loses synchronization.
 */
module VdeStream {
  import opened Common

  const MAXPACKET := 1521

  type Packet = seq<byte>

  /** vdestream_send: nothing is written for a packet that is too long. */
  function Encode(p: Packet): seq<byte> {
    if |p| <= MAXPACKET then [|p| / 256, |p| % 256] + p else []
  }

  function EncodeAll(ps: seq<Packet>): seq<byte> {
    if ps == [] then [] else Encode(ps[0]) + EncodeAll(ps[1..])
  }

  function Length(c0: byte, c1: byte): nat {
    256 * c0 + c1
  }

  /** Whole packets at the front of s, what is left, and whether an impossible length was met. */
  datatype Parsed = Parsed(packets: seq<Packet>, rest: seq<byte>, err: bool)

  function Parse(s: seq<byte>): Parsed {
    if |s| < 2 then Parsed([], s, false)
    else
      var n := Length(s[0], s[1]);
      if n > MAXPACKET then Parsed([], s, true)
      else if |s| < 2 + n then Parsed([], s, false)
      else
        var r := Parse(s[2 + n..]);
        Parsed([s[2..2 + n]] + r.packets, r.rest, r.err)
  }

  /** Empty packets are consumed but not delivered. */
  function NonEmpty(ps: seq<Packet>): seq<Packet> {
    if ps == [] then [] else (if ps[0] == [] then [] else [ps[0]]) + NonEmpty(ps[1..])
  }

  /** The receiver between two calls: delivered packets, bytes of the packet under way including its
      length field, and how many bytes were thrown away. */
  datatype State = State(delivered: seq<Packet>, pending: seq<byte>, lost: nat)

  /** One call of vdestream_recv. */
  function Feed(st: State, chunk: seq<byte>): State {
    var r := Parse(st.pending + chunk);
    var keep := !r.err && |r.rest| != 1;
    State(st.delivered + NonEmpty(r.packets), if keep then r.rest else [], st.lost + if keep then 0 else |r.rest|)
  }

  function FeedAll(st: State, chunks: seq<seq<byte>>): State
    decreases |chunks|
  {
    if chunks == [] then st else FeedAll(Feed(st, chunks[0]), chunks[1..])
  }

  function Concat(chunks: seq<seq<byte>>): seq<byte> {
    if chunks == [] then [] else chunks[0] + Concat(chunks[1..])
  }

  lemma {:induction false} ParseEncoded(ps: seq<Packet>)
    requires forall i :: 0 <= i < |ps| ==> |ps[i]| <= MAXPACKET
    ensures Parse(EncodeAll(ps)) == Parsed(ps, [], false)
  {
    if ps != [] {
      EncodedFirst(ps);
      ParseWhole(EncodeAll(ps));
      ParseEncoded(ps[1..]);
      hide EncodeAll, Parse;
    }
  }

  /** A whole packet stands at the front of s. */
  predicate Whole(s: seq<byte>) {
    |s| >= 2 && Length(s[0], s[1]) <= MAXPACKET && |s| >= 2 + Length(s[0], s[1])
  }

  lemma ParseWhole(s: seq<byte>)
    ensures Whole(s) ==>
      var n := Length(s[0], s[1]); var r := Parse(s[2 + n..]);
      Parse(s) == Parsed([s[2..2 + n]] + r.packets, r.rest, r.err)
    ensures !Whole(s) ==> Parse(s) == Parsed([], s, |s| >= 2 && Length(s[0], s[1]) > MAXPACKET)
  {
  }

  /** Parsing may stop anywhere and resume with what was left. */
  lemma {:induction false} ParseResume(x: seq<byte>, y: seq<byte>)
    ensures !Parse(x).err ==>
      var a := Parse(x); var b := Parse(a.rest + y);
      Parse(x + y) == Parsed(a.packets + b.packets, b.rest, b.err)
    decreases |x|
  {
    hide Parse;
    ParseWhole(x);
    if Whole(x) {
      var n := Length(x[0], x[1]);
      ParseResume(x[2 + n..], y);
      ParseWhole(x + y);
      assert (x + y)[2..2 + n] == x[2..2 + n] && (x + y)[2 + n..] == x[2 + n..] + y;
    } else if !Parse(x).err {
      assert [] + Parse(x + y).packets == Parse(x + y).packets;
    }
  }

  /** Every byte is part of a packet, of a length field, or left. */
  lemma {:induction false} ParseSize(s: seq<byte>)
    ensures Size(Parse(s).packets) + |Parse(s).rest| == |s|
    decreases |s|
  {
    if |s| >= 2 {
      var n := Length(s[0], s[1]);
      if n <= MAXPACKET && |s| >= 2 + n {
        ParseSize(s[2 + n..]);
      }
    }
  }

  ghost function Size(ps: seq<Packet>): nat {
    if ps == [] then 0 else 2 + |ps[0]| + Size(ps[1..])
  }

  lemma {:induction false} SizeConcat(a: seq<Packet>, b: seq<Packet>)
    ensures Size(a + b) == Size(a) + Size(b)
  {
    if a == [] {
      assert a + b == b;
    } else {
      assert (a + b)[1..] == a[1..] + b;
      SizeConcat(a[1..], b);
    }
  }

  /** How many empty packets there are. */
  ghost function Empty(ps: seq<Packet>): nat {
    if ps == [] then 0 else (if ps[0] == [] then 1 else 0) + Empty(ps[1..])
  }

  /** How many empty packets the chunks hold, as the receiver sees them. */
  ghost function EmptyFed(st: State, chunks: seq<seq<byte>>): nat
    decreases |chunks|
  {
    if chunks == [] then 0
    else Empty(Parse(st.pending + chunks[0]).packets) + EmptyFed(Feed(st, chunks[0]), chunks[1..])
  }

  lemma {:induction false} NonEmptySize(ps: seq<Packet>)
    ensures Size(NonEmpty(ps)) + 2 * Empty(ps) == Size(ps)
  {
    if ps != [] {
      NonEmptySize(ps[1..]);
      SizeConcat(if ps[0] == [] then [] else [ps[0]], NonEmpty(ps[1..]));
    }
  }

  lemma {:induction false} NonEmptyConcat(a: seq<Packet>, b: seq<Packet>)
    ensures NonEmpty(a + b) == NonEmpty(a) + NonEmpty(b)
  {
    if a == [] {
      assert a + b == b;
    } else {
      assert (a + b)[1..] == a[1..] + b;
      NonEmptyConcat(a[1..], b);
    }
  }

  /** Every byte fed is delivered with its packet, part of an empty packet, pending or lost, and lost
      bytes are missing for good. */
  lemma {:induction false} FeedAccounts(st: State, chunks: seq<seq<byte>>)
    ensures var e := FeedAll(st, chunks);
      Size(e.delivered) + 2 * EmptyFed(st, chunks) + |e.pending| + e.lost ==
      Size(st.delivered) + |st.pending| + st.lost + |Concat(chunks)|
    ensures FeedAll(st, chunks).lost >= st.lost
    decreases |chunks|
  {
    if chunks != [] {
      var r := Parse(st.pending + chunks[0]);
      ParseSize(st.pending + chunks[0]);
      NonEmptySize(r.packets);
      SizeConcat(st.delivered, NonEmpty(r.packets));
      FeedAccounts(Feed(st, chunks[0]), chunks[1..]);
    }
  }

  /** A boundary after b bytes of the encoding of ps falls inside a length field. */
  predicate Splits(ps: seq<Packet>, b: int) {
    ps != [] && (b == 1 || (b >= 2 + |ps[0]| && Splits(ps[1..], b - 2 - |ps[0]|)))
  }

  lemma EncodedFirst(ps: seq<Packet>)
    requires ps != [] && |ps[0]| <= MAXPACKET
    ensures var s, n := EncodeAll(ps), |ps[0]|;
      |s| >= 2 + n && Length(s[0], s[1]) == n && s[2..2 + n] == ps[0] && s[2 + n..] == EncodeAll(ps[1..])
  {
    assert EncodeAll(ps) == [|ps[0]| / 256, |ps[0]| % 256] + ps[0] + EncodeAll(ps[1..]);
  }

  lemma {:induction false} ParsePrefix(ps: seq<Packet>, b: nat)
    requires (forall i :: 0 <= i < |ps| ==> |ps[i]| <= MAXPACKET) && b <= |EncodeAll(ps)|
    ensures !Parse(EncodeAll(ps)[..b]).err
    ensures |Parse(EncodeAll(ps)[..b]).rest| == 1 <==> Splits(ps, b)
    decreases |ps|
  {
    if ps != [] && b >= 2 {
      var n := |ps[0]|;
      EncodedFirst(ps);
      CutFirst(EncodeAll(ps), b);
      hide EncodeAll, Parse;
      if b >= 2 + n { ParsePrefix(ps[1..], b - 2 - n); }
    }
  }

  /** Parsing a cut of a stream that begins with a whole packet. */
  lemma CutFirst(s: seq<byte>, b: nat)
    requires 2 <= b <= |s| && Length(s[0], s[1]) <= MAXPACKET && 2 + Length(s[0], s[1]) <= |s|
    ensures var n := Length(s[0], s[1]);
      && (b < 2 + n ==> Parse(s[..b]) == Parsed([], s[..b], false))
      && (b >= 2 + n ==>
            && Parse(s[..b]).rest == Parse(s[2 + n..][..b - 2 - n]).rest
            && Parse(s[..b]).err == Parse(s[2 + n..][..b - 2 - n]).err)
  {
    var n := Length(s[0], s[1]);
    assert s[..b][0] == s[0] && s[..b][1] == s[1];
    if b >= 2 + n { assert s[..b][2 + n..] == s[2 + n..][..b - 2 - n]; }
  }

  /** No boundary of the chunks, the first starting after `off` bytes, splits a length field. */
  predicate NoSplit(ps: seq<Packet>, off: nat, chunks: seq<seq<byte>>)
    decreases |chunks|
  {
    chunks == [] || (!Splits(ps, off + |chunks[0]|) && NoSplit(ps, off + |chunks[0]|, chunks[1..]))
  }

  /** The receiver has seen exactly the first b bytes of the encoding, without loss. */
  ghost predicate InStep(ps: seq<Packet>, b: nat, st: State) {
    b <= |EncodeAll(ps)| &&
    var r := Parse(EncodeAll(ps)[..b]);
    !r.err && st == State(NonEmpty(r.packets), r.rest, 0)
  }

  /** One chunk: still in step, or exactly one byte lost because the chunk ends inside a length. */
  lemma FeedStep(ps: seq<Packet>, b: nat, st: State, chunk: seq<byte>)
    requires (forall i :: 0 <= i < |ps| ==> |ps[i]| <= MAXPACKET) && InStep(ps, b, st)
    requires b + |chunk| <= |EncodeAll(ps)| && chunk == EncodeAll(ps)[b..b + |chunk|]
    ensures !Splits(ps, b + |chunk|) ==> InStep(ps, b + |chunk|, Feed(st, chunk))
    ensures Splits(ps, b + |chunk|) ==> Feed(st, chunk).lost == 1
  {
    hide Parse, Splits, EncodeAll;
    var s, c := EncodeAll(ps), b + |chunk|;
    assert s[..c] == s[..b] + chunk;
    ParseResume(s[..b], chunk);
    ParsePrefix(ps, c);
    var a, r := Parse(s[..b]), Parse(st.pending + chunk);
    NonEmptyConcat(a.packets, r.packets);
  }

  lemma FirstChunk(s: seq<byte>, b: nat, chunks: seq<seq<byte>>)
    requires b <= |s| && s[b..] == Concat(chunks) && chunks != []
    ensures var c := b + |chunks[0]|; c <= |s| && chunks[0] == s[b..c] && Concat(chunks[1..]) == s[c..]
  {
    var k := |chunks[0]|;
    assert s[b..][..k] == chunks[0] && s[b..][k..] == Concat(chunks[1..]);
    assert s[b..b + k] == s[b..][..k] && s[b + k..] == s[b..][k..];
  }

  lemma {:induction false} FeedFrom(ps: seq<Packet>, b: nat, st: State, chunks: seq<seq<byte>>)
    requires (forall i :: 0 <= i < |ps| ==> |ps[i]| <= MAXPACKET) && InStep(ps, b, st)
    requires EncodeAll(ps)[b..] == Concat(chunks)
    ensures NoSplit(ps, b, chunks) ==> FeedAll(st, chunks) == State(NonEmpty(ps), [], 0)
    ensures !NoSplit(ps, b, chunks) ==> FeedAll(st, chunks).lost > 0
    decreases |chunks|
  {
    hide Splits, EncodeAll, Feed, NonEmpty;
    if chunks == [] {
      ParseEncoded(ps);
      assert EncodeAll(ps)[..b] == EncodeAll(ps);
    } else {
      hide Parse;
      var c := b + |chunks[0]|;
      FirstChunk(EncodeAll(ps), b, chunks);
      FeedStep(ps, b, st, chunks[0]);
      if Splits(ps, c) {
        FeedAccounts(Feed(st, chunks[0]), chunks[1..]);
      } else {
        FeedFrom(ps, c, Feed(st, chunks[0]), chunks[1..]);
      }
    }
  }

  /** The framing round trip: a stream of encoded packets, cut into chunks that never split a length
      field, delivers exactly the nonempty packets in order, with nothing pending. */
  lemma RoundTrip(ps: seq<Packet>, chunks: seq<seq<byte>>)
    requires forall i :: 0 <= i < |ps| ==> |ps[i]| <= MAXPACKET
    requires Concat(chunks) == EncodeAll(ps) && NoSplit(ps, 0, chunks)
    ensures FeedAll(State([], [], 0), chunks) == State(NonEmpty(ps), [], 0)
  {
    assert EncodeAll(ps)[0..] == EncodeAll(ps) && EncodeAll(ps)[..0] == [];
    FeedFrom(ps, 0, State([], [], 0), chunks);
  }

  /** Exactly when the framing works: the nonempty packets sent are the packets delivered if and only
      if no chunk boundary splits a length field. */
  lemma DeliversExactlyWhen(ps: seq<Packet>, chunks: seq<seq<byte>>)
    requires forall i :: 0 <= i < |ps| ==> 1 <= |ps[i]| <= MAXPACKET
    requires Concat(chunks) == EncodeAll(ps)
    ensures FeedAll(State([], [], 0), chunks).delivered == ps <==> NoSplit(ps, 0, chunks)
  {
    assert EncodeAll(ps)[0..] == EncodeAll(ps) && EncodeAll(ps)[..0] == [];
    FeedFrom(ps, 0, State([], [], 0), chunks);
    FeedAccounts(State([], [], 0), chunks);
    EncodedSize(ps);
    AllKept(ps);
  }

  lemma {:induction false} EncodedSize(ps: seq<Packet>)
    requires forall i :: 0 <= i < |ps| ==> |ps[i]| <= MAXPACKET
    ensures |EncodeAll(ps)| == Size(ps)
  {
    if ps != [] {
      EncodedSize(ps[1..]);
    }
  }

  lemma {:induction false} AllKept(ps: seq<Packet>)
    requires forall i :: 0 <= i < |ps| ==> 1 <= |ps[i]|
    ensures NonEmpty(ps) == ps
  {
    if ps != [] {
      AllKept(ps[1..]);
    }
  }

  /** The receiver object. */
  class Receiver {
    var fragment: array<byte>
    var fragp: nat
    var rnx: nat
    var remaining: nat
    var delivered: seq<Packet>
    ghost var lost: nat

    /** A packet under way has its length in rnx and its first fragp bytes in the fragment. */
    ghost predicate Valid()
      reads this, fragment
    {
      && fragment.Length == MAXPACKET && rnx <= MAXPACKET
      && (rnx > 0 ==> remaining > 0 && fragp + remaining == rnx)
    }

    ghost function Pending(): seq<byte>
      reads this, fragment
      requires Valid()
    {
      if rnx == 0 then [] else [rnx / 256, rnx % 256] + fragment[..fragp]
    }

    ghost function Abstract(): State
      reads this, fragment
      requires Valid()
    {
      State(delivered, Pending(), lost)
    }

    constructor ()
      ensures Valid() && fresh(fragment) && Abstract() == State([], [], 0)
    {
      fragment := new byte[MAXPACKET](_ => 0);
      fragp, rnx, remaining, delivered, lost := 0, 0, 0, [], 0;
    }

    method Memcpy(at: nat, src: seq<byte>)
      requires at + |src| <= fragment.Length
      modifies fragment
      ensures fragment[..at + |src|] == old(fragment[..at]) + src
    {
      forall i | 0 <= i < |src| {
        fragment[at + i] := src[i];
      }
    }

    /** The part of a packet that has arrived goes into the fragment buffer. */
    method KeepPartial(buf: seq<byte>, at0: nat)
      requires at0 + 2 <= |buf| && rnx == Length(buf[at0], buf[at0 + 1]) && |buf| - at0 - 2 < rnx <= MAXPACKET
      requires fragment.Length == MAXPACKET
      modifies this`fragp, this`remaining, fragment
      ensures Valid() && Abstract() == State(delivered, buf[at0..], lost)
    {
      var at := at0 + 2;
      Memcpy(0, buf[at..]);
      fragp, remaining := |buf| - at, rnx - (|buf| - at);
      assert rnx / 256 == buf[at0] && rnx % 256 == buf[at0 + 1];
      assert fragment[..fragp] == buf[at..];
    }

    /** One round of the loop of vdestream_recv, at a length field; `stop` when nothing is left to look
        at, because the packet goes on in the next chunk or the length is impossible. */
    method OneHeader(buf: seq<byte>, at0: nat) returns (at: nat, stop: bool)
      requires Valid() && rnx == 0 && at0 + 1 < |buf|
      modifies this, fragment
      ensures Valid() && fragment == old(fragment) && at0 < at <= |buf|
      ensures !stop ==> rnx == 0 && Feed(Abstract(), buf[at..]) == Feed(old(Abstract()), buf[at0..])
      ensures stop ==> Abstract() == Feed(old(Abstract()), buf[at0..])
    {
      hide Feed;
      ghost var t := buf[at0..];
      FeedWhole(Abstract(), t);
      FeedPartial(Abstract(), t);
      rnx := Length(buf[at0], buf[at0 + 1]);
      at, stop := at0 + 2, false;
      if rnx == 0 {
        NonEmptyOne(t[2..2]);
        assert t[2..] == buf[at..] && delivered + [] == delivered;
      } else if rnx > MAXPACKET {
        lost := lost + |t|;
        rnx, stop := 0, true;
      } else if rnx > |buf| - at {
        KeepPartial(buf, at0);
        at, stop := |buf|, true;
      } else {
        NonEmptyOne(buf[at..at + rnx]);
        assert t[2..2 + rnx] == buf[at..at + rnx] && t[2 + rnx..] == buf[at + rnx..];
        delivered := delivered + [buf[at..at + rnx]];
        at := at + rnx;
        rnx := 0;
      }
    }

    /** The loop of vdestream_recv, on the rest of the buffer from `start` on. */
    method RecvHeaders(buf: seq<byte>, start: nat)
      requires Valid() && rnx == 0 && start <= |buf|
      modifies this, fragment
      ensures Valid() && fragment == old(fragment) && Abstract() == Feed(old(Abstract()), buf[start..])
    {
      hide Feed;
      var at, stop := start, false;
      while |buf| - at > 1
        invariant Valid() && fragment == old(fragment) && start <= at <= |buf| && rnx == 0
        invariant Feed(Abstract(), buf[at..]) == Feed(old(Abstract()), buf[start..])
        decreases |buf| - at
      {
        at, stop := OneHeader(buf, at);
        if stop {
          return;
        }
      }
      FeedPartial(Abstract(), buf[at..]);
      lost := lost + (|buf| - at);
    }

    /** vdestream_recv refines one step of the abstract receiver, whatever the bytes, and never writes
        beyond the fragment buffer. */
    method Recv(buf: seq<byte>)
      requires Valid()
      modifies this, fragment
      ensures Valid() && fragment == old(fragment) && Abstract() == Feed(old(Abstract()), buf)
    {
      hide Feed;
      var at := 0;
      if rnx > 0 {
        var amount := Min(remaining, |buf|);
        FeedFragment(Abstract(), rnx, buf[..amount], buf[amount..]);
        assert buf == buf[..amount] + buf[amount..];
        Memcpy(fragp, buf[..amount]);
        remaining := remaining - amount;
        fragp := fragp + amount;
        at := amount;
        assert old(Pending()) + buf[..amount] == [rnx / 256, rnx % 256] + fragment[..fragp];
        if remaining == 0 {
          assert (old(Pending()) + buf[..amount])[2..] == fragment[..rnx];
          delivered := delivered + [fragment[..rnx]];
          rnx := 0;
        } else {
          return;
        }
      }
      RecvHeaders(buf, at);
      assert buf[0..] == buf;
    }
  }

  lemma NonEmptyOne(p: Packet)
    ensures NonEmpty([p]) == if p == [] then [] else [p]
  {
  }

  /** What a step does with a buffer that starts with a whole packet. */
  lemma FeedWhole(st: State, t: seq<byte>)
    requires st.pending == []
    ensures Whole(t) ==>
      var n := Length(t[0], t[1]);
      Feed(st, t) == Feed(st.(delivered := st.delivered + NonEmpty([t[2..2 + n]])), t[2 + n..])
  {
    hide Parse, NonEmpty;
    if Whole(t) {
      var n := Length(t[0], t[1]);
      var r := Parse(t[2 + n..]);
      assert [] + t == t && [] + t[2 + n..] == t[2 + n..];
      ParseWhole(t);
      NonEmptyConcat([t[2..2 + n]], r.packets);
    }
  }

  /** What a step does with a buffer that starts with anything else. */
  lemma FeedPartial(st: State, t: seq<byte>)
    requires st.pending == []
    ensures |t| >= 2 && !Whole(t) && Length(t[0], t[1]) <= MAXPACKET ==> Feed(st, t) == st.(pending := t)
    ensures |t| >= 2 && Length(t[0], t[1]) > MAXPACKET ==> Feed(st, t) == st.(lost := st.lost + |t|)
    ensures |t| < 2 ==> Feed(st, t) == st.(lost := st.lost + |t|)
  {
    hide Parse;
    assert [] + t == t;
    ParseWhole(t);
  }

  /** What a step does with the continuation of a packet of length n. */
  lemma FeedFragment(st: State, n: nat, more: seq<byte>, rest: seq<byte>)
    requires 0 < n <= MAXPACKET && 2 <= |st.pending| && st.pending[0] == n / 256 && st.pending[1] == n % 256
    requires |st.pending| + |more| <= 2 + n && (rest != [] ==> |st.pending| + |more| == 2 + n)
    ensures |st.pending| + |more| == 2 + n ==>
      Feed(st, more + rest) == Feed(State(st.delivered + [(st.pending + more)[2..]], [], st.lost), rest)
    ensures |st.pending| + |more| < 2 + n ==> Feed(st, more + rest) == st.(pending := st.pending + more)
  {
    hide Parse;
    var s := st.pending + (more + rest);
    assert s == (st.pending + more) + rest && Length(s[0], s[1]) == n;
    ParseWhole(s);
    if |st.pending| + |more| == 2 + n {
      assert s[2..2 + n] == (st.pending + more)[2..] && s[2 + n..] == rest && [] + rest == rest;
      NonEmptyConcat([s[2..2 + n]], Parse(rest).packets);
    } else {
      assert s == st.pending + more;
    }
  }

  /** vdestream_send followed by vdestream_recv over whole runs of the receiver object. */
  method Transfer(ps: seq<Packet>, chunks: seq<seq<byte>>) returns (r: Receiver)
    requires forall i :: 0 <= i < |ps| ==> 1 <= |ps[i]| <= MAXPACKET
    requires Concat(chunks) == EncodeAll(ps)
    ensures fresh(r) && r.Valid()
    ensures r.delivered == ps <==> NoSplit(ps, 0, chunks)
    ensures NoSplit(ps, 0, chunks) ==> r.rnx == 0
  {
    r := new Receiver();
    DeliversExactlyWhen(ps, chunks);
    hide Feed;
    for i := 0 to |chunks|
      invariant fresh(r) && fresh(r.fragment) && r.Valid()
      invariant FeedAll(r.Abstract(), chunks[i..]) == FeedAll(State([], [], 0), chunks)
    {
      assert chunks[i..][0] == chunks[i] && chunks[i..][1..] == chunks[i + 1..];
      r.Recv(chunks[i]);
    }
    if NoSplit(ps, 0, chunks) {
      RoundTrip(ps, chunks);
    }
  }
}
