/**
 * The 32-bit TCP sequence space (section 3.3 of RFC 793).  The comparison macros subtract two
 * unsigned 32-bit numbers and look at the sign of the difference taken as a 32-bit `int`.
 * `Wire(isn, x)` is the number that stands on the wire for the x-th position of an unbounded
 * stream; the lemmas say exactly when the macros order two wire numbers as their positions.
 */
module SeqSpace {
  const MODULUS: int := 0x1_0000_0000
  const HALF: int := 0x8000_0000

  type tcp_seq = x: int | 0 <= x < 0x1_0000_0000

  /** Unsigned addition, `a + n` in C. */
  function Add(a: tcp_seq, n: int): tcp_seq {
    (a + n) % MODULUS
  }

  /** `(int)(a - b)`. */
  function Diff(a: tcp_seq, b: tcp_seq): int {
    var d := (a - b) % MODULUS;
    if d < HALF then d else d - MODULUS
  }

  predicate SeqLt(a: tcp_seq, b: tcp_seq) { Diff(a, b) < 0 }

  predicate SeqLeq(a: tcp_seq, b: tcp_seq) { Diff(a, b) <= 0 }

  predicate SeqGt(a: tcp_seq, b: tcp_seq) { Diff(a, b) > 0 }

  /** The sequence number of position `x` of the stream that starts at `isn`. */
  function Wire(isn: tcp_seq, x: int): tcp_seq {
    (isn + x) % MODULUS
  }

  /** Advancing a wire number advances its position, across any number of wraparounds. */
  lemma AddWire(isn: tcp_seq, x: int, n: int)
    ensures Add(Wire(isn, x), n) == Wire(isn, x + n)
  {
  }

  /** The signed difference of two wire numbers is the distance of their positions exactly
      when that distance is representable, so within half the sequence space the macros
      order segments as the stream does, and nowhere else. */
  lemma DiffWire(isn: tcp_seq, x: int, y: int)
    ensures Diff(Wire(isn, x), Wire(isn, y)) == x - y <==> -HALF <= x - y < HALF
  {
    var d := (Wire(isn, x) - Wire(isn, y)) % MODULUS;
    assert d == (x - y) % MODULUS;
  }

  /** Outside that range, but less than once around, the difference is off by one turn. */
  lemma DiffWireWrapped(isn: tcp_seq, x: int, y: int)
    requires -MODULUS < x - y < MODULUS
    ensures Diff(Wire(isn, x), Wire(isn, y)) ==
            if x - y < -HALF then x - y + MODULUS else if x - y < HALF then x - y else x - y - MODULUS
  {
    var z := if x - y < -HALF then x + MODULUS else if x - y < HALF then x else x - MODULUS;
    AddWire(isn, x, z - x);
    DiffWire(isn, z, y);
  }

  lemma WireInjective(isn: tcp_seq, x: int, y: int)
    requires Wire(isn, x) == Wire(isn, y) && -HALF <= x - y < HALF
    ensures x == y
  {
    DiffWire(isn, x, y);
  }

  /** The three comparisons on wire numbers less than half the space apart. */
  lemma CompareWire(isn: tcp_seq, x: int, y: int)
    requires -HALF <= x - y < HALF
    ensures Diff(Wire(isn, x), Wire(isn, y)) == x - y
    ensures SeqGt(Wire(isn, x), Wire(isn, y)) == (x > y)
    ensures SeqLt(Wire(isn, x), Wire(isn, y)) == (x < y)
    ensures SeqLeq(Wire(isn, x), Wire(isn, y)) == (x <= y)
    ensures Wire(isn, x) == Wire(isn, y) <==> x == y
  {
    DiffWire(isn, x, y);
  }
}

/** The connection states (vde-2/src/slirpvde/tcp.h), numbered so that later ones compare greater. */
module TcpStates {
  const TCPS_CLOSED := 0
  const TCPS_LISTEN := 1
  const TCPS_SYN_SENT := 2
  const TCPS_SYN_RECEIVED := 3
  const TCPS_ESTABLISHED := 4
  const TCPS_CLOSE_WAIT := 5
  const TCPS_FIN_WAIT_1 := 6
  const TCPS_CLOSING := 7
  const TCPS_LAST_ACK := 8
  const TCPS_FIN_WAIT_2 := 9
  const TCPS_TIME_WAIT := 10

  // What a state says about the two directions: the peer's FIN has been received, we have closed, and our
  // FIN has been acknowledged.

  predicate GotFin(state: int) {
    state == TCPS_CLOSE_WAIT || state == TCPS_CLOSING || state == TCPS_LAST_ACK || state == TCPS_TIME_WAIT
  }

  predicate HasClosed(state: int) {
    TCPS_FIN_WAIT_1 <= state <= TCPS_TIME_WAIT
  }

  predicate FinIsAcked(state: int) {
    state == TCPS_FIN_WAIT_2 || state == TCPS_TIME_WAIT
  }

  /** The three facts tell the synchronized states apart, but for CLOSING and LAST_ACK, which differ in
      who closed first. */
  lemma StatesApart(s: int, t: int)
    requires TCPS_ESTABLISHED <= s <= TCPS_TIME_WAIT && TCPS_ESTABLISHED <= t <= TCPS_TIME_WAIT
    requires GotFin(s) == GotFin(t) && HasClosed(s) == HasClosed(t) && FinIsAcked(s) == FinIsAcked(t)
    ensures s == t || {s, t} == {TCPS_CLOSING, TCPS_LAST_ACK}
  {
  }

  /** The state after the peer's FIN (section 3.9 of RFC 793). */
  function AfterFin(state: int): int {
    if state == TCPS_ESTABLISHED then TCPS_CLOSE_WAIT
    else if state == TCPS_FIN_WAIT_1 then TCPS_CLOSING
    else if state == TCPS_FIN_WAIT_2 then TCPS_TIME_WAIT
    else state
  }

  /** It says that the FIN has been received and nothing else about our side. */
  lemma FinMoves(s: int)
    requires TCPS_ESTABLISHED <= s <= TCPS_TIME_WAIT
    ensures var t := AfterFin(s);
      && TCPS_ESTABLISHED <= t <= TCPS_TIME_WAIT && GotFin(t) && HasClosed(t) == HasClosed(s)
      && FinIsAcked(t) == FinIsAcked(s) && (GotFin(s) ==> t == s) && (t == TCPS_LAST_ACK ==> s == t)
  {
  }

  const TCP_MAXWIN := 65535
}
