/**
 * The Internet checksum (`cksum`), sections 1 and 2 of RFC 1071, on a little-endian machine.  The
 * routine adds 16-bit words in host order into an `int`, unrolled sixteen and four at a time, and
 * when the data start at an odd address adds misaligned words and shifts the sum by a byte.
 */
module Checksum {
  import opened Common

  type int32 = x: int | -0x8000_0000 <= x < 0x8000_0000

  /** The one's complement sum of RFC 1071: addition of 16-bit numbers with end-around carry. */
  function OnesAdd(a: int, b: int): int {
    if a + b > 65535 then a + b - 65535 else a + b
  }

  /** A 16-bit load from two adjacent bytes in memory, low byte first. */
  function Word(c0: byte, c1: byte): int {
    c0 + 256 * c1
  }

  /** The RFC 1071 sum of the data taken as 16-bit words in host order, padded with a zero byte. */
  function OnesSum(d: seq<byte>): (r: int)
    ensures 0 <= r <= 65535
  {
    if d == [] then 0
    else if |d| == 1 then Word(d[0], 0)
    else OnesAdd(Word(d[0], d[1]), OnesSum(d[2..]))
  }

  /** The same with the words in network order. */
  function OnesSumNetwork(d: seq<byte>): (r: int)
    ensures 0 <= r <= 65535
  {
    if d == [] then 0
    else if |d| == 1 then Word(0, d[0])
    else OnesAdd(Word(d[1], d[0]), OnesSumNetwork(d[2..]))
  }

  /** The unbounded sum of the words: byte i counts once or 256 times. */
  ghost function Sum(d: seq<byte>): nat {
    if d == [] then 0 else if |d| == 1 then d[0] else Word(d[0], d[1]) + Sum(d[2..])
  }

  /** The 16-bit number that one's complement arithmetic makes of a sum: its residue modulo 65535,
      with 65535 standing for zero unless the sum itself is zero. */
  function Fold(s: nat): (r: nat)
    ensures r <= 65535
  {
    if s == 0 then 0 else (s - 1) % 65535 + 1
  }

  /** The REDUCE macro: add the two halves of the sum and carry around. */
  function Reduce(s: nat): nat {
    var t := s / 65536 + s % 65536;
    if t > 65535 then t - 65535 else t
  }

  lemma ReduceIsFold(s: nat)
    requires s < 0x1_0000_0000
    ensures Reduce(s) == Fold(s)
  {
  }

  /** Fold is determined by the residue and by being zero or not. */
  lemma FoldUnique(s: nat, t: nat, k: int)
    requires s == t + 65535 * k && (s == 0 <==> t == 0)
    ensures Fold(s) == Fold(t)
  {
    if s != 0 {
      assert (s - 1) % 65535 == (t - 1 + 65535 * k) % 65535 == (t - 1) % 65535;
    }
  }

  lemma FoldResidue(s: nat) returns (k: nat)
    ensures s == Fold(s) + 65535 * k && (s == 0 <==> Fold(s) == 0)
  {
    k := if s == 0 then 0 else (s - 1) / 65535;
  }

  /** Folding early does no harm, nor does it under a multiplication by 256. */
  lemma FoldEarly(s: nat, t: nat)
    ensures Fold(Fold(s) + t) == Fold(s + t)
    ensures Fold(256 * Fold(s) + t) == Fold(256 * s + t)
  {
    var k := FoldResidue(s);
    FoldUnique(s + t, Fold(s) + t, k);
    FoldUnique(256 * s + t, 256 * Fold(s) + t, 256 * k);
  }

  lemma OnesAddIsFold(a: nat, b: nat)
    requires a <= 65535 && b <= 65535
    ensures OnesAdd(a, b) == Fold(a + b)
  {
  }

  /** End-around carry at every step or folding once at the end: the same sum. */
  lemma {:induction false} OnesSumIsFold(d: seq<byte>)
    ensures OnesSum(d) == Fold(Sum(d))
  {
    if |d| > 1 {
      OnesSumIsFold(d[2..]);
      OnesAddIsFold(Word(d[0], d[1]), OnesSum(d[2..]));
      FoldEarly(Sum(d[2..]), Word(d[0], d[1]));
    }
  }

  /** The sum of n words loaded from byte offset `a` on. */
  ghost function Words(d: seq<byte>, a: nat, n: nat): nat
    requires a + 2 * n <= |d|
  {
    if n == 0 then 0 else Words(d, a, n - 1) + Word(d[a + 2 * n - 2], d[a + 2 * n - 1])
  }

  lemma {:induction false} WordsBound(d: seq<byte>, a: nat, n: nat)
    requires a + 2 * n <= |d|
    ensures Words(d, a, n) <= 65535 * n
  {
    if n > 0 {
      WordsBound(d, a, n - 1);
    }
  }

  /** One line of the unrolled loops: sum += w[0]; ... sum += w[3]. */
  function Line(d: seq<byte>, at: nat): (r: int)
    requires at + 8 <= |d|
    ensures 0 <= r <= 4 * 65535
  {
    Load(d, at, 0) + Load(d, at, 1) + Load(d, at, 2) + Load(d, at, 3)
  }

  lemma Words4(d: seq<byte>, a: nat, n: nat)
    requires a + 2 * n + 8 <= |d|
    ensures Words(d, a, n + 4) == Words(d, a, n) + Line(d, a + 2 * n)
  {
    assert Words(d, a, n + 1) == Words(d, a, n) + Load(d, a + 2 * n, 0);
    assert Words(d, a, n + 2) == Words(d, a, n + 1) + Load(d, a + 2 * n, 1);
    assert Words(d, a, n + 3) == Words(d, a, n + 2) + Load(d, a + 2 * n, 2);
  }

  /** w[i] when w points to byte `at`. */
  function Load(d: seq<byte>, at: nat, i: nat): (r: int)
    requires at + 2 * i + 2 <= |d|
    ensures 0 <= r <= 65535
  {
    Word(d[at + 2 * i], d[at + 2 * i + 1])
  }

  lemma WordsNext(d: seq<byte>, a: nat, n: nat)
    requires a + 2 * n + 2 <= |d|
    ensures Words(d, a, n + 1) == Words(d, a, n) + Load(d, a + 2 * n, 0)
  {
  }

  lemma {:induction false} SumAppend(x: seq<byte>, y: seq<byte>)
    requires |x| % 2 == 0
    ensures Sum(x + y) == Sum(x) + Sum(y)
  {
    if x == [] {
      assert x + y == y;
    } else {
      assert (x + y)[2..] == x[2..] + y;
      SumAppend(x[2..], y);
    }
  }

  /** The loads from offset `a` sum the bytes from there on. */
  lemma {:induction false} WordsAreSum(d: seq<byte>, a: nat, n: nat)
    requires a + 2 * n <= |d|
    ensures Words(d, a, n) == Sum(d[a..a + 2 * n])
  {
    if n > 0 {
      WordsAreSum(d, a, n - 1);
      var x, y := d[a..a + 2 * n - 2], d[a + 2 * n - 2..a + 2 * n];
      assert d[a..a + 2 * n] == x + y;
      SumAppend(x, y);
    }
  }

  lemma SumTail(d: seq<byte>, a: nat, n: nat)
    requires a + 2 * n + 1 == |d|
    ensures Sum(d[a..]) == Words(d, a, n) + d[|d| - 1]
  {
    WordsAreSum(d, a, n);
    assert d[a..] == d[a..a + 2 * n] + [d[|d| - 1]];
    SumAppend(d[a..a + 2 * n], [d[|d| - 1]]);
  }

  /** RFC 1071 section 2(B): shifting the data by one byte swaps the sum, that is, multiplies it by
      256 modulo 65535. */
  lemma {:induction false} ShiftByte(e: seq<byte>) returns (k: nat)
    ensures 256 * Sum(e) == Sum([0] + e) + 65535 * k
    ensures Sum(e) == 0 <==> Sum([0] + e) == 0
  {
    k := 0;
    if |e| == 1 {
      assert ([0] + e)[2..] == [];
    } else if |e| > 1 {
      var k' := ShiftByte(e[2..]);
      assert ([0] + e)[2..] == [e[1]] + e[2..];
      FirstByte(e[1], e[2..]);
      k := k' + e[1];
    } else {
      assert [0] + e == [0];
    }
  }

  lemma FirstByte(x: byte, r: seq<byte>)
    ensures Sum([x] + r) == x + Sum([0] + r)
  {
    if r == [] {
      assert [x] + r == [x] && [0 as byte] + r == [0 as byte];
    } else {
      assert ([x] + r)[2..] == r[1..] && ([0] + r)[2..] == r[1..];
    }
  }

  /** The odd-address case: c0 plus 256 times the sum of the rest folds to the sum of the whole. */
  lemma OddStart(d: seq<byte>)
    requires d != []
    ensures Fold(d[0] + 256 * Sum(d[1..])) == Fold(Sum(d))
  {
    var k := ShiftByte(d[1..]);
    FirstByte(d[0], d[1..]);
    assert d == [d[0]] + d[1..];
    FoldUnique(d[0] + 256 * Sum(d[1..]), Sum(d), k);
  }

  /** The loop unrolled sixteen times; n counts the words taken so far.  The `int` cannot overflow. */
  method SumBySixteen(d: seq<byte>, a: nat) returns (sum: int32, n: nat)
    requires a <= 1 && a <= |d| <= 65535
    ensures a + 2 * n <= |d| < a + 2 * n + 32
    ensures sum == Words(d, a, n)
  {
    assert Words(d, a, 0) == 0;
    hide Words, Line;
    sum, n := 0, 0;
    while |d| - a - 2 * n >= 32
      invariant a + 2 * n <= |d| && sum == Words(d, a, n)
    {
      var at := a + 2 * n;
      Words4(d, a, n);
      Words4(d, a, n + 4);
      Words4(d, a, n + 8);
      Words4(d, a, n + 12);
      WordsBound(d, a, n + 16);
      sum := sum + Line(d, at) + Line(d, at + 8) + Line(d, at + 16) + Line(d, at + 24);
      n := n + 16;
    }
  }

  /** The loop unrolled four times. */
  method SumByFour(d: seq<byte>, a: nat, start: nat, sum0: int32) returns (sum: int32, n: nat)
    requires |d| <= 65535 && a + 2 * start <= |d| && sum0 == Words(d, a, start)
    ensures a + 2 * n <= |d| < a + 2 * n + 8
    ensures sum == Words(d, a, n)
  {
    hide Words, Line;
    sum, n := sum0, start;
    while |d| - a - 2 * n >= 8
      invariant a + 2 * n <= |d| && sum == Words(d, a, n)
    {
      Words4(d, a, n);
      WordsBound(d, a, n + 4);
      sum := sum + Line(d, a + 2 * n);
      n := n + 4;
    }
  }

  /** The loop over the last words, on an already reduced sum. */
  method SumRest(d: seq<byte>, a: nat, start: nat, reduced: int32) returns (sum: int32, n: nat)
    requires a + 2 * start <= |d| < a + 2 * start + 8
    requires reduced == Fold(Words(d, a, start))
    ensures a + 2 * n <= |d| < a + 2 * n + 2
    ensures 0 <= sum <= 65535 * 4 && Fold(sum) == Fold(Words(d, a, n))
  {
    hide Words, Load, Fold;
    sum, n := reduced, start;
    ghost var t: nat := 0;
    while |d| - a - 2 * n >= 2
      invariant start <= n && a + 2 * n <= |d|
      invariant Words(d, a, n) == Words(d, a, start) + t && sum == reduced + t && t <= 65535 * (n - start)
    {
      WordsNext(d, a, n);
      t := t + Load(d, a + 2 * n, 0);
      sum := sum + Load(d, a + 2 * n, 0);
      n := n + 1;
    }
    FoldEarly(Words(d, a, start), t);
  }

  /** cksum(m, len) for an mbuf that holds m and starts at an odd or even address: the complement of
      the RFC 1071 sum of the first len bytes, whatever the alignment. */
  method Cksum(m: seq<byte>, len: nat, odd: bool) returns (r: int)
    requires |m| <= 65535
    ensures 0 <= r <= 65535
    ensures r == 65535 - OnesSum(m[..Min(len, |m|)])
  {
    var d := m[..Min(len, |m|)];
    OnesSumIsFold(d);
    hide OnesSum, Sum, Fold, Words, Reduce;
    var a := if odd && d != [] then 1 else 0;
    var sum, n := SumBySixteen(d, a);
    sum, n := SumByFour(d, a, n, sum);
    ReduceIsFold(sum);
    if a == 0 {
      var s := Even(d, n, sum);
      r := 65535 - s;
    } else {
      var s := Odd(d, n, sum);
      r := 65535 - s;
    }
  }

  /** From `if (mlen == 0 && byte_swapped == 0)` on, data at an even address. */
  method Even(d: seq<byte>, n0: nat, sum0: int32) returns (s: int)
    requires 2 * n0 <= |d| < 2 * n0 + 8 && sum0 == Words(d, 0, n0)
    ensures s == Fold(Sum(d)) && 0 <= s <= 65535
  {
    hide Sum, Fold, Words, Reduce;
    ReduceIsFold(sum0);
    if 2 * n0 == |d| {
      WordsAreSum(d, 0, n0);
      assert d[0..2 * n0] == d;
      return Reduce(sum0);
    }
    var sum, n := SumRest(d, 0, n0, Reduce(sum0));
    if 2 * n + 1 == |d| {
      // the odd byte at the end: s_util.c[0] is it, s_util.c[1] is zero
      SumTail(d, 0, n);
      assert d[0..] == d;
      FoldEarly(sum, d[2 * n]);
      FoldEarly(Words(d, 0, n), d[2 * n]);
      sum := sum + Word(d[2 * n], 0);
    } else {
      WordsAreSum(d, 0, n);
      assert d[0..2 * n] == d;
    }
    ReduceIsFold(sum);
    s := Reduce(sum);
  }

  /** The same when the data start at an odd address: the first byte was set aside in s_util.c[0],
      the sum of the misaligned words is shifted by a byte, and the set-aside byte is paired with
      the last one, or with zero. */
  method Odd(d: seq<byte>, n0: nat, sum0: int32) returns (s: int)
    requires 1 + 2 * n0 <= |d| < 1 + 2 * n0 + 8 && sum0 == Words(d, 1, n0)
    ensures s == Fold(Sum(d)) && 0 <= s <= 65535
  {
    hide Sum, Fold, Words, Reduce;
    ReduceIsFold(sum0);
    var sum, n := SumRest(d, 1, n0, Reduce(sum0));
    ReduceIsFold(sum);
    sum := Reduce(sum) * 256;
    var c1: byte := 0;
    if 1 + 2 * n + 1 == |d| {
      SumTail(d, 1, n);
      c1 := d[1 + 2 * n];
    } else {
      WordsAreSum(d, 1, n);
      assert d[1..1 + 2 * n] == d[1..];
    }
    FoldEarly(Words(d, 1, n), Word(d[0], c1));
    OddStart(d);
    sum := sum + Word(d[0], c1);
    ReduceIsFold(sum);
    s := Reduce(sum);
  }

  /** RFC 1071 section 1: with the checksum stored in its zeroed field, verification yields zero. */
  lemma SelfCheck(d: seq<byte>, p: nat, c: nat)
    requires p % 2 == 0 && p + 1 < |d| && d[p] == 0 && d[p + 1] == 0
    requires c == 65535 - OnesSum(d)
    ensures OnesSum(d[p := c % 256][p + 1 := c / 256]) == 65535
  {
    var e := d[p := c % 256][p + 1 := c / 256];
    OnesSumIsFold(d);
    OnesSumIsFold(e);
    StoreSum(d, p, c);
    var k := FoldResidue(Sum(d));
    FoldUnique(Sum(e), 65535, k);
  }

  /** ip_output stores cksum in the zeroed field; ip_input runs cksum over the result, at whatever
      alignment, and finds zero. */
  method StoreThenVerify(d: seq<byte>, p: nat, oddSender: bool, oddReceiver: bool)
    returns (stored: seq<byte>, verdict: int)
    requires |d| <= 65535 && p % 2 == 0 && p + 1 < |d| && d[p] == 0 && d[p + 1] == 0
    ensures |stored| == |d| && forall i :: 0 <= i < |d| && i != p && i != p + 1 ==> stored[i] == d[i]
    ensures verdict == 0
  {
    var c := Cksum(d, |d|, oddSender);
    assert d[..|d|] == d;
    stored := d[p := c % 256][p + 1 := c / 256];
    SelfCheck(d, p, c);
    verdict := Cksum(stored, |stored|, oddReceiver);
    assert stored[..|stored|] == stored;
  }

  lemma {:induction false} StoreSum(d: seq<byte>, p: nat, c: nat)
    requires p % 2 == 0 && p + 1 < |d| && d[p] == 0 && d[p + 1] == 0 && c <= 65535
    ensures Sum(d[p := c % 256][p + 1 := c / 256]) == Sum(d) + c
  {
    var e := d[p := c % 256][p + 1 := c / 256];
    if p == 0 {
      assert e[2..] == d[2..];
    } else {
      assert e[2..] == d[2..][p - 2 := c % 256][p - 1 := c / 256];
      StoreSum(d[2..], p - 2, c);
    }
  }

  function Swap(x: int): int {
    x % 256 * 256 + x / 256
  }

  /** RFC 1071 section 2(B), byte order independence: summing in host order and storing the result
      in host order puts the network-order sum into memory. */
  lemma {:induction false} ByteOrder(d: seq<byte>)
    ensures Swap(OnesSum(d)) == OnesSumNetwork(d)
  {
    hide Swap, OnesAdd, Word;
    if d == [] {
      SwapWord(0, 0);
    } else if |d| == 1 {
      SwapWord(d[0], 0);
    } else {
      ByteOrder(d[2..]);
      SwapWord(d[0], d[1]);
      SwapAdd(Word(d[0], d[1]), OnesSum(d[2..]));
    }
  }

  lemma SwapWord(c0: byte, c1: byte)
    ensures Swap(Word(c0, c1)) == Word(c1, c0) && Swap(0) == 0
    ensures 0 <= Word(c0, c1) <= 65535
  {
  }

  lemma SwapAdd(a: int, b: int)
    requires 0 <= a <= 65535 && 0 <= b <= 65535
    ensures Swap(OnesAdd(a, b)) == OnesAdd(Swap(a), Swap(b))
  {
    hide Fold, Swap, OnesAdd;
    SwapIsFold(a);
    SwapIsFold(b);
    OnesAddIsFold(a, b);
    SwapIsFold(OnesAdd(a, b));
    OnesAddIsFold(Swap(a), Swap(b));
    FoldEarly(a + b, 0);
    FoldEarly(256 * a, Fold(256 * b));
    FoldEarly(256 * b, 256 * a);
  }

  lemma SwapIsFold(a: nat)
    requires a <= 65535
    ensures Swap(a) == Fold(256 * a) && 0 <= Swap(a) <= 65535
  {
    FoldUnique(256 * a, Swap(a), a / 256);
  }
}
