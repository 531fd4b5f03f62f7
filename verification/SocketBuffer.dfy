/**
 * The socket ring buffer: `sbdrop`, `sbappendsb`, `sbcopy`, and the producers and consumers
 * `sopreprbuf`, `soread`, `soreadbuf` and `sowrite`.  The abstract value of a buffer is the
 * sequence of bytes it holds; sb_rptr and sb_wptr are offsets into sb_data.
 */
module SocketBuffer {
  import opened Common

  /** Position p of a ring of n slots, p less than once around. */
  function Wrap(p: int, n: int): int {
    if p >= n then p - n else p
  }

  /** The n bytes from position r on, around the end of the storage. */
  function Ring(d: seq<byte>, r: nat, n: nat): (s: seq<byte>)
    requires r <= |d| && n <= |d|
    ensures |s| == n
  {
    if r + n <= |d| then d[r..r + n] else d[r..] + d[..r + n - |d|]
  }

  /** Storage after memcpy of src to position `at`. */
  function Put(d: seq<byte>, at: nat, src: seq<byte>): (r: seq<byte>)
    requires at + |src| <= |d|
    ensures |r| == |d|
  {
    d[..at] + src + d[at + |src|..]
  }

  lemma RingDrop(d: seq<byte>, r: nat, n: nat, k: nat)
    requires r < |d| && k <= n <= |d|
    ensures Ring(d, r, n)[k..] == Ring(d, Wrap(r + k, |d|), n - k)
  {
  }

  lemma RingTake(d: seq<byte>, r: nat, n: nat, k: nat)
    requires r < |d| && k <= n <= |d|
    ensures Ring(d, r, n)[..k] == Ring(d, r, k)
  {
  }

  lemma PutAhead(d: seq<byte>, r: nat, w: nat, src: seq<byte>)
    requires r <= w && w + |src| <= |d|
    ensures Put(d, w, src)[r..w + |src|] == d[r..w] + src
  {
  }

  lemma PutBehind(d: seq<byte>, w: nat, src: seq<byte>, r: nat)
    requires w + |src| <= r <= |d|
    ensures Put(d, w, src)[r..] == d[r..] && Put(d, w, src)[..w + |src|] == d[..w] + src
  {
  }

  /** Writing behind the contents, within one turn, appends. */
  lemma RingPut(d: seq<byte>, r: nat, n: nat, src: seq<byte>)
    requires r < |d| && n + |src| <= |d| && Wrap(r + n, |d|) + |src| <= |d|
    ensures Ring(Put(d, Wrap(r + n, |d|), src), r, n + |src|) == Ring(d, r, n) + src
  {
    hide Put;
    var w := Wrap(r + n, |d|);
    if r + n < |d| {
      PutAhead(d, r, w, src);
    } else {
      PutBehind(d, w, src, r);
      assert d[r..] + (d[..w] + src) == (d[r..] + d[..w]) + src;
      if r + n == |d| {
        var e := Put(d, w, src);
        assert d[r..r + n] == d[r..] == d[r..] + d[..0] && e[r..r + n] == e[r..];
      }
    }
  }

  /** Storage after sbappendsb has written m behind n bytes: to the read position, or to the right
      edge and then from the left edge. */
  ghost function Written(d: seq<byte>, r: nat, n: nat, m: seq<byte>): seq<byte>
    requires r < |d| && n + |m| <= |d|
  {
    var w := Wrap(r + n, |d|);
    var k := Min(|d| - w, |m|);
    Put(Put(d, w, m[..k]), 0, m[k..])
  }

  lemma WrittenAppends(d: seq<byte>, r: nat, n: nat, m: seq<byte>)
    requires r < |d| && n + |m| <= |d|
    ensures Ring(Written(d, r, n, m), r, n + |m|) == Ring(d, r, n) + m
  {
    hide Ring, Put;
    var w := Wrap(r + n, |d|);
    var k := Min(|d| - w, |m|);
    var e := Put(d, w, m[..k]);
    RingPut(d, r, n, m[..k]);
    assert m == m[..k] + m[k..];
    if k < |m| {
      RingPut(e, r, n + k, m[k..]);
      assert Ring(d, r, n) + m[..k] + m[k..] == Ring(d, r, n) + m;
    } else {
      PutNothing(e);
      assert m[..k] == m && m[k..] == [];
    }
  }

  /** The two parts that sbappendsb copies are the part of m that fits. */
  lemma Parts(d: seq<byte>, r: nat, c: nat, m: seq<byte>, n: nat, nn: nat)
    requires r < |d| && c <= |d|
    requires var w := Wrap(r + c, |d|);
      if w < r then n == Min(r - w, |m|) && nn == 0 else n == Min(|d| - w, |m|) && nn == Min(r, |m| - n)
    ensures n + nn <= |m|
    ensures c < |d| || m == [] ==>
      var fit := m[..Min(|m|, |d| - c)];
      n + nn == |fit| && Put(Put(d, Wrap(r + c, |d|), m[..n]), 0, m[n..n + nn]) == Written(d, r, c, fit)
    ensures c == |d| && m != [] ==> n + nn > 0
  {
    hide Put;
    if c < |d| || m == [] {
      var fit := m[..Min(|m|, |d| - c)];
      var k := Min(|d| - Wrap(r + c, |d|), |fit|);
      assert k == n;
      assert fit[..k] == m[..n] && fit[k..] == m[n..n + nn];
    }
  }

  lemma PutNothing(d: seq<byte>)
    ensures Put(d, 0, []) == d
  {
  }

  /** The slice at `off` is what stands in the ring from there on; below the write position it does
      not go around. */
  lemma CopyRing(d: seq<byte>, r: nat, n: nat, off: nat, len: nat)
    requires r < |d| && off + len <= n <= |d| && len > 0
    ensures var from := Wrap(r + off, |d|);
      0 <= from < |d| && (from < Wrap(r + n, |d|) ==> from + len <= |d|)
      && Ring(d, r, n)[off..off + len] == Ring(d, from, len)
  {
    RingDrop(d, r, n, off);
    RingTake(d, Wrap(r + off, |d|), n - off, len);
    hide Ring;
    assert Ring(d, r, n)[off..off + len] == Ring(d, r, n)[off..][..len];
  }

  method Memcpy(a: array<byte>, at: nat, src: seq<byte>)
    requires at + |src| <= a.Length
    modifies a
    ensures a[..] == Put(old(a[..]), at, src)
  {
    forall i | 0 <= i < |src| {
      a[at + i] := src[i];
    }
  }

  class Sbuf {
    var data: array<byte>
    var cc: nat
    var rptr: nat
    var wptr: nat

    /** The write position is cc slots ahead of the read position, around the end. */
    ghost predicate Valid()
      reads this, data
    {
      && cc <= data.Length
      && (if data.Length == 0 then rptr == wptr == 0 else rptr < data.Length && wptr == Wrap(rptr + cc, data.Length))
    }

    /** The bytes held, oldest first. */
    ghost function Contents(): seq<byte>
      reads this, data
      requires Valid()
    {
      Ring(data[..], rptr, cc)
    }

    function Space(): int
      reads this, data
    {
      data.Length - cc
    }

    /** sbreserve on a buffer without storage. */
    constructor (size: nat)
      ensures Valid() && Contents() == [] && data.Length == size && fresh(data)
    {
      data := new byte[size](_ => 0);
      cc, rptr, wptr := 0, 0, 0;
    }

    /** sbdrop: drop at most what there is. */
    method SbDrop(num0: nat)
      requires Valid()
      modifies this`cc, this`rptr
      ensures Valid() && Contents() == old(Contents())[Min(num0, old(cc))..]
    {
      var num := num0;
      if num > cc {
        num := cc;
      }
      if data.Length > 0 {
        RingDrop(data[..], rptr, cc, num);
      }
      cc := cc - num;
      rptr := rptr + num;
      if rptr >= data.Length {
        rptr := rptr - data.Length;
      }
    }

    /** sbappendsb.  The caller is responsible for room: with any left, as much is appended as fits;
        a buffer that is full is overrun, and counts more bytes than it has. */
    method SbAppendSb(m: seq<byte>)
      requires Valid()
      modifies this`cc, this`wptr, data
      ensures old(Space()) > 0 || m == [] || data.Length == 0 ==>
        Valid() && Contents() == old(Contents()) + m[..Min(|m|, old(Space()))]
      ensures old(Space()) == 0 && m != [] && data.Length > 0 ==> cc > data.Length
    {
      hide Ring, Put;
      if data.Length == 0 {
        return;
      }
      ghost var d := data[..];
      WrittenAppends(d, rptr, cc, m[..Min(|m|, Space())]);
      var n, nn := CopyIn(m);
      Parts(d, rptr, cc, m, n, nn);
      hide Written;
      Moved(n + nn);
    }

    /** The two memcpy calls. */
    method CopyIn(m: seq<byte>) returns (n: nat, nn: nat)
      requires Valid() && data.Length > 0
      modifies data
      ensures if wptr < rptr then n == Min(rptr - wptr, |m|) && nn == 0
              else n == Min(data.Length - wptr, |m|) && nn == Min(rptr, |m| - n)
      ensures n + nn <= |m| && wptr + n <= data.Length && nn <= data.Length
      ensures data[..] == Put(Put(old(data[..]), wptr, m[..n]), 0, m[n..n + nn])
    {
      hide Put;
      n, nn := 0, 0;
      if wptr < rptr {
        n := Min(rptr - wptr, |m|);
        Memcpy(data, wptr, m[..n]);
        PutNothing(data[..]);
        assert m[n..n] == [];
      } else {
        n := Min(data.Length - wptr, |m|);
        Memcpy(data, wptr, m[..n]);
        var len := |m| - n;
        if len > 0 {
          nn := Min(rptr, len);
          Memcpy(data, 0, m[n..n + nn]);
        } else {
          PutNothing(data[..]);
          assert m[n..n] == [];
        }
      }
    }

    /** The closing lines of every producer. */
    method Moved(n: nat)
      requires Valid() && data.Length > 0
      modifies this`cc, this`wptr
      ensures cc == old(cc) + n && (n <= old(Space()) ==> Valid())
    {
      cc := cc + n;
      wptr := wptr + n;
      if wptr >= data.Length {
        wptr := wptr - data.Length;
      }
    }

    /** sbcopy: a slice of the contents, in every wrap position including full. */
    method SbCopy(off: nat, len: nat) returns (to: seq<byte>)
      requires Valid() && off + len <= cc
      ensures to == Contents()[off..off + len]
    {
      if len == 0 {
        return [];
      }
      var from := rptr + off;
      if from >= data.Length {
        from := from - data.Length;
      }
      CopyRing(data[..], rptr, cc, off, len);
      hide Ring;
      to := CopyFrom(from, len);
    }

    /** The copying itself, in one part or two. */
    method CopyFrom(from: nat, len: nat) returns (to: seq<byte>)
      requires Valid() && 0 < len <= cc && from < data.Length
      requires from < wptr ==> from + len <= data.Length
      ensures to == Ring(data[..], from, len)
    {
      if from < wptr {
        to := data[from..from + Min(len, cc)];
      } else {
        var n := Min(data.Length - from, len);
        to := data[from..from + n];
        if len - n > 0 {
          to := to + data[..len - n];
        }
      }
    }

    /** Slot p of the storage holds a byte of the contents. */
    ghost predicate Occupied(p: int)
      reads this, data
    {
      if rptr + cc <= data.Length then rptr <= p < rptr + cc else p >= rptr || p < rptr + cc - data.Length
    }

    /** sopreprbuf: the room to read into, as a piece of length l0 at the write position and a piece
        of length l1 at the start of the storage.  It is all free space, cut to whole segments when
        it exceeds one segment. */
    method SoPrepRBuf(mss: nat) returns (l0: nat, l1: nat)
      requires Valid() && mss > 0
      ensures l0 + l1 == Offer(Space(), mss)
      ensures wptr + l0 <= data.Length && (l1 > 0 ==> wptr + l0 == data.Length && l1 <= rptr)
      ensures forall p :: wptr <= p < wptr + l0 || 0 <= p < l1 ==> !Occupied(p)
    {
      var len := data.Length - cc;
      l0, l1 := 0, 0;
      if len <= 0 {
        return;
      }
      if wptr < rptr {
        l0 := Min(rptr - wptr, len);
        if l0 > mss {
          l0 := l0 - l0 % mss;
        }
      } else {
        l0 := Min(data.Length - wptr, len);
        len := len - l0;
        if len > 0 {
          l1 := Min(rptr, len);
          var total := l0 + l1;
          if total > mss {
            ModBelow(total, mss);
            var lss := total % mss;
            if l1 > lss {
              l1 := l1 - lss;
            } else {
              lss := lss - l1;
              l0, l1 := l0 - lss, 0;
            }
          }
        } else if l0 > mss {
          l0 := l0 - l0 % mss;
        }
      }
    }

    /** Write m into the room that sopreprbuf offers. */
    method Fill(m: seq<byte>)
      requires Valid() && |m| <= Space()
      modifies this`cc, this`wptr, data
      ensures Valid() && Contents() == old(Contents()) + m
    {
      hide Ring, Put;
      if data.Length == 0 {
        return;
      }
      WrittenAppends(data[..], rptr, cc, m);
      var n := Min(data.Length - wptr, |m|);
      Memcpy(data, wptr, m[..n]);
      Memcpy(data, 0, m[n..]);
      Moved(|m|);
    }

    /** soread, when the host socket has `incoming` for us: as much as was offered is appended. */
    method SoRead(incoming: seq<byte>, mss: nat) returns (nn: nat)
      requires Valid() && mss > 0
      modifies this`cc, this`wptr, data
      ensures Valid() && nn == Min(Offer(old(Space()), mss), |incoming|)
      ensures Contents() == old(Contents()) + incoming[..nn]
    {
      var l0, l1 := SoPrepRBuf(mss);
      OfferFits(Space(), mss);
      nn := Min(l0 + l1, |incoming|);
      Fill(incoming[..nn]);
    }

    /** soreadbuf: all of buf, or nothing when it exceeds what sopreprbuf offers. */
    method SoReadBuf(buf: seq<byte>, mss: nat) returns (ok: bool)
      requires Valid() && mss > 0
      modifies this`cc, this`wptr, data
      ensures Valid() && ok == (|buf| <= Offer(old(Space()), mss))
      ensures Contents() == old(Contents()) + if ok then buf else []
    {
      var l0, l1 := SoPrepRBuf(mss);
      OfferFits(Space(), mss);
      ok := l0 + l1 >= |buf|;
      if ok {
        Fill(buf);
      }
    }

    /** sowrite, when the host socket takes nn bytes: they are the oldest ones, in order. */
    method SoWrite(nn: nat) returns (written: seq<byte>)
      requires Valid() && nn <= cc
      modifies this`cc, this`rptr
      ensures Valid() && written == old(Contents())[..nn] && Contents() == old(Contents())[nn..]
    {
      var len := cc;
      var l0, l1 := 0, 0;
      if rptr < wptr {
        l0 := Min(wptr - rptr, len);
      } else {
        l0 := Min(data.Length - rptr, len);
        len := len - l0;
        if len > 0 {
          l1 := Min(wptr, len);
        }
      }
      var iov := data[rptr..rptr + l0] + data[..l1];
      assert iov == Contents();
      written := iov[..nn];
      SbDrop(nn);
    }
  }

  /** Free space cut to a whole number of segments whenever it exceeds one. */
  function Offer(space: int, mss: int): int
    requires space >= 0 && mss > 0
  {
    if space > mss then space - space % mss else space
  }

  lemma OfferFits(space: nat, mss: nat)
    requires mss > 0
    ensures 0 <= Offer(space, mss) <= space
    ensures space > mss ==> Offer(space, mss) == space / mss * mss && Offer(space, mss) > space - mss
  {
  }

  lemma ModBelow(t: nat, m: nat)
    requires m > 0
    ensures 0 <= t % m < m
  {
  }
}
