/** Bytes, buffers and the fixed-width integer layouts that MTCL puts on the wire. */
module Bytes {
  type byte = x: int | 0 <= x < 256

  /** Outcome of an operation that returns a byte count, or -1 with `errno` set. */
  datatype Errno = EFAULT | EINVAL | ENOMEM | ECONNRESET | EBADF | EWOULDBLOCK
  datatype Outcome = Done(bytes: nat) | Failed(errno: Errno)

  /** A message as it travels. The empty frame is the end-of-stream marker, because a message of
      length zero and `sendEOS` put the same eight bytes on the stream. */
  type Frame = seq<byte>

  const EOS: Frame := []

  function Min(a: nat, b: nat): nat { if a <= b then a else b }

  ghost predicate Distinct<T(!new)>(s: seq<T>) { forall i, j | 0 <= i < j < |s| :: s[i] != s[j] }

  function Flatten<T>(ss: seq<seq<T>>): seq<T> {
    if ss == [] then [] else ss[0] + Flatten(ss[1..])
  }

  lemma {:induction false} FlattenAppend<T>(ss: seq<seq<T>>, s: seq<T>)
    ensures Flatten(ss + [s]) == Flatten(ss) + s
  {
    if ss == [] {
      assert ss + [s] == [s];
    } else {
      assert (ss + [s])[1..] == ss[1..] + [s];
      FlattenAppend(ss[1..], s);
    }
  }

  /** Big-endian layout of `n` on `width` bytes (`htobe64` for width 8). */
  function BigEndian(n: nat, width: nat): (bs: seq<byte>)
    ensures |bs| == width
  {
    if width == 0 then [] else BigEndian(n / 256, width - 1) + [n % 256]
  }

  /** Value of a big-endian byte string (`be64toh`). */
  function FromBigEndian(bs: seq<byte>): nat {
    if bs == [] then 0 else FromBigEndian(bs[..|bs| - 1]) * 256 + bs[|bs| - 1]
  }

  /** Little-endian layout, the native order in which the proxy and the UCC code copy integers. */
  function LittleEndian(n: nat, width: nat): (bs: seq<byte>)
    ensures |bs| == width
  {
    if width == 0 then [] else [n % 256] + LittleEndian(n / 256, width - 1)
  }

  function FromLittleEndian(bs: seq<byte>): nat {
    if bs == [] then 0 else bs[0] + 256 * FromLittleEndian(bs[1..])
  }

  function Pow256(width: nat): (p: nat)
    ensures p > 0
  {
    if width == 0 then 1 else 256 * Pow256(width - 1)
  }

  lemma DivTwice(n: nat, p: nat)
    requires p > 0
    ensures n / 256 / p == n / (256 * p)
  {
    var q, r := n / 256, n % 256;
    var k, d := q / p, q % p;
    assert n == 256 * (k * p + d) + r;
    assert 256 * (k * p) == k * (256 * p);
    QuotientIs(n, 256 * p, k, 256 * d + r);
  }

  lemma QuotientIs(n: nat, p: nat, k: nat, r: nat)
    requires r < p && n == k * p + r
    ensures n / p == k
  {
    var q := n / p;
    assert n == q * p + n % p;
    assert q < k ==> (q + 1) * p <= k * p;
    assert q > k ==> (k + 1) * p <= q * p;
  }

  /** Most significant byte first: byte `i` is the digit of weight 256^(width - 1 - i). */
  lemma {:induction false} BigEndianDigits(n: nat, width: nat, i: nat)
    requires i < width
    ensures BigEndian(n, width)[i] == n / Pow256(width - 1 - i) % 256
  {
    if i < width - 1 {
      BigEndianDigits(n / 256, width - 1, i);
      DivTwice(n, Pow256(width - 2 - i));
    }
  }

  /** Least significant byte first. */
  lemma {:induction false} LittleEndianDigits(n: nat, width: nat, i: nat)
    requires i < width
    ensures LittleEndian(n, width)[i] == n / Pow256(i) % 256
  {
    if i > 0 {
      LittleEndianDigits(n / 256, width - 1, i - 1);
      DivTwice(n, Pow256(i - 1));
    }
  }

  /** Every byte string is the layout of its value. */
  lemma {:induction false} FromBigEndianRoundTrip(bs: seq<byte>)
    ensures BigEndian(FromBigEndian(bs), |bs|) == bs
  {
    if bs != [] {
      var front, last := bs[..|bs| - 1], bs[|bs| - 1];
      FromBigEndianRoundTrip(front);
      assert bs == front + [last];
    }
  }

  lemma {:induction false} BigEndianRoundTrip(n: nat, width: nat)
    requires n < Pow256(width)
    ensures FromBigEndian(BigEndian(n, width)) == n
  {
    if width > 0 {
      BigEndianRoundTrip(n / 256, width - 1);
      assert BigEndian(n, width)[..width - 1] == BigEndian(n / 256, width - 1);
    }
  }

  lemma {:induction false} LittleEndianRoundTrip(n: nat, width: nat)
    requires n < Pow256(width)
    ensures FromLittleEndian(LittleEndian(n, width)) == n
  {
    if width > 0 {
      LittleEndianRoundTrip(n / 256, width - 1);
      assert LittleEndian(n, width)[1..] == LittleEndian(n / 256, width - 1);
    }
  }

  lemma {:induction false} FromLittleEndianRoundTrip(bs: seq<byte>)
    ensures FromLittleEndian(bs) < Pow256(|bs|) && LittleEndian(FromLittleEndian(bs), |bs|) == bs
  {
    if bs != [] {
      FromLittleEndianRoundTrip(bs[1..]);
      assert bs == [bs[0]] + bs[1..];
    }
  }

  /** `memcpy(dst + off, src, |src|)`. */
  method Memcpy(dst: array<byte>, off: nat, src: seq<byte>)
    requires off + |src| <= dst.Length
    modifies dst
    ensures dst[..] == old(dst[..off]) + src + old(dst[off + |src|..])
  {
    forall k | 0 <= k < |src| { dst[off + k] := src[k]; }
  }
}
