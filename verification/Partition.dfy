/** The uneven block partition shared by every collective. A buffer of `count` elements
    of `unit` bytes is split over `n` members: each takes `count / n` elements and the
    first `count % n` members take one more. */
module Partition {
  import opened Bytes

  /** The three quantities every `sendrecv` starts from: `base` bytes for everybody, and
      one more element of `unit` bytes for the first `extra` members. */
  datatype Split = Split(base: nat, extra: nat, unit: nat)

  function SplitOf(count: nat, n: nat, unit: nat): Split
    requires n > 0
  {
    Split((count / n) * unit, count % n, unit)
  }

  /** Bytes of member `i`. */
  function Len(p: Split, i: nat): nat {
    p.base + if i < p.extra then p.unit else 0
  }

  /** Offset of the block of member `i`. */
  function Begin(p: Split, i: nat): nat {
    if i == 0 then 0 else Begin(p, i - 1) + Len(p, i - 1)
  }

  lemma {:induction false} BeginClosed(p: Split, i: nat)
    ensures Begin(p, i) == i * p.base + (if i < p.extra then i else p.extra) * p.unit
  {
    if i > 0 {
      BeginClosed(p, i - 1);
      assert i * p.base == (i - 1) * p.base + p.base;
      assert i * p.unit == (i - 1) * p.unit + p.unit;
    }
  }

  lemma {:induction false} BeginMonotone(p: Split, i: nat, j: nat)
    requires i <= j
    ensures Begin(p, i) <= Begin(p, j)
  {
    if i < j { BeginMonotone(p, i, j - 1); }
  }

  /** Block `i` follows its predecessors and lies before the end of block `n - 1`. */
  lemma NextBlock(p: Split, i: nat, n: nat)
    requires i < n
    ensures Begin(p, i + 1) == Begin(p, i) + Len(p, i) <= Begin(p, n)
  {
    BeginMonotone(p, i + 1, n);
  }

  /** The blocks end exactly at the end of the buffer. */
  lemma SplitCovers(count: nat, n: nat, unit: nat)
    requires n > 0
    ensures Begin(SplitOf(count, n, unit), n) == count * unit
  {
    var q, r := count / n, count % n;
    BeginClosed(SplitOf(count, n, unit), n);
    assert n * (q * unit) == (n * q) * unit;
    assert (n * q + r) * unit == (n * q) * unit + r * unit;
    assert count == n * q + r;
  }

  /** `k * w`, as the offset after `k` strides of `w`. */
  function Times(k: nat, w: nat): nat {
    if k == 0 then 0 else Times(k - 1, w) + w
  }

  lemma {:induction false} TimesIsProduct(k: nat, w: nat)
    ensures Times(k, w) == k * w
  {
    if k > 0 {
      TimesIsProduct(k - 1, w);
      assert k * w == (k - 1) * w + w;
    }
  }

  lemma {:induction false} TimesMonotone(j: nat, k: nat, w: nat)
    requires j <= k
    ensures Times(j, w) <= Times(k, w)
  {
    if j < k { TimesMonotone(j, k - 1, w); }
  }

  /** Offsets in an even split are strides of the block length. */
  lemma {:induction false} EvenBegin(p: Split, i: nat)
    requires p.extra == 0
    ensures Begin(p, i) == Times(i, p.base)
  {
    if i > 0 { EvenBegin(p, i - 1); }
  }

  /** `getTeamPartitionSize` counts the elements of the caller's block. */
  function PartitionSize(count: nat, n: nat, rank: nat): nat
    requires n > 0
  {
    count / n + if count % n > 0 && rank < count % n then 1 else 0
  }

  lemma PartitionSizeIsLen(count: nat, n: nat, rank: nat, unit: nat)
    requires n > 0
    ensures PartitionSize(count, n, rank) * unit == Len(SplitOf(count, n, unit), rank)
  {
    assert (count / n + 1) * unit == (count / n) * unit + unit;
  }

  /** Every member owns at least one element exactly when there are as many elements as members. */
  lemma AllShares(count: nat, n: nat, unit: nat, i: nat)
    requires n > 0 && unit > 0 && i < n
    ensures Len(SplitOf(count, n, unit), i) == 0 <==> count < n && count <= i
  {
    if count < n {
      assert count / n == 0 && count % n == count;
    } else {
      assert count / n >= 1;
      assert (count / n) * unit >= unit;
    }
  }

  /** Block `i` of `buf`: what member `i` owns. */
  function Block(p: Split, buf: seq<byte>, i: nat): (b: seq<byte>)
    requires Begin(p, i + 1) <= |buf|
    ensures |b| == Len(p, i)
  {
    buf[Begin(p, i)..Begin(p, i + 1)]
  }

  /** The first `k` blocks of `buf`. */
  function Blocks(p: Split, buf: seq<byte>, k: nat): (bs: seq<seq<byte>>)
    requires Begin(p, k) <= |buf|
    ensures |bs| == k
  {
    if k == 0 then [] else Blocks(p, buf, k - 1) + [Block(p, buf, k - 1)]
  }

  lemma {:induction false} BlocksAt(p: Split, buf: seq<byte>, k: nat, i: nat)
    requires i < k && Begin(p, k) <= |buf|
    ensures Begin(p, i + 1) <= |buf| && Blocks(p, buf, k)[i] == Block(p, buf, i)
  {
    if i < k - 1 { BlocksAt(p, buf, k - 1, i); }
  }

  /** The blocks of a buffer, in rank order, are the buffer: no gap, no overlap. */
  lemma {:induction false} BlocksCover(p: Split, buf: seq<byte>, k: nat)
    requires Begin(p, k) <= |buf|
    ensures Flatten(Blocks(p, buf, k)) == buf[..Begin(p, k)]
  {
    if k > 0 {
      BlocksCover(p, buf, k - 1);
      FlattenAppend(Blocks(p, buf, k - 1), Block(p, buf, k - 1));
      assert buf[..Begin(p, k)] == buf[..Begin(p, k - 1)] + Block(p, buf, k - 1);
    }
  }

  /** One step of a pointer walk: the bytes at the running offset are the next block. */
  lemma WalkStep(p: Split, buf: seq<byte>, n: nat, k: nat, at: nat, chunk: nat)
    requires k < n && Begin(p, n) <= |buf| && at == Begin(p, k) && chunk == Len(p, k)
    ensures at + chunk == Begin(p, k + 1) <= |buf|
    ensures buf[at..at + chunk] == Blocks(p, buf, n)[k]
  {
    NextBlock(p, k, n);
    BlocksAt(p, buf, n, k);
  }
}
