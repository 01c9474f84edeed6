/** The meaning of all-to-all: a block transpose of the members' buffers. */
module Transpose {
  import opened Bytes
  import opened Partition

  type Buffers = seq<seq<byte>>

  ghost predicate AtLeast(rows: Buffers, total: nat) {
    forall k | 0 <= k < |rows| :: total <= |rows[k]|
  }

  /** Concatenation, in rank order, of block `i` of the buffers of the first `k` members. */
  function Column(p: Split, rows: Buffers, i: nat, k: nat): (col: seq<byte>)
    requires k <= |rows| && AtLeast(rows, Begin(p, i + 1))
    ensures |col| == Times(k, Len(p, i))
  {
    if k == 0 then [] else Column(p, rows, i, k - 1) + Block(p, rows[k - 1], i)
  }

  /** Where the block of member `j` lies in a column. */
  lemma {:induction false} ColumnSlice(p: Split, rows: Buffers, i: nat, j: nat, k: nat)
    requires j < k <= |rows| && AtLeast(rows, Begin(p, i + 1))
    ensures Times(j + 1, Len(p, i)) <= Times(k, Len(p, i))
    ensures Column(p, rows, i, k)[Times(j, Len(p, i))..Times(j + 1, Len(p, i))] == Block(p, rows[j], i)
  {
    if j < k - 1 {
      ColumnSlice(p, rows, i, j, k - 1);
      var lo, hi := Times(j, Len(p, i)), Times(j + 1, Len(p, i));
      assert Column(p, rows, i, k)[lo..hi] == Column(p, rows, i, k - 1)[lo..hi];
    }
  }

  /** What every member holds after an all-to-all of buffers of `total` bytes. */
  function AllToAll(p: Split, rows: Buffers, total: nat): (out: Buffers)
    requires AtLeast(rows, total) && Begin(p, |rows|) <= total
    ensures |out| == |rows|
  {
    seq(|rows|, i requires 0 <= i < |rows| =>
      BeginMonotone(p, i + 1, |rows|);
      Column(p, rows, i, |rows|))
  }

  lemma AllToAllAt(p: Split, rows: Buffers, total: nat, i: nat)
    requires AtLeast(rows, total) && Begin(p, |rows|) <= total && i < |rows|
    ensures Begin(p, i + 1) <= total && AllToAll(p, rows, total)[i] == Column(p, rows, i, |rows|)
  {
    BeginMonotone(p, i + 1, |rows|);
  }

  /** Block `i` of what member `j` holds afterwards is block `j` of what member `i` sent. */
  lemma TransposeEntry(p: Split, rows: Buffers, total: nat, i: nat, j: nat)
    requires p.extra == 0 && i < |rows| && j < |rows|
    requires AtLeast(rows, total) && Begin(p, |rows|) <= total
    ensures Swapped(p, rows[i], AllToAll(p, rows, total)[j], i, j)
  {
    AllToAllAt(p, rows, total, j);
    ColumnSlice(p, rows, j, i, |rows|);
    EvenBegin(p, i);
    EvenBegin(p, i + 1);
  }

  ghost predicate Swapped(p: Split, row: seq<byte>, other: seq<byte>, i: nat, j: nat) {
    Begin(p, j + 1) <= |row| && Begin(p, i + 1) <= |other| && Block(p, other, i) == Block(p, row, j)
  }

  lemma {:induction false} DoublePrefix(p: Split, row: seq<byte>, out: Buffers, i: nat, k: nat)
    requires k <= |out| && AtLeast(out, Begin(p, i + 1)) && Begin(p, |out|) <= |row|
    requires forall j | 0 <= j < |out| :: Swapped(p, row, out[j], i, j)
    ensures Begin(p, k) <= |row| && Column(p, out, i, k) == row[..Begin(p, k)]
  {
    BeginMonotone(p, k, |out|);
    if k > 0 {
      DoublePrefix(p, row, out, i, k - 1);
      assert Swapped(p, row, out[k - 1], i, k - 1);
      assert row[..Begin(p, k)] == row[..Begin(p, k - 1)] + Block(p, row, k - 1);
    }
  }

  lemma DoubleAt(p: Split, rows: Buffers, total: nat, i: nat)
    requires p.extra == 0 && i < |rows| && AtLeast(rows, total) && Begin(p, |rows|) <= total
    requires |rows[i]| == Begin(p, |rows|)
    ensures AtLeast(AllToAll(p, rows, total), Begin(p, i + 1))
    ensures Column(p, AllToAll(p, rows, total), i, |rows|) == rows[i]
  {
    var out := AllToAll(p, rows, total);
    forall j | 0 <= j < |rows|
      ensures Begin(p, i + 1) <= |out[j]| && Swapped(p, rows[i], out[j], i, j)
    {
      TransposeEntry(p, rows, total, i, j);
    }
    DoublePrefix(p, rows[i], out, i, |rows|);
  }

  /** When the members divide the elements, two all-to-alls give everybody its buffer back. */
  lemma AllToAllTwice(p: Split, rows: Buffers, total: nat)
    requires p.extra == 0 && total == Begin(p, |rows|)
    requires forall k | 0 <= k < |rows| :: |rows[k]| == total
    ensures AtLeast(AllToAll(p, rows, total), total)
    ensures AllToAll(p, AllToAll(p, rows, total), total) == rows
  {
    var out := AllToAll(p, rows, total);
    EvenBegin(p, |rows|);
    forall i | 0 <= i < |rows| ensures total <= |out[i]| { AllToAllAt(p, rows, total, i); }
    forall i | 0 <= i < |rows| ensures AllToAll(p, out, total)[i] == rows[i] {
      DoubleAt(p, rows, total, i);
      AllToAllAt(p, out, total, i);
    }
  }

  /** Without divisibility the exchange is not even size-preserving: every member gets back as
      many bytes as it sent exactly when the members divide the elements. */
  lemma SizePreservedIff(count: nat, n: nat, unit: nat)
    requires n > 0 && unit > 0
    ensures count % n == 0 <==>
      forall i | 0 <= i < n :: Times(n, Len(SplitOf(count, n, unit), i)) == count * unit
  {
    var p, q, r := SplitOf(count, n, unit), count / n, count % n;
    SplitCovers(count, n, unit);
    if r == 0 {
      EvenBegin(p, n);
    } else {
      TimesIsProduct(n, p.base);
      BeginClosed(p, n);
      assert r * unit > 0;
      assert Len(p, n - 1) == p.base;
    }
  }
}
