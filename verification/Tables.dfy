/** The count and displacement tables that the MPI and UCC collectives hand to their library. */
module Tables {
  import opened Bytes
  import opened Partition
  import opened Transpose

  /** The first `k` counts and displacements of a partition. */
  function Counts(p: Split, k: nat): (r: seq<nat>)
    ensures |r| == k
  {
    if k == 0 then [] else Counts(p, k - 1) + [Len(p, k - 1)]
  }

  function Displs(p: Split, k: nat): (r: seq<nat>)
    ensures |r| == k
  {
    if k == 0 then [] else Displs(p, k - 1) + [Begin(p, k - 1)]
  }

  lemma {:induction false} TablesAt(p: Split, k: nat, i: nat)
    requires i < k
    ensures Counts(p, k)[i] == Len(p, i) && Displs(p, k)[i] == Begin(p, i)
  {
    if i < k - 1 { TablesAt(p, k - 1, i); }
  }

  /** The first `k` entries of both tables are filled in. */
  ghost predicate Filled(p: Split, k: nat, counts: seq<nat>, displs: seq<nat>) {
    k <= |counts| && k <= |displs| && counts[..k] == Counts(p, k) && displs[..k] == Displs(p, k)
  }

  method Enter(counts: array<nat>, displs: array<nat>, i: nat, count: nat, displ: nat, ghost p: Split)
    requires i < counts.Length == displs.Length && counts != displs && Filled(p, i, counts[..], displs[..])
    requires count == Len(p, i) && displ == Begin(p, i)
    modifies counts, displs
    ensures Filled(p, i + 1, counts[..], displs[..])
  {
    assert counts[..][..i] == counts[..i] && displs[..][..i] == displs[..i];
    counts[i], displs[i] := count, displ;
    assert counts[..][..i + 1] == counts[..i] + [count] && displs[..][..i + 1] == displs[..i] + [displ];
  }

  /** The loop of scatter, gather and allgather: one block after the other. */
  method FillTables(sendcount: nat, extra: nat, unit: nat, n: nat) returns (counts: array<nat>, displs: array<nat>)
    ensures counts[..] == Counts(Split(sendcount, extra, unit), n)
      && displs[..] == Displs(Split(sendcount, extra, unit), n)
  {
    counts, displs := new nat[n], new nat[n];
    ghost var p := Split(sendcount, extra, unit);
    var displ, rcount := 0, extra;
    var i := 0;
    while i < n
      invariant i <= n && displ == Begin(p, i) && rcount == if i < extra then extra - i else 0
      invariant Filled(p, i, counts[..], displs[..])
    {
      var count := sendcount;
      if rcount > 0 {
        count := count + unit;
        rcount := rcount - 1;
      }
      Enter(counts, displs, i, count, displ, p);
      displ, i := displ + count, i + 1;
    }
  }

  /** The loop of all-to-all at a member that expects `recvcount` bytes from everybody: it
      receives by an even partition. */
  method FillAlltoall(sendcount: nat, extra: nat, unit: nat, n: nat, recvcount: nat)
    returns (sendcounts: array<nat>, sdispls: array<nat>, recvcounts: array<nat>, rdispls: array<nat>)
    ensures sendcounts[..] == Counts(Split(sendcount, extra, unit), n)
      && sdispls[..] == Displs(Split(sendcount, extra, unit), n)
    ensures recvcounts[..] == Counts(Split(recvcount, 0, unit), n)
      && rdispls[..] == Displs(Split(recvcount, 0, unit), n)
  {
    sendcounts, sdispls := new nat[n], new nat[n];
    recvcounts, rdispls := new nat[n], new nat[n];
    ghost var p, even := Split(sendcount, extra, unit), Split(recvcount, 0, unit);
    var sdispl, rdispl, rcount := 0, 0, extra;
    var i := 0;
    while i < n
      invariant i <= n && sdispl == Begin(p, i) && rdispl == Begin(even, i)
      invariant rcount == if i < extra then extra - i else 0
      invariant Filled(p, i, sendcounts[..], sdispls[..]) && Filled(even, i, recvcounts[..], rdispls[..])
    {
      var count := sendcount;
      if rcount > 0 {
        count := count + unit;
        rcount := rcount - 1;
      }
      Enter(sendcounts, sdispls, i, count, sdispl, p);
      Enter(recvcounts, rdispls, i, recvcount, rdispl, even);
      sdispl, rdispl, i := sdispl + count, rdispl + recvcount, i + 1;
    }
  }

  /** The tables of a scatter: the size must be a number of elements and the own block must fit. */
  method ScatterTables(sendsize: nat, recvsize: nat, unit: nat, n: nat, rank: nat)
    returns (r: Outcome, counts: array<nat>, displs: array<nat>)
    requires unit > 0 && rank < n
    ensures sendsize % unit != 0 ==> r == Failed(EINVAL)
    ensures sendsize % unit == 0 ==>
              var p := SplitOf(sendsize / unit, n, unit);
              && counts[..] == Counts(p, n) && displs[..] == Displs(p, n)
              && r == if Len(p, rank) > recvsize then Failed(EINVAL) else Done(Len(p, rank))
  {
    counts, displs := new nat[0], new nat[0];
    if sendsize % unit != 0 { return Failed(EINVAL), counts, displs; }
    var count := sendsize / unit;
    ghost var p := SplitOf(count, n, unit);
    counts, displs := FillTables((count / n) * unit, count % n, unit, n);
    TablesAt(p, n, rank);
    assert counts[rank] == counts[..][rank];
    r := if counts[rank] > recvsize then Failed(EINVAL) else Done(counts[rank]);
  }

  /** The tables of an all-to-all at the member of rank `rank`. The receive buffer is tested against
      one block only. */
  method AlltoallTables(sendsize: nat, recvsize: nat, unit: nat, n: nat, rank: nat)
    returns (r: Outcome, sendcounts: array<nat>, sdispls: array<nat>, recvcounts: array<nat>, rdispls: array<nat>)
    requires unit > 0 && rank < n
    ensures sendsize % unit != 0 ==> r == Failed(EINVAL)
    ensures sendsize % unit == 0 ==>
              var p := SplitOf(sendsize / unit, n, unit);
              && sendcounts[..] == Counts(p, n) && sdispls[..] == Displs(p, n)
              && recvcounts[..] == Counts(Incoming(p, rank), n) && rdispls[..] == Displs(Incoming(p, rank), n)
              && r == if Len(p, rank) > recvsize then Failed(EINVAL) else Done(Times(n, Len(p, rank)))
  {
    if sendsize % unit != 0 {
      sendcounts, sdispls, recvcounts, rdispls := new nat[0], new nat[0], new nat[0], new nat[0];
      return Failed(EINVAL), sendcounts, sdispls, recvcounts, rdispls;
    }
    var count := sendsize / unit;
    r, sendcounts, sdispls, recvcounts, rdispls := PlanAlltoall((count / n) * unit, count % n, unit, n, rank, recvsize);
  }

  /** The part of it that follows the division. */
  method PlanAlltoall(sendcount: nat, rcount: nat, unit: nat, n: nat, rank: nat, recvsize: nat)
    returns (r: Outcome, sendcounts: array<nat>, sdispls: array<nat>, recvcounts: array<nat>, rdispls: array<nat>)
    requires rank < n
    ensures var p := Split(sendcount, rcount, unit);
            && sendcounts[..] == Counts(p, n) && sdispls[..] == Displs(p, n)
            && recvcounts[..] == Counts(Incoming(p, rank), n) && rdispls[..] == Displs(Incoming(p, rank), n)
            && r == if Len(p, rank) > recvsize then Failed(EINVAL) else Done(Times(n, Len(p, rank)))
  {
    var recvcount := sendcount;
    if rcount > 0 && rank < rcount { recvcount := recvcount + unit; }
    sendcounts, sdispls, recvcounts, rdispls := FillAlltoall(sendcount, rcount, unit, n, recvcount);
    TablesAt(Split(sendcount, rcount, unit), n, rank);
    assert sendcounts[rank] == sendcounts[..][rank];
    r := if sendcounts[rank] > recvsize then Failed(EINVAL) else Done(Times(n, recvcount));
  }

  /** The blocks that the member of rank `me` receives lie within `recvsize` bytes exactly when
      all `n` of them fit, and not already when one does, which is what the test asks for. */
  lemma ReceivesFitIff(p: Split, n: nat, me: nat, recvsize: nat)
    requires n > 0
    ensures (forall from | 0 <= from < n :: InRoom(p, me, from, recvsize)) <==> Times(n, Len(p, me)) <= recvsize
  {
    var q := Incoming(p, me);
    EvenBegin(q, n);
    if Times(n, Len(p, me)) <= recvsize {
      forall from | 0 <= from < n ensures InRoom(p, me, from, recvsize) { NextBlock(q, from, n); }
    } else {
      assert !InRoom(p, me, n - 1, recvsize);
    }
  }

  /** The block from `from` ends within the receive buffer. */
  ghost predicate InRoom(p: Split, me: nat, from: nat, recvsize: nat) {
    Begin(Incoming(p, me), from) + Len(Incoming(p, me), from) <= recvsize
  }

  /** What the test asks for is enough for this buffer. */
  predicate TestSuffices(p: Split, n: nat, me: nat, recvsize: nat) {
    Len(p, me) <= recvsize ==> Times(n, Len(p, me)) <= recvsize
  }

  /** The test is enough for every buffer exactly when the member is alone or receives nothing. */
  lemma TestSufficesIff(p: Split, n: nat, me: nat)
    requires n > 0
    ensures (forall recvsize: nat :: TestSuffices(p, n, me, recvsize)) <==> n == 1 || Len(p, me) == 0
  {
    var w := Len(p, me);
    assert Times(1, w) == w;
    if n > 1 && w > 0 {
      TimesMonotone(2, n, w);
      assert Times(2, w) == w + w;
      assert !TestSuffices(p, n, me, w);
    } else if w == 0 {
      TimesIsProduct(n, 0);
    }
  }

  /** Two members and two one-byte elements: a receive buffer of one byte passes the test, and the
      second block ends beyond it. */
  lemma TestIsTooWeak()
    ensures var p := SplitOf(2, 2, 1); Len(p, 0) <= 1 && !InRoom(p, 0, 1, 1)
  {
    var p := SplitOf(2, 2, 1);
    assert p == Split(1, 0, 1);
    assert Begin(Incoming(p, 0), 1) == 1;
  }

  /** The partition by which the member of rank `me` receives: its own block from everybody. */
  function Incoming(p: Split, me: nat): Split { Split(Len(p, me), 0, p.unit) }

  /** The count that the member of rank `me` expects from the one of rank `from` is the count
      that `from` sends to `me`, for every pair; the displacements are the prefix sums of the
      counts, and the blocks cover the buffer: the partition of the relay and of
      `getTeamPartitionSize`. */
  lemma TablesMatch(count: nat, n: nat, unit: nat, me: nat, from: nat)
    requires me < n && from < n
    ensures var p := SplitOf(count, n, unit);
            && Counts(Incoming(p, me), n)[from] == Counts(p, n)[me] == PartitionSize(count, n, me) * unit
            && Displs(p, n)[me] == Begin(p, me)
            && Displs(Incoming(p, me), n)[from] == Times(from, Counts(p, n)[me])
            && Displs(p, n + 1)[me + 1] == Displs(p, n)[me] + Counts(p, n)[me]
            && Displs(p, n + 1)[n] == count * unit
  {
    var p := SplitOf(count, n, unit);
    TablesAt(p, n, me);
    TablesAt(p, n + 1, me + 1);
    TablesAt(p, n + 1, n);
    TablesAt(Incoming(p, me), n, from);
    EvenBegin(Incoming(p, me), from);
    SplitCovers(count, n, unit);
    PartitionSizeIsLen(count, n, me, unit);
  }

  /** What `MPI_Alltoallv` does with such tables (section 5.8 of MPI 3.1): the block that `from`
      sends to `me` lands at the receive displacement. */
  ghost predicate Lands(p: Split, rows: Buffers, me: nat, from: nat, out: seq<byte>)
    requires from < |rows|
  {
    var at, len := Begin(Incoming(p, me), from), Len(Incoming(p, me), from);
    && at + len <= |out| && Begin(p, me) + Len(p, me) <= |rows[from]|
    && out[at..at + len] == rows[from][Begin(p, me)..Begin(p, me) + Len(p, me)]
  }

  lemma {:induction false} LandsPrefix(p: Split, rows: Buffers, me: nat, out: seq<byte>, k: nat)
    requires k <= |rows| && AtLeast(rows, Begin(p, me + 1)) && forall j | 0 <= j < |rows| :: Lands(p, rows, me, j, out)
    ensures Begin(Incoming(p, me), k) <= |out| && out[..Begin(Incoming(p, me), k)] == Column(p, rows, me, k)
  {
    if k > 0 {
      LandsPrefix(p, rows, me, out, k - 1);
      assert Lands(p, rows, me, k - 1, out);
      var a, b := Begin(Incoming(p, me), k - 1), Begin(Incoming(p, me), k);
      assert out[..b] == out[..a] + out[a..b];
    }
  }

  /** The library's all-to-all with these tables is the relay's: the block transpose. */
  lemma AlltoallvIsTranspose(p: Split, rows: Buffers, total: nat, me: nat, out: seq<byte>)
    requires me < |rows| && AtLeast(rows, total) && Begin(p, |rows|) <= total
    requires |out| == Begin(Incoming(p, me), |rows|) && forall j | 0 <= j < |rows| :: Lands(p, rows, me, j, out)
    ensures out == AllToAll(p, rows, total)[me]
  {
    AllToAllAt(p, rows, total, me);
    LandsPrefix(p, rows, me, out, |rows|);
    assert out[..|out|] == out;
  }
}
