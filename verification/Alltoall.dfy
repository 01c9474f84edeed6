/** `AlltoallGeneric::sendrecv`: the root collects everybody's buffer, then builds and sends
    one column of blocks per member. */
module Alltoall {
  import opened Bytes
  import opened Partition
  import opened Collective
  import opened Scatter
  import opened Transpose

  /** The collection buffer after receiving from the first `k` members, `s` bytes apart. */
  function Stack(s: nat, buf: seq<byte>, ps: seq<Peer>, k: nat): (r: seq<byte>)
    requires k <= |ps|
    ensures |r| == |buf|
  {
    if k == 0 then buf else Landed(Stack(s, buf, ps, k - 1), Times(k - 1, s), ps[k - 1], s)
  }

  function Popped(s: nat, ps: seq<Peer>, k: nat): (r: seq<Peer>)
    requires k <= |ps|
    ensures |r| == |ps| && forall i | k <= i < |ps| :: r[i] == ps[i]
  {
    if k == 0 then ps else Popped(s, ps, k - 1)[k - 1 := AfterReceive(ps[k - 1], s)]
  }

  predicate Ready(s: nat, ps: seq<Peer>, k: nat) {
    k < |ps| && ps[k].Delivers(s)
  }

  /** First phase: everybody's buffer, one after the other. */
  method CollectAll(c: CollectiveImpl, all: array<byte>, s: nat) returns (res: Outcome, got: nat)
    requires c.Valid() && all.Length == Times(|c.participants|, s)
    modifies c, all
    ensures got <= |old(c.participants)| == |c.participants|
    ensures forall k | 0 <= k < got :: Ready(s, old(c.participants), k)
    ensures got < |c.participants| ==>
      (res == Done(0) || res.Failed?) && res == ReceiveResult(old(c.participants)[got], s)
    ensures var ps := old(c.participants);
      c.participants == Popped(s, ps, Reached(got, |ps|)) && all[..] == Stack(s, old(all[..]), ps, Reached(got, |ps|))
  {
    ghost var n, ps, buf := |c.participants|, c.participants, all[..];
    got, res := 0, Done(0);
    while got < |c.participants|
      invariant got <= n && c.participants == Popped(s, ps, got)
      invariant forall k | 0 <= k < got :: Ready(s, ps, k)
      invariant all[..] == Stack(s, buf, ps, got)
    {
      TimesMonotone(got + 1, n, s);
      res := c.ReceiveFromHandle(got, all, Times(got, s), s);
      if res == Done(0) || res.Failed? { return; }
      got := got + 1;
    }
  }

  /** The root's own buffer and the `k` collected ones, as rows. */
  function RowsOf(own: seq<byte>, all: seq<byte>, s: nat, k: nat): (rows: Buffers)
    requires |own| == s && Times(k, s) <= |all|
    ensures |rows| == k + 1 && forall i | 0 <= i <= k :: |rows[i]| == s
  {
    if k == 0 then [own] else RowsOf(own, all, s, k - 1) + [all[Times(k - 1, s)..Times(k, s)]]
  }

  lemma {:induction false} RowsOfAt(own: seq<byte>, all: seq<byte>, s: nat, k: nat, j: nat)
    requires |own| == s && j <= k && Times(k, s) <= |all|
    ensures j == 0 ==> RowsOf(own, all, s, k)[0] == own
    ensures j > 0 ==> Times(j, s) <= |all| && RowsOf(own, all, s, k)[j] == all[Times(j - 1, s)..Times(j, s)]
  {
    if j < k { RowsOfAt(own, all, s, k - 1, j); }
  }

  /** The bytes that the inner loop has copied after the root's own block and `k` others. */
  function Picked(own: seq<byte>, all: seq<byte>, s: nat, displ: nat, chunk: nat, k: nat): (r: seq<byte>)
    requires displ + chunk <= s == |own| && Times(k, s) <= |all|
    ensures |r| == Times(k + 1, chunk)
  {
    if k == 0 then own[displ..displ + chunk] else
      Picked(own, all, s, displ, chunk, k - 1) + all[Times(k - 1, s) + displ..Times(k - 1, s) + displ + chunk]
  }

  /** The bounds of step `j` of the inner loop. */
  lemma ColumnStep(s: nat, chunk: nat, j: nat, others: nat)
    requires j < others
    ensures Times(j, s) + s == Times(j + 1, s) <= Times(others, s)
    ensures Times(j + 1, chunk) + chunk == Times(j + 2, chunk) <= Times(others + 1, chunk)
  {
    TimesMonotone(j + 1, others, s);
    TimesMonotone(j + 2, others + 1, chunk);
  }

  /** Step `j` of the inner loop: one `memcpy` from the collection buffer. */
  method CopyRow(dst: array<byte>, own: seq<byte>, all: array<byte>, s: nat, displ: nat, chunk: nat, j: nat)
    requires displ + chunk <= s == |own| && Times(j + 1, s) <= all.Length && dst != all
    requires Times(j + 2, chunk) <= dst.Length
    requires dst[..Times(j + 1, chunk)] == Picked(own, all[..], s, displ, chunk, j)
    modifies dst
    ensures dst[..Times(j + 2, chunk)] == Picked(own, all[..], s, displ, chunk, j + 1)
  {
    var at, from := Times(j + 1, chunk), Times(j, s) + displ;
    ghost var before := dst[..];
    Memcpy(dst, at, all[from..from + chunk]);
    assert dst[..at + chunk] == before[..at] + all[from..from + chunk];
  }

  /** The copy of the root's own block that precedes the inner loop. */
  method CopyOwn(dst: array<byte>, own: seq<byte>, all: array<byte>, s: nat, displ: nat, chunk: nat, others: nat)
    requires displ + chunk <= s == |own| && dst != all && Times(others + 1, chunk) <= dst.Length
    modifies dst
    ensures Times(1, chunk) <= dst.Length
    ensures dst[..Times(1, chunk)] == Picked(own, all[..], s, displ, chunk, 0)
  {
    TimesMonotone(1, others + 1, chunk);
    Memcpy(dst, 0, own[displ..displ + chunk]);
    assert dst[..chunk] == own[displ..displ + chunk];
  }

  /** The inner loop: one column, built in `dst`. */
  method FillColumn(dst: array<byte>, own: seq<byte>, all: array<byte>, s: nat, displ: nat, chunk: nat, others: nat)
    requires displ + chunk <= s == |own| && Times(others, s) <= all.Length && dst != all
    requires Times(others + 1, chunk) <= dst.Length
    modifies dst
    ensures dst[..Times(others + 1, chunk)] == Picked(own, all[..], s, displ, chunk, others)
  {
    CopyOwn(dst, own, all, s, displ, chunk, others);
    var j := 0;
    while j < others
      invariant j <= others && Times(j + 1, chunk) <= dst.Length && Times(j, s) <= all.Length
      invariant dst[..Times(j + 1, chunk)] == Picked(own, all[..], s, displ, chunk, j)
    {
      ColumnStep(s, chunk, j, others);
      CopyRow(dst, own, all, s, displ, chunk, j);
      j := j + 1;
    }
  }

  lemma SliceOfSlice(all: seq<byte>, a: nat, b: nat, lo: nat, hi: nat)
    requires a <= b <= |all| && lo <= hi <= b - a
    ensures all[a..b][lo..hi] == all[a + lo..a + hi]
  {
    var x, y := all[a..b][lo..hi], all[a + lo..a + hi];
    assert |x| == |y| && forall k | 0 <= k < |x| :: x[k] == y[k];
  }

  lemma RowBlock(p: Split, all: seq<byte>, s: nat, i: nat, k: nat)
    requires k > 0 && Begin(p, i + 1) <= s && Times(k, s) <= |all|
    ensures Times(k, s) == Times(k - 1, s) + s && Begin(p, i + 1) == Begin(p, i) + Len(p, i)
    ensures Block(p, all[Times(k - 1, s)..Times(k, s)], i)
      == all[Times(k - 1, s) + Begin(p, i)..Times(k - 1, s) + Begin(p, i) + Len(p, i)]
  {
    SliceOfSlice(all, Times(k - 1, s), Times(k, s), Begin(p, i), Begin(p, i + 1));
  }

  /** What the inner loop copies for member `k` is block `i` of its row. */
  lemma PickedBlock(p: Split, own: seq<byte>, all: seq<byte>, s: nat, i: nat, n: nat, k: nat)
    requires k <= n && Begin(p, i + 1) <= s == |own| && Times(n, s) <= |all|
    ensures AtLeast(RowsOf(own, all, s, n), Begin(p, i + 1)) && Times(k, s) <= |all|
    ensures Begin(p, i + 1) == Begin(p, i) + Len(p, i)
    ensures Picked(own, all, s, Begin(p, i), Len(p, i), k)
      == if k == 0 then Block(p, RowsOf(own, all, s, n)[0], i)
         else Picked(own, all, s, Begin(p, i), Len(p, i), k - 1) + Block(p, RowsOf(own, all, s, n)[k], i)
  {
    RowsOfAt(own, all, s, n, k);
    if k > 0 { RowBlock(p, all, s, i, k); }
  }

  /** What the inner loop builds is the column of the transpose. */
  lemma {:induction false} PickedIsColumn(p: Split, own: seq<byte>, all: seq<byte>, s: nat, i: nat, n: nat, k: nat)
    requires k <= n && Begin(p, i + 1) <= s == |own| && Times(n, s) <= |all|
    ensures AtLeast(RowsOf(own, all, s, n), Begin(p, i + 1)) && Times(k, s) <= |all|
    ensures Begin(p, i + 1) == Begin(p, i) + Len(p, i)
    ensures Picked(own, all, s, Begin(p, i), Len(p, i), k) == Column(p, RowsOf(own, all, s, n), i, k + 1)
  {
    var rows := RowsOf(own, all, s, n);
    PickedBlock(p, own, all, s, i, n, k);
    if k > 0 {
      PickedIsColumn(p, own, all, s, i, n, k - 1);
      assert Column(p, rows, i, k + 1) == Column(p, rows, i, k) + Block(p, rows[k], i);
    } else {
      assert Column(p, rows, i, 1) == [] + Block(p, rows[0], i);
    }
  }

  /** The column that member `i` is due. */
  function Due(p: Split, own: seq<byte>, all: seq<byte>, others: nat, i: nat): (frame: Frame)
    requires i <= others && Begin(p, others + 1) == |own| && Times(others, |own|) <= |all|
    ensures |frame| == Times(others + 1, Len(p, i))
  {
    NextBlock(p, i, others + 1);
    PickedIsColumn(p, own, all, |own|, i, others, others);
    Column(p, RowsOf(own, all, |own|, others), i, others + 1)
  }

  /** Builds column `i` at the start of `dst`. */
  method BuildInto(dst: array<byte>, p: Split, own: seq<byte>, all: array<byte>, displ: nat, chunk: nat, others: nat,
      i: nat)
    requires i <= others && Begin(p, others + 1) == |own| && Times(others, |own|) <= all.Length && dst != all
    requires displ == Begin(p, i) && chunk == Len(p, i) && Times(others + 1, chunk) <= dst.Length
    modifies dst
    ensures dst[..Times(others + 1, chunk)] == Due(p, own, all[..], others, i)
  {
    NextBlock(p, i, others + 1);
    PickedIsColumn(p, own, all[..], |own|, i, others, others);
    FillColumn(dst, own, all, |own|, displ, chunk, others);
  }

  /** Builds column `k + 1` in a fresh buffer and sends it to participant `k`. */
  method SendColumn(c: CollectiveImpl, p: Split, own: seq<byte>, all: array<byte>, displ: nat, chunk: nat, k: nat)
    returns (ok: bool)
    requires k < |c.participants| && Begin(p, |c.participants| + 1) == |own|
    requires Times(|c.participants|, |own|) <= all.Length && displ == Begin(p, k + 1) && chunk == Len(p, k + 1)
    modifies c
    ensures ok == !old(c.participants)[k].closedWr
    ensures c.participants == if !ok then old(c.participants) else
      old(c.participants)[k := Written(old(c.participants)[k], Due(p, own, all[..], |old(c.participants)|, k + 1))]
  {
    var chunkbuff := new byte[Times(|c.participants| + 1, chunk)];
    BuildInto(chunkbuff, p, own, all, displ, chunk, |c.participants|, k + 1);
    assert chunkbuff[..] == chunkbuff[..Times(|c.participants| + 1, chunk)];
    ok := c.Send(k, chunkbuff[..]);
  }

  /** Participant `k` was sent its column. */
  ghost predicate ColumnSent(p: Split, own: seq<byte>, all: seq<byte>, was: seq<Peer>, now: seq<Peer>, k: nat) {
    && k < |was| == |now| && Begin(p, |was| + 1) == |own| && Times(|was|, |own|) <= |all|
    && !was[k].closedWr && now[k] == Written(was[k], Due(p, own, all, |was|, k + 1))
  }

  /** Second phase, the root's own column being done: column `k + 1` goes to participant `k`. */
  method SendColumns(c: CollectiveImpl, own: seq<byte>, all: array<byte>, sendcount: nat, remainder: nat, size: nat)
    returns (upto: nat)
    requires Begin(Split(sendcount, remainder, size), |c.participants| + 1) == |own|
    requires all.Length == Times(|c.participants|, |own|)
    modifies c
    ensures upto <= |c.participants| == |old(c.participants)|
    ensures upto < |c.participants| ==> old(c.participants)[upto].closedWr
    ensures forall k | 0 <= k < upto ::
      ColumnSent(Split(sendcount, remainder, size), own, all[..], old(c.participants), c.participants, k)
    ensures forall k | upto <= k < |c.participants| :: c.participants[k] == old(c.participants)[k]
  {
    ghost var n, ps := |c.participants|, c.participants;
    var p := Split(sendcount, remainder, size);
    var rcount, displ := remainder, sendcount;
    if rcount > 0 {
      displ := displ + size;
      rcount := rcount - 1;
    }
    upto := 0;
    while upto < |c.participants|
      invariant |c.participants| == n && upto <= n
      invariant displ == Begin(p, upto + 1)
      invariant rcount == if upto + 1 < remainder then remainder - (upto + 1) else 0
      invariant forall k | 0 <= k < upto :: ColumnSent(p, own, all[..], ps, c.participants, k)
      invariant forall k | upto <= k < n :: c.participants[k] == ps[k]
    {
      var chunk := sendcount;
      if rcount > 0 {
        chunk := chunk + size;
        rcount := rcount - 1;
      }
      assert chunk == Len(p, upto + 1);
      ghost var before := c.participants;
      var ok := SendColumn(c, p, own, all, displ, chunk, upto);
      if !ok { return; }
      forall k | 0 <= k < upto ensures ColumnSent(p, own, all[..], ps, c.participants, k) {
        assert ColumnSent(p, own, all[..], ps, before, k);
      }
      displ := displ + chunk;
      upto := upto + 1;
    }
  }

  /** Every member's frame is a whole buffer of `s` bytes. */
  ghost predicate Full(s: nat, ps: seq<Peer>) {
    forall k | 0 <= k < |ps| :: Ready(s, ps, k) && |ps[k].inbox[0]| == s
  }

  function HeadFrame(p: Peer): Frame {
    if p.inbox == [] then EOS else p.inbox[0]
  }

  function ExchangedUpto(own: seq<byte>, ps: seq<Peer>, k: nat): (rows: Buffers)
    requires k <= |ps|
    ensures |rows| == k + 1
  {
    if k == 0 then [own] else ExchangedUpto(own, ps, k - 1) + [HeadFrame(ps[k - 1])]
  }

  /** The buffers that the team exchanges: the root's own, then what each member sends. */
  function Exchanged(own: seq<byte>, ps: seq<Peer>): (rows: Buffers)
    ensures |rows| == |ps| + 1
  {
    ExchangedUpto(own, ps, |ps|)
  }

  lemma {:induction false} ExchangedAt(own: seq<byte>, ps: seq<Peer>, n: nat, k: nat)
    requires k <= n <= |ps|
    ensures ExchangedUpto(own, ps, n)[k] == if k == 0 then own else HeadFrame(ps[k - 1])
  {
    if k < n { ExchangedAt(own, ps, n - 1, k); }
  }

  lemma {:induction false} StackSlice(s: nat, buf: seq<byte>, ps: seq<Peer>, k: nat, j: nat)
    requires (forall i | 0 <= i < k :: Ready(s, ps, i)) && j < k <= |ps| && Times(k, s) <= |buf|
    ensures Times(j, s) + s == Times(j + 1, s) <= |buf|
    ensures HeadFrame(ps[j]) <= Stack(s, buf, ps, k)[Times(j, s)..Times(j + 1, s)]
  {
    TimesMonotone(j + 1, k, s);
    assert Ready(s, ps, j) && Ready(s, ps, k - 1);
    var before, at, f := Stack(s, buf, ps, k - 1), Times(k - 1, s), ps[k - 1].inbox[0];
    if j < k - 1 {
      StackSlice(s, buf, ps, k - 1, j);
      TimesMonotone(j + 1, k - 1, s);
      OverlayAway(before, at, f, Times(j, s), Times(j + 1, s));
    } else {
      OverlayStarts(before, at, f, s);
    }
  }

  lemma OverlayStarts(buf: seq<byte>, at: nat, f: Frame, s: nat)
    requires |f| <= s && at + s <= |buf|
    ensures f <= Overlay(buf, at, f)[at..at + s]
  {
  }

  /** The buffers that the root works on: its own, and for each member its frame, followed, when it
      is short, by what the collection buffer happened to hold. */
  ghost predicate Rows(own: seq<byte>, ps: seq<Peer>, rows: Buffers) {
    |rows| == |ps| + 1 && forall k | 0 <= k < |rows| :: RowOk(own, ps, rows[k], k)
  }

  ghost predicate RowOk(own: seq<byte>, ps: seq<Peer>, row: seq<byte>, k: nat) {
    k <= |ps| && |row| == |own| && if k == 0 then row == own else HeadFrame(ps[k - 1]) <= row
  }

  /** Slot `j` of the collection buffer starts with what member `j` sent. */
  ghost predicate SlotHolds(all: seq<byte>, s: nat, ps: seq<Peer>, j: nat) {
    j < |ps| && Times(j, s) <= Times(j + 1, s) <= |all| && HeadFrame(ps[j]) <= all[Times(j, s)..Times(j + 1, s)]
  }

  /** What the collection buffer holds after the first phase. */
  lemma StackSlots(s: nat, buf: seq<byte>, ps: seq<Peer>)
    requires (forall i | 0 <= i < |ps| :: Ready(s, ps, i)) && |buf| == Times(|ps|, s)
    ensures forall j | 0 <= j < |ps| :: SlotHolds(Stack(s, buf, ps, |ps|), s, ps, j)
  {
    forall j | 0 <= j < |ps| ensures SlotHolds(Stack(s, buf, ps, |ps|), s, ps, j) { StackSlice(s, buf, ps, |ps|, j); }
  }

  lemma SlotsAreRows(own: seq<byte>, all: seq<byte>, ps: seq<Peer>, s: nat, rows: Buffers)
    requires s == |own| && |all| == Times(|ps|, s) && (forall j | 0 <= j < |ps| :: SlotHolds(all, s, ps, j))
    requires rows == RowsOf(own, all, s, |ps|)
    ensures Rows(own, ps, rows)
  {
    forall k | 0 <= k < |rows| ensures RowOk(own, ps, rows[k], k) {
      assert k > 0 ==> SlotHolds(all, s, ps, k - 1);
      SlotIsRow(own, all, ps, k, rows);
    }
  }

  lemma SlotIsRow(own: seq<byte>, all: seq<byte>, ps: seq<Peer>, k: nat, rows: Buffers)
    requires |all| == Times(|ps|, |own|) && k <= |ps| && rows == RowsOf(own, all, |own|, |ps|)
    requires k > 0 ==> SlotHolds(all, |own|, ps, k - 1)
    ensures RowOk(own, ps, rows[k], k)
  {
    RowsOfAt(own, all, |own|, |ps|, k);
  }

  /** When everybody sends a whole buffer, these are the buffers that the team exchanges. */
  lemma FullRows(own: seq<byte>, ps: seq<Peer>, rows: Buffers)
    requires Full(|own|, ps) && Rows(own, ps, rows)
    ensures rows == Exchanged(own, ps)
  {
    forall k | 0 <= k < |rows| ensures rows[k] == Exchanged(own, ps)[k] {
      ExchangedAt(own, ps, |ps|, k);
      assert RowOk(own, ps, rows[k], k) && (k > 0 ==> Ready(|own|, ps, k - 1));
    }
  }

  lemma RowsLong(p: Split, own: seq<byte>, ps: seq<Peer>, rows: Buffers, i: nat)
    requires Rows(own, ps, rows) && i <= |ps| && Begin(p, |ps| + 1) == |own|
    ensures AtLeast(rows, Begin(p, i + 1))
  {
    NextBlock(p, i, |ps| + 1);
    forall k | 0 <= k < |rows| ensures Begin(p, i + 1) <= |rows[k]| { assert RowOk(own, ps, rows[k], k); }
  }

  /** Participant `k` gave its buffer and was sent column `k + 1`. */
  ghost predicate Served(p: Split, rows: Buffers, s: nat, ps: seq<Peer>, now: seq<Peer>, k: nat) {
    && k < |ps| == |now| && |rows| == |ps| + 1 && AtLeast(rows, Begin(p, k + 2))
    && now[k] == Written(AfterReceive(ps[k], s), Column(p, rows, k + 1, |ps| + 1))
  }

  /** So did every participant before the first whose connection is shut down; the others gave
      their buffer and were sent nothing. */
  ghost predicate ServedAll(p: Split, rows: Buffers, s: nat, ps: seq<Peer>, now: seq<Peer>) {
    && |now| == |ps|
    && (forall k | 0 <= k < FirstClosed(ps) :: Served(p, rows, s, ps, now, k))
    && (forall k | FirstClosed(ps) <= k < |ps| :: now[k] == AfterReceive(ps[k], s))
  }

  /** Both phases at the root, on the buffers `rows`. */
  method Exchange(c: CollectiveImpl, own: seq<byte>, recvbuff: array<byte>, sendcount: nat, rcount: nat, size: nat)
    returns (res: Outcome, got: nat, ghost rows: Buffers)
    requires c.Valid() && Begin(Split(sendcount, rcount, size), |c.participants| + 1) == |own|
    requires Times(|c.participants| + 1, Len(Split(sendcount, rcount, size), 0)) <= recvbuff.Length
    modifies recvbuff, c
    ensures got <= |old(c.participants)| == |c.participants|
    ensures forall k | 0 <= k < got :: Ready(|own|, old(c.participants), k)
    ensures got < |old(c.participants)| ==>
      && (res == Done(0) || res.Failed?) && res == ReceiveResult(old(c.participants)[got], |own|)
      && c.participants == Popped(|own|, old(c.participants), got + 1) && recvbuff[..] == old(recvbuff[..])
    ensures got == |old(c.participants)| ==>
      var p, ps := Split(sendcount, rcount, size), old(c.participants);
      && Rows(own, ps, rows) && AtLeast(rows, Begin(p, 1))
      && recvbuff[..Times(got + 1, Len(p, 0))] == Column(p, rows, 0, got + 1)
      && ServedAll(p, rows, |own|, ps, c.participants)
      && res == if FirstClosed(ps) == got then Done(Times(got + 1, Len(p, 0))) else Failed(ECONNRESET)
  {
    var p, chunk := Split(sendcount, rcount, size), if rcount > 0 then sendcount + size else sendcount;
    var allsendbuff := new byte[Times(|c.participants|, |own|)];
    ghost var ps, buf := c.participants, allsendbuff[..];
    rows := [];
    res, got := CollectAll(c, allsendbuff, |own|);
    if got < |c.participants| { return; }
    BuildInto(recvbuff, p, own, allsendbuff, 0, chunk, |c.participants|, 0);
    ghost var all, popped := allsendbuff[..], c.participants;
    assert all == Stack(|own|, buf, ps, |ps|) && popped == Popped(|own|, ps, |ps|);
    rows := RowsOf(own, all, |own|, |ps|);
    StackSlots(|own|, buf, ps);
    SlotsAreRows(own, all, ps, |own|, rows);
    RowsLong(p, own, ps, rows, 0);
    var upto := SendColumns(c, own, allsendbuff, sendcount, rcount, size);
    assert allsendbuff[..] == all;
    AllServed(p, own, ps, all, popped, c.participants, upto);
    if upto < |c.participants| { return Failed(ECONNRESET), got, rows; }
    res := Done(Times(|c.participants| + 1, chunk));
  }

  lemma {:induction false} PoppedAt(s: nat, ps: seq<Peer>, i: nat)
    requires i < |ps|
    ensures Popped(s, ps, |ps|)[i] == AfterReceive(ps[i], s)
  {
    PoppedPrefix(s, ps, |ps|, i);
  }

  lemma {:induction false} PoppedPrefix(s: nat, ps: seq<Peer>, k: nat, i: nat)
    requires i < k <= |ps|
    ensures Popped(s, ps, k)[i] == AfterReceive(ps[i], s)
  {
    if i < k - 1 { PoppedPrefix(s, ps, k - 1, i); }
  }

  lemma SentIsServed(p: Split, own: seq<byte>, ps: seq<Peer>, all: seq<byte>, now: seq<Peer>, k: nat)
    requires |all| == Times(|ps|, |own|) && Begin(p, |ps| + 1) == |own| && k < |ps|
    requires Rows(own, ps, RowsOf(own, all, |own|, |ps|))
    requires ColumnSent(p, own, all, Popped(|own|, ps, |ps|), now, k)
    ensures Served(p, RowsOf(own, all, |own|, |ps|), |own|, ps, now, k)
  {
    RowsLong(p, own, ps, RowsOf(own, all, |own|, |ps|), k + 1);
    PoppedAt(|own|, ps, k);
  }

  lemma AllServed(p: Split, own: seq<byte>, ps: seq<Peer>, all: seq<byte>, popped: seq<Peer>, now: seq<Peer>, upto: nat)
    requires |all| == Times(|ps|, |own|) && Begin(p, |ps| + 1) == |own|
    requires Rows(own, ps, RowsOf(own, all, |own|, |ps|)) && (forall i | 0 <= i < |ps| :: Ready(|own|, ps, i))
    requires popped == Popped(|own|, ps, |ps|) && upto <= |ps| == |now| && (upto < |ps| ==> popped[upto].closedWr)
    requires forall k | 0 <= k < upto :: ColumnSent(p, own, all, popped, now, k)
    requires forall k | upto <= k < |ps| :: now[k] == popped[k]
    ensures upto == FirstClosed(ps) && ServedAll(p, RowsOf(own, all, |own|, |ps|), |own|, ps, now)
  {
    var rows := RowsOf(own, all, |own|, |ps|);
    forall k | 0 <= k < |ps| ensures popped[k].closedWr == ps[k].closedWr && popped[k] == AfterReceive(ps[k], |own|) {
      assert Ready(|own|, ps, k);
      PoppedAt(|own|, ps, k);
    }
    forall k | 0 <= k < upto ensures Served(p, rows, |own|, ps, now, k) && !ps[k].closedWr {
      assert ColumnSent(p, own, all, popped, now, k);
      SentIsServed(p, own, ps, all, now, k);
    }
  }

  /** The receive buffer is tested against the block of the root's own rank, and block 0 is what
      is put into it. */
  predicate TestSuffices(p: Split, n: nat, rank: nat, room: nat) {
    Times(n, Len(p, rank)) <= room ==> Times(n, Len(p, 0)) <= room
  }

  /** The test is enough for every buffer exactly when there is no remainder or the root takes one
      of the larger blocks; a root of rank 0 always does. */
  lemma TestSufficesIff(p: Split, n: nat, rank: nat)
    requires n > 0 && p.unit > 0
    ensures (forall room: nat :: TestSuffices(p, n, rank, room)) <==> p.extra == 0 || rank < p.extra
  {
    if p.extra > 0 && rank >= p.extra {
      TimesLess(n, Len(p, rank), Len(p, 0));
      assert !TestSuffices(p, n, rank, Times(n, Len(p, rank)));
    }
  }

  lemma {:induction false} TimesLess(n: nat, a: nat, b: nat)
    requires n > 0 && a < b
    ensures Times(n, a) < Times(n, b)
  {
    if n > 1 { TimesLess(n - 1, a, b); }
  }

  /** `AlltoallGeneric::sendrecv` at the root, of any rank for which the test keeps it within its
      receive buffer. */
  method Root(c: CollectiveImpl, sendbuff: array?<byte>, recvbuff: array?<byte>, size: nat)
    returns (res: Outcome, got: nat, ghost rows: Buffers)
    requires size > 0 && c.nparticipants == |c.participants| + 1 && c.Valid()
    requires recvbuff != null ==> recvbuff != sendbuff
    requires sendbuff != null && recvbuff != null && sendbuff.Length % size == 0 ==>
      TestSuffices(Layout(sendbuff.Length, c.nparticipants, size), c.nparticipants, c.rank, recvbuff.Length)
    modifies recvbuff, c
    ensures sendbuff == null || recvbuff == null ==> res == Failed(EFAULT) && c.participants == old(c.participants)
    ensures sendbuff != null && recvbuff != null && sendbuff.Length % size != 0 ==>
      res == Failed(EINVAL) && c.participants == old(c.participants)
    ensures sendbuff != null && recvbuff != null && sendbuff.Length % size == 0 ==>
      var p, ps, s := Layout(sendbuff.Length, c.nparticipants, size), old(c.participants), sendbuff.Length;
      if recvbuff.Length < Times(c.nparticipants, Len(p, c.rank)) then res == Failed(EINVAL) && c.participants == ps
      else
        && got <= |ps| == |c.participants| && (forall k | 0 <= k < got :: Ready(s, ps, k))
        && (got < |ps| ==>
          && (res == Done(0) || res.Failed?) && res == ReceiveResult(ps[got], s)
          && c.participants == Popped(s, ps, got + 1) && recvbuff[..] == old(recvbuff[..]))
        && (got == |ps| ==>
          && Rows(sendbuff[..], ps, rows) && AtLeast(rows, Begin(p, 1))
          && recvbuff[..Times(got + 1, Len(p, 0))] == Column(p, rows, 0, got + 1)
          && ServedAll(p, rows, s, ps, c.participants)
          && res == if FirstClosed(ps) == got then Done(Times(c.nparticipants, Len(p, c.rank))) else Failed(ECONNRESET))
  {
    if sendbuff == null || recvbuff == null { return Failed(EFAULT), 0, []; }
    if sendbuff.Length % size != 0 { return Failed(EINVAL), 0, []; }
    var count := sendbuff.Length / size;
    var sendcount, rcount := (count / c.nparticipants) * size, count % c.nparticipants;
    ghost var p := Layout(sendbuff.Length, c.nparticipants, size);
    var self := Times(c.nparticipants, sendcount + if rcount > 0 && c.rank < rcount then size else 0);
    assert p == Split(sendcount, rcount, size) && self == Times(c.nparticipants, Len(p, c.rank));
    if recvbuff.Length < self { return Failed(EINVAL), 0, []; }
    res, got, rows := Exchange(c, sendbuff[..], recvbuff, sendcount, rcount, size);
    if got == |c.participants| && res.Done? { res := Done(self); }
  }

  /** A member's exchange with the root: one frame out, one frame in, and the write side closed
      when the stream is over. */
  method SendThenReceive(c: CollectiveImpl, f: Frame, recvbuff: array<byte>) returns (ok: bool)
    requires |c.participants| == 1 && c.participants[0].Valid()
    modifies c, recvbuff
    ensures |c.participants| == 1 && ok == !old(c.participants)[0].closedWr
    ensures !ok ==> c.participants == old(c.participants)
    ensures ok ==>
      var q := Written(old(c.participants)[0], f);
      && c.participants[0] == (if q.AtEnd() then Closed(Ended(q), true, false) else AfterReceive(q, recvbuff.Length))
      && recvbuff[..] == Landed(old(recvbuff[..]), 0, q, recvbuff.Length)
  {
    ok := c.Send(0, f);
    if !ok { return; }
    var r := c.ReceiveFromHandle(0, recvbuff, 0, recvbuff.Length);
    if r == Done(0) { c.Close(0, true, false); }
  }

  /** The member side: its whole buffer out, its column in. */
  method Member(c: CollectiveImpl, sendbuff: array?<byte>, recvbuff: array?<byte>, size: nat) returns (res: Outcome)
    requires size > 0 && c.nparticipants > 0 && |c.participants| == 1 && c.participants[0].Valid()
    requires recvbuff != null ==> recvbuff != sendbuff
    modifies recvbuff, c
    ensures |c.participants| == 1
    ensures sendbuff == null || recvbuff == null ==> res == Failed(EFAULT) && c.participants == old(c.participants)
    ensures sendbuff != null && recvbuff != null && sendbuff.Length % size != 0 ==>
      res == Failed(EINVAL) && c.participants == old(c.participants)
    ensures sendbuff != null && recvbuff != null && sendbuff.Length % size == 0 ==>
      var p, self := old(c.participants)[0],
        Times(c.nparticipants, Len(Layout(sendbuff.Length, c.nparticipants, size), c.rank));
      if recvbuff.Length < self then res == Failed(EINVAL) && c.participants == old(c.participants)
      else if p.closedWr then res == Failed(ECONNRESET) && c.participants == old(c.participants)
      else
        var q := Written(p, sendbuff[..]);
        && res == Done(self)
        && c.participants[0] == (if q.AtEnd() then Closed(Ended(q), true, false) else AfterReceive(q, recvbuff.Length))
        && recvbuff[..] == Landed(old(recvbuff[..]), 0, q, recvbuff.Length)
  {
    if sendbuff == null || recvbuff == null { return Failed(EFAULT); }
    if sendbuff.Length % size != 0 { return Failed(EINVAL); }
    var count := sendbuff.Length / size;
    var sendcount, rcount := (count / c.nparticipants) * size, count % c.nparticipants;
    var self := Times(c.nparticipants, sendcount + if rcount > 0 && c.rank < rcount then size else 0);
    assert self == Times(c.nparticipants, Len(Layout(sendbuff.Length, c.nparticipants, size), c.rank));
    if recvbuff.Length < self { return Failed(EINVAL); }
    var ok := SendThenReceive(c, sendbuff[..], recvbuff);
    res := if ok then Done(self) else Failed(ECONNRESET);
  }
}
