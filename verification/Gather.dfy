/** `GatherGeneric` and `AllGatherGeneric`: members send their block, the root lays the
    blocks out in participant order, and for allgather sends the whole buffer back. */
module Gather {
  import opened Bytes
  import opened Partition
  import opened Collective
  import opened Scatter

  /** The root's buffer after receiving from the first `k` members, member `i` in slot `i + 1`. */
  function Lay(p: Split, buf: seq<byte>, ps: seq<Peer>, k: nat): (r: seq<byte>)
    requires k <= |ps|
    ensures |r| == |buf|
  {
    if k == 0 then buf else Landed(Lay(p, buf, ps, k - 1), Begin(p, k), ps[k - 1], Len(p, k))
  }

  /** The connections after receiving from the first `k` members. */
  function Drained(p: Split, ps: seq<Peer>, k: nat): (r: seq<Peer>)
    requires k <= |ps|
    ensures |r| == |ps| && forall i | k <= i < |ps| :: r[i] == ps[i]
  {
    if k == 0 then ps else Drained(p, ps, k - 1)[k - 1 := AfterReceive(ps[k - 1], Len(p, k))]
  }

  lemma {:induction false} DrainedAt(p: Split, ps: seq<Peer>, k: nat, i: nat)
    requires i < k <= |ps|
    ensures Drained(p, ps, k)[i] == AfterReceive(ps[i], Len(p, i + 1))
  {
    if i < k - 1 { DrainedAt(p, ps, k - 1, i); }
  }

  /** A frame of member `k` is there and fits its slot. */
  predicate Fits(p: Split, ps: seq<Peer>, k: nat) {
    k < |ps| && ps[k].Delivers(Len(p, k + 1))
  }

  /** One turn of the receive loop. */
  method CollectBlock(c: CollectiveImpl, recvbuff: array<byte>, displ: nat, chunk: nat, got: nat,
                      ghost p: Split, ghost ps: seq<Peer>, ghost buf: seq<byte>) returns (r: Outcome, displ': nat)
    requires got < |ps| && ps[got].Valid() && Begin(p, |ps| + 1) <= recvbuff.Length
    requires displ == Begin(p, got + 1) && chunk == Len(p, got + 1)
    requires c.participants == Drained(p, ps, got) && recvbuff[..] == Lay(p, buf, ps, got)
    modifies c, recvbuff
    ensures r == ReceiveResult(ps[got], chunk) && (Fits(p, ps, got) <==> r != Done(0) && !r.Failed?)
    ensures c.participants == Drained(p, ps, got + 1) && recvbuff[..] == Lay(p, buf, ps, got + 1)
    ensures displ' == Begin(p, got + 2)
  {
    NextBlock(p, got + 1, |ps| + 1);
    displ' := displ + chunk;
    assert c.participants[got] == ps[got];
    r := c.ReceiveFromHandle(got, recvbuff, displ, chunk);
  }

  /** The receive loop of the root. `got` counts the members received: all of them, or those
      before the first whose frame is missing or does not fit its slot. */
  method CollectBlocks(c: CollectiveImpl, recvbuff: array<byte>, recvcount: nat, rcount: nat, size: nat)
    returns (res: Outcome, got: nat)
    requires c.Valid() && Begin(Split(recvcount, rcount, size), |c.participants| + 1) <= recvbuff.Length
    modifies recvbuff, c
    ensures got <= |old(c.participants)| == |c.participants|
    ensures forall k | 0 <= k < got :: Fits(Split(recvcount, rcount, size), old(c.participants), k)
    ensures got < |old(c.participants)| ==>
      && (res == Done(0) || res.Failed?)
      && res == ReceiveResult(old(c.participants)[got], Len(Split(recvcount, rcount, size), got + 1))
    ensures got == |old(c.participants)| ==> res == Done(Len(Split(recvcount, rcount, size), 0))
    ensures var ps, p := old(c.participants), Split(recvcount, rcount, size);
      c.participants == Drained(p, ps, Reached(got, |ps|))
        && recvbuff[..] == Lay(p, old(recvbuff[..]), ps, Reached(got, |ps|))
  {
    ghost var n, ps, buf := |c.participants|, c.participants, recvbuff[..];
    ghost var p := Split(recvcount, rcount, size);
    var displ := recvcount;
    if rcount > 0 { displ := displ + size; }
    var self := displ;
    got := 0;
    while got < |c.participants|
      invariant got <= n && c.participants == Drained(p, ps, got)
      invariant displ == Begin(p, got + 1)
      invariant forall k | 0 <= k < got :: Fits(p, ps, k)
      invariant recvbuff[..] == Lay(p, buf, ps, got)
    {
      var chunk := if rcount > 0 && got + 1 < rcount then recvcount + size else recvcount;
      var r;
      r, displ := CollectBlock(c, recvbuff, displ, chunk, got, p, ps, buf);
      if r == Done(0) || r.Failed? { return r, got; }
      got := got + 1;
    }
    res := Done(self);
  }

  /** Frames of exactly the slot sizes leave no gap: the buffer is their concatenation. */
  lemma {:induction false} LayExact(p: Split, buf: seq<byte>, ps: seq<Peer>, fs: seq<Frame>)
    requires |fs| <= |ps| && Len(p, 0) <= |buf| && Begin(p, |fs| + 1) <= |buf|
    requires forall i | 0 <= i < |fs| :: |fs[i]| == Len(p, i + 1)
    requires forall i | 0 <= i < |fs| :: Fits(p, ps, i) && ps[i].inbox[0] == fs[i]
    ensures Lay(p, buf, ps, |fs|)[..Begin(p, |fs| + 1)] == buf[..Len(p, 0)] + Flatten(fs)
  {
    if fs == [] {
      assert Begin(p, 1) == Len(p, 0);
    } else {
      var k := |fs| - 1;
      var front, r := fs[..k], Lay(p, buf, ps, k);
      LayExact(p, buf, ps, front);
      assert fs == front + [fs[k]];
      FlattenAppend(front, fs[k]);
      assert Overlay(r, Begin(p, k + 1), fs[k])[..Begin(p, k + 2)] == r[..Begin(p, k + 1)] + fs[k];
    }
  }

  /** `GatherGeneric::sendrecv` at the root. */
  method Root(c: CollectiveImpl, sendbuff: array?<byte>, recvbuff: array?<byte>, recvsize: nat, size: nat)
    returns (res: Outcome, got: nat)
    requires size > 0 && c.nparticipants == |c.participants| + 1 && c.Valid()
    requires recvbuff != null ==> recvbuff != sendbuff && recvbuff.Length == recvsize
    modifies recvbuff, c
    ensures |c.participants| == |old(c.participants)|
    ensures sendbuff == null ==> res == Failed(EFAULT) && c.participants == old(c.participants)
    ensures sendbuff != null && recvsize % size != 0 ==> res == Failed(EINVAL) && c.participants == old(c.participants)
    ensures sendbuff != null && recvsize % size == 0 ==>
      var ps, p := old(c.participants), Layout(recvsize, c.nparticipants, size);
      if sendbuff.Length < Len(p, 0) then res == Failed(EINVAL) && c.participants == ps
      else if recvbuff == null then res == Failed(EFAULT) && c.participants == ps
      else
        && got <= |ps| && (forall k | 0 <= k < got :: Fits(p, ps, k))
        && (got < |ps| ==> (res == Done(0) || res.Failed?) && res == ReceiveResult(ps[got], Len(p, got + 1)))
        && (got == |ps| ==> res == Done(Len(p, 0)))
        && c.participants == Drained(p, ps, Reached(got, |ps|))
        && recvbuff[..] == Lay(p, Overlay(old(recvbuff[..]), 0, sendbuff[..Len(p, 0)]), ps, Reached(got, |ps|))
  {
    got := 0;
    if sendbuff == null { return Failed(EFAULT), 0; }
    if recvsize % size != 0 { return Failed(EINVAL), 0; }
    var count := recvsize / size;
    var recvcount, rcount := (count / c.nparticipants) * size, count % c.nparticipants;
    var self := recvcount;
    if rcount > 0 { self := self + size; }
    ghost var p := Layout(recvsize, c.nparticipants, size);
    assert self == Len(p, 0);
    if sendbuff.Length < self { return Failed(EINVAL), 0; }
    if recvbuff == null { return Failed(EFAULT), 0; }
    NextBlock(p, 0, c.nparticipants);
    Memcpy(recvbuff, 0, sendbuff[..self]);
    res, got := CollectBlocks(c, recvbuff, recvcount, rcount, size);
  }

  /** The sending half of a member: a prefix of its buffer, sized by its own rank. */
  method SendShare(c: CollectiveImpl, sendbuff: array?<byte>, recvsize: nat, size: nat) returns (res: Outcome)
    requires size > 0 && c.nparticipants > 0 && |c.participants| == 1
    modifies c
    ensures sendbuff == null ==> res == Failed(EFAULT) && c.participants == old(c.participants)
    ensures sendbuff != null && recvsize % size != 0 ==> res == Failed(EINVAL) && c.participants == old(c.participants)
    ensures sendbuff != null && recvsize % size == 0 ==>
      var len := Len(Layout(recvsize, c.nparticipants, size), c.rank);
      if len > sendbuff.Length then res == Failed(EINVAL) && c.participants == old(c.participants)
      else if old(c.participants)[0].closedWr then res == Failed(ECONNRESET) && c.participants == old(c.participants)
      else res == Done(len) && c.participants == [Written(old(c.participants)[0], sendbuff[..len])]
  {
    if sendbuff == null { return Failed(EFAULT); }
    if recvsize % size != 0 { return Failed(EINVAL); }
    var count := recvsize / size;
    var recvcount, rcount := (count / c.nparticipants) * size, count % c.nparticipants;
    var chunk := if rcount > 0 && c.rank < rcount then recvcount + size else recvcount;
    assert chunk == Len(Layout(recvsize, c.nparticipants, size), c.rank);
    if chunk > sendbuff.Length { return Failed(EINVAL); }
    var ok := c.Send(0, sendbuff[..chunk]);
    if !ok { return Failed(ECONNRESET); }
    res := Done(chunk);
  }

  /** Sends the same frame to every participant, stopping at the first that is shut down. */
  method SendAll(c: CollectiveImpl, f: Frame) returns (upto: nat)
    modifies c
    ensures |c.participants| == |old(c.participants)| && upto <= |c.participants|
    ensures upto < |c.participants| ==> old(c.participants)[upto].closedWr
    ensures forall k | 0 <= k < upto :: (
      !old(c.participants)[k].closedWr && c.participants[k] == Written(old(c.participants)[k], f))
    ensures forall k | upto <= k < |c.participants| :: c.participants[k] == old(c.participants)[k]
  {
    ghost var n := |c.participants|;
    upto := 0;
    while upto < |c.participants|
      invariant |c.participants| == n && upto <= n
      invariant forall k | 0 <= k < upto :: (
        !old(c.participants)[k].closedWr && c.participants[k] == Written(old(c.participants)[k], f))
      invariant forall k | upto <= k < n :: c.participants[k] == old(c.participants)[k]
    {
      var ok := c.Send(upto, f);
      if !ok { return; }
      upto := upto + 1;
    }
  }

  /** The whole buffer went to everybody up to the first connection that is shut down. */
  ghost predicate SentBack(was: seq<Peer>, now: seq<Peer>, whole: Frame, len: nat, res: Outcome) {
    && |now| == |was|
    && (forall k | 0 <= k < |was| :: now[k] == if k < FirstClosed(was) then Written(was[k], whole) else was[k])
    && res == if FirstClosed(was) == |was| then Done(len) else Failed(ECONNRESET)
  }

  /** `AllGatherGeneric::sendrecv` at the root: gather, then the whole buffer to everybody. */
  method RootAll(c: CollectiveImpl, sendbuff: array?<byte>, recvbuff: array?<byte>, size: nat)
    returns (res: Outcome, got: nat)
    requires size > 0 && c.nparticipants == |c.participants| + 1 && c.Valid()
    requires recvbuff != null ==> recvbuff != sendbuff
    modifies recvbuff, c
    ensures sendbuff == null || recvbuff == null ==> res == Failed(EFAULT) && c.participants == old(c.participants)
    ensures sendbuff != null && recvbuff != null && recvbuff.Length % size != 0 ==>
      res == Failed(EINVAL) && c.participants == old(c.participants)
    ensures sendbuff != null && recvbuff != null && recvbuff.Length % size == 0 ==>
      var ps, p := old(c.participants), Layout(recvbuff.Length, c.nparticipants, size);
      if sendbuff.Length < Len(p, 0) then res == Failed(EINVAL) && c.participants == ps
      else
        && got <= |ps| && (forall k | 0 <= k < got :: Fits(p, ps, k))
        && recvbuff[..] == Lay(p, Overlay(old(recvbuff[..]), 0, sendbuff[..Len(p, 0)]), ps, Reached(got, |ps|))
        && (got < |ps| ==>
          && (res == Done(0) || res.Failed?) && res == ReceiveResult(ps[got], Len(p, got + 1))
          && c.participants == Drained(p, ps, got + 1))
        && (got == |ps| ==> SentBack(Drained(p, ps, got), c.participants, recvbuff[..], Len(p, 0), res))
  {
    if sendbuff == null || recvbuff == null { return Failed(EFAULT), 0; }
    res, got := Root(c, sendbuff, recvbuff, recvbuff.Length, size);
    if got == |c.participants| && res.Done? {
      ghost var drained := c.participants;
      var upto := SendAll(c, recvbuff[..]);
      assert upto == FirstClosed(drained);
      if upto < |c.participants| { return Failed(ECONNRESET), got; }
    }
  }

  /** `AllGatherGeneric::sendrecv` at a member: its share out, the whole buffer in. */
  method MemberAll(c: CollectiveImpl, sendbuff: array?<byte>, recvbuff: array?<byte>, size: nat) returns (res: Outcome)
    requires size > 0 && c.nparticipants > 0 && |c.participants| == 1 && c.participants[0].Valid()
    requires recvbuff != null ==> recvbuff != sendbuff
    modifies recvbuff, c
    ensures |c.participants| == 1
    ensures sendbuff == null || recvbuff == null ==> res == Failed(EFAULT) && c.participants == old(c.participants)
    ensures sendbuff != null && recvbuff != null && recvbuff.Length % size != 0 ==>
      res == Failed(EINVAL) && c.participants == old(c.participants)
    ensures sendbuff != null && recvbuff != null && recvbuff.Length % size == 0 ==>
      var p, len := old(c.participants)[0], Len(Layout(recvbuff.Length, c.nparticipants, size), c.rank);
      if len > sendbuff.Length then res == Failed(EINVAL) && c.participants == old(c.participants)
      else if p.closedWr then res == Failed(ECONNRESET) && c.participants == old(c.participants)
      else
        var q := Written(p, sendbuff[..len]);
        && res == Done(len)
        && c.participants[0] == (if q.AtEnd() then Closed(Ended(q), true, false) else AfterReceive(q, recvbuff.Length))
        && recvbuff[..] == Landed(old(recvbuff[..]), 0, q, recvbuff.Length)
  {
    if sendbuff == null || recvbuff == null { return Failed(EFAULT); }
    res := SendShare(c, sendbuff, recvbuff.Length, size);
    if res.Failed? { return; }
    var r := c.ReceiveFromHandle(0, recvbuff, 0, recvbuff.Length);
    if r == Done(0) { c.Close(0, true, false); }
  }
}
