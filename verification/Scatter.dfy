/** `ScatterGeneric::sendrecv`: the root walks its buffer and sends block `i` to member `i`. */
module Scatter {
  import opened Bytes
  import opened Partition
  import opened Collective

  /** Connection `p` after `f` has been written on it. */
  function Written(p: Peer, f: Frame): Peer {
    p.(sent := p.sent + [f])
  }

  /** The pointer walk over the blocks of the other members, the root having kept block 0.
      `upto` members were served: all, or those before the first whose connection is shut down. */
  method SendBlocks(c: CollectiveImpl, data: seq<byte>, sendcount: nat, remainder: nat, size: nat) returns (upto: nat)
    requires Begin(Split(sendcount, remainder, size), |c.participants| + 1) <= |data|
    modifies c
    ensures |c.participants| == |old(c.participants)| && upto <= |c.participants|
    ensures upto < |c.participants| ==> old(c.participants)[upto].closedWr
    ensures forall k | 0 <= k < upto :: (
      && !old(c.participants)[k].closedWr
      && c.participants[k] == Written(old(c.participants)[k],
          Blocks(Split(sendcount, remainder, size), data, |c.participants| + 1)[k + 1]))
    ensures forall k | upto <= k < |c.participants| :: c.participants[k] == old(c.participants)[k]
  {
    ghost var n := |c.participants|;
    ghost var p := Split(sendcount, remainder, size);
    ghost var blocks := Blocks(p, data, n + 1);
    var rcount, at := remainder, sendcount;
    if rcount > 0 {
      at := at + size;
      rcount := rcount - 1;
    }
    upto := 0;
    while upto < |c.participants|
      invariant |c.participants| == n && upto <= n
      invariant at == Begin(p, upto + 1)
      invariant rcount == if upto + 1 < remainder then remainder - (upto + 1) else 0
      invariant forall k | 0 <= k < upto :: (
        && !old(c.participants)[k].closedWr
        && c.participants[k] == Written(old(c.participants)[k], blocks[k + 1]))
      invariant forall k | upto <= k < n :: c.participants[k] == old(c.participants)[k]
    {
      var chunk := sendcount;
      if rcount > 0 {
        chunk := chunk + size;
        rcount := rcount - 1;
      }
      WalkStep(p, data, n + 1, upto + 1, at, chunk);
      var ok := c.Send(upto, data[at..at + chunk]);
      if !ok { return; }
      at := at + chunk;
      upto := upto + 1;
    }
  }

  /** Block `k + 1` went to participant `k` up to the first connection that is shut down, and the
      result says whether there is one. */
  ghost predicate SentOut(was: seq<Peer>, now: seq<Peer>, blocks: seq<seq<byte>>, res: Outcome) {
    && |now| == |was| && |blocks| == |was| + 1
    && (forall k | 0 <= k < |was| :: now[k] == if k < FirstClosed(was) then Written(was[k], blocks[k + 1]) else was[k])
    && res == if FirstClosed(was) == |was| then Done(|blocks[0]|) else Failed(ECONNRESET)
  }

  /** How the root lays out a send buffer of `len` bytes over `n` members. */
  function Layout(len: nat, n: nat, size: nat): (p: Split)
    requires n > 0 && size > 0 && len % size == 0
    ensures Begin(p, n) == len
  {
    SplitCovers(len / size, n, size);
    SplitOf(len / size, n, size)
  }

  /** The root side. */
  method Root(c: CollectiveImpl, sendbuff: array?<byte>, recvbuff: array?<byte>, size: nat) returns (res: Outcome)
    requires size > 0 && (sendbuff != null ==> sendbuff != recvbuff)
    modifies recvbuff, c
    ensures recvbuff == null || sendbuff == null ==> res == Failed(EFAULT)
    ensures recvbuff != null && sendbuff != null && sendbuff.Length % size != 0 ==> res == Failed(EINVAL)
    ensures recvbuff != null && sendbuff != null && sendbuff.Length % size == 0 ==>
      var n := |old(c.participants)| + 1;
      var blocks := Blocks(Layout(sendbuff.Length, n, size), sendbuff[..], n);
      && |c.participants| == n - 1
      && (|blocks[0]| > recvbuff.Length ==> res == Failed(EINVAL))
      && (|blocks[0]| <= recvbuff.Length ==>
        && |recvbuff[..]| >= |blocks[0]| && recvbuff[..|blocks[0]|] == blocks[0]
        && SentOut(old(c.participants), c.participants, blocks, res))
    ensures res == Failed(EINVAL) || res == Failed(EFAULT) ==> c.participants == old(c.participants)
  {
    if recvbuff == null || sendbuff == null { return Failed(EFAULT); }
    if sendbuff.Length % size != 0 { return Failed(EINVAL); }
    var count, n := sendbuff.Length / size, |c.participants| + 1;
    assert Layout(sendbuff.Length, n, size) == Split((count / n) * size, count % n, size);
    res := Distribute(c, sendbuff[..], recvbuff, (count / n) * size, count % n, size);
  }

  /** What the root does once its arguments are in order. */
  method Distribute(c: CollectiveImpl, data: seq<byte>, recvbuff: array<byte>, sendcount: nat, rcount: nat, size: nat)
    returns (res: Outcome)
    requires Begin(Split(sendcount, rcount, size), |c.participants| + 1) <= |data|
    modifies recvbuff, c
    ensures |c.participants| == |old(c.participants)|
    ensures var n := |old(c.participants)| + 1;
      var blocks := Blocks(Split(sendcount, rcount, size), data, n);
      if |blocks[0]| > recvbuff.Length then res == Failed(EINVAL) && c.participants == old(c.participants)
      else
        recvbuff[..|blocks[0]|] == blocks[0] && SentOut(old(c.participants), c.participants, blocks, res)
  {
    ghost var p, n := Split(sendcount, rcount, size), |c.participants| + 1;
    var self := sendcount;
    if rcount > 0 { self := self + size; }
    BlocksAt(p, data, n, 0);
    BeginMonotone(p, 1, n);
    if recvbuff.Length < self { return Failed(EINVAL); }
    Memcpy(recvbuff, 0, data[..self]);
    var upto := SendBlocks(c, data, sendcount, rcount, size);
    assert upto == FirstClosed(old(c.participants));
    if upto < |c.participants| { return Failed(ECONNRESET); }
    res := Done(self);
  }

  /** The non-root side: one blocking receive; an empty block reads as end of stream. */
  method Member(c: CollectiveImpl, recvbuff: array?<byte>) returns (res: Outcome)
    requires |c.participants| == 1 && c.participants[0].Valid()
    modifies c, recvbuff
    ensures |c.participants| == 1
    ensures recvbuff == null ==> res == Failed(EFAULT) && c.participants == old(c.participants)
    ensures recvbuff != null ==>
      var p := old(c.participants)[0];
      && res == ReceiveResult(p, recvbuff.Length)
      && c.participants[0] == (if p.AtEnd() then Closed(Ended(p), true, false) else AfterReceive(p, recvbuff.Length))
      && recvbuff[..] == Landed(old(recvbuff[..]), 0, p, recvbuff.Length)
  {
    if recvbuff == null { return Failed(EFAULT); }
    res := c.ReceiveFromHandle(0, recvbuff, 0, recvbuff.Length);
    if res == Done(0) { c.Close(0, true, false); }
  }
}
