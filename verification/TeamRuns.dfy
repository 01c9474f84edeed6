/** Whole runs of a team: the root and every member execute their own `sendrecv`, and what
    one side writes on a connection is what the other side reads. Each connection has one
    writer and one reader and reads block, so the frames seen do not depend on timing. */
module TeamRuns {
  import opened Bytes
  import opened Partition
  import opened Collective
  import opened Scatter
  import Gather
  import Alltoall
  import opened Transpose

  /** A scatter member that is sent `frame` and has room for exactly its own block. */
  method ScatterMember(frame: Frame, n: nat, rank: nat) returns (part: seq<byte>, closed: bool)
    ensures part == frame && closed == (frame == EOS)
  {
    var c := new CollectiveImpl([Connected([frame])], n, rank);
    var recvbuff := new byte[|frame|];
    var res := Scatter.Member(c, recvbuff);
    part, closed := recvbuff[..], c.participants[0].closedRd;
  }

  function NewPeers(k: nat): (ps: seq<Peer>)
    ensures |ps| == k && forall i | 0 <= i < k :: ps[i] == Connected([])
  {
    seq(k, _ => Connected([]))
  }

  /** The root's run: it keeps a block and writes one frame on each connection. */
  method ScatterRoot(buf: seq<byte>, n: nat, size: nat) returns (own: seq<byte>, peers: seq<Peer>)
    requires n > 0 && size > 0 && |buf| % size == 0
    ensures |peers| == n - 1 && own == Blocks(Layout(|buf|, n, size), buf, n)[0]
    ensures forall k | 0 <= k < n - 1 ::
      peers[k] == Written(Connected([]), Blocks(Layout(|buf|, n, size), buf, n)[k + 1])
  {
    ghost var p := Layout(|buf|, n, size);
    var c := new CollectiveImpl(NewPeers(n - 1), n, 0);
    var sendbuff := new byte[|buf|](i requires 0 <= i < |buf| => buf[i]);
    assert sendbuff[..] == buf;
    var recvbuff := new byte[|buf|];
    BlocksAt(p, buf, n, 0);
    NextBlock(p, 0, n);
    var res := Scatter.Root(c, sendbuff, recvbuff, size);
    own, peers := recvbuff[..res.bytes], c.participants;
  }

  /** A whole scatter. Every member ends with its block; a member whose block is empty takes
      the zero-length frame for the end of the stream and closes its connection. */
  method ScatterTeam(buf: seq<byte>, n: nat, size: nat) returns (parts: seq<seq<byte>>, closed: seq<bool>)
    requires n > 0 && size > 0 && |buf| % size == 0
    ensures parts == Blocks(Layout(|buf|, n, size), buf, n)
    ensures |closed| == n && forall i | 0 <= i < n :: closed[i] <==> i > 0 && |buf| / size <= i
  {
    ghost var p, blocks := Layout(|buf|, n, size), Blocks(Layout(|buf|, n, size), buf, n);
    var own, peers := ScatterRoot(buf, n, size);
    parts, closed := [own], [false];
    while |parts| < n
      invariant 1 <= |parts| == |closed| <= n
      invariant forall k | 0 <= k < |parts| :: parts[k] == blocks[k]
      invariant forall k | 0 <= k < |parts| :: closed[k] <==> k > 0 && |buf| / size <= k
    {
      var i := |parts|;
      assert peers[i - 1] == Written(Connected([]), blocks[i]);
      var part, shut := ScatterMember(peers[i - 1].sent[0], n, i);
      EmptyBlock(buf, n, size, i);
      parts, closed := parts + [part], closed + [shut];
    }
  }

  lemma EmptyBlock(buf: seq<byte>, n: nat, size: nat, i: nat)
    requires size > 0 && i < n && |buf| % size == 0
    ensures Blocks(Layout(|buf|, n, size), buf, n)[i] == EOS <==> |buf| / size < n && |buf| / size <= i
  {
    BlocksAt(Layout(|buf|, n, size), buf, n, i);
    AllShares(|buf| / size, n, size, i);
  }

  /** Rank of the member behind connection `i`, when the root has rank `rootRank`: the
      participant list without the root. */
  function RankOfSlot(i: nat, rootRank: nat): nat {
    if i < rootRank then i else i + 1
  }

  /** What a gather member of rank `rank` writes, for a gathered buffer of `total` bytes. */
  method GatherMember(buf: seq<byte>, total: nat, size: nat, n: nat, rank: nat) returns (frame: Frame)
    requires n > 0 && size > 0 && total % size == 0 && |buf| >= Len(Layout(total, n, size), rank)
    ensures frame == buf[..Len(Layout(total, n, size), rank)]
  {
    var c := new CollectiveImpl(NewPeers(1), n, rank);
    var sendbuff := new byte[|buf|](i requires 0 <= i < |buf| => buf[i]);
    assert sendbuff[..] == buf;
    var res := Gather.SendShare(c, sendbuff, total, size);
    frame := c.participants[0].sent[0];
  }

  /** Connection `k` carries the share of the member behind it. */
  ghost predicate Carries(p: Split, ps: seq<Peer>, bufs: Buffers, rootRank: nat, k: nat) {
    var r := RankOfSlot(k, rootRank);
    && k < |ps| && r < |bufs| && Len(p, r) <= |bufs[r]|
    && ps[k] == Connected([bufs[r][..Len(p, r)]])
  }

  /** The root expects slot `k` by position, the member sizes its frame by rank. */
  lemma SlotRule(p: Split, ps: seq<Peer>, bufs: Buffers, rootRank: nat, k: nat)
    requires Carries(p, ps, bufs, rootRank, k)
    ensures Gather.Fits(p, ps, k) <==> 0 < Len(p, RankOfSlot(k, rootRank)) <= Len(p, k + 1)
    ensures !Gather.Fits(p, ps, k) ==>
      ReceiveResult(ps[k], Len(p, k + 1))
        == if Len(p, RankOfSlot(k, rootRank)) == 0 then Done(0) else Failed(ENOMEM)
  {
  }

  /** The root's expectation for slot `k` is the size that the member behind it sends. */
  ghost predicate Agrees(p: Split, rootRank: nat, k: nat) {
    Len(p, RankOfSlot(k, rootRank)) == Len(p, k + 1)
  }

  /** The two size rules agree on every slot exactly when there is no remainder or the root
      takes one of the larger blocks; otherwise the member of rank `extra - 1` sends one
      element more than the root expects. */
  lemma SizeRulesAgree(p: Split, n: nat, rootRank: nat)
    requires rootRank < n && p.unit > 0 && p.extra < n
    ensures p.extra == 0 || rootRank < p.extra <==> forall k | 0 <= k < n - 1 :: Agrees(p, rootRank, k)
    ensures p.extra > 0 && rootRank >= p.extra ==>
      && Len(p, RankOfSlot(p.extra - 1, rootRank)) == Len(p, p.extra) + p.unit
      && forall k | 0 <= k < p.extra - 1 :: Agrees(p, rootRank, k) && Len(p, k + 1) > 0
  {
    if p.extra == 0 || rootRank < p.extra {
      forall k | 0 <= k < n - 1 ensures Agrees(p, rootRank, k) {}
    } else {
      var odd := p.extra - 1;
      assert 0 <= odd < n - 1 && !Agrees(p, rootRank, odd);
      forall k | 0 <= k < odd ensures Agrees(p, rootRank, k) && Len(p, k + 1) > 0 {}
    }
  }

  /** Where the gather stops: at the first slot that does not fit. */
  lemma GatherStops(count: nat, n: nat, size: nat, ps: seq<Peer>, bufs: Buffers, rootRank: nat, got: nat)
    requires size > 0 && |bufs| == n == |ps| + 1 && rootRank < n && got <= |ps|
    requires forall k | 0 <= k < |ps| :: Carries(SplitOf(count, n, size), ps, bufs, rootRank, k)
    requires forall k | 0 <= k < got :: Gather.Fits(SplitOf(count, n, size), ps, k)
    requires got < |ps| ==> !Gather.Fits(SplitOf(count, n, size), ps, got)
    ensures var p := SplitOf(count, n, size);
      && (p.extra > 0 && rootRank >= p.extra ==>
            got < |ps| && ReceiveResult(ps[got], Len(p, got + 1)) == Failed(ENOMEM))
      && ((p.extra == 0 || rootRank < p.extra) && count < n && n > 1 ==>
            got < |ps| && ReceiveResult(ps[got], Len(p, got + 1)) == Done(0))
      && ((p.extra == 0 || rootRank < p.extra) && count >= n ==> got == |ps|)
  {
    var p := SplitOf(count, n, size);
    SizeRulesAgree(p, n, rootRank);
    if got < |ps| {
      assert Carries(p, ps, bufs, rootRank, got);
      assert Agrees(p, rootRank, got) || !Agrees(p, rootRank, got);
      SlotRule(p, ps, bufs, rootRank, got);
      AllShares(count, n, size, got + 1);
    }
    if p.extra > 0 && rootRank >= p.extra {
      assert Carries(p, ps, bufs, rootRank, p.extra - 1);
      SlotRule(p, ps, bufs, rootRank, p.extra - 1);
    } else if count < n && n > 1 {
      assert Carries(p, ps, bufs, rootRank, |ps| - 1) && Agrees(p, rootRank, |ps| - 1);
      SlotRule(p, ps, bufs, rootRank, |ps| - 1);
      AllShares(count, n, size, n - 1);
    }
  }

  /** The connections of the root, each carrying what the member behind it wrote. */
  method GatherPeers(bufs: Buffers, rootRank: nat, total: nat, size: nat) returns (peers: seq<Peer>)
    requires rootRank < |bufs| && size > 0 && total % size == 0
    requires forall r | 0 <= r < |bufs| :: r == rootRank || |bufs[r]| >= Len(Layout(total, |bufs|, size), r)
    ensures |peers| == |bufs| - 1
    ensures forall k | 0 <= k < |peers| :: Carries(Layout(total, |bufs|, size), peers, bufs, rootRank, k)
  {
    ghost var p := Layout(total, |bufs|, size);
    peers := [];
    while |peers| < |bufs| - 1
      invariant |peers| < |bufs|
      invariant forall k | 0 <= k < |peers| :: Carries(p, peers, bufs, rootRank, k)
    {
      var r := RankOfSlot(|peers|, rootRank);
      var frame := GatherMember(bufs[r], total, size, |bufs|, r);
      ghost var before := peers;
      peers := peers + [Connected([frame])];
      forall k | 0 <= k < |peers| ensures Carries(p, peers, bufs, rootRank, k) {
        assert k < |before| ==> Carries(p, before, bufs, rootRank, k);
      }
    }
  }

  /** The prefix of its buffer that the member of rank `r` contributes. */
  function Share(p: Split, bufs: Buffers, r: nat): Frame {
    if r < |bufs| && Len(p, r) <= |bufs[r]| then bufs[r][..Len(p, r)] else EOS
  }

  /** What the members behind the first `k` connections contribute, in connection order. */
  function Shares(p: Split, bufs: Buffers, rootRank: nat, k: nat): (fs: seq<Frame>)
    ensures |fs| == k
  {
    if k == 0 then [] else Shares(p, bufs, rootRank, k - 1) + [Share(p, bufs, RankOfSlot(k - 1, rootRank))]
  }

  lemma {:induction false} SharesAt(p: Split, bufs: Buffers, rootRank: nat, k: nat, i: nat)
    requires i < k
    ensures Shares(p, bufs, rootRank, k)[i] == Share(p, bufs, RankOfSlot(i, rootRank))
  {
    if i < k - 1 { SharesAt(p, bufs, rootRank, k - 1, i); }
  }

  /** A gather that received everybody holds the root's block and then everybody's share. */
  lemma GatheredIsShares(p: Split, buf: seq<byte>, own: seq<byte>, ps: seq<Peer>, bufs: Buffers, rootRank: nat)
    requires |own| == Len(p, 0) && Begin(p, |ps| + 1) == |buf| && Len(p, 0) <= |buf|
    requires forall k | 0 <= k < |ps| :: Carries(p, ps, bufs, rootRank, k) && Gather.Fits(p, ps, k)
    requires forall k | 0 <= k < |ps| :: Agrees(p, rootRank, k)
    ensures Gather.Lay(p, Overlay(buf, 0, own), ps, |ps|) == own + Flatten(Shares(p, bufs, rootRank, |ps|))
  {
    var fs := Shares(p, bufs, rootRank, |ps|);
    forall i | 0 <= i < |fs|
      ensures |fs[i]| == Len(p, i + 1) && Gather.Fits(p, ps, i) && ps[i].inbox[0] == fs[i]
    {
      assert Carries(p, ps, bufs, rootRank, i) && Gather.Fits(p, ps, i) && Agrees(p, rootRank, i);
      SharesAt(p, bufs, rootRank, |ps|, i);
    }
    Gather.LayExact(p, Overlay(buf, 0, own), ps, fs);
    assert Overlay(buf, 0, own)[..Len(p, 0)] == own;
  }

  /** What the root of a gather returns when its own buffer has `own` bytes: too little to send, a
      frame that is too large, an empty frame that reads as end of stream, or success. */
  function GatherOutcome(p: Split, own: nat, rootRank: nat, count: nat, n: nat): Outcome {
    if own < Len(p, 0) then Failed(EINVAL)
    else if p.extra > 0 && rootRank >= p.extra then Failed(ENOMEM)
    else if count < n && n > 1 then Done(0)
    else Done(Len(p, 0))
  }

  predicate GatherWorks(p: Split, own: nat, rootRank: nat, count: nat, n: nat) {
    own >= Len(p, 0) && (p.extra == 0 || rootRank < p.extra) && (count >= n || n == 1)
  }

  /** What the root then holds: its own block and everybody's share, in participant order. */
  function Gathered(p: Split, bufs: Buffers, rootRank: nat): seq<byte>
    requires rootRank < |bufs| && Len(p, 0) <= |bufs[rootRank]|
  {
    bufs[rootRank][..Len(p, 0)] + Flatten(Shares(p, bufs, rootRank, |bufs| - 1))
  }

  /** A whole gather, the root at any rank. It succeeds exactly when there are as many elements
      as members (or the root is alone) and the two size rules agree; then the root holds its own
      block followed by the others in participant order. */
  method GatherTeam(bufs: Buffers, rootRank: nat, total: nat, size: nat) returns (res: Outcome, out: seq<byte>)
    requires rootRank < |bufs| && size > 0 && total % size == 0
    requires forall r | 0 <= r < |bufs| :: r == rootRank || |bufs[r]| >= Len(Layout(total, |bufs|, size), r)
    ensures
      var p := Layout(total, |bufs|, size);
      && res == GatherOutcome(p, |bufs[rootRank]|, rootRank, total / size, |bufs|)
      && (GatherWorks(p, |bufs[rootRank]|, rootRank, total / size, |bufs|) ==> out == Gathered(p, bufs, rootRank))
  {
    ghost var p, n := Layout(total, |bufs|, size), |bufs|;
    var peers := GatherPeers(bufs, rootRank, total, size);
    var own := bufs[rootRank];
    var buf: seq<byte> := seq(total, _ => 0);
    var got;
    res, got, out := GatherRoot(peers, own, buf, |bufs|, rootRank, size, bufs);
    if |own| >= Len(p, 0) {
      GatherStops(total / size, n, size, peers, bufs, rootRank, got);
      if got == |peers| {
        SizeRulesAgree(p, n, rootRank);
        NextBlock(p, 0, n);
        GatheredIsShares(p, buf, own[..Len(p, 0)], peers, bufs, rootRank);
      }
    }
  }

  /** The root's run of a gather into a buffer that holds `buf`, on connections that carry
      everybody's share. */
  method GatherRoot(peers: seq<Peer>, own: seq<byte>, buf: seq<byte>, n: nat, rootRank: nat, size: nat,
      ghost bufs: Buffers)
    returns (res: Outcome, got: nat, out: seq<byte>)
    requires size > 0 && |buf| % size == 0 && n == |peers| + 1
    requires forall k | 0 <= k < |peers| :: Carries(Layout(|buf|, n, size), peers, bufs, rootRank, k)
    ensures var p := Layout(|buf|, n, size);
      if |own| < Len(p, 0) then res == Failed(EINVAL)
      else
        && got <= |peers| && (forall k | 0 <= k < got :: Gather.Fits(p, peers, k))
        && (got < |peers| ==> !Gather.Fits(p, peers, got) && res == ReceiveResult(peers[got], Len(p, got + 1)))
        && (got == |peers| ==>
              res == Done(Len(p, 0)) && out == Gather.Lay(p, Overlay(buf, 0, own[..Len(p, 0)]), peers, got))
  {
    ghost var p := Layout(|buf|, n, size);
    var c := new CollectiveImpl(peers, n, rootRank);
    var sendbuff := new byte[|own|](i requires 0 <= i < |own| => own[i]);
    var recvbuff := new byte[|buf|](i requires 0 <= i < |buf| => buf[i]);
    assert sendbuff[..] == own && recvbuff[..] == buf;
    assert c.Valid() by {
      forall k | 0 <= k < |peers| ensures peers[k].Valid() { assert Carries(p, peers, bufs, rootRank, k); }
    }
    res, got := Gather.Root(c, sendbuff, recvbuff, |buf|, size);
    out := recvbuff[..];
  }

  lemma {:induction false} SharesOfBlocks(p: Split, buf: seq<byte>, n: nat, k: nat)
    requires k < n && Begin(p, n) <= |buf|
    ensures Begin(p, k + 1) <= |buf|
    ensures Share(p, Blocks(p, buf, n), 0) + Flatten(Shares(p, Blocks(p, buf, n), 0, k))
      == Flatten(Blocks(p, buf, k + 1))
  {
    var bs := Blocks(p, buf, n);
    BlocksAt(p, buf, n, k);
    BeginMonotone(p, k + 1, n);
    BlocksAt(p, buf, k + 1, k);
    FlattenAppend(Blocks(p, buf, k), Block(p, buf, k));
    assert Share(p, bs, k) == Block(p, buf, k);
    if k == 0 {
      assert Blocks(p, buf, 1) == [Block(p, buf, 0)];
    } else {
      SharesOfBlocks(p, buf, n, k - 1);
      FlattenAppend(Shares(p, bs, 0, k - 1), Share(p, bs, k));
    }
  }

  /** Gathering the blocks of a buffer rebuilds it. */
  lemma GatheredBlocks(p: Split, buf: seq<byte>, n: nat)
    requires n > 0 && Begin(p, n) == |buf|
    ensures |Blocks(p, buf, n)[0]| == Len(p, 0) && Gathered(p, Blocks(p, buf, n), 0) == buf
  {
    BlocksAt(p, buf, n, 0);
    SharesOfBlocks(p, buf, n, n - 1);
    BlocksCover(p, buf, n);
  }

  /** Scatter followed by gather rebuilds the root's buffer; with fewer elements than members
      the gather stops at the empty block of a member. */
  method ScatterThenGather(buf: seq<byte>, n: nat, size: nat) returns (res: Outcome, out: seq<byte>)
    requires n > 0 && size > 0 && |buf| % size == 0
    ensures |buf| / size >= n || n == 1 ==> res.Done? && out == buf
    ensures |buf| / size < n && n > 1 ==> res == Done(0)
  {
    var parts, _ := ScatterTeam(buf, n, size);
    ghost var p := Layout(|buf|, n, size);
    forall r | 0 <= r < n ensures |parts[r]| == Len(p, r) { BlocksAt(p, buf, n, r); }
    assert |buf| / size == 0 ==> p.extra == 0;
    res, out := GatherTeam(parts, 0, |buf|, size);
    assert parts[0] == parts[0][..Len(p, 0)];
    GatheredBlocks(p, buf, n);
  }

  /** What becomes of a member that waits for the root's frame: it gets it, it finds an empty one,
      which reads as end of stream, or nothing is sent to it. Then it stays in its receive until the
      root's connection ends, and finds the end of the stream only there. */
  datatype Fate = Served | FindsEos | Starves

  function FateOf(incoming: seq<Frame>): Fate {
    if incoming == [] then Starves else if incoming[0] == EOS then FindsEos else Served
  }

  /** The root of an allgather run: what it holds, and what it writes to everybody if the gather
      works. */
  method AllGatherRoot(bufs: Buffers, rootRank: nat, total: nat, size: nat)
    returns (res: Outcome, out: seq<byte>, peers: seq<Peer>)
    requires rootRank < |bufs| && size > 0 && total % size == 0
    requires forall r | 0 <= r < |bufs| :: r == rootRank || |bufs[r]| >= Len(Layout(total, |bufs|, size), r)
    ensures |peers| == |bufs| - 1
    ensures
      var p := Layout(total, |bufs|, size);
      && res == GatherOutcome(p, |bufs[rootRank]|, rootRank, total / size, |bufs|)
      && (if GatherWorks(p, |bufs[rootRank]|, rootRank, total / size, |bufs|) then
            |out| == total && out == Gathered(p, bufs, rootRank)
            && forall k | 0 <= k < |peers| :: peers[k].sent == [out]
          else forall k | 0 <= k < |peers| :: peers[k].sent == [])
  {
    ghost var p, n := Layout(total, |bufs|, size), |bufs|;
    var ps := GatherPeers(bufs, rootRank, total, size);
    var own := bufs[rootRank];
    var buf: seq<byte> := seq(total, _ => 0);
    var got;
    res, got, out, peers := AllGatherRun(ps, own, buf, |bufs|, rootRank, size, bufs);
    if |own| >= Len(p, 0) {
      GatherStops(total / size, n, size, ps, bufs, rootRank, got);
      if got == |ps| {
        SizeRulesAgree(p, n, rootRank);
        NextBlock(p, 0, n);
        GatheredIsShares(p, buf, own[..Len(p, 0)], ps, bufs, rootRank);
      }
    }
  }

  /** The root's run of an allgather into a buffer that holds `buf`, on connections that carry
      everybody's share. */
  method AllGatherRun(ps: seq<Peer>, own: seq<byte>, buf: seq<byte>, n: nat, rootRank: nat, size: nat,
      ghost bufs: Buffers)
    returns (res: Outcome, got: nat, out: seq<byte>, peers: seq<Peer>)
    requires size > 0 && |buf| % size == 0 && n == |ps| + 1
    requires forall k | 0 <= k < |ps| :: Carries(Layout(|buf|, n, size), ps, bufs, rootRank, k)
    ensures |peers| == |ps|
    ensures var p := Layout(|buf|, n, size);
      if |own| < Len(p, 0) then res == Failed(EINVAL) && forall k | 0 <= k < |peers| :: peers[k].sent == []
      else
        && got <= |ps| && (forall k | 0 <= k < got :: Gather.Fits(p, ps, k))
        && (got < |ps| ==>
          && !Gather.Fits(p, ps, got) && res == ReceiveResult(ps[got], Len(p, got + 1))
          && forall k | 0 <= k < |peers| :: peers[k].sent == [])
        && (got == |ps| ==>
          && res == Done(Len(p, 0)) && out == Gather.Lay(p, Overlay(buf, 0, own[..Len(p, 0)]), ps, got)
          && forall k | 0 <= k < |peers| :: peers[k].sent == [out])
  {
    ghost var p := Layout(|buf|, n, size);
    var c := new CollectiveImpl(ps, n, rootRank);
    var sendbuff := new byte[|own|](i requires 0 <= i < |own| => own[i]);
    var recvbuff := new byte[|buf|](i requires 0 <= i < |buf| => buf[i]);
    assert sendbuff[..] == own && recvbuff[..] == buf;
    forall k | 0 <= k < |ps| ensures Fresh(ps[k]) && ps[k].Valid() { assert Carries(p, ps, bufs, rootRank, k); }
    res, got := Gather.RootAll(c, sendbuff, recvbuff, size);
    out, peers := recvbuff[..], c.participants;
    if |own| >= Len(p, 0) { DrainedFresh(p, ps, Reached(got, |ps|)); }
  }

  /** A new connection on which the peer sends something. */
  ghost predicate Fresh(p: Peer) { p.inbox != [] && p == Connected(p.inbox) }

  /** Receiving leaves the writing side of a fresh connection untouched. */
  lemma DrainedFresh(p: Split, ps: seq<Peer>, k: nat)
    requires k <= |ps| && forall i | 0 <= i < |ps| :: Fresh(ps[i])
    ensures forall i | 0 <= i < |ps| :: !Gather.Drained(p, ps, k)[i].closedWr && Gather.Drained(p, ps, k)[i].sent == []
  {
    forall i | 0 <= i < |ps|
      ensures !Gather.Drained(p, ps, k)[i].closedWr && Gather.Drained(p, ps, k)[i].sent == []
    {
      assert Fresh(ps[i]);
      if i < k { Gather.DrainedAt(p, ps, k, i); }
    }
  }

  /** A member of an allgather run that is sent `incoming`: the whole buffer, or nothing. */
  method AllGatherMember(buf: seq<byte>, incoming: seq<Frame>, total: nat, size: nat, n: nat, rank: nat)
    returns (out: seq<byte>, sent: seq<Frame>, closed: bool)
    requires n > 0 && size > 0 && total % size == 0 && |buf| >= Len(Layout(total, n, size), rank)
    requires incoming == [] || (|incoming| == 1 && |incoming[0]| == total > 0)
    ensures |sent| > 0 && sent[0] == buf[..Len(Layout(total, n, size), rank)]
    ensures closed == !FateOf(incoming).Served? && (!closed ==> out == incoming[0])
  {
    var c := new CollectiveImpl([Connected(incoming)], n, rank);
    var sendbuff := new byte[|buf|](i requires 0 <= i < |buf| => buf[i]);
    assert sendbuff[..] == buf;
    var recvbuff := new byte[total];
    var res := Gather.MemberAll(c, sendbuff, recvbuff, size);
    out, sent, closed := recvbuff[..], c.participants[0].sent, c.participants[0].closedRd;
  }

  /** The connection behind which the member of rank `r` is. */
  function SlotOfRank(r: nat, rootRank: nat): nat {
    if r < rootRank then r else if r > 0 then r - 1 else 0
  }

  /** A whole allgather, the root at any rank. When the gather works every member ends with what
      the root holds, which is everybody's share in rank order if the root is first; otherwise the
      root returns without sending anything and every other member is left waiting. */
  method AllGatherTeam(bufs: Buffers, rootRank: nat, total: nat, size: nat)
    returns (res: Outcome, outs: Buffers, fates: seq<Fate>)
    requires rootRank < |bufs| && size > 0 && total % size == 0
    requires forall r | 0 <= r < |bufs| :: r == rootRank || |bufs[r]| >= Len(Layout(total, |bufs|, size), r)
    ensures |outs| == |fates| == |bufs|
    ensures
      var p := Layout(total, |bufs|, size);
      && res == GatherOutcome(p, |bufs[rootRank]|, rootRank, total / size, |bufs|)
      && (GatherWorks(p, |bufs[rootRank]|, rootRank, total / size, |bufs|) ==>
            forall r | 0 <= r < |bufs| :: outs[r] == Gathered(p, bufs, rootRank) && fates[r] == Served)
      && (!GatherWorks(p, |bufs[rootRank]|, rootRank, total / size, |bufs|) ==>
            forall r | 0 <= r < |bufs| :: fates[r] == if r == rootRank then Served else Starves)
  {
    ghost var p := Layout(total, |bufs|, size);
    ghost var works := GatherWorks(p, |bufs[rootRank]|, rootRank, total / size, |bufs|);
    var whole, peers;
    res, whole, peers := AllGatherRoot(bufs, rootRank, total, size);
    outs, fates := [], [];
    while |outs| < |bufs|
      invariant |outs| == |fates| <= |bufs|
      invariant works ==> forall r | 0 <= r < |outs| :: outs[r] == whole && fates[r] == Served
      invariant !works ==> forall r | 0 <= r < |outs| :: fates[r] == if r == rootRank then Served else Starves
    {
      var r := |outs|;
      var out, fate := whole, Served;
      if r != rootRank {
        var sent, shut;
        NotAlone(total, size, |bufs|);
        out, sent, shut := AllGatherMember(bufs[r], peers[SlotOfRank(r, rootRank)].sent, total, size, |bufs|, r);
        fate := FateOf(peers[SlotOfRank(r, rootRank)].sent);
        assert RankOfSlot(SlotOfRank(r, rootRank), rootRank) == r && sent[0] == Share(p, bufs, r);
      }
      outs, fates := outs + [out], fates + [fate];
    }
  }

  /** As many elements as members means some bytes. */
  lemma NotAlone(total: nat, size: nat, n: nat)
    requires size > 0 && n > 0
    ensures total / size >= n ==> total > 0
  {
  }

  /** Scatter followed by allgather gives every member the root's buffer; with fewer elements than
      members the allgather stops at the empty block of a member. */
  method ScatterThenAllGather(buf: seq<byte>, n: nat, size: nat) returns (res: Outcome, outs: Buffers)
    requires n > 0 && size > 0 && |buf| % size == 0
    ensures |buf| / size >= n || n == 1 ==> res.Done? && |outs| == n && forall r | 0 <= r < n :: outs[r] == buf
    ensures |buf| / size < n && n > 1 ==> res == Done(0)
  {
    var parts, _ := ScatterTeam(buf, n, size);
    ghost var p := Layout(|buf|, n, size);
    forall r | 0 <= r < n ensures |parts[r]| == Len(p, r) { BlocksAt(p, buf, n, r); }
    var fates;
    res, outs, fates := AllGatherTeam(parts, 0, |buf|, size);
    GatheredBlocks(p, buf, n);
  }

  /** What the members of an all-to-all write: their whole buffer. */
  function AlltoallPeers(rows: Buffers, k: nat): (ps: seq<Peer>)
    requires k < |rows|
    ensures |ps| == k
  {
    if k == 0 then [] else AlltoallPeers(rows, k - 1) + [Connected([rows[k]])]
  }

  lemma {:induction false} AlltoallPeersAt(rows: Buffers, k: nat, i: nat)
    requires i < k < |rows|
    ensures AlltoallPeers(rows, k)[i] == Connected([rows[i + 1]])
  {
    if i < k - 1 { AlltoallPeersAt(rows, k - 1, i); }
  }

  lemma {:induction false} ExchangedRows(rows: Buffers, n: nat, k: nat)
    requires k <= n < |rows|
    ensures Alltoall.ExchangedUpto(rows[0], AlltoallPeers(rows, n), k) == rows[..k + 1]
  {
    if k > 0 {
      ExchangedRows(rows, n, k - 1);
      AlltoallPeersAt(rows, n, k - 1);
      assert rows[..k + 1] == rows[..k] + [rows[k]];
    }
  }

  /** A fresh connection on which the peer sends one buffer of `s` bytes. */
  ghost predicate Whole(p: Peer, s: nat) {
    && p.Valid() && !p.closedWr && !p.closedRd && |p.inbox| == 1 && |p.inbox[0]| == s && p.sent == []
  }

  lemma PeerWhole(rows: Buffers, k: nat, s: nat)
    requires k + 1 < |rows| && |rows[k + 1]| == s > 0
    ensures Whole(AlltoallPeers(rows, |rows| - 1)[k], s)
  {
    AlltoallPeersAt(rows, |rows| - 1, k);
  }

  lemma AlltoallPeersFull(rows: Buffers, ps: seq<Peer>, s: nat)
    requires |rows| > 0 && s > 0 && ps == AlltoallPeers(rows, |rows| - 1)
    requires forall r | 0 <= r < |rows| :: |rows[r]| == s
    ensures forall k | 0 <= k < |ps| :: Whole(ps[k], s)
  {
    forall k | 0 <= k < |ps| ensures Whole(ps[k], s) { PeerWhole(rows, k, s); }
  }

  lemma WholeIsFull(ps: seq<Peer>, s: nat)
    requires s > 0 && forall k | 0 <= k < |ps| :: Whole(ps[k], s)
    ensures Alltoall.Full(s, ps)
  {
    forall k | 0 <= k < |ps| ensures Alltoall.Ready(s, ps, k) && |ps[k].inbox[0]| == s { assert Whole(ps[k], s); }
  }

  /** Connection `k` of the root carries column `k + 1`. */
  ghost predicate CarriesColumn(p: Split, rows: Buffers, peers: seq<Peer>, k: nat) {
    && k < |peers| == |rows| - 1 && AtLeast(rows, Begin(p, k + 2))
    && peers[k].sent == [Column(p, rows, k + 1, |rows|)]
  }

  lemma ServedCarries(p: Split, rows: Buffers, s: nat, ps: seq<Peer>, peers: seq<Peer>, k: nat)
    requires |rows| > 0 && ps == AlltoallPeers(rows, |rows| - 1) && 0 < s && k + 1 < |rows|
    requires |rows[k + 1]| == s && Alltoall.Served(p, rows, s, ps, peers, k)
    ensures CarriesColumn(p, rows, peers, k)
  {
    AlltoallPeersAt(rows, |ps|, k);
  }

  /** The rank of the member at position `i` of the list that starts with the root and goes on with
      its participants. */
  function RankAt(i: nat, rootRank: nat): nat {
    if i == 0 then rootRank else RankOfSlot(i - 1, rootRank)
  }

  /** Positions are ranks exactly when the root comes first. */
  lemma PositionsAreRanksIff(n: nat, rootRank: nat)
    requires rootRank < n
    ensures (forall i | 0 <= i < n :: RankAt(i, rootRank) == i) <==> rootRank == 0
  {
    assert RankAt(0, rootRank) == rootRank;
  }

  lemma {:induction false} TimesWider(n: nat, a: nat, b: nat)
    requires a <= b
    ensures Times(n, a) <= Times(n, b)
  {
    if n > 0 { TimesWider(n - 1, a, b); }
  }

  /** The root of an all-to-all run, of any rank, with room for column 0. */
  method AlltoallRoot(rows: Buffers, rootRank: nat, size: nat) returns (out: seq<byte>, peers: seq<Peer>)
    requires |rows| > 0 && size > 0 && |rows[0]| % size == 0 && |rows[0]| > 0
    requires forall r | 0 <= r < |rows| :: |rows[r]| == |rows[0]|
    ensures AtLeast(rows, Begin(Layout(|rows[0]|, |rows|, size), 1))
    ensures out == Column(Layout(|rows[0]|, |rows|, size), rows, 0, |rows|)
    ensures |peers| == |rows| - 1
    ensures forall k | 0 <= k < |peers| :: CarriesColumn(Layout(|rows[0]|, |rows|, size), rows, peers, k)
  {
    var p, own, ps := Layout(|rows[0]|, |rows|, size), rows[0], AlltoallPeers(rows, |rows| - 1);
    AlltoallPeersFull(rows, ps, |own|);
    WholeIsFull(ps, |own|);
    var c := new CollectiveImpl(ps, |rows|, rootRank);
    var sendbuff := new byte[|own|](i requires 0 <= i < |own| => own[i]);
    assert sendbuff[..] == own;
    var recvbuff := new byte[Times(|rows|, Len(p, 0))];
    TimesWider(|rows|, Len(p, rootRank), Len(p, 0));
    var _, got, works := Alltoall.Root(c, sendbuff, recvbuff, size);
    out, peers := recvbuff[..], c.participants;
    FullDelivers(ps, |own|);
    WorksOnRows(rows, ps, works);
    assert out == recvbuff[..Times(|rows|, Len(p, 0))];
    AllCarry(p, rows, |own|, ps, peers);
  }

  lemma AllCarry(p: Split, rows: Buffers, s: nat, ps: seq<Peer>, peers: seq<Peer>)
    requires |rows| > 0 && s > 0 && ps == AlltoallPeers(rows, |rows| - 1)
    requires forall k | 0 <= k < |ps| :: Whole(ps[k], s)
    requires (forall r | 0 <= r < |rows| :: |rows[r]| == s) && Alltoall.ServedAll(p, rows, s, ps, peers)
    ensures forall k | 0 <= k < |ps| :: CarriesColumn(p, rows, peers, k)
  {
    forall k | 0 <= k < |ps| ensures CarriesColumn(p, rows, peers, k) {
      assert FirstClosed(ps) < |ps| ==> Whole(ps[FirstClosed(ps)], s);
      assert Alltoall.Served(p, rows, s, ps, peers, k);
      ServedCarries(p, rows, s, ps, peers, k);
    }
  }

  lemma FullDelivers(ps: seq<Peer>, s: nat)
    requires Alltoall.Full(s, ps)
    ensures forall k | 0 <= k < |ps| :: ReceiveResult(ps[k], s) == Done(s) && s > 0
  {
    forall k | 0 <= k < |ps| ensures ReceiveResult(ps[k], s) == Done(s) && s > 0 { assert Alltoall.Ready(s, ps, k); }
  }

  /** The root works on the members' buffers. */
  lemma WorksOnRows(rows: Buffers, ps: seq<Peer>, works: Buffers)
    requires |rows| > 0 && ps == AlltoallPeers(rows, |rows| - 1)
    requires Alltoall.Full(|rows[0]|, ps) && Alltoall.Rows(rows[0], ps, works)
    ensures works == rows
  {
    Alltoall.FullRows(rows[0], ps, works);
    ExchangedRows(rows, |ps|, |ps|);
    assert rows[..|rows|] == rows;
  }

  /** The root of an all-to-all of empty buffers takes the first one for the end of the stream and
      sends nothing. */
  method AlltoallNothing(rows: Buffers, rootRank: nat, size: nat) returns (peers: seq<Peer>)
    requires |rows| > 0 && size > 0 && forall r | 0 <= r < |rows| :: rows[r] == []
    ensures |peers| == |rows| - 1 && forall k | 0 <= k < |peers| :: peers[k].sent == []
  {
    var ps := AlltoallPeers(rows, |rows| - 1);
    forall k | 0 <= k < |ps| ensures ps[k] == Connected([EOS]) { AlltoallPeersAt(rows, |rows| - 1, k); }
    var c := new CollectiveImpl(ps, |rows|, rootRank);
    var sendbuff, recvbuff := new byte[0], new byte[0];
    EmptyColumns(|rows|, size, 0);
    EmptyColumns(|rows|, size, rootRank);
    var _, got, _ := Alltoall.Root(c, sendbuff, recvbuff, size);
    peers := c.participants;
    if ps != [] {
      assert got > 0 ==> Alltoall.Ready(0, ps, 0);
      forall k | 0 <= k < |peers| ensures peers[k].sent == [] {
        assert k == 0 ==> peers[0] == AfterReceive(ps[0], 0) by { Alltoall.PoppedPrefix(0, ps, 1, 0); }
      }
    }
  }

  /** A member of an all-to-all run that is sent `column`, or nothing when there is nothing in it. It
      has room for the column that its rank entitles it to. */
  method AlltoallMember(row: seq<byte>, incoming: seq<Frame>, size: nat, n: nat, rank: nat, ghost column: Frame)
    returns (out: seq<byte>, sent: Frame, closed: bool)
    requires n > 0 && size > 0 && |row| % size == 0 && (incoming == [column] || (incoming == [] && column == EOS))
    requires |column| <= Times(n, Len(Layout(|row|, n, size), rank))
    ensures out == column && sent == row && closed == !FateOf(incoming).Served?
  {
    var p := Layout(|row|, n, size);
    var c := new CollectiveImpl([Connected(incoming)], n, rank);
    var sendbuff := new byte[|row|](i requires 0 <= i < |row| => row[i]);
    assert sendbuff[..] == row;
    var recvbuff := new byte[Times(n, Len(p, rank))];
    var res := Alltoall.Member(c, sendbuff, recvbuff, size);
    out := recvbuff[..if incoming == [] then 0 else |incoming[0]|];
    sent, closed := c.participants[0].sent[0], c.participants[0].closedRd;
  }

  lemma EmptyColumns(n: nat, size: nat, i: nat)
    requires n > 0 && size > 0
    ensures Layout(0, n, size) == Split(0, 0, size) && Times(n, Len(Layout(0, n, size), i)) == 0
  {
    TimesIsProduct(n, 0);
  }

  lemma TimesZero(n: nat, w: nat)
    requires n > 0
    ensures Times(n, w) == 0 <==> w == 0
  {
    if w > 0 { Alltoall.TimesLess(n, 0, w); }
    TimesIsProduct(n, 0);
  }

  /** A member's column is empty exactly when its blocks are. */
  lemma ColumnEmptyIff(p: Split, rows: Buffers, total: nat, count: nat, i: nat)
    requires i < |rows| && AtLeast(rows, total) && Begin(p, |rows|) <= total
    requires Len(p, i) == 0 <==> count < |rows| && count <= i
    ensures AllToAll(p, rows, total)[i] == EOS <==> count <= i
  {
    AllToAllAt(p, rows, total, i);
    TimesZero(|rows|, Len(p, i));
  }

  lemma ColumnClosed(rows: Buffers, size: nat, i: nat)
    requires size > 0 && i < |rows| && |rows[0]| % size == 0 && AtLeast(rows, |rows[0]|)
    ensures AllToAll(Layout(|rows[0]|, |rows|, size), rows, |rows[0]|)[i] == EOS <==> |rows[0]| / size <= i
  {
    AllShares(|rows[0]| / size, |rows|, size, i);
    ColumnEmptyIff(Layout(|rows[0]|, |rows|, size), rows, |rows[0]|, |rows[0]| / size, i);
  }

  /** The room that a member makes by its rank is enough for the column that it gets by position. */
  lemma RoomForColumn(p: Split, rows: Buffers, total: nat, rootRank: nat, i: nat)
    requires 0 < i < |rows| && AtLeast(rows, total) && Begin(p, |rows|) <= total
    ensures |AllToAll(p, rows, total)[i]| <= Times(|rows|, Len(p, RankAt(i, rootRank)))
  {
    AllToAllAt(p, rows, total, i);
    TimesWider(|rows|, Len(p, i), Len(p, RankAt(i, rootRank)));
  }

  /** What becomes of the member at position `i` of an all-to-all of `len` bytes. */
  function AlltoallFate(len: nat, size: nat, i: nat): Fate
    requires size > 0
  {
    if i == 0 then Served else if len == 0 then Starves else if len / size <= i then FindsEos else Served
  }

  /** A whole all-to-all, the root at any rank, is the block transpose of the buffers in the order
      of positions: the member at position `i` ends with the concatenation, in that order, of block
      `i` of everybody's buffer. Positions are ranks when the root comes first. Only members whose
      column is empty are not served. */
  method AlltoallTeam(rows: Buffers, rootRank: nat, size: nat) returns (outs: Buffers, fates: seq<Fate>)
    requires rootRank < |rows| && size > 0 && |rows[0]| % size == 0
    requires forall r | 0 <= r < |rows| :: |rows[r]| == |rows[0]|
    ensures AtLeast(rows, |rows[0]|)
    ensures outs == AllToAll(Layout(|rows[0]|, |rows|, size), rows, |rows[0]|)
    ensures |fates| == |rows| && forall i | 0 <= i < |rows| :: fates[i] == AlltoallFate(|rows[0]|, size, i)
  {
    ghost var p, total := Layout(|rows[0]|, |rows|, size), |rows[0]|;
    var first, peers := [], [];
    if |rows[0]| == 0 {
      EmptyColumns(|rows|, size, 0);
      peers := AlltoallNothing(rows, rootRank, size);
    } else {
      first, peers := AlltoallRoot(rows, rootRank, size);
    }
    AllToAllAt(p, rows, total, 0);
    outs, fates := [first], [Served];
    while |outs| < |rows|
      invariant 1 <= |outs| == |fates| <= |rows|
      invariant forall i | 0 <= i < |outs| :: outs[i] == AllToAll(p, rows, total)[i]
      invariant forall i | 0 <= i < |outs| :: fates[i] == AlltoallFate(total, size, i)
    {
      var i := |outs|;
      assert total > 0 ==> CarriesColumn(p, rows, peers, i - 1);
      NextBlock(p, i, |rows|);
      var out, fate := AlltoallTurn(rows, peers[i - 1].sent, rootRank, size, i);
      outs, fates := outs + [out], fates + [fate];
    }
  }

  /** The run of the member at position `i`, to which the root sent `incoming`. */
  method AlltoallTurn(rows: Buffers, incoming: seq<Frame>, rootRank: nat, size: nat, i: nat)
    returns (out: seq<byte>, fate: Fate)
    requires 0 < i < |rows| && size > 0 && |rows[0]| % size == 0 && AtLeast(rows, |rows[0]|) && |rows[i]| == |rows[0]|
    requires Begin(Layout(|rows[0]|, |rows|, size), i + 1) <= |rows[0]|
    requires incoming
      == if |rows[0]| == 0 then [] else [Column(Layout(|rows[0]|, |rows|, size), rows, i, |rows|)]
    ensures out == AllToAll(Layout(|rows[0]|, |rows|, size), rows, |rows[0]|)[i]
    ensures fate == AlltoallFate(|rows[0]|, size, i)
  {
    ghost var p, total := Layout(|rows[0]|, |rows|, size), |rows[0]|;
    AllToAllAt(p, rows, total, i);
    ColumnClosed(rows, size, i);
    RoomForColumn(p, rows, total, rootRank, i);
    var sent, shut;
    out, sent, shut := AlltoallMember(
      rows[i], incoming, size, |rows|, RankAt(i, rootRank), AllToAll(p, rows, total)[i]);
    assert sent == rows[i];
    fate := FateOf(incoming);
  }

  /** Two all-to-alls in a row, when the members divide the elements, restore every buffer. */
  method AlltoallTwice(rows: Buffers, rootRank: nat, size: nat) returns (outs: Buffers)
    requires rootRank < |rows| && size > 0 && |rows[0]| % size == 0
    requires forall r | 0 <= r < |rows| :: |rows[r]| == |rows[0]|
    requires (|rows[0]| / size) % |rows| == 0
    ensures outs == rows
  {
    ghost var p, total := Layout(|rows[0]|, |rows|, size), |rows[0]|;
    var once, _ := AlltoallTeam(rows, rootRank, size);
    forall r | 0 <= r < |rows| ensures |once[r]| == total {
      AllToAllAt(p, rows, total, r);
      EvenBegin(p, |rows|);
    }
    var fates;
    outs, fates := AlltoallTeam(once, rootRank, size);
    AllToAllTwice(p, rows, total);
  }
}
