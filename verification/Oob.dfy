/** `UCCCollective::oob_allgather`: the root collects one block from everybody, places it by the
    rank that its sender announces, and sends the whole back. */
module Oob {
  import opened Bytes
  import opened Partition
  import opened Collective
  import opened Scatter

  /** Slot `r` of a buffer of slots of `w` bytes. */
  function Slot(buf: seq<byte>, r: nat, w: nat): seq<byte> {
    if Times(r, w) + w <= |buf| then buf[Times(r, w)..Times(r, w) + w] else []
  }

  lemma OverlayHere(buf: seq<byte>, at: nat, f: Frame)
    requires at + |f| <= |buf|
    ensures Overlay(buf, at, f)[at..at + |f|] == f
  {
  }

  lemma SlotsApart(a: nat, b: nat, w: nat)
    ensures a < b ==> Times(a, w) + w <= Times(b, w)
  {
    if a < b { TimesMonotone(a + 1, b, w); }
  }

  /** Slots do not overlap: a block placed in one leaves the others alone. */
  lemma OverlaySlot(buf: seq<byte>, a: nat, f: Frame, r: nat, w: nat)
    requires |f| == w && Times(a, w) + w <= |buf|
    ensures Slot(Overlay(buf, Times(a, w), f), r, w) == if r == a then f else Slot(buf, r, w)
  {
    var at, lo := Times(a, w), Times(r, w);
    if r == a {
      OverlayHere(buf, at, f);
    } else {
      SlotsApart(r, a, w);
      SlotsApart(a, r, w);
      if lo + w <= |buf| { OverlayAway(buf, at, f, lo, lo + w); }
    }
  }

  /** The receive buffer after the blocks of the first `k` connections were placed by rank. */
  function Placed(buf: seq<byte>, ranks: seq<nat>, blocks: seq<Frame>, w: nat, k: nat): (r: seq<byte>)
    requires k <= |ranks| && k <= |blocks|
    ensures |r| == |buf|
  {
    if k == 0 then buf else Overlay(Placed(buf, ranks, blocks, w, k - 1), Times(ranks[k - 1], w), blocks[k - 1])
  }

  ghost predicate Sized(buf: seq<byte>, ranks: seq<nat>, blocks: seq<Frame>, w: nat) {
    |ranks| == |blocks| && forall i | 0 <= i < |ranks| :: |blocks[i]| == w && Times(ranks[i], w) + w <= |buf|
  }

  /** Slot `ranks[i]` holds block `i`, whatever the order of the connections. */
  lemma {:induction false} PlacedAt(buf: seq<byte>, ranks: seq<nat>, blocks: seq<Frame>, w: nat, k: nat, i: nat)
    requires Sized(buf, ranks, blocks, w) && Distinct(ranks) && i < k <= |ranks|
    ensures Slot(Placed(buf, ranks, blocks, w, k), ranks[i], w) == blocks[i]
  {
    var before := Placed(buf, ranks, blocks, w, k - 1);
    OverlaySlot(before, ranks[k - 1], blocks[k - 1], ranks[i], w);
    assert Placed(buf, ranks, blocks, w, k) == Overlay(before, Times(ranks[k - 1], w), blocks[k - 1]);
    if i < k - 1 { PlacedAt(buf, ranks, blocks, w, k - 1, i); }
  }

  /** A rank as it travels: four bytes in native order. */
  function RankFrame(rank: nat): (f: Frame)
    ensures |f| == 4
  {
    LittleEndian(rank, 4)
  }

  /** Byte `i` of it is the digit of weight 256^i. */
  lemma RankBytes(rank: nat, i: nat)
    requires i < 4
    ensures RankFrame(rank)[i] == rank / Pow256(i) % 256
  {
    LittleEndianDigits(rank, 4, i);
  }

  /** Ranks are `int`s. */
  const MAX_INT := 0x8000_0000

  lemma IntFits()
    ensures MAX_INT < Pow256(4)
  {
    assert Pow256(1) == 256 && Pow256(2) == 65536;
  }

  /** The connection of a sender of rank `rank`, on which it sends its rank and its block. */
  function Sender(rank: nat, block: Frame): Peer {
    Connected([RankFrame(rank), block])
  }

  /** The root's side of one connection: its own rank goes out, the sender's rank comes in, and
      then the block. */
  method Round(c: CollectiveImpl, i: nat, rbuf: array<byte>, w: nat, rank: nat, ghost from: nat, ghost block: Frame)
    requires i < |c.participants| && c.participants[i] == Sender(from, block)
    requires from < MAX_INT && |block| == w > 0 && Times(from, w) + w <= rbuf.Length
    modifies c, rbuf
    ensures c.participants == old(c.participants)[i := Written(Connected([]), RankFrame(rank))]
    ensures rbuf[..] == Overlay(old(rbuf[..]), Times(from, w), block)
  {
    ghost var ps := c.participants;
    var ok := c.Send(i, RankFrame(rank));
    var remote := new byte[4];
    var r := c.ReceiveFromHandle(i, remote, 0, 4);
    assert remote[..] == RankFrame(from);
    IntFits();
    LittleEndianRoundTrip(from, 4);
    var remoteRank := FromLittleEndian(remote[..]);
    r := c.ReceiveFromHandle(i, rbuf, Times(remoteRank, w), w);
    assert c.participants[i].inbox == [];
  }

  /** The root's connections: behind connection `i` the member of rank `ranks[i]`. */
  function Senders(ranks: seq<nat>, blocks: seq<Frame>, k: nat): (ps: seq<Peer>)
    requires k <= |ranks| && k <= |blocks|
    ensures |ps| == k && forall i | 0 <= i < k :: ps[i] == Sender(ranks[i], blocks[i])
  {
    seq(k, i requires 0 <= i < k => Sender(ranks[i], blocks[i]))
  }

  /** The connections once the first `k` have been served. */
  function Served(ranks: seq<nat>, blocks: seq<Frame>, rank: nat, k: nat): (ps: seq<Peer>)
    requires |ranks| == |blocks|
    ensures |ps| == |ranks|
  {
    seq(|ranks|, i requires 0 <= i < |ranks| =>
      if i < k then Written(Connected([]), RankFrame(rank)) else Sender(ranks[i], blocks[i]))
  }

  lemma ServedStep(ranks: seq<nat>, blocks: seq<Frame>, rank: nat, k: nat)
    requires k < |ranks| == |blocks|
    ensures Served(ranks, blocks, rank, k)[k] == Sender(ranks[k], blocks[k])
    ensures Served(ranks, blocks, rank, k + 1) ==
      Served(ranks, blocks, rank, k)[k := Written(Connected([]), RankFrame(rank))]
  {
  }

  lemma ServedAll(ranks: seq<nat>, blocks: seq<Frame>, rank: nat)
    requires |ranks| == |blocks|
    ensures Served(ranks, blocks, rank, 0) == Senders(ranks, blocks, |ranks|)
    ensures forall i | 0 <= i < |ranks| ::
              Served(ranks, blocks, rank, |ranks|)[i] == Written(Connected([]), RankFrame(rank))
  {
  }

  /** The ranks fit an `int` and the blocks their slots in a buffer of `len` bytes. */
  ghost predicate Announcing(len: nat, ranks: seq<nat>, blocks: seq<Frame>, w: nat) {
    && w > 0 && |ranks| == |blocks|
    && forall i | 0 <= i < |ranks| :: ranks[i] < MAX_INT && |blocks[i]| == w && Times(ranks[i], w) + w <= len
  }

  /** The root's loop over its connections. */
  method Collect(c: CollectiveImpl, rbuf: array<byte>, w: nat, rank: nat, ghost ranks: seq<nat>,
      ghost blocks: seq<Frame>)
    requires Announcing(rbuf.Length, ranks, blocks, w) && c.participants == Served(ranks, blocks, rank, 0)
    modifies c, rbuf
    ensures c.participants == Served(ranks, blocks, rank, |ranks|)
    ensures rbuf[..] == Placed(old(rbuf[..]), ranks, blocks, w, |ranks|)
  {
    ghost var buf := rbuf[..];
    var i := 0;
    while i < |c.participants|
      invariant i <= |ranks| && rbuf[..] == Placed(buf, ranks, blocks, w, i)
      invariant c.participants == Served(ranks, blocks, rank, i)
    {
      ServedStep(ranks, blocks, rank, i);
      Round(c, i, rbuf, w, rank, ranks[i], blocks[i]);
      i := i + 1;
    }
  }

  /** The whole buffer goes to everybody. */
  method SendWhole(c: CollectiveImpl, whole: Frame, ghost rank: nat)
    requires forall i | 0 <= i < |c.participants| :: c.participants[i] == Written(Connected([]), RankFrame(rank))
    modifies c
    ensures |c.participants| == |old(c.participants)|
    ensures forall i | 0 <= i < |c.participants| :: c.participants[i].sent == [RankFrame(rank), whole]
  {
    ghost var ps := c.participants;
    var i := 0;
    while i < |c.participants|
      invariant i <= |c.participants| == |ps|
      invariant forall k | 0 <= k < i :: c.participants[k].sent == [RankFrame(rank), whole]
      invariant forall k | i <= k < |ps| :: c.participants[k] == ps[k]
    {
      var ok := c.Send(i, whole);
      i := i + 1;
    }
  }

  /** `oob_allgather` at the root. */
  method Root(c: CollectiveImpl, sbuf: seq<byte>, rbuf: array<byte>, rank: nat, ghost ranks: seq<nat>,
      ghost blocks: seq<Frame>)
    requires Announcing(rbuf.Length, ranks, blocks, |sbuf|)
    requires c.participants == Senders(ranks, blocks, |ranks|) && Times(rank, |sbuf|) + |sbuf| <= rbuf.Length
    modifies c, rbuf
    ensures rbuf[..] == Overlay(Placed(old(rbuf[..]), ranks, blocks, |sbuf|, |ranks|), Times(rank, |sbuf|), sbuf)
    ensures |c.participants| == |ranks|
    ensures forall i | 0 <= i < |ranks| :: c.participants[i].sent == [RankFrame(rank), rbuf[..]]
  {
    var w := |sbuf|;
    ServedAll(ranks, blocks, rank);
    Collect(c, rbuf, w, rank, ranks, blocks);
    ghost var buf := rbuf[..];
    Memcpy(rbuf, Times(rank, w), sbuf);
    assert rbuf[..] == Overlay(buf, Times(rank, w), sbuf);
    SendWhole(c, rbuf[..], rank);
  }

  /** `oob_allgather` at a member to which the root sends its rank and the whole buffer. */
  method Member(c: CollectiveImpl, sbuf: seq<byte>, rbuf: array<byte>, rank: nat, ghost rootRank: nat,
      ghost whole: Frame)
    returns (learnt: nat)
    requires c.participants == [Connected([RankFrame(rootRank), whole])] && rootRank < MAX_INT
    requires 0 < |whole| <= rbuf.Length
    modifies c, rbuf
    ensures learnt == rootRank && rbuf[..] == Overlay(old(rbuf[..]), 0, whole)
    ensures |c.participants| == 1 && c.participants[0].sent == [RankFrame(rank), sbuf]
  {
    var remote := new byte[4];
    var r := c.ReceiveFromHandle(0, remote, 0, 4);
    assert remote[..] == RankFrame(rootRank);
    IntFits();
    LittleEndianRoundTrip(rootRank, 4);
    learnt := FromLittleEndian(remote[..]);
    var ok := c.Send(0, RankFrame(rank));
    ok := c.Send(0, sbuf);
    var res, sz := c.ProbeHandle(0, Arrives);
    r := c.ReceiveFromHandle(0, rbuf, 0, sz);
  }

  // ---- The whole team -----------------------------------------------------------------------

  /** The ranks of the root and of the members behind its connections are 0..n-1, once each. */
  ghost predicate Permutation(ranks: seq<nat>, rootRank: nat, n: nat) {
    && |ranks| + 1 == n && rootRank < n && Distinct(ranks)
    && (forall i | 0 <= i < |ranks| :: ranks[i] < n && ranks[i] != rootRank)
    && forall r | 0 <= r < n :: r == rootRank || r in ranks
  }

  /** What the members behind the connections contribute. */
  function Contributions(ranks: seq<nat>, blocks: seq<Frame>): (fs: seq<Frame>)
    requires forall i | 0 <= i < |ranks| :: ranks[i] < |blocks|
    ensures |fs| == |ranks| && forall i | 0 <= i < |ranks| :: fs[i] == blocks[ranks[i]]
  {
    seq(|ranks|, i requires 0 <= i < |ranks| => blocks[ranks[i]])
  }

  /** The buffer of the root has the block of rank `r` in slot `r`. */
  lemma EverySlot(buf: seq<byte>, ranks: seq<nat>, rootRank: nat, blocks: seq<Frame>, w: nat, r: nat)
    requires Permutation(ranks, rootRank, |blocks|) && r < |blocks| && |buf| == Times(|blocks|, w)
    requires forall i | 0 <= i < |blocks| :: |blocks[i]| == w
    ensures var fs := Contributions(ranks, blocks);
            Slot(Overlay(Placed(buf, ranks, fs, w, |ranks|), Times(rootRank, w), blocks[rootRank]), r, w) == blocks[r]
  {
    var fs := Contributions(ranks, blocks);
    InBounds(buf, ranks, rootRank, blocks, w);
    OverlaySlot(Placed(buf, ranks, fs, w, |ranks|), rootRank, blocks[rootRank], r, w);
    if r != rootRank {
      assert r in ranks;
      var i :| 0 <= i < |ranks| && ranks[i] == r;
      PlacedAt(buf, ranks, fs, w, |ranks|, i);
    }
  }

  lemma InBounds(buf: seq<byte>, ranks: seq<nat>, rootRank: nat, blocks: seq<Frame>, w: nat)
    requires Permutation(ranks, rootRank, |blocks|) && |buf| == Times(|blocks|, w)
    requires forall i | 0 <= i < |blocks| :: |blocks[i]| == w
    ensures Sized(buf, ranks, Contributions(ranks, blocks), w) && Times(rootRank, w) + w <= |buf|
  {
    TimesMonotone(rootRank + 1, |blocks|, w);
    forall i | 0 <= i < |ranks| ensures Times(ranks[i], w) + w <= |buf| { TimesMonotone(ranks[i] + 1, |blocks|, w); }
  }

  /** Slots that hold the blocks in rank order are the concatenation of the blocks. */
  lemma {:induction false} SlotsAreBlocks(buf: seq<byte>, blocks: seq<Frame>, w: nat, k: nat)
    requires k <= |blocks| && |buf| == Times(|blocks|, w)
    requires forall r | 0 <= r < |blocks| :: Slot(buf, r, w) == blocks[r] && |blocks[r]| == w
    ensures Times(k, w) <= |buf| && buf[..Times(k, w)] == Flatten(blocks[..k])
  {
    TimesMonotone(k, |blocks|, w);
    if k > 0 {
      SlotsAreBlocks(buf, blocks, w, k - 1);
      assert blocks[..k] == blocks[..k - 1] + [blocks[k - 1]];
      FlattenAppend(blocks[..k - 1], blocks[k - 1]);
      assert Slot(buf, k - 1, w) == blocks[k - 1];
      assert buf[..Times(k, w)] == buf[..Times(k - 1, w)] + buf[Times(k - 1, w)..Times(k, w)];
    }
  }

  method RootRun(ranks: seq<nat>, rootRank: nat, blocks: seq<Frame>, w: nat) returns (whole: Frame, peers: seq<Peer>)
    requires w > 0 && Permutation(ranks, rootRank, |blocks|) && |blocks| < MAX_INT
    requires forall r | 0 <= r < |blocks| :: |blocks[r]| == w
    ensures whole == Flatten(blocks) && |peers| == |ranks|
    ensures forall i | 0 <= i < |peers| :: peers[i].sent == [RankFrame(rootRank), whole]
  {
    var fs := Contributions(ranks, blocks);
    var c := new CollectiveImpl(Senders(ranks, fs, |ranks|), |blocks|, rootRank);
    var rbuf := new byte[Times(|blocks|, w)];
    ghost var buf := rbuf[..];
    InBounds(buf, ranks, rootRank, blocks, w);
    Root(c, blocks[rootRank], rbuf, rootRank, ranks, fs);
    whole, peers := rbuf[..], c.participants;
    forall r | 0 <= r < |blocks| ensures Slot(whole, r, w) == blocks[r] {
      EverySlot(buf, ranks, rootRank, blocks, w, r);
    }
    SlotsAreBlocks(whole, blocks, w, |blocks|);
    assert whole[..|whole|] == whole && blocks[..|blocks|] == blocks;
  }

  /** A member's run: it gets the whole, and what it sends is what the root was taken to receive. */
  method MemberRun(rank: nat, block: Frame, incoming: seq<Frame>, ghost rootRank: nat, ghost whole: Frame)
    returns (out: seq<byte>, sent: seq<Frame>)
    requires incoming == [RankFrame(rootRank), whole] && rootRank < MAX_INT && 0 < |whole|
    ensures out == whole && sent == Sender(rank, block).inbox
  {
    var c := new CollectiveImpl([Connected(incoming)], 1, rank);
    var rbuf := new byte[|incoming[1]|];
    var learnt := Member(c, block, rbuf, rank, rootRank, whole);
    out, sent := rbuf[..], c.participants[0].sent;
  }

  /** The out-of-band allgather: everybody ends with the blocks in rank order, for any order of
      the root's connections and any rank of the root. */
  method Team(ranks: seq<nat>, rootRank: nat, blocks: seq<Frame>, w: nat) returns (outs: seq<seq<byte>>)
    requires w > 0 && Permutation(ranks, rootRank, |blocks|) && |blocks| < MAX_INT
    requires forall r | 0 <= r < |blocks| :: |blocks[r]| == w
    ensures |outs| == |blocks| && forall i | 0 <= i < |outs| :: outs[i] == Flatten(blocks)
  {
    var whole, peers := RootRun(ranks, rootRank, blocks, w);
    WholeIsNotEmpty(blocks, w);
    outs := [whole];
    while |outs| < |blocks|
      invariant 1 <= |outs| <= |blocks| && forall i | 0 <= i < |outs| :: outs[i] == whole
    {
      var i := |outs| - 1;
      var out, sent := MemberRun(ranks[i], blocks[ranks[i]], peers[i].sent, rootRank, whole);
      assert sent == Sender(ranks[i], Contributions(ranks, blocks)[i]).inbox;
      outs := outs + [out];
    }
  }

  lemma WholeIsNotEmpty(blocks: seq<Frame>, w: nat)
    requires w > 0 && blocks != [] && |blocks[0]| == w
    ensures |Flatten(blocks)| > 0
  {
  }
}
