/** One end of a point-to-point connection at frame level, and the operations of
    `CollectiveImpl` on the participants' connections. */
module Collective {
  import opened Bytes

  /** The probed-header cache: nothing cached, or the length read from the header. */
  datatype Probed = Nothing | Header(size: nat)

  /** `inbox` is what the peer sends on the connection and this end has not consumed yet;
      a blocking read past its last frame finds the connection shut down. While a header of
      a non-empty frame is cached, that frame is still at the head of `inbox`.
      `sent` is what this end has written, in order. */
  datatype Peer = Peer(inbox: seq<Frame>, probed: Probed, closedRd: bool, closedWr: bool, sent: seq<Frame>) {
    ghost predicate Valid() {
      && (probed.Header? && probed.size > 0 ==> inbox != [] && |inbox[0]| == probed.size)
      && (probed == Header(0) ==> closedRd)
    }

    /** A receive with room for `room` bytes delivers the head frame. */
    predicate Delivers(room: nat) {
      !closedRd && inbox != [] && 0 < |inbox[0]| <= room
    }

    /** Nothing will ever be delivered: end of stream, or a connection that is gone. */
    predicate AtEnd() {
      closedRd || inbox == [] || inbox[0] == EOS
    }
  }

  /** A fresh connection on which the peer sends `incoming`. */
  function Connected(incoming: seq<Frame>): Peer {
    Peer(incoming, Nothing, false, false, [])
  }

  /** The connection after its head frame has been delivered. */
  function Delivered(p: Peer): Peer
    requires p.inbox != []
  {
    p.(inbox := p.inbox[1..], probed := Nothing)
  }

  /** `Handle::close`: the end-of-stream marker is written at most once. */
  function Closed(p: Peer, wr: bool, rd: bool): Peer {
    p.(closedWr := p.closedWr || wr, closedRd := p.closedRd || rd,
       sent := if wr && !p.closedWr then p.sent + [EOS] else p.sent)
  }

  /** The connection after a blocking probe that found no message. */
  function Ended(p: Peer): Peer {
    if p.closedRd then p
    else if p.inbox == [] then Closed(p, true, true)
    else Closed(p.(inbox := p.inbox[1..], probed := Header(0)), false, true)
  }

  /** The connection after a receive with `room` bytes: the head frame is consumed, or the
      stream is over, or the frame is refused as too large and only its header is cached. */
  function AfterReceive(p: Peer, room: nat): Peer {
    if p.Delivers(room) then Delivered(p)
    else if p.AtEnd() then Ended(p)
    else p.(probed := Header(|p.inbox[0]|))
  }

  /** What such a receive returns. */
  function ReceiveResult(p: Peer, room: nat): Outcome {
    if p.Delivers(room) then Done(|p.inbox[0]|)
    else if p.AtEnd() then Done(0)
    else Failed(ENOMEM)
  }

  /** The receive buffer afterwards: the frame at offset `at` if there was one. */
  function Landed(buf: seq<byte>, at: nat, p: Peer, room: nat): (r: seq<byte>)
    ensures |r| == |buf|
  {
    if p.Delivers(room) then Overlay(buf, at, p.inbox[0]) else buf
  }

  /** `buf` with `f` copied at offset `at`. */
  function Overlay(buf: seq<byte>, at: nat, f: Frame): (r: seq<byte>)
    ensures |r| == |buf|
  {
    if at + |f| <= |buf| then buf[..at] + f + buf[at + |f|..] else buf
  }

  /** How many connections a loop over `n` has touched when it ends after `got` successes. */
  function Reached(got: nat, n: nat): nat { if got < n then got + 1 else n }

  /** The first connection whose write side is shut down, or their number: where a loop of sends
      stops. */
  function FirstClosed(ps: seq<Peer>): (u: nat)
    ensures u <= |ps| && (u < |ps| ==> ps[u].closedWr) && forall k | 0 <= k < u :: !ps[k].closedWr
  {
    FirstClosedFrom(ps, 0)
  }

  function FirstClosedFrom(ps: seq<Peer>, k: nat): (u: nat)
    requires k <= |ps|
    ensures k <= u <= |ps| && (u < |ps| ==> ps[u].closedWr) && forall i | k <= i < u :: !ps[i].closedWr
    decreases |ps| - k
  {
    if k == |ps| || ps[k].closedWr then k else FirstClosedFrom(ps, k + 1)
  }

  /** Bytes before or after the copied ones stay. */
  lemma OverlayAway(buf: seq<byte>, at: nat, f: Frame, lo: nat, hi: nat)
    requires lo <= hi <= |buf| && (hi <= at || at + |f| <= lo)
    ensures Overlay(buf, at, f)[lo..hi] == buf[lo..hi]
  {
  }

  /** What the socket has for a read of the next header: what the peer sent or its end, nothing
      yet (a non-blocking read), a reset connection, or an invalid descriptor. */
  datatype Answer = Arrives | Waits | Resets | Invalid

  class CollectiveImpl {
    var participants: seq<Peer>
    const nparticipants: nat
    const rank: nat

    ghost predicate Valid()
      reads this
    {
      forall i | 0 <= i < |participants| :: participants[i].Valid()
    }

    constructor (participants: seq<Peer>, nparticipants: nat, rank: nat)
      ensures this.participants == participants && this.nparticipants == nparticipants && this.rank == rank
    {
      this.participants, this.nparticipants, this.rank := participants, nparticipants, rank;
    }

    /** `Handle::send`: fails once the write side has been shut down. */
    method Send(i: nat, payload: Frame) returns (ok: bool)
      requires i < |participants|
      modifies this
      ensures ok == !old(participants)[i].closedWr
      ensures participants == if ok then
        old(participants)[i := old(participants)[i].(sent := old(participants)[i].sent + [payload])]
        else old(participants)
    {
      ok := !participants[i].closedWr;
      if ok { participants := participants[i := participants[i].(sent := participants[i].sent + [payload])]; }
    }

    method Close(i: nat, wr: bool, rd: bool)
      requires i < |participants|
      modifies this
      ensures participants == old(participants)[i := Closed(old(participants)[i], wr, rd)]
    {
      var p := participants[i];
      if wr && !p.closedWr { p := p.(sent := p.sent + [EOS], closedWr := true); }
      if rd && !p.closedRd { p := p.(closedRd := true); }
      participants := participants[i := p];
    }

    /** `probeHandle`: repeated probes agree, and only a header is consumed. */
    method ProbeHandle(i: nat, answer: Answer) returns (res: Outcome, size: nat)
      requires i < |participants| && participants[i].Valid()
      modifies this
      ensures var p := old(participants)[i];
        if p.probed.Header? then
          participants == old(participants) && size == p.probed.size && res == Done(if size > 0 then 8 else 0)
        else if !p.closedRd && !answer.Arrives? then
          && participants == (if answer.Resets? then old(participants)[i := Closed(p, true, true)]
            else old(participants))
          && res == (if answer.Resets? then Done(0) else Failed(if answer.Waits? then EWOULDBLOCK else EINVAL))
        else if p.AtEnd() then
          participants == old(participants)[i := Ended(p)] && res == Done(0)
        else
          && size == |p.inbox[0]| && res == Done(8)
          && participants == old(participants)[i := p.(probed := Header(size))]
      // end of file and a reset close both directions, end-of-stream the read side alone
      ensures var p := old(participants)[i];
        p.probed.Nothing? && !p.closedRd && (answer.Resets? || (answer.Arrives? && p.inbox == [])) ==>
          participants[i] == Peer(p.inbox, Nothing, true, true, if p.closedWr then p.sent else p.sent + [EOS])
      ensures var p := old(participants)[i];
        p.probed.Nothing? && !p.closedRd && answer.Arrives? && p.inbox != [] && p.inbox[0] == EOS ==>
          participants[i] == Peer(p.inbox[1..], Header(0), true, p.closedWr, p.sent)
    {
      var p := participants[i];
      size := 0;
      if p.probed.Header? {
        size := p.probed.size;
        return Done(if size > 0 then 8 else 0), size;
      }
      if p.closedRd {
        assert participants == participants[i := p];
        return Done(0), 0;
      }
      if answer.Resets? {
        Close(i, true, true);
        return Done(0), 0;
      }
      if !answer.Arrives? { return Failed(if answer.Waits? then EWOULDBLOCK else EINVAL), 0; }
      if p.inbox == [] {
        Close(i, true, true);
        return Done(0), 0;
      }
      size := |p.inbox[0]|;
      participants := participants[i := p.(probed := Header(size))];
      if size == 0 {
        participants := participants[i := participants[i].(inbox := p.inbox[1..])];
        Close(i, false, true);
        return Done(0), 0;
      }
      res := Done(8);
    }

    /** `receiveFromHandle`: receives into `buff[at..at + room]`. */
    method ReceiveFromHandle(i: nat, buff: array<byte>, at: nat, room: nat) returns (res: Outcome)
      requires i < |participants| && participants[i].Valid() && at + room <= buff.Length
      modifies this, buff
      ensures res == ReceiveResult(old(participants)[i], room)
      ensures participants == old(participants)[i := AfterReceive(old(participants)[i], room)]
      ensures buff[..] == Landed(old(buff[..]), at, old(participants)[i], room)
    {
      ghost var ps := participants;
      if participants[i].probed.Nothing? {
        var r, _ := ProbeHandle(i, Arrives);
        if r == Done(0) { return r; }
      } else if participants[i].closedRd {
        assert participants == participants[i := participants[i]];
        return Done(0);
      }
      var p := participants[i];
      if p.probed.size > room {
        assert p == AfterReceive(ps[i], room);
        return Failed(ENOMEM);
      }
      Memcpy(buff, at, p.inbox[0]);
      participants := participants[i := p.(inbox := p.inbox[1..], probed := Nothing)];
      res := Done(p.probed.size);
    }
  }

  /** The messages before the end of the stream. */
  function Messages(all: seq<Frame>): seq<Frame> {
    if all == [] || all[0] == EOS then [] else [all[0]] + Messages(all[1..])
  }

  lemma {:induction false} MessagesAre(all: seq<Frame>, k: nat)
    requires k <= |all| && EOS !in all[..k] && (k == |all| || all[k] == EOS)
    ensures Messages(all) == all[..k]
  {
    if k > 0 {
      assert all[..k][0] == all[0];
      assert all[..k][1..] == all[1..][..k - 1];
      MessagesAre(all[1..], k - 1);
    }
  }

  lemma {:induction false} MessagesStart(all: seq<Frame>, k: nat)
    requires k <= |all| && EOS !in all[..k]
    ensures all[..k] <= Messages(all)
  {
    if k > 0 {
      assert all[..k][0] == all[0];
      assert all[..k][1..] == all[1..][..k - 1];
      MessagesStart(all[1..], k - 1);
      assert all[..k] == [all[0]] + all[1..][..k - 1];
    }
  }
}
