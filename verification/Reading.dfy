/** `HandleUser::probe` and `receive` on a TCP handle, down to the byte stream: what the header
    cache and the partial reads do is what the frame-level connection of `Collective` says. */
module Reading {
  import opened Bytes
  import opened Collective
  import opened TcpFraming

  /** Frames whose length fits the header. */
  predicate Fits(frames: seq<Frame>) { forall i | 0 <= i < |frames| :: |frames[i]| < Pow256(8) }

  /** The bytes still on the stream when `inbox` is still to be consumed. The header of the head
      frame is gone once it is cached. */
  ghost predicate OnWire(bytes: seq<byte>, inbox: seq<Frame>, probed: Probed) {
    if probed.Header? && probed.size > 0 then
      inbox != [] && |inbox[0]| == probed.size && bytes == inbox[0] + EncodedFrom(inbox, 1)
    else bytes == EncodedFrom(inbox, 0)
  }

  lemma {:induction false} EncodedDrop(frames: seq<Frame>, k: nat)
    requires k < |frames|
    ensures EncodedFrom(frames[1..], k) == EncodedFrom(frames, k + 1)
    decreases |frames| - k
  {
    if k + 1 < |frames| { EncodedDrop(frames, k + 1); }
  }

  /** A `HandleTCP` together with the fields of `Handle`. */
  class HandleTcp {
    const socket: Socket
    var probed: Probed
    var closedRd: bool
    var closedWr: bool
    /** What the peer sends from here on, and what this end has sent, frame by frame. */
    ghost var inbox: seq<Frame>
    ghost var sent: seq<Frame>

    ghost predicate Valid()
      reads this, socket
    {
      Sound() && State().Valid()
    }

    /** The frames are what is on the streams. */
    ghost predicate Sound()
      reads this, socket
    {
      && Faultless(socket.schedule) && Fits(inbox)
      && OnWire(socket.incoming, inbox, probed)
      && socket.outgoing == EncodedUpTo(sent, |sent|)
    }

    ghost function State(): Peer
      reads this
    {
      Peer(inbox, probed, closedRd, closedWr, sent)
    }

    constructor (s: Socket, ghost inbox: seq<Frame>)
      requires Faultless(s.schedule) && Fits(inbox) && s.incoming == EncodedFrom(inbox, 0) && s.outgoing == []
      ensures Valid() && socket == s && State() == Connected(inbox)
    {
      socket, probed, closedRd, closedWr := s, Nothing, false, false;
      this.inbox, sent := inbox, [];
    }

    method Close(wr: bool, rd: bool)
      requires Sound()
      modifies this, socket`outgoing, socket`schedule
      ensures Sound() && State() == Closed(old(State()), wr, rd)
    {
      if wr && !closedWr {
        SendEos();
        closedWr := true;
      }
      if rd && !closedRd { closedRd := true; }
    }

    method SendEos()
      requires Sound()
      modifies this`sent, socket`outgoing, socket`schedule
      ensures Sound() && sent == old(sent) + [EOS]
    {
      var r := socket.SendEos();
      EncodedSnoc(sent, EOS);
      sent := sent + [EOS];
    }

    /** The header is read from the stream and cached; 0 at the end of the stream. */
    method FetchHeader() returns (r: int, size: nat)
      requires Sound() && probed.Nothing?
      modifies this`probed, this`inbox, socket`incoming, socket`schedule
      ensures Sound() && (r == 0 <==> old(inbox) == []) && r >= 0
      ensures r == 0 ==> State() == old(State())
      ensures r != 0 ==> size == |old(inbox)[0]|
      ensures r != 0 ==> State() == old(State()).(probed := Header(size),
                inbox := if size == 0 then old(inbox)[1..] else old(inbox))
    {
      if inbox != [] {
        HeadFrame(inbox[0], EncodedFrom(inbox, 1));
        EncodedDrop(inbox, 0);
      }
      r, size := socket.Probe();
      if r != 0 {
        probed := Header(size);
        if size == 0 { inbox := inbox[1..]; }
      }
    }

    /** The payload announced by the cached header. */
    method FetchPayload(buff: array<byte>) returns (r: int)
      requires Sound() && probed.Header? && 0 < probed.size <= buff.Length
      modifies this`probed, this`inbox, socket`incoming, socket`schedule, buff
      ensures Sound() && r == |old(inbox)[0]|
      ensures State() == Delivered(old(State()))
      ensures buff[..] == Overlay(old(buff[..]), 0, old(inbox)[0])
    {
      var size := probed.size;
      EncodedDrop(inbox, 0);
      probed := Nothing;
      ghost var head := inbox[0];
      inbox := inbox[1..];
      r := socket.Receive(buff, size);
    }

    /** One round of the drain in `setAsClosed`; `sz` is what the round before left in that
        variable, and a probe at the end of the stream does not change it. */
    method DropFrame(sz: nat) returns (last: bool, sz': nat)
      requires Valid() && !closedRd && sz > 0
      modifies this`probed, this`inbox, socket`incoming, socket`schedule
      ensures Valid() && last == Breaks(Drain(sz, old(inbox), old(probed)))
      ensures Drain(sz', inbox, probed) == NextRound(Drain(sz, old(inbox), old(probed)))
    {
      sz' := SeeSize(sz);
      last := sz' == 0;
      if !last { Discard(sz', FirstOf(inbox), EncodedFrom(RestOf(inbox), 0)); }
      probed, inbox := Nothing, RestOf(inbox);
    }

    /** The payload is read and thrown away. */
    method Discard(sz: nat, ghost head: Frame, ghost tail: seq<byte>)
      requires Faultless(socket.schedule) && socket.incoming == head + tail && (|head| == sz || head + tail == [])
      modifies socket`incoming, socket`schedule
      ensures Faultless(socket.schedule) && socket.incoming == tail
    {
      var buff := new byte[sz];
      var r := socket.Receive(buff, sz);
    }

    /** The size that the round goes by; the header is then off the stream. */
    method SeeSize(sz: nat) returns (sz': nat)
      requires Valid() && !closedRd && sz > 0
      modifies socket`incoming, socket`schedule
      ensures sz' == SizeSeen(Drain(sz, inbox, probed)) && Faultless(socket.schedule)
      ensures socket.incoming == FirstOf(inbox) + EncodedFrom(RestOf(inbox), 0)
    {
      sz' := sz;
      if inbox != [] {
        EncodedDrop(inbox, 0);
        HeadFrame(inbox[0], EncodedFrom(inbox, 1));
      }
      if probed.Header? { return probed.size; }
      var r, size := socket.Probe();
      if r > 0 { sz' := size; }
    }

    /** `setAsClosed`. When it blocks, everything up to and including EOS is consumed and nothing
        after it; EOS goes out once, and both directions end closed. The drain ends only if there
        is an EOS to find (DrainEndsIff). */
    method SetAsClosed(blockflag: bool)
      requires Valid() && (blockflag && !closedRd ==> EOS in inbox)
      modifies this, socket
      ensures Valid() && closedRd && closedWr
      ensures sent == old(sent) + if old(closedWr) then [] else [EOS]
      ensures blockflag && !old(closedRd) ==> inbox == AfterEos(old(inbox)) && probed == Nothing
      ensures !(blockflag && !old(closedRd)) ==> inbox == old(inbox) && probed == old(probed)
    {
      if !closedWr { Close(true, false); }
      if blockflag && !closedRd {
        var sz, last := 1, false;
        while !last
          invariant Valid() && closedWr && !closedRd && (!last ==> sz > 0 && EOS in inbox)
          invariant sent == old(sent) + if old(closedWr) then [] else [EOS]
          invariant if last then inbox == AfterEos(old(inbox)) && probed == Nothing
            else AfterEos(inbox) == AfterEos(old(inbox))
          decreases |inbox|, !last
        {
          last, sz := DropFrame(sz);
        }
      }
      Close(false, true);
    }
  }

  // ---- The drain ----------------------------------------------------------------------------

  /** What a round of the drain works on: the size variable, what the peer still sends, and the
      header cache. */
  datatype Drain = Drain(sz: nat, inbox: seq<Frame>, probed: Probed) {
    ghost predicate Valid() {
      sz > 0 && (probed.Header? ==> probed.size > 0 && inbox != [] && |inbox[0]| == probed.size)
    }
  }

  function FirstOf(inbox: seq<Frame>): Frame { if inbox == [] then EOS else inbox[0] }

  function RestOf(inbox: seq<Frame>): seq<Frame> { if inbox == [] then [] else inbox[1..] }

  /** The size that the round goes by: the cached one, that of the next frame, or the old one at
      the end of the stream. */
  function SizeSeen(d: Drain): nat {
    if d.probed.Header? then d.probed.size else if d.inbox == [] then d.sz else |d.inbox[0]|
  }

  predicate Breaks(d: Drain) { SizeSeen(d) == 0 }

  function NextRound(d: Drain): Drain {
    Drain(SizeSeen(d), RestOf(d.inbox), Nothing)
  }

  function Rounds(d: Drain, k: nat): Drain
    decreases k
  {
    if k == 0 then d else Rounds(NextRound(d), k - 1)
  }

  /** The loop is left in the round after `k` full ones. */
  predicate BreaksAfter(d: Drain, k: nat) { Breaks(Rounds(d, k)) }

  /** At the end of a stream without EOS a round changes nothing and does not break. */
  lemma DrainSpins(d: Drain)
    requires d.Valid() && d.inbox == []
    ensures !Breaks(d) && NextRound(d) == d
  {
  }

  lemma {:induction false} NeverBreaks(d: Drain, k: nat)
    requires d.Valid() && EOS !in d.inbox
    ensures !BreaksAfter(d, k)
    decreases k
  {
    if k > 0 { NeverBreaks(NextRound(d), k - 1); }
  }

  lemma {:induction false} BreaksAtEos(d: Drain) returns (k: nat)
    requires d.Valid() && EOS in d.inbox
    ensures BreaksAfter(d, k)
    decreases |d.inbox|
  {
    k := 0;
    if !Breaks(d) {
      var rest := BreaksAtEos(NextRound(d));
      k := rest + 1;
    }
  }

  /** The drain ends exactly when the peer's stream has an EOS: without one its last round is
      repeated forever. */
  lemma DrainEndsIff(d: Drain)
    requires d.Valid()
    ensures (exists k: nat :: BreaksAfter(d, k)) <==> EOS in d.inbox
  {
    if EOS in d.inbox {
      var k := BreaksAtEos(d);
    } else {
      forall k: nat ensures !BreaksAfter(d, k) { NeverBreaks(d, k); }
    }
  }

  /** What follows the first EOS. */
  function AfterEos(inbox: seq<Frame>): seq<Frame> {
    if inbox == [] then [] else if inbox[0] == EOS then inbox[1..] else AfterEos(inbox[1..])
  }

  /** A stream that ends is its messages, EOS, and what follows it. */
  lemma {:induction false} EosSplits(inbox: seq<Frame>)
    requires EOS in inbox
    ensures inbox == Messages(inbox) + [EOS] + AfterEos(inbox)
  {
    if inbox[0] != EOS { EosSplits(inbox[1..]); }
  }

  lemma {:induction false} EncodedPrefix(frames: seq<Frame>, f: Frame, k: nat)
    requires k <= |frames|
    ensures EncodedUpTo(frames + [f], k) == EncodedUpTo(frames, k)
  {
    if k > 0 { EncodedPrefix(frames, f, k - 1); }
  }

  lemma EncodedSnoc(frames: seq<Frame>, f: Frame)
    ensures EncodedUpTo(frames + [f], |frames| + 1) == EncodedUpTo(frames, |frames|) + Encode(f)
  {
    EncodedPrefix(frames, f, |frames|);
  }

  // ---- The user's calls ---------------------------------------------------------------------

  /** A probe looks at the socket only through the readable wrapper of a handle open for reading,
      with nothing cached. */
  predicate Looks(p: Peer, readable: bool) { p.probed.Nothing? && readable && !p.closedRd }

  /** The connection after a probe: by the reader (`readable`) or by a wrapper that gave it back. */
  function AfterProbe(p: Peer, readable: bool, answer: Answer): Peer {
    if !Looks(p, readable) then p
    else match answer
      case Arrives => if p.AtEnd() then Ended(p) else p.(probed := Header(|p.inbox[0]|))
      case Resets => Closed(p, true, true)
      case _ => p
  }

  function ProbeResult(p: Peer, readable: bool, answer: Answer): Outcome {
    if p.probed.Header? then Done(if p.probed.size > 0 then 8 else 0)
    else if !Looks(p, readable) then Done(0)
    else match answer
      case Arrives => Done(if p.AtEnd() then 0 else 8)
      case Waits => Failed(EWOULDBLOCK)
      case Resets => Done(0)
      case Invalid => Failed(EINVAL)
  }

  /** Who finds the end is no longer readable; a reset leaves the flag alone. */
  predicate StaysReadable(p: Peer, readable: bool, answer: Answer) {
    readable && !(Looks(p, readable) && answer.Arrives? && p.AtEnd())
  }

  /** A probe case by case: a cached header is announced again; a wrapper that gave the handle back
      and a handle closed for reading answer 0; then it depends on the socket. Only the end of the
      stream and a reset are answered by 0: EOS closes the read side, the other two both. */
  ghost predicate Probes(p: Peer, readable: bool, answer: Answer, r: Outcome, q: Peer, readable': bool) {
    if p.probed.Header? then r == Done(if p.probed.size > 0 then 8 else 0) && q == p && readable' == readable
    else if !readable || p.closedRd then r == Done(0) && q == p && readable' == readable
    else match answer
      case Waits => r == Failed(EWOULDBLOCK) && q == p && readable'
      case Invalid => r == Failed(EINVAL) && q == p && readable'
      case Resets => r == Done(0) && ClosedBoth(p, q) && readable'
      case Arrives =>
        if p.inbox == [] then r == Done(0) && ClosedBoth(p, q) && !readable'
        else if p.inbox[0] == EOS then
          r == Done(0) && q == Peer(p.inbox[1..], Header(0), true, p.closedWr, p.sent) && !readable'
        else r == Done(8) && q == p.(probed := Header(|p.inbox[0]|)) && readable'
  }

  /** Both directions end closed; EOS goes out if it had not. */
  ghost predicate ClosedBoth(p: Peer, q: Peer) {
    q == Peer(p.inbox, p.probed, true, true, if p.closedWr then p.sent else p.sent + [EOS])
  }

  class HandleUser {
    const realHandle: HandleTcp
    var isReadable: bool
    var newConnection: bool

    constructor (h: HandleTcp, readable: bool, isNew: bool)
      ensures realHandle == h && isReadable == readable && newConnection == isNew
    {
      realHandle, isReadable, newConnection := h, readable, isNew;
    }

    /** `probe`. */
    method Probe(answer: Answer) returns (r: Outcome, size: nat)
      requires realHandle.Valid()
      modifies this, realHandle, realHandle.socket
      ensures realHandle.Valid()
      ensures realHandle.State() == AfterProbe(old(realHandle.State()), old(isReadable), answer)
      ensures r == ProbeResult(old(realHandle.State()), old(isReadable), answer)
      ensures r == Done(8) ==> old(realHandle.inbox) != [] && size == |old(realHandle.inbox)[0]|
      ensures isReadable == StaysReadable(old(realHandle.State()), old(isReadable), answer)
      ensures !newConnection
      ensures Probes(old(realHandle.State()), old(isReadable), answer, r, realHandle.State(), isReadable)
    {
      newConnection, size := false, 0;
      var h := realHandle;
      if h.probed.Header? {
        size := h.probed.size;
        return Done(if size > 0 then 8 else 0), size;
      }
      if !isReadable { return Done(0), 0; }
      if h.closedRd { return Done(0), 0; }
      if answer.Invalid? { return Failed(EINVAL), 0; }
      if answer.Resets? {
        h.Close(true, true);
        return Done(0), 0;
      }
      if answer.Waits? { return Failed(EWOULDBLOCK), 0; }
      var n;
      n, size := h.FetchHeader();
      if n == 0 {
        isReadable := false;
        h.Close(true, true);
        return Done(0), 0;
      }
      if size == 0 {
        h.Close(false, true);
        isReadable := false;
        return Done(0), 0;
      }
      r := Done(8);
    }

    /** `receive` into a buffer of `size` bytes: what the reader gets is what the connection of
        `Collective` delivers, unless the header has to be read and cannot be; a wrapper that gave
        the handle back gets nothing. */
    method Receive(buff: array<byte>, size: nat, answer: Answer) returns (r: Outcome)
      requires realHandle.Valid() && size <= buff.Length
      modifies this, realHandle, realHandle.socket, buff
      ensures realHandle.Valid() && !newConnection
      ensures old(isReadable) && (Looks(old(realHandle.State()), true) ==> answer.Arrives?) ==> (
                && r == ReceiveResult(old(realHandle.State()), size)
                && realHandle.State() == AfterReceive(old(realHandle.State()), size)
                && buff[..] == Landed(old(buff[..]), 0, old(realHandle.State()), size))
      ensures Looks(old(realHandle.State()), old(isReadable)) && !answer.Arrives? ==> (
                && r == ProbeResult(old(realHandle.State()), true, answer)
                && realHandle.State() == AfterProbe(old(realHandle.State()), true, answer) && buff[..] == old(buff[..]))
      ensures !old(isReadable) ==>
                realHandle.State() == old(realHandle.State()) && buff[..] == old(buff[..]) && r == Done(0)
      ensures isReadable == StaysReadable(old(realHandle.State()), old(isReadable), answer)
      ensures Looks(old(realHandle.State()), old(isReadable)) ==>
                && (answer.Waits? ==> r == Failed(EWOULDBLOCK)) && (answer.Invalid? ==> r == Failed(EINVAL))
                && (answer.Resets? ==> r == Done(0) && ClosedBoth(old(realHandle.State()), realHandle.State()))
    {
      ghost var p, readable := realHandle.State(), isReadable;
      var h := realHandle;
      if h.probed.Nothing? {
        var sz;
        r, sz := Probe(answer);
        if r == Done(0) || r.Failed? { return; }
      } else {
        newConnection := false;
        if !isReadable { return Done(0); }
        if h.closedRd { return Done(0); }
      }
      if h.probed.size > size { return Failed(ENOMEM); }
      var n := h.FetchPayload(buff);
      r := Done(n);
    }
  }
}
