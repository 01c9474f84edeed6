/** `HandleTCP`: frames on a byte stream whose reads and writes may transfer any positive part
    of what they were asked for. */
module TcpFraming {
  import opened Bytes
  import opened Collective

  /** What the operating system makes of one read or write. */
  datatype Transfer = UpTo(n: nat) | Error

  predicate Faultless(schedule: seq<Transfer>) {
    forall i | 0 <= i < |schedule| :: schedule[i] != Error
  }

  /** Bytes transferred out of `limit`: at least one, or -1 for an error. Past the end of the
      schedule everything goes through. */
  function Granted(schedule: seq<Transfer>, limit: nat): (k: int)
    requires limit > 0
    ensures k == -1 || 1 <= k <= limit
    ensures Faultless(schedule) ==> k >= 1
  {
    if schedule == [] then limit
    else match schedule[0]
      case UpTo(n) => if n == 0 then 1 else Min(n, limit)
      case Error => -1
  }

  function Rest(schedule: seq<Transfer>): (r: seq<Transfer>)
    ensures Faultless(schedule) ==> Faultless(r)
  {
    if schedule == [] then [] else schedule[1..]
  }

  /** The header of a frame of `size` bytes. */
  function HeaderOf(size: nat): (h: seq<byte>)
    ensures |h| == 8
  {
    BigEndian(size, 8)
  }

  function Encode(m: Frame): seq<byte> { HeaderOf(|m|) + m }

  /** One `iovec`: the bytes that are still to be written from it. */
  type Iov = seq<byte>

  /** What the vectors from `cur` on still have to write. */
  function Pending(v: seq<Iov>, cur: nat): seq<byte>
    decreases |v| - cur
  {
    if cur >= |v| then [] else v[cur] + Pending(v, cur + 1)
  }

  lemma {:induction false} PendingFrom(v: seq<Iov>, w: seq<Iov>, cur: nat)
    requires |v| == |w| && forall k | cur <= k < |v| :: v[k] == w[k]
    ensures Pending(v, cur) == Pending(w, cur)
    decreases |v| - cur
  {
    if cur < |v| { PendingFrom(v, w, cur + 1); }
  }

  class Socket {
    /** What the peer has put on the stream and this end has not read; after it, end of file. */
    var incoming: seq<byte>
    /** What this end has put on the stream. */
    var outgoing: seq<byte>
    var schedule: seq<Transfer>

    /** `read` into the part of a buffer that starts at `at`, where the last read stopped: the
        buffer held `was` and the stream `all` when the first one started. */
    method Read(buff: array<byte>, at: nat, nleft: nat, ghost was: seq<byte>, ghost all: seq<byte>) returns (nread: int)
      requires nleft > 0 && at + nleft <= buff.Length && ReadUpTo(was, all, at, buff[..], incoming)
      modifies this`incoming, this`schedule, buff
      ensures -1 <= nread <= nleft
      ensures nread == 0 <==> at == |all|
      ensures ReadUpTo(was, all, at + if nread < 0 then 0 else nread, buff[..], incoming)
      ensures Faultless(old(schedule)) ==> nread >= 0 && Faultless(schedule)
    {
      if incoming == [] { return 0; }
      nread := Granted(schedule, Min(nleft, |incoming|));
      schedule := Rest(schedule);
      if nread > 0 {
        OverlayExtend(was, all, at, at + nread);
        Memcpy(buff, at, incoming[..nread]);
        incoming := incoming[nread..];
      }
    }

    /** `readn`. */
    method Readn(buff: array<byte>, n: nat) returns (r: int)
      requires n <= buff.Length
      modifies this`incoming, this`schedule, buff
      ensures -1 <= r <= n && (old(incoming) == [] ==> r == 0) && (r == 0 && n > 0 ==> old(incoming) == [])
      ensures ReadUpTo(old(buff[..]), old(incoming), if r < 0 then 0 else r, buff[..], incoming)
      ensures Faultless(old(schedule)) ==> Faultless(schedule) && r == Min(n, |old(incoming)|)
    {
      var nleft, at := n, 0;
      ghost var was, all := buff[..], incoming;
      assert ReadUpTo(was, all, 0, was, all);
      while nleft > 0
        invariant 0 <= nleft && 0 <= at && at + nleft == n
        invariant ReadUpTo(was, all, at, buff[..], incoming)
        invariant Faultless(old(schedule)) ==> Faultless(schedule)
        decreases nleft
      {
        var nread := Read(buff, at, nleft, was, all);
        if nread < 0 {
          if nleft == n { return -1; } else { break; }
        } else if nread == 0 {
          break;
        }
        nleft, at := nleft - nread, at + nread;
      }
      return n - nleft;
    }

    /** `write` of `data`. */
    method Write(data: seq<byte>) returns (n: int)
      modifies this`outgoing, this`schedule
      ensures -1 <= n <= |data| && (n == 0 ==> data == [])
      ensures outgoing == old(outgoing) + if n < 0 then [] else data[..n]
      ensures Faultless(old(schedule)) ==> n >= 0 && Faultless(schedule)
    {
      if data == [] { return 0; }
      n := Granted(schedule, |data|);
      schedule := Rest(schedule);
      if n > 0 { outgoing := outgoing + data[..n]; }
    }

    /** `writen`. */
    method Writen(data: seq<byte>) returns (r: int)
      modifies this`outgoing, this`schedule
      ensures -1 <= r <= |data| && (r == 0 ==> data == [])
      ensures outgoing == old(outgoing) + if r < 0 then [] else data[..r]
      ensures Faultless(old(schedule)) ==> r == |data| && Faultless(schedule)
    {
      var nleft: nat, at: nat := |data|, 0;
      while nleft > 0
        invariant at + nleft == |data| && outgoing == old(outgoing) + data[..at]
        invariant Faultless(old(schedule)) ==> Faultless(schedule)
      {
        var n := Write(data[at..]);
        if n < 0 {
          if nleft == |data| { return -1; } else { break; }
        } else if n == 0 {
          break;
        }
        assert data[..at] + data[at..][..n] == data[..at + n];
        nleft, at := nleft - n, at + n;
      }
      return |data| - nleft;
    }

    /** `writevn`: on success exactly the vectors' bytes, on failure some prefix of them. */
    method Writevn(v: array<Iov>) returns (r: int)
      modifies this`outgoing, this`schedule, v
      ensures r == 1 || r == -1
      ensures r == 1 ==> outgoing == old(outgoing) + old(Pending(v[..], 0))
      ensures r == -1 ==> old(outgoing) <= outgoing <= old(outgoing) + old(Pending(v[..], 0))
      ensures Faultless(old(schedule)) ==> r == 1 && Faultless(schedule)
    {
      var cur: nat := 0;
      ghost var was, all := outgoing, outgoing + Pending(v[..], 0);
      while true
        invariant cur <= v.Length && outgoing + Pending(v[..], cur) == all && was <= outgoing
        invariant Faultless(old(schedule)) ==> Faultless(schedule)
        decreases |Pending(v[..], cur)|
      {
        ghost var left, done := Pending(v[..], cur), outgoing;
        var written := Write(Pending(v[..], cur));
        if written < 0 { return -1; }
        cur := Advance(v, cur, written);
        if cur == v.Length { return 1; }
        assert done + left[..written] + left[written..] == done + left;
      }
    }

    /** `send`: the header and the payload in one vectored write. */
    method Send(m: Frame) returns (r: int)
      modifies this`outgoing, this`schedule
      ensures r == |m| || r == -1
      ensures r == |m| ==> outgoing == old(outgoing) + Encode(m)
      // the length in eight bytes, the most significant first, and then the message
      ensures r == |m| ==> old(outgoing) <= outgoing
      ensures r == |m| ==>
                var tail := outgoing[|old(outgoing)|..];
                && |tail| == 8 + |m| && tail[8..] == m && tail[7] == |m| % 256
                && forall i | 0 <= i < 8 :: tail[i] == |m| / Pow256(7 - i) % 256
      ensures r == -1 ==> old(outgoing) <= outgoing <= old(outgoing) + Encode(m)
      ensures Faultless(old(schedule)) ==> r == |m| && Faultless(schedule)
    {
      EncodeBytes(m);
      var iov := new Iov[2][HeaderOf(|m|), m];
      assert Pending(iov[..], 2) == [] && Pending(iov[..], 1) == m && Pending(iov[..], 0) == Encode(m);
      var ok := Writevn(iov);
      return if ok < 0 then -1 else |m|;
    }

    /** `sendEOS`: eight zero bytes. */
    method SendEos() returns (r: int)
      modifies this`outgoing, this`schedule
      ensures Faultless(old(schedule)) ==> r == 8 && outgoing == old(outgoing) + Encode(EOS) && Faultless(schedule)
      ensures Faultless(old(schedule)) ==> outgoing == old(outgoing) + [0, 0, 0, 0, 0, 0, 0, 0]
      ensures old(outgoing) <= outgoing <= old(outgoing) + Encode(EOS)
    {
      EosIsZeros();
      r := Writen([0, 0, 0, 0, 0, 0, 0, 0]);
    }

    /** `probe`, blocking: the header is consumed. A header cut short is answered like a whole one. */
    method Probe() returns (r: int, size: nat)
      modifies this`incoming, this`schedule
      ensures r == -1 || r == 0 || r == 8
      ensures (old(incoming) == [] <==> r == 0) && (r <= 0 ==> incoming == old(incoming))
      ensures r > 0 ==> HeaderTaken(old(incoming), incoming, size)
      ensures Faultless(old(schedule)) ==> Faultless(schedule)
      ensures Faultless(old(schedule)) && 0 < |old(incoming)| < 8 ==> r == 8 && incoming == []
      ensures Faultless(old(schedule)) && |old(incoming)| >= 8 ==>
                r == 8 && size == FromBigEndian(old(incoming)[..8]) && incoming == old(incoming)[8..]
      // the length is read with the most significant byte first
      ensures Faultless(old(schedule)) && |old(incoming)| >= 8 ==>
                forall i | 0 <= i < 8 :: old(incoming)[i] == size / Pow256(7 - i) % 256
    {
      if |incoming| >= 8 { HeaderBytes(incoming[..8]); }
      var sz := new byte[8];
      r := Readn(sz, 8);
      if r <= 0 { return r, 0; }
      assert r == 8 ==> sz[..] == old(incoming)[..8];
      size, r := FromBigEndian(sz[..]), 8;
    }

    /** `receive`. */
    method Receive(buff: array<byte>, size: nat) returns (r: int)
      requires size <= buff.Length
      modifies this`incoming, this`schedule, buff
      ensures -1 <= r <= size && (r == 0 && size > 0 ==> old(incoming) == [])
      ensures ReadUpTo(old(buff[..]), old(incoming), if r < 0 then 0 else r, buff[..], incoming)
      ensures Faultless(old(schedule)) ==> Faultless(schedule) && r == Min(size, |old(incoming)|)
    {
      r := Readn(buff, size);
    }
  }

  /** A frame is eight bytes of length, the most significant first, and the payload. */
  lemma EncodeBytes(m: Frame)
    ensures var bs := Encode(m);
            && |bs| == 8 + |m| && bs[8..] == m && bs[7] == |m| % 256
            && forall i | 0 <= i < 8 :: bs[i] == |m| / Pow256(7 - i) % 256
  {
    forall i | 0 <= i < 8 ensures HeaderOf(|m|)[i] == |m| / Pow256(7 - i) % 256 { BigEndianDigits(|m|, 8, i); }
  }

  lemma HeaderBytes(bs: seq<byte>)
    requires |bs| == 8
    ensures forall i | 0 <= i < 8 :: bs[i] == FromBigEndian(bs) / Pow256(7 - i) % 256
  {
    FromBigEndianRoundTrip(bs);
    forall i | 0 <= i < 8 ensures bs[i] == FromBigEndian(bs) / Pow256(7 - i) % 256 {
      BigEndianDigits(FromBigEndian(bs), 8, i);
    }
  }

  lemma {:induction false} ZeroHeader(width: nat, i: nat)
    requires i < width
    ensures BigEndian(0, width)[i] == 0
  {
    if i < width - 1 { ZeroHeader(width - 1, i); }
  }

  lemma EosIsZeros()
    ensures Encode(EOS) == [0, 0, 0, 0, 0, 0, 0, 0]
  {
    forall i | 0 <= i < 8 ensures HeaderOf(0)[i] == 0 { ZeroHeader(8, i); }
  }

  /** The rest of `writevn`'s loop body: drop the vectors that were written in full and cut the
      one that was written in part. */
  method Advance(v: array<Iov>, cur: nat, written: nat) returns (cur': nat)
    requires cur <= v.Length && written <= |Pending(v[..], cur)|
    modifies v
    ensures cur' <= v.Length && Pending(v[..], cur') == old(Pending(v[..], cur))[written..]
    ensures cur' < v.Length ==> old(Pending(v[..], cur)) != []
  {
    cur' := cur;
    var w: nat := written;
    ghost var was, left := v[..], Pending(v[..], cur)[written..];
    while cur' < v.Length && w >= |v[cur']|
      invariant cur' <= v.Length && w <= |Pending(was, cur')| && Pending(was, cur')[w..] == left && v[..] == was
    {
      w, cur' := w - |v[cur']|, cur' + 1;
    }
    if cur' < v.Length {
      v[cur'] := v[cur'][w..];
      PendingFrom(v[..], was, cur' + 1);
    }
  }

  /** The first `k` bytes of the stream `all` have been read into the buffer that held `was`. */
  ghost predicate ReadUpTo(was: seq<byte>, all: seq<byte>, k: nat, buff: seq<byte>, incoming: seq<byte>) {
    k <= |all| && k <= |was| && incoming == all[k..] && buff == all[..k] + was[k..]
  }

  /** Up to eight bytes of a header have left the stream `all`; only a whole header gives the length. */
  ghost predicate HeaderTaken(all: seq<byte>, incoming: seq<byte>, size: nat) {
    var k := |all| - |incoming|;
    0 < k <= 8 && incoming == all[k..] && (k == 8 ==> size == FromBigEndian(all[..8]))
  }

  /** Reading on from where the last read stopped. */
  lemma OverlayExtend(was: seq<byte>, all: seq<byte>, a: nat, b: nat)
    requires a <= b <= |all| && b <= |was|
    ensures var buff := all[..a] + was[a..]; buff[..a] + all[a..][..b - a] + buff[b..] == all[..b] + was[b..]
    ensures all[a..][b - a..] == all[b..]
  {
  }

  // ---- Streams of messages ------------------------------------------------------------------

  /** A payload that a `size_t` header can announce and that is not the end of the stream. */
  predicate Sendable(m: Frame) { 0 < |m| < Pow256(8) }

  /** The first `k` messages, and those from `k` on, as they stand on the stream. */
  function EncodedUpTo(msgs: seq<Frame>, k: nat): seq<byte>
    requires k <= |msgs|
  {
    if k == 0 then [] else EncodedUpTo(msgs, k - 1) + Encode(msgs[k - 1])
  }

  function EncodedFrom(msgs: seq<Frame>, k: nat): seq<byte>
    requires k <= |msgs|
    decreases |msgs| - k
  {
    if k == |msgs| then [] else Encode(msgs[k]) + EncodedFrom(msgs, k + 1)
  }

  lemma {:induction false} EncodedSplit(msgs: seq<Frame>, k: nat)
    requires k <= |msgs|
    ensures EncodedUpTo(msgs, k) + EncodedFrom(msgs, k) == EncodedFrom(msgs, 0)
  {
    if k > 0 {
      EncodedSplit(msgs, k - 1);
      var a, m, b := EncodedUpTo(msgs, k - 1), Encode(msgs[k - 1]), EncodedFrom(msgs, k);
      assert a + (m + b) == (a + m) + b;
    }
  }

  /** The messages in a byte stream, as a reader that knows the whole stream finds them: up to
      the first empty frame, or as far as complete frames go. */
  function Decode(bs: seq<byte>): (seq<Frame>, seq<byte>)
    decreases |bs|
  {
    if |bs| < 8 then ([], bs)
    else
      var size := FromBigEndian(bs[..8]);
      if size == 0 then ([], bs[8..])
      else if |bs| < 8 + size then ([], bs)
      else
        var (msgs, rest) := Decode(bs[8 + size..]);
        ([bs[8..8 + size]] + msgs, rest)
  }

  /** A frame at the head of a stream is found there. */
  lemma HeadFrame(m: Frame, tail: seq<byte>)
    requires |m| < Pow256(8)
    ensures var bs := Encode(m) + tail;
            bs[..8] == HeaderOf(|m|) && FromBigEndian(bs[..8]) == |m| && bs[8..] == m + tail
              && bs[8..][..|m|] == m && bs[8 + |m|..] == tail
  {
    Slices(HeaderOf(|m|), m, tail);
    BigEndianRoundTrip(|m|, 8);
  }

  lemma Slices(a: seq<byte>, b: seq<byte>, c: seq<byte>)
    ensures var s := a + b + c; s[..|a|] == a && s[|a|..] == b + c && s[|a|..][..|b|] == b && s[|a| + |b|..] == c
  {
    var s := a + b + c;
    assert s[|a|..] == b + c;
    assert (b + c)[..|b|] == b;
  }

  lemma DecodeHead(m: Frame, tail: seq<byte>)
    requires |m| < Pow256(8)
    ensures Decode(Encode(m) + tail) == if m == EOS then ([], tail) else ([m] + Decode(tail).0, Decode(tail).1)
  {
    HeadFrame(m, tail);
    var bs := Encode(m) + tail;
    assert bs[8..8 + |m|] == bs[8..][..|m|];
  }

  /** The stream from message `k` on is that message, or EOS, and what comes after it. */
  function HeadOf(msgs: seq<Frame>, k: nat): Frame
    requires k <= |msgs|
  {
    if k == |msgs| then EOS else msgs[k]
  }

  function Stream(msgs: seq<Frame>, k: nat, rest: seq<byte>): seq<byte>
    requires k <= |msgs|
  {
    EncodedFrom(msgs, k) + Encode(EOS) + rest
  }

  lemma StreamHead(msgs: seq<Frame>, k: nat, rest: seq<byte>)
    requires k <= |msgs|
    ensures Stream(msgs, k, rest) == Encode(HeadOf(msgs, k)) + if k == |msgs| then rest else Stream(msgs, k + 1, rest)
  {
    if k < |msgs| {
      var m, f, e := Encode(msgs[k]), EncodedFrom(msgs, k + 1), Encode(EOS);
      assert m + f + e + rest == m + (f + e + rest);
    } else {
      assert [] + Encode(EOS) == Encode(EOS);
    }
  }

  lemma SuffixHead(msgs: seq<Frame>, k: nat)
    requires k < |msgs|
    ensures msgs[k..] == [msgs[k]] + msgs[k + 1..]
  {}

  /** Whatever was sent before EOS is found again, and what follows EOS is untouched. */
  lemma {:induction false} DecodeEncoded(msgs: seq<Frame>, k: nat, rest: seq<byte>)
    requires k <= |msgs| && forall i | k <= i < |msgs| :: Sendable(msgs[i])
    ensures Decode(Stream(msgs, k, rest)) == (msgs[k..], rest)
    decreases |msgs| - k
  {
    StreamHead(msgs, k, rest);
    if k == |msgs| {
      DecodeHead(EOS, rest);
      assert msgs[k..] == [];
    } else {
      DecodeEncoded(msgs, k + 1, rest);
      DecodeHead(msgs[k], Stream(msgs, k + 1, rest));
      SuffixHead(msgs, k);
    }
  }

  /** In general the reader stops at the first empty message. */
  lemma {:induction false} DecodeStops(msgs: seq<Frame>, k: nat, rest: seq<byte>)
    requires k <= |msgs| && forall i | k <= i < |msgs| :: |msgs[i]| < Pow256(8)
    ensures Decode(Stream(msgs, k, rest)).0 == Messages(msgs[k..])
    decreases |msgs| - k
  {
    StreamHead(msgs, k, rest);
    if k == |msgs| {
      DecodeHead(EOS, rest);
    } else {
      DecodeHead(msgs[k], Stream(msgs, k + 1, rest));
      DecodeStops(msgs, k + 1, rest);
      assert msgs[k..][0] == msgs[k] && msgs[k..][1..] == msgs[k + 1..];
    }
  }

  lemma {:induction false} MessagesWhole(s: seq<Frame>)
    ensures Messages(s) == s <==> EOS !in s
  {
    if s != [] && s[0] != EOS {
      MessagesWhole(s[1..]);
      assert s == [s[0]] + s[1..] && Messages(s)[1..] == Messages(s[1..]);
    }
  }

  /** An empty message is the end of the stream for the reader: the round trip holds exactly when
      there is none. */
  lemma DecodesIffNoneEmpty(msgs: seq<Frame>, rest: seq<byte>)
    requires forall i | 0 <= i < |msgs| :: |msgs[i]| < Pow256(8)
    ensures Decode(Stream(msgs, 0, rest)).0 == msgs <==> EOS !in msgs
  {
    assert msgs[0..] == msgs;
    DecodeStops(msgs, 0, rest);
    MessagesWhole(msgs);
  }

  // ---- Whole conversations ------------------------------------------------------------------

  lemma StreamIsSent(before: seq<byte>, msgs: seq<Frame>)
    ensures before + EncodedUpTo(msgs, |msgs|) + Encode(EOS) == before + Stream(msgs, 0, [])
  {
    EncodedSplit(msgs, |msgs|);
    var all, end := EncodedUpTo(msgs, |msgs|), Encode(EOS);
    assert all + [] == all && before + all + end == before + (all + end + []);
  }

  /** A sender: every message, then EOS. */
  method SendAll(s: Socket, msgs: seq<Frame>)
    requires Faultless(s.schedule)
    modifies s`outgoing, s`schedule
    ensures s.outgoing == old(s.outgoing) + Stream(msgs, 0, [])
  {
    var i := 0;
    while i < |msgs|
      invariant i <= |msgs| && s.outgoing == old(s.outgoing) + EncodedUpTo(msgs, i) && Faultless(s.schedule)
    {
      var r := s.Send(msgs[i]);
      i := i + 1;
    }
    StreamIsSent(old(s.outgoing), msgs);
    var r := s.SendEos();
  }

  /** Probe, then receive what the header announces. */
  method ReceiveOne(s: Socket, ghost m: Frame, ghost tail: seq<byte>) returns (size: nat, got: Frame)
    requires Faultless(s.schedule) && |m| < Pow256(8) && s.incoming == Encode(m) + tail
    modifies s`incoming, s`schedule
    ensures size == |m| && got == m && s.incoming == tail && Faultless(s.schedule)
  {
    HeadFrame(m, tail);
    var r;
    r, size := s.Probe();
    if size == 0 { return 0, []; }
    var buff := new byte[size];
    r := s.Receive(buff, size);
    got := buff[..];
  }

  predicate AllSendable(msgs: seq<Frame>) { forall i | 0 <= i < |msgs| :: Sendable(msgs[i]) }

  method ReceiveNext(s: Socket, ghost msgs: seq<Frame>, ghost k: nat, ghost rest: seq<byte>)
    returns (size: nat, got: Frame)
    requires Faultless(s.schedule) && AllSendable(msgs) && k <= |msgs| && s.incoming == Stream(msgs, k, rest)
    modifies s`incoming, s`schedule
    ensures Faultless(s.schedule) && (size == 0 <==> k == |msgs|) && got == HeadOf(msgs, k)
    ensures s.incoming == if k == |msgs| then rest else Stream(msgs, k + 1, rest)
  {
    StreamHead(msgs, k, rest);
    ghost var tail := if k == |msgs| then rest else Stream(msgs, k + 1, rest);
    size, got := ReceiveOne(s, HeadOf(msgs, k), tail);
  }

  /** A receiver that goes on until EOS. For every schedule of partial reads it gets the messages
      and leaves the rest of the stream alone. */
  method ReceiveAll(s: Socket, ghost msgs: seq<Frame>, ghost rest: seq<byte>) returns (got: seq<Frame>)
    requires Faultless(s.schedule) && AllSendable(msgs) && s.incoming == Stream(msgs, 0, rest)
    modifies s`incoming, s`schedule
    ensures got == msgs && s.incoming == rest
  {
    got := [];
    ghost var k: nat := 0;
    while true
      invariant k <= |msgs| && GotFirst(got, msgs, k)
      invariant s.incoming == Stream(msgs, k, rest) && Faultless(s.schedule)
      decreases |msgs| - k
    {
      var size, m := ReceiveNext(s, msgs, k, rest);
      if size == 0 { return; }
      GotNext(got, msgs, k);
      got, k := got + [m], k + 1;
    }
  }

  /** The first `k` messages have been received. */
  ghost predicate GotFirst(got: seq<Frame>, msgs: seq<Frame>, k: nat) { k <= |msgs| && got == msgs[..k] }

  lemma GotNext(got: seq<Frame>, msgs: seq<Frame>, k: nat)
    requires GotFirst(got, msgs, k) && k < |msgs|
    ensures GotFirst(got + [msgs[k]], msgs, k + 1)
  {
  }

  /** Both ends together: for all messages and all schedules of partial writes and reads, what is
      received is what was sent. */
  method Exchange(sender: Socket, receiver: Socket, msgs: seq<Frame>) returns (got: seq<Frame>)
    requires Faultless(sender.schedule) && Faultless(receiver.schedule) && sender != receiver
    requires AllSendable(msgs) && sender.outgoing == []
    modifies sender, receiver
    ensures got == msgs && receiver.incoming == []
  {
    SendAll(sender, msgs);
    assert [] + Stream(msgs, 0, []) == Stream(msgs, 0, []);
    receiver.incoming := sender.outgoing;
    got := ReceiveAll(receiver, msgs, []);
  }
}
