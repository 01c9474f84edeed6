/** Every sequence of probes and receives on one connection, with the handle given back and
    taken again in between. */
module ReadingRuns {
  import opened Bytes
  import opened Collective
  import opened Reading

  /** One call. `reader` says whether it goes through the readable wrapper or through one that
      gave the handle back. */
  datatype Call =
    | DoProbe(reader: bool, answer: Answer)
    | DoReceive(reader: bool, room: nat, answer: Answer)
    | DoYield
    | DoAcquire

  /** `held`: some wrapper is readable. `got`: the messages received so far. `headers`: how many
      headers were taken off the stream. `lost`: a read found the connection reset. */
  datatype Session = Session(peer: Peer, held: bool, got: seq<Frame>, headers: nat, lost: bool)

  ghost predicate Enabled(s: Session, c: Call) {
    match c
    case DoProbe(reader, _) => reader ==> s.held
    case DoReceive(reader, _, answer) => (reader ==> s.held) && !answer.Waits?
    case DoYield => s.held
    case DoAcquire => !s.held && !s.peer.closedRd
  }

  /** A header leaves the stream when the socket is looked at and the stream goes on. */
  function HeadersTaken(p: Peer, answer: Answer): nat {
    if Looks(p, true) && answer.Arrives? && p.inbox != [] then 1 else 0
  }

  /** A call that looks at the socket and finds the connection reset. */
  predicate Loses(p: Peer, answer: Answer) { Looks(p, true) && answer.Resets? }

  function AfterReader(s: Session, answer: Answer): Session {
    Session(AfterProbe(s.peer, true, answer), StaysReadable(s.peer, true, answer), s.got,
            s.headers + HeadersTaken(s.peer, answer), s.lost || Loses(s.peer, answer))
  }

  function After(s: Session, c: Call): Session {
    match c
    case DoProbe(reader, answer) => if reader then AfterReader(s, answer)
      else s.(peer := AfterProbe(s.peer, false, answer))
    case DoReceive(reader, room, answer) =>
      if !reader then s
      else if Looks(s.peer, true) && !answer.Arrives? then AfterReader(s, answer)
      else
        Session(AfterReceive(s.peer, room), StaysReadable(s.peer, true, answer),
                if s.peer.Delivers(room) then s.got + [s.peer.inbox[0]] else s.got,
                s.headers + HeadersTaken(s.peer, answer), s.lost)
    case DoYield => s.(held := false)
    case DoAcquire => s.(held := true)
  }

  /** Where a session stands on a peer that sends `all`: what was received is the beginning of
      it, nothing skipped, and the header cache is one header ahead at most. */
  ghost predicate Inv(all: seq<Frame>, s: Session) {
    var k := |s.got|;
    && k <= |all| && s.got == all[..k] && EOS !in s.got
    && s.peer.Valid() && (s.lost ==> s.peer.closedRd)
    && s.headers == k + (if s.peer.probed.Header? then 1 else 0)
    && (!s.peer.closedRd ==> s.peer.inbox == all[k..])
    && (s.peer.closedRd && !s.lost ==>
          !s.held && (k == |all| || all[k] == EOS) && (s.peer.probed == Header(0) <==> k < |all|))
    && (s.peer.closedRd && (s.lost || k == |all|) ==> s.peer.probed.Nothing?)
    && (s.peer.closedWr <==> s.peer.closedRd && (s.lost || k == |all|))
    && s.peer.sent == if s.peer.closedWr then [EOS] else []
  }

  lemma StepInv(all: seq<Frame>, s: Session, c: Call)
    requires Inv(all, s) && Enabled(s, c)
    ensures Inv(all, After(s, c))
  {
    match c
    case DoProbe(reader, answer) => if reader { ProbeInv(all, s, answer); }
    case DoReceive(reader, room, answer) => if reader { ReceiveInv(all, s, room, answer); }
    case DoYield =>
    case DoAcquire =>
  }

  lemma ProbeInv(all: seq<Frame>, s: Session, answer: Answer)
    requires Inv(all, s) && s.held
    ensures Inv(all, AfterReader(s, answer))
  {
    var k := |s.got|;
    assert !s.peer.closedRd && s.peer.inbox != [] ==> all[k] == s.peer.inbox[0];
  }

  lemma ReceiveInv(all: seq<Frame>, s: Session, room: nat, answer: Answer)
    requires Inv(all, s) && s.held && !answer.Waits?
    ensures Inv(all, After(s, DoReceive(true, room, answer)))
  {
    ProbeInv(all, s, answer);
    var k := |s.got|;
    assert !s.peer.closedRd && s.peer.inbox != [] ==> all[k] == s.peer.inbox[0];
    assert !s.peer.closedRd && s.peer.inbox != [] ==> s.peer.inbox[1..] == all[k + 1..];
  }

  ghost predicate IsRun(all: seq<Frame>, ss: seq<Session>, calls: seq<Call>) {
    && |ss| == |calls| + 1
    && ss[0] == Session(Connected(all), true, [], 0, false)
    && forall i | 0 <= i < |calls| :: Enabled(ss[i], calls[i]) && ss[i + 1] == After(ss[i], calls[i])
  }

  lemma {:induction false} RunInv(all: seq<Frame>, ss: seq<Session>, calls: seq<Call>, n: nat)
    requires IsRun(all, ss, calls) && n < |ss|
    ensures Inv(all, ss[n])
  {
    if n == 0 {
      assert all[..0] == [] && all[0..] == all;
    } else {
      RunInv(all, ss, calls, n - 1);
      assert Enabled(ss[n - 1], calls[n - 1]) && ss[n] == After(ss[n - 1], calls[n - 1]);
      StepInv(all, ss[n - 1], calls[n - 1]);
    }
  }

  /** In every session what the user has got is a prefix of the peer's messages, and it is all of
      them once the end was reached, unless the connection was reset. */
  lemma SeenInOrder(all: seq<Frame>, ss: seq<Session>, calls: seq<Call>, n: nat)
    requires IsRun(all, ss, calls) && n < |ss|
    ensures ss[n].got <= Messages(all)
    ensures ss[n].peer.closedRd && !ss[n].lost ==> ss[n].got == Messages(all)
  {
    RunInv(all, ss, calls, n);
    MessagesStart(all, |ss[n].got|);
    if ss[n].peer.closedRd && !ss[n].lost { MessagesAre(all, |ss[n].got|); }
  }

  /** The next message, announced by its size until it is received; `None` at the end. */
  datatype Announced = Next(size: nat) | End

  function NextOf(all: seq<Frame>, k: nat): Announced {
    if k < |all| && all[k] != EOS then Next(|all[k]|) else End
  }

  /** A blocking probe by the reader announces the next message. As the answer depends on the
      number of messages received alone, repeated probes agree. */
  lemma ProbeAnnounces(all: seq<Frame>, ss: seq<Session>, calls: seq<Call>, n: nat)
    requires IsRun(all, ss, calls) && n < |ss| && ss[n].held && !ss[n].lost
    ensures ProbeResult(ss[n].peer, true, Arrives) == Done(if NextOf(all, |ss[n].got|).Next? then 8 else 0)
    ensures NextOf(all, |ss[n].got|).Next? ==>
              AfterProbe(ss[n].peer, true, Arrives).probed == Header(NextOf(all, |ss[n].got|).size)
  {
    RunInv(all, ss, calls, n);
    var s := ss[n];
    assert s.peer.inbox != [] ==> all[|s.got|] == s.peer.inbox[0];
  }

  /** A receive by the reader gets exactly that message if it fits; if it does not, nothing is
      lost: the same message is still the next one. */
  lemma ReceiveAnswers(all: seq<Frame>, ss: seq<Session>, calls: seq<Call>, n: nat, room: nat)
    requires IsRun(all, ss, calls) && n < |ss| && ss[n].held && !ss[n].lost
    ensures var k := |ss[n].got|; var s' := After(ss[n], DoReceive(true, room, Arrives));
            match NextOf(all, k)
            case Next(size) =>
              if size <= room then ReceiveResult(ss[n].peer, room) == Done(size) && s'.got == ss[n].got + [all[k]]
              else
                && ReceiveResult(ss[n].peer, room) == Failed(ENOMEM) && s'.got == ss[n].got
                && s'.held && s'.peer.probed == Header(size)
            case End => ReceiveResult(ss[n].peer, room) == Done(0) && s'.got == ss[n].got && s'.peer.closedRd
  {
    RunInv(all, ss, calls, n);
    var s := ss[n];
    assert s.peer.inbox != [] ==> all[|s.got|] == s.peer.inbox[0];
  }

  /** What a call answers. */
  function AnswerOf(s: Session, c: Call): Outcome
    requires c.DoProbe? || c.DoReceive?
  {
    if c.DoProbe? then ProbeResult(s.peer, c.reader, c.answer)
    else if !c.reader then Done(0)
    else if Looks(s.peer, true) && !c.answer.Arrives? then ProbeResult(s.peer, true, c.answer)
    else ReceiveResult(s.peer, c.room)
  }

  /** In every session the reader is answered 0 exactly when the stream is over: the connection is
      closed for reading, because the end was seen before or a read found it reset, or this call finds the end or
      the reset. A call for which nothing has arrived, or whose descriptor is invalid, fails with its
      own error. */
  lemma ZeroMeansEnd(all: seq<Frame>, ss: seq<Session>, calls: seq<Call>, n: nat, c: Call)
    requires IsRun(all, ss, calls) && n < |ss| && (c.DoProbe? || c.DoReceive?) && c.reader && Enabled(ss[n], c)
    ensures var s := ss[n]; var finds := s.peer.probed.Nothing? && !s.peer.closedRd;
            && (AnswerOf(s, c) == Done(0) <==>
                  || s.peer.closedRd
                  || (finds && (c.answer.Resets? || (c.answer.Arrives? && NextOf(all, |s.got|).End?))))
            && (finds && c.answer.Waits? ==> AnswerOf(s, c) == Failed(EWOULDBLOCK) && After(s, c) == s)
            && (finds && c.answer.Invalid? ==> AnswerOf(s, c) == Failed(EINVAL) && After(s, c) == s)
  {
    RunInv(all, ss, calls, n);
    var s := ss[n];
    assert s.peer.inbox != [] && !s.peer.closedRd ==> all[|s.got|] == s.peer.inbox[0];
  }

  /** In every session this end writes EOS at most once, and only when the stream broke off: end of
      file without EOS, or a reset. The peer's EOS leaves the write side open. */
  lemma ClosesOnceBroken(all: seq<Frame>, ss: seq<Session>, calls: seq<Call>, n: nat)
    requires IsRun(all, ss, calls) && n < |ss|
    ensures var p := ss[n].peer;
            && p.sent == (if p.closedWr then [EOS] else [])
            && (p.closedWr <==> p.closedRd && (ss[n].lost || EOS !in all))
  {
    RunInv(all, ss, calls, n);
    var s, k := ss[n], |ss[n].got|;
    assert k == |all| ==> all[..k] == all;
    assert k < |all| && all[k] == EOS ==> EOS in all;
  }

  /** Each header is taken off the stream once: one per message received, and one more for the
      message or the EOS that is announced. */
  lemma HeadersOnce(all: seq<Frame>, ss: seq<Session>, calls: seq<Call>, n: nat)
    requires IsRun(all, ss, calls) && n < |ss|
    ensures ss[n].headers == |ss[n].got| + if ss[n].peer.probed.Header? then 1 else 0
  {
    RunInv(all, ss, calls, n);
  }

  /** A call that cannot read the header, because nothing has arrived or the descriptor is invalid,
      changes nothing. */
  lemma FailedReadKeeps(s: Session, answer: Answer, room: nat)
    requires s.held && (answer.Waits? || answer.Invalid?) && Looks(s.peer, true)
    ensures After(s, DoProbe(true, answer)) == s && After(s, DoReceive(true, room, answer)) == s
  {
  }

  /** Once the end was seen, or the connection lost, it stays so: no call gets a message or changes
      the connection, every probe and receive answers 0, and the handle is never offered again. */
  lemma {:induction false} EndIsFinal(all: seq<Frame>, ss: seq<Session>, calls: seq<Call>, n: nat, m: nat)
    requires IsRun(all, ss, calls) && n <= m < |ss| && ss[n].peer.closedRd
    ensures ss[m].peer == ss[n].peer && ss[m].got == ss[n].got && ss[m].headers == ss[n].headers
    ensures forall reader, answer :: ProbeResult(ss[m].peer, reader, answer) == Done(0)
    ensures forall room :: ReceiveResult(ss[m].peer, room) == Done(0)
    decreases m - n
  {
    RunInv(all, ss, calls, n);
    if n < m {
      assert Enabled(ss[n], calls[n]) && ss[n + 1] == After(ss[n], calls[n]);
      EndIsFinal(all, ss, calls, n + 1, m);
    }
  }
}
