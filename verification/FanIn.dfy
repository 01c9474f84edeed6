/** `FanInGeneric` at the root: the vector of senders that is scanned for a message while the
    senders that have finished are erased from it. */
module FanIn {
  import opened Bytes
  import opened Collective

  type Id = nat

  /** A sender's connection; its first `visible` frames have arrived. */
  datatype Member = Member(peer: Peer, visible: nat)

  /** What a non-blocking probe of a connection finds. */
  datatype Head = Quiet | Data(size: nat) | Over

  function HeadOf(m: Member): Head {
    if m.visible == 0 || m.peer.inbox == [] then Quiet
    else if m.peer.inbox[0] == EOS then Over
    else Data(|m.peer.inbox[0]|)
  }

  /** EOS was read: the connection is closed both ways. */
  function Retired(m: Member): Member
    requires m.peer.inbox != [] && m.visible > 0
  {
    Member(Closed(m.peer.(inbox := m.peer.inbox[1..]), true, true), m.visible - 1)
  }

  function Announced(m: Member): Member
    requires m.peer.inbox != []
  {
    m.(peer := m.peer.(probed := Header(|m.peer.inbox[0]|)))
  }

  function Received(m: Member): Member
    requires m.peer.inbox != [] && m.visible > 0
  {
    Member(Delivered(m.peer), m.visible - 1)
  }

  /** The EOS of sender `id` was read, one EOS was written back to it, and its connection is closed
      in both directions. */
  ghost predicate ClosedBothWays(was: map<Id, Member>, now: map<Id, Member>, id: Id) {
    && id in was && id in now && now == was[id := now[id]]
    && was[id].peer.inbox == [[]] + now[id].peer.inbox
    && now[id].peer.sent == was[id].peer.sent + [[]] && now[id].peer.closedRd && now[id].peer.closedWr
  }

  // ---- The vector ---------------------------------------------------------------------------

  function Erase(s: seq<Id>, i: nat): seq<Id>
    requires i < |s|
  {
    s[..i] + s[i + 1..]
  }

  /** Those of the first `k` senders that are not gone, in their order. */
  function Live(order: seq<Id>, gone: set<Id>, k: nat): seq<Id>
    requires k <= |order|
  {
    if k == 0 then [] else Live(order, gone, k - 1) + if order[k - 1] in gone then [] else [order[k - 1]]
  }

  lemma {:induction false} LiveMembers(order: seq<Id>, gone: set<Id>, k: nat, id: Id)
    requires k <= |order|
    ensures id in Live(order, gone, k) <==> id in order[..k] && id !in gone
  {
    if k > 0 {
      LiveMembers(order, gone, k - 1, id);
      assert order[..k] == order[..k - 1] + [order[k - 1]];
    }
  }

  lemma {:induction false} LiveFrame(order: seq<Id>, gone: set<Id>, k: nat, id: Id)
    requires k <= |order| && id !in order[..k]
    ensures Live(order, gone + {id}, k) == Live(order, gone, k)
  {
    if k > 0 {
      assert order[..k] == order[..k - 1] + [order[k - 1]];
      LiveFrame(order, gone, k - 1, id);
    }
  }

  /** Erasing from the vector is what marking a sender as gone amounts to. */
  lemma {:induction false} LiveErase(order: seq<Id>, gone: set<Id>, k: nat, i: nat)
    requires k <= |order| && Distinct(order) && i < |Live(order, gone, k)|
    ensures var live := Live(order, gone, k); Live(order, gone + {live[i]}, k) == Erase(live, i)
  {
    var live, before := Live(order, gone, k), Live(order, gone, k - 1);
    var id := live[i];
    if i < |before| {
      LiveErase(order, gone, k - 1, i);
      LiveMembers(order, gone, k - 1, id);
      assert order[k - 1] != id;
      assert Erase(live, i) == Erase(before, i) + live[|before|..];
    } else {
      assert id !in order[..k - 1];
      LiveFrame(order, gone, k - 1, id);
      assert Erase(live, i) == before;
    }
  }

  lemma {:induction false} LiveDistinct(order: seq<Id>, gone: set<Id>, k: nat)
    requires k <= |order| && Distinct(order)
    ensures Distinct(Live(order, gone, k))
  {
    if k > 0 {
      LiveDistinct(order, gone, k - 1);
      LiveMembers(order, gone, k - 1, order[k - 1]);
    }
  }

  // ---- What has been received from each sender ----------------------------------------------

  /** A sender that sends `all`: `got` was received from it, in order and nothing skipped. */
  ghost predicate Row(all: seq<Frame>, m: Member, got: seq<Frame>, gone: bool, announced: bool) {
    var k := |got|;
    && k <= |all| && got == all[..k] && EOS !in got && m.visible <= |m.peer.inbox|
    && (gone ==>
          k < |all| && all[k] == EOS && m.peer.inbox == all[k + 1..]
          && m.peer.closedRd && m.peer.closedWr && m.peer.sent == [EOS] && !announced)
    && (!gone ==> m.peer.inbox == all[k..] && !m.peer.closedRd && !m.peer.closedWr && m.peer.sent == [])
    && (announced <==> m.peer.probed.Header?)
    && (announced ==> HeadOf(m) == Data(m.peer.probed.size))
  }

  /** The senders' connections, what was received from each, and which one was probed, if any. */
  datatype Team = Team(members: map<Id, Member>, got: map<Id, seq<Frame>>, gone: set<Id>, probed: set<Id>)

  ghost predicate RowAt(all: map<Id, seq<Frame>>, t: Team, id: Id) {
    id in all && id in t.members && id in t.got && Row(all[id], t.members[id], t.got[id], id in t.gone, id in t.probed)
  }

  ghost predicate Rows(all: map<Id, seq<Frame>>, order: seq<Id>, t: Team) {
    && (forall id | id in order :: RowAt(all, t, id))
    && (forall id | id in t.gone :: id in order)
  }

  function Retire(t: Team, id: Id): Team
    requires id in t.members && HeadOf(t.members[id]).Over?
  {
    t.(members := t.members[id := Retired(t.members[id])], gone := t.gone + {id})
  }

  function Announce(t: Team, id: Id): Team
    requires id in t.members && HeadOf(t.members[id]).Data?
  {
    t.(members := t.members[id := Announced(t.members[id])], probed := {id})
  }

  function Receive(t: Team, id: Id): Team
    requires id in t.members && id in t.got && HeadOf(t.members[id]).Data?
  {
    t.(members := t.members[id := Received(t.members[id])],
       got := t.got[id := t.got[id] + [t.members[id].peer.inbox[0]]], probed := {})
  }

  /** More frames of the senders arrive, `more[id]` of sender `id`. */
  function Later(m: Member, more: nat): Member {
    m.(visible := if m.visible + more <= |m.peer.inbox| then m.visible + more else |m.peer.inbox|)
  }

  function Arrive(t: Team, more: map<Id, nat>): Team {
    t.(members := map id | id in t.members :: Later(t.members[id], if id in more then more[id] else 0))
  }

  lemma RetireRows(all: map<Id, seq<Frame>>, order: seq<Id>, t: Team, id: Id)
    requires Rows(all, order, t) && id in order && id !in t.gone && t.probed == {} && HeadOf(t.members[id]).Over?
    ensures RowAt(all, t, id) && Rows(all, order, Retire(t, id))
    ensures ClosedBothWays(t.members, Retire(t, id).members, id)
  {
    assert RowAt(all, t, id);
    assert t.members[id].peer.inbox == [EOS] + t.members[id].peer.inbox[1..];
    var t' := Retire(t, id);
    forall g | g in order ensures RowAt(all, t', g) { assert RowAt(all, t, g); }
  }

  lemma AnnounceRows(all: map<Id, seq<Frame>>, order: seq<Id>, t: Team, id: Id)
    requires Rows(all, order, t) && id in order && id !in t.gone && t.probed == {} && HeadOf(t.members[id]).Data?
    ensures Rows(all, order, Announce(t, id))
  {
    assert RowAt(all, t, id);
    var t' := Announce(t, id);
    forall g | g in order ensures RowAt(all, t', g) { assert RowAt(all, t, g); }
  }

  lemma ReceiveRows(all: map<Id, seq<Frame>>, order: seq<Id>, t: Team, id: Id)
    requires Rows(all, order, t) && id in order && t.probed == {id}
    ensures RowAt(all, t, id) && id !in t.gone && HeadOf(t.members[id]).Data?
    ensures Rows(all, order, Receive(t, id))
  {
    assert RowAt(all, t, id);
    var t' := Receive(t, id);
    ReceiveRow(all[id], t.members[id], t.got[id]);
    forall g | g in order ensures RowAt(all, t', g) { assert RowAt(all, t, g); }
  }

  lemma ReceiveRow(all: seq<Frame>, m: Member, got: seq<Frame>)
    requires Row(all, m, got, false, true)
    ensures Row(all, Received(m), got + [m.peer.inbox[0]], false, false)
  {
    var k := |got|;
    assert m.peer.inbox[0] == all[k] && m.peer.inbox[1..] == all[k + 1..];
  }

  lemma ArriveRows(all: map<Id, seq<Frame>>, order: seq<Id>, t: Team, more: map<Id, nat>)
    requires Rows(all, order, t)
    ensures Rows(all, order, Arrive(t, more))
  {
    var t' := Arrive(t, more);
    forall g | g in order ensures RowAt(all, t', g) { assert RowAt(all, t, g); }
  }

  function Start(all: map<Id, seq<Frame>>): Team {
    Team(map id | id in all :: Member(Connected(all[id]), 0), map id | id in all :: [], {}, {})
  }

  lemma StartRows(all: map<Id, seq<Frame>>, order: seq<Id>)
    requires forall id | id in order :: id in all
    ensures Rows(all, order, Start(all))
  {
    forall id | id in order ensures RowAt(all, Start(all), id) { assert all[id][0..] == all[id] && all[id][..0] == []; }
  }

  lemma {:induction false} LiveAll(order: seq<Id>, k: nat)
    requires k <= |order|
    ensures Live(order, {}, k) == order[..k]
  {
    if k > 0 { LiveAll(order, k - 1); }
  }

  // ---- The blocking scan --------------------------------------------------------------------

  ghost predicate Known(ps: seq<Id>, members: map<Id, Member>) {
    forall i | 0 <= i < |ps| :: ps[i] in members
  }

  /** Something will end the scan: a message is pending at position `pos`, or (`pos` negative)
      every sender has finished. */
  ghost predicate Waking(ps: seq<Id>, members: map<Id, Member>, pos: int) {
    && Known(ps, members)
    && (if pos >= 0 then pos < |ps| && HeadOf(members[ps[pos]]).Data?
        else forall i | 0 <= i < |ps| :: HeadOf(members[ps[i]]).Over?)
  }

  lemma WakingArrive(ps: seq<Id>, t: Team, more: map<Id, nat>, pos: int)
    requires Waking(ps, t.members, pos)
    ensures Waking(ps, Arrive(t, more).members, pos)
  {
  }

  /** Where the pending message is once position `at` has been erased. */
  function Shifted(pos: int, at: nat): int { if pos > at then pos - 1 else pos }

  lemma WakingErase(ps: seq<Id>, t: Team, at: nat, pos: int)
    requires Waking(ps, t.members, pos) && Distinct(ps) && at < |ps| && HeadOf(t.members[ps[at]]).Over?
    ensures Waking(Erase(ps, at), Retire(t, ps[at]).members, Shifted(pos, at))
  {
    var ps', members := Erase(ps, at), Retire(t, ps[at]).members;
    forall i | 0 <= i < |ps'| ensures ps'[i] in members && members[ps'[i]] == t.members[ps'[i]] {
      assert ps'[i] == ps[if i < at then i else i + 1];
    }
    assert pos >= 0 ==> ps'[Shifted(pos, at)] == ps[pos];
  }

  /** How far the scan at `at` still is from `pos` in a vector of `n`, going round. */
  function Gap(n: nat, at: nat, pos: int): nat {
    if pos < 0 then 0 else if at <= pos then pos - at else if at <= pos + n then pos + n - at else 0
  }

  class FanInGeneric {
    /** The vector that the constructor was given. */
    const order: seq<Id>
    var participants: seq<Id>
    var probedIdx: int
    var team: Team
    /** What arrives from the network, turn by turn. */
    var arrivals: seq<map<Id, nat>>

    ghost predicate Valid(all: map<Id, seq<Frame>>)
      reads this
    {
      && Distinct(order)
      && participants == Live(order, team.gone, |order|)
      && Rows(all, order, team)
      && Known(participants, team.members)
      && (if probedIdx == -1 then team.probed == {}
          else 0 <= probedIdx < |participants| && team.probed == {participants[probedIdx]})
    }

    constructor (order: seq<Id>, all: map<Id, seq<Frame>>, arrivals: seq<map<Id, nat>>)
      requires Distinct(order) && forall id | id in order :: id in all
      ensures Valid(all) && participants == order && probedIdx == -1 && team == Start(all)
    {
      LiveAll(order, |order|);
      StartRows(all, order);
      this.order, participants, probedIdx, team, this.arrivals := order, order, -1, Start(all), arrivals;
    }

    /** Frames that arrive do not take away what will end the scan. */
    method Arrivals(ghost pos: int, ghost all: map<Id, seq<Frame>>)
      requires Valid(all) && Waking(participants, team.members, pos)
      modifies this`team, this`arrivals
      ensures Valid(all) && Waking(participants, team.members, pos) && Distinct(participants)
      ensures exists more :: team == Arrive(old(team), more)
      ensures old(arrivals) == [] ==> arrivals == [] && SameFor(participants, old(team).members, team.members)
    {
      NothingArrives(all, order, participants, team);
      var more: map<Id, nat> := if arrivals == [] then map[] else arrivals[0];
      if arrivals != [] { arrivals := arrivals[1..]; }
      ArriveRows(all, order, team, more);
      WakingArrive(participants, team, more, pos);
      LiveDistinct(order, team.gone, |order|);
      team := Arrive(team, more);
    }

    /** A non-blocking probe of position `at`, and what the scan does with what it finds. */
    method Look(at: nat, ghost all: map<Id, seq<Frame>>) returns (head: Head)
      requires Valid(all) && probedIdx == -1 && at < |participants|
      modifies this`participants, this`team, this`probedIdx
      ensures Valid(all) && head == HeadOf(old(team).members[old(participants)[at]])
      ensures match head
              case Over =>
                && team == Retire(old(team), old(participants)[at])
                && participants == Erase(old(participants), at) && probedIdx == -1
                && ClosedBothWays(old(team).members, team.members, old(participants)[at])
              case Data(_) =>
                team == Announce(old(team), old(participants)[at]) && participants == old(participants)
                  && probedIdx == at
              case Quiet => team == old(team) && participants == old(participants) && probedIdx == -1
    {
      var id := participants[at];
      LiveMembers(order, team.gone, |order|, id);
      assert order[..|order|] == order;
      head := HeadOf(team.members[id]);
      match head {
        case Over =>
          RetireRows(all, order, team, id);
          LiveErase(order, team.gone, |order|, at);
          participants := Erase(participants, at);
          team := Retire(team, id);
        case Data(_) =>
          AnnounceRows(all, order, team, id);
          probedIdx := at;
          team := Announce(team, id);
        case Quiet =>
      }
    }

    /** One turn of the blocking scan: what arrives meanwhile, the probe, and the next position.
        After an erasure the next sender moves up and is passed over; the scan comes back to it. */
    method Turn(at: nat, ghost pos: int, ghost all: map<Id, seq<Frame>>) returns (at': nat, size: nat, ghost pos': int)
      requires Valid(all) && probedIdx == -1 && at < |participants| && Waking(participants, team.members, pos)
      modifies this
      ensures Valid(all) && old(team).gone <= team.gone && team.got == old(team).got
      ensures if size > 0 then Found(size) && participants == old(participants)
              else probedIdx == -1 && Waking(participants, team.members, pos')
      ensures size == 0 && |participants| == |old(participants)| ==>
                at' < |participants| && Gap(|participants|, at', pos') < Gap(|participants|, at, pos)
      ensures |participants| <= |old(participants)| && (participants != [] ==> at' < |participants|)
      // one position further, of what is left of the vector, and round
      ensures at' == if at + 1 >= |participants| then 0 else at + 1
      ensures old(arrivals) == [] ==>
                && arrivals == []
                && Looked(old(participants), old(team).members, at, participants, team.members, size, probedIdx)
    {
      ghost var was := team.members;
      Arrivals(pos, all);
      ghost var ps, t := participants, team;
      at', size, pos' := at, 0, pos;
      var head := Look(at, all);
      match head {
        case Over =>
          WakingErase(ps, t, at, pos);
          if SameFor(ps, was, t.members) { EraseSame(ps, was, t, at); }
          pos' := Shifted(pos, at);
          if at' == |participants| { return 0, 0, pos'; }
        case Data(n) => size := n;
        case Quiet =>
      }
      at' := at' + 1;
      if at' == |participants| { at' := 0; }
    }

    /** A message of `size` bytes was found at the probed position. */
    ghost predicate Found(size: nat)
      reads this
    {
      && 0 <= probedIdx < |participants| && participants[probedIdx] in team.members
      && HeadOf(team.members[participants[probedIdx]]) == Data(size)
    }

    /** `probe(size, true)`: ends with a message at the probed position, or with the EOS of the
        whole group once every sender is gone. */
    method Probe(ghost pos: int, ghost all: map<Id, seq<Frame>>) returns (r: Outcome, size: nat)
      requires Valid(all) && probedIdx == -1 && Waking(participants, team.members, pos)
      modifies this
      ensures Valid(all) && r == Done(8) && old(team).gone <= team.gone && team.got == old(team).got
      ensures size == 0 <==> participants == []
      ensures size > 0 ==> Found(size)
      // with nothing arriving meanwhile it finds what the non-blocking probe finds, if that does
      ensures var f := Pass(Heads(old(participants), old(team).members), 0);
              old(arrivals) == [] && f >= 0 ==> size > 0 && participants[probedIdx] == old(participants)[f]
    {
      var at: nat := 0;
      size := 0;
      ghost var p, j: nat := pos, 0;
      ghost var ps, members := participants, team.members;
      ghost var f := Pass(Heads(ps, members), 0);
      LiveDistinct(order, team.gone, |order|);
      while size == 0 && participants != []
        invariant Valid(all) && old(team).gone <= team.gone && team.got == old(team).got
        invariant if size > 0 then Found(size) else probedIdx == -1 && Waking(participants, team.members, p)
        invariant participants != [] ==> at < |participants|
        invariant old(arrivals) == [] && f >= 0 ==>
                    && arrivals == []
                    && if size > 0 then participants[probedIdx] == ps[f]
                       else OnTrack(ps, members, f, j, participants, team.members, at)
        decreases if size == 0 then 1 else 0, |participants|, Gap(|participants|, at, p)
      {
        ghost var parts, now, was := participants, team.members, at;
        at, size, p := Turn(at, p, all);
        if old(arrivals) == [] && f >= 0 {
          j := StaysOnTrack(ps, members, f, j, parts, now, was, participants, team.members, size, probedIdx);
        }
      }
      r := Done(8);
    }

    /** `receive` of as many bytes as the probe announced: from the sender that was probed, and no
        other. */
    method ReceiveProbed(buff: array<byte>, size: nat, ghost all: map<Id, seq<Frame>>)
      returns (r: Outcome, ghost m: Frame)
      requires Valid(all) && probedIdx != -1 && Found(size) && size <= buff.Length
      modifies this`team, this`probedIdx, buff
      ensures Valid(all) && probedIdx == -1
      ensures buff[..] == Overlay(old(buff[..]), 0, m)
      ensures var id := old(participants)[old(probedIdx)];
              id in old(team).got && id in team.got && team.got == old(team).got[id := old(team).got[id] + [m]]
      ensures r == Done(|m|) && m != EOS
    {
      var id := participants[probedIdx];
      LiveMembers(order, team.gone, |order|, id);
      assert order[..|order|] == order;
      ReceiveRows(all, order, team, id);
      var f := team.members[id].peer.inbox[0];
      Memcpy(buff, 0, f);
      team, probedIdx := Receive(team, id), -1;
      r, m := Done(|f|), f;
    }

    /** One turn of the non-blocking pass that started with `ps`. */
    method PassTurn(at: nat, ghost j: nat, ghost ps: seq<Id>, ghost members: map<Id, Member>,
        ghost all: map<Id, seq<Frame>>)
      returns (at': nat, size: nat, quiet: bool, ghost j': nat)
      requires Valid(all) && probedIdx == -1 && at < |participants|
      requires Distinct(ps) && Behind(ps, members, j, participants, team.members, at)
      modifies this`participants, this`team, this`probedIdx
      ensures Valid(all) && team.got == old(team).got && j < |ps|
      ensures if size > 0 then Found(size) && participants[probedIdx] == ps[j] && Heads(ps, members)[j] == Data(size)
              else
                && probedIdx == -1 && Behind(ps, members, j', participants, team.members, at')
                && Pass(Heads(ps, members), j') == Pass(Heads(ps, members), j)
                && Hears(Heads(ps, members), j) == (quiet || Hears(Heads(ps, members), j'))
      ensures at' <= |participants| && |participants| - at' < |old(participants)| - at
    {
      BehindHead(ps, members, j, participants, team.members, at);
      ghost var parts, t := participants, team;
      at', size, j', quiet := at, 0, j, false;
      var head := Look(at, all);
      match head {
        case Over =>
          BehindErase(ps, members, j, parts, t, at);
          if at' < |participants| { at' := at' + 1; }
          j' := j + 2;
        case Data(n) => size, at' := n, at' + 1;
        case Quiet =>
          BehindNext(ps, members, j, parts, t.members, at);
          j', at', quiet := j + 1, at' + 1, true;
      }
    }

    /** `probe(size, false)`: one pass over the vector, with `errno` as it was before. Only a probe
        that finds nothing sets it; a pass that looks at finished senders alone returns -1 and leaves
        it alone. */
    method ProbeOnce(errno: Errno, ghost all: map<Id, seq<Frame>>) returns (r: Outcome, size: nat)
      requires Valid(all) && probedIdx == -1
      modifies this`participants, this`team, this`probedIdx
      ensures Valid(all) && team.got == old(team).got
      ensures var heads := Heads(old(participants), old(team).members);
              if Pass(heads, 0) >= 0 then
                && r == Done(8) && Found(size) && heads[Pass(heads, 0)] == Data(size)
                && participants[probedIdx] == old(participants)[Pass(heads, 0)]
              else
                && probedIdx == -1 && size == 0
                && r == (if participants == [] then Done(8) else Failed(if Hears(heads, 0) then EWOULDBLOCK else errno))
    {
      var at: nat, heard := 0, false;
      size := 0;
      ghost var ps, members := participants, team.members;
      ghost var j: nat := 0;
      LiveDistinct(order, team.gone, |order|);
      while size == 0 && at < |participants|
        invariant Valid(all) && team.got == old(team).got && at <= |participants|
        invariant Pass(Heads(ps, members), j) == Pass(Heads(ps, members), 0)
        invariant size == 0 ==> Hears(Heads(ps, members), 0) == (heard || Hears(Heads(ps, members), j))
        invariant if size > 0 then
            Found(size) && j < |ps| && participants[probedIdx] == ps[j] && Heads(ps, members)[j] == Data(size)
          else probedIdx == -1 && Behind(ps, members, j, participants, team.members, at)
        decreases if size == 0 then 1 else 0, |participants| - at
      {
        ghost var j';
        var quiet;
        at, size, quiet, j' := PassTurn(at, j, ps, members, all);
        heard := heard || quiet;
        if size == 0 { j := j'; }
      }
      assert size == 0 ==> participants[at..] == [] && j >= |ps|;
      r := if size > 0 || participants == [] then Done(8) else Failed(if heard then EWOULDBLOCK else errno);
    }
  }

  /** The scan has nothing to end it: no message, and a sender from which nothing has arrived. */
  ghost predicate Stuck(ps: seq<Id>, members: map<Id, Member>) {
    && Known(ps, members)
    && (forall i | 0 <= i < |ps| :: !HeadOf(members[ps[i]]).Data?)
    && (exists i | 0 <= i < |ps| :: HeadOf(members[ps[i]]).Quiet?)
  }

  /** What `Probe` asks for is all that can be asked for: otherwise no turn ends the scan until
      something arrives. */
  lemma WakingIffNotStuck(ps: seq<Id>, members: map<Id, Member>)
    requires Known(ps, members)
    ensures (exists pos :: Waking(ps, members, pos)) <==> !Stuck(ps, members)
  {
    if i :| 0 <= i < |ps| && HeadOf(members[ps[i]]).Data? {
      assert Waking(ps, members, i);
    } else if !Stuck(ps, members) {
      assert forall i | 0 <= i < |ps| :: !HeadOf(members[ps[i]]).Quiet?;
      assert Waking(ps, members, -1);
    }
  }

  lemma StuckStays(ps: seq<Id>, t: Team, at: nat)
    requires Stuck(ps, t.members) && Distinct(ps) && at < |ps|
    ensures !HeadOf(t.members[ps[at]]).Data?
    ensures HeadOf(t.members[ps[at]]).Over? ==> Stuck(Erase(ps, at), Retire(t, ps[at]).members)
  {
    if HeadOf(t.members[ps[at]]).Over? {
      var ps', members := Erase(ps, at), Retire(t, ps[at]).members;
      forall i | 0 <= i < |ps'|
        ensures ps'[i] in members && members[ps'[i]] == t.members[ps'[i]] && !HeadOf(members[ps'[i]]).Data?
      {
        assert ps'[i] == ps[if i < at then i else i + 1];
      }
      var q :| 0 <= q < |ps| && HeadOf(t.members[ps[q]]).Quiet?;
      assert ps'[Shifted(q, at)] == ps[q];
    }
  }

  // ---- The non-blocking pass ----------------------------------------------------------------

  ghost function Heads(ps: seq<Id>, members: map<Id, Member>): (heads: seq<Head>)
    requires Known(ps, members)
    ensures |heads| == |ps|
  {
    seq(|ps|, i requires 0 <= i < |ps| => HeadOf(members[ps[i]]))
  }

  /** The position at which a pass from `j` on finds a message, or -1: a finished sender and the
      one after it are left behind together. */
  function Pass(heads: seq<Head>, j: nat): (f: int)
    ensures f == -1 || (j <= f < |heads| && heads[f].Data?)
    decreases |heads| - j
  {
    if j >= |heads| then -1
    else match heads[j]
      case Over => Pass(heads, j + 2)
      case Data(_) => j
      case Quiet => Pass(heads, j + 1)
  }

  /** A pass from `j` on looks at a sender from which nothing has arrived. */
  predicate Hears(heads: seq<Head>, j: nat)
    decreases |heads| - j
  {
    j < |heads| &&
    match heads[j]
      case Over => Hears(heads, j + 2)
      case Data(_) => false
      case Quiet => true
  }

  /** The pass is before position `j` of the vector `ps` it started with, and at `at` of what is
      left of it. */
  ghost predicate Behind(ps: seq<Id>, members: map<Id, Member>, j: nat, parts: seq<Id>, members': map<Id, Member>,
      at: nat) {
    && Known(ps, members) && at <= |parts|
    && (if j <= |ps| then parts[at..] == ps[j..] else at == |parts|)
    && forall i | j <= i < |ps| :: ps[i] in members' && members'[ps[i]] == members[ps[i]]
  }

  lemma BehindHead(ps: seq<Id>, members: map<Id, Member>, j: nat, parts: seq<Id>, members': map<Id, Member>, at: nat)
    requires Behind(ps, members, j, parts, members', at) && at < |parts|
    ensures j < |ps| && parts[at] == ps[j] && parts[at] in members'
      && HeadOf(members'[parts[at]]) == Heads(ps, members)[j]
  {
    assert j <= |ps| && parts[at..][0] == parts[at];
  }

  lemma BehindNext(ps: seq<Id>, members: map<Id, Member>, j: nat, parts: seq<Id>, members': map<Id, Member>, at: nat)
    requires Behind(ps, members, j, parts, members', at) && at < |parts|
    ensures Behind(ps, members, j + 1, parts, members', at + 1)
  {
    BehindHead(ps, members, j, parts, members', at);
    assert parts[at + 1..] == parts[at..][1..] && ps[j + 1..] == ps[j..][1..];
  }

  lemma BehindErase(ps: seq<Id>, members: map<Id, Member>, j: nat, parts: seq<Id>, t: Team, at: nat)
    requires Behind(ps, members, j, parts, t.members, at) && at < |parts| && Distinct(ps)
    requires parts[at] in t.members && HeadOf(t.members[parts[at]]).Over?
    ensures var parts' := Erase(parts, at);
            Behind(ps, members, j + 2, parts', Retire(t, parts[at]).members, if at < |parts'| then at + 1 else at)
  {
    var parts', members' := Erase(parts, at), Retire(t, parts[at]).members;
    BehindHead(ps, members, j, parts, t.members, at);
    BehindNext(ps, members, j, parts, t.members, at);
    assert parts'[at..] == parts[at + 1..] == ps[j + 1..];
    assert at < |parts'| ==> parts'[at + 1..] == parts'[at..][1..] && ps[j + 2..] == ps[j + 1..][1..];
  }

  /** The senders in `ids` are as they were. */
  ghost predicate SameFor(ids: seq<Id>, members: map<Id, Member>, members': map<Id, Member>) {
    forall i | 0 <= i < |ids| :: ids[i] in members && ids[i] in members' && members'[ids[i]] == members[ids[i]]
  }

  lemma NothingArrives(all: map<Id, seq<Frame>>, order: seq<Id>, ps: seq<Id>, t: Team)
    requires Rows(all, order, t) && ps == Live(order, t.gone, |order|)
    ensures SameFor(ps, t.members, Arrive(t, map[]).members)
  {
    forall i | 0 <= i < |ps| ensures ps[i] in t.members && Arrive(t, map[]).members[ps[i]] == t.members[ps[i]] {
      LiveMembers(order, t.gone, |order|, ps[i]);
      assert order[..|order|] == order && RowAt(all, t, ps[i]);
    }
  }

  lemma EraseSame(ps: seq<Id>, members: map<Id, Member>, t: Team, at: nat)
    requires SameFor(ps, members, t.members) && Distinct(ps) && at < |ps| && HeadOf(t.members[ps[at]]).Over?
    ensures SameFor(Erase(ps, at), members, Retire(t, ps[at]).members)
  {
    forall i | 0 <= i < |ps| - 1 ensures Erase(ps, at)[i] == ps[if i < at then i else i + 1] {}
  }

  /** What one turn at position `at` makes of the vector when nothing arrives. */
  ghost predicate Looked(ps: seq<Id>, members: map<Id, Member>, at: nat, ps': seq<Id>, members': map<Id, Member>,
                         size: nat, idx: int) {
    at < |ps| && ps[at] in members &&
    match HeadOf(members[ps[at]])
    case Over => size == 0 && ps' == Erase(ps, at) && SameFor(ps', members, members')
    case Data(n) => size == n && ps' == ps && idx == at
    case Quiet => size == 0 && ps' == ps && SameFor(ps, members, members')
  }

  /** The blocking scan that started with `ps` is before position `j` of it, on its first round, and
      the message at `f` is the next that it will find. */
  ghost predicate OnTrack(ps: seq<Id>, members: map<Id, Member>, f: int, j: nat, parts: seq<Id>,
                          members': map<Id, Member>, at: nat) {
    Behind(ps, members, j, parts, members', at) && Pass(Heads(ps, members), j) == f >= 0
  }

  lemma StaysOnTrack(ps: seq<Id>, members: map<Id, Member>, f: int, j: nat, parts: seq<Id>, now: map<Id, Member>,
                     at: nat, parts': seq<Id>, now': map<Id, Member>, size: nat, idx: int)
    returns (j': nat)
    requires OnTrack(ps, members, f, j, parts, now, at) && at < |parts|
    requires Looked(parts, now, at, parts', now', size, idx)
    ensures if size > 0 then 0 <= idx < |parts'| && f < |ps| && parts'[idx] == ps[f]
            else OnTrack(ps, members, f, j', parts', now', if at + 1 >= |parts'| then 0 else at + 1)
  {
    j' := j;
    BehindHead(ps, members, j, parts, now, at);
    match HeadOf(now[parts[at]])
    case Over =>
      j' := j + 2;
      BehindOver(ps, members, j, parts, now, at, now');
    case Data(_) =>
    case Quiet =>
      j' := j + 1;
      BehindNext(ps, members, j, parts, now, at);
      BehindSame(ps, members, j + 1, parts, now, at + 1, now');
  }

  lemma BehindSame(ps: seq<Id>, members: map<Id, Member>, j: nat, parts: seq<Id>, now: map<Id, Member>, at: nat,
                   now': map<Id, Member>)
    requires Behind(ps, members, j, parts, now, at) && SameFor(parts, now, now')
    ensures Behind(ps, members, j, parts, now', at)
  {
    forall i | j <= i < |ps| ensures ps[i] in now' && now'[ps[i]] == members[ps[i]] {
      assert ps[i] == ps[j..][i - j] == parts[at + (i - j)];
    }
  }

  lemma BehindOver(ps: seq<Id>, members: map<Id, Member>, j: nat, parts: seq<Id>, now: map<Id, Member>, at: nat,
                   now': map<Id, Member>)
    requires Behind(ps, members, j, parts, now, at) && at < |parts| && SameFor(Erase(parts, at), now, now')
    requires j + 2 < |ps|
    ensures at + 1 < |parts| - 1 && Behind(ps, members, j + 2, Erase(parts, at), now', at + 1)
  {
    var parts' := Erase(parts, at);
    BehindHead(ps, members, j, parts, now, at);
    assert parts'[at..] == parts[at + 1..] == ps[j + 1..] by { BehindNext(ps, members, j, parts, now, at); }
    assert parts'[at + 1..] == parts'[at..][1..] && ps[j + 2..] == ps[j + 1..][1..];
    forall i | j + 2 <= i < |ps| ensures ps[i] in now' && now'[ps[i]] == members[ps[i]] {
      assert ps[i] == ps[j + 2..][i - j - 2] == parts'[at + 1 + (i - j - 2)];
    }
  }

  /** How many finished senders stand immediately before position `j`. */
  function Run(heads: seq<Head>, j: nat): nat
    requires j <= |heads|
  {
    if j > 0 && heads[j - 1].Over? then 1 + Run(heads, j - 1) else 0
  }

  /** A message that a pass can find: an even number of finished senders stands before it. */
  predicate Reachable(heads: seq<Head>, j: nat) {
    j < |heads| && heads[j].Data? && Run(heads, j) % 2 == 0
  }

  /** A non-blocking probe finds the first message with an even number of finished senders just
      before it, and overlooks every other. */
  lemma {:induction false} PassFinds(heads: seq<Head>, j: nat)
    requires j <= |heads| ==> Run(heads, j) % 2 == 0
    ensures Pass(heads, j) == -1 <==> forall x | j <= x < |heads| :: !Reachable(heads, x)
    ensures Pass(heads, j) != -1 ==>
              var f := Pass(heads, j); f >= j && Reachable(heads, f) && forall x | j <= x < f :: !Reachable(heads, x)
    decreases |heads| - j
  {
    if j < |heads| {
      match heads[j]
      case Over =>
        assert j + 1 < |heads| ==> Run(heads, j + 1) == Run(heads, j) + 1;
        assert !Reachable(heads, j + 1);
        PassFinds(heads, j + 2);
      case Data(_) => assert Reachable(heads, j);
      case Quiet => PassFinds(heads, j + 1);
    }
  }

  /** A pending message that a non-blocking probe overlooks: the sender before it has finished. */
  lemma PassOverlooks()
    ensures var heads := [Over, Data(1)]; heads[1].Data? && Pass(heads, 0) == -1
  {
  }

  /** A silent sender that a pass looks at: an even number of finished senders stands before it. */
  predicate Audible(heads: seq<Head>, j: nat) {
    j < |heads| && heads[j].Quiet? && Run(heads, j) % 2 == 0
  }

  /** A pass that finds no message looks at a silent sender, and so sets `errno`, exactly when one
      stands behind an even number of finished ones. */
  lemma {:induction false} HearsIff(heads: seq<Head>, j: nat)
    requires (j <= |heads| ==> Run(heads, j) % 2 == 0) && Pass(heads, j) == -1
    ensures Hears(heads, j) <==> exists x | j <= x < |heads| :: Audible(heads, x)
    decreases |heads| - j
  {
    if j < |heads| {
      match heads[j]
      case Over =>
        assert j + 1 < |heads| ==> Run(heads, j + 1) == Run(heads, j) + 1;
        assert !Audible(heads, j) && !Audible(heads, j + 1);
        HearsIff(heads, j + 2);
      case Quiet => assert Audible(heads, j);
    }
  }

  /** A pass that returns -1 with `errno` as it was, although a sender is silent: it erases the
      first one, passes over the second and ends. */
  lemma PassIsSilent()
    ensures var heads := [Over, Quiet]; Pass(heads, 0) == -1 && !Hears(heads, 0) && !Audible(heads, 1)
  {
    var heads := [Over, Quiet];
    assert Run(heads, 0) == 0 && Run(heads, 1) == 1;
    HearsIff(heads, 0);
  }

  // ---- Every run of the root ----------------------------------------------------------------

  datatype Action = DoArrive(more: map<Id, nat>) | DoLook(at: nat) | DoReceive

  ghost predicate Enabled(order: seq<Id>, t: Team, a: Action) {
    match a
    case DoArrive(_) => true
    case DoLook(at) => t.probed == {} && at < |Live(order, t.gone, |order|)|
      && Live(order, t.gone, |order|)[at] in t.members
    case DoReceive => exists id :: id in order && t.probed == {id}
  }

  ghost predicate Step(order: seq<Id>, t: Team, a: Action, t': Team) {
    && Enabled(order, t, a)
    && match a
       case DoArrive(more) => t' == Arrive(t, more)
       case DoLook(at) =>
         var id := Live(order, t.gone, |order|)[at];
         (match HeadOf(t.members[id])
          case Over => t' == Retire(t, id)
          case Data(_) => t' == Announce(t, id)
          case Quiet => t' == t)
       case DoReceive =>
         exists id | id in order && t.probed == {id} ::
           id in t.members && id in t.got && HeadOf(t.members[id]).Data? && t' == Receive(t, id)
  }

  lemma StepRows(all: map<Id, seq<Frame>>, order: seq<Id>, t: Team, a: Action, t': Team)
    requires Rows(all, order, t) && Step(order, t, a, t')
    ensures Rows(all, order, t')
  {
    match a
    case DoArrive(more) => ArriveRows(all, order, t, more);
    case DoLook(at) =>
      var id := Live(order, t.gone, |order|)[at];
      LiveMembers(order, t.gone, |order|, id);
      assert order[..|order|] == order;
      match HeadOf(t.members[id]) {
        case Over => RetireRows(all, order, t, id);
        case Data(_) => AnnounceRows(all, order, t, id);
        case Quiet =>
      }
    case DoReceive =>
      var id :| id in order && t.probed == {id} && id in t.members && id in t.got
        && HeadOf(t.members[id]).Data? && t' == Receive(t, id);
      ReceiveRows(all, order, t, id);
  }

  ghost predicate IsRun(all: map<Id, seq<Frame>>, order: seq<Id>, ts: seq<Team>, actions: seq<Action>) {
    && |ts| == |actions| + 1 && ts[0] == Start(all)
    && Distinct(order) && (forall id | id in order :: id in all)
    && forall i | 0 <= i < |actions| :: Step(order, ts[i], actions[i], ts[i + 1])
  }

  lemma {:induction false} RunRows(all: map<Id, seq<Frame>>, order: seq<Id>, ts: seq<Team>, actions: seq<Action>,
      n: nat)
    requires IsRun(all, order, ts, actions) && n < |ts|
    ensures Rows(all, order, ts[n])
  {
    if n == 0 {
      StartRows(all, order);
    } else {
      RunRows(all, order, ts, actions, n - 1);
      assert Step(order, ts[n - 1], actions[n - 1], ts[n]);
      StepRows(all, order, ts[n - 1], actions[n - 1], ts[n]);
    }
  }

  /** From every sender the root gets that sender's messages in the sender's order, whatever the
      interleaving; from one that is gone it has got them all. */
  lemma SenderOrder(all: map<Id, seq<Frame>>, order: seq<Id>, ts: seq<Team>, actions: seq<Action>, n: nat, id: Id)
    requires IsRun(all, order, ts, actions) && n < |ts| && id in order
    ensures id in ts[n].got && ts[n].got[id] <= Messages(all[id])
    ensures id in ts[n].gone ==> ts[n].got[id] == Messages(all[id])
    ensures id in ts[n].members && ts[n].members[id].peer.sent == if id in ts[n].gone then [EOS] else []
  {
    RunRows(all, order, ts, actions, n);
    assert RowAt(all, ts[n], id);
    MessagesStart(all[id], |ts[n].got[id]|);
    if id in ts[n].gone { MessagesAre(all[id], |ts[n].got[id]|); }
  }

  /** The vector is empty, and the EOS of the group reported, exactly when the EOS of every sender
      has been consumed. */
  lemma GroupEnds(order: seq<Id>, gone: set<Id>)
    ensures Live(order, gone, |order|) == [] <==> forall id | id in order :: id in gone
  {
    var live := Live(order, gone, |order|);
    assert order[..|order|] == order;
    if live != [] {
      LiveMembers(order, gone, |order|, live[0]);
    } else {
      forall id | id in order ensures id in gone { LiveMembers(order, gone, |order|, id); }
    }
  }
}
