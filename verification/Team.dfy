/** `Manager::createTeam`: ranks and participant order, and the root's vector of handles, built
    from connections that arrive in any order. */
module Team {
  import opened Bytes
  import opened Connector
  import opened TeamRuns

  type App = string
  type TeamId = string

  /** The participants without the root, in their order. */
  function Ordering(names: seq<App>, root: App, k: nat): seq<App>
    requires k <= |names|
  {
    if k == 0 then [] else Ordering(names, root, k - 1) + if names[k - 1] == root then [] else [names[k - 1]]
  }

  /** The last position of `me` before `k`, or 0. */
  function RankOf(names: seq<App>, me: App, k: nat): nat
    requires k <= |names|
  {
    if k == 0 then 0 else if names[k - 1] == me then k - 1 else RankOf(names, me, k - 1)
  }

  /** The loop over the participants string. */
  method Scan(names: seq<App>, root: App, me: App) returns (rank: nat, size: nat, ordering: seq<App>, rootOk: bool)
    ensures size == |names| && rank == RankOf(names, me, |names|) && ordering == Ordering(names, root, |names|)
    ensures rootOk <==> root in names
    // the last position under the own name, and 0 without one; everybody but the root
    ensures if me in names then rank < |names| && names[rank] == me && forall i | rank < i < |names| :: names[i] != me
            else rank == 0
    ensures forall app :: app in ordering <==> app in names && app != root
  {
    rank, size, ordering, rootOk := 0, 0, [], false;
    while size < |names|
      invariant size <= |names| && rank == RankOf(names, me, size) && ordering == Ordering(names, root, size)
      invariant rootOk <==> root in names[..size]
    {
      var line := names[size];
      if line == me { rank := size; }
      if line == root { rootOk := true; } else { ordering := ordering + [line]; }
      assert names[..size + 1] == names[..size] + [line];
      size := size + 1;
    }
    assert names[..|names|] == names;
    RankIsLast(names, me, size);
    forall app ensures app in ordering <==> app in names && app != root { OrderingMembers(names, root, size, app); }
  }

  lemma {:induction false} RankIsLast(names: seq<App>, me: App, k: nat)
    requires k <= |names|
    ensures var r := RankOf(names, me, k);
            && (me in names[..k] ==> r < k && names[r] == me && forall i | r < i < k :: names[i] != me)
            && (me !in names[..k] ==> r == 0)
  {
    if k > 0 {
      RankIsLast(names, me, k - 1);
      assert names[..k] == names[..k - 1] + [names[k - 1]];
    }
  }

  lemma {:induction false} OrderingMembers(names: seq<App>, root: App, k: nat, app: App)
    requires k <= |names|
    ensures app in Ordering(names, root, k) <==> app in names[..k] && app != root
  {
    if k > 0 {
      OrderingMembers(names, root, k - 1, app);
      assert names[..k] == names[..k - 1] + [names[k - 1]];
    }
  }

  lemma {:induction false} RankIsPosition(names: seq<App>, i: nat, k: nat)
    requires i < k <= |names| && Distinct(names)
    ensures RankOf(names, names[i], k) == i
  {
    if i < k - 1 { RankIsPosition(names, i, k - 1); }
  }

  /** Slot `i` belongs to the member of rank `i`, or `i + 1` once the root's own rank is passed. */
  lemma {:induction false} OrderingSlots(names: seq<App>, rootRank: nat, k: nat)
    requires rootRank < |names| && Distinct(names) && k <= |names|
    ensures var o := Ordering(names, names[rootRank], k);
            && |o| == (if k <= rootRank then k else k - 1)
            && forall i | 0 <= i < |o| :: RankOfSlot(i, rootRank) < |names| && o[i] == names[RankOfSlot(i, rootRank)]
  {
    if k > 0 { OrderingSlots(names, rootRank, k - 1); }
  }

  // ---- Arrivals -----------------------------------------------------------------------------

  /** A connection of the application `app` for this team. */
  datatype Arrival = Arrival(app: App, handle: HandleId)

  /** `std::map::insert`: the first connection of an application wins. */
  function Insert(group: map<App, HandleId>, a: Arrival): map<App, HandleId> {
    if a.app in group then group else group[a.app := a.handle]
  }

  function Arrived(s: seq<Arrival>, k: nat): map<App, HandleId>
    requires k <= |s|
  {
    if k == 0 then map[] else Insert(Arrived(s, k - 1), s[k - 1])
  }

  /** What has arrived stays: a second connection under the same name changes nothing. */
  lemma {:induction false} ArrivedKeeps(s: seq<Arrival>, j: nat, k: nat, app: App)
    requires j <= k <= |s| && app in Arrived(s, j)
    ensures app in Arrived(s, k) && Arrived(s, k)[app] == Arrived(s, j)[app]
  {
    if j < k { ArrivedKeeps(s, j, k - 1, app); }
  }

  lemma {:induction false} ArrivedFrom(s: seq<Arrival>, k: nat, app: App)
    requires k <= |s|
    ensures app in Arrived(s, k) ==> exists i | 0 <= i < k :: s[i] == Arrival(app, Arrived(s, k)[app])
    ensures forall i | 0 <= i < k && s[i].app == app :: app in Arrived(s, k)
  {
    if k > 0 {
      ArrivedFrom(s, k - 1, app);
      assert s[k - 1] == Arrival(s[k - 1].app, s[k - 1].handle);
    }
  }

  /** Every application connects once. */
  ghost predicate ConnectOnce(s: seq<Arrival>) {
    forall i, j | 0 <= i < |s| && 0 <= j < |s| && s[i].app == s[j].app :: s[i] == s[j]
  }

  /** The root's wait ends: as many connections as other members. */
  ghost predicate Ready(s: seq<Arrival>, k: nat, ordering: seq<App>) {
    k <= |s| && |Arrived(s, k)| == |ordering|
  }

  /** Only members connect, so that the group is complete when the count is right. */
  lemma ReadyIsComplete(s: seq<Arrival>, k: nat, ordering: seq<App>)
    requires Ready(s, k, ordering) && Distinct(ordering) && OnlyMembers(s, ordering)
    ensures forall app | app in ordering :: app in Arrived(s, k)
  {
    DistinctSize(ordering, |ordering|);
    forall app | app in Arrived(s, k) ensures app in Names(ordering, |ordering|) {
      ArrivedFrom(s, k, app);
      NamesAre(ordering, |ordering|, app);
    }
    SameSize(Arrived(s, k).Keys, Names(ordering, |ordering|));
    forall app | app in ordering ensures app in Arrived(s, k) { NamesAre(ordering, |ordering|, app); }
  }

  ghost predicate OnlyMembers(s: seq<Arrival>, ordering: seq<App>) {
    forall i | 0 <= i < |s| :: s[i].app in ordering
  }

  function Names(names: seq<App>, k: nat): set<App>
    requires k <= |names|
  {
    if k == 0 then {} else Names(names, k - 1) + {names[k - 1]}
  }

  lemma {:induction false} NamesAre(names: seq<App>, k: nat, app: App)
    requires k <= |names|
    ensures app in Names(names, k) <==> exists i | 0 <= i < k :: names[i] == app
  {
    if k > 0 { NamesAre(names, k - 1, app); }
  }

  lemma {:induction false} DistinctSize(names: seq<App>, k: nat)
    requires k <= |names| && Distinct(names)
    ensures |Names(names, k)| == k
  {
    if k > 0 {
      DistinctSize(names, k - 1);
      NamesAre(names, k - 1, names[k - 1]);
    }
  }

  lemma {:induction false} SameSize<T>(a: set<T>, b: set<T>)
    requires a <= b && |a| == |b|
    ensures a == b
  {
    if x :| x in b && x !in a {
      SubsetSize(a, b - {x});
    }
  }

  lemma {:induction false} SubsetSize<T>(a: set<T>, b: set<T>)
    requires a <= b
    ensures |a| <= |b|
  {
    if x :| x in a { SubsetSize(a - {x}, b - {x}); }
  }

  class Manager {
    /** The connections received so far for each team. */
    var groupsReady: map<TeamId, map<App, HandleId>>

    /** `addinQ` for a connection of a collective. */
    method AddinQ(team: TeamId, a: Arrival)
      modifies this
      ensures team in groupsReady && groupsReady == old(groupsReady)[team := groupsReady[team]]
      ensures groupsReady[team] == Insert(if team in old(groupsReady) then old(groupsReady)[team] else map[], a)
      ensures a.app in groupsReady[team]
      ensures if team in old(groupsReady) && a.app in old(groupsReady)[team] then groupsReady == old(groupsReady)
              else groupsReady[team][a.app] == a.handle
    {
      var group: map<App, HandleId> := if team in groupsReady then groupsReady[team] else map[];
      if a.app !in group { group := group[a.app := a.handle]; }
      groupsReady := groupsReady[team := group];
    }

    /** The root takes the handles of a complete group, in participant order. */
    method TakeGroup(team: TeamId, ordering: seq<App>) returns (handles: seq<HandleId>)
      requires team in groupsReady && forall app | app in ordering :: app in groupsReady[team]
      modifies this
      ensures |handles| == |ordering|
      ensures forall i | 0 <= i < |ordering| :: handles[i] == old(groupsReady)[team][ordering[i]]
      ensures groupsReady == old(groupsReady) - {team}
    {
      handles := [];
      while |handles| < |ordering|
        invariant |handles| <= |ordering|
        invariant forall i | 0 <= i < |handles| :: handles[i] == groupsReady[team][ordering[i]]
      {
        handles := handles + [groupsReady[team][ordering[|handles|]]];
      }
      groupsReady := groupsReady - {team};
    }

    /** The group table when the first `k` connections of `s` have arrived for the team. */
    ghost predicate Holds(team: TeamId, s: seq<Arrival>, k: nat)
      reads this
    {
      k <= |s| && if k == 0 then team !in groupsReady else team in groupsReady && groupsReady[team] == Arrived(s, k)
    }

    /** The root's wait. Some connections, `before` of them, may have arrived before `createTeam` was
        called; the others are added as they arrive, until the team is in the table with as many
        connections as there are other members. */
    method AwaitGroup(team: TeamId, ordering: seq<App>, s: seq<Arrival>, before: nat)
      returns (handles: seq<HandleId>, k: nat)
      requires Holds(team, s, before) && Distinct(ordering) && OnlyMembers(s, ordering)
      requires ordering != [] && Everybody(s, ordering)
      modifies this
      ensures before <= k && Built(s, k, ordering, handles) && groupsReady == old(groupsReady) - {team}
    {
      k := before;
      ghost var others := groupsReady - {team};
      while team !in groupsReady || |groupsReady[team]| != |ordering|
        invariant before <= k && Holds(team, s, k) && groupsReady - {team} == others
        decreases |s| - k
      {
        MoreToCome(s, k, ordering);
        NextArrives(team, s, k);
        k := k + 1;
      }
      handles := TakeReady(team, ordering, s, k);
    }

    /** The wait is over after `k` connections. */
    method TakeReady(team: TeamId, ordering: seq<App>, ghost s: seq<Arrival>, ghost k: nat)
      returns (handles: seq<HandleId>)
      requires Holds(team, s, k) && Distinct(ordering) && OnlyMembers(s, ordering)
      requires team in groupsReady && |groupsReady[team]| == |ordering|
      modifies this
      ensures Built(s, k, ordering, handles) && groupsReady == old(groupsReady) - {team}
    {
      ReadyIsComplete(s, k, ordering);
      handles := TakeGroup(team, ordering);
    }

    /** Connection `k` arrives. */
    method NextArrives(team: TeamId, s: seq<Arrival>, k: nat)
      requires Holds(team, s, k) && k < |s|
      modifies this
      ensures Holds(team, s, k + 1) && groupsReady - {team} == old(groupsReady) - {team}
    {
      ghost var was := groupsReady;
      AddinQ(team, s[k]);
      assert groupsReady - {team} == was - {team};
    }
  }

  /** The root goes on waiting: nobody has connected, or not as many as there are other members. */
  ghost predicate Waits(s: seq<Arrival>, k: nat, ordering: seq<App>)
    requires k <= |s|
  {
    k == 0 || |Arrived(s, k)| != |ordering|
  }

  /** While the root waits, somebody has yet to connect. */
  lemma MoreToCome(s: seq<Arrival>, k: nat, ordering: seq<App>)
    requires Distinct(ordering) && OnlyMembers(s, ordering) && ordering != [] && Everybody(s, ordering)
    requires k <= |s| && Waits(s, k, ordering)
    ensures k < |s|
  {
    EverybodyArrives(s, ordering);
    assert ordering[0] in ordering;
  }

  lemma ArrivedNotEmpty(s: seq<Arrival>, k: nat)
    requires 0 < k <= |s|
    ensures |Arrived(s, k)| > 0
  {
    ArrivedFrom(s, k, s[0].app);
    assert s[0].app in Arrived(s, k);
  }

  /** The wait ends exactly when there is another member and every one connects: a root that is
      alone in its team waits forever. */
  lemma WaitEndsIff(s: seq<Arrival>, ordering: seq<App>)
    requires Distinct(ordering) && OnlyMembers(s, ordering)
    ensures (exists k | 0 <= k <= |s| :: !Waits(s, k, ordering)) <==> ordering != [] && Everybody(s, ordering)
  {
    if k :| 0 <= k <= |s| && !Waits(s, k, ordering) {
      ArrivedNotEmpty(s, k);
      ReadyIsComplete(s, k, ordering);
      forall app | app in ordering ensures exists i | 0 <= i < |s| :: s[i].app == app { ArrivedFrom(s, k, app); }
    }
    if ordering != [] && Everybody(s, ordering) {
      EverybodyArrives(s, ordering);
      assert ordering[0] in ordering;
      assert !Waits(s, |s|, ordering);
    }
  }

  ghost predicate Everybody(s: seq<Arrival>, ordering: seq<App>) {
    forall app | app in ordering :: exists i | 0 <= i < |s| :: s[i].app == app
  }

  /** When everybody has connected the count is right. */
  lemma EverybodyArrives(s: seq<Arrival>, ordering: seq<App>)
    requires Distinct(ordering) && OnlyMembers(s, ordering) && Everybody(s, ordering)
    ensures Ready(s, |s|, ordering)
  {
    var names, group := Names(ordering, |ordering|), Arrived(s, |s|);
    DistinctSize(ordering, |ordering|);
    forall app ensures app in group <==> app in names {
      ArrivedFrom(s, |s|, app);
      NamesAre(ordering, |ordering|, app);
      assert app in names <==> app in ordering;
    }
    assert group.Keys == names;
  }

  /** `handles` is what the root builds when the connections arrived as `s` and the wait ended
      after `k` of them. */
  ghost predicate Built(s: seq<Arrival>, k: nat, ordering: seq<App>, handles: seq<HandleId>) {
    && Ready(s, k, ordering) && |handles| == |ordering|
    && forall i | 0 <= i < |ordering| :: ordering[i] in Arrived(s, k) && handles[i] == Arrived(s, k)[ordering[i]]
  }

  /** Whatever the order of arrival and the moment the root looks, the vector is the same. */
  lemma ArrivalOrderIrrelevant(s: seq<Arrival>, t: seq<Arrival>, k: nat, l: nat, ordering: seq<App>, a: seq<HandleId>,
      b: seq<HandleId>)
    requires ConnectOnce(s) && (forall x :: x in s <==> x in t)
    requires Built(s, k, ordering, a) && Built(t, l, ordering, b)
    ensures a == b
  {
    forall i | 0 <= i < |ordering| ensures a[i] == b[i] {
      ArrivedFrom(s, k, ordering[i]);
      ArrivedFrom(t, l, ordering[i]);
      var x := Arrival(ordering[i], a[i]);
      var y := Arrival(ordering[i], b[i]);
      assert x in s && y in t;
    }
  }

  /** Data lands by rank and not by arrival: slot `i` holds the connection of the member whose own
      rank is `RankOfSlot(i, rootRank)`, which is `i + 1` when the root comes first. */
  lemma SlotIsRank(names: seq<App>, rootRank: nat, s: seq<Arrival>, k: nat, handles: seq<HandleId>, i: nat)
    requires rootRank < |names| && Distinct(names)
    requires Built(s, k, Ordering(names, names[rootRank], |names|), handles) && i < |handles|
    ensures var rank := RankOfSlot(i, rootRank);
            && rank < |names| && RankOf(names, names[rank], |names|) == rank
            && Arrival(names[rank], handles[i]) in s
            && (rootRank == 0 ==> rank == i + 1)
  {
    var ordering := Ordering(names, names[rootRank], |names|);
    OrderingSlots(names, rootRank, |names|);
    RankIsPosition(names, RankOfSlot(i, rootRank), |names|);
    ArrivedFrom(s, k, ordering[i]);
  }
}
