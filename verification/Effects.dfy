/** What every public operation on handles and wrappers changes, field by field and in closed form:
    the flags, counters and descriptor of the handle, its wrapper, the queue, the table and the
    watched set. Whatever is not named stays as it is. */
module Effects {
  import opened Connector
  import opened Lifecycle
  import opened LifecycleRuns

  /** `hd'` is `hd` with its write side closed (`wr`) or its read side (`rd`). EOS goes out when the
      write side closes; the descriptor is closed when both sides are, and the object deleted when in
      addition nothing refers to it. */
  ghost predicate Shut(hd: Handle, hd': Handle, wr: bool, rd: bool) {
    && hd'.closedWr == (hd.closedWr || wr) && hd'.closedRd == (hd.closedRd || rd)
    && hd'.eos == hd.eos + (if wr && !hd.closedWr then 1 else 0)
    && hd'.counter == hd.counter
    && (if hd'.closedWr && hd'.closedRd then hd'.fd == -1 && hd'.closes == 1 else hd'.fd == hd.fd && hd'.closes == 0)
    && hd'.deletes == (if hd'.closedWr && hd'.closedRd && hd.counter == 0 then 1 else 0)
  }

  /** Handle `h` is shut so, and no other changes; closing the read side takes its descriptor out of
      the table and the watched set, closing the write side does not. */
  ghost predicate Shuts(w: World, w': World, h: HandleId, wr: bool, rd: bool) {
    && h in w.handles && h in w'.handles && w'.handles == w.handles[h := w'.handles[h]]
    && Shut(w.handles[h], w'.handles[h], wr, rd)
    && w'.connections == (if rd then w.connections - {w.handles[h].fd} else w.connections)
    && w'.watched == (if rd then w.watched - {w.handles[h].fd} else w.watched)
    && w'.listenSck == w.listenSck && w'.queue == w.queue
  }

  /** Closing one handle, by itself: its descriptor is dropped from table and set if it is closed for
      reading and still has one. */
  lemma ClosedShut(v: View, wr: bool, rd: bool)
    requires Ok(v) && v.handle.Alive()
    ensures var (hd, drops) := Closed(v.handle, v.listed, wr, rd);
            && Shut(v.handle, hd, wr, rd)
            && drops == ((rd || v.handle.closedRd) && v.handle.fd != -1)
  {
  }

  lemma CloseShuts(w: World, h: HandleId, wr: bool, rd: bool)
    requires Inv(w) && h in w.handles && w.handles[h].Alive()
    ensures Shuts(w, Close(w, h, wr, rd), h, wr, rd) && Close(w, h, wr, rd).users == w.users
  {
    assert Fine(w, h);
    ListedIff(w, h);
    ClosedShut(ViewOf(w, h), wr, rd);
    CloseIsChange(w, h, wr, rd);
    var (hd, drops) := Closed(w.handles[h], ViewOf(w, h).listed, wr, rd);
    ChangeShuts(w, h, hd, drops, wr, rd);
  }

  lemma ChangeShuts(w: World, h: HandleId, hd: Handle, drops: bool, wr: bool, rd: bool)
    requires h in w.handles && Shut(w.handles[h], hd, wr, rd)
    requires w.handles[h].closedRd ==> w.handles[h].fd !in w.connections && w.handles[h].fd !in w.watched
    requires w.handles[h].fd >= -1 && drops == ((rd || w.handles[h].closedRd) && w.handles[h].fd != -1)
    ensures Shuts(w, Change(w, h, hd, if drops then {w.handles[h].fd} else {}), h, wr, rd)
  {
  }

  /** Whose descriptor is in the table, and that nothing is listed or watched under none. */
  lemma ListedIff(w: World, h: HandleId)
    requires Inv(w) && h in w.handles
    ensures w.handles[h].fd >= -1 && (w.handles[h].fd in w.connections <==> ViewOf(w, h).listed)
    ensures w.handles[h].closedRd ==> w.handles[h].fd !in w.connections && w.handles[h].fd !in w.watched
  {
    assert Fine(w, h);
  }

  // ---- The operations -----------------------------------------------------------------------

  /** A new connection, held by one readable wrapper that says so. */
  ghost predicate Connects(w: World, w': World, h: HandleId, fd: Fd, u: UserId) {
    && w'.handles == w.handles[h := Handle(fd, false, false, 1, 0, 0, 0)]
    && w'.users == w.users[u := HandleUser(Some(h), true, true)]
    && w'.connections == w.connections[fd := h]
    && w'.watched == w.watched && w'.listenSck == w.listenSck
  }

  /** A watched connection becomes a readable wrapper at the end of the queue. */
  ghost predicate Readies(w: World, w': World, fd: Fd, u: UserId) {
    && fd in w.connections && w.connections[fd] in w.handles && w'.connections == w.connections
    && w'.watched == w.watched - {fd} && w'.listenSck == w.listenSck && w'.queue == w.queue + [u]
    && var h := w.connections[fd];
       && w'.users == w.users[u := HandleUser(Some(h), true, false)]
       && w'.handles == w.handles[h := w.handles[h].(counter := w.handles[h].counter + 1)]
  }

  /** The front of the queue becomes `u`, or there is none and `u` has no handle. */
  ghost predicate Takes(w: World, w': World, u: UserId) {
    && w' == w.(users := w'.users, queue := w'.queue)
    && if w.queue == [] then w'.queue == [] && w'.users == w.users[u := HandleUser(None, true, true)]
       else
         && w'.queue == w.queue[1..] && w.queue[0] in w.users
         && w'.users == (w.users - {w.queue[0]})[u := w.users[w.queue[0]]]
  }

  /** `to` takes over from `from`, which is left empty. */
  ghost predicate Moves(w: World, w': World, to: UserId, from: UserId) {
    && w' == w.(users := w'.users) && from in w.users
    && w'.users == if to == from then w.users else w.users[to := w.users[from]][from := HandleUser(None, false, false)]
  }

  /** The wrapper is no longer readable, and a handle open for reading is watched again. */
  ghost predicate Yields(w: World, w': World, u: UserId) {
    && w' == w.(users := w'.users, watched := w'.watched) && u in w.users
    && w'.users == w.users[u := HandleUser(w.users[u].handle, false, false)]
    && w'.watched == Regained(w, w.users[u].handle)
  }

  function Regained(w: World, handle: Option<HandleId>): set<Fd> {
    if handle.Some? && handle.value in w.handles && !w.handles[handle.value].closedRd && w.handles[handle.value].fd >= 0
    then w.watched + {w.handles[handle.value].fd} else w.watched
  }

  /** The end of the stream closes the read side, end of file and a reset both; the wrapper stays
      readable after a reset alone. */
  ghost predicate EndsOn(w: World, w': World, u: UserId, ending: Ending) {
    && u in w.users && w.users[u].handle.Some?
    && w'.users == w.users[u := HandleUser(w.users[u].handle, ending.Reset?, false)]
    && Shuts(w, w', w.users[u].handle.value, !ending.Eos?, true)
  }

  /** The program's `close`: the write side only. The read side, the table and the watched set stay. */
  ghost predicate Hangs(w: World, w': World, u: UserId) {
    && u in w.users && w'.users == w.users
    && if w.users[u].handle.Some? then Shuts(w, w', w.users[u].handle.value, true, false) else w' == w
  }

  /** The wrapper and its reference are gone, the handle with the last one if it is closed; a
      readable wrapper yields first. */
  ghost predicate Destroys(w: World, w': World, u: UserId) {
    && u in w.users && w' == w.(users := w.users - {u}, handles := w'.handles, watched := w'.watched)
    && w'.watched == (if w.users[u].readable then Regained(w, w.users[u].handle) else w.watched)
    && match w.users[u].handle
       case None => w'.handles == w.handles
       case Some(h) =>
         && h in w.handles
         && var hd := w.handles[h];
            var last := hd.counter == 1 && hd.closedWr && hd.closedRd;
            w'.handles == w.handles[h := hd.(counter := hd.counter - 1, deletes := if last then 1 else 0)]
  }

  /** What operation `a` makes of `w`. */
  ghost predicate Effect(w: World, a: Action, w': World) {
    match a
    case DoConnect(h, fd, u) => Connects(w, w', h, fd, u) && w'.queue == w.queue
    case DoAccept(h, fd, u) => Connects(w, w', h, fd, u) && w'.queue == w.queue + [u]
    case DoReady(fd, u) => Readies(w, w', fd, u)
    case DoGetNext(u) => Takes(w, w', u)
    case DoDeclare(u) => w' == w.(users := w.users[u := HandleUser(None, false, false)])
    case DoMove(to, from) => Moves(w, w', to, from)
    case DoUse(u) => u in w.users && w' == w.(users := w.users[u := w.users[u].(newConnection := false)])
    case DoYield(u) => Yields(w, w', u)
    case DoProbeEnds(u, ending) => EndsOn(w, w', u, ending)
    case DoClose(u) => Hangs(w, w', u)
    case DoDestroy(u) => Destroys(w, w', u)
    case DoSetAsClosed(h) => Shuts(w, w', h, true, true) && w'.users == w.users
    case DoListen(sck) => w' == w.(watched := {sck}, listenSck := sck)
  }

  lemma ReadiesStep(w: World, fd: Fd, u: UserId)
    requires Inv(w) && Enabled(w, DoReady(fd, u))
    ensures Readies(w, After(w, DoReady(fd, u)), fd, u)
  {
    assert fd in w.connections && w.connections[fd] in w.handles;
    ListedReadies(w, fd, u);
  }

  lemma ListedReadies(w: World, fd: Fd, u: UserId)
    requires fd in w.connections && w.connections[fd] in w.handles
    ensures Readies(w, Ready(w, fd, u), fd, u)
  {
  }

  lemma ConnectsStep(w: World, h: HandleId, fd: Fd, u: UserId)
    ensures var w' := Connected(w, h, fd, u); Connects(w, w', h, fd, u) && w'.queue == w.queue
  {
  }

  lemma MovesStep(w: World, to: UserId, from: UserId)
    requires from in w.users
    ensures Moves(w, Move(w, to, from), to, from)
  {
  }

  lemma TakesStep(w: World, u: UserId)
    requires Inv(w) && Enabled(w, DoGetNext(u))
    ensures Takes(w, After(w, DoGetNext(u)), u)
  {
    if w.queue != [] {
      var w', q := After(w, DoGetNext(u)), w.queue[0];
      assert q in w.queue && q != u;
      assert w'.users == (w.users - {q})[u := w.users[q]];
    }
  }

  lemma YieldsStep(w: World, u: UserId)
    requires Inv(w) && Mine(w, u)
    ensures w.users[u].handle.Some? ==> w.users[u].handle.value in w.handles
    ensures Yields(w, Yield(w, u), u)
  {
  }

  lemma EndsOnStep(w: World, u: UserId, ending: Ending)
    requires Inv(w) && Enabled(w, DoProbeEnds(u, ending))
    ensures EndsOn(w, After(w, DoProbeEnds(u, ending)), u, ending)
  {
    var h, user := w.users[u].handle.value, w.users[u].(newConnection := false);
    HeldIsAlive(w, u);
    CloseShuts(w, h, !ending.Eos?, true);
    CloseSetUser(w, u, user, h, !ending.Eos?, true);
    CloseSetUser(w, u, Quiet(user), h, !ending.Eos?, true);
    SetUserTwice(Close(w, h, false, true), u, user, Quiet(user));
  }

  lemma HangsStep(w: World, u: UserId)
    requires Inv(w) && Enabled(w, DoClose(u))
    ensures Hangs(w, After(w, DoClose(u)), u)
  {
    if w.users[u].handle.Some? {
      HeldIsAlive(w, u);
      CloseShuts(w, w.users[u].handle.value, true, false);
    }
  }

  lemma DestroysStep(w: World, u: UserId)
    requires Inv(w) && Enabled(w, DoDestroy(u))
    ensures Destroys(w, After(w, DoDestroy(u)), u)
  {
    if w.users[u].handle.Some? {
      HeldIsAlive(w, u);
      assert Fine(w, w.users[u].handle.value);
      YieldsStep(w, u);
      DetachDestroys(w, if w.users[u].readable then Yield(w, u) else w, u, w.users[u].handle.value);
    }
  }

  lemma DetachDestroys(w: World, w1: World, u: UserId, h: HandleId)
    requires u in w.users && w.users[u].handle == Some(h) && h in w.handles && w.handles[h].deletes == 0
    requires if w.users[u].readable then Yields(w, w1, u) else w1 == w
    ensures Destroys(w, Detach(w1, u, h), u)
  {
  }

  lemma SetAsClosedStep(w: World, h: HandleId)
    requires Inv(w) && h in w.handles && !w.handles[h].closedRd
    ensures Shuts(w, SetAsClosed(w, h), h, true, true) && SetAsClosed(w, h).users == w.users
  {
    assert Fine(w, h);
    if w.handles[h].closedWr {
      CloseShuts(w, h, false, true);
    } else {
      var w1 := Close(w, h, true, false);
      CloseShuts(w, h, true, false);
      CloseInv(w, h, true, false);
      CloseShuts(w1, h, false, true);
      ShutsTwice(w, w1, SetAsClosed(w, h), h);
    }
  }

  /** The write side and then the read side are both sides. */
  lemma ShutsTwice(w: World, w1: World, w2: World, h: HandleId)
    requires Shuts(w, w1, h, true, false) && Shuts(w1, w2, h, false, true) && !w.handles[h].closedRd
    ensures Shuts(w, w2, h, true, true)
  {
  }

  /** Every operation, in every state that can be reached, does exactly this. */
  lemma StepEffect(w: World, a: Action)
    requires Inv(w) && Enabled(w, a)
    ensures Effect(w, a, After(w, a))
  {
    match a
    case DoConnect(h, fd, u) => ConnectsStep(w, h, fd, u);
    case DoAccept(h, fd, u) => ConnectsStep(w, h, fd, u);
    case DoMove(to, from) => MovesStep(w, to, from);
    case DoReady(fd, u) => ReadiesStep(w, fd, u);
    case DoGetNext(u) => TakesStep(w, u);
    case DoYield(u) => YieldsStep(w, u);
    case DoProbeEnds(u, ending) => EndsOnStep(w, u, ending);
    case DoClose(u) => HangsStep(w, u);
    case DoDestroy(u) => DestroysStep(w, u);
    case DoSetAsClosed(h) =>
      TableIsOpen(w, h);
      SetAsClosedStep(w, h);
    case _ =>
  }

  lemma TableIsOpen(w: World, h: HandleId)
    requires Inv(w) && h in w.connections.Values
    ensures h in w.handles && !w.handles[h].closedRd
  {
    var f :| f in w.connections && w.connections[f] == h;
    assert Fine(w, h);
  }

  /** So does every step of a run. */
  lemma RunEffect(ws: seq<World>, actions: seq<Action>, k: nat)
    requires IsRun(ws, actions) && k < |actions|
    ensures Inv(ws[k]) && Enabled(ws[k], actions[k]) && Effect(ws[k], actions[k], ws[k + 1])
  {
    RunInv(ws, actions, k);
    assert Step(ws[k], actions[k], ws[k + 1]);
    StepEffect(ws[k], actions[k]);
  }

  // ---- First in, first out ------------------------------------------------------------------

  function HandleOf(w: World, u: UserId): Option<HandleId> {
    if u in w.users then w.users[u].handle else None
  }

  /** The handles that wait in the queue, in order. */
  function Waiting(w: World): (s: seq<Option<HandleId>>)
    ensures |s| == |w.queue|
  {
    seq(|w.queue|, i requires 0 <= i < |w.queue| => HandleOf(w, w.queue[i]))
  }

  /** What an operation puts into the queue: the connection accepted, or the one that is ready. */
  function Offers(w: World, a: Action): seq<Option<HandleId>> {
    match a
    case DoAccept(h, _, _) => [Some(h)]
    case DoReady(fd, _) => if fd in w.connections then [Some(w.connections[fd])] else []
    case _ => []
  }

  /** What an operation hands to the program from the queue. */
  function Hands(w: World, a: Action, w': World): seq<Option<HandleId>> {
    if a.DoGetNext? && w.queue != [] then [HandleOf(w', a.u)] else []
  }

  /** Nothing but `getNext` touches a queued wrapper. */
  lemma QueuedStays(w: World, a: Action, w': World, v: UserId)
    requires Inv(w) && Enabled(w, a) && Effect(w, a, w') && v in w.queue && (a.DoGetNext? ==> v != w.queue[0])
    ensures HandleOf(w', v) == HandleOf(w, v)
  {
  }

  /** The front is handed out, and what is offered goes to the end. */
  lemma QueueMoves(w: World, a: Action, w': World)
    requires Effect(w, a, w') && Enabled(w, a)
    ensures w'.queue == match a
                        case DoGetNext(_) => if w.queue == [] then [] else w.queue[1..]
                        case DoAccept(_, _, u) => w.queue + [u]
                        case DoReady(_, u) => w.queue + [u]
                        case _ => w.queue
    ensures Hands(w, a, w') == if a.DoGetNext? && w.queue != [] then [HandleOf(w, w.queue[0])] else []
    ensures a.DoAccept? || a.DoReady? ==> Offers(w, a) == [HandleOf(w', a.u)]
  {
  }

  lemma QueueStep(w: World, a: Action, w': World)
    requires Inv(w) && Enabled(w, a) && Effect(w, a, w')
    ensures Hands(w, a, w') + Waiting(w') == Waiting(w) + Offers(w, a)
  {
    QueueMoves(w, a, w');
    var n: nat := if a.DoGetNext? && w.queue != [] then 1 else 0;
    forall i | n <= i < |w.queue| ensures HandleOf(w', w.queue[i]) == HandleOf(w, w.queue[i]) {
      assert w.queue[i] in w.queue;
      QueuedStays(w, a, w', w.queue[i]);
    }
    WaitingMoves(w, w', n, if a.DoAccept? || a.DoReady? then [a.u] else []);
  }

  /** The queue loses its first `n` wrappers and gets the new ones, and the others keep their handles. */
  lemma WaitingMoves(w: World, w': World, n: nat, added: seq<UserId>)
    requires n <= |w.queue| && w'.queue == w.queue[n..] + added && |added| <= 1
    requires forall i | n <= i < |w.queue| :: HandleOf(w', w.queue[i]) == HandleOf(w, w.queue[i])
    ensures Waiting(w)[..n] + Waiting(w') == Waiting(w) + if added == [] then [] else [HandleOf(w', added[0])]
  {
  }

  function Offered(ws: seq<World>, actions: seq<Action>, k: nat): seq<Option<HandleId>>
    requires k <= |actions| < |ws|
  {
    if k == 0 then [] else Offered(ws, actions, k - 1) + Offers(ws[k - 1], actions[k - 1])
  }

  function Handed(ws: seq<World>, actions: seq<Action>, k: nat): seq<Option<HandleId>>
    requires k <= |actions| < |ws|
  {
    if k == 0 then [] else Handed(ws, actions, k - 1) + Hands(ws[k - 1], actions[k - 1], ws[k])
  }

  /** In every run `getNext` hands out the connections in the order in which they were queued, each
      once: what was handed out and what still waits is what was queued. */
  lemma {:induction false} FirstInFirstOut(ws: seq<World>, actions: seq<Action>, k: nat)
    requires IsRun(ws, actions) && k < |ws|
    ensures Handed(ws, actions, k) + Waiting(ws[k]) == Offered(ws, actions, k)
  {
    if k > 0 {
      FirstInFirstOut(ws, actions, k - 1);
      RunQueueStep(ws, actions, k - 1);
      HistoryStep(ws, actions, k - 1);
    }
  }

  lemma RunQueueStep(ws: seq<World>, actions: seq<Action>, k: nat)
    requires IsRun(ws, actions) && k < |actions|
    ensures Hands(ws[k], actions[k], ws[k + 1]) + Waiting(ws[k + 1]) == Waiting(ws[k]) + Offers(ws[k], actions[k])
  {
    RunEffect(ws, actions, k);
    QueueStep(ws[k], actions[k], ws[k + 1]);
  }

  lemma HistoryStep(ws: seq<World>, actions: seq<Action>, k: nat)
    requires k < |actions| < |ws| && Handed(ws, actions, k) + Waiting(ws[k]) == Offered(ws, actions, k)
    requires Hands(ws[k], actions[k], ws[k + 1]) + Waiting(ws[k + 1]) == Waiting(ws[k]) + Offers(ws[k], actions[k])
    ensures Handed(ws, actions, k + 1) + Waiting(ws[k + 1]) == Offered(ws, actions, k + 1)
  {
    Regroup(Handed(ws, actions, k), Hands(ws[k], actions[k], ws[k + 1]), Waiting(ws[k + 1]), Waiting(ws[k]),
            Offers(ws[k], actions[k]));
  }

  lemma Regroup<T>(before: seq<T>, hands: seq<T>, now: seq<T>, was: seq<T>, offers: seq<T>)
    requires hands + now == was + offers
    ensures before + hands + now == before + was + offers
  {
    assert before + hands + now == before + (hands + now);
    assert before + was + offers == before + (was + offers);
  }

  // ---- Who closes ---------------------------------------------------------------------------

  /** The operations that close a handle for reading: a probe that finds the end of the stream or of
      the connection, and shutdown. */
  ghost predicate ClosesRead(w: World, a: Action, h: HandleId) {
    match a
    case DoProbeEnds(u, _) => HandleOf(w, u) == Some(h)
    case DoSetAsClosed(g) => g == h
    case _ => false
  }

  /** Those that close it for writing: `close`, a probe that finds the connection gone, shutdown. */
  ghost predicate ClosesWrite(w: World, a: Action, h: HandleId) {
    match a
    case DoClose(u) => HandleOf(w, u) == Some(h)
    case DoProbeEnds(u, ending) => !ending.Eos? && HandleOf(w, u) == Some(h)
    case DoSetAsClosed(g) => g == h
    case _ => false
  }

  /** How one step changes what is known of `h`: nobody closes a handle that does not exist, and one
      that exists stays closed or is closed by this step. */
  ghost predicate Tracks(w: World, a: Action, w': World, h: HandleId) {
    && (h in w.handles ==> h in w'.handles)
    && (ClosesRead(w, a, h) || ClosesWrite(w, a, h) ==> h in w.handles)
    && (h in w'.handles ==> (
          && (w'.handles[h].closedRd <==> (h in w.handles && w.handles[h].closedRd) || ClosesRead(w, a, h))
          && (w'.handles[h].closedWr <==> (h in w.handles && w.handles[h].closedWr) || ClosesWrite(w, a, h))))
  }

  lemma CloseStep(w: World, a: Action, w': World, h: HandleId)
    requires Inv(w) && Enabled(w, a) && Effect(w, a, w')
    ensures Tracks(w, a, w', h)
  {
    if !(a.DoClose? || a.DoProbeEnds? || a.DoSetAsClosed?) { FlagsStay(w, a, w', h); }
  }

  lemma RunCloseStep(ws: seq<World>, actions: seq<Action>, h: HandleId)
    requires IsRun(ws, actions)
    ensures ws[0].handles == map[] && |ws| == |actions| + 1
    ensures forall j | 0 <= j < |actions| :: Tracks(ws[j], actions[j], ws[j + 1], h)
  {
    forall j | 0 <= j < |actions| ensures Tracks(ws[j], actions[j], ws[j + 1], h) {
      RunEffect(ws, actions, j);
      CloseStep(ws[j], actions[j], ws[j + 1], h);
    }
  }

  lemma FlagsStay(w: World, a: Action, w': World, h: HandleId)
    requires Inv(w) && Enabled(w, a) && Effect(w, a, w') && !(a.DoClose? || a.DoProbeEnds? || a.DoSetAsClosed?)
    ensures h in w.handles ==> h in w'.handles
    ensures h in w'.handles ==> (
              && w'.handles[h].closedRd == (h in w.handles && w.handles[h].closedRd)
              && w'.handles[h].closedWr == (h in w.handles && w.handles[h].closedWr))
  {
  }

  /** What a history in which every step is tracked says of `h`. */
  lemma {:induction false} TrackedIff(ws: seq<World>, actions: seq<Action>, k: nat, h: HandleId)
    requires |ws| == |actions| + 1 && k < |ws| && ws[0].handles == map[]
    requires forall j | 0 <= j < |actions| :: Tracks(ws[j], actions[j], ws[j + 1], h)
    ensures (h in ws[k].handles && ws[k].handles[h].closedRd) <==>
              exists j | 0 <= j < k :: ClosesRead(ws[j], actions[j], h)
    ensures (h in ws[k].handles && ws[k].handles[h].closedWr) <==>
              exists j | 0 <= j < k :: ClosesWrite(ws[j], actions[j], h)
  {
    if k > 0 {
      TrackedIff(ws, actions, k - 1, h);
      assert Tracks(ws[k - 1], actions[k - 1], ws[k], h);
    }
  }

  /** In every run a handle is closed for reading exactly if a probe of the program found the end or
      shutdown closed it, and for writing exactly if the program closed it, a probe found the
      connection gone, or shutdown closed it: `close` never loses what the peer still sends. */
  lemma ClosedIff(ws: seq<World>, actions: seq<Action>, k: nat, h: HandleId)
    requires IsRun(ws, actions) && k < |ws| && h in ws[k].handles
    ensures ws[k].handles[h].closedRd <==> exists j | 0 <= j < k :: ClosesRead(ws[j], actions[j], h)
    ensures ws[k].handles[h].closedWr <==> exists j | 0 <= j < k :: ClosesWrite(ws[j], actions[j], h)
  {
    RunCloseStep(ws, actions, h);
    TrackedIff(ws, actions, k, h);
  }
}
