/** Every run of the public operations on handles and wrappers. */
module LifecycleRuns {
  import opened Connector
  import opened Lifecycle

  datatype Action =
    | DoConnect(h: HandleId, fd: Fd, u: UserId)
    | DoAccept(h: HandleId, fd: Fd, u: UserId)
    | DoReady(fd: Fd, u: UserId)
    | DoGetNext(u: UserId)
    | DoDeclare(u: UserId)
    | DoMove(to: UserId, from: UserId)
    | DoUse(u: UserId)
    | DoYield(u: UserId)
    | DoProbeEnds(u: UserId, ending: Ending)
    | DoClose(u: UserId)
    | DoDestroy(u: UserId)
    | DoSetAsClosed(h: HandleId)
    | DoListen(sck: Fd)

  /** A wrapper in the program's hands: the queue's own are out of reach. */
  predicate Mine(w: World, u: UserId) { u in w.users && u !in w.queue }

  /** What the caller and the operating system see to: new objects and descriptors are new, a
      wrapper yields only while it is readable, nothing is moved onto a wrapper in use, and
      `listen` comes before any yield. A header is read only on an open, readable wrapper. */
  ghost predicate Enabled(w: World, a: Action) {
    match a
    case DoConnect(h, fd, u) => h !in w.handles && FdFree(w, fd) && u !in w.users
    case DoAccept(h, fd, u) => h !in w.handles && FdFree(w, fd) && u !in w.users && w.listenSck in w.watched
    case DoReady(fd, u) => fd in w.watched && fd != w.listenSck && u !in w.users
    case DoGetNext(u) => u !in w.users
    case DoDeclare(u) => u !in w.users
    case DoMove(to, from) => Mine(w, from) && (to !in w.users || (Mine(w, to) && Vacant(w, to)))
    case DoUse(u) => Mine(w, u)
    case DoYield(u) => Mine(w, u) && w.users[u].readable
    case DoProbeEnds(u, _) =>
      && Mine(w, u) && w.users[u].readable && w.users[u].handle.Some? && w.users[u].handle.value in w.handles
      && !w.handles[w.users[u].handle.value].closedRd
    case DoClose(u) => Mine(w, u)
    case DoDestroy(u) => Mine(w, u)
    case DoSetAsClosed(h) => h in w.handles && h in w.connections.Values
    case DoListen(sck) => FdFree(w, sck) && forall f | f in w.watched :: f == w.listenSck
  }

  function After(w: World, a: Action): World
    requires Shape(w) && Enabled(w, a)
  {
    match a
    case DoConnect(h, fd, u) => Connected(w, h, fd, u)
    case DoAccept(h, fd, u) => Enqueue(Connected(w, h, fd, u), u)
    case DoReady(fd, u) => Ready(w, fd, u)
    case DoGetNext(u) => GetNext(w, u)
    case DoDeclare(u) => SetUser(w, u, EMPTY)
    case DoMove(to, from) => Move(w, to, from)
    case DoUse(u) => SetUser(w, u, w.users[u].(newConnection := false))
    case DoYield(u) => Yield(w, u)
    case DoProbeEnds(u, ending) => ProbeEnds(w, u, ending)
    case DoClose(u) => if w.users[u].handle.Some? then Close(w, w.users[u].handle.value, true, false) else w
    case DoDestroy(u) => Destroy(w, u)
    case DoSetAsClosed(h) => SetAsClosed(w, h)
    case DoListen(sck) => Listen(w, sck)
  }

  const START := World(map[], map[], [], map[], {}, -1)

  lemma StepInv(w: World, a: Action)
    requires Inv(w) && Enabled(w, a)
    ensures Inv(After(w, a))
  {
    match a
    case DoConnect(h, fd, u) => ConnectedInv(w, h, fd, u);
    case DoAccept(h, fd, u) => ConnectedInv(w, h, fd, u); EnqueueInv(Connected(w, h, fd, u), u);
    case DoReady(fd, u) => ReadyInv(w, fd, u);
    case DoGetNext(u) => GetNextInv(w, u);
    case DoDeclare(u) => DeclareInv(w, u);
    case DoMove(to, from) => MoveInvIff(w, to, from);
    case DoUse(u) => FlagsInv(w, u, w.users[u].(newConnection := false));
    case DoYield(u) => YieldInvIff(w, u);
    case DoProbeEnds(u, ending) => ProbeEndsInv(w, u, ending);
    case DoClose(u) => CloseStepInv(w, u);
    case DoDestroy(u) => DestroyInv(w, u);
    case DoSetAsClosed(h) => assert Fine(w, h); SetAsClosedInv(w, h);
    case DoListen(sck) => ListenInvIff(w, sck);
  }

  lemma DeclareInv(w: World, u: UserId)
    requires Inv(w) && u !in w.users
    ensures Inv(SetUser(w, u, EMPTY))
  {
    SetUserShape(w, u, EMPTY);
    forall h | h in w.handles ensures Fine(SetUser(w, u, EMPTY), h) { EmptyFine(w, u, EMPTY, h); }
  }

  lemma CloseStepInv(w: World, u: UserId)
    requires Inv(w) && u in w.users
    ensures w.users[u].handle.Some? ==> Inv(Close(w, w.users[u].handle.value, true, false))
  {
    if w.users[u].handle.Some? {
      HeldIsAlive(w, u);
      CloseInv(w, w.users[u].handle.value, true, false);
    }
  }

  /** The well-formedness that the operations rely on is itself kept (RunInv), so it restricts nothing. */
  ghost predicate Step(w: World, a: Action, w': World) {
    Enabled(w, a) && (Shape(w) ==> w' == After(w, a))
  }

  /** `ws` is a run: the empty state, then one enabled action after the other. */
  ghost predicate IsRun(ws: seq<World>, actions: seq<Action>) {
    && |ws| == |actions| + 1
    && ws[0] == START
    && forall i | 0 <= i < |actions| :: Step(ws[i], actions[i], ws[i + 1])
  }

  lemma {:induction false} RunInv(ws: seq<World>, actions: seq<Action>, k: nat)
    requires IsRun(ws, actions) && k < |ws|
    ensures Inv(ws[k])
  {
    if k > 0 {
      RunInv(ws, actions, k - 1);
      assert Step(ws[k - 1], actions[k - 1], ws[k]);
      StepInv(ws[k - 1], actions[k - 1]);
    }
  }

  // ---- What a reachable state looks like ----------------------------------------------------

  /** The wrappers on `h` in the ready queue, and the readable ones in the program's hands. */
  function InQueue(w: World, h: HandleId): set<UserId> {
    set u | u in w.queue && u in w.users && w.users[u].handle == Some(h)
  }

  function InHand(w: World, h: HandleId): set<UserId> {
    set u | u in w.users && u !in w.queue && w.users[u].handle == Some(h) && w.users[u].readable
  }

  /** In how many places `h` waits to be read: at the connector, in the queue, with the program. */
  function Places(w: World, h: HandleId): nat
    requires h in w.handles
  {
    (if w.handles[h].fd in w.watched then 1 else 0) + |InQueue(w, h)| + |InHand(w, h)|
  }

  lemma ReadersSplit(w: World, h: HandleId)
    requires Shape(w)
    ensures |Readers(w.users, h)| == |InQueue(w, h)| + |InHand(w, h)|
  {
    assert Readers(w.users, h) == InQueue(w, h) + InHand(w, h);
  }

  /** A handle open for reading is in exactly one place, in every reachable state. */
  lemma SingleOwner(ws: seq<World>, actions: seq<Action>, k: nat, h: HandleId)
    requires IsRun(ws, actions) && k < |ws| && h in ws[k].handles && !ws[k].handles[h].closedRd
    ensures Places(ws[k], h) == 1
  {
    RunInv(ws, actions, k);
    assert Fine(ws[k], h);
    ReadersSplit(ws[k], h);
  }

  /** Counter, deletion and descriptor of a handle in every reachable state. */
  lemma CountedAndClosedOnce(ws: seq<World>, actions: seq<Action>, k: nat, h: HandleId)
    requires IsRun(ws, actions) && k < |ws| && h in ws[k].handles
    ensures var hd, holders := ws[k].handles[h], Holders(ws[k].users, h);
            && hd.counter == |holders|
            && hd.deletes <= 1 && hd.closes <= 1 && hd.eos <= 1
            && (hd.deletes == 1 <==> hd.closedRd && hd.closedWr && holders == {})
            && (hd.closes == 1 <==> hd.closedRd && hd.closedWr)
            && (hd.eos == 1 <==> hd.closedWr)
  {
    RunInv(ws, actions, k);
    assert Fine(ws[k], h);
  }

  /** The table lists exactly the handles open for reading, all alive, under their descriptors. */
  lemma TableIsLive(ws: seq<World>, actions: seq<Action>, k: nat)
    requires IsRun(ws, actions) && k < |ws|
    ensures forall f | f in ws[k].connections :: (
              var h := ws[k].connections[f];
              h in ws[k].handles && ws[k].handles[h].fd == f && ws[k].handles[h].Alive() && !ws[k].handles[h].closedRd)
    ensures forall h | h in ws[k].handles && !ws[k].handles[h].closedRd :: (
              ws[k].handles[h].fd in ws[k].connections && ws[k].connections[ws[k].handles[h].fd] == h)
  {
    RunInv(ws, actions, k);
    var w := ws[k];
    forall f | f in w.connections ensures var h := w.connections[f];
      h in w.handles && w.handles[h].fd == f && w.handles[h].Alive() && !w.handles[h].closedRd
    {
      assert Fine(w, w.connections[f]);
    }
    forall h | h in w.handles && !w.handles[h].closedRd
      ensures w.handles[h].fd in w.connections && w.connections[w.handles[h].fd] == h
    {
      assert Fine(w, h);
    }
  }

  /** No wrapper, queued or not, points to a deleted handle. */
  lemma NothingDangles(ws: seq<World>, actions: seq<Action>, k: nat, u: UserId)
    requires IsRun(ws, actions) && k < |ws| && u in ws[k].users && ws[k].users[u].handle.Some?
    ensures var h := ws[k].users[u].handle.value; h in ws[k].handles && ws[k].handles[h].Alive()
  {
    RunInv(ws, actions, k);
    HeldIsAlive(ws[k], u);
  }
}
