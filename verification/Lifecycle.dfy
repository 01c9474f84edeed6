/** Handles, the wrappers that share them, the ready queue and the connector's table: the states
    they go through and what every public operation does to them. */
module Lifecycle {
  import opened Bytes
  import opened Connector

  type UserId = nat

  datatype Option<T> = None | Some(value: T)

  /** `Handle`. `eos`, `closes` and `deletes` count the EOS frames sent, the `close` calls on its
      descriptor and the times the object was deleted. */
  datatype Handle = Handle(fd: int, closedWr: bool, closedRd: bool, counter: int, eos: nat, closes: nat, deletes: nat) {
    predicate Closed() { closedWr && closedRd }
    predicate Alive() { deletes == 0 }
  }

  function NewHandle(fd: Fd): Handle { Handle(fd, false, false, 0, 0, 0, 0) }

  datatype HandleUser = HandleUser(handle: Option<HandleId>, readable: bool, newConnection: bool)

  const EMPTY := HandleUser(None, false, false)

  /** `users` are the live wrappers, those in the ready queue included. */
  datatype World = World(
    handles: map<HandleId, Handle>, users: map<UserId, HandleUser>, queue: seq<UserId>,
    connections: map<Fd, HandleId>, watched: set<Fd>, listenSck: int)

  // ---- The operations of `Handle` and `ConnTcp` ---------------------------------------------

  function SetHandle(w: World, h: HandleId, hd: Handle): World { w.(handles := w.handles[h := hd]) }

  function SetUser(w: World, u: UserId, user: HandleUser): World { w.(users := w.users[u := user]) }

  /** `delete this` once nothing refers to a closed handle. */
  function Reap(hd: Handle): Handle {
    if hd.counter == 0 && hd.Closed() then hd.(deletes := hd.deletes + 1) else hd
  }

  function CloseFd(hd: Handle): Handle { hd.(fd := -1, closes := hd.closes + 1) }

  function Flagged(hd: Handle, wr: bool, rd: bool): Handle {
    hd.(eos := hd.eos + if wr && !hd.closedWr then 1 else 0,
        closedWr := hd.closedWr || wr, closedRd := hd.closedRd || rd)
  }

  /** `ConnTcp::notify_close`. */
  function NotifyClose(w: World, h: HandleId, wr: bool, rd: bool): World
    requires h in w.handles
  {
    var hd := w.handles[h];
    var hd' := if wr && hd.fd != -1 && !rd && hd.fd !in w.connections then CloseFd(hd) else hd;
    if rd && hd'.fd != -1 then
      SetHandle(w.(connections := w.connections - {hd'.fd}, watched := w.watched - {hd'.fd}), h,
                if wr then CloseFd(hd') else hd')
    else SetHandle(w, h, hd')
  }

  /** `Handle::close`. */
  function Close(w: World, h: HandleId, wr: bool, rd: bool): World
    requires h in w.handles
  {
    var hd := Flagged(w.handles[h], wr, rd);
    var w' := NotifyClose(SetHandle(w, h, hd), h, hd.closedWr, hd.closedRd);
    SetHandle(w', h, Reap(w'.handles[h]))
  }

  /** `Handle::yield` with `ConnTcp::notify_yield`. */
  function HandleYield(w: World, h: HandleId): World
    requires h in w.handles
  {
    var hd := w.handles[h];
    if hd.closedRd || hd.fd < 0 then w else w.(watched := w.watched + {hd.fd})
  }

  /** A new wrapper on `h`. */
  function Attach(w: World, u: UserId, h: HandleId, readable: bool, isNew: bool): World
    requires h in w.handles
  {
    var hd := w.handles[h];
    SetHandle(SetUser(w, u, HandleUser(Some(h), readable, isNew)), h, hd.(counter := hd.counter + 1))
  }

  /** The wrapper `u` goes away, and with it its reference. */
  function Detach(w: World, u: UserId, h: HandleId): World
    requires h in w.handles
  {
    var hd := w.handles[h];
    SetHandle(w.(users := w.users - {u}), h, Reap(hd.(counter := hd.counter - 1)))
  }

  // ---- One handle seen on its own -----------------------------------------------------------

  function Holders(users: map<UserId, HandleUser>, h: HandleId): set<UserId> {
    set u | u in users && users[u].handle == Some(h)
  }

  function Readers(users: map<UserId, HandleUser>, h: HandleId): set<UserId> {
    set u | u in users && users[u].handle == Some(h) && users[u].readable
  }

  datatype View = View(handle: Handle, holders: set<UserId>, readers: set<UserId>, watched: bool, listed: bool)

  function ViewOf(w: World, h: HandleId): View
    requires h in w.handles
  {
    var fd := w.handles[h].fd;
    View(w.handles[h], Holders(w.users, h), Readers(w.users, h), fd in w.watched,
         fd in w.connections && w.connections[fd] == h)
  }

  /** What holds of every handle in every reachable state. */
  ghost predicate Ok(v: View) {
    && v.readers <= v.holders
    // the counter is the number of wrappers; the handle is deleted, once, when it has none and
    // both directions are closed
    && v.handle.counter == |v.holders|
    && v.handle.deletes == (if v.handle.Closed() && v.holders == {} then 1 else 0)
    // the descriptor is closed, once, with the second direction; EOS goes out once
    && v.handle.closes == (if v.handle.Closed() then 1 else 0)
    && (if v.handle.Closed() then v.handle.fd == -1 else v.handle.fd >= 0)
    && v.handle.eos == (if v.handle.closedWr then 1 else 0)
    // open for reading: in the table and in exactly one place
    && (v.handle.closedRd ==> !v.listed && !v.watched)
    && (!v.handle.closedRd ==> v.listed && (if v.watched then v.readers == {} else |v.readers| == 1))
  }

  /** The handle after `close` and what is dropped on the way; `listed` says whether its
      descriptor is in the table. */
  function Closed(hd: Handle, listed: bool, wr: bool, rd: bool): (Handle, bool) {
    var flagged := Flagged(hd, wr, rd);
    var early := if flagged.closedWr && hd.fd != -1 && !flagged.closedRd && !listed then CloseFd(flagged) else flagged;
    if flagged.closedRd && early.fd != -1 then (Reap(if flagged.closedWr then CloseFd(early) else early), true)
    else (Reap(early), false)
  }

  function CloseView(v: View, wr: bool, rd: bool): View {
    var (hd, drops) := Closed(v.handle, v.listed, wr, rd);
    View(hd, v.holders, v.readers, v.watched && !drops, v.listed && !drops)
  }

  lemma CloseOk(v: View, wr: bool, rd: bool)
    requires Ok(v) && v.handle.Alive()
    ensures Ok(CloseView(v, wr, rd))
  {
  }

  // ---- The whole state ----------------------------------------------------------------------

  /** Open descriptors are distinct, and none is the listening socket's. */
  ghost predicate FdsOk(handles: map<HandleId, Handle>, listenSck: int) {
    && (forall g, h | g in handles && h in handles && handles[g].fd == handles[h].fd && handles[h].fd >= 0 :: g == h)
    && (forall h | h in handles :: handles[h].fd >= 0 ==> handles[h].fd != listenSck)
  }

  ghost predicate UsersOk(users: map<UserId, HandleUser>, handles: set<HandleId>) {
    forall u | u in users && users[u].handle.Some? :: users[u].handle.value in handles
  }

  ghost predicate TableOk(connections: map<Fd, HandleId>, handles: map<HandleId, Handle>) {
    forall f | f in connections :: connections[f] in handles && handles[connections[f]].fd == f
  }

  ghost predicate WatchOk(watched: set<Fd>, connections: set<Fd>, listenSck: int) {
    forall f | f in watched :: f == listenSck || f in connections
  }

  /** The queue holds distinct readable wrappers. */
  ghost predicate QueueOk(queue: seq<UserId>, users: map<UserId, HandleUser>) {
    && Distinct(queue)
    && (forall u | u in queue :: u in users && users[u].readable && users[u].handle.Some?)
  }

  ghost predicate Shape(w: World) {
    && FdsOk(w.handles, w.listenSck)
    && UsersOk(w.users, w.handles.Keys)
    && TableOk(w.connections, w.handles)
    && WatchOk(w.watched, w.connections.Keys, w.listenSck)
    && QueueOk(w.queue, w.users)
  }

  ghost predicate Fine(w: World, h: HandleId)
    requires h in w.handles
  {
    Ok(ViewOf(w, h))
  }

  ghost predicate Inv(w: World) {
    Shape(w) && forall h | h in w.handles :: Fine(w, h)
  }

  /** `h` becomes `hd` and the descriptors in `drop` leave the table and the watched set. */
  function Change(w: World, h: HandleId, hd: Handle, drop: set<Fd>): World {
    w.(handles := w.handles[h := hd], connections := w.connections - drop, watched := w.watched - drop)
  }

  /** `h` keeps its descriptor or gives it up. */
  ghost predicate Narrows(w: World, h: HandleId, hd: Handle, drop: set<Fd>) {
    && h in w.handles
    && (forall f | f in drop :: f == w.handles[h].fd)
    && (hd.fd == w.handles[h].fd || (hd.fd == -1 && (w.handles[h].fd in w.connections ==> w.handles[h].fd in drop)))
  }

  lemma ChangeShape(w: World, h: HandleId, hd: Handle, drop: set<Fd>)
    requires Shape(w) && Narrows(w, h, hd, drop)
    ensures Shape(Change(w, h, hd, drop))
  {
    var w' := Change(w, h, hd, drop);
    forall f | f in w'.connections ensures w'.connections[f] in w'.handles && w'.handles[w'.connections[f]].fd == f {
      assert f in w.connections;
    }
  }

  lemma ChangeElsewhere(w: World, h: HandleId, hd: Handle, drop: set<Fd>, g: HandleId)
    requires Shape(w) && Narrows(w, h, hd, drop) && g in w.handles && g != h
    ensures ViewOf(Change(w, h, hd, drop), g) == ViewOf(w, g)
  {
    assert w.handles[g].fd !in drop;
  }

  lemma CloseIsChange(w: World, h: HandleId, wr: bool, rd: bool)
    requires h in w.handles && w.handles[h].fd >= -1
    ensures var hd := w.handles[h];
            var (hd', drops) := Closed(hd, hd.fd in w.connections, wr, rd);
            Close(w, h, wr, rd) == Change(w, h, hd', if drops then {hd.fd} else {})
  {
  }

  /** `Handle::close` keeps the invariant, whatever it closes. */
  lemma CloseInv(w: World, h: HandleId, wr: bool, rd: bool)
    requires Inv(w) && h in w.handles && w.handles[h].Alive()
    ensures Inv(Close(w, h, wr, rd))
  {
    var hd := w.handles[h];
    assert Fine(w, h);
    CloseIsChange(w, h, wr, rd);
    var (hd', drops) := Closed(hd, hd.fd in w.connections, wr, rd);
    var drop := if drops then {hd.fd} else {};
    ChangeShape(w, h, hd', drop);
    var w' := Change(w, h, hd', drop);
    forall g | g in w'.handles ensures Fine(w', g) {
      assert Fine(w, g);
      if g == h {
        assert ViewOf(w', h) == CloseView(ViewOf(w, h), wr, rd);
        CloseOk(ViewOf(w, h), wr, rd);
      } else {
        ChangeElsewhere(w, h, hd', drop, g);
      }
    }
  }

  // ---- Wrappers -----------------------------------------------------------------------------

  lemma SetUserViews(w: World, u: UserId, user: HandleUser, g: HandleId)
    requires g in w.handles
    ensures ViewOf(SetUser(w, u, user), g) == ViewOf(w, g).(
              holders := if user.handle == Some(g) then Holders(w.users, g) + {u} else Holders(w.users, g) - {u},
              readers := if user.handle == Some(g) && user.readable then Readers(w.users, g) + {u}
                else Readers(w.users, g) - {u})
  {
  }

  /** A wrapper that holds `g` neither before nor after does not concern it. */
  lemma SetUserElsewhere(w: World, u: UserId, user: HandleUser, g: HandleId)
    requires g in w.handles && user.handle != Some(g) && (u in w.users ==> w.users[u].handle != Some(g))
    ensures ViewOf(SetUser(w, u, user), g) == ViewOf(w, g)
  {
    var w' := SetUser(w, u, user);
    assert Holders(w'.users, g) == Holders(w.users, g);
    assert Readers(w'.users, g) == Readers(w.users, g);
  }

  lemma SetUserShape(w: World, u: UserId, user: HandleUser)
    requires Shape(w) && u !in w.queue && (user.handle.Some? ==> user.handle.value in w.handles)
    ensures Shape(SetUser(w, u, user))
  {
  }

  ghost predicate FdFree(w: World, fd: Fd) {
    fd != w.listenSck && forall h | h in w.handles :: w.handles[h].fd != fd
  }

  /** A new connection on descriptor `fd`, held by the readable wrapper `u`. */
  function Connected(w: World, h: HandleId, fd: Fd, u: UserId): World {
    Attach(w.(handles := w.handles[h := NewHandle(fd)], connections := w.connections[fd := h]), u, h, true, true)
  }

  lemma ConnectedInv(w: World, h: HandleId, fd: Fd, u: UserId)
    requires Inv(w) && h !in w.handles && FdFree(w, fd) && u !in w.users
    ensures Inv(Connected(w, h, fd, u))
  {
    var w' := Connected(w, h, fd, u);
    ConnectedShape(w, h, fd, u);
    ConnectedSelf(w, h, fd, u);
    forall g | g in w'.handles ensures Fine(w', g) {
      if g != h { ConnectedElsewhere(w, h, fd, u, g); }
    }
  }

  lemma ConnectedShape(w: World, h: HandleId, fd: Fd, u: UserId)
    requires Shape(w) && h !in w.handles && FdFree(w, fd) && u !in w.users
    ensures Shape(Connected(w, h, fd, u)) && fd !in w.connections && fd !in w.watched
  {
    var w' := Connected(w, h, fd, u);
    assert w'.handles.Keys == w.handles.Keys + {h};
    assert fd !in w.connections;
  }

  lemma ConnectedSelf(w: World, h: HandleId, fd: Fd, u: UserId)
    requires Shape(w) && h !in w.handles && FdFree(w, fd) && u !in w.users
    ensures Fine(Connected(w, h, fd, u), h)
  {
    ConnectedShape(w, h, fd, u);
    var w' := Connected(w, h, fd, u);
    assert Holders(w'.users, h) == {u} && Readers(w'.users, h) == {u};
  }

  lemma ConnectedElsewhere(w: World, h: HandleId, fd: Fd, u: UserId, g: HandleId)
    requires Inv(w) && h !in w.handles && FdFree(w, fd) && u !in w.users && g in w.handles
    ensures Fine(Connected(w, h, fd, u), g)
  {
    assert Fine(w, g);
    var w' := Connected(w, h, fd, u);
    assert Holders(w'.users, g) == Holders(w.users, g) && Readers(w'.users, g) == Readers(w.users, g);
    assert ViewOf(w', g) == ViewOf(w, g);
  }

  // ---- Queue --------------------------------------------------------------------------------

  function Enqueue(w: World, u: UserId): World { w.(queue := w.queue + [u]) }

  lemma EnqueueInv(w: World, u: UserId)
    requires Inv(w) && u in w.users && w.users[u].readable && w.users[u].handle.Some? && u !in w.queue
    ensures Inv(Enqueue(w, u))
  {
    var w' := Enqueue(w, u);
    assert forall i | 0 <= i < |w.queue| :: w.queue[i] in w.queue;
    forall h | h in w'.handles ensures Fine(w', h) { assert Fine(w, h) && ViewOf(w', h) == ViewOf(w, h); }
  }

  function Unwatched(w: World, fd: Fd): World { w.(watched := w.watched - {fd}) }

  /** `update` for a watched connection that `select` reports. */
  function Ready(w: World, fd: Fd, u: UserId): World
    requires fd in w.connections ==> w.connections[fd] in w.handles
  {
    var w1 := Unwatched(w, fd);
    if fd in w.connections then Enqueue(Attach(w1, u, w.connections[fd], true, false), u) else w1
  }

  lemma AttachShape(w: World, u: UserId, h: HandleId)
    requires Shape(w) && h in w.handles && u !in w.users
    ensures Shape(Attach(w, u, h, true, false))
  {
    assert Attach(w, u, h, true, false).handles.Keys == w.handles.Keys;
  }

  /** A watched connection has no reader; the new wrapper becomes the only one. */
  lemma AttachSelf(w: World, fd: Fd, u: UserId, h: HandleId)
    requires Shape(w) && h in w.handles && Fine(w, h) && fd in w.watched && w.handles[h].fd == fd && u !in w.users
    ensures Fine(Attach(Unwatched(w, fd), u, h, true, false), h)
  {
    var w' := Attach(Unwatched(w, fd), u, h, true, false);
    assert Holders(w'.users, h) == Holders(w.users, h) + {u} && Readers(w'.users, h) == Readers(w.users, h) + {u};
    assert Readers(w'.users, h) == {u};
  }

  lemma AttachElsewhere(w: World, fd: Fd, u: UserId, h: HandleId, g: HandleId)
    requires Shape(w) && h in w.handles && g in w.handles && g != h && Fine(w, g)
    requires fd in w.watched && w.handles[h].fd == fd && u !in w.users
    ensures Fine(Attach(Unwatched(w, fd), u, h, true, false), g)
  {
    var w' := Attach(Unwatched(w, fd), u, h, true, false);
    assert Holders(w'.users, g) == Holders(w.users, g) && Readers(w'.users, g) == Readers(w.users, g);
    assert ViewOf(w', g) == ViewOf(w, g);
  }

  lemma ReadyInv(w: World, fd: Fd, u: UserId)
    requires Inv(w) && fd in w.watched && fd != w.listenSck && u !in w.users
    ensures fd in w.connections && Inv(Ready(w, fd, u))
  {
    var h := w.connections[fd];
    var w1 := Unwatched(w, fd);
    AttachShape(w1, u, h);
    var w' := Attach(w1, u, h, true, false);
    forall g | g in w'.handles ensures Fine(w', g) {
      assert Fine(w, g);
      if g == h { AttachSelf(w, fd, u, h); } else { AttachElsewhere(w, fd, u, h, g); }
    }
    EnqueueInv(w', u);
  }

  // ---- Moving -------------------------------------------------------------------------------

  /** Move assignment or construction: `to` takes over what `from` holds. */
  function Move(w: World, to: UserId, from: UserId): World
    requires from in w.users
  {
    if to == from then w else SetUser(SetUser(w, to, w.users[from]), from, EMPTY)
  }

  predicate Vacant(w: World, u: UserId) { u !in w.users || w.users[u].handle.None? }

  /** The wrapper that takes over from another one in a set. */
  function Renamed(s: set<UserId>, to: UserId, from: UserId): set<UserId> {
    if from in s then s - {from} + {to} else s
  }

  lemma MoveViews(w: World, to: UserId, from: UserId, h: HandleId)
    requires from in w.users && to != from && Vacant(w, to)
    ensures var users := Move(w, to, from).users;
            && Holders(users, h) == Renamed(Holders(w.users, h), to, from)
            && Readers(users, h) == Renamed(Readers(w.users, h), to, from)
  {
  }

  lemma MoveFine(w: World, to: UserId, from: UserId, h: HandleId)
    requires Inv(w) && from in w.users && to != from && Vacant(w, to) && h in w.handles
    ensures Fine(Move(w, to, from), h)
  {
    assert Fine(w, h);
    MoveViews(w, to, from, h);
    assert to !in Holders(w.users, h) && to !in Readers(w.users, h);
  }

  lemma MoveShape(w: World, to: UserId, from: UserId)
    requires Shape(w) && from in w.users && from !in w.queue && to !in w.queue
    ensures Shape(Move(w, to, from))
  {
  }

  /** `getNext`: the front wrapper moves out of the queue, or there is none. */
  function GetNext(w: World, u: UserId): World
    requires w.queue != [] ==> w.queue[0] in w.users
  {
    if w.queue == [] then SetUser(w, u, HandleUser(None, true, true))
    else var w' := Move(w, u, w.queue[0]); w'.(users := w'.users - {w.queue[0]}, queue := w.queue[1..])
  }

  lemma GetNextShape(w: World, u: UserId)
    requires Shape(w) && u !in w.users && w.queue != []
    ensures Shape(GetNext(w, u))
  {
    var w' := GetNext(w, u);
    assert forall v | v in w'.queue :: v in w.queue && v != w.queue[0];
  }

  lemma GetNextFine(w: World, u: UserId, h: HandleId)
    requires Inv(w) && u !in w.users && w.queue != [] && h in w.handles
    ensures Fine(GetNext(w, u), h)
  {
    var q := w.queue[0];
    MoveFine(w, u, q, h);
    var w1, w' := Move(w, u, q), GetNext(w, u);
    assert Holders(w'.users, h) == Holders(w1.users, h) && Readers(w'.users, h) == Readers(w1.users, h);
    assert ViewOf(w', h) == ViewOf(w1, h);
  }

  /** A wrapper without a handle, new or about to go, concerns no handle. */
  lemma EmptyFine(w: World, u: UserId, user: HandleUser, h: HandleId)
    requires Inv(w) && Vacant(w, u) && user.handle.None? && h in w.handles
    ensures Fine(SetUser(w, u, user), h)
  {
    assert Fine(w, h);
    SetUserElsewhere(w, u, user, h);
  }

  lemma GetNextInv(w: World, u: UserId)
    requires Inv(w) && u !in w.users
    ensures Inv(GetNext(w, u))
  {
    var w' := GetNext(w, u);
    if w.queue == [] {
      SetUserShape(w, u, HandleUser(None, true, true));
      forall h | h in w'.handles ensures Fine(w', h) { EmptyFine(w, u, HandleUser(None, true, true), h); }
    } else {
      GetNextShape(w, u);
      forall h | h in w'.handles ensures Fine(w', h) { GetNextFine(w, u, h); }
    }
  }

  /** Move assignment keeps the counts and the single reader exactly when nothing is overwritten. */
  lemma MoveInvIff(w: World, to: UserId, from: UserId)
    requires Inv(w) && from in w.users && from !in w.queue && to !in w.queue
    ensures Inv(Move(w, to, from)) <==> to == from || Vacant(w, to)
  {
    if to != from {
      MoveShape(w, to, from);
      var w' := Move(w, to, from);
      if Vacant(w, to) {
        forall h | h in w'.handles ensures Fine(w', h) { MoveFine(w, to, from, h); }
      } else {
        MoveLosesReference(w, to, from);
      }
    }
  }

  /** The overwritten wrapper's reference is never given back. */
  lemma MoveLosesReference(w: World, to: UserId, from: UserId)
    requires Inv(w) && from in w.users && to in w.users && to != from && w.users[to].handle.Some?
    ensures var h := w.users[to].handle.value;
            h in w.handles && !Fine(Move(w, to, from), h)
              && w.handles[h].counter > |Holders(Move(w, to, from).users, h)|
  {
    var h := w.users[to].handle.value;
    assert Fine(w, h) && to in Holders(w.users, h);
    var gone := if w.users[from].handle == Some(h) then from else to;
    assert Holders(Move(w, to, from).users, h) == Holders(w.users, h) - {gone};
  }

  // ---- Yielding and destruction -------------------------------------------------------------

  function Quiet(user: HandleUser): HandleUser { user.(readable := false, newConnection := false) }

  /** `HandleUser::yield`. */
  function Yield(w: World, u: UserId): World
    requires u in w.users && (w.users[u].handle.Some? ==> w.users[u].handle.value in w.handles)
  {
    var w' := SetUser(w, u, Quiet(w.users[u]));
    if w.users[u].handle.Some? then HandleYield(w', w.users[u].handle.value) else w'
  }

  lemma YieldShape(w: World, u: UserId)
    requires Inv(w) && u in w.users && u !in w.queue
    ensures Shape(Yield(w, u))
  {
    SetUserShape(w, u, Quiet(w.users[u]));
    if w.users[u].handle.Some? {
      var h := w.users[u].handle.value;
      assert Fine(w, h);
    }
  }

  lemma WatchElsewhere(w: World, h: HandleId, g: HandleId)
    requires Shape(w) && h in w.handles && g in w.handles && g != h
    ensures ViewOf(HandleYield(w, h), g) == ViewOf(w, g)
  {
    assert w.handles[h].fd >= 0 ==> w.handles[g].fd != w.handles[h].fd;
  }

  lemma YieldElsewhere(w: World, u: UserId, g: HandleId)
    requires Inv(w) && u in w.users && u !in w.queue && g in w.handles && w.users[u].handle != Some(g)
    ensures ViewOf(Yield(w, u), g) == ViewOf(w, g)
  {
    var w' := SetUser(w, u, Quiet(w.users[u]));
    SetUserShape(w, u, Quiet(w.users[u]));
    SetUserElsewhere(w, u, Quiet(w.users[u]), g);
    if w.users[u].handle.Some? { WatchElsewhere(w', w.users[u].handle.value, g); }
  }

  lemma YieldSelf(w: World, u: UserId, h: HandleId)
    requires Inv(w) && u in w.users && w.users[u].handle == Some(h)
    ensures ViewOf(Yield(w, u), h) == ViewOf(w, h).(
              readers := Readers(w.users, h) - {u},
              watched := ViewOf(w, h).watched || !w.handles[h].closedRd)
  {
    assert Fine(w, h);
    SetUserViews(w, u, Quiet(w.users[u]), h);
    assert u in Holders(w.users, h);
    assert Holders(w.users, h) + {u} == Holders(w.users, h);
  }

  /** A yield is harmless exactly when no other wrapper is reading: the wrapper is the reader, or
      there is none, or there is nothing left to read. */
  predicate MayYield(w: World, u: UserId)
    requires u in w.users && (w.users[u].handle.Some? ==> w.users[u].handle.value in w.handles)
  {
    w.users[u].handle.Some? ==>
      var hd := w.handles[w.users[u].handle.value];
      w.users[u].readable || hd.closedRd || hd.fd in w.watched
  }

  lemma YieldFineIff(w: World, u: UserId, h: HandleId)
    requires Inv(w) && u in w.users && w.users[u].handle == Some(h)
    ensures Fine(Yield(w, u), h) <==> MayYield(w, u)
  {
    assert Fine(w, h);
    YieldSelf(w, u, h);
    var readers := Readers(w.users, h);
    if !w.handles[h].closedRd {
      if w.users[u].readable {
        assert u in readers;
        assert readers - {u} == {} by { assert |readers - {u}| == |readers| - 1; }
      } else {
        assert readers - {u} == readers;
      }
    }
  }

  lemma YieldInvIff(w: World, u: UserId)
    requires Inv(w) && u in w.users && u !in w.queue
    ensures Inv(Yield(w, u)) <==> MayYield(w, u)
  {
    YieldShape(w, u);
    var w' := Yield(w, u);
    forall g | g in w'.handles && w.users[u].handle != Some(g) ensures Fine(w', g) {
      YieldElsewhere(w, u, g);
      assert Fine(w, g);
    }
    if w.users[u].handle.Some? { YieldFineIff(w, u, w.users[u].handle.value); }
  }

  /** `~HandleUser`. */
  function Destroy(w: World, u: UserId): World
    requires u in w.users && (w.users[u].handle.Some? ==> w.users[u].handle.value in w.handles)
  {
    var w' := if w.users[u].readable && w.users[u].handle.Some? then Yield(w, u) else w;
    if w.users[u].handle.Some? then Detach(w', u, w.users[u].handle.value) else w'.(users := w'.users - {u})
  }

  lemma RemoveShape(w: World, u: UserId)
    requires Shape(w) && u !in w.queue
    ensures Shape(w.(users := w.users - {u}))
  {
  }

  lemma DetachElsewhere(w: World, u: UserId, h: HandleId, g: HandleId)
    requires h in w.handles && g in w.handles && g != h && u in w.users && w.users[u].handle == Some(h)
    ensures ViewOf(Detach(w, u, h), g) == ViewOf(w, g)
  {
    var users := Detach(w, u, h).users;
    assert Holders(users, g) == Holders(w.users, g) && Readers(users, g) == Readers(w.users, g);
  }

  /** An unreadable wrapper takes its reference with it, and the last one a closed handle. */
  lemma DetachSelf(w: World, u: UserId, h: HandleId)
    requires h in w.handles && u in w.users && w.users[u].handle == Some(h) && Fine(w, h)
    requires w.users[u].readable ==> w.handles[h].closedRd
    ensures Fine(Detach(w, u, h), h)
  {
    var users := Detach(w, u, h).users;
    assert u in Holders(w.users, h);
    assert Holders(users, h) == Holders(w.users, h) - {u};
    assert !w.users[u].readable ==> Readers(users, h) == Readers(w.users, h);
  }

  lemma DetachShape(w: World, u: UserId, h: HandleId)
    requires Shape(w) && u !in w.queue && h in w.handles
    ensures Shape(Detach(w, u, h))
  {
    var w1, w' := w.(users := w.users - {u}), Detach(w, u, h);
    RemoveShape(w, u);
    ChangeShape(w1, h, w'.handles[h], {});
    assert w' == Change(w1, h, w'.handles[h], {});
  }

  lemma DetachInv(w: World, u: UserId, h: HandleId)
    requires Inv(w) && u in w.users && u !in w.queue && w.users[u].handle == Some(h)
    requires w.users[u].readable ==> w.handles[h].closedRd
    ensures Inv(Detach(w, u, h))
  {
    DetachShape(w, u, h);
    forall g | g in w.handles ensures Fine(Detach(w, u, h), g) {
      assert Fine(w, g);
      if g == h { DetachSelf(w, u, h); } else { DetachElsewhere(w, u, h, g); }
    }
  }

  lemma DestroyInv(w: World, u: UserId)
    requires Inv(w) && u in w.users && u !in w.queue
    ensures Inv(Destroy(w, u))
  {
    var user := w.users[u];
    if user.handle.Some? {
      if user.readable {
        YieldInvIff(w, u);
        DetachInv(Yield(w, u), u, user.handle.value);
      } else {
        DetachInv(w, u, user.handle.value);
      }
    } else {
      var w' := w.(users := w.users - {u});
      RemoveShape(w, u);
      forall h | h in w'.handles ensures Fine(w', h) {
        assert Fine(w, h);
        assert Holders(w'.users, h) == Holders(w.users, h) && Readers(w'.users, h) == Readers(w.users, h);
        assert ViewOf(w', h) == ViewOf(w, h);
      }
    }
  }

  // ---- Probing ------------------------------------------------------------------------------

  /** The flags of a wrapper may change when nothing is left to read. */
  lemma FlagsInv(w: World, u: UserId, user: HandleUser)
    requires Inv(w) && u in w.users && u !in w.queue && user.handle == w.users[u].handle
    requires user.readable == w.users[u].readable || (user.handle.Some? && w.handles[user.handle.value].closedRd)
    ensures Inv(SetUser(w, u, user))
  {
    SetUserShape(w, u, user);
    forall g | g in w.handles ensures Fine(SetUser(w, u, user), g) {
      assert Fine(w, g);
      if user.handle == Some(g) { FlagsFine(w, u, user, g); } else { SetUserElsewhere(w, u, user, g); }
    }
  }

  lemma FlagsFine(w: World, u: UserId, user: HandleUser, h: HandleId)
    requires h in w.handles && Fine(w, h) && u in w.users && w.users[u].handle == user.handle == Some(h)
    requires user.readable == w.users[u].readable || w.handles[h].closedRd
    ensures Fine(SetUser(w, u, user), h)
  {
    var w' := SetUser(w, u, user);
    assert Holders(w'.users, h) == Holders(w.users, h);
    assert user.readable == w.users[u].readable ==> Readers(w'.users, h) == Readers(w.users, h);
  }

  /** How a read of the next header on an open handle can end without data. */
  datatype Ending = Eos | Eof | Reset

  /** The closing branches of `HandleUser::probe`. */
  function ProbeEnds(w: World, u: UserId, ending: Ending): World
    requires u in w.users && w.users[u].handle.Some? && w.users[u].handle.value in w.handles
  {
    var h, user := w.users[u].handle.value, w.users[u].(newConnection := false);
    match ending
    case Eos => SetUser(Close(SetUser(w, u, user), h, false, true), u, Quiet(user))
    case Eof => Close(SetUser(w, u, Quiet(user)), h, true, true)
    case Reset => Close(SetUser(w, u, user), h, true, true)
  }

  lemma CloseSetUser(w: World, u: UserId, user: HandleUser, h: HandleId, wr: bool, rd: bool)
    requires h in w.handles
    ensures Close(SetUser(w, u, user), h, wr, rd) == SetUser(Close(w, h, wr, rd), u, user)
  {
  }

  lemma CloseCloses(w: World, h: HandleId, wr: bool, rd: bool)
    requires h in w.handles
    ensures var hd, hd' := w.handles[h], Close(w, h, wr, rd).handles[h];
            hd'.closedRd == (hd.closedRd || rd) && hd'.closedWr == (hd.closedWr || wr)
    ensures Close(w, h, wr, rd).users == w.users && Close(w, h, wr, rd).queue == w.queue
  {
  }

  lemma HeldIsAlive(w: World, u: UserId)
    requires Inv(w) && u in w.users && w.users[u].handle.Some?
    ensures w.users[u].handle.value in w.handles && w.handles[w.users[u].handle.value].Alive()
  {
    var h := w.users[u].handle.value;
    assert Fine(w, h) && u in Holders(w.users, h);
  }

  lemma CloseAndFlagInv(w: World, u: UserId, user: HandleUser, h: HandleId, wr: bool)
    requires Inv(w) && u in w.users && u !in w.queue && w.users[u].handle == user.handle == Some(h)
    ensures Inv(SetUser(Close(w, h, wr, true), u, user))
    ensures Close(SetUser(w, u, user), h, wr, true) == SetUser(Close(w, h, wr, true), u, user)
  {
    HeldIsAlive(w, u);
    CloseInv(w, h, wr, true);
    CloseCloses(w, h, wr, true);
    CloseSetUser(w, u, user, h, wr, true);
    FlagsInv(Close(w, h, wr, true), u, user);
  }

  lemma SetUserTwice(w: World, u: UserId, user: HandleUser, user': HandleUser)
    ensures SetUser(SetUser(w, u, user), u, user') == SetUser(w, u, user')
  {
  }

  lemma ProbeEndsInv(w: World, u: UserId, ending: Ending)
    requires Inv(w) && u in w.users && u !in w.queue && w.users[u].handle.Some?
    ensures Inv(ProbeEnds(w, u, ending))
  {
    var h, user := w.users[u].handle.value, w.users[u].(newConnection := false);
    match ending
    case Eos =>
      CloseAndFlagInv(w, u, user, h, false);
      CloseAndFlagInv(w, u, Quiet(user), h, false);
      SetUserTwice(Close(w, h, false, true), u, user, Quiet(user));
    case Eof => CloseAndFlagInv(w, u, Quiet(user), h, true);
    case Reset => CloseAndFlagInv(w, u, user, h, true);
  }

  // ---- Shutdown and listening ---------------------------------------------------------------

  /** `setAsClosed`, as far as flags and tables go. */
  function SetAsClosed(w: World, h: HandleId): World
    requires h in w.handles
  {
    Close(if w.handles[h].closedWr then w else Close(w, h, true, false), h, false, true)
  }

  lemma SetAsClosedInv(w: World, h: HandleId)
    requires Inv(w) && h in w.handles && !w.handles[h].closedRd
    ensures Inv(SetAsClosed(w, h)) && SetAsClosed(w, h).handles[h].Closed()
  {
    assert Fine(w, h);
    var w' := if w.handles[h].closedWr then w else Close(w, h, true, false);
    if !w.handles[h].closedWr {
      CloseInv(w, h, true, false);
      CloseCloses(w, h, true, false);
    }
    assert Fine(w', h);
    CloseInv(w', h, false, true);
    CloseCloses(w', h, false, true);
  }

  /** `listen` empties the watched set. */
  function Listen(w: World, sck: Fd): World { w.(watched := {sck}, listenSck := sck) }

  /** Listening after a connection was given back loses that connection. */
  lemma ListenInvIff(w: World, sck: Fd)
    requires Inv(w) && FdFree(w, sck)
    ensures Inv(Listen(w, sck)) <==> forall f | f in w.watched :: f == w.listenSck
  {
    var w' := Listen(w, sck);
    if f :| f in w.watched && f != w.listenSck {
      var h := w.connections[f];
      assert Fine(w, h);
      assert !Fine(w', h) by { assert ViewOf(w', h).readers == ViewOf(w, h).readers; }
    } else {
      forall h | h in w'.handles ensures Fine(w', h) {
        assert Fine(w, h);
        assert ViewOf(w', h) == ViewOf(w, h);
      }
    }
  }
}
