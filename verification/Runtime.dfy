/** The operations of `Handle`, `HandleUser`, `Manager` and `ConnTcp` on the objects themselves.
    A handle or wrapper object is a record under its identifier; `delete` is counted. */
module Runtime {
  import opened Connector
  import opened Lifecycle
  import opened LifecycleRuns
  import opened Effects
  import opened Sweeping

  class Runtime {
    const conn: ConnTcp
    var handles: map<HandleId, Handle>
    var users: map<UserId, HandleUser>
    var queue: seq<UserId>

    ghost function State(): World
      reads this, conn
    {
      World(handles, users, queue, conn.connections, conn.watched, conn.listenSck)
    }

    ghost predicate Valid()
      reads this, conn
    {
      conn.Valid() && Inv(State())
    }

    constructor (c: ConnTcp)
      requires c.Valid() && c.watched == {} && c.connections == map[] && c.listenSck == -1
      ensures Valid() && conn == c && State() == START
    {
      conn, handles, users, queue := c, map[], map[], [];
    }

    // ---- `Handle` and `ConnTcp`: an object must not be used after its deletion --------------

    method NotifyClose(h: HandleId, wr: bool, rd: bool)
      requires conn.Valid() && h in handles && handles[h].Alive() && handles[h].fd >= -1
      modifies this`handles, conn
      ensures conn.Valid() && State() == Lifecycle.NotifyClose(old(State()), h, wr, rd)
      // closed for reading: out of table and set; closed for writing too, or listed no more: descriptor closed
      ensures var hd := old(handles)[h];
              var shut := wr && hd.fd != -1 && (rd || hd.fd !in old(conn.connections));
              && handles == old(handles)[h := if shut then hd.(fd := -1, closes := hd.closes + 1) else hd]
              && conn.connections == (if rd && hd.fd != -1 then old(conn.connections) - {hd.fd}
                                      else old(conn.connections))
              && conn.watched == (if rd && hd.fd != -1 then old(conn.watched) - {hd.fd} else old(conn.watched))
    {
      if wr && handles[h].fd != -1 {
        if !rd && handles[h].fd !in conn.connections { handles := handles[h := CloseFd(handles[h])]; }
      }
      if rd {
        var fd := handles[h].fd;
        if fd == -1 { return; }
        conn.Drop(fd);
        if wr { handles := handles[h := CloseFd(handles[h])]; }
      }
    }

    /** `delete this` when nothing refers to a closed handle. */
    method ReapHandle(h: HandleId)
      requires h in handles
      modifies this`handles
      ensures handles == old(handles)[h := Reap(old(handles)[h])]
    {
      if handles[h].counter == 0 && handles[h].closedRd && handles[h].closedWr {
        handles := handles[h := handles[h].(deletes := handles[h].deletes + 1)];
      }
    }

    method Close(h: HandleId, wr: bool, rd: bool)
      requires conn.Valid() && h in handles && handles[h].Alive() && handles[h].fd >= -1
      modifies this`handles, conn
      ensures conn.Valid() && State() == Lifecycle.Close(old(State()), h, wr, rd)
    {
      var hd := handles[h];
      if wr && !hd.closedWr { hd := hd.(eos := hd.eos + 1, closedWr := true); }
      if rd && !hd.closedRd { hd := hd.(closedRd := true); }
      handles := handles[h := hd];
      NotifyClose(h, hd.closedWr, hd.closedRd);
      ReapHandle(h);
    }

    method YieldHandle(h: HandleId)
      requires conn.Valid() && h in handles && handles[h].Alive()
      modifies conn
      ensures conn.Valid() && State() == HandleYield(old(State()), h)
    {
      var hd := handles[h];
      if !hd.closedRd && hd.fd >= 0 { conn.Watch(hd.fd); }
    }

    // ---- `HandleUser` -----------------------------------------------------------------------

    method Yield(u: UserId)
      requires Valid() && Mine(State(), u)
      modifies this`users, conn
      ensures conn.Valid() && State() == Lifecycle.Yield(old(State()), u) && Yields(old(State()), State(), u)
      ensures old(MayYield(State(), u)) ==> Valid()
    {
      ghost var before := State();
      HeldAlive(before, u);
      YieldsStep(before, u);
      users := users[u := users[u].(readable := false, newConnection := false)];
      if users[u].handle.Some? { YieldHandle(users[u].handle.value); }
      YieldInvIff(before, u);
    }

    method CloseUser(u: UserId)
      requires Valid() && Mine(State(), u)
      modifies this`handles, conn
      ensures Valid() && State() == After(old(State()), DoClose(u)) && Hangs(old(State()), State(), u)
      // the write side and nothing else: the connection stays in the table and in the watched set
      ensures conn.connections == old(conn.connections) && conn.watched == old(conn.watched)
      ensures users[u].handle.None? ==> handles == old(handles)
      ensures users[u].handle.Some? ==> (
                var h := users[u].handle.value;
                && h in handles && h in old(handles) && handles == old(handles)[h := handles[h]]
                && handles[h].closedWr && handles[h].closedRd == old(handles)[h].closedRd
                && handles[h].eos == old(handles)[h].eos + if old(handles)[h].closedWr then 0 else 1)
    {
      ghost var before := State();
      HeldAlive(before, u);
      CloseStepInv(before, u);
      HangsStep(before, u);
      if users[u].handle.Some? { Close(users[u].handle.value, true, false); }
    }

    method SetFlags(u: UserId, user: HandleUser)
      modifies this`users
      ensures State() == SetUser(old(State()), u, user)
    {
      users := users[u := user];
    }

    /** The closing branches of `probe`, once the header was read or could not be. */
    method ProbeEnds(u: UserId, ending: Ending)
      requires Valid() && Enabled(State(), DoProbeEnds(u, ending))
      modifies this`handles, this`users, conn
      ensures Valid() && State() == After(old(State()), DoProbeEnds(u, ending))
      ensures EndsOn(old(State()), State(), u, ending)
      // EOS leaves the write side alone, end of file and a reset close both
      ensures var h := old(users)[u].handle.value;
              && h in handles && handles == old(handles)[h := handles[h]] && handles[h].closedRd
              && handles[h].closedWr == (old(handles)[h].closedWr || ending.Eof? || ending.Reset?)
    {
      ghost var before := State();
      HeldAlive(before, u);
      ProbeEndsInv(before, u, ending);
      EndsOnStep(before, u, ending);
      var h, user := users[u].handle.value, users[u].(newConnection := false);
      match ending {
        case Eos =>
          SetFlags(u, user);
          Close(h, false, true);
          SetFlags(u, Quiet(user));
        case Eof =>
          SetFlags(u, Quiet(user));
          Close(h, true, true);
        case Reset =>
          SetFlags(u, user);
          Close(h, true, true);
      }
    }

    method Detach(u: UserId, h: HandleId)
      requires h in handles && handles[h].Alive() && u in users
      modifies this`handles, this`users
      ensures State() == Lifecycle.Detach(old(State()), u, h)
    {
      handles := handles[h := handles[h].(counter := handles[h].counter - 1)];
      ReapHandle(h);
      users := users - {u};
    }

    method Destroy(u: UserId)
      requires Valid() && Mine(State(), u)
      modifies this`handles, this`users, conn
      ensures Valid() && State() == After(old(State()), DoDestroy(u)) && Destroys(old(State()), State(), u)
    {
      ghost var before := State();
      HeldAlive(before, u);
      DestroyInv(before, u);
      DestroysStep(before, u);
      var held := users[u].handle;
      if users[u].readable && held.Some? { Yield(u); }
      if held.Some? { Detach(u, held.value); } else { users := users - {u}; }
    }

    method TakeOver(to: UserId, from: UserId)
      requires from in users
      modifies this`users
      ensures State() == Move(old(State()), to, from)
    {
      if to != from {
        users := users[to := users[from]];
        users := users[from := EMPTY];
      }
    }

    method MoveAssign(to: UserId, from: UserId)
      requires Valid() && Mine(State(), from) && to !in queue
      modifies this`users
      ensures State() == Move(old(State()), to, from) && Moves(old(State()), State(), to, from)
      ensures old(to == from || Vacant(State(), to)) ==> Valid()
    {
      MovesStep(State(), to, from);
      MoveInvIff(State(), to, from);
      TakeOver(to, from);
    }

    // ---- `Manager` and `ConnTcp::update` ----------------------------------------------------

    method Attach(u: UserId, h: HandleId, isNew: bool)
      requires h in handles && handles[h].Alive()
      modifies this`handles, this`users
      ensures State() == Lifecycle.Attach(old(State()), u, h, true, isNew)
    {
      users := users[u := HandleUser(Some(h), true, isNew)];
      handles := handles[h := handles[h].(counter := handles[h].counter + 1)];
    }

    /** The end of `addinQ`. */
    method Push(u: UserId, h: HandleId, isNew: bool)
      requires h in handles && handles[h].Alive()
      modifies this
      ensures State() == Enqueue(Lifecycle.Attach(old(State()), u, h, true, isNew), u)
    {
      Attach(u, h, isNew);
      queue := queue + [u];
    }

    method Connect(h: HandleId, fd: Fd, u: UserId)
      requires Valid() && Enabled(State(), DoConnect(h, fd, u))
      modifies this`handles, this`users, conn
      ensures Valid() && State() == After(old(State()), DoConnect(h, fd, u))
      ensures Connects(old(State()), State(), h, fd, u) && queue == old(queue)
    {
      ConnectsStep(State(), h, fd, u);
      ConnectedInv(State(), h, fd, u);
      handles := handles[h := NewHandle(fd)];
      conn.connections := conn.connections[fd := h];
      Attach(u, h, true);
    }

    method Unwatch(fd: Fd)
      requires conn.Valid()
      modifies conn
      ensures conn.Valid() && State() == Unwatched(old(State()), fd)
    {
      conn.Unwatch(fd);
    }

    /** The body of the sweep for a watched connection. */
    method Ready(fd: Fd, u: UserId)
      requires Valid() && Enabled(State(), DoReady(fd, u))
      modifies this, conn
      ensures Valid() && State() == After(old(State()), DoReady(fd, u)) && Readies(old(State()), State(), fd, u)
    {
      ghost var before := State();
      ReadiesStep(before, fd, u);
      ReadyInv(before, fd, u);
      ListedAlive(before, fd);
      Unwatch(fd);
      if fd in conn.connections { Push(u, conn.connections[fd], false); }
    }

    /** The body of the sweep for the listening socket. */
    method Accept(h: HandleId, fd: Fd, u: UserId)
      requires Valid() && Enabled(State(), DoAccept(h, fd, u))
      modifies this, conn
      ensures Valid() && State() == After(old(State()), DoAccept(h, fd, u))
      ensures Connects(old(State()), State(), h, fd, u) && queue == old(queue) + [u]
    {
      StepInv(State(), DoAccept(h, fd, u));
      Connect(h, fd, u);
      queue := queue + [u];
    }

    /** `update`: the sweep of `ConnTcp` over the descriptors that `select` reports. It visits all of
        them, in order, and for each queues one wrapper with an identifier from `base` on; a failing
        `accept` ends it. The connector's maximum and the single owner of every handle hold
        throughout. */
    method Update(ready: set<Fd>, acceptOk: bool, newFd: Fd, newHandle: HandleId, base: UserId) returns (seen: seq<Fd>)
      requires Valid() && Startable(State(), Job(ready, newFd, newHandle), base)
      modifies this, conn
      ensures Valid() && Ascending(seen)
      ensures forall f :: f in seen <==> f in ready && Reaches(ready, old(conn.listenSck), acceptOk, f)
      ensures acceptOk || old(conn.listenSck) !in ready ==> forall f :: f in seen <==> f in ready
      ensures !acceptOk && old(conn.listenSck) in ready ==>
                forall f :: f in seen <==> f in ready && f < old(conn.listenSck)
      ensures queue == old(queue) + Ids(base, |seen|)
      ensures Wrapped(old(Job(ready, newFd, newHandle)), old(users), users, base, seen)
      ensures conn.listenSck == old(conn.listenSck)
      ensures conn.watched == old(conn.watched) - (set f | f in seen && f != old(conn.listenSck))
      ensures conn.connections == if old(conn.listenSck) in seen then old(conn.connections)[newFd := newHandle]
        else old(conn.connections)
    {
      ghost var stop;
      ghost var w, job := State(), Job(ready, newFd, newHandle);
      SweptStart(w, job, base);
      assert From(ready, 0) == ready;
      seen, stop := RunSweep(job, w, ready, acceptOk, newFd, newHandle, base);
      SweepEnds(job, acceptOk, stop);
    }

    ghost function Job(ready: set<Fd>, newFd: Fd, newHandle: HandleId): Sweep
      reads this, conn
    {
      Sweep(ready, conn.watched, conn.connections, conn.listenSck, newFd, newHandle)
    }

    /** Where the sweep stands before descriptor `idx`. */
    ghost predicate Standing(job: Sweep, w: World, base: UserId, idx: nat, seen: seq<Fd>, nready: int)
      reads this, conn
    {
      && Valid() && Startable(w, job, base) && SweptTo(w, job, base, idx, State())
      && seen == Visited(job.ready, idx) && nready == |From(job.ready, idx)|
    }

    /** The loop; it ends before descriptor `stop`. */
    method RunSweep(ghost job: Sweep, ghost w: World, ready: set<Fd>, acceptOk: bool, newFd: Fd, newHandle: HandleId,
        base: UserId)
      returns (seen: seq<Fd>, ghost stop: nat)
      requires Standing(job, w, base, 0, [], |ready|)
      requires job.ready == ready && job.newFd == newFd && job.newHandle == newHandle
      modifies this, conn
      ensures Valid() && SweptTo(w, job, base, stop, State()) && StopsAt(job, acceptOk, stop)
        && seen == Visited(ready, stop)
    {
      var nready: int, idx: Fd := |ready|, 0;
      seen := [];
      while idx <= conn.fdmax && nready > 0
        invariant Standing(job, w, base, idx, seen, nready)
        invariant job.listen in ready && job.listen < idx ==> acceptOk
        decreases nready, conn.fdmax - idx
      {
        StandsAt(job, w, base, idx, seen, nready);
        if idx in ready && idx == conn.listenSck && !acceptOk { return seen, idx; }
        seen, nready := Turn(job, w, ready, idx, newFd, newHandle, base, seen, nready);
        idx := idx + 1;
      }
      stop := idx;
      SweepDone(job, w, base, idx, seen, nready);
    }

    lemma StandsAt(job: Sweep, w: World, base: UserId, idx: nat, seen: seq<Fd>, nready: int)
      requires Standing(job, w, base, idx, seen, nready)
      ensures job.listen == conn.listenSck
    {
    }

    /** Nothing ready is left when the loop ends. */
    lemma SweepDone(job: Sweep, w: World, base: UserId, idx: nat, seen: seq<Fd>, nready: int)
      requires Standing(job, w, base, idx, seen, nready) && (idx > conn.fdmax || nready <= 0)
      ensures forall f | f in job.ready :: f < idx
    {
      NothingMissed(job, conn.watched, conn.fdmax, idx, nready);
    }

    method Turn(ghost job: Sweep, ghost w: World, ready: set<Fd>, idx: Fd, newFd: Fd, newHandle: HandleId, base: UserId,
                seen: seq<Fd>, nready: int) returns (seen': seq<Fd>, nready': int)
      requires Standing(job, w, base, idx, seen, nready)
      requires job.ready == ready && job.newFd == newFd && job.newHandle == newHandle
      modifies this, conn
      ensures Standing(job, w, base, idx + 1, seen', nready')
      ensures nready' == (if idx in ready then nready - 1 else nready)
        && (idx !in ready ==> conn.fdmax == old(conn.fdmax))
    {
      seen', nready' := seen, nready;
      FromStep(ready, idx);
      VisitedStep(ready, idx);
      if idx in ready {
        Serve(job, w, idx, newFd, newHandle, base, base + |seen|);
        seen', nready' := seen + [idx], nready - 1;
      } else {
        SweptPast(w, job, base, idx, State());
      }
    }

    /** The body of the sweep for a ready descriptor. */
    method Serve(ghost job: Sweep, ghost w: World, idx: Fd, newFd: Fd, newHandle: HandleId, ghost base: UserId,
        u: UserId)
      requires Valid() && Startable(w, job, base) && SweptTo(w, job, base, idx, State()) && idx in job.ready
      requires job.newFd == newFd && job.newHandle == newHandle && u == NextId(job, base, idx)
      modifies this, conn
      ensures Valid() && SweptTo(w, job, base, idx + 1, State())
    {
      if idx == conn.listenSck {
        SweptAccept(w, job, base, idx, State());
        Accept(newHandle, newFd, u);
      } else {
        SweptReady(w, job, base, idx, State());
        Ready(idx, u);
      }
    }

    method GetNext(u: UserId)
      requires Valid() && u !in users
      modifies this`users, this`queue
      ensures Valid() && State() == After(old(State()), DoGetNext(u))
      ensures old(queue) != [] ==> queue == old(queue)[1..] && old(queue)[0] in old(users)
      ensures old(queue) != [] ==> users == (old(users) - {old(queue)[0]})[u := old(users)[old(queue)[0]]]
      ensures old(queue) == [] ==> queue == [] && users == old(users)[u := HandleUser(None, true, true)]
    {
      GetNextInv(State(), u);
      TakesStep(State(), u);
      if queue != [] {
        TakeOver(u, queue[0]);
        users, queue := users - {queue[0]}, queue[1..];
      } else {
        users := users[u := HandleUser(None, true, true)];
      }
    }

    /** `setAsClosed` without the drain. */
    method SetAsClosed(h: HandleId)
      requires Valid() && h in handles && !handles[h].closedRd
      modifies this`handles, conn
      ensures Valid() && State() == Lifecycle.SetAsClosed(old(State()), h)
      ensures Shuts(old(State()), State(), h, true, true)
    {
      ghost var before := State();
      SetAsClosedStep(before, h);
      OpenAlive(before, h);
      SetAsClosedInv(before, h);
      if !handles[h].closedWr { Close(h, true, false); }
      Close(h, false, true);
    }

    /** `end`: every connection in the table is closed both ways. A handle whose EOS was received
        but that the program never closed is no longer in the table: it stays as it is. */
    method End()
      requires Valid()
      modifies this`handles, conn
      ensures Valid() && conn.connections == map[] && handles.Keys == old(handles.Keys)
      ensures forall h | h in handles :: (
                if old(handles)[h].closedRd then handles[h] == old(handles)[h]
                else
                  && handles[h].Closed() && handles[h].closes == 1
                  && (handles[h].deletes == 1 <==> Holders(users, h) == {}))
    {
      ghost var before := handles;
      var todo := conn.connections.Values;
      OpenAreListed(State());
      while todo != {}
        invariant Valid() && Progress(before, handles)
        invariant todo == Open(handles)
      {
        var h :| h in todo;
        SetAsClosedElsewhere(State(), h, before);
        SetAsClosed(h);
        todo := todo - {h};
      }
      EndsClosed(State(), before);
    }
  }

  function Open(handles: map<HandleId, Handle>): set<HandleId> {
    set h | h in handles && !handles[h].closedRd
  }

  /** Each handle is untouched, or was open for reading and is closed both ways. */
  ghost predicate Progress(before: map<HandleId, Handle>, handles: map<HandleId, Handle>) {
    && handles.Keys == before.Keys
    && forall h | h in handles :: handles[h] == before[h] || (!before[h].closedRd && handles[h].Closed())
  }

  lemma CloseOnly(w: World, h: HandleId, wr: bool, rd: bool)
    requires h in w.handles
    ensures var handles := Lifecycle.Close(w, h, wr, rd).handles; h in handles && handles == w.handles[h := handles[h]]
  {
  }

  lemma ProgressStep(handles: map<HandleId, Handle>, h: HandleId, hd: Handle, before: map<HandleId, Handle>)
    requires h in handles && !handles[h].closedRd && hd.Closed() && Progress(before, handles)
    ensures Progress(before, handles[h := hd]) && Open(handles[h := hd]) == Open(handles) - {h}
  {
    assert before[h] == handles[h];
  }

  lemma SetAsClosedElsewhere(w: World, h: HandleId, before: map<HandleId, Handle>)
    requires h in w.handles && !w.handles[h].closedRd && Progress(before, w.handles)
    ensures var handles := Lifecycle.SetAsClosed(w, h).handles;
            Progress(before, handles) && Open(handles) == Open(w.handles) - {h}
  {
    var w1, w2 := Lifecycle.Close(w, h, true, false), Lifecycle.SetAsClosed(w, h);
    var w0 := if w.handles[h].closedWr then w else w1;
    CloseOnly(w, h, true, false);
    CloseCloses(w, h, true, false);
    CloseOnly(w0, h, false, true);
    CloseCloses(w0, h, false, true);
    ProgressStep(w.handles, h, w2.handles[h], before);
  }

  lemma ListedAreOpen(w: World)
    requires Inv(w)
    ensures forall f | f in w.connections :: w.connections[f] in Open(w.handles)
  {
    forall f | f in w.connections ensures w.connections[f] in Open(w.handles) {
      assert Fine(w, w.connections[f]);
    }
  }

  lemma EndsClosed(w: World, before: map<HandleId, Handle>)
    requires Inv(w) && Progress(before, w.handles) && Open(w.handles) == {}
    ensures w.connections == map[]
    ensures forall h | h in w.handles :: (
              if before[h].closedRd then w.handles[h] == before[h]
              else
                && w.handles[h].Closed() && w.handles[h].closes == 1
                && (w.handles[h].deletes == 1 <==> Holders(w.users, h) == {}))
  {
    ListedAreOpen(w);
    forall h | h in w.handles ensures w.handles[h].closedRd && Fine(w, h) {
      assert h !in Open(w.handles);
    }
  }

  lemma ListedAlive(w: World, fd: Fd)
    requires Inv(w) && fd in w.connections
    ensures w.connections[fd] in w.handles && w.handles[w.connections[fd]].Alive()
  {
    assert Fine(w, w.connections[fd]);
  }

  /** A handle open for reading may be closed for writing first: it stays alive until both are. */
  lemma OpenAlive(w: World, h: HandleId)
    requires Inv(w) && h in w.handles && !w.handles[h].closedRd
    ensures w.handles[h].Alive() && w.handles[h].fd >= -1
    ensures var hd := Lifecycle.Close(w, h, true, false).handles[h]; hd.Alive() && hd.fd >= -1
  {
    assert Fine(w, h);
  }

  /** The table's handles are those open for reading. */
  lemma OpenAreListed(w: World)
    requires Inv(w)
    ensures w.connections.Values == Open(w.handles)
  {
    forall h | h in w.connections.Values ensures h in w.handles && !w.handles[h].closedRd {
      var f :| f in w.connections && w.connections[f] == h;
      assert Fine(w, h);
    }
    forall h | h in w.handles && !w.handles[h].closedRd ensures h in w.connections.Values {
      assert Fine(w, h);
    }
  }

  lemma HeldAlive(w: World, u: UserId)
    requires Inv(w) && u in w.users
    ensures w.users[u].handle.Some? ==> (
              var h := w.users[u].handle.value; h in w.handles && w.handles[h].Alive() && w.handles[h].fd >= -1)
  {
    if w.users[u].handle.Some? {
      HeldIsAlive(w, u);
      assert Fine(w, w.users[u].handle.value);
    }
  }
}
