/** The connector's sweep and the handles' life cycle together: each ready descriptor is one step of
    the life cycle, and leaves one wrapper in the queue. */
module Sweeping {
  import opened Connector
  import opened Lifecycle
  import opened LifecycleRuns

  /** The ready descriptors before `idx`, in order. */
  function Visited(ready: set<Fd>, idx: nat): seq<Fd> { Queued(ready, ready, -1, idx) }

  lemma VisitedStep(ready: set<Fd>, idx: nat)
    ensures Visited(ready, idx + 1) == Visited(ready, idx) + if idx in ready then [idx] else []
  {
  }

  /** The wrapper that the sweep queues for descriptor `f`. */
  function Wrapper(job: Sweep, f: Fd): HandleUser {
    if f == job.listen then HandleUser(Some(job.newHandle), true, true)
    else if f in job.connections then HandleUser(Some(job.connections[f]), true, false)
    else EMPTY
  }

  function Ids(base: UserId, n: nat): (s: seq<UserId>)
    ensures |s| == n && forall i | 0 <= i < n :: s[i] == base + i
  {
    seq(n, i => base + i)
  }

  /** The wrappers are those there were and, from `base` on, one for each visited descriptor. */
  ghost predicate Wrapped(job: Sweep, was: map<UserId, HandleUser>, users: map<UserId, HandleUser>, base: UserId,
      seen: seq<Fd>) {
    && (forall u :: u in users <==> u in was || base <= u < base + |seen|)
    && (forall u | u in was :: u in users && users[u] == was[u])
    && (forall i | 0 <= i < |seen| :: base + i in users && users[base + i] == Wrapper(job, seen[i]))
  }

  lemma WrappedStep(job: Sweep, was: map<UserId, HandleUser>, users: map<UserId, HandleUser>, base: UserId,
      seen: seq<Fd>, f: Fd)
    requires Wrapped(job, was, users, base, seen) && forall u | u in was :: u < base
    ensures Wrapped(job, was, users[base + |seen| := Wrapper(job, f)], base, seen + [f])
  {
    var users', seen' := users[base + |seen| := Wrapper(job, f)], seen + [f];
    forall i | 0 <= i < |seen'| ensures base + i in users' && users'[base + i] == Wrapper(job, seen'[i]) {
      assert i < |seen| ==> base + i in users;
    }
  }

  /** What the sweep starts from: `w`, of which the job is a copy, and what it will need. */
  ghost predicate Startable(w: World, job: Sweep, base: UserId) {
    && Inv(w) && job.Good()
    && job.watched == w.watched && job.connections == w.connections && job.listen == w.listenSck
    && job.newHandle !in w.handles && FdFree(w, job.newFd) && forall u | u in w.users :: u < base
  }

  /** Where the sweep that started from `w` stands before descriptor `idx`. */
  ghost predicate SweptTo(w: World, job: Sweep, base: UserId, idx: nat, now: World) {
    var seen := Visited(job.ready, idx);
    && now.listenSck == job.listen && now.watched == Remaining(job, idx) && now.connections == Table(job, idx)
    && now.queue == w.queue + Ids(base, |seen|)
    && Wrapped(job, w.users, now.users, base, seen)
    && (!(job.listen in job.ready && job.listen < idx) ==> job.newHandle !in now.handles && FdFree(now, job.newFd))
  }

  lemma SweptStart(w: World, job: Sweep, base: UserId)
    requires Startable(w, job, base)
    ensures SweptTo(w, job, base, 0, w)
  {
    assert Remaining(job, 0) == w.watched;
    assert w.queue + Ids(base, 0) == w.queue;
  }

  /** A descriptor that is not ready is passed over. */
  lemma SweptPast(w: World, job: Sweep, base: UserId, idx: nat, now: World)
    requires SweptTo(w, job, base, idx, now) && idx !in job.ready
    ensures SweptTo(w, job, base, idx + 1, now)
  {
    RemainingStep(job, idx);
    VisitedStep(job.ready, idx);
  }

  /** The wrapper for the next ready descriptor. */
  function NextId(job: Sweep, base: UserId, idx: nat): UserId { base + |Visited(job.ready, idx)| }

  /** `next` has one more wrapper, queued, for the descriptor `idx`. */
  ghost predicate Queues(job: Sweep, base: UserId, idx: nat, now: World, next: World) {
    var u := NextId(job, base, idx);
    && next.users == now.users[u := Wrapper(job, idx)] && next.queue == now.queue + [u]
    && next.listenSck == now.listenSck
  }

  lemma SweptStep(w: World, job: Sweep, base: UserId, idx: nat, now: World, next: World)
    requires (forall u | u in w.users :: u < base) && SweptTo(w, job, base, idx, now) && idx in job.ready
    requires Queues(job, base, idx, now, next)
    requires next.watched == Remaining(job, idx + 1) && next.connections == Table(job, idx + 1)
    requires !(job.listen in job.ready && job.listen < idx + 1) ==>
      job.newHandle !in next.handles && FdFree(next, job.newFd)
    ensures SweptTo(w, job, base, idx + 1, next)
  {
    var seen, u := Visited(job.ready, idx), NextId(job, base, idx);
    VisitedStep(job.ready, idx);
    WrappedStep(job, w.users, now.users, base, seen, idx);
    assert Ids(base, |seen| + 1) == Ids(base, |seen|) + [u];
    assert next.queue == w.queue + Ids(base, |seen| + 1);
  }

  /** A ready connection is still watched when its turn comes, and in the table as at the start. */
  lemma StillWatched(w: World, job: Sweep, base: UserId, idx: nat, now: World)
    requires Startable(w, job, base) && SweptTo(w, job, base, idx, now) && idx in job.ready
    ensures idx in now.watched && NextId(job, base, idx) !in now.users
    ensures idx != job.listen ==>
              idx in job.connections && idx in now.connections && now.connections[idx] == job.connections[idx]
  {
  }

  lemma ReadyIs(now: World, fd: Fd, u: UserId)
    requires fd in now.connections && now.connections[fd] in now.handles
    ensures var next, h := Ready(now, fd, u), now.connections[fd];
            && next.users == now.users[u := HandleUser(Some(h), true, false)] && next.queue == now.queue + [u]
            && next.watched == now.watched - {fd} && next.connections == now.connections
            && next.listenSck == now.listenSck
            && next.handles.Keys == now.handles.Keys && forall f :: FdFree(now, f) ==> FdFree(next, f)
  {
  }

  lemma SweptReady(w: World, job: Sweep, base: UserId, idx: nat, now: World)
    requires Startable(w, job, base) && Inv(now) && SweptTo(w, job, base, idx, now) && idx in job.ready
      && idx != job.listen
    ensures Enabled(now, DoReady(idx, NextId(job, base, idx)))
    ensures SweptTo(w, job, base, idx + 1, After(now, DoReady(idx, NextId(job, base, idx))))
  {
    var u := NextId(job, base, idx);
    StillWatched(w, job, base, idx, now);
    ReadyIs(now, idx, u);
    RemainingStep(job, idx);
    SweptStep(w, job, base, idx, now, Ready(now, idx, u));
  }

  lemma SweptAccept(w: World, job: Sweep, base: UserId, idx: nat, now: World)
    requires Startable(w, job, base) && Inv(now) && SweptTo(w, job, base, idx, now) && idx in job.ready
      && idx == job.listen
    ensures Enabled(now, DoAccept(job.newHandle, job.newFd, NextId(job, base, idx)))
    ensures SweptTo(w, job, base, idx + 1, After(now, DoAccept(job.newHandle, job.newFd, NextId(job, base, idx))))
  {
    var u := NextId(job, base, idx);
    StillWatched(w, job, base, idx, now);
    RemainingStep(job, idx);
    SweptStep(w, job, base, idx, now, Enqueue(Connected(now, job.newHandle, job.newFd, u), u));
  }

  /** What the visited descriptors are when the sweep ends, and what they say of set and table. */
  lemma SweepEnds(job: Sweep, acceptOk: bool, stop: nat)
    requires StopsAt(job, acceptOk, stop)
    ensures var seen := Visited(job.ready, stop);
            && Ascending(seen)
            && (forall f :: f in seen <==> f in job.ready && Reaches(job.ready, job.listen, acceptOk, f))
            && Remaining(job, stop) == job.watched - (set f | f in seen && f != job.listen)
            && Table(job, stop) == if job.listen in seen then job.connections[job.newFd := job.newHandle]
              else job.connections
  {
    QueuedOnce(job.ready, job.ready, -1, stop);
    UnwatchedAt(job, acceptOk, stop);
  }
}
