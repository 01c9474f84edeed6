/** `ConnTcp`: the watched descriptors and their maximum, and the sweep over the descriptors
    that `select` reports ready. */
module Connector {
  type Fd = nat
  type HandleId = nat

  /** `m` is the maximum of `s`, or -1 for the empty set. */
  ghost predicate IsMax(s: set<Fd>, m: int) {
    if s == {} then m == -1 else m >= 0 && m in s && forall f | f in s :: f <= m
  }

  /** The descriptors from `idx` on that the sweep has not visited. */
  function From(ready: set<Fd>, idx: nat): set<Fd> {
    set f | f in ready && f >= idx
  }

  lemma FromStep(ready: set<Fd>, idx: nat)
    ensures From(ready, idx + 1) == From(ready, idx) - {idx}
    ensures |From(ready, idx + 1)| == |From(ready, idx)| - if idx in ready then 1 else 0
  {
    assert From(ready, idx + 1) == From(ready, idx) - {idx};
    if idx in ready {
      assert From(ready, idx) == From(ready, idx + 1) + {idx};
    } else {
      assert From(ready, idx) == From(ready, idx + 1);
    }
  }

  ghost predicate Ascending(s: seq<Fd>) {
    forall i, j | 0 <= i < j < |s| :: s[i] < s[j]
  }

  /** One call of `update`: what `select` reported, what the connector held before, and the
      connection that the listening socket would accept. */
  datatype Sweep = Sweep(ready: set<Fd>, watched: set<Fd>, connections: map<Fd, HandleId>, listen: int,
                         newFd: Fd, newHandle: HandleId)
  {
    ghost predicate Good() {
      ready <= watched && newFd !in connections && newFd !in watched
    }
  }

  /** What is still watched before `idx`. */
  function Remaining(job: Sweep, idx: nat): set<Fd> {
    set f | f in job.watched && !(f in job.ready && f < idx && f != job.listen)
  }

  /** The connection table before `idx`. */
  function Table(job: Sweep, idx: nat): map<Fd, HandleId> {
    if job.listen in job.ready && job.listen < idx then job.connections[job.newFd := job.newHandle] else job.connections
  }

  lemma RemainingStep(job: Sweep, idx: nat)
    ensures Remaining(job, idx + 1) == Remaining(job, idx) - if idx in job.ready && idx != job.listen then {idx} else {}
  {
  }

  /** What the sweep has enqueued before `idx`, in order. */
  function Queued(ready: set<Fd>, conns: set<Fd>, listen: int, idx: nat): (q: seq<Fd>) {
    if idx == 0 then [] else
      Queued(ready, conns, listen, idx - 1)
        + if idx - 1 in ready && idx - 1 != listen && idx - 1 in conns then [idx - 1] else []
  }

  /** Every ready connection is enqueued, once. */
  lemma {:induction false} QueuedOnce(ready: set<Fd>, conns: set<Fd>, listen: int, idx: nat)
    ensures Ascending(Queued(ready, conns, listen, idx))
    ensures forall f :: f in Queued(ready, conns, listen, idx) <==> f in ready && f != listen && f in conns && f < idx
  {
    if idx > 0 {
      QueuedOnce(ready, conns, listen, idx - 1);
      var q := Queued(ready, conns, listen, idx - 1);
      assert forall k | 0 <= k < |q| :: q[k] in q;
    }
  }

  class ConnTcp {
    var watched: set<Fd>
    var fdmax: int
    var listenSck: int
    /** Active connections of this connector. */
    var connections: map<Fd, HandleId>

    ghost predicate Valid()
      reads this
    {
      IsMax(watched, fdmax)
    }

    /** `init`: nothing watched. */
    constructor ()
      ensures Valid() && watched == {} && connections == map[] && listenSck == -1
    {
      watched, fdmax, listenSck, connections := {}, -1, -1, map[];
    }

    /** `listen`: the sets are cleared, only the listening socket is watched. */
    method Listen(sck: Fd)
      modifies this
      ensures Valid() && watched == {sck} && listenSck == sck && connections == old(connections)
    {
      watched, fdmax, listenSck := {sck}, sck, sck;
    }

    /** Clears `fd` and, when it was the maximum, scans down for the new one. */
    method Unwatch(fd: Fd)
      requires Valid()
      modifies this`watched, this`fdmax
      ensures Valid() && watched == old(watched) - {fd}
    {
      ghost var before := watched;
      watched := watched - {fd};
      if fd == fdmax {
        var ii := fdmax - 1;
        while ii >= 0 && ii !in watched
          invariant -1 <= ii < fd && forall f | f in watched :: f <= ii
        {
          ii := ii - 1;
        }
        fdmax := ii;
        assert ii < 0 ==> watched == {};
      } else {
        assert fdmax >= 0 ==> fdmax in watched;
        assert fdmax < 0 ==> watched == {};
      }
    }

    /** `notify_yield`. */
    method Watch(fd: Fd)
      requires Valid()
      modifies this`watched, this`fdmax
      ensures Valid() && watched == old(watched) + {fd}
    {
      watched := watched + {fd};
      if fd > fdmax { fdmax := fd; }
    }

    /** The read half of `notify_close`: the connection leaves the table and the watched set. */
    method Drop(fd: Fd)
      requires Valid()
      modifies this`connections, this`watched, this`fdmax
      ensures Valid() && watched == old(watched) - {fd} && connections == old(connections) - {fd}
    {
      connections := connections - {fd};
      Unwatch(fd);
    }

    /** Where the sweep stands before descriptor `idx`, given the table and the watched set it
        started from. */
    ghost predicate Swept(job: Sweep, idx: nat, queued: seq<Fd>, accepted: bool)
      reads this
    {
      && Valid()
      && listenSck == job.listen
      && watched == Remaining(job, idx)
      && connections == Table(job, idx)
      && queued == Queued(job.ready, job.connections.Keys, job.listen, idx)
      && accepted == (job.listen in job.ready && job.listen < idx)
    }

    /** The body of the sweep for a descriptor that `select` reported. */
    method Visit(ghost job: Sweep, idx: Fd, newFd: Fd, newHandle: HandleId, queued: seq<Fd>, accepted: bool)
      returns (queued': seq<Fd>, accepted': bool)
      requires job.Good() && job.newFd == newFd && job.newHandle == newHandle && idx in job.ready
      requires Swept(job, idx, queued, accepted)
      modifies this
      ensures Swept(job, idx + 1, queued', accepted')
    {
      queued', accepted' := queued, accepted;
      RemainingStep(job, idx);
      if idx == listenSck {
        connections, accepted' := connections[newFd := newHandle], true;
      } else {
        Unwatch(idx);
        if idx in connections { queued' := queued + [idx]; }
      }
    }

    /** `update`: the sweep over `ready`, the watched descriptors that `select` reports. The
        listening socket accepts `newFd`, a descriptor not in use, for `newHandle`; when `accept`
        fails (`acceptOk`) the sweep is given up there. */
    method Update(ready: set<Fd>, acceptOk: bool, newFd: Fd, newHandle: HandleId)
      returns (queued: seq<Fd>, accepted: bool)
      requires Valid() && ready <= watched && newFd !in connections && newFd !in watched
      modifies this
      ensures Valid() && listenSck == old(listenSck)
      // every ready descriptor is visited, although fdmax shrinks on the way
      ensures accepted <==> acceptOk && old(listenSck) in ready
      ensures watched == old(watched)
                - (set f | f in ready && f != old(listenSck) && Reaches(ready, old(listenSck), acceptOk, f))
      ensures connections == if accepted then old(connections)[newFd := newHandle] else old(connections)
      // each ready connection is unwatched and enqueued exactly once, in descriptor order
      ensures Ascending(queued)
      ensures forall f :: f in queued <==>
                f in ready && f != old(listenSck) && f in old(connections)
                  && Reaches(ready, old(listenSck), acceptOk, f)
      // a failing accept leaves everything from the listening socket on as it was, and nothing else does
      ensures !acceptOk && old(listenSck) in ready ==> forall f | f in queued :: f < old(listenSck)
      ensures !acceptOk && old(listenSck) in ready ==>
                forall f | f in old(watched) && f >= old(listenSck) :: f in watched
      ensures acceptOk || old(listenSck) !in ready ==> forall f | f in watched :: f !in ready || f == old(listenSck)
    {
      ghost var job := Sweep(ready, watched, connections, listenSck, newFd, newHandle);
      assert Remaining(job, 0) == watched;
      ghost var stop;
      queued, accepted, stop := RunSweep(job, ready, acceptOk, newFd, newHandle);
      UnwatchedAt(job, acceptOk, stop);
      QueuedOnce(ready, job.connections.Keys, listenSck, stop);
    }

    /** The loop of the sweep; it ends before descriptor `stop`. */
    method RunSweep(ghost job: Sweep, ready: set<Fd>, acceptOk: bool, newFd: Fd, newHandle: HandleId)
      returns (queued: seq<Fd>, accepted: bool, ghost stop: nat)
      requires job.Good() && job.ready == ready && job.newFd == newFd && job.newHandle == newHandle
      requires Swept(job, 0, [], false)
      modifies this
      ensures Swept(job, stop, queued, accepted) && StopsAt(job, acceptOk, stop)
    {
      queued, accepted := [], false;
      var nready: int, idx: Fd := |ready|, 0;
      assert From(ready, 0) == ready;
      while idx <= fdmax && nready > 0
        invariant Swept(job, idx, queued, accepted) && nready == |From(ready, idx)|
        invariant job.listen in ready && job.listen < idx ==> acceptOk
        decreases nready, fdmax - idx
      {
        FromStep(ready, idx);
        if idx in ready {
          if idx == listenSck && !acceptOk { return queued, accepted, idx; }
          queued, accepted := Visit(job, idx, newFd, newHandle, queued, accepted);
          nready := nready - 1;
        } else {
          RemainingStep(job, idx);
        }
        idx := idx + 1;
      }
      stop := idx;
      NothingMissed(job, watched, fdmax, idx, nready);
    }
  }

  /** Where a sweep may end: past everything that is ready, or at a listening socket whose `accept`
      fails. */
  ghost predicate StopsAt(job: Sweep, acceptOk: bool, stop: nat) {
    if job.listen in job.ready && !acceptOk then stop == job.listen else forall f | f in job.ready :: f < stop
  }

  lemma UnwatchedAt(job: Sweep, acceptOk: bool, stop: nat)
    requires StopsAt(job, acceptOk, stop)
    ensures Remaining(job, stop)
         == job.watched - (set f | f in job.ready && f != job.listen && Reaches(job.ready, job.listen, acceptOk, f))
  {
  }

  /** Whether the sweep gets as far as `f`: not beyond a listening socket whose `accept` fails. */
  predicate Reaches(ready: set<Fd>, listen: int, acceptOk: bool, f: Fd) {
    listen in ready && !acceptOk ==> f < listen
  }

  /** The sweep stops only when nothing is left: an unvisited descriptor is still watched, so it
      is not above the maximum. */
  lemma NothingMissed(job: Sweep, watched: set<Fd>, fdmax: int, idx: nat, nready: int)
    requires job.Good() && watched == Remaining(job, idx) && IsMax(watched, fdmax)
    requires nready == |From(job.ready, idx)| && (idx > fdmax || nready <= 0)
    ensures forall f | f in job.ready :: f < idx
  {
    forall f | f in job.ready ensures f < idx {
      assert f >= idx ==> f in From(job.ready, idx) && f in watched;
    }
  }
}
