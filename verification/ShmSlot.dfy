/** The one-slot shared-memory channel: `put` cuts a message into chunks, `get` reassembles it.
    A step is one critical section under the spinlock; the two sides interleave freely. */
module ShmSlot {
  import opened Bytes
  import opened ShmFloat

  /** A message; the empty one is end-of-stream. */
  type Message = seq<byte>

  /** The consumer waits for a message, or has `left` more chunks to read of one of `size` bytes. */
  datatype Consumer = Waiting | Reading(size: nat, left: nat, acc: seq<byte>)

  /** `todo` is what the producer still has to put, `pos` bytes of its head being written. For each
      finished `get`, `got` has the bytes that it copied and `returned` the size that it reports. */
  datatype Channel = Channel(guard: bool, size: nat, data: seq<byte>, todo: seq<Message>, pos: nat,
                             consumer: Consumer, got: seq<Message>, returned: seq<nat>)

  /** The slot's buffer after a chunk has been copied to its start. */
  function Filled(data: seq<byte>, chunk: seq<byte>): (r: seq<byte>)
    requires |chunk| <= |data|
    ensures |r| == |data| && r[..|chunk|] == chunk
  {
    chunk + data[|chunk|..]
  }

  predicate WellFormed(c: Channel) {
    && |c.data| == CHUNK
    && (c.todo == [] ==> c.pos == 0)
    && (c.todo != [] ==> c.pos < |c.todo[0]| || (c.pos == 0 && c.todo[0] == []))
    && (c.consumer.Reading? ==> c.consumer.left > 0)
  }

  predicate CanPut(c: Channel) {
    !c.guard && c.todo != []
  }

  /** The producer's critical section. */
  function Put(c: Channel): (r: Channel)
    requires WellFormed(c) && CanPut(c)
    ensures WellFormed(r)
  {
    var m := c.todo[0];
    var s := Min(|m| - c.pos, CHUNK);
    var c' := c.(guard := true, size := |m|, data := Filled(c.data, m[c.pos..c.pos + s]));
    if c.pos + s == |m| then c'.(todo := c.todo[1..], pos := 0) else c'.(pos := c.pos + s)
  }

  predicate CanTake(c: Channel) {
    c.guard
  }

  /** How many chunks are left and how many bytes are read when the section starts. */
  function Begun(c: Channel): Consumer
    requires c.guard
  {
    if c.consumer.Reading? then c.consumer else Reading(c.size, ReaderChunks(c.size), [])
  }

  /** The consumer's critical section. */
  function Take(c: Channel): (r: Channel)
    requires WellFormed(c) && CanTake(c)
    ensures WellFormed(r)
  {
    var b := Begun(c);
    if b.size == 0 && c.consumer.Waiting? then
      c.(guard := false, got := c.got + [[]], returned := c.returned + [0])
    else
      var s := Min(if b.size < |b.acc| then 0 else b.size - |b.acc|, CHUNK);
      var acc := b.acc + c.data[..s];
      if b.left <= 1 then
        c.(guard := false, consumer := Waiting, got := c.got + [acc], returned := c.returned + [b.size])
      else c.(guard := false, consumer := Reading(b.size, b.left - 1, acc))
  }

  /** Chunks still to be put for a message of which `pos` bytes are written. */
  function ChunksOf(m: Message, pos: nat): nat
    requires pos <= |m|
  {
    if m == [] then 1 else CeilDiv(|m| - pos, CHUNK)
  }

  // What every interleaving keeps

  /** The message between the two sides: `read` bytes of it are read, `wrote` are written. */
  ghost predicate InTransit(c: Channel, m: Message, later: seq<Message>, read: nat) {
    read <= |m| &&
    var s := Min(|m| - read, CHUNK);
    var wrote := if c.guard then read + s else read;
    && (c.guard ==> c.size == |m| && |c.data| == CHUNK && c.data[..s] == m[read..read + s])
    && (if c.guard && wrote == |m| then c.todo == later && c.pos == 0 else c.todo == [m] + later && c.pos == wrote)
  }

  ghost predicate ReadingOk(c: Channel, m: Message, later: seq<Message>) {
    && c.consumer.Reading? && c.consumer.size == |m| && |c.consumer.acc| < |m|
    && c.consumer.acc == m[..|c.consumer.acc|]
    && c.consumer.left == CeilDiv(|m| - |c.consumer.acc|, CHUNK)
    && InTransit(c, m, later, |c.consumer.acc|)
  }

  function Sizes(ms: seq<Message>): seq<nat> {
    if ms == [] then [] else Sizes(ms[..|ms| - 1]) + [|ms[|ms| - 1]|]
  }

  lemma SizesAppend(ms: seq<Message>, m: Message)
    ensures Sizes(ms + [m]) == Sizes(ms) + [|m|]
  {
    assert (ms + [m])[..|ms|] == ms;
  }

  /** Everything got is what was put first, and the rest is all still there. */
  ghost predicate Inv(c: Channel, all: seq<Message>) {
    && WellFormed(c) && |c.got| <= |all| && c.got == all[..|c.got|] && c.returned == Sizes(c.got)
    && var rest := all[|c.got|..];
       if rest == [] then !c.guard && c.todo == [] && c.consumer.Waiting?
       else if c.consumer.Reading? then ReadingOk(c, rest[0], rest[1..])
       else InTransit(c, rest[0], rest[1..], 0)
  }

  ghost predicate AllSafe(all: seq<Message>) {
    forall k | 0 <= k < |all| :: CountSafe(|all[k]|)
  }

  lemma PutInTransit(c: Channel, m: Message, later: seq<Message>, read: nat)
    requires WellFormed(c) && CanPut(c) && InTransit(c, m, later, read)
    ensures InTransit(Put(c), m, later, read)
  {
    assert c.todo[1..] == later;
  }

  lemma PutKeeps(c: Channel, all: seq<Message>)
    requires Inv(c, all) && CanPut(c)
    ensures Inv(Put(c), all)
  {
    var rest := all[|c.got|..];
    PutInTransit(c, rest[0], rest[1..], if c.consumer.Reading? then |c.consumer.acc| else 0);
  }

  /** The part of the message that the consumer has when it starts its section. */
  lemma BegunOk(c: Channel, m: Message, later: seq<Message>)
    requires c.guard && CountSafe(|m|) && m != []
    requires if c.consumer.Reading? then ReadingOk(c, m, later) else InTransit(c, m, later, 0)
    ensures var b := Begun(c);
      && b.size == |m| && |b.acc| < |m| && b.acc == m[..|b.acc|] && b.left == CeilDiv(|m| - |b.acc|, CHUNK)
      && InTransit(c, m, later, |b.acc|)
  {
    ChunkCountsAgree(|m|);
  }

  lemma TakeMiddle(c: Channel, m: Message, later: seq<Message>)
    requires WellFormed(c) && c.guard && CountSafe(|m|) && m != []
    requires if c.consumer.Reading? then ReadingOk(c, m, later) else InTransit(c, m, later, 0)
    ensures if |m| - |Begun(c).acc| > CHUNK then
        Take(c).got == c.got && Take(c).returned == c.returned && ReadingOk(Take(c), m, later)
      else
        && Take(c).got == c.got + [m] && Take(c).returned == c.returned + [|m|]
        && Take(c).consumer.Waiting? && !Take(c).guard && Take(c).todo == later && Take(c).pos == 0
  {
    BegunOk(c, m, later);
    var b := Begun(c);
    var s := Min(|m| - |b.acc|, CHUNK);
    assert b.acc + c.data[..s] == m[..|b.acc| + s];
    assert m[..|m|] == m;
  }

  lemma TakeKeeps(c: Channel, all: seq<Message>)
    requires Inv(c, all) && CanTake(c) && (|c.got| < |all| ==> CountSafe(|all[|c.got|]|))
    ensures Inv(Take(c), all)
  {
    var rest := all[|c.got|..];
    var m, later := rest[0], rest[1..];
    SizesAppend(c.got, m);
    assert m == all[|c.got|];
    assert all[..|c.got| + 1] == all[..|c.got|] + [m] && all[|c.got| + 1..] == later;
    if m != [] { TakeMiddle(c, m, later); }
  }

  /** Critical sections that the two sides still have to execute. */
  function Total(todo: seq<Message>): nat {
    if todo == [] then 0 else ChunksOf(todo[0], 0) + Total(todo[1..])
  }

  function Work(c: Channel): nat
    requires WellFormed(c)
  {
    2 * (if c.todo == [] then 0 else ChunksOf(c.todo[0], c.pos) + Total(c.todo[1..])) + if c.guard then 1 else 0
  }

  lemma PutProgress(c: Channel)
    requires WellFormed(c) && CanPut(c)
    ensures Work(Put(c)) == Work(c) - 1
  {
    var m := c.todo[0];
    if c.pos + Min(|m| - c.pos, CHUNK) == |m| && c.todo[1..] != [] {
      assert Total(c.todo[1..]) == ChunksOf(c.todo[1], 0) + Total(c.todo[1..][1..]);
    }
  }

  lemma TakeProgress(c: Channel)
    requires WellFormed(c) && CanTake(c)
    ensures Work(Take(c)) == Work(c) - 1
  {
  }

  // Whole runs

  function Start(all: seq<Message>, data: seq<byte>): Channel {
    Channel(false, 0, data, all, 0, Waiting, [], [])
  }

  ghost predicate IsStep(c: Channel, d: Channel) {
    WellFormed(c) && ((CanPut(c) && d == Put(c)) || (CanTake(c) && d == Take(c)))
  }

  ghost predicate IsRun(cs: seq<Channel>, all: seq<Message>) {
    && |cs| > 0 && |cs[0].data| == CHUNK && cs[0] == Start(all, cs[0].data)
    && forall k | 0 <= k < |cs| - 1 :: IsStep(cs[k], cs[k + 1])
  }

  lemma {:induction false} RunInv(cs: seq<Channel>, all: seq<Message>, k: nat)
    requires IsRun(cs, all) && AllSafe(all) && k < |cs|
    ensures Inv(cs[k], all) && Work(cs[k]) + k == 2 * Total(all)
  {
    if k == 0 {
      StartInv(all, cs[0].data);
    } else {
      RunInv(cs, all, k - 1);
      var c := cs[k - 1];
      assert IsStep(c, cs[k - 1 + 1]);
      if CanPut(c) {
        PutKeeps(c, all);
        PutProgress(c);
      } else {
        TakeKeeps(c, all);
        TakeProgress(c);
      }
    }
  }

  /** In every interleaving the messages got are a prefix of the messages put, end-of-stream
      included, and reported with their sizes: no chunk is overwritten before it is read, and none
      is read twice. */
  lemma GotIsPrefix(cs: seq<Channel>, all: seq<Message>, k: nat)
    requires IsRun(cs, all) && AllSafe(all) && k < |cs|
    ensures cs[k].got <= all && cs[k].returned == Sizes(cs[k].got)
  {
    RunInv(cs, all, k);
  }

  /** Whenever a chunk waits to be taken, the message being got is the next one put and no more than
      its bytes are copied: a `get` stays inside its buffer exactly when the message fits. */
  lemma CopyFits(cs: seq<Channel>, all: seq<Message>, k: nat)
    requires IsRun(cs, all) && AllSafe(all) && k < |cs| && cs[k].guard
    ensures var c := cs[k];
      && |c.got| < |all| && Begun(c).size == |all[|c.got|]| && |Begun(c).acc| <= Begun(c).size
  {
    RunInv(cs, all, k);
    var c := cs[k];
    assert all[|c.got|..] != [] ==> all[|c.got|..][0] == all[|c.got|];
  }

  /** While messages are missing, exactly one of the two sides can step: nobody waits forever. */
  lemma SomeoneCanStep(cs: seq<Channel>, all: seq<Message>, k: nat)
    requires IsRun(cs, all) && AllSafe(all) && k < |cs|
    ensures cs[k].got != all <==> (CanPut(cs[k]) || CanTake(cs[k]))
    ensures !(CanPut(cs[k]) && CanTake(cs[k]))
  {
    RunInv(cs, all, k);
    var c := cs[k];
    if |c.got| == |all| {
      assert all[..|all|] == all && all[|all|..] == [];
    }
  }

  /** Every run delivers everything in exactly two critical sections per chunk. */
  lemma RunsDeliver(cs: seq<Channel>, all: seq<Message>)
    requires IsRun(cs, all) && AllSafe(all)
    ensures |cs| <= 2 * Total(all) + 1
    ensures |cs| == 2 * Total(all) + 1 <==> cs[|cs| - 1].got == all
  {
    var k := |cs| - 1;
    RunInv(cs, all, k);
    SomeoneCanStep(cs, all, k);
    WorkZero(cs[k]);
  }

  lemma WorkZero(c: Channel)
    requires WellFormed(c)
    ensures Work(c) == 0 <==> !CanPut(c) && !CanTake(c)
  {
    if c.todo != [] { assert ChunksOf(c.todo[0], c.pos) > 0; }
  }

  // Messages of unsafe size

  /** A run goes on with one more step. */
  lemma Extend(cs: seq<Channel>, all: seq<Message>, d: Channel) returns (ds: seq<Channel>)
    requires IsRun(cs, all) && IsStep(cs[|cs| - 1], d)
    ensures IsRun(ds, all) && ds[|ds| - 1] == d
  {
    ds := cs + [d];
    forall k | 0 <= k < |ds| - 1 ensures IsStep(ds[k], ds[k + 1]) {
      assert k < |cs| - 1 ==> IsStep(cs[k], cs[k + 1]);
    }
  }

  /** One `put` section followed by one `get` section. */
  lemma PutThenTake(cs: seq<Channel>, all: seq<Message>) returns (ds: seq<Channel>)
    requires IsRun(cs, all)
    requires var c := cs[|cs| - 1]; WellFormed(c) && CanPut(c)
    ensures IsRun(ds, all) && ds[|ds| - 1] == Take(Put(cs[|cs| - 1]))
  {
    var c := cs[|cs| - 1];
    ds := Extend(cs, all, Put(c));
    ds := Extend(ds, all, Take(Put(c)));
  }

  /** Alternating the two sides delivers the first `i` messages when these are safe. */
  lemma {:induction false} DeliverSafe(cs: seq<Channel>, all: seq<Message>, i: nat) returns (ds: seq<Channel>)
    requires IsRun(cs, all) && i <= |all| && forall j | 0 <= j < i :: CountSafe(|all[j]|)
    requires var c := cs[|cs| - 1]; Inv(c, all) && !c.guard && |c.got| <= i && (|c.got| == i ==> c.consumer.Waiting?)
    ensures IsRun(ds, all)
    ensures var c := ds[|ds| - 1]; Inv(c, all) && !c.guard && |c.got| == i && c.consumer.Waiting?
    decreases Work(cs[|cs| - 1])
  {
    var c := cs[|cs| - 1];
    if |c.got| == i { return cs; }
    OneDelivery(c, all);
    OneAtMost(c);
    ds := PutThenTake(cs, all);
    ds := DeliverSafe(ds, all, i);
  }

  /** One chunk of a safe message goes through. */
  lemma OneDelivery(c: Channel, all: seq<Message>)
    requires Inv(c, all) && !c.guard && |c.got| < |all| && CountSafe(|all[|c.got|]|)
    ensures CanPut(c) && Inv(Take(Put(c)), all) && Work(Take(Put(c))) < Work(c)
  {
    assert all[|c.got|..] != [];
    PutKeeps(c, all);
    TakeKeeps(Put(c), all);
    PutProgress(c);
    TakeProgress(Put(c));
  }

  lemma OneAtMost(c: Channel)
    requires WellFormed(c) && CanPut(c)
    ensures var d := Take(Put(c)); !d.guard && (d.got == c.got || (|d.got| == |c.got| + 1 && d.consumer.Waiting?))
  {
  }

  /** The channel while the first `k` chunks of the unsafe message `m` have gone through. */
  ghost predicate Midway(c: Channel, m: Message, later: seq<Message>, before: seq<Message>, sizes: seq<nat>, k: nat) {
    && WellFormed(c) && !c.guard && c.todo == [m] + later && k * CHUNK < |m| && c.pos == k * CHUNK
    && (if k == 0 then c.consumer.Waiting?
        else k < ReaderChunks(|m|) && c.consumer == Reading(|m|, ReaderChunks(|m|) - k, m[..k * CHUNK]))
    && c.got == before && c.returned == sizes
  }

  lemma OneRound(c: Channel, m: Message, later: seq<Message>, before: seq<Message>, sizes: seq<nat>, k: nat)
    requires Midway(c, m, later, before, sizes, k) && (k + 1) * CHUNK < |m| && k < ReaderChunks(|m|)
    ensures CanPut(c)
    ensures var d := Take(Put(c));
      if k + 1 < ReaderChunks(|m|) then Midway(d, m, later, before, sizes, k + 1)
      else d.got == before + [m[..(k + 1) * CHUNK]] && d.returned == sizes + [|m|] && CanPut(d)
  {
    var p := Put(c);
    assert p.data[..CHUNK] == m[k * CHUNK..(k + 1) * CHUNK];
    assert m[..k * CHUNK] + m[k * CHUNK..(k + 1) * CHUNK] == m[..(k + 1) * CHUNK];
  }

  lemma {:induction false} Truncates(cs: seq<Channel>, all: seq<Message>, m: Message, later: seq<Message>,
                                     before: seq<Message>, sizes: seq<nat>, k: nat) returns (ds: seq<Channel>)
    requires IsRun(cs, all) && Midway(cs[|cs| - 1], m, later, before, sizes, k)
    requires k < ReaderChunks(|m|) && ReaderChunks(|m|) * CHUNK < |m|
    ensures IsRun(ds, all)
    ensures var d := ds[|ds| - 1];
      d.got == before + [m[..ReaderChunks(|m|) * CHUNK]] && d.returned == sizes + [|m|] && CanPut(d)
    decreases ReaderChunks(|m|) - k
  {
    OneRound(cs[|cs| - 1], m, later, before, sizes, k);
    ds := PutThenTake(cs, all);
    if k + 1 < ReaderChunks(|m|) { ds := Truncates(ds, all, m, later, before, sizes, k + 1); }
  }

  lemma UnsafeIsLong(n: nat)
    requires !CountSafe(n) && Ulp(n) < CHUNK
    ensures 0 < ReaderChunks(n) && ReaderChunks(n) * CHUNK < n
  {
    UnsafeCountsOneLess(n);
    if n <= 0x100_0000 { SafeUpTo16MiB(n); }
  }

  /** The first message of unsafe size (below 2^45 bytes) is copied only in part, although `get`
      reports its full size: the reader stops one chunk early, and that chunk stays behind as if it
      began a message. */
  lemma UnsafeIsTruncated(all: seq<Message>, i: nat, data: seq<byte>) returns (cs: seq<Channel>)
    requires |data| == CHUNK && i < |all| && !CountSafe(|all[i]|) && Ulp(|all[i]|) < CHUNK
    requires forall j | 0 <= j < i :: CountSafe(|all[j]|)
    ensures IsRun(cs, all)
    ensures var c := cs[|cs| - 1];
      && |c.got| == |c.returned| == i + 1 && c.got[..i] == all[..i]
      && c.got[i] < all[i] && c.returned[i] == |all[i]| && CanPut(c)
  {
    var m := all[i];
    cs := [Start(all, data)];
    StartInv(all, data);
    cs := DeliverSafe(cs, all, i);
    var c, later := cs[|cs| - 1], all[i + 1..];
    assert all[i..] == [m] + later;
    SizesLength(c.got);
    UnsafeIsLong(|m|);
    cs := Truncates(cs, all, m, later, c.got, c.returned, 0);
  }

  lemma StartInv(all: seq<Message>, data: seq<byte>)
    requires |data| == CHUNK
    ensures Inv(Start(all, data), all)
  {
    assert all[..0] == [] && all[0..] == all;
    if all != [] { assert all == [all[0]] + all[1..]; }
  }

  lemma {:induction false} SizesLength(ms: seq<Message>)
    ensures |Sizes(ms)| == |ms|
  {
    if ms != [] { SizesLength(ms[..|ms| - 1]); }
  }

  ghost predicate AlwaysPrefix(all: seq<Message>) {
    forall cs: seq<Channel>, k: nat | IsRun(cs, all) && k < |cs| :: cs[k].got <= all
  }

  /** For messages below 2^45 bytes: every run delivers a prefix exactly when every size is safe. */
  lemma PrefixIffSafe(all: seq<Message>, data: seq<byte>)
    requires |data| == CHUNK && forall j | 0 <= j < |all| :: Ulp(|all[j]|) < CHUNK
    ensures AlwaysPrefix(all) <==> AllSafe(all)
  {
    if AllSafe(all) {
      forall cs: seq<Channel>, k: nat | IsRun(cs, all) && k < |cs| ensures cs[k].got <= all { GotIsPrefix(cs, all, k); }
    } else {
      var i := FirstUnsafe(all, 0);
      var cs := UnsafeIsTruncated(all, i, data);
      var c := cs[|cs| - 1];
      assert c.got[i] != all[i] && !(c.got <= all);
    }
  }

  lemma {:induction false} FirstUnsafe(all: seq<Message>, k: nat) returns (i: nat)
    requires k <= |all| && (forall j | 0 <= j < k :: CountSafe(|all[j]|)) && !AllSafe(all)
    ensures i < |all| && !CountSafe(|all[i]|) && forall j | 0 <= j < i :: CountSafe(|all[j]|)
    decreases |all| - k
  {
    i := k;
    if CountSafe(|all[k]|) { i := FirstUnsafe(all, k + 1); }
  }

  // The shared segment itself

  /** `shmSegment`: the slot that both processes map. */
  class ShmBuffer {
    var guard: bool
    var size: nat
    const data: array<byte>

    constructor ()
      ensures !guard && data.Length == CHUNK && fresh(data)
    {
      guard, size, data := false, 0, new byte[CHUNK];
    }

    /** The segment is the slot of channel `c`. */
    ghost predicate Shows(c: Channel)
      reads this, data
    {
      guard == c.guard && size == c.size && data[..] == c.data
    }

    /** One attempt of `put`: the section does nothing while the slot is full. `p` bytes of `msg`
        have been written before. */
    method TryPut(msg: Message, p: nat, ghost c: Channel) returns (done: bool, s: nat)
      requires WellFormed(c) && Shows(c) && c.todo != [] && c.todo[0] == msg && c.pos == p
      modifies this, data
      ensures done == CanPut(c) && Shows(if done then Put(c) else c)
      ensures done ==> s == Min(|msg| - p, CHUNK)
      // an empty slot gets the whole size and the next chunk; a full one is left alone
      ensures done == !old(guard) && guard
      ensures if done then size == |msg| && data[..s] == msg[p..p + s]
              else size == old(size) && data[..] == old(data[..])
    {
      done, s := !guard, 0;
      if done {
        size := |msg|;
        s := if |msg| - p < CHUNK then |msg| - p else CHUNK;
        Memcpy(data, 0, msg[p..p + s]);
        guard := true;
      }
    }

    /** One attempt of `get` into `buff`, which holds what the call has read so far. `part` is the
        chunk taken. The code does not look at the size of the buffer: the copy stays inside when
        the message is no longer than that. */
    method TryTake(consumer: Consumer, buff: array<byte>, ghost c: Channel)
      returns (done: bool, part: seq<byte>, next: Consumer, ret: nat)
      requires WellFormed(c) && Shows(c) && c.consumer == consumer && buff != data
      requires c.guard ==> Begun(c).size <= buff.Length && |Begun(c).acc| <= Begun(c).size
      requires consumer.Reading? ==> |consumer.acc| <= buff.Length && buff[..|consumer.acc|] == consumer.acc
      modifies this, buff
      ensures done == CanTake(c) && Shows(if done then Take(c) else c)
      ensures done ==> next == Take(c).consumer
      ensures done ==> |Begun(c).acc + part| <= buff.Length && buff[..|Begun(c).acc + part|] == Begun(c).acc + part
      ensures done && next.Reading? ==> next.acc == Begun(c).acc + part
      ensures done && next.Waiting? ==>
                Take(c).got == c.got + [Begun(c).acc + part] && Take(c).returned == c.returned + [ret]
      // a full slot is emptied into the buffer; an empty one is left alone
      ensures done == old(guard) && !guard && size == old(size) && part <= data[..]
      ensures !done ==> buff[..] == old(buff[..]) && next == consumer
      ensures done && consumer.Waiting? ==> |part| == Min(size, CHUNK) && (next.Waiting? ==> ret == size)
      ensures done && consumer.Reading? ==> next.Waiting? == (consumer.left <= 1)
      ensures done && consumer.Reading? && next.Waiting? ==> ret == consumer.size
    {
      done, part, next, ret := guard, [], consumer, 0;
      if done {
        var now := if consumer.Reading? then consumer else Reading(size, ReaderChunks(size), []);
        guard := false;
        if consumer.Waiting? && size == 0 {
          assert Begun(c).acc + part == [];
          return;
        }
        var sz := if now.size < |now.acc| then 0 else now.size - |now.acc|;
        part, ret := data[..if sz < CHUNK then sz else CHUNK], now.size;
        Memcpy(buff, |now.acc|, part);
        assert buff[..|now.acc| + |part|] == now.acc + part;
        next := if now.left <= 1 then Waiting else Reading(now.size, now.left - 1, now.acc + part);
      }
    }
  }
}
