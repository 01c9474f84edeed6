# MTCL in Dafny

MTCL is a message library that runs over several transports. This project models the logic that is
the library's own, and proves what it promises: the generic collectives and their partition tables,
proxy-to-proxy forwarding, the shared-memory slot, the life cycle of handles and their wrappers, the
TCP connector's sweep, TCP framing under partial reads and writes, probe and receive, fan-in, team
creation and the out-of-band allgather.

`dafny verify dfyconfig.toml` checks everything. The modules build on each other:

- `Bytes`, `Partition`: bytes, frames, integer layouts; the uneven block partition.
- `Collective`: a point-to-point connection as a FIFO of frames, `probeHandle`, `receiveFromHandle`.
- `Scatter`, `Gather`, `Transpose`, `Alltoall`: each `sendrecv`, root side and member side.
- `TeamRuns`: a whole team, every member running its own side.
- `Tables`: the MPI and UCC count and displacement loops. `Oob`: the UCC out-of-band allgather.
- `Team`: ranks, participant order and the root's handle vector.
- `FanIn`: the root's scan over its senders.
- `ProxyCodec`, `ProxyConnection`, `Proxy`, `ProxyRuns`: message layout, one connection seen from both
  ends, the tables with their event handlers, and every run of two proxies with any number of connections.
- `ShmFloat`, `ShmSlot`: the single-precision chunk count and the one-slot channel.
- `Connector`: watched descriptors, `fdmax` and the sweep.
- `Lifecycle`, `LifecycleRuns`, `Effects`, `Sweeping`, `Runtime`: handles, wrappers, queue and table; every run of
  the public operations; what each of them changes, field by field, and what follows for whole runs; the sweep as a
  sequence of them; the same operations as methods on the objects' fields.
- `TcpFraming`, `Reading`, `ReadingRuns`: the byte stream; probe and receive on it, proved to do what the
  frame-level connection of `Collective` does; every session of probes and receives.

## How the model reads the code

- A connection has one writer and one reader and its reads block, so `inbox` is all that the peer sends;
  what a program sees does not depend on timing. A read past the end finds the connection shut down.
- A message of length zero and `sendEOS` put the same bytes on the stream (include/protocols/tcp.hpp:92-108):
  the empty frame is EOS. `TcpFraming.DecodesIffNoneEmpty` says exactly when that matters for a stream,
  `TeamRuns.ScatterTeam` and `TeamRuns.GatherTeam` what it does to a team with fewer elements than members.
- The collectives of a whole team are stated for a root at any rank, which include/collectives/mpiImpl.hpp:83
  forbids and include/manager.hpp:693-698 allows. The two size rules of gather and allgather then differ, and the
  conditions under which the calls succeed are exact. The all-to-all transposes by position, the root first and
  then the participants: positions are ranks exactly when the root is first (`TeamRuns.PositionsAreRanksIff`).
- A member in a blocking receive to which the root sends nothing stays there until the root's connection ends;
  the runs of a team give this as the fate `Starves`, apart from `FindsEos` for an empty frame that was sent.
- Handle and wrapper objects are records under an identifier; two wrappers share a handle by its
  identifier. `delete` is a counter, so that deleting twice or using a deleted object would show.
- A region that the code protects by a lock is one step. The operating system hands out descriptors that
  are not in use.
- Partial reads and writes follow a schedule, an arbitrary list of "up to n bytes" or "error" that each
  call consumes; a contract holds for every schedule.
- `size_t` and `int` are unbounded here except where a width is part of a layout (eight-byte headers and
  identifiers, four-byte ranks) or of the property (the single-precision chunk count).

## Where the code does less than one would expect

Each of these is stated as a lemma or contract together with the exact condition.

- A gather whose root is not among the first members fails when the elements do not divide evenly:
  `TeamRuns.SizeRulesAgree`, `TeamRuns.GatherTeam`.
- Above 2^24 bytes the shared-memory reader can count one chunk too few, and still reports the full size:
  `ShmFloat.ChunkCountsAgree`, `ShmSlot.PrefixIffSafe`, `ShmSlot.UnsafeIsTruncated`.
- A non-blocking fan-in probe overlooks a sender that follows an odd number of finished ones, and may fail
  without setting `errno`, exactly when every silent sender follows an odd number of finished ones:
  `FanIn.PassFinds`, `FanIn.PassOverlooks`, `FanIn.HearsIff`, `FanIn.PassIsSilent`.
- The root of a team of one waits forever: `Team.WaitEndsIff`.
- A blocking `setAsClosed` does not end on a stream without EOS: `Reading.DrainEndsIff`.
- The size tests of all-to-all are too weak: the relay's exactly for a root that takes a smaller block than the
  first member, the tables' exactly for a member of a team of more than one whose own block is not empty:
  `Alltoall.TestSufficesIff`, `Tables.ReceivesFitIff`, `Tables.TestSufficesIff`, `Tables.TestIsTooWeak`.
- `get` does not look at the size of the caller's buffer; the copy stays within it when the message fits:
  `ShmSlot.CopyFits`, `ShmSlot.ShmBuffer.TryTake`.
- When the root of an allgather stops early, or an all-to-all has nothing to send, the other members are left in
  their receive: `TeamRuns.AllGatherTeam`, `TeamRuns.AlltoallTeam`.
- A header that the end of the stream cuts short is answered like a whole one: `TcpFraming.Socket.Probe`.
- Move-assigning onto a wrapper in use, yielding a wrapper that is not readable, and listening after a
  yield break the bookkeeping: `Lifecycle.MoveInvIff`, `Lifecycle.YieldInvIff`, `Lifecycle.ListenInvIff`.
- At shutdown a handle whose EOS was received but that the program never closed is not closed:
  `Runtime.Runtime.End`.
- At least one of two proxies keeps its `connid2proxy` entry of a finished connection: each one that read its
  client's EOS before it had written EOS to that client: `ProxyRuns.NothingIsLeft`, `ProxyRuns.RouteKeptIff`.
- A proxy's greeting has the command byte of a collective connect: `ProxyCodec.GreetingAmbiguous`.
- An uneven all-to-all does not give every member as many bytes as it sent: `Transpose.SizePreservedIff`.

## Model

| member | source | states |
|---|---|---|
| Partition.SplitCovers | include/collectives/collectiveImpl.hpp:273-312 | the blocks of an uneven partition end exactly at the end of the buffer |
| Partition.BlocksCover | include/collectives/collectiveImpl.hpp:289-312 | the blocks in rank order are the buffer: no gap, no overlap |
| Partition.PartitionSizeIsLen | include/collectives/collectiveImpl.hpp:133-140 | `getTeamPartitionSize` is the length of the caller's block in every collective |
| Partition.AllShares | include/collectives/collectiveImpl.hpp:275-285 | who owns an empty block: nobody, exactly when there are as many elements as members |
| Collective.CollectiveImpl.ProbeHandle | include/collectives/collectiveImpl.hpp:38-76 | repeated probes agree; only a header is consumed; a reset closes both directions, a probe that finds nothing or an invalid descriptor changes nothing; EOS and end of file close the right directions |
| Collective.CollectiveImpl.ReceiveFromHandle | include/collectives/collectiveImpl.hpp:78-101 | the head frame lands in the buffer, or is kept with ENOMEM, or the stream is over: result, connection and buffer |
| Scatter.SendBlocks | include/collectives/collectiveImpl.hpp:289-309 | the pointer walk sends block i+1 to participant i, up to the first connection that refuses |
| Scatter.Distribute | include/collectives/collectiveImpl.hpp:275-312 | own block kept if it fits; the other blocks sent up to the first connection that is shut down, and the result says whether there is one |
| Scatter.Root | include/collectives/collectiveImpl.hpp:252-312 | errors in their order; otherwise own block kept and exactly the members before the first refusing one served |
| Scatter.Member | include/collectives/collectiveImpl.hpp:313-320 | one receive; an empty block reads as end of stream and closes |
| Gather.CollectBlocks | include/collectives/collectiveImpl.hpp:548-566 | the displacement walk receives until the first frame that is missing or does not fit, whose result is returned; connections and buffer in either case |
| Gather.Root | include/collectives/collectiveImpl.hpp:508-568 | errors in their order; connections and buffer after a complete walk and after one that stops early |
| Gather.SendShare | include/collectives/collectiveImpl.hpp:569-590 | a member sends the prefix that its rank entitles it to |
| Gather.RootAll | include/collectives/collectiveImpl.hpp:629-694 | as gather, and the whole buffer goes back to everybody before the first refusing connection |
| Gather.MemberAll | include/collectives/collectiveImpl.hpp:695-721 | a member sends its share and receives the whole |
| Alltoall.PickedIsColumn | include/collectives/collectiveImpl.hpp:819-826 | what the inner loop copies is a column of the block transpose |
| Alltoall.SendColumns | include/collectives/collectiveImpl.hpp:804-838 | participant k is sent column k+1, up to the first connection that refuses; the others are untouched |
| Alltoall.Root | include/collectives/collectiveImpl.hpp:760-842 | a root of any rank whose size test keeps it within its buffer: buffers collected, shorter ones laid over what their slots held; column 0 kept, columns sent up to the first refusing connection; an early stop leaves the buffer alone |
| Alltoall.FullRows | include/collectives/collectiveImpl.hpp:795-800 | when every frame is as long as the root's buffer, the rows exchanged are the members' buffers |
| Alltoall.TestSufficesIff | include/collectives/collectiveImpl.hpp:784-826 | the size test, made for the root's rank, covers the columns put into the buffer for every buffer iff there is no remainder or the rank is below it |
| Alltoall.Member | include/collectives/collectiveImpl.hpp:843-855 | a member sends its whole buffer and receives its column; errors in their order |
| Transpose.TransposeEntry | include/collectives/collectiveImpl.hpp:819-826 | block i of what member j holds afterwards is block j of what member i sent |
| Transpose.ColumnSlice | include/collectives/collectiveImpl.hpp:819-826 | the same for an uneven split: slot j of column i is block i of row j |
| Transpose.AllToAllTwice | include/collectives/collectiveImpl.hpp:780-855 | when the members divide the elements, two block transposes are the identity |
| Transpose.SizePreservedIff | include/collectives/collectiveImpl.hpp:780-790 | everybody gets as many bytes as it sent exactly when the members divide the elements |
| TeamRuns.ScatterTeam | include/collectives/collectiveImpl.hpp:252-320 | every member ends with its block; exactly the members with an empty block find end of stream |
| TeamRuns.SizeRulesAgree | include/collectives/collectiveImpl.hpp:551-574 | gather's two size rules agree on all slots iff there is no remainder or the root's rank is below it; otherwise the member of rank remainder-1 sends one element too many |
| TeamRuns.GatherTeam | include/collectives/collectiveImpl.hpp:508-591 | the exact outcome of a gather for every root rank and element count, and on success its contents |
| TeamRuns.ScatterThenGather | include/collectives/collectiveImpl.hpp:252-591 | scatter then gather rebuilds the root's buffer, or stops at an empty block when there are fewer elements than members |
| TeamRuns.AllGatherTeam | include/collectives/collectiveImpl.hpp:629-722 | the exact outcome for every root rank and element count: everybody ends with what the root gathered, or the root sends nothing and every other member stays in its receive until the root's connection ends |
| TeamRuns.ScatterThenAllGather | include/collectives/collectiveImpl.hpp:252-722 | scatter then allgather gives every member the root's buffer, or stops at an empty block when there are fewer elements than members |
| TeamRuns.AlltoallTeam | include/collectives/collectiveImpl.hpp:760-856 | for every root rank the all-to-all is the block transpose in the order root, participants, for every member count, element size and remainder; who is served, who finds the EOS of an empty column, and who is left waiting because there is nothing to exchange |
| TeamRuns.PositionsAreRanksIff | include/manager.hpp:693-698 | a member's position in the exchange is its rank for every member iff the root is first |
| TeamRuns.AlltoallTwice | include/collectives/collectiveImpl.hpp:760-856 | when the members divide the elements, two all-to-alls restore every buffer, for every root rank |
| Tables.FillTables | include/collectives/mpiImpl.hpp:205-220 | the count loop yields the partition's lengths and their prefix sums (scatter; the same loop in gather and allgather) |
| Tables.ScatterTables | include/collectives/mpiImpl.hpp:195-226 | EINVAL for a size that is no number of elements or an own block that does not fit; otherwise the tables |
| Tables.FillAlltoall | include/collectives/mpiImpl.hpp:486-507 | send tables of the partition, receive tables of an even one |
| Tables.AlltoallTables | include/collectives/mpiImpl.hpp:474-525 | EINVAL for a size that is no number of elements or an own block that does not fit; otherwise the tables of one rank, which expects its own block from everybody |
| Tables.ReceivesFitIff | include/collectives/mpiImpl.hpp:505-513 | the blocks received lie within the buffer iff all of them fit, whereas one is tested |
| Tables.TestSufficesIff | include/collectives/mpiImpl.hpp:509-513 | the test is enough for every buffer size iff the team has one member or the caller's own block is empty |
| Tables.TestIsTooWeak | include/collectives/mpiImpl.hpp:509-513 | a size that passes the test and is too small |
| Tables.TablesMatch | include/collectives/mpiImpl.hpp:479-507 | for every pair the count expected equals the count sent; displacements are prefix sums; the blocks cover the buffer and are those of the relay |
| Tables.AlltoallvIsTranspose | include/collectives/mpiImpl.hpp:515-518 | any exchange that obeys the library's rule with these tables gives what the relay gives |
| Oob.PlacedAt | include/collectives/uccImpl.hpp:41-47 | a block lands in the slot of the rank it announced, for any order of the connections |
| Oob.RankBytes | include/collectives/uccImpl.hpp:41-47 | a rank travels as four bytes, the least significant first |
| Oob.Collect | include/collectives/uccImpl.hpp:41-47 | the root's loop: ranks exchanged, blocks placed |
| Oob.Root | include/collectives/uccImpl.hpp:40-53 | the root's buffer and what it sends to everybody |
| Oob.Member | include/collectives/uccImpl.hpp:54-66 | a member learns the root's rank, sends rank and block, receives the whole |
| Oob.Team | include/collectives/uccImpl.hpp:35-68 | everybody ends with the blocks in rank order, for any connection order and root rank, when the ranks are a permutation |
| Team.Scan | include/manager.hpp:691-698 | rank (the last position under the own name), size, order without the root, and whether the root takes part |
| Team.OrderingSlots | include/manager.hpp:693-698 | slot i belongs to rank i, or i+1 from the root's rank on |
| Team.Manager.AddinQ | include/manager.hpp:185-195 | the first connection under a name wins; other teams are untouched |
| Team.Manager.TakeGroup | include/manager.hpp:800-808 | the handles of the group in participant order; the group is erased |
| Team.Manager.AwaitGroup | include/manager.hpp:794-808 | from any number of connections that arrived before the call, the wait ends with the complete vector once every other member has connected |
| Team.WaitEndsIff | include/manager.hpp:794-798 | the wait ends iff there is another member and every one connects; a root alone in its team waits forever |
| Team.ReadyIsComplete | include/collectives/collectiveContext.hpp:207-211 | when only members connect, the right count means that everybody is there |
| Team.ArrivalOrderIrrelevant | include/manager.hpp:794-808 | two arrival orders, looked at any moments, give the same vector |
| Team.SlotIsRank | include/manager.hpp:691-718 | the handle in slot i is that of the member of rank i+1 when the root is first, and of the slot's rank in general |
| FanIn.LiveErase | include/collectives/collectiveImpl.hpp:352-355 | erasing keeps the vector equal to the original one without the finished senders |
| FanIn.FanInGeneric.Look | include/collectives/collectiveImpl.hpp:348-367 | one probe: a finished sender is erased, sent one EOS and closed both ways, a message is announced at its position, or nothing |
| FanIn.FanInGeneric.Turn | include/collectives/collectiveImpl.hpp:347-374 | a turn goes one position further round, also after an erasure; it ends the scan, or removes a sender, or comes closer to the pending message |
| FanIn.FanInGeneric.Probe | include/collectives/collectiveImpl.hpp:343-384 | a blocking probe terminates while messages arrive in any way, with a message at the probed position or with group EOS; when nothing arrives meanwhile it finds what the non-blocking one finds, if that does |
| FanIn.FanInGeneric.ProbeOnce | include/collectives/collectiveImpl.hpp:343-384 | the non-blocking probe finds what one pass finds; when it finds nothing `errno` is EWOULDBLOCK if the pass looked at a silent sender, and otherwise what it was before |
| FanIn.FanInGeneric.ReceiveProbed | include/collectives/collectiveImpl.hpp:395-407 | the announced bytes land in the buffer and come from the probed sender and from no other |
| FanIn.WakingIffNotStuck | include/collectives/collectiveImpl.hpp:347-374 | the scan has something to end it unless no message is there and some sender is silent |
| FanIn.StuckStays | include/collectives/collectiveImpl.hpp:347-374 | otherwise no turn ends it |
| FanIn.PassFinds | include/collectives/collectiveImpl.hpp:352-373 | a pass finds the first message with an even number of finished senders just before it, and no other |
| FanIn.HearsIff | include/collectives/collectiveImpl.hpp:347-374 | a pass that finds nothing looked at a silent sender iff one has an even number of finished senders just before it |
| FanIn.PassOverlooks | include/collectives/collectiveImpl.hpp:352-373 | a pending message that a pass does not find |
| FanIn.PassIsSilent | include/collectives/collectiveImpl.hpp:352-361 | a pass that returns -1 without setting `errno`, the only silent sender being behind one finished sender |
| FanIn.SenderOrder | include/collectives/collectiveImpl.hpp:343-407 | in every run each sender's messages arrive in its order, all of them once it is gone; a sender has been sent exactly one EOS if it is gone and nothing otherwise |
| FanIn.GroupEnds | include/collectives/collectiveImpl.hpp:376-381 | the vector is empty exactly when the EOS of every sender has been consumed |
| ProxyCodec.DecodeEncode | proxy/proxy.cpp:220-224 | every proxy message is read back as written |
| ProxyCodec.MessageBytes | proxy/proxy.cpp:25-31 | byte 0 is 0, 1, 2 or 4 for data, connect, collective connect and EOS, bytes 1 to 8 the identifier with the least significant first, then the payload |
| ProxyCodec.EncodeDecode | proxy/proxy.cpp:220-224 | a frame is ignored iff it is too short or has another command; otherwise it is the bytes of the message that it is read as |
| ProxyCodec.GreetingAmbiguous | proxy/proxy.cpp:25-31 | a greeting reads as a collective connect |
| Proxy.EventLoop.HandlePeer | proxy/proxy.cpp:226-249 | what EOS and FWD from the other proxy do: data to the client of the connection, one EOS, and which entries leave which tables |
| Proxy.EventLoop.HandleClient | proxy/proxy.cpp:431-476 | data leaves under command 0 and EOS under command 4, with the connection's identifier; which entries leave which tables |
| ProxyConnection.NeverUnknown | proxy/proxy.cpp:226-249 | a proxy with something left to read for a connection still knows it |
| ProxyConnection.ReadsClientGood | proxy/proxy.cpp:431-476 | reading a client keeps the two ends consistent, half-close included |
| ProxyConnection.ReadsPeerGood | proxy/proxy.cpp:226-249 | reading the other proxy keeps the two ends consistent |
| ProxyRuns.PeerEventHere | proxy/proxy.cpp:226-249 | a message acts on its own connection as the single-connection model says |
| ProxyRuns.PeerEventElsewhere | proxy/proxy.cpp:226-249 | and on no other connection |
| ProxyRuns.ClientEventHere | proxy/proxy.cpp:431-476 | a client's frame acts on its own connection as the single-connection model says |
| ProxyRuns.ClientEventElsewhere | proxy/proxy.cpp:431-476 | and on no other connection |
| ProxyRuns.StepKeeps | proxy/proxy.cpp:226-476 | every step of either proxy keeps the invariant of all connections and meets no fault |
| ProxyRuns.NoMessageIsLate | proxy/proxy.cpp:226-249 | in every run no FWD or EOS reaches a proxy that dropped the identifier, and no missing entry is used |
| ProxyRuns.StreamsAreKept | proxy/proxy.cpp:226-476 | in both directions what is delivered is always a prefix of what was sent |
| ProxyRuns.NothingIsLeft | proxy/proxy.cpp:226-464 | once both sides closed and the links are empty, both streams arrived whole and three tables hold nothing; `connid2proxy` still does at one end or both |
| ProxyRuns.RouteKeptIff | proxy/proxy.cpp:431-451 | in every run a proxy has kept `connid2proxy` for a connection iff it never read its client's EOS after having written EOS to that client |
| ShmFloat.ToFloatNearest | include/protocols/shm_buffer.hpp:180-180 | no single-precision number is closer to the size than its conversion |
| ShmFloat.ToFloatIsFloat | include/protocols/shm_buffer.hpp:180-180 | the conversion has a 24-bit significand |
| ShmFloat.TiesToEven | include/protocols/shm_buffer.hpp:180-180 | half-way between two such numbers the even significand is taken |
| ShmFloat.ChunkCountsAgree | include/protocols/shm_buffer.hpp:139-193 | the reader's count equals the writer's exactly on the safe sizes, for every size |
| ShmFloat.SafeUpTo16MiB | include/protocols/shm_buffer.hpp:180-193 | every size up to 2^24 is safe, and at 2^24+1 the counts are 4 and 5 |
| ShmFloat.UnsafeCountsOneLess | include/protocols/shm_buffer.hpp:180-193 | on an unsafe size below 2^45 the reader counts one chunk less |
| ShmSlot.ShmBuffer.TryPut | include/protocols/shm_buffer.hpp:126-151 | one attempt of `put` is the producer's step or nothing: the whole size and the next chunk into an empty slot |
| ShmSlot.ShmBuffer.TryTake | include/protocols/shm_buffer.hpp:164-193 | one attempt of `get` is the consumer's step or nothing, and its bytes are in the caller's buffer when the message fits |
| ShmSlot.PutKeeps | include/protocols/shm_buffer.hpp:139-151 | the producer's step keeps the invariant |
| ShmSlot.TakeKeeps | include/protocols/shm_buffer.hpp:164-193 | the consumer's step keeps it on safe sizes |
| ShmSlot.CopyFits | include/protocols/shm_buffer.hpp:164-195 | in every run of safe messages the message being copied is the next one put, so that its length is the only bound the caller's buffer has to meet |
| ShmSlot.GotIsPrefix | include/protocols/shm_buffer.hpp:119-196 | in every interleaving the messages got are a prefix of those put, EOS included, and reported with their sizes |
| ShmSlot.SomeoneCanStep | include/protocols/shm_buffer.hpp:119-196 | while messages are missing exactly one side can step |
| ShmSlot.RunsDeliver | include/protocols/shm_buffer.hpp:119-196 | every run delivers everything in two critical sections per chunk |
| ShmSlot.UnsafeIsTruncated | include/protocols/shm_buffer.hpp:180-195 | after any safe messages the first unsafe one is copied only in part while its full size is returned, and its last chunk stays behind |
| ShmSlot.PrefixIffSafe | include/protocols/shm_buffer.hpp:119-196 | for messages below 2^45 bytes: every run delivers a prefix iff every size is safe |
| Connector.ConnTcp.constructor | include/protocols/tcp.hpp:221-230 | nothing is watched |
| Connector.ConnTcp.Listen | include/protocols/tcp.hpp:232-253 | only the listening socket is watched, and it is the maximum |
| Connector.ConnTcp.Unwatch | include/protocols/tcp.hpp:308-320 | `fdmax` stays the maximum of the watched set, or -1 |
| Connector.ConnTcp.Watch | include/protocols/tcp.hpp:404-413 | likewise when a descriptor is given back |
| Connector.ConnTcp.Drop | include/protocols/tcp.hpp:376-395 | the connection leaves table and set, `fdmax` follows |
| Connector.ConnTcp.Update | include/protocols/tcp.hpp:279-329 | every ready descriptor is visited although `fdmax` shrinks, up to a listening socket whose accept fails; each ready connection is unwatched and enqueued exactly once |
| Connector.QueuedOnce | include/protocols/tcp.hpp:279-326 | what the sweep enqueues is each ready connection once, in descriptor order |
| Connector.NothingMissed | include/protocols/tcp.hpp:279-279 | the sweep stops only when nothing ready is left |
| Lifecycle.CloseOk | include/handle.hpp:143-157 | closing in any order keeps count, deletion, descriptor and ownership of a handle right |
| Lifecycle.CloseInv | include/protocols/tcp.hpp:356-401 | and of all others |
| Lifecycle.ConnectedInv | include/protocols/tcp.hpp:333-354 | a new connection, accepted or made |
| Lifecycle.ReadyInv | include/protocols/tcp.hpp:303-326 | the sweep hands a watched connection to the queue |
| Lifecycle.GetNextInv | include/manager.hpp:467-476 | the queue hands it to the program |
| Lifecycle.MoveInvIff | include/handleUser.hpp:25-41 | a move keeps the invariant exactly when nothing is overwritten |
| Lifecycle.MoveLosesReference | include/handleUser.hpp:25-35 | otherwise the counter stays above the number of wrappers |
| Lifecycle.YieldInvIff | include/handleUser.hpp:44-48 | a yield keeps it exactly when no other wrapper is reading |
| Lifecycle.DestroyInv | include/handleUser.hpp:193-201 | destruction gives the handle back and the reference up |
| Lifecycle.ProbeEndsInv | include/handleUser.hpp:99-126 | EOS, end of file and reset on probe |
| Lifecycle.SetAsClosedInv | include/handle.hpp:173-206 | closing at shutdown |
| Lifecycle.ListenInvIff | include/protocols/tcp.hpp:232-253 | listening keeps it exactly when no connection is watched |
| LifecycleRuns.StepInv | include/handle.hpp:113-166 | every public operation keeps the invariant |
| LifecycleRuns.SingleOwner | include/handleUser.hpp:17-48 | in every reachable state a handle open for reading is in exactly one place: watched, queued, or with one readable wrapper |
| LifecycleRuns.CountedAndClosedOnce | include/handle.hpp:113-166 | the counter is the number of wrappers; deleted iff closed both ways and unreferenced, at most once; descriptor closed once, EOS sent once |
| LifecycleRuns.TableIsLive | include/protocols/tcp.hpp:356-401 | the table lists exactly the handles open for reading, all alive |
| LifecycleRuns.NothingDangles | include/handleUser.hpp:193-201 | no wrapper points to a deleted handle |
| Effects.CloseShuts | include/handle.hpp:143-157 | closing sets the flags asked for and no other, sends EOS when the write side closes, drops the connection from table and set when the read side does, closes the descriptor with the second, changes no other handle |
| Effects.StepEffect | include/handleUser.hpp:17-201 | what every public operation changes, field by field: flags, EOS, counter, descriptor, wrapper, queue, table, watched set; all else stays |
| Effects.FirstInFirstOut | include/manager.hpp:467-476 | in every run the connections that `getNext` has handed out, followed by those in the queue, are those that were queued, in that order |
| Effects.ClosedIff | include/handle.hpp:143-157 | in every run a handle is closed for reading iff a probe found the end or shutdown closed it, and for writing iff the program closed it, a probe found the connection gone, or shutdown closed it |
| Runtime.Runtime.NotifyClose | include/protocols/tcp.hpp:356-401 | table, watched set, `fdmax` and descriptor after each combination of flags |
| Runtime.Runtime.Close | include/handle.hpp:143-157 | flags, EOS, connector and deletion |
| Runtime.Runtime.YieldHandle | include/protocols/tcp.hpp:404-413 | a handle open for reading is watched again |
| Runtime.Runtime.Yield | include/handleUser.hpp:44-48 | the wrapper stops being readable, an open handle is watched again, and the invariant survives a permitted yield |
| Runtime.Runtime.CloseUser | include/handleUser.hpp:165-167 | the write side is closed and EOS sent once; the read side, the table, the watched set and every other handle stay |
| Runtime.Runtime.ProbeEnds | include/handleUser.hpp:99-126 | EOS closes the read side and leaves the write side, end of file and a reset close both; wrapper, table and set follow |
| Runtime.Runtime.Destroy | include/handleUser.hpp:193-201 | a readable wrapper yields, then the reference is given up, the last one with a closed handle |
| Runtime.Runtime.MoveAssign | include/handleUser.hpp:25-35 | the target takes over all fields, the source is left empty, and the invariant survives a move onto an empty wrapper |
| Runtime.Runtime.Connect | include/protocols/tcp.hpp:348-353 | a connection made by the program: handle, table entry and one readable wrapper marked new |
| Runtime.Runtime.Accept | include/protocols/tcp.hpp:281-302 | a connection accepted by the sweep: the same, at the end of the queue |
| Runtime.Runtime.Ready | include/protocols/tcp.hpp:303-326 | a ready connection is unwatched and goes to the end of the queue in a readable wrapper |
| Runtime.Runtime.Update | include/protocols/tcp.hpp:255-330 | the whole sweep: every ready descriptor once and in order, one queued wrapper for each, with the maximum and the single owner of every handle kept; a failing accept ends it |
| Sweeping.SweptReady | include/protocols/tcp.hpp:303-326 | at its turn a ready connection is still watched, and serving it is one step of the life cycle |
| Sweeping.SweptAccept | include/protocols/tcp.hpp:281-302 | and so is accepting a new one |
| Sweeping.SweepEnds | include/protocols/tcp.hpp:279-329 | what was visited when the sweep ends, and what is then watched and listed |
| Runtime.Runtime.GetNext | include/manager.hpp:467-476 | the wrapper at the front of the queue and no other, or an empty one; queue, wrappers and handles afterwards |
| Runtime.Runtime.SetAsClosed | include/handle.hpp:173-206 | both directions closed, EOS sent if it had not been, the connection out of table and set; without the drain |
| Runtime.Runtime.End | include/protocols/tcp.hpp:415-420 | the table empties; each handle open for reading is closed both ways, its descriptor once, and deleted iff no wrapper holds it; the others stay as they are |
| TcpFraming.Socket.Readn | include/protocols/tcp.hpp:30-43 | for every schedule the bytes read are the next of the stream; all that were asked for unless the stream ends or fails |
| TcpFraming.Socket.Writen | include/protocols/tcp.hpp:59-72 | a prefix of the data, all of it without errors |
| TcpFraming.Socket.Writevn | include/protocols/tcp.hpp:74-86 | exactly the vectors' bytes in order on success, a prefix on failure |
| TcpFraming.Advance | include/protocols/tcp.hpp:79-83 | after a partial write the vectors hold what is left |
| TcpFraming.Socket.Send | include/protocols/tcp.hpp:97-108 | eight bytes of length, byte i being its digit of weight 256^(7-i), then the payload; a prefix on failure |
| TcpFraming.Socket.SendEos | include/protocols/tcp.hpp:92-95 | eight zero bytes, which are the bytes of an empty frame |
| TcpFraming.EncodeBytes | include/protocols/tcp.hpp:97-108 | every byte of a frame |
| Bytes.BigEndianDigits | include/protocols/tcp.hpp:98-98 | byte i of the layout is the digit of weight 256^(width-1-i) |
| Bytes.LittleEndianDigits | proxy/proxy.cpp:221-222 | in native order byte i is the digit of weight 256^i |
| TcpFraming.Socket.Probe | include/protocols/tcp.hpp:111-123 | a header is consumed and its length returned, the most significant byte first; a header cut short is consumed and answered as a whole one; an error or end of file at its start consumes nothing, and only end of file answers 0 |
| TcpFraming.Socket.Receive | include/protocols/tcp.hpp:132-134 | the next bytes of the stream |
| TcpFraming.DecodeEncoded | include/protocols/tcp.hpp:92-134 | a stream of non-empty frames closed by EOS decodes to the messages, whatever follows |
| TcpFraming.DecodeStops | include/protocols/tcp.hpp:92-134 | any stream decodes to the messages before the first empty one |
| TcpFraming.DecodesIffNoneEmpty | include/protocols/tcp.hpp:92-134 | the round trip holds exactly when no message is empty |
| TcpFraming.SendAll | include/protocols/tcp.hpp:92-108 | a sender's stream for every schedule of partial writes |
| TcpFraming.ReceiveAll | include/protocols/tcp.hpp:111-134 | probe and receive until EOS give the messages for every schedule of partial reads |
| TcpFraming.Exchange | include/protocols/tcp.hpp:92-134 | both ends together: what is received is what was sent |
| Reading.HandleTcp.FetchHeader | include/handleUser.hpp:97-121 | a header leaves the stream and is cached |
| Reading.HandleTcp.FetchPayload | include/handleUser.hpp:151-157 | the payload that the cached header announced is delivered |
| Reading.HandleTcp.SetAsClosed | include/handle.hpp:173-206 | on a stream with EOS: terminates; consumes everything up to and including EOS and nothing after it; sends EOS at most once; both directions closed |
| Reading.HandleTcp.DropFrame | include/handle.hpp:183-201 | one round of the drain on the byte stream, at the end of the stream too |
| Reading.DrainSpins | include/handle.hpp:183-201 | at the end of a stream without EOS a round changes nothing and does not break |
| Reading.DrainEndsIff | include/handle.hpp:183-201 | the drain ends iff the stream has an EOS |
| Reading.EosSplits | include/handle.hpp:183-201 | a stream that ends is its messages, EOS and the rest |
| Reading.HandleUser.Probe | include/handleUser.hpp:80-128 | each answer of a probe: 8 for a message, 0 for EOS, end of file, a reset, a closed or given-back handle, EWOULDBLOCK when nothing has arrived, EINVAL for an invalid descriptor, with what each closes; on the byte stream it does what the frame-level connection does |
| Reading.HandleUser.Receive | include/handleUser.hpp:130-158 | on the byte stream it does what the frame-level receive does, or what the failed header read does; a wrapper that gave the handle back gets nothing |
| ReadingRuns.SeenInOrder | include/handleUser.hpp:80-158 | in every session the user has got a prefix of the peer's messages, and all of them once the end was seen without a reset |
| ReadingRuns.ProbeAnnounces | include/handleUser.hpp:80-128 | a probe announces the next message, the same one until it is received |
| ReadingRuns.ReceiveAnswers | include/handleUser.hpp:130-158 | a receive gets that message, or loses nothing when it does not fit, or finds the end |
| ReadingRuns.ZeroMeansEnd | include/handleUser.hpp:80-158 | in every session the reader is answered 0 iff the stream is over or this call finds the end or a reset; when nothing has arrived or the descriptor is invalid the call fails with its own error and changes nothing |
| ReadingRuns.ClosesOnceBroken | include/handleUser.hpp:99-126 | in every session one EOS is written iff the stream broke off without EOS or was reset; the peer's EOS leaves the write side open |
| ReadingRuns.HeadersOnce | include/handleUser.hpp:97-121 | each header is taken off the stream once |
| ReadingRuns.FailedReadKeeps | include/handleUser.hpp:106-117 | a call that finds nothing yet or an invalid descriptor changes nothing |
| ReadingRuns.EndIsFinal | include/handleUser.hpp:82-95 | the end, or a reset, once seen stays seen: every later probe and receive answers 0 |

## Left out

- Socket set-up, connect with retries and timeouts, name lookup and `select` timing: foreign calls.
- The behaviour of MPI, UCX, UCC and Paho MQTT, and the handle classes that only wrap them.
- `ConnSHM::update` and everything of `shm.hpp` beyond `shmBuffer`; `tryget` and `peek` of the slot.
- The proxy's connection set-up and its single-hop `proc2proc` path: runs start from established
  multi-hop connections with fresh identifiers and handles.
- Peers that vanish without EOS and failed handshakes, except that a frame-level read past the end of the
  stream closes the connection.
- Collectives' handles, which no wrapper counts, after their EOS; broadcast and fan-out, whose loops only
  forward one buffer or pick the next member.
- `readvn`, which nothing calls; the rank table of `MPICollective`, a simpler form of the out-of-band allgather.
- Configuration parsing, label and pool selection, printing, and the tables that select an implementation.
- Splitting the participants string at its colons: `Team.Scan` starts from the list of names.
- Integer overflow: counts are unbounded, so the 32-bit tables of the MPI and UCC code are not followed
  past 2^31 bytes, nor the conversion of the chunk count to `int`.
- The loops of `put` and `get` as single methods: between two critical sections the other side runs, so
  each section is a step and the loop counters are part of the channel's state.
- ShmSlot.ShmBuffer.TryTake: asks that the message fit the caller's buffer, whose size the code does not look at.
- TcpFraming.Socket.Probe: says nothing about the length when the header is cut short by end of file or an
  error, because the code then reads memory it has not written; non-blocking header reads are not modelled
  at byte level.
- Reading.HandleUser.Receive: a payload read that fails after its header was read is left out.
- FanIn.FanInGeneric.Probe: asks for a pending message or for every sender to have finished;
  `FanIn.WakingIffNotStuck` and `FanIn.StuckStays` show that nothing less ends the scan.
- Reading.HandleTcp.SetAsClosed: asks for an EOS on the stream when it blocks; `Reading.DrainEndsIff` shows that
  the code's loop does not end without one.
- Team.Manager.AwaitGroup: asks for another member and for every one to connect; `Team.WaitEndsIff` shows that the
  wait does not end otherwise. Connections under a name that is no member's are left out.
- Alltoall.Root: asks that the size test keep the root within its buffer, since the code writes beyond it otherwise;
  `Alltoall.TestSufficesIff` says for which ranks it always does.
- Runtime.Runtime.SetAsClosed: flags and tables only; the drain is `Reading.HandleTcp.SetAsClosed`.
- Runtime.Runtime.Accept: a connection whose handshake announces a team goes to the group table instead, which
  is `Team.Manager.AddinQ`; the handshake itself is not modelled.
