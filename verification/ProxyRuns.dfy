/** Two proxies carrying any number of established connections over one pair of FIFO links,
    in every interleaving of clients and event loops. */
module ProxyRuns {
  import opened Bytes
  import opened ProxyCodec
  import opened ProxyConnection
  import opened Proxy

  /** One proxy with its side of the world. `incoming` is the link from the other proxy;
      the maps are per local handle, as in `Half`. */
  datatype Node = Node(t: Tables, incoming: seq<seq<byte>>,
                       sent: map<HandleId, seq<Frame>>, pending: map<HandleId, seq<Frame>>,
                       delivered: map<HandleId, seq<Frame>>)

  function Get(m: map<HandleId, seq<Frame>>, h: HandleId): seq<Frame> {
    if h in m then m[h] else []
  }

  /** The frame that a message carries for connection `id`, if any. */
  function Carried(frame: seq<byte>, id: ConnId): seq<Frame> {
    match Decode(frame)
    case Got(Forward(i, payload)) => if i == id then [payload] else []
    case Got(Eos(i)) => if i == id then [EOS] else []
    case _ => []
  }

  /** What is in flight for connection `id` on a link. */
  function InFlight(link: seq<seq<byte>>, id: ConnId): seq<Frame> {
    if link == [] then [] else Carried(link[0], id) + InFlight(link[1..], id)
  }

  lemma {:induction false} InFlightAppend(link: seq<seq<byte>>, frame: seq<byte>, id: ConnId)
    ensures InFlight(link + [frame], id) == InFlight(link, id) + Carried(frame, id)
  {
    if link == [] {
      assert link + [frame] == [frame];
    } else {
      assert (link + [frame])[1..] == link[1..] + [frame];
      InFlightAppend(link[1..], frame, id);
    }
  }

  /** The tables agree about connection `id` on handle `h`: all entries, or none. */
  ghost predicate Consistent(t: Tables, id: ConnId, h: HandleId) {
    || (h in t.loc2connID && t.loc2connID[h] == id && id in t.connID2loc && t.connID2loc[id] == h
        && h in t.id2handle && t.id2handle[h].Live?)
    || (h !in t.loc2connID && id !in t.connID2loc && h !in t.id2handle)
  }

  function HalfOf(n: Node, id: ConnId, h: HandleId): Half {
    Half(if h in n.t.id2handle then n.t.id2handle[h] else Gone, id in n.t.connid2proxy,
         Get(n.sent, h), Get(n.pending, h), InFlight(n.incoming, id), Get(n.delivered, h))
  }

  /** The event loop handles the next frame of client `h`. */
  function ClientEvent(n: Node, h: HandleId): (r: Reaction)
    requires Get(n.pending, h) != []
  {
    FromClient(n.t, h, Get(n.pending, h)[0])
  }

  function AfterClient(n: Node, h: HandleId): Node
    requires Get(n.pending, h) != []
  {
    n.(t := ClientEvent(n, h).t, pending := n.pending[h := Get(n.pending, h)[1..]])
  }

  /** The other proxy's node once the messages of the event are on the link. */
  function Push(o: Node, ms: seq<Message>): Node {
    if ms == [] then o else o.(incoming := o.incoming + [Encode(ms[0])])
  }

  /** The event loop handles the next frame of the peer proxy. */
  function PeerEvent(n: Node): (r: Reaction)
    requires n.incoming != []
  {
    match Decode(n.incoming[0])
    case Got(m) => FromPeer(n.t, m)
    case None => Reaction(n.t, [], [], Fine)
  }

  function Deliver(d: map<HandleId, seq<Frame>>, out: seq<(HandleId, Frame)>): map<HandleId, seq<Frame>> {
    if out == [] then d else d[out[0].0 := Get(d, out[0].0) + [out[0].1]]
  }

  function AfterPeer(n: Node): Node
    requires n.incoming != []
  {
    n.(t := PeerEvent(n).t, incoming := n.incoming[1..], delivered := Deliver(n.delivered, PeerEvent(n).toClient))
  }

  function AfterSend(n: Node, h: HandleId, f: Frame): Node {
    n.(sent := n.sent[h := Get(n.sent, h) + [f]], pending := n.pending[h := Get(n.pending, h) + [f]])
  }

  /** A frame on the link belongs to connection `id` and has data or ends the stream. */
  ghost predicate Belongs(frame: seq<byte>, id: ConnId) {
    Decode(frame) == Got(Eos(id))
      || (Decode(frame).Got? && Decode(frame).message.Forward? && Decode(frame).message.id == id
          && Decode(frame).message.payload != [])
  }

  // One connection through one event

  /** Reading a client's frame acts on its connection as `ReadsClient` ... */
  lemma ClientEventHere(n: Node, id: ConnId, h: HandleId)
    requires Consistent(n.t, id, h) && Get(n.pending, h) != []
    requires HalfOf(n, id, h).entry.Live? && HalfOf(n, id, h).route
    ensures ClientEvent(n, h).fault == Fine && |ClientEvent(n, h).toPeer| == 1
    ensures Belongs(Encode(ClientEvent(n, h).toPeer[0]), id)
    ensures Carried(Encode(ClientEvent(n, h).toPeer[0]), id) == [Get(n.pending, h)[0]]
    ensures Consistent(AfterClient(n, h).t, id, h)
    ensures HalfOf(AfterClient(n, h), id, h) == ReadsClient(HalfOf(n, id, h))
  {
    DecodeEncode(ClientEvent(n, h).toPeer[0]);
  }

  /** ... and on no other connection. */
  lemma ClientEventElsewhere(n: Node, id: ConnId, h: HandleId, id': ConnId, h': HandleId)
    requires Consistent(n.t, id, h) && Get(n.pending, h) != [] && HalfOf(n, id, h).entry.Live?
    requires id' != id && h' != h && Consistent(n.t, id', h')
    ensures Consistent(AfterClient(n, h).t, id', h')
    ensures HalfOf(AfterClient(n, h), id', h') == HalfOf(n, id', h')
  {
  }

  lemma PeerEventHere(n: Node, id: ConnId, h: HandleId)
    requires n.incoming != [] && Belongs(n.incoming[0], id) && Consistent(n.t, id, h)
    requires HalfOf(n, id, h).entry.Live? && !HalfOf(n, id, h).entry.wr
    ensures PeerEvent(n).fault == Fine && PeerEvent(n).toClient == [(h, Carried(n.incoming[0], id)[0])]
    ensures HalfOf(n, id, h).inflight != [] && Consistent(AfterPeer(n).t, id, h)
    ensures HalfOf(AfterPeer(n), id, h) == ReadsPeer(HalfOf(n, id, h))
  {
    assert InFlight(n.incoming, id) == Carried(n.incoming[0], id) + InFlight(n.incoming[1..], id);
  }

  /** The tables after a message for connection `id` are the same for any other connection. */
  lemma FromPeerElsewhere(t: Tables, m: Message, id: ConnId, h: HandleId, id': ConnId, h': HandleId)
    requires (m == Eos(id) || (m.Forward? && m.id == id)) && Consistent(t, id, h) && h in t.id2handle
    requires id' != id && h' != h && Consistent(t, id', h')
    ensures var r := FromPeer(t, m);
            && Consistent(r.t, id', h')
            && (h' in r.t.id2handle <==> h' in t.id2handle)
            && (h' in t.id2handle ==> r.t.id2handle[h'] == t.id2handle[h'])
            && (id' in r.t.connid2proxy <==> id' in t.connid2proxy)
            && (r.toClient == [] || r.toClient[0].0 == h)
  {
  }

  lemma PeerEventElsewhere(n: Node, id: ConnId, h: HandleId, id': ConnId, h': HandleId)
    requires n.incoming != [] && Belongs(n.incoming[0], id) && Consistent(n.t, id, h)
    requires HalfOf(n, id, h).entry.Live? && !HalfOf(n, id, h).entry.wr
    requires id' != id && h' != h && Consistent(n.t, id', h')
    ensures Consistent(AfterPeer(n).t, id', h')
    ensures HalfOf(AfterPeer(n), id', h') == HalfOf(n, id', h')
  {
    var m := Decode(n.incoming[0]).message;
    FromPeerElsewhere(n.t, m, id, h, id', h');
    assert Carried(n.incoming[0], id') == [];
    assert InFlight(n.incoming, id') == InFlight(n.incoming[1..], id');
    assert Get(AfterPeer(n).delivered, h') == Get(n.delivered, h');
  }

  lemma PushHere(x: Node, o: Node, id: ConnId, h: HandleId, m: Message, f: Frame)
    requires Carried(Encode(m), id) == [f] && Get(x.pending, h) != [] && Get(x.pending, h)[0] == f
    ensures forall h' :: HalfOf(Push(o, [m]), id, h') == Relayed(HalfOf(x, id, h), HalfOf(o, id, h'))
  {
    InFlightAppend(o.incoming, Encode(m), id);
  }

  lemma PushElsewhere(o: Node, id: ConnId, m: Message, id': ConnId, h': HandleId)
    requires Belongs(Encode(m), id) && id' != id
    ensures HalfOf(Push(o, [m]), id', h') == HalfOf(o, id', h')
  {
    InFlightAppend(o.incoming, Encode(m), id');
  }

  // All connections through one step

  /** The local handle of every established connection at one proxy. */
  type Wiring = map<ConnId, HandleId>

  ghost predicate Injective(w: Wiring) {
    forall i, j | i in w && j in w && i != j :: w[i] != w[j]
  }

  ghost predicate LinkOk(frame: seq<byte>, w: Wiring) {
    Decode(frame).Got? && Decode(frame).message.id in w && Belongs(frame, Decode(frame).message.id)
  }

  ghost predicate PairInv(x: Node, y: Node, wx: Wiring, wy: Wiring, id: ConnId) {
    && id in wx && id in wy && Consistent(x.t, id, wx[id]) && Consistent(y.t, id, wy[id])
    && Good(HalfOf(x, id, wx[id]), HalfOf(y, id, wy[id]))
  }

  ghost predicate AllPairs(x: Node, y: Node, wx: Wiring, wy: Wiring) {
    forall id {:trigger PairInv(x, y, wx, wy, id)} | id in wx :: PairInv(x, y, wx, wy, id)
  }

  ghost predicate LinksOk(link: seq<seq<byte>>, w: Wiring) {
    forall k | 0 <= k < |link| :: LinkOk(link[k], w)
  }

  /** The invariant of the two proxies; it does not depend on which one is named first. */
  ghost predicate Inv(x: Node, y: Node, wx: Wiring, wy: Wiring) {
    && wx.Keys == wy.Keys && Injective(wx) && Injective(wy)
    && AllPairs(x, y, wx, wy) && LinksOk(x.incoming, wx) && LinksOk(y.incoming, wy)
  }

  lemma InvSymmetric(x: Node, y: Node, wx: Wiring, wy: Wiring)
    requires Inv(x, y, wx, wy)
    ensures Inv(y, x, wy, wx)
  {
    forall id | id in wy ensures PairInv(y, x, wy, wx, id) { assert PairInv(x, y, wx, wy, id); }
  }

  datatype Action = Sends(id: ConnId, frame: Frame) | Reads(id: ConnId) | Hears

  ghost predicate Enabled(x: Node, wx: Wiring, act: Action) {
    match act
    case Sends(id, f) => id in wx && !Finished(Get(x.sent, wx[id]))
    case Reads(id) => id in wx && Get(x.pending, wx[id]) != []
    case Hears => x.incoming != []
  }

  /** The two nodes after the first one takes a step. */
  function Next(x: Node, y: Node, wx: Wiring, act: Action): (Node, Node) {
    match act
    case Sends(id, f) => if id in wx then (AfterSend(x, wx[id], f), y) else (x, y)
    case Reads(id) =>
      if id in wx && Get(x.pending, wx[id]) != [] then
        (AfterClient(x, wx[id]), Push(y, ClientEvent(x, wx[id]).toPeer))
      else (x, y)
    case Hears => if x.incoming != [] then (AfterPeer(x), y) else (x, y)
  }

  /** What goes wrong in that step, if anything. */
  function FaultOf(x: Node, wx: Wiring, act: Action): Fault {
    match act
    case Sends(_, _) => Fine
    case Reads(id) => if id in wx && Get(x.pending, wx[id]) != [] then ClientEvent(x, wx[id]).fault else Fine
    case Hears => if x.incoming != [] then PeerEvent(x).fault else Fine
  }

  lemma SendsPair(x: Node, y: Node, wx: Wiring, wy: Wiring, id: ConnId, f: Frame, i: ConnId)
    requires id in wx && !Finished(Get(x.sent, wx[id])) && PairInv(x, y, wx, wy, i) && (i == id || wx[i] != wx[id])
    ensures PairInv(AfterSend(x, wx[id], f), y, wx, wy, i)
  {
    if i == id {
      ClientSendsGood(HalfOf(x, id, wx[id]), HalfOf(y, id, wy[id]), f);
      assert HalfOf(AfterSend(x, wx[id], f), id, wx[id]) == ClientSends(HalfOf(x, id, wx[id]), f);
    } else {
      assert HalfOf(AfterSend(x, wx[id], f), i, wx[i]) == HalfOf(x, i, wx[i]);
    }
  }

  lemma SendsKeeps(x: Node, y: Node, wx: Wiring, wy: Wiring, id: ConnId, f: Frame)
    requires Inv(x, y, wx, wy) && Enabled(x, wx, Sends(id, f))
    ensures Inv(AfterSend(x, wx[id], f), y, wx, wy)
  {
    forall i | i in wx ensures PairInv(AfterSend(x, wx[id], f), y, wx, wy, i) {
      assert PairInv(x, y, wx, wy, i);
      SendsPair(x, y, wx, wy, id, f, i);
    }
  }

  /** The message that a client's frame becomes. */
  lemma ReadsMessage(x: Node, y: Node, wx: Wiring, wy: Wiring, id: ConnId)
    requires PairInv(x, y, wx, wy, id) && Get(x.pending, wx[id]) != []
    ensures HalfOf(x, id, wx[id]).entry.Live? && HalfOf(x, id, wx[id]).route
    ensures ClientEvent(x, wx[id]).fault == Fine && |ClientEvent(x, wx[id]).toPeer| == 1
    ensures LinkOk(Encode(ClientEvent(x, wx[id]).toPeer[0]), wy)
      && Belongs(Encode(ClientEvent(x, wx[id]).toPeer[0]), id)
  {
    NeverUnknown(HalfOf(x, id, wx[id]), HalfOf(y, id, wy[id]));
    ClientEventHere(x, id, wx[id]);
  }

  lemma ReadsPairHere(x: Node, y: Node, wx: Wiring, wy: Wiring, id: ConnId)
    requires PairInv(x, y, wx, wy, id) && Get(x.pending, wx[id]) != []
    ensures PairInv(AfterClient(x, wx[id]), Push(y, ClientEvent(x, wx[id]).toPeer), wx, wy, id)
  {
    var h, m := wx[id], ClientEvent(x, wx[id]).toPeer;
    ReadsMessage(x, y, wx, wy, id);
    ClientEventHere(x, id, h);
    assert m == [m[0]];
    PushHere(x, y, id, h, m[0], Get(x.pending, h)[0]);
    ReadsClientGood(HalfOf(x, id, h), HalfOf(y, id, wy[id]));
    assert HalfOf(Push(y, m), id, wy[id]) == Relayed(HalfOf(x, id, h), HalfOf(y, id, wy[id]));
  }

  lemma ReadsPairElsewhere(x: Node, y: Node, wx: Wiring, wy: Wiring, id: ConnId, i: ConnId)
    requires PairInv(x, y, wx, wy, id) && Get(x.pending, wx[id]) != []
    requires PairInv(x, y, wx, wy, i) && i != id && wx[i] != wx[id]
    ensures PairInv(AfterClient(x, wx[id]), Push(y, ClientEvent(x, wx[id]).toPeer), wx, wy, i)
  {
    var m := ClientEvent(x, wx[id]).toPeer;
    ReadsMessage(x, y, wx, wy, id);
    assert m == [m[0]];
    ClientEventElsewhere(x, id, wx[id], i, wx[i]);
    PushElsewhere(y, id, m[0], i, wy[i]);
  }

  lemma PushLink(y: Node, ms: seq<Message>, wy: Wiring)
    requires |ms| == 1 && LinkOk(Encode(ms[0]), wy)
    requires forall k | 0 <= k < |y.incoming| :: LinkOk(y.incoming[k], wy)
    ensures forall k | 0 <= k < |Push(y, ms).incoming| :: LinkOk(Push(y, ms).incoming[k], wy)
  {
  }

  lemma ReadsKeeps(x: Node, y: Node, wx: Wiring, wy: Wiring, id: ConnId)
    requires Inv(x, y, wx, wy) && Enabled(x, wx, Reads(id))
    ensures FaultOf(x, wx, Reads(id)) == Fine
    ensures Inv(AfterClient(x, wx[id]), Push(y, ClientEvent(x, wx[id]).toPeer), wx, wy)
  {
    var x', y' := AfterClient(x, wx[id]), Push(y, ClientEvent(x, wx[id]).toPeer);
    assert PairInv(x, y, wx, wy, id);
    ReadsMessage(x, y, wx, wy, id);
    forall i | i in wx ensures PairInv(x', y', wx, wy, i) {
      assert PairInv(x, y, wx, wy, i);
      if i == id { ReadsPairHere(x, y, wx, wy, id); } else { ReadsPairElsewhere(x, y, wx, wy, id, i); }
    }
    PushLink(y, ClientEvent(x, wx[id]).toPeer, wy);
  }

  lemma HearsPair(x: Node, y: Node, wx: Wiring, wy: Wiring, i: ConnId)
    requires Inv(x, y, wx, wy) && x.incoming != [] && i in wx
    ensures PeerEvent(x).fault == Fine && PairInv(AfterPeer(x), y, wx, wy, i)
  {
    assert LinkOk(x.incoming[0], wx);
    var id := Decode(x.incoming[0]).message.id;
    var h := wx[id];
    assert PairInv(x, y, wx, wy, id) && PairInv(x, y, wx, wy, i);
    assert InFlight(x.incoming, id) == Carried(x.incoming[0], id) + InFlight(x.incoming[1..], id);
    NeverUnknown(HalfOf(x, id, h), HalfOf(y, id, wy[id]));
    PeerEventHere(x, id, h);
    if i == id {
      ReadsPeerGood(HalfOf(x, id, h), HalfOf(y, id, wy[id]));
    } else {
      PeerEventElsewhere(x, id, h, i, wx[i]);
    }
  }

  lemma HearsKeeps(x: Node, y: Node, wx: Wiring, wy: Wiring)
    requires Inv(x, y, wx, wy) && x.incoming != []
    ensures PeerEvent(x).fault == Fine && Inv(AfterPeer(x), y, wx, wy)
  {
    assert LinkOk(x.incoming[0], wx);
    HearsPair(x, y, wx, wy, Decode(x.incoming[0]).message.id);
    forall i | i in wx ensures PairInv(AfterPeer(x), y, wx, wy, i) { HearsPair(x, y, wx, wy, i); }
    forall k | 0 <= k < |x.incoming| - 1 ensures LinkOk(x.incoming[1..][k], wx) {
      assert LinkOk(x.incoming[k + 1], wx);
    }
  }

  /** Every step keeps the invariant and meets neither an unknown identifier nor a missing entry. */
  lemma StepKeeps(x: Node, y: Node, wx: Wiring, wy: Wiring, act: Action)
    requires Inv(x, y, wx, wy) && Enabled(x, wx, act)
    ensures FaultOf(x, wx, act) == Fine
    ensures Inv(Next(x, y, wx, act).0, Next(x, y, wx, act).1, wx, wy)
  {
    match act
    case Sends(id, f) => SendsKeeps(x, y, wx, wy, id, f);
    case Reads(id) => ReadsKeeps(x, y, wx, wy, id);
    case Hears => HearsKeeps(x, y, wx, wy);
  }

  // Whole runs

  datatype System = System(a: Node, b: Node)

  /** A step of proxy A's side (`first`) or of proxy B's side. */
  datatype Event = Event(first: bool, act: Action)

  ghost predicate Possible(s: System, wa: Wiring, wb: Wiring, e: Event) {
    if e.first then Enabled(s.a, wa, e.act) else Enabled(s.b, wb, e.act)
  }

  function After(s: System, wa: Wiring, wb: Wiring, e: Event): System {
    if e.first then System(Next(s.a, s.b, wa, e.act).0, Next(s.a, s.b, wa, e.act).1)
    else System(Next(s.b, s.a, wb, e.act).1, Next(s.b, s.a, wb, e.act).0)
  }

  ghost predicate Takes(s: System, wa: Wiring, wb: Wiring, e: Event, s': System) {
    Possible(s, wa, wb, e) && s' == After(s, wa, wb, e)
  }

  function FaultIn(s: System, wa: Wiring, wb: Wiring, e: Event): Fault {
    if e.first then FaultOf(s.a, wa, e.act) else FaultOf(s.b, wb, e.act)
  }

  ghost predicate IsRun(states: seq<System>, events: seq<Event>, wa: Wiring, wb: Wiring) {
    && |states| == |events| + 1
    && forall k | 0 <= k < |events| :: Takes(states[k], wa, wb, events[k], states[k + 1])
  }

  /** Connections just established: entries at both ends, no traffic yet. */
  ghost predicate Established(s: System, wa: Wiring, wb: Wiring) {
    && wa.Keys == wb.Keys && Injective(wa) && Injective(wb) && s.a.incoming == [] && s.b.incoming == []
    && (forall id | id in wa :: NewAt(s.a, id, wa[id]))
    && (forall id | id in wb :: NewAt(s.b, id, wb[id]))
  }

  ghost predicate NewAt(n: Node, id: ConnId, h: HandleId) {
    Consistent(n.t, id, h) && HalfOf(n, id, h) == Half(Live(false, false), true, [], [], [], [])
  }

  lemma EstablishedInv(s: System, wa: Wiring, wb: Wiring)
    requires Established(s, wa, wb)
    ensures Inv(s.a, s.b, wa, wb)
  {
    forall id | id in wa ensures PairInv(s.a, s.b, wa, wb, id) {
      assert NewAt(s.a, id, wa[id]) && NewAt(s.b, id, wb[id]);
    }
  }

  lemma EventKeeps(s: System, wa: Wiring, wb: Wiring, e: Event)
    requires Inv(s.a, s.b, wa, wb) && Possible(s, wa, wb, e)
    ensures FaultIn(s, wa, wb, e) == Fine
    ensures Inv(After(s, wa, wb, e).a, After(s, wa, wb, e).b, wa, wb)
  {
    if e.first {
      StepKeeps(s.a, s.b, wa, wb, e.act);
    } else {
      InvSymmetric(s.a, s.b, wa, wb);
      StepKeeps(s.b, s.a, wb, wa, e.act);
      InvSymmetric(Next(s.b, s.a, wb, e.act).0, Next(s.b, s.a, wb, e.act).1, wb, wa);
    }
  }

  lemma TakesKeeps(s: System, wa: Wiring, wb: Wiring, e: Event, s': System)
    requires Inv(s.a, s.b, wa, wb) && Takes(s, wa, wb, e, s')
    ensures FaultIn(s, wa, wb, e) == Fine && Inv(s'.a, s'.b, wa, wb)
  {
    EventKeeps(s, wa, wb, e);
  }

  lemma {:induction false} RunInv(states: seq<System>, events: seq<Event>, wa: Wiring, wb: Wiring, k: nat)
    requires IsRun(states, events, wa, wb) && Established(states[0], wa, wb) && k < |states|
    ensures Inv(states[k].a, states[k].b, wa, wb)
  {
    if k == 0 {
      EstablishedInv(states[0], wa, wb);
    } else {
      var s, s' := states[k - 1], states[k];
      RunInv(states, events, wa, wb, k - 1);
      assert Takes(s, wa, wb, events[k - 1], s');
      TakesKeeps(s, wa, wb, events[k - 1], s');
    }
  }

  /** In every run, no FWD or EOS reaches a proxy that has dropped its identifier, and no handler
      uses an entry that is missing. */
  lemma NoMessageIsLate(states: seq<System>, events: seq<Event>, wa: Wiring, wb: Wiring, k: nat)
    requires IsRun(states, events, wa, wb) && Established(states[0], wa, wb) && k < |events|
    ensures FaultIn(states[k], wa, wb, events[k]) == Fine
  {
    RunInv(states, events, wa, wb, k);
    TakesKeeps(states[k], wa, wb, events[k], states[k + 1]);
  }

  /** In every state of every run and in both directions, what a client has been delivered is a
      prefix of what the other client has sent. */
  lemma StreamsAreKept(states: seq<System>, events: seq<Event>, wa: Wiring, wb: Wiring, k: nat, id: ConnId)
    requires IsRun(states, events, wa, wb) && Established(states[0], wa, wb) && k < |states| && id in wa
    ensures id in wb
    ensures Get(states[k].b.delivered, wb[id]) <= Get(states[k].a.sent, wa[id])
    ensures Get(states[k].a.delivered, wa[id]) <= Get(states[k].b.sent, wb[id])
  {
    RunInv(states, events, wa, wb, k);
    assert PairInv(states[k].a, states[k].b, wa, wb, id);
    DeliveredPrefix(HalfOf(states[k].a, id, wa[id]), HalfOf(states[k].b, id, wb[id]));
  }

  /** The event that erases `connid2proxy`: a proxy reads its client's end-of-stream after having
      written end-of-stream to that client. */
  ghost predicate ErasesRoute(x: Node, wx: Wiring, act: Action, id: ConnId) {
    && act == Reads(id) && id in wx && Get(x.pending, wx[id]) != []
    && Get(x.pending, wx[id])[0] == EOS && Finished(Get(x.delivered, wx[id]))
  }

  lemma ClientRoute(x: Node, id: ConnId, h: HandleId)
    requires Consistent(x.t, id, h) && Get(x.pending, h) != [] && HalfOf(x, id, h).entry.Live? && HalfOf(x, id, h).route
    ensures id in AfterClient(x, h).t.connid2proxy <==> !(Get(x.pending, h)[0] == EOS && HalfOf(x, id, h).entry.wr)
  {
    ClientEventHere(x, id, h);
  }

  lemma ReadsRoute(x: Node, y: Node, wx: Wiring, wy: Wiring, id: ConnId, i: ConnId)
    requires Inv(x, y, wx, wy) && id in wx && i in wx && Get(x.pending, wx[id]) != []
    ensures i in AfterClient(x, wx[id]).t.connid2proxy
      <==> i in x.t.connid2proxy && !ErasesRoute(x, wx, Reads(id), i)
  {
    assert PairInv(x, y, wx, wy, id) && PairInv(x, y, wx, wy, i);
    NeverUnknown(HalfOf(x, id, wx[id]), HalfOf(y, id, wy[id]));
    if i == id {
      ClientRoute(x, id, wx[id]);
    } else {
      ClientEventElsewhere(x, id, wx[id], i, wx[i]);
      assert HalfOf(AfterClient(x, wx[id]), i, wx[i]).route == HalfOf(x, i, wx[i]).route;
    }
  }

  /** A message from the other proxy leaves `connid2proxy` alone. */
  lemma HearsRoute(x: Node)
    requires x.incoming != []
    ensures AfterPeer(x).t.connid2proxy == x.t.connid2proxy
  {
  }

  lemma StepRoute(x: Node, y: Node, wx: Wiring, wy: Wiring, act: Action, i: ConnId)
    requires Inv(x, y, wx, wy) && Enabled(x, wx, act) && i in wx
    ensures i in Next(x, y, wx, act).0.t.connid2proxy <==> i in x.t.connid2proxy && !ErasesRoute(x, wx, act, i)
    ensures Next(x, y, wx, act).1.t == y.t
  {
    match act
    case Sends(_, _) =>
    case Reads(id) => ReadsRoute(x, y, wx, wy, id, i);
    case Hears => HearsRoute(x);
  }

  /** Event `k` of a run erases the identifier at proxy A (`first`) or at proxy B. */
  ghost predicate ErasedAt(s: System, wa: Wiring, wb: Wiring, e: Event, first: bool, id: ConnId) {
    e.first == first && if first then ErasesRoute(s.a, wa, e.act, id) else ErasesRoute(s.b, wb, e.act, id)
  }

  ghost predicate Routed(s: System, first: bool, id: ConnId) {
    id in (if first then s.a.t.connid2proxy else s.b.t.connid2proxy)
  }

  lemma TakesRoute(s: System, wa: Wiring, wb: Wiring, e: Event, s': System, first: bool, id: ConnId)
    requires Inv(s.a, s.b, wa, wb) && Takes(s, wa, wb, e, s') && id in wa && id in wb
    ensures Routed(s', first, id) <==> Routed(s, first, id) && !ErasedAt(s, wa, wb, e, first, id)
  {
    if e.first {
      StepRoute(s.a, s.b, wa, wb, e.act, id);
    } else {
      InvSymmetric(s.a, s.b, wa, wb);
      StepRoute(s.b, s.a, wb, wa, e.act, id);
    }
  }

  /** In every run a proxy still keeps its `connid2proxy` entry exactly if it never read its client's
      end-of-stream after writing end-of-stream to that client. */
  lemma {:induction false} RouteKeptIff(states: seq<System>, events: seq<Event>, wa: Wiring, wb: Wiring,
                                        k: nat, first: bool, id: ConnId)
    requires IsRun(states, events, wa, wb) && Established(states[0], wa, wb) && k < |states| && id in wa && id in wb
    ensures Routed(states[k], first, id) <==>
      forall j | 0 <= j < k :: !ErasedAt(states[j], wa, wb, events[j], first, id)
  {
    if k == 0 {
      assert NewAt(states[0].a, id, wa[id]) && NewAt(states[0].b, id, wb[id]);
    } else {
      var s, s' := states[k - 1], states[k];
      RouteKeptIff(states, events, wa, wb, k - 1, first, id);
      RunInv(states, events, wa, wb, k - 1);
      assert Takes(s, wa, wb, events[k - 1], s');
      TakesRoute(s, wa, wb, events[k - 1], s', first, id);
    }
  }

  /** Once both clients have closed and nothing is on its way, both streams have arrived whole and
      neither proxy keeps an entry in `loc2connID`, `connID2loc` or `id2handle`; but at least one of
      the two still keeps the identifier in `connid2proxy`: RouteKeptIff says which. */
  lemma NothingIsLeft(states: seq<System>, events: seq<Event>, wa: Wiring, wb: Wiring, k: nat, id: ConnId)
    requires IsRun(states, events, wa, wb) && Established(states[0], wa, wb) && k < |states| && id in wa && id in wb
    requires Finished(Get(states[k].a.sent, wa[id])) && Finished(Get(states[k].b.sent, wb[id]))
    requires Get(states[k].a.pending, wa[id]) == [] && Get(states[k].b.pending, wb[id]) == []
    requires states[k].a.incoming == [] && states[k].b.incoming == []
    ensures Get(states[k].b.delivered, wb[id]) == Get(states[k].a.sent, wa[id])
    ensures Get(states[k].a.delivered, wa[id]) == Get(states[k].b.sent, wb[id])
    ensures var t := states[k].a.t; wa[id] !in t.loc2connID && id !in t.connID2loc && wa[id] !in t.id2handle
    ensures var t := states[k].b.t; wb[id] !in t.loc2connID && id !in t.connID2loc && wb[id] !in t.id2handle
    ensures id in states[k].a.t.connid2proxy || id in states[k].b.t.connid2proxy
  {
    RunInv(states, events, wa, wb, k);
    assert PairInv(states[k].a, states[k].b, wa, wb, id);
    Quiescent(HalfOf(states[k].a, id, wa[id]), HalfOf(states[k].b, id, wb[id]));
  }
}
