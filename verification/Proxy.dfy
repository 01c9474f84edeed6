/** The tables of one proxy and its event handlers, for connections that go through a second
    proxy. Handles are identified by address, connections by the identifier that the two
    proxies share. */
module Proxy {
  import opened Bytes
  import opened ProxyCodec
  import opened ProxyConnection

  type HandleId = nat

  datatype Tables = Tables(
    loc2connID: map<HandleId, ConnId>,
    connID2loc: map<ConnId, HandleId>,
    id2handle: map<HandleId, Entry>,
    connid2proxy: set<ConnId>)

  /** What a handler does besides changing the tables: frames for the peer proxy, frames for
      local clients, and whether it met an identifier that it does not know (the code prints
      an error) or used a table entry that is missing (the code throws or dereferences null). */
  datatype Fault = Fine | UnknownId | MissingEntry
  datatype Reaction = Reaction(t: Tables, toPeer: seq<Message>, toClient: seq<(HandleId, Frame)>, fault: Fault)

  /** Erases everything about handle `h` and identifier `id`; `connid2proxy` only on request. */
  function Forget(t: Tables, h: HandleId, id: ConnId, route: bool): Tables {
    Tables(t.loc2connID - {h}, t.connID2loc - {id}, t.id2handle - {h},
           if route then t.connid2proxy - {id} else t.connid2proxy)
  }

  /** A message from the peer proxy. */
  function FromPeer(t: Tables, m: Message): Reaction {
    match m
    case Eos(id) =>
      if id !in t.connID2loc then Reaction(t, [], [], UnknownId) else
      var h := t.connID2loc[id];
      if h !in t.id2handle || t.id2handle[h].Gone? || h !in t.loc2connID then Reaction(t, [], [], MissingEntry) else
      // HandleUser::close: end-of-stream to the client, once
      var out := if t.id2handle[h].wr then [] else [(h, EOS)];
      var e := Settle(t.id2handle[h].rd, true);
      if e.Gone? then Reaction(Forget(t, h, t.loc2connID[h], false), [], out, Fine)
      else Reaction(t.(id2handle := t.id2handle[h := e]), [], out, Fine)
    case Forward(id, payload) =>
      if id !in t.connID2loc || t.connID2loc[id] !in t.id2handle then Reaction(t, [], [], UnknownId) else
      var h := t.connID2loc[id];
      // HandleUser::send refuses once the write side is closed
      if t.id2handle[h].Gone? || t.id2handle[h].wr then Reaction(t, [], [], Fine)
      else Reaction(t, [], [(h, payload)], Fine)
    case _ => Reaction(t, [], [], Fine)
  }

  /** The next frame of local client `h`, end-of-stream included. */
  function FromClient(t: Tables, h: HandleId, f: Frame): Reaction {
    if h !in t.loc2connID then Reaction(t, [], [], UnknownId) else
    var id := t.loc2connID[h];
    if id !in t.connid2proxy || h !in t.id2handle || t.id2handle[h].Gone? then Reaction(t, [], [], MissingEntry) else
    if f != EOS then Reaction(t, [Forward(id, f)], [], Fine) else
    // the probe that finds end-of-stream closes the read side
    var e := Settle(true, t.id2handle[h].wr);
    if e.Gone? then Reaction(Forget(t, h, id, true), [Eos(id)], [], Fine)
    else Reaction(t.(id2handle := t.id2handle[h := e]), [Eos(id)], [], Fine)
  }

  /** Data for a known connection goes to its client, unless the client's write side is closed; no
      table changes. */
  ghost predicate Delivers(t: Tables, t': Tables, id: ConnId, payload: Frame, toClient: seq<(HandleId, Frame)>,
                            fault: Fault) {
    && t' == t
    && (id in t.connID2loc && t.connID2loc[id] in t.id2handle ==>
          var h := t.connID2loc[id];
          fault == Fine && toClient == if t.id2handle[h].Live? && !t.id2handle[h].wr then [(h, payload)]
                                       else [])
  }

  /** End-of-stream for a known connection is written to its client once; when the client's own had
      been read, the connection leaves every table but `connid2proxy`. */
  ghost predicate Terminates(t: Tables, t': Tables, id: ConnId, toClient: seq<(HandleId, Frame)>, fault: Fault) {
    && t'.connid2proxy == t.connid2proxy
    && (id !in t.connID2loc ==> t' == t && toClient == [] && fault == UnknownId)
    && (id in t.connID2loc && t.connID2loc[id] in t.id2handle && t.connID2loc[id] in t.loc2connID ==>
          var h := t.connID2loc[id];
          match t.id2handle[h]
          case Gone => true
          case Live(rd, wr) =>
            && fault == Fine && toClient == (if wr then [] else [(h, [])])
            && t'.id2handle == (if rd then t.id2handle - {h} else t.id2handle[h := Live(false, true)])
            && t'.connID2loc == (if rd then t.connID2loc - {t.loc2connID[h]} else t.connID2loc)
            && t'.loc2connID == (if rd then t.loc2connID - {h} else t.loc2connID))
  }

  /** A known client's frame: data changes no table; end-of-stream marks the read side, and when
      end-of-stream had been written to the client, the connection leaves every table. */
  ghost predicate PassedOn(t: Tables, t': Tables, h: HandleId, f: Frame, fault: Fault)
    requires h in t.loc2connID && h in t.id2handle && t.id2handle[h].Live?
  {
    && fault == Fine
    && if f != EOS then t' == t
       else if !t.id2handle[h].wr then t' == t.(id2handle := t.id2handle[h := Live(true, false)])
       else
         && t'.loc2connID == t.loc2connID - {h} && t'.connID2loc == t.connID2loc - {t.loc2connID[h]}
         && t'.id2handle == t.id2handle - {h} && t'.connid2proxy == t.connid2proxy - {t.loc2connID[h]}
  }

  /** The event loop's state, updated in place by its two handlers. */
  class EventLoop {
    var loc2connID: map<HandleId, ConnId>
    var connID2loc: map<ConnId, HandleId>
    var id2handle: map<HandleId, Entry>
    var connid2proxy: set<ConnId>

    ghost function State(): Tables
      reads this
    {
      Tables(loc2connID, connID2loc, id2handle, connid2proxy)
    }

    /** A frame from the peer proxy. */
    method HandlePeer(frame: seq<byte>) returns (toClient: seq<(HandleId, Frame)>, fault: Fault)
      modifies this
      ensures Decode(frame).Got? ==>
        var r := FromPeer(old(State()), Decode(frame).message);
        State() == r.t && toClient == r.toClient && fault == r.fault
      ensures match Decode(frame)
              case Got(Forward(id, payload)) => Delivers(old(State()), State(), id, payload, toClient, fault)
              case Got(Eos(id)) => Terminates(old(State()), State(), id, toClient, fault)
              case _ => State() == old(State()) && toClient == [] && fault == Fine
    {
      toClient, fault := [], Fine;
      var parsed := Decode(frame);
      if parsed.None? { return; }
      match parsed.message {
        case Eos(id) =>
          if id !in connID2loc { return [], UnknownId; }
          var h := connID2loc[id];
          if h !in id2handle || id2handle[h].Gone? || h !in loc2connID { return [], MissingEntry; }
          if !id2handle[h].wr { toClient := [(h, EOS)]; }
          var rd := id2handle[h].rd;
          id2handle := id2handle[h := Live(rd, true)];
          if rd {
            id2handle := id2handle - {h};
            connID2loc := connID2loc - {loc2connID[h]};
            loc2connID := loc2connID - {h};
          }
        case Forward(id, payload) =>
          if id !in connID2loc || connID2loc[id] !in id2handle { return [], UnknownId; }
          var e := id2handle[connID2loc[id]];
          if e.Live? && !e.wr { toClient := [(connID2loc[id], payload)]; }
        case _ =>
      }
    }

    /** A frame from local client `h`. */
    method HandleClient(h: HandleId, f: Frame) returns (toPeer: seq<seq<byte>>, fault: Fault)
      modifies this
      ensures var r := FromClient(old(State()), h, f);
        && State() == r.t && fault == r.fault
        && |toPeer| == |r.toPeer| && forall k | 0 <= k < |toPeer| :: toPeer[k] == Encode(r.toPeer[k])
      // data leaves under command 0, end-of-stream under command 4, with the connection's identifier
      ensures old(h in loc2connID && loc2connID[h] in connid2proxy && h in id2handle && id2handle[h].Live?) ==> (
                && |toPeer| == 1 && Identifies(toPeer[0], old(loc2connID)[h]) && toPeer[0][9..] == f
                && toPeer[0][0] == (if f == EOS then 4 else 0)
                && PassedOn(old(State()), State(), h, f, fault))
    {
      if h in loc2connID {
        MessageBytes(Forward(loc2connID[h], f));
        MessageBytes(Eos(loc2connID[h]));
      }
      if h !in loc2connID { return [], UnknownId; }
      var id := loc2connID[h];
      if id !in connid2proxy || h !in id2handle || id2handle[h].Gone? { return [], MissingEntry; }
      if f != EOS { return [Encode(Forward(id, f))], Fine; }
      toPeer, fault := [Encode(Eos(id))], Fine;
      var wr := id2handle[h].wr;
      id2handle := id2handle[h := Live(true, wr)];
      if wr {
        connID2loc := connID2loc - {loc2connID[h]};
        loc2connID := loc2connID - {h};
        connid2proxy := connid2proxy - {id};
        id2handle := id2handle - {h};
      }
    }
  }
}
