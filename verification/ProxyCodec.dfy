/** The proxy-to-proxy message layout: one command byte, an eight-byte identifier copied in
    native (little-endian) order, and the payload. */
module ProxyCodec {
  import opened Bytes

  type ConnId = x: nat | x < 0x1_0000_0000_0000_0000

  datatype Message =
    | Forward(id: ConnId, payload: seq<byte>)
    | Eos(id: ConnId)
    | Connect(id: ConnId, target: seq<byte>)
    | ConnectCollective(id: ConnId, target: seq<byte>)

  const FWD: byte := 0
  const CONN: byte := 1
  const PRX: byte := 2
  const EOS_CMD: byte := 4
  const CONN_COLL: byte := 2

  function Layout(cmd: byte, id: ConnId, payload: seq<byte>): (f: seq<byte>)
    ensures |f| == 9 + |payload|
  {
    [cmd] + LittleEndian(id, 8) + payload
  }

  function Encode(m: Message): seq<byte> {
    match m
    case Forward(id, payload) => Layout(FWD, id, payload)
    case Eos(id) => Layout(EOS_CMD, id, [])
    case Connect(id, target) => Layout(CONN, id, target)
    case ConnectCollective(id, target) => Layout(CONN_COLL, id, target)
  }

  /** What the event loop makes of a frame from a known proxy; `None` is ignored. */
  datatype Parsed = None | Got(message: Message)

  function Decode(f: seq<byte>): Parsed {
    if |f| < 9 || FromLittleEndian(f[1..9]) >= 0x1_0000_0000_0000_0000 then None else
      var id: ConnId := FromLittleEndian(f[1..9]);
      if f[0] == EOS_CMD then Got(Eos(id))
      else if f[0] == FWD then Got(Forward(id, f[9..]))
      else if f[0] == CONN then Got(Connect(id, f[9..]))
      else if f[0] == CONN_COLL then Got(ConnectCollective(id, f[9..]))
      else None
  }

  lemma LayoutFields(cmd: byte, id: ConnId, payload: seq<byte>)
    ensures Layout(cmd, id, payload)[0] == cmd && Layout(cmd, id, payload)[9..] == payload
    ensures FromLittleEndian(Layout(cmd, id, payload)[1..9]) == id
  {
    assert Layout(cmd, id, payload)[1..9] == LittleEndian(id, 8);
    EightBytes();
    LittleEndianRoundTrip(id, 8);
  }

  lemma EightBytes()
    ensures Pow256(8) == 0x1_0000_0000_0000_0000
  {
    assert Pow256(4) == 0x1_0000_0000;
  }

  /** The identifier in bytes 1 to 8, the least significant first. */
  ghost predicate Identifies(f: seq<byte>, id: nat) {
    |f| >= 9 && forall i | 0 <= i < 8 :: f[1..9][i] == id / Pow256(i) % 256
  }

  lemma LayoutIdentifies(cmd: byte, id: ConnId, payload: seq<byte>)
    ensures Identifies(Layout(cmd, id, payload), id)
  {
    var f := Layout(cmd, id, payload);
    assert f[1..9] == LittleEndian(id, 8);
    forall i | 0 <= i < 8 ensures f[1..9][i] == id / Pow256(i) % 256 { LittleEndianDigits(id, 8, i); }
  }

  /** The bytes of every message: the command, the identifier, the payload. */
  lemma MessageBytes(m: Message)
    ensures Identifies(Encode(m), m.id)
    ensures match m
            case Forward(_, payload) => Encode(m)[0] == 0 && Encode(m)[9..] == payload
            case Eos(_) => Encode(m)[0] == 4 && |Encode(m)| == 9
            case Connect(_, target) => Encode(m)[0] == 1 && Encode(m)[9..] == target
            case ConnectCollective(_, target) => Encode(m)[0] == 2 && Encode(m)[9..] == target
  {
    match m
    case Forward(id, payload) => LayoutIdentifies(FWD, id, payload);
    case Eos(id) => LayoutIdentifies(EOS_CMD, id, []);
    case Connect(id, target) => LayoutIdentifies(CONN, id, target);
    case ConnectCollective(id, target) => LayoutIdentifies(CONN_COLL, id, target);
  }

  /** Whatever is read was written so: a frame is ignored exactly when it is too short or has
      another command, and otherwise it is the bytes of the message that it is read as; only the
      end of a stream may carry more. */
  lemma EncodeDecode(f: seq<byte>)
    ensures Decode(f).None? <==> |f| < 9 || f[0] !in [0, 1, 2, 4]
    ensures Decode(f).Got? ==> Encode(Decode(f).message) == if f[0] == 4 then f[..9] else f
  {
    if |f| >= 9 {
      EightBytes();
      FromLittleEndianRoundTrip(f[1..9]);
      assert f == [f[0]] + f[1..9] + f[9..] && f[..9] == [f[0]] + f[1..9];
    }
  }

  /** Every message that one proxy writes is read back unchanged by the other. */
  lemma DecodeEncode(m: Message)
    ensures Decode(Encode(m)) == Got(m)
  {
    match m
    case Forward(id, payload) => LayoutFields(FWD, id, payload);
    case Eos(id) => LayoutFields(EOS_CMD, id, []);
    case Connect(id, target) => LayoutFields(CONN, id, target);
    case ConnectCollective(id, target) => LayoutFields(CONN_COLL, id, target);
  }

  /** The greeting of a newly connected proxy shares its command byte with the collective
      connect: on a connection that is not new it would be taken for one. */
  lemma GreetingAmbiguous(pool: seq<byte>)
    ensures Layout(PRX, 0, pool)[0] == 2 && Decode(Layout(PRX, 0, pool)) == Got(ConnectCollective(0, pool))
  {
    LayoutFields(PRX, 0, pool);
  }
}
