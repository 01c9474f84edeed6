/** One established multi-hop connection, seen from the two proxies that relay it. Each half
    holds what one proxy's tables say about the connection and the traffic on its side. */
module ProxyConnection {
  import opened Bytes

  /** What a proxy's tables hold for the connection: `Gone`, or the local handle's two flags. */
  datatype Entry = Gone | Live(rd: bool, wr: bool)

  /** `sent`: everything the local client has sent; `pending`: the part that its proxy has not
      read; `inflight`: what the peer proxy has sent here for this connection and is not read;
      `delivered`: everything written to the local client; `route`: the `connid2proxy` entry. */
  datatype Half = Half(entry: Entry, route: bool, sent: seq<Frame>, pending: seq<Frame>,
                       inflight: seq<Frame>, delivered: seq<Frame>)

  predicate Finished(s: seq<Frame>) {
    s != [] && s[|s| - 1] == EOS
  }

  /** End-of-stream can only be the last frame. */
  ghost predicate Clean(s: seq<Frame>) {
    forall i | 0 <= i < |s| - 1 :: s[i] != EOS
  }

  /** The proxy has read the end-of-stream of its client. */
  predicate ReadDone(x: Half) {
    Finished(x.sent) && x.pending == []
  }

  /** The proxy has written end-of-stream to its client. */
  predicate WriteDone(x: Half) {
    Finished(x.delivered)
  }

  /** The half `x`, whose client's traffic goes to the half `y`. */
  ghost predicate GoodHalf(x: Half, y: Half) {
    && Clean(x.sent)
    && x.sent == y.delivered + y.inflight + x.pending
    && x.entry == (if ReadDone(x) && WriteDone(x) then Gone else Live(ReadDone(x), WriteDone(x)))
    && (x.entry.Live? ==> x.route)
    && (!x.route ==> y.route && ReadDone(y))
  }

  ghost predicate Good(x: Half, y: Half) {
    GoodHalf(x, y) && GoodHalf(y, x)
  }

  /** The flags after a change; both set means that the entry is erased. */
  function Settle(rd: bool, wr: bool): Entry {
    if rd && wr then Gone else Live(rd, wr)
  }

  /** The client sends a frame, end-of-stream included, unless it has already finished. */
  function ClientSends(x: Half, f: Frame): Half {
    x.(sent := x.sent + [f], pending := x.pending + [f])
  }

  /** The proxy reads the next frame of its client: it leaves `pending` ... */
  function ReadsClient(x: Half): Half
    requires x.pending != [] && x.entry.Live?
  {
    var e := if x.pending[0] == EOS then Settle(true, x.entry.wr) else x.entry;
    x.(pending := x.pending[1..], entry := e, route := x.route && e.Live?)
  }

  /** ... and travels to the peer proxy. */
  function Relayed(x: Half, y: Half): Half
    requires x.pending != []
  {
    y.(inflight := y.inflight + [x.pending[0]])
  }

  /** The proxy reads the next message of its peer and writes it to its client. */
  function ReadsPeer(x: Half): Half
    requires x.inflight != [] && x.entry.Live?
  {
    var f := x.inflight[0];
    x.(inflight := x.inflight[1..], delivered := x.delivered + [f],
       entry := if f == EOS then Settle(x.entry.rd, true) else x.entry)
  }

  lemma CleanPrefix(s: seq<Frame>, t: seq<Frame>)
    requires Clean(s + t) && Finished(s)
    ensures t == []
  {
    assert (s + t)[|s| - 1] == s[|s| - 1];
  }

  /** A proxy that still has something to read for the connection still knows it. */
  lemma NeverUnknown(x: Half, y: Half)
    requires Good(x, y)
    ensures x.inflight != [] ==> x.entry.Live? && !x.entry.wr
    ensures x.pending != [] ==> x.entry.Live? && !x.entry.rd && x.route
  {
    if x.inflight != [] && WriteDone(x) {
      assert y.sent == x.delivered + (x.inflight + y.pending);
      CleanPrefix(x.delivered, x.inflight + y.pending);
    }
  }

  lemma ClientSendsGood(x: Half, y: Half, f: Frame)
    requires Good(x, y) && !Finished(x.sent)
    ensures Good(ClientSends(x, f), y)
  {
    var x' := ClientSends(x, f);
    assert x'.sent == y.delivered + y.inflight + x'.pending;
  }

  lemma ReadsClientGood(x: Half, y: Half)
    requires Good(x, y) && x.pending != []
    ensures x.entry.Live? && Good(ReadsClient(x), Relayed(x, y))
  {
    NeverUnknown(x, y);
    var x', y' := ReadsClient(x), Relayed(x, y);
    assert x.pending == [x.pending[0]] + x'.pending;
    assert x'.sent == y'.delivered + y'.inflight + x'.pending;
    PendingEos(x, y);
    if !x'.route {
      assert WriteDone(x);
      DeliveredEos(x, y);
    }
  }

  /** The frame at the head of `pending` is end-of-stream exactly when it is the last one. */
  lemma PendingEos(x: Half, y: Half)
    requires GoodHalf(x, y) && x.pending != []
    ensures x.pending[0] == EOS <==> Finished(x.sent) && x.pending[1..] == []
  {
    var k := |y.delivered| + |y.inflight|;
    assert x.sent[k] == x.pending[0];
    assert x.sent[|x.sent| - 1] == x.pending[|x.pending| - 1];
  }

  /** Once end-of-stream has been delivered, everything has been. */
  lemma DeliveredEos(x: Half, y: Half)
    requires GoodHalf(y, x) && WriteDone(x)
    ensures x.inflight == [] && ReadDone(y)
  {
    assert y.sent == x.delivered + (x.inflight + y.pending);
    CleanPrefix(x.delivered, x.inflight + y.pending);
  }

  lemma ReadsPeerGood(x: Half, y: Half)
    requires Good(x, y) && x.inflight != []
    ensures x.entry.Live? && Good(ReadsPeer(x), y)
  {
    NeverUnknown(x, y);
    var x' := ReadsPeer(x);
    assert x.inflight == [x.inflight[0]] + x'.inflight;
    assert y.sent == x'.delivered + x'.inflight + y.pending;
  }

  /** In each direction what is delivered is a prefix of what was sent. */
  lemma DeliveredPrefix(x: Half, y: Half)
    requires Good(x, y)
    ensures y.delivered <= x.sent && x.delivered <= y.sent
  {
  }

  /** Both clients have finished and nothing is on its way: the streams have arrived whole, no
      table entry is left, and yet some proxy still holds a `connid2proxy` entry. */
  lemma Quiescent(x: Half, y: Half)
    requires Good(x, y) && Finished(x.sent) && Finished(y.sent)
    requires x.pending == [] && y.pending == [] && x.inflight == [] && y.inflight == []
    ensures y.delivered == x.sent && x.delivered == y.sent
    ensures x.entry == Gone && y.entry == Gone && (x.route || y.route)
  {
    assert x.sent == y.delivered && y.sent == x.delivered;
  }
}
