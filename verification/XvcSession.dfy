/**
 * What a client gets: the replies to its commands, and how the server's batches
 * depend, or do not depend, on the way the stream was cut into packets. Replies are
 * those of a buffer of zeros that is large enough; `XvcReplies` says when the real
 * one gives them.
 */
module XvcSession {
  import opened Bytes
  import opened LittleEndian
  import opened XvcProtocol

  /**
   * The two handlers of the server, over the state `D` of the device behind them. `shift`
   * gives the bytes that it writes to the reply buffer: all of a reply, fewer when it fails
   * on the way, or more than the server set aside.
   */
  datatype Handlers<!D> = Handlers(
    shift: (D, u32, seq<byte>, seq<byte>) -> (D, seq<byte>),
    setTck: u32 -> u64)

  const XVC_VERSION: nat := 10

  /** A number in decimal ASCII. */
  function Decimal(n: nat): seq<byte> {
    if n < 10 then [48 + n] else Decimal(n / 10) + [48 + n % 10]
  }

  // "xvcServer_v" in ASCII
  const GREETING: seq<byte> := [120, 118, 99, 83, 101, 114, 118, 101, 114, 95, 118]

  /** The reply to getinfo: "xvcServer_v1.0:10000" and a line feed. */
  function InfoReply(): seq<byte> {
    GREETING + Decimal(XVC_VERSION / 10) + [46] + Decimal(XVC_VERSION % 10) + [COLON] + Decimal(MAX_PACKET_LEN) + [10]
  }

  /** The greeting, byte for byte. */
  lemma InfoReplyText()
    ensures |InfoReply()| == 21
    ensures forall i :: 0 <= i < 21 ==> InfoReply()[i] == "xvcServer_v1.0:10000\n"[i] as int
  {
    assert Decimal(10) == Decimal(1) + [48];
    assert Decimal(100) == Decimal(10) + [48];
    assert Decimal(1000) == Decimal(100) + [48];
    assert Decimal(10000) == Decimal(1000) + [48];
    assert InfoReply() == [120, 118, 99, 83, 101, 114, 118, 101, 114, 95, 118, 49, 46, 48, 58, 49, 48, 48, 48, 48, 10];
  }

  lemma InfoReplyLength()
    ensures |InfoReply()| == 21
  {
    InfoReplyText();
  }

  /** The `n` reply bytes that a handler leaves by writing `written`, when the buffer held zeros. */
  function ReplyOf(written: seq<byte>, n: nat): (r: seq<byte>)
    ensures |r| == n
    ensures |written| >= n ==> r == written[..n]
  {
    if |written| >= n then written[..n] else written + seq(n - |written|, _ => 0)
  }

  /** A device state and the bytes sent so far. */
  datatype Done<D> = Done(dev: D, sent: seq<byte>)

  function Execute<D>(h: Handlers<D>, dev: D, c: Command): Done<D> {
    match c
    case GetInfo => Done(dev, InfoReply())
    case SetTck(period) => Done(dev, PutLe(h.setTck(period), 4))
    case Shift(bits, tms, tdi) =>
      var r := h.shift(dev, bits, tms, tdi);
      Done(r.0, ReplyOf(r.1, ShiftBytes(bits)))
  }

  function ExecuteAll<D>(h: Handlers<D>, dev: D, cmds: seq<Command>): Done<D> {
    if cmds == [] then Done(dev, [])
    else
      var first := Execute(h, dev, cmds[0]);
      var rest := ExecuteAll(h, first.dev, cmds[1..]);
      Done(rest.dev, first.sent + rest.sent)
  }

  /** `a`, then `b` executed from where `a` left the device. */
  function ExecuteBoth<D>(h: Handlers<D>, dev: D, a: seq<Command>, b: seq<Command>): Done<D> {
    var first := ExecuteAll(h, dev, a);
    var rest := ExecuteAll(h, first.dev, b);
    Done(rest.dev, first.sent + rest.sent)
  }

  lemma {:induction false} ExecuteAppend<D>(h: Handlers<D>, dev: D, a: seq<Command>, b: seq<Command>)
    ensures ExecuteAll(h, dev, a + b) == ExecuteBoth(h, dev, a, b)
  {
    if a == [] {
      assert a + b == b;
      assert [] + ExecuteAll(h, dev, b).sent == ExecuteAll(h, dev, b).sent;
    } else {
      var one := Execute(h, dev, a[0]);
      var first := ExecuteAll(h, one.dev, a[1..]);
      assert (a + b)[1..] == a[1..] + b;
      ExecuteAppend(h, one.dev, a[1..], b);
      Regroup(one.sent, first.sent, ExecuteAll(h, first.dev, b).sent);
    }
  }

  /** A connection: the device, the unparsed bytes, what was done and sent, and whether it lives. */
  datatype Session<D> = Session(dev: D, rest: seq<byte>, calls: seq<Command>, sent: seq<byte>, end: End)

  /**
   * The server parses what is in its buffer.  The commands of a batch are executed one by
   * one, but their replies are sent only after the batch; when the batch ends in an error
   * its replies are never sent.
   */
  function Batch<D>(h: Handlers<D>, s: Session<D>): Session<D> {
    var o := ParseAll(s.rest);
    var x := ExecuteAll(h, s.dev, o.cmds);
    Session(x.dev, o.rest, s.calls + o.cmds, if o.end.More? then s.sent + x.sent else s.sent, o.end)
  }

  /** One piece of the stream arrives. */
  function Receive<D>(h: Handlers<D>, s: Session<D>, piece: seq<byte>): Session<D> {
    if s.end.More? then Batch(h, s.(rest := s.rest + piece)) else s
  }

  /** A connection on which `recv` returned these pieces, in this order. */
  function Serve<D>(h: Handlers<D>, dev: D, pieces: seq<seq<byte>>): Session<D>
    decreases |pieces|
  {
    if pieces == [] then Session(dev, [], [], [], More)
    else
      var last := |pieces| - 1;
      Receive(h, Serve(h, dev, pieces[..last]), pieces[last])
  }

  /** The same stream, parsed and executed in one go. */
  function OneShot<D>(h: Handlers<D>, dev: D, stream: seq<byte>): Session<D> {
    var o := ParseAll(stream);
    var x := ExecuteAll(h, dev, o.cmds);
    Session(x.dev, o.rest, o.cmds, x.sent, o.end)
  }

  /** `s` did what `t` did, but for replies withheld by an error. */
  predicate Agrees<D(==)>(s: Session<D>, t: Session<D>) {
    && s.dev == t.dev && s.calls == t.calls && s.end == t.end
    && s.sent <= t.sent
    && (s.end.More? ==> s.sent == t.sent && s.rest == t.rest)
  }

  lemma BatchAgrees<D>(h: Handlers<D>, dev: D, s: Session<D>, stream: seq<byte>, piece: seq<byte>)
    requires s.end.More? && Agrees(s, OneShot(h, dev, stream))
    ensures Agrees(Receive(h, s, piece), OneShot(h, dev, stream + piece))
  {
    ParseAllAppend(stream, piece);
    ExecuteAppend(h, dev, s.calls, ParseAll(s.rest + piece).cmds);
  }

  /** However the stream is cut, the server does what it would do with all of it at once. */
  lemma {:induction false} ServeAgrees<D>(h: Handlers<D>, dev: D, pieces: seq<seq<byte>>)
    ensures Agrees(Serve(h, dev, pieces), OneShot(h, dev, Flatten(pieces)))
    decreases |pieces|
  {
    if pieces != [] {
      var last := |pieces| - 1;
      var before, piece := pieces[..last], pieces[last];
      ServeAgrees(h, dev, before);
      assert pieces == before + [piece];
      FlattenAppend(before, [piece]);
      assert Flatten([piece]) == piece + Flatten([]) == piece;
      if Serve(h, dev, before).end.More? {
        BatchAgrees(h, dev, Serve(h, dev, before), Flatten(before), piece);
      } else {
        ParseAllAppend(Flatten(before), piece);
      }
    }
  }

  /**
   * Two ways of cutting one stream: the same handler calls in the same order, the same
   * final device state, the same end; the same bytes sent when the stream is well formed,
   * and one a prefix of the other when it is not.
   */
  lemma SegmentationIndependent<D>(h: Handlers<D>, dev: D, a: seq<seq<byte>>, b: seq<seq<byte>>)
    requires Flatten(a) == Flatten(b)
    ensures var s, t := Serve(h, dev, a), Serve(h, dev, b);
            && s.dev == t.dev && s.calls == t.calls && s.end == t.end
            && (s.sent <= t.sent || t.sent <= s.sent)
            && (s.end.More? ==> s == t)
  {
    ServeAgrees(h, dev, a);
    ServeAgrees(h, dev, b);
  }

  /** A client's well-formed stream is answered in full, however it was cut. */
  lemma ClientServed<D>(h: Handlers<D>, dev: D, cmds: seq<Command>, tail: seq<byte>, pieces: seq<seq<byte>>)
    requires (forall c :: c in cmds ==> Encodable(c)) && ParseOne(tail).NeedMore?
    requires Flatten(pieces) == EncodeAll(cmds) + tail
    ensures var x := ExecuteAll(h, dev, cmds);
            Serve(h, dev, pieces) == Session(x.dev, tail, cmds, x.sent, More)
  {
    RoundTrip(cmds, tail);
    ServeAgrees(h, dev, pieces);
  }

  /** The outcome of a getinfo command followed by an unknown name. */
  lemma GoodThenBad(bad: seq<byte>)
    requires ParseOne(bad) == ProtocolError
    ensures ParseAll(GETINFO + bad) == Outcome([GetInfo], bad, Error)
  {
    EncodeParse(GetInfo, bad);
    assert (GETINFO + bad)[8..] == bad;
  }

  lemma ServeOne<D>(h: Handlers<D>, dev: D, piece: seq<byte>)
    ensures Serve(h, dev, [piece]) == Batch(h, Session(dev, piece, [], [], More))
  {
    assert [piece][..0] == [];
    assert [] + piece == piece;
  }

  lemma ServeTwo<D>(h: Handlers<D>, dev: D, a: seq<byte>, b: seq<byte>)
    ensures Serve(h, dev, [a, b]) == Receive(h, Serve(h, dev, [a]), b)
  {
    assert [a, b][..1] == [a];
  }

  lemma OneGetInfo()
    ensures ParseAll(GETINFO) == Outcome([GetInfo], [], More)
  {
    EncodeParse(GetInfo, []);
    assert GETINFO + [] == GETINFO && GETINFO[8..] == [];
  }

  lemma OneReply<D>(h: Handlers<D>, dev: D)
    ensures ExecuteAll(h, dev, [GetInfo]).sent == InfoReply()
  {
    var none: seq<Command> := [];
    assert [GetInfo][1..] == none;
  }

  /** What is sent before an error does depend on the cut: here none of the reply, or all of it. */
  lemma ErrorWithholdsReplies<D>(h: Handlers<D>, dev: D, bad: seq<byte>)
    requires ParseOne(bad) == ProtocolError
    ensures Serve(h, dev, [GETINFO + bad]).sent == []
    ensures Serve(h, dev, [GETINFO, bad]).sent == InfoReply() != []
  {
    InfoReplyLength();
    assert Serve(h, dev, [GETINFO + bad]).sent == [] by {
      GoodThenBad(bad);
      ServeOne(h, dev, GETINFO + bad);
    }
    var s := Serve(h, dev, [GETINFO]);
    assert s.rest == [] && s.sent == InfoReply() && s.end.More? by {
      OneGetInfo();
      ServeOne(h, dev, GETINFO);
      OneReply(h, dev);
    }
    ServeTwo(h, dev, GETINFO, bad);
    assert [] + bad == bad;
  }

  /** An unknown name behind a getinfo: a stream whose replies depend on the cut. */
  lemma UnknownNameDepends<D>(h: Handlers<D>, dev: D)
    ensures var bad := [120, COLON];
            Serve(h, dev, [GETINFO + bad]).sent == [] != Serve(h, dev, [GETINFO, bad]).sent
  {
    var bad := [120, COLON];
    ColonAt(bad, 1, 0);
    ErrorWithholdsReplies(h, dev, bad);
  }
}
