/** The server in front of a debug bridge: what a client that shifts bits gets back. */
module XvcEndToEnd {
  import opened Bytes
  import opened LittleEndian
  import opened Jtag
  import opened XvcProtocol
  import opened XvcSession
  import opened XvcCuts
  import opened XvcReplies
  import XvcAxi

  /** A vector as the splitter reads it: what is in memory behind it comes after its bytes. */
  function Vector(b: seq<byte>, n: nat, behind: nat -> byte): (r: seq<byte>)
    ensures |r| >= n && (|b| >= n ==> r == b)
  {
    if |b| >= n then b else b + seq(n - |b|, i requires 0 <= i => behind(i))
  }

  function ShiftTmsTdi<S>(br: Bridge<S>, behind: nat -> byte, s: S, bits: u32, tms: seq<byte>, tdi: seq<byte>)
    : (S, seq<byte>)
  {
    var n := ByteCount(bits);
    var r := ShiftWords(br, s, bits, Vector(tms, n, behind), Vector(tdi, n, behind));
    (r.state, r.tdo)
  }

  function SetTckHandler(period: u32): u64 { period }

  /** The handlers of the server program, no poll timing out: shifts go to the bridge, periods are echoed. */
  function BridgeHandlers<S>(br: Bridge<S>, behind: nat -> byte): Handlers<S> {
    Handlers((s, bits, tms, tdi) => ShiftTmsTdi(br, behind, s, bits, tms, tdi), SetTckHandler)
  }

  /** They write one byte for every eight bits begun, whatever the server set aside. */
  lemma BridgeWritesAll<S(!new)>(br: Bridge<S>, behind: nat -> byte)
    ensures WritesAll(BridgeHandlers(br, behind))
  {
  }

  /** The handler is what the splitter does to the registers when no poll times out. */
  lemma HandlerIsSplitter<S>(job: XvcAxi.Job<S>, ret: nat, v: XvcAxi.View<S>, tms: seq<byte>, tdi: seq<byte>,
                             behind: nat -> byte)
    requires job.Valid() && job.opcode == 1 && job.length < 0x1_0000_0000 && XvcAxi.Served(job, ret, v)
    requires forall i :: job.delays(i) < XvcAxi.POLLS
    requires job.tms == Vector(tms, ByteCount(job.length), behind)
    requires job.tdi == Vector(tdi, ByteCount(job.length), behind)
    ensures var r := BridgeHandlers(job.bridge, behind).shift(job.before.state, job.length, tms, tdi);
            && ret == 0 && v.state == r.0 && |r.1| == ByteCount(job.length)
            && v.buf == r.1 + job.before.buf[ByteCount(job.length)..]
  {
    assert job.Completes() == |job.Sizes()|;
  }

  /**
   * Registers to bits: a request that is served without a timeout leaves the chain where
   * clocking its vectors bit by bit leaves it, and what that puts out is in the first bits
   * of the TDO buffer.
   */
  lemma SplitterIsSerial<S(!new)>(job: XvcAxi.Job<S>, ret: nat, v: XvcAxi.View<S>)
    requires job.Valid() && job.opcode == 1 && XvcAxi.Served(job, ret, v) && Honest(job.bridge)
    requires forall i :: job.delays(i) < XvcAxi.POLLS
    ensures var n := job.length;
            var c := Clock(job.bridge, job.before.state, VectorBits(job.tms, n), VectorBits(job.tdi, n));
            ret == 0 && v.state == c.state && 8 * |v.buf| >= n && VectorBits(v.buf, n) == c.tdo
  {
    assert job.Completes() == |job.Sizes()|;
    WordsRefineSerial(job.bridge, job.before.state, job.length, job.tms, job.tdi);
    VectorBitsPrefix(job.Target().tdo, job.before.buf[ByteCount(job.length)..], job.length);
  }

  predicate Sendable(cmds: seq<Command>) { forall c :: c in cmds ==> Encodable(c) && Exact(c) }

  /** A shift's vectors, clocked one bit at a time. */
  function ClockShift<S>(br: Bridge<S>, s: S, c: Command): (r: Clocked<S>)
    requires c.Shift? && Encodable(c) && Exact(c)
    ensures |r.tdo| == c.bits
  {
    Clock(br, s, VectorBits(c.tms, c.bits), VectorBits(c.tdi, c.bits))
  }

  /** The bit-serial reference: the chain after every bit of every shift was clocked alone. */
  function SerialState<S>(br: Bridge<S>, s: S, cmds: seq<Command>): S
    requires Sendable(cmds)
  {
    if cmds == [] then s
    else
      assert cmds[0] in cmds;
      SerialState(br, if cmds[0].Shift? then ClockShift(br, s, cmds[0]).state else s, cmds[1..])
  }

  lemma ExecuteShift<S(!new)>(br: Bridge<S>, behind: nat -> byte, s: S, c: Command)
    requires Honest(br) && c.Shift? && Encodable(c) && Exact(c)
    ensures var x := Execute(BridgeHandlers(br, behind), s, c);
            && x.dev == ClockShift(br, s, c).state
            && |x.sent| == ByteCount(c.bits) && VectorBits(x.sent, c.bits) == ClockShift(br, s, c).tdo
  {
    WordsRefineSerial(br, s, c.bits, c.tms, c.tdi);
    WholeReply(ShiftWords(br, s, c.bits, c.tms, c.tdi).tdo, ShiftBytes(c.bits));
  }

  lemma WholeReply(written: seq<byte>, n: nat)
    requires |written| == n
    ensures ReplyOf(written, n) == written
  {
  }

  lemma {:induction false} ExecuteSerial<S(!new)>(br: Bridge<S>, behind: nat -> byte, s: S, cmds: seq<Command>)
    requires Honest(br) && Sendable(cmds)
    ensures ExecuteAll(BridgeHandlers(br, behind), s, cmds).dev == SerialState(br, s, cmds)
  {
    if cmds != [] {
      assert cmds[0] in cmds;
      if cmds[0].Shift? {
        ExecuteShift(br, behind, s, cmds[0]);
      }
      ExecuteSerial(br, behind, Execute(BridgeHandlers(br, behind), s, cmds[0]).dev, cmds[1..]);
    }
  }

  predicate PartAt(all: seq<byte>, from: nat, part: seq<byte>) {
    from + |part| <= |all| && all[from..from + |part|] == part
  }

  /** Where the reply to one command is in the reply to a list. */
  lemma ReplyAt<D>(h: Handlers<D>, dev: D, cmds: seq<Command>, k: nat)
    requires k < |cmds|
    ensures var first := ExecuteAll(h, dev, cmds[..k]);
            var one := Execute(h, first.dev, cmds[k]).sent;
            var all := ExecuteAll(h, dev, cmds).sent;
            PartAt(all, ReplyLens(cmds[..k]), one)
  {
    ReplyLength(h, dev, cmds[..k]);
    assert cmds == cmds[..k] + cmds[k..];
    ExecuteAppend(h, dev, cmds[..k], cmds[k..]);
    var first := ExecuteAll(h, dev, cmds[..k]);
    var one := Execute(h, first.dev, cmds[k]);
    assert ExecuteAll(h, first.dev, cmds[k..]).sent == one.sent + ExecuteAll(h, one.dev, cmds[k..][1..]).sent;
  }

  /**
   * What the bytes of `sent` that answer command `k` say. For getinfo it is the greeting, for
   * settck the period, least significant byte first. For a shift they are one for every eight
   * bits begun, and their bits are the outputs of clocking its vectors one bit at a time, from
   * the state that clocking all earlier shifts leaves.
   */
  ghost predicate Answered<S>(br: Bridge<S>, s: S, cmds: seq<Command>, k: nat, sent: seq<byte>)
    requires Sendable(cmds) && k < |cmds|
  {
    var c, from := cmds[k], ReplyLens(cmds[..k]);
    assert c in cmds;
    match c
    case GetInfo => Greets(sent, from)
    case SetTck(period) => Tells(sent, from, period)
    case Shift(bits, tms, tdi) =>
      var serial := SerialState(br, s, cmds[..k]);
      Carries(sent, from, bits, Clock(br, serial, VectorBits(tms, bits), VectorBits(tdi, bits)).tdo)
  }

  /** The bytes of `sent` from `from` on are the version of the server and the packet size it takes. */
  predicate Greets(sent: seq<byte>, from: nat) {
    from + 21 <= |sent| && forall i :: from <= i < from + 21 ==> sent[i] == "xvcServer_v1.0:10000\n"[i - from] as int
  }

  /** The four bytes of `sent` from `from` on are the number `period`. */
  predicate Tells(sent: seq<byte>, from: nat, period: nat) {
    && from + 4 <= |sent|
    && (var b: seq<int> := sent[from..from + 4];
        b[0] + 0x100 * b[1] + 0x1_0000 * b[2] + 0x100_0000 * b[3] == period)
  }

  /** The bytes of `sent` from `from` on, as many as `bits` bits take, hold the bits `tdo`. */
  predicate Carries(sent: seq<byte>, from: nat, bits: nat, tdo: seq<bool>) {
    var to := from + ByteCount(bits);
    to <= |sent| && VectorBits(sent[from..to], bits) == tdo
  }

  lemma CommandAnswered<S(!new)>(br: Bridge<S>, behind: nat -> byte, s: S, cmds: seq<Command>, k: nat)
    requires Honest(br) && Sendable(cmds) && k < |cmds|
    ensures Answered(br, s, cmds, k, ExecuteAll(BridgeHandlers(br, behind), s, cmds).sent)
  {
    var h, c, from := BridgeHandlers(br, behind), cmds[k], ReplyLens(cmds[..k]);
    assert c in cmds;
    ReplyAt(h, s, cmds, k);
    ExecuteSerial(br, behind, s, cmds[..k]);
    var serial, all := SerialState(br, s, cmds[..k]), ExecuteAll(h, s, cmds).sent;
    match c
    case GetInfo =>
      PartGreets(all, from);
    case SetTck(period) =>
      PartTells(all, from, period);
    case Shift(bits, _, _) =>
      ExecuteShift(br, behind, serial, c);
      PartCarries(all, from, bits, Execute(h, serial, c).sent, ClockShift(br, serial, c).tdo);
  }

  lemma PartGreets(all: seq<byte>, from: nat)
    requires PartAt(all, from, InfoReply())
    ensures Greets(all, from)
  {
    InfoReplyText();
    forall i | from <= i < from + 21
      ensures all[i] == InfoReply()[i - from]
    {
      assert all[i] == all[from..from + 21][i - from];
    }
  }

  lemma PartTells(all: seq<byte>, from: nat, period: u32)
    requires PartAt(all, from, PutLe(period, 4))
    ensures Tells(all, from, period)
  {
    FourBytes(PutLe(period, 4), period);
    FourDigits(PutLe(period, 4));
  }

  lemma PartCarries(all: seq<byte>, from: nat, bits: nat, part: seq<byte>, tdo: seq<bool>)
    requires |part| == ByteCount(bits) && VectorBits(part, bits) == tdo
    requires PartAt(all, from, part)
    ensures Carries(all, from, bits, tdo)
  {
  }

  /**
   * End to end: whatever a client sends, in whatever pieces it arrives, every command is
   * answered in its place, a shift with what bit-serial clocking gives, and the chain ends
   * where clocking every bit of every shift leaves it.
   */
  lemma EndToEnd<S(!new)>(br: Bridge<S>, behind: nat -> byte, s: S, cmds: seq<Command>, tail: seq<byte>,
                          pieces: Pieces)
    requires Honest(br) && Sendable(cmds) && ParseOne(tail).NeedMore?
    requires Flatten(pieces) == EncodeAll(cmds) + tail
    ensures var session := Serve(BridgeHandlers(br, behind), s, pieces);
            && session.dev == SerialState(br, s, cmds) && session.end.More? && session.rest == tail
            && forall k :: 0 <= k < |cmds| ==> Answered(br, s, cmds, k, session.sent)
  {
    ClientServed(BridgeHandlers(br, behind), s, cmds, tail, pieces);
    ExecuteSerial(br, behind, s, cmds);
    forall k | 0 <= k < |cmds|
      ensures Answered(br, s, cmds, k, ExecuteAll(BridgeHandlers(br, behind), s, cmds).sent)
    {
      CommandAnswered(br, behind, s, cmds, k);
    }
  }

  /**
   * The same for the bytes that leave the real reply buffer, whatever it held before: for
   * every session whose batches stay inside it, and so for every session with at most 669
   * getinfo commands.
   */
  lemma EndToEndInBuffer<S(!new)>(br: Bridge<S>, behind: nat -> byte, s: S, buf: seq<byte>, cmds: seq<Command>,
                                  tail: seq<byte>, pieces: Pieces)
    requires Honest(br) && Sendable(cmds) && ParseOne(tail).NeedMore?
    requires Flatten(pieces) == EncodeAll(cmds) + tail && Receivable(BridgeHandlers(br, behind), s, pieces)
    requires |buf| >= REPLY_MAX
    requires Infos(cmds) <= SAFE_INFOS || Clean(BridgeHandlers(br, behind), s, buf, pieces)
    ensures var session := ServeInto(BridgeHandlers(br, behind), s, buf, pieces).session;
            && session.dev == SerialState(br, s, cmds) && session.end.More? && session.rest == tail
            && |session.sent| == ReplyLens(cmds)
            && forall k :: 0 <= k < |cmds| ==> Answered(br, s, cmds, k, session.sent)
  {
    var h := BridgeHandlers(br, behind);
    ClientServed(h, s, cmds, tail, pieces);
    if Infos(cmds) <= SAFE_INFOS {
      BridgeWritesAll(br, behind);
      SessionClean(h, s, buf, pieces);
    }
    ServedAlike(h, s, buf, pieces);
    ReplyLength(h, s, cmds);
    EndToEnd(br, behind, s, cmds, tail, pieces);
  }
}
