/**
 * The packetizer's contract in bytes and signals: every header field of every packet, every
 * payload byte, what a call waits for, and what its input streams mean.
 */
module RoceWire {
  import opened Bytes
  import opened RoceFraming
  import opened RoceCore
  import opened RoceShape
  import opened RoceReceiver

  // ---- Headers, byte by byte -----------------------------------------------

  lemma BigEndian3(v: u24)
    ensures var b: seq<int> := Bytes3(v); b[0] * 0x1_0000 + b[1] * 0x100 + b[2] == v
  {
  }

  lemma BigEndian4(v: u32)
    ensures var b: seq<int> := Bytes4(v); b[0] * 0x100_0000 + b[1] * 0x1_0000 + b[2] * 0x100 + b[3] == v
  {
    var hi := v / 0x100;
    var top := hi / 0x100;
    assert v / 0x1_0000 == top && v / 0x100_0000 == top / 0x100;
  }

  /** The Base Transport Header (InfiniBand Volume 1, section 9.2), all twelve bytes. */
  lemma BaseHeader(op: byte, f: Flags, p: Parameters)
    ensures var h: seq<int> := Bth(op, f, p);
            && |h| == 12 && h[0] == op
            && (h[1] / 0x80 == 1 <==> f.solicitedEvent) && (h[1] / 0x40 % 2 == 1 <==> f.migReq)
            && h[1] / 0x10 % 4 == 0 && h[1] % 0x10 == f.transportHeaderVersion
            && h[2] * 0x100 + h[3] == f.partition
            && h[4] / 0x40 == f.conjestion && h[4] % 0x40 == 0
            && h[5] * 0x1_0000 + h[6] * 0x100 + h[7] == p.destQp
            && (h[8] / 0x80 == 1 <==> f.ackReq) && h[8] % 0x80 == 0
            && h[9] * 0x1_0000 + h[10] * 0x100 + h[11] == p.packetSequenceNumber
  {
    var h := Bth(op, f, p);
    BigEndian3(p.destQp);
    BigEndian3(p.packetSequenceNumber);
    assert h[5..8] == Bytes3(p.destQp) && h[9..12] == Bytes3(p.packetSequenceNumber);
    assert h[5] == h[5..8][0] && h[6] == h[5..8][1] && h[7] == h[5..8][2];
    assert h[9] == h[9..12][0] && h[10] == h[9..12][1] && h[11] == h[9..12][2];
  }

  /** The RDMA Extended Transport Header (section 9.3.3): virtual address zero, key, length. */
  lemma ExtendedHeader(p: Parameters)
    ensures var r: seq<int> := Reth(p);
            && |r| == 16 && (forall i :: 0 <= i < 8 ==> r[i] == 0)
            && r[8] * 0x100_0000 + r[9] * 0x1_0000 + r[10] * 0x100 + r[11] == p.password
            && r[12] * 0x100_0000 + r[13] * 0x1_0000 + r[14] * 0x100 + r[15] == p.length
  {
    var r := Reth(p);
    BigEndian4(p.password);
    BigEndian4(p.length);
    assert r[8..12] == Bytes4(p.password) && r[12..16] == Bytes4(p.length);
    assert r[8] == r[8..12][0] && r[9] == r[8..12][1] && r[10] == r[8..12][2] && r[11] == r[8..12][3];
    assert r[12] == r[12..16][0] && r[13] == r[12..16][1] && r[14] == r[12..16][2] && r[15] == r[12..16][3];
  }

  lemma HeaderInFront(f: Flags, p: Parameters, pay: seq<byte>, k: nat, op: byte)
    requires k < |MessagePackets(f, p, pay)| && pay != []
    requires op == if k == 0 then FirstOpcode(p.length) else NextOpcode(Tracked(p, k).length)
    ensures |MessagePackets(f, p, pay)[k]| >= 12
    ensures MessagePackets(f, p, pay)[k][..12] == Bth(op, f, p)
  {
    MessagePacketAt(f, p, pay, 0);
    MessagePacketAt(f, p, pay, k);
    assert Bth(op, f, Tracked(p, k)) == Bth(op, f, p);
  }

  /**
   * Every packet of a message, first or continuation, starts with a Base Transport Header
   * that has the message's queue and sequence number and the flags, and the opcode for what
   * is left of the length parameter, which is a 32-bit number.
   */
  lemma PacketHeader(f: Flags, p: Parameters, pay: seq<byte>, k: nat)
    requires k < |MessagePackets(f, p, pay)| && pay != []
    ensures |MessagePackets(f, p, pay)[k]| >= 12
    ensures var h: seq<int> := MessagePackets(f, p, pay)[k];
            var left := (p.length - 1280 * k) % 0x1_0000_0000;
            && h[0] == (if k == 0 then (if left < 1280 then 10 else 6) else (if left < 1280 then 8 else 7))
            && (h[1] / 0x80 == 1 <==> f.solicitedEvent) && (h[1] / 0x40 % 2 == 1 <==> f.migReq)
            && h[1] / 0x10 % 4 == 0 && h[1] % 0x10 == f.transportHeaderVersion
            && h[2] * 0x100 + h[3] == f.partition
            && h[4] / 0x40 == f.conjestion && h[4] % 0x40 == 0
            && h[5] * 0x1_0000 + h[6] * 0x100 + h[7] == p.destQp
            && (h[8] / 0x80 == 1 <==> f.ackReq) && h[8] % 0x80 == 0
            && h[9] * 0x1_0000 + h[10] * 0x100 + h[11] == p.packetSequenceNumber
  {
    var op := if k == 0 then FirstOpcode(p.length) else NextOpcode(Tracked(p, k).length);
    HeaderInFront(f, p, pay, k, op);
    BaseHeader(op, f, p);
    var h, b := MessagePackets(f, p, pay)[k], Bth(op, f, p);
    forall i | 0 <= i < 12
      ensures h[i] == b[i]
    {
      assert h[i] == h[..12][i];
    }
  }

  /** The first packet goes on with the extended header: no address, the key, the length parameter. */
  lemma FirstPacketHeader(f: Flags, p: Parameters, pay: seq<byte>)
    requires pay != []
    ensures MessagePackets(f, p, pay) != [] && |MessagePackets(f, p, pay)[0]| >= 28
    ensures var h: seq<int> := MessagePackets(f, p, pay)[0];
            && (forall i :: 12 <= i < 20 ==> h[i] == 0)
            && h[20] * 0x100_0000 + h[21] * 0x1_0000 + h[22] * 0x100 + h[23] == p.password
            && h[24] * 0x100_0000 + h[25] * 0x1_0000 + h[26] * 0x100 + h[27] == p.length
  {
    MessagePacketAt(f, p, pay, 0);
    ExtendedHeader(p);
    var h, r := MessagePackets(f, p, pay)[0], Reth(p);
    assert h[12..28] == r;
    assert forall i {:trigger h[i]} :: 12 <= i < 28 ==> h[i] == h[12..28][i - 12];
  }

  /** Behind its header, packet `k` has the message's bytes from 1280k on, and no others. */
  lemma PacketPayload(f: Flags, p: Parameters, pay: seq<byte>, k: nat)
    requires k < |MessagePackets(f, p, pay)| && pay != []
    ensures var packet, from := MessagePackets(f, p, pay)[k], if k == 0 then 28 else 12;
            && 1280 * k < |pay|
            && |packet| == from + (if |pay| - 1280 * k < 1280 then |pay| - 1280 * k else 1280)
            && packet[from..] == pay[1280 * k..1280 * k + (|packet| - from)]
  {
    MessagePacketAt(f, p, pay, 0);
    MessagePacketAt(f, p, pay, k);
    PieceSize(pay, k);
  }

  // ---- What a call waits for -----------------------------------------------

  /** A call emits exactly when the output has room and what its stage needs is there; else it does nothing. */
  lemma EmitsExactly(c: Core, a: Answers)
    ensures var data, param := !a.dataStalled && c.dataToWrite != [], !a.paramStalled && c.paramIn != [];
            var needs := match c.regs.stage
                         case WaitingForParam => param && data
                         case WriteDataOffset28 => data || c.regs.doNotRead
                         case SendingLastOfPacket28 => true
                         case SendingNextPacket => data
                         case WriteDataOffset12 => data || c.regs.doNotRead
                         case SendingLastOfPacket12 => true;
            if !a.outFull && needs then |Step(c, a).payloadOut| == |c.payloadOut| + 1 else Step(c, a) == c
  {
  }

  /** A full output stops everything; a stalled input is not read. */
  lemma StallsHold(c: Core, a: Answers)
    ensures a.outFull ==> Step(c, a) == c
    ensures a.dataStalled ==> Step(c, a).dataToWrite == c.dataToWrite
    ensures a.paramStalled ==> Step(c, a).paramIn == c.paramIn
  {
  }

  /** When a message has been read, and when a packet is closed, the lanes behind the remainder are zero. */
  lemma BehindRemainderZero(c: Core)
    ensures c.regs.stage.WriteDataOffset28? && c.regs.doNotRead ==>
              forall i :: 28 <= i < 64 ==> OutWrite28(c).data[i] == 0
    ensures c.regs.stage.WriteDataOffset12? && c.regs.doNotRead ==>
              forall i :: 12 <= i < 64 ==> OutWrite12(c).data[i] == 0
    ensures forall i :: 28 <= i < 64 ==> OutLast28(c).data[i] == 0
    ensures forall i :: 12 <= i < 64 ==> OutLast12(c).data[i] == 0
  {
  }

  // ---- What the data stream means ------------------------------------------

  function KeptAll(d: seq<Beat>): (r: seq<seq<byte>>)
    ensures |r| == |d| && forall i :: 0 <= i < |r| ==> r[i] == Kept(d[i].data, d[i].keep)
  {
    seq(|d|, i requires 0 <= i < |d| => KeptOf(d[i]))
  }

  lemma FlattenKept(d: seq<Beat>)
    requires d != []
    ensures Flatten(KeptAll(d)) == KeptOf(d[0]) + Flatten(KeptAll(d[1..]))
  {
    assert KeptAll(d)[1..] == KeptAll(d[1..]);
  }

  lemma NextBeats(d: seq<Beat>, n: nat)
    requires 0 < n <= |d|
    ensures d[..n] != [] && d[..n][0] == d[0] && d[..n][1..] == d[1..][..n - 1] && d[1..][n - 1..] == d[n..]
  {
  }

  /** A message is the kept bytes of the beats up to the first `last`, in order; the rest is behind it. */
  lemma {:induction false} PayloadIs(d: seq<Beat>) returns (n: nat)
    requires d != [] && d[|d| - 1].last
    ensures 0 < n <= |d| && d[n - 1].last && forall i :: 0 <= i < n - 1 ==> !d[i].last
    ensures Rest(d) == d[n..] && Payload(d) == Flatten(KeptAll(d[..n]))
  {
    if d[0].last {
      n := 1;
      assert d[1..][..0] == [];
      assert KeptOf(d[0]) + Flatten(KeptAll([])) == KeptOf(d[0]);
    } else {
      var m := PayloadIs(d[1..]);
      n := m + 1;
    }
    NextBeats(d, n);
    FlattenKept(d[..n]);
  }

  /** How many messages end in a stream. */
  function Lasts(d: seq<Beat>): nat {
    if d == [] then 0 else (if d[0].last then 1 else 0) + Lasts(d[1..])
  }

  lemma {:induction false} LastsAppend(a: seq<Beat>, b: seq<Beat>)
    ensures Lasts(a + b) == Lasts(a) + Lasts(b)
  {
    if a == [] {
      assert a + b == b;
    } else {
      LastsAppend(a[1..], b);
      assert (a + b)[1..] == a[1..] + b;
    }
  }

  lemma {:induction false} LastsOfOne(d: seq<Beat>)
    requires d != [] && d[|d| - 1].last && forall i :: 0 <= i < |d| - 1 ==> !d[i].last
    ensures Lasts(d) == 1
  {
    if |d| == 1 {
      assert Lasts(d[1..]) == 0;
    } else {
      LastsOfOne(d[1..]);
    }
  }

  /** The first message in a stream, and the rest. */
  predicate Opened(d: seq<Beat>, n: nat, rest: seq<Beat>) {
    0 < n <= |d| && d[n - 1].last && (forall i :: 0 <= i < n - 1 ==> !d[i].last) && rest == d[n..]
  }

  lemma LastsBehind(d: seq<Beat>, n: nat, rest: seq<Beat>, from: nat)
    requires Opened(d, n, rest) && from <= |rest|
    ensures n + from <= |d| && Lasts(d[..n + from]) == 1 + Lasts(rest[..from])
  {
    LastsOfOne(d[..n]);
    LastsAppend(d[..n], rest[..from]);
    assert d[..n + from] == d[..n] + rest[..from];
  }

  lemma LastsInAll(d: seq<Beat>, n: nat, rest: seq<Beat>)
    requires Opened(d, n, rest)
    ensures Lasts(d) == 1 + Lasts(rest)
  {
    LastsBehind(d, n, rest, |rest|);
    assert d[..n + |rest|] == d && rest[..|rest|] == rest;
  }

  lemma MessagesStep(params: seq<Parameters>, d: seq<Beat>, rest: seq<Beat>)
    requires params != [] && d != [] && rest == Rest(d)
    ensures Messages(params, d) == [Message(params[0], Payload(d))] + Messages(params[1..], rest)
  {
  }

  /** The input streams pair up: as many messages as both have, the shorter one deciding. */
  lemma {:induction false} MessageCount(params: seq<Parameters>, d: seq<Beat>)
    requires d != [] ==> d[|d| - 1].last
    ensures |Messages(params, d)| == if |params| < Lasts(d) then |params| else Lasts(d)
    decreases |params|
  {
    if params != [] && d != [] {
      var n := PayloadIs(d);
      var rest := d[n..];
      MessageCount(params[1..], rest);
      MessagesStep(params, d, rest);
      LastsInAll(d, n, rest);
    }
  }

  /**
   * The first message has the first parameters and the kept bytes up to the first `last`;
   * the later ones are those of the remaining parameters and the beats behind it.
   */
  lemma FrontMessage(params: seq<Parameters>, d: seq<Beat>) returns (n: nat)
    requires params != [] && d != [] && d[|d| - 1].last
    ensures 0 < n <= |d| && d[n - 1].last && forall i :: 0 <= i < n - 1 ==> !d[i].last
    ensures Messages(params, d) == [Message(params[0], Flatten(KeptAll(d[..n])))] + Messages(params[1..], d[n..])
  {
    n := PayloadIs(d);
    MessagesStep(params, d, d[n..]);
  }

  /** Beats that carry a byte string. */
  function Beats(pay: seq<byte>): seq<Beat>
    decreases |pay|
  {
    if |pay| <= 64 then [RawBeat(pay + Zeros(64 - |pay|), Keeps(|pay|, true) + Keeps(64 - |pay|, false), true)]
    else [RawBeat(pay[..64], Keeps(64, true), false)] + Beats(pay[64..])
  }

  /** Every message that is not empty can be put on the data stream. */
  lemma {:induction false} EveryMessageHasBeats(pay: seq<byte>)
    requires pay != []
    ensures StreamOk(Beats(pay)) && Beats(pay) != [] && Payload(Beats(pay)) == pay && Rest(Beats(pay)) == []
    decreases |pay|
  {
    var b := Beats(pay)[0];
    if |pay| <= 64 {
      assert Leading(b.keep, |pay|);
      KeptLeading(b.data, b.keep, |pay|);
      assert b.data[..|pay|] == pay;
    } else {
      EveryMessageHasBeats(pay[64..]);
      KeptFull(b.data, b.keep);
      assert Beats(pay)[1..] == Beats(pay[64..]) && pay[..64] + pay[64..] == pay;
      StreamOkCons(b, Beats(pay[64..]));
    }
  }

  lemma StreamOkCons(b: Beat, d: seq<Beat>)
    requires BeatOk(b) && d != [] && StreamOk(d)
    ensures StreamOk([b] + d)
  {
  }
}
