/**
 * What the RoCE packetizer is for, said without its state machine.
 *
 * A message is a byte string with a parameter record.  It is cut into pieces of
 * at most 1280 bytes; each piece becomes one packet, with a 28-byte header in
 * front of the first and a 12-byte header in front of every other; each packet
 * is cut into beats of at most 64 bytes.  Sequences are in wire order: element 0
 * of a beat is byte 63 of the bus (bits 511..504), which is sent first.
 */
module RoceFraming {
  import opened Bytes

  const BEAT: nat := 64
  const MAX_PACKET_LENGTH: nat := 1344
  const MAX_PAYLOAD_LENGTH: nat := 1280 // MAX_PACKET_LENGTH - 0x40
  const MAX_NUM_OF_BEATS: nat := 20     // MAX_PAYLOAD_LENGTH / 64

  const FIRST_HEADER: nat := 28
  const NEXT_HEADER: nat := 12

  // InfiniBand Architecture Specification Volume 1, section 9.2.1: RDMA WRITE opcodes
  const OP_FIRST: byte := 6
  const OP_MIDDLE: byte := 7
  const OP_LAST: byte := 8
  const OP_ONLY: byte := 10

  datatype Parameters = Parameters(destQp: u24, packetSequenceNumber: u24, password: u32, length: u32)

  type u2 = x: int | 0 <= x < 4
  type u4 = x: int | 0 <= x < 16

  datatype Flags = Flags(conjestion: u2, partition: u16, solicitedEvent: bool, migReq: bool,
                         transportHeaderVersion: u4, ackReq: bool)

  /** One 512-bit word of an AXI stream: 64 byte lanes, a keep bit for each, and `last`. */
  datatype RawBeat = RawBeat(data: seq<byte>, keep: seq<bool>, last: bool)

  type Beat = b: RawBeat | |b.data| == BEAT && |b.keep| == BEAT
    witness RawBeat(seq(BEAT, _ => 0), seq(BEAT, _ => false), false)

  /** The bytes whose lane is kept, in wire order. */
  function Kept(data: seq<byte>, keep: seq<bool>): (r: seq<byte>)
    requires |data| == |keep|
    ensures |r| <= |data|
  {
    if data == [] then []
    else (if keep[0] then [data[0]] else []) + Kept(data[1..], keep[1..])
  }

  function KeptOf(b: Beat): seq<byte> { Kept(b.data, b.keep) }

  /** The first `n` lanes are kept and no other lane is. */
  predicate Leading(keep: seq<bool>, n: nat) {
    n <= |keep| && forall i :: 0 <= i < |keep| ==> keep[i] == (i < n)
  }

  predicate Full(keep: seq<bool>) { forall i :: 0 <= i < |keep| ==> keep[i] }

  predicate AllClear(keep: seq<bool>) { forall i :: 0 <= i < |keep| ==> !keep[i] }

  ghost predicate SomeLeading(keep: seq<bool>) {
    exists n :: 1 <= n <= |keep| && Leading(keep, n)
  }

  lemma {:induction false} KeptAppend(a: seq<byte>, ka: seq<bool>, b: seq<byte>, kb: seq<bool>)
    requires |a| == |ka| && |b| == |kb|
    ensures Kept(a + b, ka + kb) == Kept(a, ka) + Kept(b, kb)
  {
    if a == [] {
      assert a + b == b && ka + kb == kb;
    } else {
      KeptAppend(a[1..], ka[1..], b, kb);
      assert (a + b)[1..] == a[1..] + b && (ka + kb)[1..] == ka[1..] + kb;
      Regroup(if ka[0] then [a[0]] else [], Kept(a[1..], ka[1..]), Kept(b, kb));
    }
  }

  lemma {:induction false} KeptLeading(data: seq<byte>, keep: seq<bool>, n: nat)
    requires |data| == |keep| && Leading(keep, n)
    ensures Kept(data, keep) == data[..n]
  {
    if data == [] {
    } else if n == 0 {
      KeptLeading(data[1..], keep[1..], 0);
    } else {
      KeptLeading(data[1..], keep[1..], n - 1);
      assert data[..n] == [data[0]] + data[1..][..n - 1];
    }
  }

  lemma KeptFull(data: seq<byte>, keep: seq<bool>)
    requires |data| == |keep| && Full(keep)
    ensures Kept(data, keep) == data
  {
    KeptLeading(data, keep, |keep|);
    assert data[..|keep|] == data;
  }

  // ---- Input streams ------------------------------------------------------

  /** Every non-last beat is full and the last one keeps 1 to 64 leading bytes. */
  ghost predicate BeatOk(b: Beat) {
    if b.last then exists n :: 1 <= n <= BEAT && Leading(b.keep, n) else Full(b.keep)
  }

  /** A stream of whole messages. */
  ghost predicate StreamOk(d: seq<Beat>) {
    && (forall i :: 0 <= i < |d| ==> BeatOk(d[i]))
    && (d != [] ==> d[|d| - 1].last)
  }

  /** The kept bytes of the message at the front of the stream. */
  function Payload(d: seq<Beat>): seq<byte> {
    if d == [] then []
    else if d[0].last then KeptOf(d[0])
    else KeptOf(d[0]) + Payload(d[1..])
  }

  /** The stream behind the message at its front. */
  function Rest(d: seq<Beat>): (r: seq<Beat>)
    ensures |r| <= |d| && r == d[|d| - |r|..]
    ensures d != [] ==> |r| < |d|
  {
    if d == [] then []
    else if d[0].last then d[1..]
    else Rest(d[1..])
  }

  lemma StreamOkTail(d: seq<Beat>, n: nat)
    requires StreamOk(d) && n <= |d|
    ensures StreamOk(d[n..])
  {
  }

  // ---- Headers ------------------------------------------------------------

  function Bytes4(v: u32): (r: seq<byte>)
    ensures |r| == 4
  {
    [v / 0x100_0000, v / 0x1_0000 % 0x100, v / 0x100 % 0x100, v % 0x100]
  }

  function Bytes3(v: u24): (r: seq<byte>)
    ensures |r| == 3
  {
    [v / 0x1_0000, v / 0x100 % 0x100, v % 0x100]
  }

  /** Base Transport Header: InfiniBand Volume 1, section 9.2. */
  function Bth(op: byte, f: Flags, p: Parameters): (r: seq<byte>)
    ensures |r| == NEXT_HEADER && r[0] == op
  {
    [op,
     (if f.solicitedEvent then 0x80 else 0) + (if f.migReq then 0x40 else 0) + f.transportHeaderVersion,
     f.partition / 0x100, f.partition % 0x100,
     f.conjestion * 0x40]
    + Bytes3(p.destQp)
    + [if f.ackReq then 0x80 else 0]
    + Bytes3(p.packetSequenceNumber)
  }

  /** RDMA Extended Transport Header, virtual address zero: InfiniBand Volume 1, section 9.3.3. */
  function Reth(p: Parameters): (r: seq<byte>)
    ensures |r| == 16
  {
    [0, 0, 0, 0, 0, 0, 0, 0] + Bytes4(p.password) + Bytes4(p.length)
  }

  function FirstOpcode(length: u32): byte {
    if length < MAX_PAYLOAD_LENGTH then OP_ONLY else OP_FIRST
  }

  function NextOpcode(length: u32): byte {
    if length < MAX_PAYLOAD_LENGTH then OP_LAST else OP_MIDDLE
  }

  /** The 32-bit length register of `p` lowered by `n`, with wrap-around. */
  function Lower(p: Parameters, n: nat): Parameters {
    p.(length := (p.length - n) % 0x1_0000_0000)
  }

  lemma LowerLower(p: Parameters, m: nat, n: nat)
    ensures Lower(Lower(p, m), n) == Lower(p, m + n)
  {
  }

  // ---- Packets ------------------------------------------------------------

  /** The packets that carry `pay`, the bytes of a message after its first packet. */
  function NextPackets(f: Flags, p: Parameters, pay: seq<byte>): seq<seq<byte>>
    decreases |pay|
  {
    [Bth(NextOpcode(p.length), f, p) + Take(pay, MAX_PAYLOAD_LENGTH)]
    + if |pay| <= MAX_PAYLOAD_LENGTH then []
      else NextPackets(f, Lower(p, MAX_PAYLOAD_LENGTH), Drop(pay, MAX_PAYLOAD_LENGTH))
  }

  /** What follows a packet that took up to `room` bytes of `pay`. */
  function Overflow(f: Flags, p: Parameters, pay: seq<byte>, room: nat): seq<seq<byte>> {
    if |pay| <= room then [] else NextPackets(f, p, Drop(pay, room))
  }

  function FirstPacket(f: Flags, p: Parameters, pay: seq<byte>): seq<byte> {
    Bth(FirstOpcode(p.length), f, p) + Reth(p) + Take(pay, MAX_PAYLOAD_LENGTH)
  }

  function MessagePackets(f: Flags, p: Parameters, pay: seq<byte>): seq<seq<byte>> {
    [FirstPacket(f, p, pay)] + Overflow(f, Lower(p, MAX_PAYLOAD_LENGTH), pay, MAX_PAYLOAD_LENGTH)
  }

  /** Every packet of the messages in the two input streams. */
  function Packets(f: Flags, params: seq<Parameters>, d: seq<Beat>): seq<seq<byte>> {
    if params == [] || d == [] then []
    else MessagePackets(f, params[0], Payload(d)) + Packets(f, params[1..], Rest(d))
  }

  // ---- Beats --------------------------------------------------------------

  /** An output beat, reduced to what a receiver looks at. */
  datatype Flit = Flit(bytes: seq<byte>, last: bool)

  function Chop(packet: seq<byte>): (r: seq<Flit>)
    ensures r != []
  {
    if |packet| <= BEAT then [Flit(packet, true)]
    else [Flit(packet[..BEAT], false)] + Chop(packet[BEAT..])
  }

  function ChopAll(packets: seq<seq<byte>>): seq<Flit> {
    if packets == [] then [] else Chop(packets[0]) + ChopAll(packets[1..])
  }

  /** The canonical output of the packetizer. */
  function Frame(f: Flags, params: seq<Parameters>, d: seq<Beat>): seq<Flit> {
    ChopAll(Packets(f, params, d))
  }
}
