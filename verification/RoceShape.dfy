/** How messages are cut: packet sizes, beats per packet, tracked lengths, opcodes. */
module RoceShape {
  import opened Bytes
  import opened RoceFraming

  /** The number of packets that carry `n` payload bytes. */
  function PacketCount(n: nat): nat { (n + MAX_PAYLOAD_LENGTH - 1) / MAX_PAYLOAD_LENGTH }

  /** The payload bytes that belong to packet `k` of a message. */
  function Piece(pay: seq<byte>, k: nat): seq<byte> {
    Take(Drop(pay, MAX_PAYLOAD_LENGTH * k), MAX_PAYLOAD_LENGTH)
  }

  /** The parameters as the core tracks them when it opens packet `k`. */
  function Tracked(p: Parameters, k: nat): Parameters { Lower(p, MAX_PAYLOAD_LENGTH * k) }

  lemma PieceSize(pay: seq<byte>, k: nat)
    requires k < PacketCount(|pay|)
    ensures k + 1 < PacketCount(|pay|) ==> |Piece(pay, k)| == MAX_PAYLOAD_LENGTH
    ensures k + 1 == PacketCount(|pay|) ==> 1 <= |Piece(pay, k)| == |pay| - MAX_PAYLOAD_LENGTH * k <= MAX_PAYLOAD_LENGTH
  {
  }

  lemma PieceShift(pay: seq<byte>, k: nat)
    requires k > 0
    ensures Piece(Drop(pay, MAX_PAYLOAD_LENGTH), k - 1) == Piece(pay, k)
  {
    var n := MAX_PAYLOAD_LENGTH * (k - 1);
    assert n + MAX_PAYLOAD_LENGTH == MAX_PAYLOAD_LENGTH * k;
    assert Drop(Drop(pay, MAX_PAYLOAD_LENGTH), n) == Drop(pay, n + MAX_PAYLOAD_LENGTH);
  }

  /** Packet `k` of a message as a continuation. */
  function NextPacket(f: Flags, p: Parameters, pay: seq<byte>, k: nat): seq<byte> {
    Bth(NextOpcode(Tracked(p, k).length), f, Tracked(p, k)) + Piece(pay, k)
  }

  lemma NextPacketShift(f: Flags, p: Parameters, pay: seq<byte>, k: nat)
    requires k > 0
    ensures NextPacket(f, Lower(p, MAX_PAYLOAD_LENGTH), Drop(pay, MAX_PAYLOAD_LENGTH), k - 1) ==
            NextPacket(f, p, pay, k)
  {
    LowerLower(p, MAX_PAYLOAD_LENGTH, MAX_PAYLOAD_LENGTH * (k - 1));
    PieceShift(pay, k);
  }

  lemma {:induction false} NextPacketAt(f: Flags, p: Parameters, pay: seq<byte>, k: nat)
    requires k < PacketCount(|pay|)
    ensures |NextPackets(f, p, pay)| == PacketCount(|pay|)
    ensures NextPackets(f, p, pay)[k] == NextPacket(f, p, pay, k)
    decreases |pay|
  {
    if |pay| > MAX_PAYLOAD_LENGTH {
      NextPacketAt(f, Lower(p, MAX_PAYLOAD_LENGTH), Drop(pay, MAX_PAYLOAD_LENGTH), if k == 0 then 0 else k - 1);
      if k > 0 {
        NextPacketShift(f, p, pay, k);
      }
    }
  }

  /** The header in front of piece `k`. */
  function HeaderAt(f: Flags, p: Parameters, k: nat): seq<byte> {
    if k == 0 then Bth(FirstOpcode(p.length), f, p) + Reth(p)
    else Bth(NextOpcode(Tracked(p, k).length), f, Tracked(p, k))
  }

  /** A message becomes one packet for each piece, each behind its header. */
  lemma MessagePacketAt(f: Flags, p: Parameters, pay: seq<byte>, k: nat)
    requires k < PacketCount(|pay|)
    ensures |MessagePackets(f, p, pay)| == PacketCount(|pay|)
    ensures MessagePackets(f, p, pay)[k] == HeaderAt(f, p, k) + Piece(pay, k)
  {
    assert Drop(pay, 0) == pay;
    if |pay| > MAX_PAYLOAD_LENGTH {
      NextPacketAt(f, Lower(p, MAX_PAYLOAD_LENGTH), Drop(pay, MAX_PAYLOAD_LENGTH), if k == 0 then 0 else k - 1);
      if k > 0 {
        NextPacketShift(f, p, pay, k);
      }
    }
  }

  /**
   * Every packet but a message's last carries exactly 1280 bytes, which 20 full input
   * beats hold; no packet is longer than 1308 bytes, a continuation not longer than 1292.
   */
  lemma PacketCutting(f: Flags, p: Parameters, pay: seq<byte>, k: nat)
    requires k < |MessagePackets(f, p, pay)| && pay != []
    ensures var header, packet := if k == 0 then 28 else 12, MessagePackets(f, p, pay)[k];
            && (k + 1 < |MessagePackets(f, p, pay)| ==> |packet| == header + 1280 == header + 20 * 64)
            && header < |packet| <= header + 1280 < 1344
  {
    MessagePacketAt(f, p, pay, 0);
    MessagePacketAt(f, p, pay, k);
    PieceSize(pay, k);
  }

  /** A packet is sent in full beats and one last beat, which is not empty. */
  lemma {:induction false} ChopShape(packet: seq<byte>)
    requires packet != []
    ensures var flits := Chop(packet);
            && |flits| == (|packet| + 63) / 64
            && flits[|flits| - 1].last && 1 <= |flits[|flits| - 1].bytes| <= 64
            && forall i :: 0 <= i < |flits| - 1 ==> !flits[i].last && |flits[i].bytes| == 64
    decreases |packet|
  {
    if |packet| > BEAT {
      ChopShape(packet[BEAT..]);
    }
  }

  /** Beat `i` of a packet carries its bytes from 64i on. */
  lemma {:induction false} ChopBytes(packet: seq<byte>, i: nat, from: nat)
    requires from == 64 * i < |packet|
    ensures i < |Chop(packet)|
    ensures Chop(packet)[i].bytes == packet[from..if |packet| < from + 64 then |packet| else from + 64]
    decreases i
  {
    if i > 0 {
      ChopBytes(packet[BEAT..], i - 1, from - 64);
    }
  }

  /** Every packet takes at most 21 beats. */
  lemma BeatsPerPacket(f: Flags, p: Parameters, pay: seq<byte>, k: nat)
    requires k < |MessagePackets(f, p, pay)| && pay != []
    ensures |Chop(MessagePackets(f, p, pay)[k])| <= 21
    ensures k + 1 < |MessagePackets(f, p, pay)| ==> |Chop(MessagePackets(f, p, pay)[k])| == 21
  {
    PacketCutting(f, p, pay, k);
    ChopShape(MessagePackets(f, p, pay)[k]);
  }

  lemma {:induction false} BeatsPerPackets(packets: seq<seq<byte>>, bound: nat)
    requires forall k :: 0 <= k < |packets| ==> |Chop(packets[k])| <= bound
    ensures |ChopAll(packets)| <= bound * |packets|
  {
    if packets != [] {
      BeatsPerPackets(packets[1..], bound);
      assert bound * (1 + |packets[1..]|) == bound + bound * |packets[1..]|;
    }
  }

  /** A message of `n` bytes is over after at most 21 firings for each 1280 bytes. */
  lemma FiringsPerMessage(f: Flags, p: Parameters, pay: seq<byte>)
    requires pay != []
    ensures |ChopAll(MessagePackets(f, p, pay))| <= 21 * PacketCount(|pay|)
  {
    MessagePacketAt(f, p, pay, 0);
    forall k | 0 <= k < |MessagePackets(f, p, pay)|
      ensures |Chop(MessagePackets(f, p, pay)[k])| <= 21
    {
      BeatsPerPacket(f, p, pay, k);
    }
    BeatsPerPackets(MessagePackets(f, p, pay), 21);
  }

  // ---- Opcodes ------------------------------------------------------------

  /** When the length parameter is the true size, the tracked length is what is left. */
  lemma TrackedLength(p: Parameters, pay: seq<byte>, k: nat)
    requires p.length == |pay| && k < PacketCount(|pay|)
    ensures Tracked(p, k).length == |pay| - 1280 * k > 0
  {
  }

  /** The RDMA WRITE opcode that packet `k` of `n` should have. */
  function ProperOpcode(n: nat, k: nat): byte {
    if n == 1 then OP_ONLY
    else if k == 0 then OP_FIRST
    else if k == n - 1 then OP_LAST
    else OP_MIDDLE
  }

  lemma OpcodeAt(f: Flags, p: Parameters, pay: seq<byte>, k: nat)
    requires p.length == |pay| && k < PacketCount(|pay|)
    ensures k < |MessagePackets(f, p, pay)| && MessagePackets(f, p, pay)[k] != []
    ensures MessagePackets(f, p, pay)[k][0] == ProperOpcode(PacketCount(|pay|), k)
            <==> !(k + 1 == PacketCount(|pay|) && |pay| % MAX_PAYLOAD_LENGTH == 0)
  {
    MessagePacketAt(f, p, pay, k);
    HeaderOpcode(f, p, pay, k);
    LeftAt(|pay|, k);
  }

  /** What is left at packet `k`, by whether it is the last one and full. */
  lemma LeftAt(n: nat, k: nat)
    requires k < PacketCount(n)
    ensures n - 1280 * k < 1280 <==> k + 1 == PacketCount(n) && n % 1280 != 0
    ensures n - 1280 * k == 1280 <==> k + 1 == PacketCount(n) && n % 1280 == 0
  {
    var left := n - 1280 * k;
    assert (1280 * k + left + 1279) / 1280 == k + (left + 1279) / 1280;
    assert (1280 * k + left) % 1280 == left % 1280;
  }

  /** The opcode in front of piece `k`, by what is left of the message. */
  lemma HeaderOpcode(f: Flags, p: Parameters, pay: seq<byte>, k: nat)
    requires p.length == |pay| && k < PacketCount(|pay|)
    ensures var left := |pay| - MAX_PAYLOAD_LENGTH * k;
            HeaderAt(f, p, k) != [] && HeaderAt(f, p, k)[0] ==
            if k == 0 then (if left < MAX_PAYLOAD_LENGTH then OP_ONLY else OP_FIRST)
            else (if left < MAX_PAYLOAD_LENGTH then OP_LAST else OP_MIDDLE)
  {
    TrackedLength(p, pay, k);
  }

  /**
   * With the true size in the length parameter, every packet has its proper opcode if and
   * only if the size is not a multiple of 1280; otherwise the last packet is marked as if
   * more were to come.
   */
  lemma OpcodesProper(f: Flags, p: Parameters, pay: seq<byte>)
    requires p.length == |pay| && pay != []
    ensures |MessagePackets(f, p, pay)| == PacketCount(|pay|)
    ensures (forall k :: 0 <= k < PacketCount(|pay|) ==>
               MessagePackets(f, p, pay)[k] != []
               && MessagePackets(f, p, pay)[k][0] == ProperOpcode(PacketCount(|pay|), k))
            <==> |pay| % 1280 != 0
  {
    var n := PacketCount(|pay|);
    MessagePacketAt(f, p, pay, n - 1);
    OpcodeAt(f, p, pay, n - 1);
    forall k | 0 <= k < n
      ensures k < |MessagePackets(f, p, pay)| && MessagePackets(f, p, pay)[k] != []
      ensures MessagePackets(f, p, pay)[k][0] == ProperOpcode(n, k)
              <==> !(k + 1 == n && |pay| % MAX_PAYLOAD_LENGTH == 0)
    {
      OpcodeAt(f, p, pay, k);
    }
  }

  /** A message of exactly one full packet is announced as the first of several. */
  lemma FullPacketMarkedFirst(f: Flags, p: Parameters, pay: seq<byte>)
    requires |pay| == 1280 && p.length == 1280
    ensures MessagePackets(f, p, pay) == [FirstPacket(f, p, pay)] && FirstPacket(f, p, pay)[0] == OP_FIRST
  {
  }
}
