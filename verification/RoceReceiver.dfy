/**
 * The receiving side.  It sees beats only: it gathers them into packets at `last`,
 * tells first packets from continuations by their opcode, strips the headers, and
 * gives back every message with its parameters.
 */
module RoceReceiver {
  import opened Bytes
  import opened RoceFraming

  /** Packets gathered from beats; `acc` is the packet in progress. */
  function Unchop(flits: seq<Flit>, acc: seq<byte>): seq<seq<byte>>
    decreases |flits|
  {
    if flits == [] then []
    else if flits[0].last then [acc + flits[0].bytes] + Unchop(flits[1..], [])
    else Unchop(flits[1..], acc + flits[0].bytes)
  }

  predicate Opens(packet: seq<byte>) {
    packet != [] && (packet[0] == OP_FIRST || packet[0] == OP_ONLY)
  }

  datatype Message = Message(params: Parameters, payload: seq<byte>)

  function Word3(b: seq<byte>): u24
    requires |b| == 3
  {
    var b0: int, b1: int, b2: int := b[0], b[1], b[2];
    b0 * 0x1_0000 + b1 * 0x100 + b2
  }

  function Word4(b: seq<byte>): u32
    requires |b| == 4
  {
    var b0: int, b1: int, b2: int, b3: int := b[0], b[1], b[2], b[3];
    b0 * 0x100_0000 + b1 * 0x1_0000 + b2 * 0x100 + b3
  }

  /** The parameters in the two headers of a first packet. */
  function HeaderParameters(packet: seq<byte>): Parameters {
    if |packet| < FIRST_HEADER then Parameters(0, 0, 0, 0)
    else Parameters(Word3(packet[5..8]), Word3(packet[9..12]), Word4(packet[20..24]), Word4(packet[24..28]))
  }

  /** The payload of the continuation packets in front. */
  function Continuation(packets: seq<seq<byte>>): seq<byte> {
    if packets == [] || Opens(packets[0]) then []
    else Drop(packets[0], NEXT_HEADER) + Continuation(packets[1..])
  }

  function AfterMessage(packets: seq<seq<byte>>): (r: seq<seq<byte>>)
    ensures |r| <= |packets|
  {
    if packets == [] || Opens(packets[0]) then packets else AfterMessage(packets[1..])
  }

  function Reassemble(packets: seq<seq<byte>>): seq<Message>
    decreases |packets|
  {
    if packets == [] then []
    else [Message(HeaderParameters(packets[0]), Drop(packets[0], FIRST_HEADER) + Continuation(packets[1..]))]
         + Reassemble(AfterMessage(packets[1..]))
  }

  function Receive(flits: seq<Flit>): seq<Message> { Reassemble(Unchop(flits, [])) }

  /** The messages a sender put on its two input streams. */
  function Messages(params: seq<Parameters>, d: seq<Beat>): seq<Message> {
    if params == [] || d == [] then []
    else [Message(params[0], Payload(d))] + Messages(params[1..], Rest(d))
  }

  // ---- Beats to packets ---------------------------------------------------

  lemma {:induction false} UnchopChop(packet: seq<byte>, acc: seq<byte>, rest: seq<Flit>)
    ensures Unchop(Chop(packet) + rest, acc) == [acc + packet] + Unchop(rest, [])
    decreases |packet|
  {
    if |packet| <= BEAT {
      UnchopCons(Flit(packet, true), rest, acc);
    } else {
      var head, tail := packet[..BEAT], packet[BEAT..];
      Regroup([Flit(head, false)], Chop(tail), rest);
      UnchopCons(Flit(head, false), Chop(tail) + rest, acc);
      UnchopChop(tail, acc + head, rest);
      Regroup(acc, head, tail);
      assert head + tail == packet;
    }
  }

  lemma UnchopCons(f: Flit, rest: seq<Flit>, acc: seq<byte>)
    ensures Unchop([f] + rest, acc) ==
            if f.last then [acc + f.bytes] + Unchop(rest, []) else Unchop(rest, acc + f.bytes)
  {
    assert ([f] + rest)[1..] == rest;
  }

  lemma {:induction false} UnchopChopAll(packets: seq<seq<byte>>)
    ensures Unchop(ChopAll(packets), []) == packets
  {
    if packets != [] {
      UnchopChop(packets[0], [], ChopAll(packets[1..]));
      UnchopChopAll(packets[1..]);
      assert [] + packets[0] == packets[0];
    }
  }

  // ---- Packets to messages ------------------------------------------------

  lemma Word3RoundTrip(v: u24)
    ensures Word3(Bytes3(v)) == v
  {
  }

  lemma Word4RoundTrip(v: u32)
    ensures Word4(Bytes4(v)) == v
  {
    var hi := v / 0x100;
    var top := hi / 0x100;
    assert v / 0x1_0000 == top && v / 0x100_0000 == top / 0x100;
  }

  lemma HeaderFields(bth: seq<byte>, reth: seq<byte>, pay: seq<byte>)
    requires |bth| == 12 && |reth| == 16
    ensures var packet := bth + reth + pay;
            && packet[5..8] == bth[5..8] && packet[9..12] == bth[9..12]
            && packet[20..24] == reth[8..12] && packet[24..28] == reth[12..16]
            && Drop(packet, FIRST_HEADER) == pay
  {
  }

  lemma HeaderRoundTrip(f: Flags, p: Parameters, pay: seq<byte>)
    ensures HeaderParameters(FirstPacket(f, p, pay)) == p
    ensures Drop(FirstPacket(f, p, pay), FIRST_HEADER) == Take(pay, MAX_PAYLOAD_LENGTH)
  {
    var bth, reth := Bth(FirstOpcode(p.length), f, p), Reth(p);
    HeaderFields(bth, reth, Take(pay, MAX_PAYLOAD_LENGTH));
    assert bth[5..8] == Bytes3(p.destQp) && bth[9..12] == Bytes3(p.packetSequenceNumber);
    assert reth[8..12] == Bytes4(p.password) && reth[12..16] == Bytes4(p.length);
    Word3RoundTrip(p.destQp);
    Word3RoundTrip(p.packetSequenceNumber);
    Word4RoundTrip(p.password);
    Word4RoundTrip(p.length);
  }

  /** Continuation packets give back the payload they carry, whatever comes behind them. */
  lemma {:induction false} ContinuationRoundTrip(f: Flags, p: Parameters, pay: seq<byte>, later: seq<seq<byte>>)
    requires later == [] || Opens(later[0])
    ensures Continuation(NextPackets(f, p, pay) + later) == pay
    ensures AfterMessage(NextPackets(f, p, pay) + later) == later
    decreases |pay|
  {
    var first := Bth(NextOpcode(p.length), f, p) + Take(pay, MAX_PAYLOAD_LENGTH);
    var more := if |pay| <= MAX_PAYLOAD_LENGTH then []
                else NextPackets(f, Lower(p, MAX_PAYLOAD_LENGTH), Drop(pay, MAX_PAYLOAD_LENGTH));
    assert NextPackets(f, p, pay) + later == [first] + (more + later);
    assert (NextPackets(f, p, pay) + later)[1..] == more + later;
    assert Drop(first, NEXT_HEADER) == Take(pay, MAX_PAYLOAD_LENGTH);
    if |pay| <= MAX_PAYLOAD_LENGTH {
      assert more + later == later;
      assert Continuation(later) == [];
    } else {
      ContinuationRoundTrip(f, Lower(p, MAX_PAYLOAD_LENGTH), Drop(pay, MAX_PAYLOAD_LENGTH), later);
    }
  }

  lemma PacketsOpen(f: Flags, params: seq<Parameters>, d: seq<Beat>)
    ensures var ps := Packets(f, params, d); ps == [] || Opens(ps[0])
  {
  }

  lemma OverflowRoundTrip(f: Flags, p: Parameters, pay: seq<byte>, later: seq<seq<byte>>)
    requires later == [] || Opens(later[0])
    ensures Continuation(Overflow(f, p, pay, MAX_PAYLOAD_LENGTH) + later) == Drop(pay, MAX_PAYLOAD_LENGTH)
    ensures AfterMessage(Overflow(f, p, pay, MAX_PAYLOAD_LENGTH) + later) == later
  {
    if |pay| <= MAX_PAYLOAD_LENGTH {
      assert [] + later == later;
    } else {
      ContinuationRoundTrip(f, p, Drop(pay, MAX_PAYLOAD_LENGTH), later);
    }
  }

  lemma MessageRoundTrip(f: Flags, p: Parameters, pay: seq<byte>, later: seq<seq<byte>>)
    requires later == [] || Opens(later[0])
    ensures Reassemble(MessagePackets(f, p, pay) + later) == [Message(p, pay)] + Reassemble(later)
  {
    var first, over := FirstPacket(f, p, pay), Overflow(f, Lower(p, MAX_PAYLOAD_LENGTH), pay, MAX_PAYLOAD_LENGTH);
    var packets := MessagePackets(f, p, pay) + later;
    assert packets[0] == first && packets[1..] == over + later;
    HeaderRoundTrip(f, p, pay);
    OverflowRoundTrip(f, Lower(p, MAX_PAYLOAD_LENGTH), pay, later);
    assert Take(pay, MAX_PAYLOAD_LENGTH) + Drop(pay, MAX_PAYLOAD_LENGTH) == pay;
  }

  lemma {:induction false} ReassembleRoundTrip(f: Flags, params: seq<Parameters>, d: seq<Beat>)
    ensures Reassemble(Packets(f, params, d)) == Messages(params, d)
  {
    if params != [] && d != [] {
      PacketsOpen(f, params[1..], Rest(d));
      MessageRoundTrip(f, params[0], Payload(d), Packets(f, params[1..], Rest(d)));
      ReassembleRoundTrip(f, params[1..], Rest(d));
    }
  }

  /** Framing loses, adds and mixes nothing: the receiver gets exactly the messages sent. */
  lemma FrameRoundTrip(f: Flags, params: seq<Parameters>, d: seq<Beat>)
    ensures Receive(Frame(f, params, d)) == Messages(params, d)
  {
    UnchopChopAll(Packets(f, params, d));
    ReassembleRoundTrip(f, params, d);
  }
}
