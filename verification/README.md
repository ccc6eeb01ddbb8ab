# Verified models of the XVC server, the RoCE packetizer and the page pinner

Three components of the repository hold protocol or bookkeeping logic that is easy to get
subtly wrong. This project models each of them in Dafny, in the form the original has
(classes whose fields are updated in place, loops over buffers and registers), ties that
form to a specification that does not mention the code's state, and proves the laws the
component exists for. `dafny verify dfyconfig.toml` checks everything.

**The RoCE packetizer** (`write_core`) puts a 28-byte or a 12-byte header in front of a
stream of 64-byte beats, so that everything behind the header is misaligned and a remainder
travels in registers from beat to beat, while long messages are cut into packets of 1280
payload bytes.

- `RoceFraming` says what the output should be, without a state machine: messages, packets,
  beats. `RocePlan` is that framing read as a debt that is paid one beat at a time.
- `RoceCore` is one call of the core on its registers; `RoceRefinement` shows, stage by
  stage, that a call which fires pays exactly one beat of the debt; `RoceRuns` lifts this to
  all runs under all stalls.
- `RoceReceiver` is an independent receiver, `RoceTheorems` the frame/deframe theorem,
  `RoceShape` the sizes, lengths and opcodes, `RoceMessages` how many calls a message takes,
  `RoceWire` the bytes of every packet and what a call waits for.
- `RoceWriteCore` is the core with registers and streams updated in place.

**The XVC server** parses commands from a TCP stream in a sliding buffer, batches its
replies, and shifts JTAG vectors through a debug bridge 32 bits at a time.

- `LittleEndian` is the byte codec. `XvcProtocol` is the wire format: parser, client-side
  encoder, round trips. `XvcSession` says what is sent when, `XvcCuts` which
  streams are answered alike however they are cut, `XvcReplies` what the reply buffer does
  to that and which batches stay inside it. `XvcServer` is the connection loop on its buffers.
- `Jtag` compares word shifting with bit-serial clocking; `XvcAxi` is the splitter on the
  bridge's registers with its bounded polling; `XvcEndToEnd` joins the two halves.

**The page pinner and the DMA chain.** A kernel driver pins a user buffer and describes it
as a scatter list; user code searches that list to turn addresses around, and uses it to
write a linked chain of DMA descriptors.

- `PinnerScatter` is the scatter list and the search. `AxiDmaChain` is the chain, written
  word by word through virtual addresses and followed by the engine through physical ones.
- `PinnerLedger` is the driver's bookkeeping as a state machine over signed page-reference
  counts, `PinnerHandles` what a handle is good for over a run, and `PinnerDriver` the
  driver's code over its lists, which performs the steps.

`Bytes` holds the machine integers.

## Where the code differs from what is said about it

- The opcode of a message's last packet is wrong exactly when the true size is a multiple of
  1280: the comparison at hls_stuff/hls_startup_tutorial.txt:446 and 592 is strict, though a
  packet of 1280 bytes is not followed by another. `RoceShape.OpcodesProper` has the exact
  condition and `RoceShape.FullPacketMarkedFirst` an instance.
- The comments on opcodes 7 and 8 at hls_stuff/hls_startup_tutorial.txt:594 and 599 are
  swapped, and those on the end of a beat speak of 27 bytes where 28 are carried over. The
  model follows the code, which agrees with section 9.2.1 of the InfiniBand Architecture
  Specification, Volume 1, in the meaning of 7 and 8.
- The reply buffer of the XVC server is not checked against what a batch writes. With up to
  669 getinfo commands a batch stays inside it if and only if no shift has more than
  0xFFFFFFF8 bits (`XvcReplies.FitsExactly`). For those lengths the 32-bit byte count wraps to
  0, so that the length check passes and nothing is set aside for what the handler writes
  (`XvcReplies.WrappedShift`); with 670 getinfo commands some batches do not fit either
  (`XvcReplies.RepliesFit`).
- A shift that times out leaves in its reply what an earlier reply left in the buffer, so
  that the answer to a well-formed stream then depends on the cut
  (`XvcReplies.TimeoutDependsOnCut`).
- The replies of a batch that ends in a protocol error are never sent. What a client of a
  malformed stream has received therefore depends on how TCP cut it, unless no command in
  front of the error has a reply (`XvcCuts.CutIndependentExactly`) or, the receive buffer
  being what it is, none of them can be in it together with the error
  (`XvcCuts.BufferedIndependentExactly`). Handler calls never depend on the cut.
- A failing pin does not always give back what it took. When fewer pages than asked for were
  pinned, the error path at mpsoc_programming/drivers/pinner/pinner.c:278-281 puts all slots
  of the page array, the unpinned ones included; when the scatter list cannot be allocated,
  line 276 looks for the pages in that list and puts none. Every other failure restores every
  count (`PinnerLedger.FailedPinRestores`), and `PinnerLedger.LedgerExact` says how far off
  the references are after any run.
- `write_physlist_sg` states that the descriptor buffer must be physically contiguous.
  Because each next pointer is looked up, alignment to 128 bytes is enough
  (`AxiDmaChain.AlignedIsSeparated`).
- The fields of `struct pinning` in mpsoc_programming/drivers/pinner/pinner_private.h are
  out of date; the model takes them from their uses in `pinner.c`.

## Model

| member | source | states |
|---|---|---|
| `RoceTheorems.FrameDeframe` | hls_stuff/hls_startup_tutorial.txt:438-683 | For every list of messages and every pattern of stalls with enough ready calls, a receiver that looks only at kept bytes, `last` and opcodes gets back exactly the messages sent: parameters and payload, in order, nothing lost, repeated or leaked from one message into the next |
| `RoceRuns.RunFrames` | hls_stuff/hls_startup_tutorial.txt:438-683 | Safety over every run from reset: the beats emitted so far followed by the beats the state still owes are the canonical framing of the two input streams, so the output is always a prefix of it |
| `RoceRuns.RunRefines` | hls_stuff/hls_startup_tutorial.txt:438-683 | The same from any state that satisfies the invariant: no run undoes output, changes emitted + owed, or leaves the invariant |
| `RoceRuns.StepRefines` | hls_stuff/hls_startup_tutorial.txt:438-683 | A call either changes nothing or emits exactly the first beat owed; it fires exactly when the stage's guard allows |
| `RoceRuns.RunFinishes` | hls_stuff/hls_startup_tutorial.txt:441-671 | Progress: as many calls with all streams ready as there are beats owed pay all of them, whatever stalls lie between |
| `RoceRuns.CompleteRun` | hls_stuff/hls_startup_tutorial.txt:438-683 | With that many ready calls from reset the output is the whole framing |
| `RoceRuns.StallsOnlyDelay` | hls_stuff/hls_startup_tutorial.txt:441-671 | A run under any stalls ends in the very state, register by register, that unstalled streams reach in as many calls as beats were emitted |
| `RoceRuns.StallInsensitive` | hls_stuff/hls_startup_tutorial.txt:441-671 | Two runs that emitted equally many beats are in the same state, however each was stalled |
| `RoceRuns.OutputKeepsLeading` | hls_stuff/hls_startup_tutorial.txt:472-667 | Every non-last output beat has all 64 keep bits; every last one keeps a non-empty leading run |
| `RoceRuns.DoNotReadMeans` | hls_stuff/hls_startup_tutorial.txt:474-619 | Outside the waiting stage `do_not_read` holds exactly when the last beat read ended its message, and then only in the two WRITE stages |
| `RoceRuns.ReadyFires` | hls_stuff/hls_startup_tutorial.txt:441-671 | No deadlock: a state that owes a beat fires when its streams are ready |
| `RoceRefinement.WaitingFires` | hls_stuff/hls_startup_tutorial.txt:440-498 | The first stage opens a message's first packet: 28 header bytes, 36 payload bytes, 28 carried over |
| `RoceRefinement.Write28Fires` | hls_stuff/hls_startup_tutorial.txt:499-555 | After a 28-byte header each beat joins the 28 bytes carried over with 36 new ones, and the packet is closed on its 20th input beat or at the message's end |
| `RoceRefinement.Flush28Fires` | hls_stuff/hls_startup_tutorial.txt:502-525 | Once the message was read, the carried bytes go out as the last beat and nothing of the next message is touched |
| `RoceRefinement.Close28Fires` | hls_stuff/hls_startup_tutorial.txt:556-569 | A full first packet is closed with the carried bytes and the rest of the message is still owed |
| `RoceRefinement.NextFires` | hls_stuff/hls_startup_tutorial.txt:570-622 | A continuation packet opens with a 12-byte header and 52 payload bytes; the stale upper lanes of the carry registers never show |
| `RoceRefinement.Write12Fires` | hls_stuff/hls_startup_tutorial.txt:623-669 | After a 12-byte header each beat joins the 12 bytes carried over with 52 new ones, with the same closing rules |
| `RoceRefinement.Flush12Fires` | hls_stuff/hls_startup_tutorial.txt:628-646 | As `Flush28Fires`, in a continuation packet |
| `RoceRefinement.Close12Fires` | hls_stuff/hls_startup_tutorial.txt:670-682 | As `Close28Fires`, for a full continuation packet |
| `RocePlan.ReadOwes` | hls_stuff/hls_startup_tutorial.txt:512-546 | Taking one input beat into a packet under construction pays exactly the first of the beats owed, for each of the three ways the packet can go on |
| `RocePlan.OpenOwes` | hls_stuff/hls_startup_tutorial.txt:441-496 | Opening a message does not change what is owed |
| `RocePlan.CloseOwes` | hls_stuff/hls_startup_tutorial.txt:534-568 | Ending a full packet and opening the continuation does not change what is owed |
| `RoceReceiver.FrameRoundTrip` | hls_stuff/hls_startup_tutorial.txt:438-683 | Deframing the canonical framing gives back every message and its parameters |
| `RoceReceiver.HeaderRoundTrip` | hls_stuff/hls_startup_tutorial.txt:446-469 | Queue, sequence number, password and length are read back from a first packet's two headers (InfiniBand Volume 1, sections 9.2 and 9.3.3), and the payload starts behind 28 bytes |
| `RoceReceiver.MessageRoundTrip` | hls_stuff/hls_startup_tutorial.txt:440-683 | One message's packets, whatever follows them, are reassembled to that message |
| `RoceWire.PacketHeader` | hls_stuff/hls_startup_tutorial.txt:446-601 | Every byte of the twelve-byte header of every packet, first or continuation: opcode 10, 6, 8 or 7 by what is left of the length parameter in 32 bits; flags, version, partition and congestion in their bits, the unnamed bits zero; the queue and the sequence number of the message (InfiniBand Volume 1, section 9.2) |
| `RoceWire.FirstPacketHeader` | hls_stuff/hls_startup_tutorial.txt:463-469 | The sixteen bytes that only a first packet has: address zero, key, length (section 9.3.3) |
| `RoceWire.PacketPayload` | hls_stuff/hls_startup_tutorial.txt:438-683 | Behind its header packet k has exactly the bytes 1280k to 1280(k+1) of the message, the last one what is left |
| `RoceWire.FrontMessage` | hls_stuff/hls_startup_tutorial.txt:440-546 | What the two input streams mean: the first message has the first parameters and the kept bytes of the beats up to the first `last`, in order, and the later ones are those of what is behind |
| `RoceWire.MessageCount` | hls_stuff/hls_startup_tutorial.txt:440-546 | There are as many messages as both streams have |
| `RoceWire.EveryMessageHasBeats` | hls_stuff/hls_startup_tutorial.txt:381-386 | Every non-empty byte string can be sent, so that the round trip is about all messages |
| `RoceWire.EmitsExactly` | hls_stuff/hls_startup_tutorial.txt:441-671 | What a call waits for, stage by stage: it emits one beat exactly when the output has room and its inputs are there, and otherwise changes nothing |
| `RoceWire.StallsHold` | hls_stuff/hls_startup_tutorial.txt:441-671 | A full output stops every stage; a stalled input stream is not read |
| `RoceWire.BehindRemainderZero` | hls_stuff/hls_startup_tutorial.txt:504-646 | The lanes behind a remainder that is sent alone are zero, so nothing of an earlier beat leaves with it |
| `RoceShape.MessagePacketAt` | hls_stuff/hls_startup_tutorial.txt:570-683 | Packet k carries payload bytes 1280k to 1280(k+1) behind the header for k, and there are ceil(n/1280) packets |
| `RoceShape.PacketCutting` | hls_stuff/hls_startup_tutorial.txt:370-372 | Every packet but a message's last carries exactly 20 beats' worth of payload; none exceeds 1308 bytes, or 1292 as a continuation, so none reaches 1344 |
| `RoceShape.ChopShape` | hls_stuff/hls_startup_tutorial.txt:519-567 | A packet is sent as full beats with `last` clear and one non-empty last beat |
| `RoceShape.ChopBytes` | hls_stuff/hls_startup_tutorial.txt:512-567 | Beat i of a packet carries its bytes from 64i on |
| `RoceShape.BeatsPerPacket` | hls_stuff/hls_startup_tutorial.txt:534-568 | At most 21 beats for each packet, exactly 21 for each but a message's last |
| `RoceShape.FiringsPerMessage` | hls_stuff/hls_startup_tutorial.txt:438-683 | The packets of a message of n bytes are at most 21*ceil(n/1280) beats |
| `RoceMessages.MessageTakes` | hls_stuff/hls_startup_tutorial.txt:438-683 | On runs, under any stalls: from a state between messages, the message in front is over after exactly as many firing calls as it has beats, not before, all of it and nothing else has been read, and that is at most 21*ceil(n/1280) calls |
| `RoceMessages.MessageEmits` | hls_stuff/hls_startup_tutorial.txt:438-683 | What those calls emit is exactly that message's packets, beat by beat |
| `RoceShape.TrackedLength` | hls_stuff/hls_startup_tutorial.txt:514-673 | When the length parameter is the true size, the tracked length at the start of packet k is what is left, with no wrap-around |
| `RoceShape.OpcodesProper` | hls_stuff/hls_startup_tutorial.txt:446-601 | With the true size given, all packets have their proper RDMA WRITE opcode (InfiniBand Volume 1, section 9.2.1) if and only if the size is not a multiple of 1280 |
| `RoceShape.OpcodeAt` | hls_stuff/hls_startup_tutorial.txt:446-601 | Packet by packet: the only wrong opcode is that of the last packet of a message whose size is a multiple of 1280 |
| `RoceShape.FullPacketMarkedFirst` | hls_stuff/hls_startup_tutorial.txt:446-454 | The concrete failure: a message of 1280 bytes is one packet marked as the first of several |
| `RoceWriteCore.WriteCore.Call` | hls_stuff/hls_startup_tutorial.txt:409-684 | One clocked call, registers and streams updated in place, is one step of the state machine above; a full output leaves the whole core as it was, a stalled input its stream |
| `RoceWriteCore.WriteCore.Waiting` | hls_stuff/hls_startup_tutorial.txt:440-498 | The waiting stage in place; a stalled stream leaves everything unread |
| `RoceWriteCore.WriteCore.Write28` | hls_stuff/hls_startup_tutorial.txt:499-555 | The 28-byte write stage in place, `do_not_read` branch included |
| `RoceWriteCore.WriteCore.Last28` | hls_stuff/hls_startup_tutorial.txt:556-569 | The closing beat of a first packet |
| `RoceWriteCore.WriteCore.Next` | hls_stuff/hls_startup_tutorial.txt:570-622 | The stage that opens a continuation; only the low 12 lanes of the carry registers are written |
| `RoceWriteCore.WriteCore.Write12` | hls_stuff/hls_startup_tutorial.txt:623-669 | The 12-byte write stage in place |
| `RoceWriteCore.WriteCore.Last12` | hls_stuff/hls_startup_tutorial.txt:670-682 | The closing beat of a continuation |
| `LittleEndian.PutGet` | mpsoc_programming/xvcserver/xvcserver_axi/src/xvc_server.c:105-122 | Reading back what was written gives v modulo 256^len, for every length |
| `LittleEndian.GetPut` | mpsoc_programming/xvcserver/xvcserver_axi/src/xvc_server.c:105-122 | Writing back what was read restores the bytes |
| `LittleEndian.FourBytes` | mpsoc_programming/xvcserver/xvcserver_axi/src/xvc_server.c:215-250 | Four-byte fields hold exactly the 32-bit numbers |
| `LittleEndian.GetLeAt` | mpsoc_programming/xvcserver/xvcserver_axi/src/xvc_server.c:105-113 | Byte k of a number has weight 256^k |
| `LittleEndian.FourDigits` | mpsoc_programming/xvcserver/xvcserver_axi/src/xvc_server.c:105-113 | The weights of the four bytes of a field |
| `LittleEndian.GetUintLe` | mpsoc_programming/xvcserver/xvcserver_axi/src/xvc_server.c:105-113 | The shift-in loop, most significant byte first, computes the little-endian number modulo 2^32 |
| `LittleEndian.SetUintLe` | mpsoc_programming/xvcserver/xvcserver_axi/src/xvc_server.c:115-122 | The shift-out loop writes exactly `len` bytes, the number's low ones, and no other byte of the buffer |
| `XvcProtocol.ParseAllAppend` | mpsoc_programming/xvcserver/xvcserver_axi/src/xvc_server.c:167-294 | Parsing can be interrupted after any byte: parsing s + t is parsing s, then the leftover with t, commands, leftover and verdict included |
| `XvcProtocol.ParseOneStable` | mpsoc_programming/xvcserver/xvcserver_axi/src/xvc_server.c:177-265 | Once a command, an error or an oversize shift is recognised, more bytes never change the verdict |
| `XvcProtocol.Verdict` | mpsoc_programming/xvcserver/xvcserver_axi/src/xvc_server.c:177-265 | Each verdict, from the text of the stream: an error if and only if thirty bytes have no colon or the name is not one of the three; the assertion if and only if a shift is longer than 10000 bytes; waiting if and only if name or body is not all there |
| `XvcProtocol.Meaning` | mpsoc_programming/xvcserver/xvcserver_axi/src/xvc_server.c:197-260 | What a complete command says, byte by byte: the period or the bit count from its four bytes, a shift's TMS bytes and then its TDI bytes |
| `XvcProtocol.GotAdvances` | mpsoc_programming/xvcserver/xvcserver_axi/src/xvc_server.c:194-268 | Every parsed command takes at least 8 bytes, so the inner loop ends |
| `XvcProtocol.NeedMoreIsShort` | mpsoc_programming/xvcserver/xvcserver_axi/src/xvc_server.c:186-220 | Whatever waits for more bytes is shorter than the receive buffer |
| `XvcProtocol.RoomToReceive` | mpsoc_programming/xvcserver/xvcserver_axi/src/xvc_server.c:271-291 | After a batch the leftover never fills the buffer, so every `recv` is offered space |
| `XvcProtocol.ParseAllRest` | mpsoc_programming/xvcserver/xvcserver_axi/src/xvc_server.c:177-284 | What a batch leaves is a suffix of the buffer that by itself needs more bytes, or is itself the error |
| `XvcProtocol.RoundTrip` | mpsoc_programming/xvcserver/xvcserver_axi/src/xvc_server.c:177-268 | Any list of commands that a client encodes, followed by any incomplete tail, is parsed to that list and leaves that tail; the assertion on command size is never reached |
| `XvcProtocol.ParseAllEncode` | mpsoc_programming/xvcserver/xvcserver_axi/src/xvc_server.c:177-268 | No byte is dropped or invented: the commands parsed, encoded again, and the leftover are the input |
| `XvcProtocol.EncodeParse` | mpsoc_programming/xvcserver/xvcserver_axi/src/xvc_server.c:197-260 | Each command is read back whatever bytes follow it |
| `XvcProtocol.ParseEncode` | mpsoc_programming/xvcserver/xvcserver_axi/src/xvc_server.c:197-260 | Whatever is parsed is exactly the encoding of the command it was parsed to |
| `XvcProtocol.UniquelyDecodable` | mpsoc_programming/xvcserver/xvcserver_axi/src/xvc_server.c:177-268 | Two command lists with the same encoding are equal |
| `XvcProtocol.ShiftBytesExact` | mpsoc_programming/xvcserver/xvcserver_axi/src/xvc_server.c:216 | The byte count of a shift is ceil(bits/8) if and only if bits <= 0xFFFFFFF8; above that the 32-bit sum wraps |
| `XvcSession.SegmentationIndependent` | mpsoc_programming/xvcserver/xvcserver_axi/src/xvc_server.c:167-299 | For any two ways `recv` cuts one stream: the same handler calls in the same order, the same device state and verdict; the same bytes sent if the stream is well formed, and one a prefix of the other if it is not. Replies are those of a buffer of zeros; `XvcReplies.BufferIndependent` says when the real buffer gives them |
| `XvcSession.ServeAgrees` | mpsoc_programming/xvcserver/xvcserver_axi/src/xvc_server.c:167-299 | Against the one-shot reference: the same calls, state and verdict, and the bytes sent are equal, or a prefix after a protocol error (replies as in `SegmentationIndependent`) |
| `XvcSession.ErrorWithholdsReplies` | mpsoc_programming/xvcserver/xvcserver_axi/src/xvc_server.c:263-299 | One stream cut in two ways: of a getinfo in front of any protocol error the reply is withheld when both arrive together and sent in full when the cut lies between them |
| `XvcSession.UnknownNameDepends` | mpsoc_programming/xvcserver/xvcserver_axi/src/xvc_server.c:263-299 | The same for the bytes `x:`, a real unknown name |
| `XvcCuts.CutIndependentExactly` | mpsoc_programming/xvcserver/xvcserver_axi/src/xvc_server.c:167-299 | For every stream: all ways of cutting it send the same bytes if and only if it is well formed or no command in front of its error has a reply (replies as in `XvcSession.SegmentationIndependent`; sessions whose shifts complete) |
| `XvcCuts.BufferedIndependentExactly` | mpsoc_programming/xvcserver/xvcserver_axi/src/xvc_server.c:167-299 | The same over the cuts that the receive buffer allows: all of them send the same bytes if and only if the stream is well formed or a command with a reply, all behind it and enough of the error to recognise it never fit the 10000 bytes together (replies as in `XvcSession.SegmentationIndependent`; sessions whose shifts complete) |
| `XvcCuts.AllSent` | mpsoc_programming/xvcserver/xvcserver_axi/src/xvc_server.c:167-299 | In that case every such cut sends all the replies in front of the error (replies as in `XvcSession.SegmentationIndependent`; sessions whose shifts complete) |
| `XvcCuts.Withholds` | mpsoc_programming/xvcserver/xvcserver_axi/src/xvc_server.c:271-299 | Otherwise there is a cut that fits the buffer and loses replies (replies as in `XvcSession.SegmentationIndependent`; sessions whose shifts complete) |
| `XvcCuts.ByteByByte` | mpsoc_programming/xvcserver/xvcserver_axi/src/xvc_server.c:167-299 | Arriving byte by byte, every stream has all its replies sent (replies as in `XvcSession.SegmentationIndependent`; sessions whose shifts complete) |
| `XvcSession.ClientServed` | mpsoc_programming/xvcserver/xvcserver_axi/src/xvc_server.c:157-295 | A well-formed stream is answered in full, however it was cut, and its incomplete tail is kept |
| `XvcSession.InfoReplyText` | mpsoc_programming/xvcserver/xvcserver_axi/src/xvc_server.c:197-201 | The 21 bytes that answer getinfo spell xvcServer_v1.0:10000 and a line feed |
| `XvcReplies.BufferIndependent` | mpsoc_programming/xvcserver/xvcserver_axi/src/xvc_server.c:44-299 | With the reply buffer as it is, fixed in size and never cleared, and whatever it holds at first: two ways of cutting one stream give the same calls, device and verdict always, and the same bytes sent, up to replies withheld by an error, when in both sessions every shift completes and writes inside the buffer |
| `XvcReplies.ServedAlike` | mpsoc_programming/xvcserver/xvcserver_axi/src/xvc_server.c:44-299 | The real buffer never changes calls, device, leftover or verdict, and a session whose shifts complete inside it sends exactly the replies of the specification |
| `XvcReplies.RespondsAlike` | mpsoc_programming/xvcserver/xvcserver_axi/src/xvc_server.c:176-261 | Commands that complete inside the buffer leave their replies there, in order, behind the earlier ones |
| `XvcReplies.TimeoutDependsOnCut` | mpsoc_programming/xvcserver/xvcserver_axi/src/xvc_server.c:227-233 | The condition is needed: when a shift times out, its reply is what an earlier one left there, and a well-formed stream of a settck and a shift is answered differently in one piece and in two |
| `XvcReplies.ReplyLength` | mpsoc_programming/xvcserver/xvcserver_axi/src/xvc_server.c:197-260 | A batch's reply is as long as the sum over its commands, whatever the handlers write: 21 for getinfo, 4 for settck, the server's byte count for shift |
| `XvcReplies.ReplyBound` | mpsoc_programming/xvcserver/xvcserver_axi/src/xvc_server.c:197-260 | Reply length against input length and the number of getinfo commands |
| `XvcReplies.FitsExactly` | mpsoc_programming/xvcserver/xvcserver_axi/src/xvc_server.c:48-261 | With up to 669 getinfo commands, what a batch that fits the receive buffer writes stays inside the 16384-byte reply buffer if and only if no shift has more than 0xFFFFFFF8 bits; the terminating NUL and all bytes that the handler writes are counted |
| `XvcReplies.RepliesFit` | mpsoc_programming/xvcserver/xvcserver_axi/src/xvc_server.c:48-261 | All batches without such a shift and with at most g getinfo commands stay inside it if and only if g <= 669 |
| `XvcReplies.WrappedShift` | mpsoc_programming/xvcserver/xvcserver_axi/src/xvc_server.c:215-233 | The concrete failure, without any getinfo: the ten bytes of a shift of 0xFFFFFFF9 bits are accepted, no reply byte is set aside, and the handler writes past the buffer |
| `XvcReplies.BatchFitsExactly` | mpsoc_programming/xvcserver/xvcserver_axi/src/xvc_server.c:173-269 | The same if-and-only-if for what a batch really writes, for every handler that writes one byte for every eight bits begun |
| `XvcReplies.BatchFits` | mpsoc_programming/xvcserver/xvcserver_axi/src/xvc_server.c:173-269 | Handlers that may stop early stay inside the buffer as well when no byte count wraps |
| `XvcReplies.SessionClean` | mpsoc_programming/xvcserver/xvcserver_axi/src/xvc_server.c:157-299 | In whatever pieces the receive buffer let it arrive, a session of such handlers without a wrapped byte count and with at most 669 getinfo commands completes inside the buffer |
| `XvcServer.XvcClient.ReadPacket` | mpsoc_programming/xvcserver/xvcserver_axi/src/xvc_server.c:157-299 | The whole connection loop on its three buffers: for whatever pieces `recv` returned and whatever the reply buffer held, bytes sent, calls, device and verdict are those of the specification with that buffer, and those of the plain session when it is clean; every piece fitted the receive buffer, every byte is accounted for, and without an error everything the peer sends is read |
| `XvcServer.XvcClient.RunBatch` | mpsoc_programming/xvcserver/xvcserver_axi/src/xvc_server.c:173-269 | The inner loop executes exactly the commands in the buffer, stops at the leftover, and leaves the reply buffer as specified; for handlers that write one byte for every eight bits begun, and up to 669 getinfo commands, all of it was inside the buffer if and only if no byte count wrapped |
| `XvcServer.XvcClient.Perform` | mpsoc_programming/xvcserver/xvcserver_axi/src/xvc_server.c:197-261 | Each command writes where the replies so far end and goes on by what was set aside for it |
| `XvcServer.XvcClient.StoreReply` | mpsoc_programming/xvcserver/xvcserver_axi/src/xvc_server.c:198-258 | Writing in place changes just those bytes of the reply buffer |
| `XvcServer.XvcClient.NextCommand` | mpsoc_programming/xvcserver/xvcserver_axi/src/xvc_server.c:178-265 | The colon scan and the branches on the name, on the live buffer, agree with the parser |
| `XvcServer.XvcClient.ShiftCommand` | mpsoc_programming/xvcserver/xvcserver_axi/src/xvc_server.c:204-234 | The length check, the size assertion and the two vectors of a shift |
| `XvcServer.XvcClient.SetTckCommand` | mpsoc_programming/xvcserver/xvcserver_axi/src/xvc_server.c:242-260 | The length check and the period of a settck |
| `XvcServer.XvcClient.Turn` | mpsoc_programming/xvcserver/xvcserver_axi/src/xvc_server.c:271-285 | A batch's replies are sent from the reply buffer and its bytes consumed, or withheld on an error; afterwards there is room to receive |
| `XvcServer.XvcClient.ConsumePacket` | mpsoc_programming/xvcserver/xvcserver_axi/src/xvc_server.c:129-133 | Moving the leftover to the front keeps it byte for byte |
| `XvcServer.XvcClient.ReceiveMore` | mpsoc_programming/xvcserver/xvcserver_axi/src/xvc_server.c:287-292 | What `recv` returns is appended behind the leftover |
| `XvcServer.XvcClient.ReplyBufSize` | mpsoc_programming/xvcserver/xvcserver_axi/src/xvc_server.c:48-54 | The buffer keeps its contents and gets enough room |
| `XvcServer.XvcClient.DoubleUpTo` | mpsoc_programming/xvcserver/xvcserver_axi/src/xvc_server.c:50-51 | The doubling ends with enough room and less than twice what was asked, from nothing with a power of two; for 10000 that is 16384 |
| `Jtag.WordsRefineSerial` | mpsoc_programming/xvcserver/xvcserver_axi/src/xvc_axi2pl.cpp:66-102 | Shifting 32 bits at a time leaves the chain in the state of clocking all bits one by one, and the first `bits` bits of the result are its outputs, for every number of bits |
| `Jtag.WordRefinesSerial` | mpsoc_programming/xvcserver/xvcserver_axi/src/xvc_axi2pl.cpp:85-100 | The same for one word, a partial one included |
| `Jtag.LoadBits` | mpsoc_programming/xvcserver/xvcserver_axi/src/xvc_axi2pl.cpp:92-93 | A word copied from memory has the bits of the vector, least significant first |
| `Jtag.StoreBits` | mpsoc_programming/xvcserver/xvcserver_axi/src/xvc_axi2pl.cpp:100 | Storing the low bytes of a word keeps its low bits |
| `Jtag.WordBitAt` | mpsoc_programming/xvcserver/xvcserver_axi/src/xvc_axi2pl.cpp:24-27 | Bit i of a word is the one of weight 2^i, set bits being true |
| `Jtag.VectorBitAt` | mpsoc_programming/xvcserver/xvcserver_axi/src/xvc_axi2pl.cpp:92-93 | Bit i of a vector is bit i % 8 of its byte i / 8 |
| `Jtag.HonestBridge` | mpsoc_programming/xvcserver/xvcserver_axi/src/xvc_axi2pl.cpp:24-45 | Every chain has a bridge whose TDO register reports its outputs, so what is assumed of the bridge can be met |
| `Jtag.ClockTrace` | mpsoc_programming/xvcserver/xvcserver_axi/src/xvc_axi2pl.cpp:24-45 | Clocking is one step of the chain for each pair of bits: step i gets bit i of TMS and of TDI and gives bit i of TDO |
| `XvcAxi.XvcAxiioc` | mpsoc_programming/xvcserver/xvcserver_axi/src/xvc_axi2pl.cpp:50-108 | The splitter in place: a bad opcode changes nothing; a request succeeds if and only if no word stays busy for 100 polls, and then the chain is where shifting word by word leaves it and the first ceil(bits/8) bytes of the TDO buffer are the words shifted out (the TDI bytes in bypass), nothing else changed; a timeout leaves exactly the bytes of the words before it; every shift started with that word's length in LENGTH; at most 100 polls for each word |
| `XvcAxi.ShiftVectors` | mpsoc_programming/xvcserver/xvcserver_axi/src/xvc_axi2pl.cpp:66-107 | The loop over the words serves the request, and stops at the first timeout |
| `XvcAxi.ServedMeans` | mpsoc_programming/xvcserver/xvcserver_axi/src/xvc_axi2pl.cpp:66-107 | What a served request has done, from its vectors and the busy times alone: success if and only if no word is busy for 100 polls, otherwise the bytes of the words before the first that is, and no more |
| `XvcAxi.WordSizesAt` | mpsoc_programming/xvcserver/xvcserver_axi/src/xvc_axi2pl.cpp:77-90 | There are ceil(bits/32) words, of 32 bits each but the last, which has what is left |
| `XvcAxi.ShiftBits` | mpsoc_programming/xvcserver/xvcserver_axi/src/xvc_axi2pl.cpp:19-48 | Bounded polling: a timeout is reported exactly when the bridge stays busy for 100 polls, and TDO is read only after completion |
| `XvcAxi.ShiftNext` | mpsoc_programming/xvcserver/xvcserver_axi/src/xvc_axi2pl.cpp:77-102 | One turn of the loop keeps the loop's meaning for the request, or ends it with the timeout outcome |
| `XvcAxi.ShiftOne` | mpsoc_programming/xvcserver/xvcserver_axi/src/xvc_axi2pl.cpp:85-100 | LENGTH is right at the shift though written only when it changes, and only that word's bytes of the TDO buffer change |
| `XvcAxi.StandsNext` | mpsoc_programming/xvcserver/xvcserver_axi/src/xvc_axi2pl.cpp:77-102 | What has been written and what is still to be shifted together stay the target |
| `XvcAxi.EndServed` | mpsoc_programming/xvcserver/xvcserver_axi/src/xvc_axi2pl.cpp:103-107 | After the last word the request is served, bypass copy included |
| `XvcAxi.TimeoutServed` | mpsoc_programming/xvcserver/xvcserver_axi/src/xvc_axi2pl.cpp:95-98 | A timeout at any word is the specified partial outcome |
| `XvcEndToEnd.EndToEnd` | mpsoc_programming/xvcserver/xvcserver_axi/src/xvc_server.c:157-299 | For any command list, cut in any way, each command is answered at its place: getinfo with the greeting, settck with its period in four bytes, a shift with ceil(bits/8) bytes whose first `bits` bits are what clocking its vectors bit by bit puts out, from the state that all earlier shifts leave |
| `XvcEndToEnd.EndToEndInBuffer` | mpsoc_programming/xvcserver/xvcserver_axi/src/xvc_server.c:44-299 | The same for the bytes that leave the real reply buffer, whatever it held before, in every session whose batches stay inside it, and so in every session with at most 669 getinfo commands |
| `XvcEndToEnd.HandlerIsSplitter` | mpsoc_programming/xvcserver/xvcserver_axi/src/xvc_server2axi.c:18-58 | For every 32-bit length, and for vectors with whatever is in memory behind them, the handler the server calls is what a request served by the splitter does to chain and reply when no poll times out |
| `XvcEndToEnd.SplitterIsSerial` | mpsoc_programming/xvcserver/xvcserver_axi/src/xvc_axi2pl.cpp:50-108 | Registers to bits: a request served without a timeout leaves the chain where clocking its vectors one bit at a time leaves it, and the outputs are the first bits of the TDO buffer |
| `XvcEndToEnd.BridgeWritesAll` | mpsoc_programming/xvcserver/xvcserver_axi/src/xvc_axi2pl.cpp:77-102 | The handler writes one byte for every eight bits begun, whatever the server set aside for it |
| `XvcEndToEnd.ExecuteSerial` | mpsoc_programming/xvcserver/xvcserver_axi/src/xvc_server.c:204-240 | The device after a command list is the device after clocking every bit of every shift alone |
| `PinnerScatter.TranslationAgrees` | mpsoc_programming/how_to_use_marcos_drivers/axidma/user_example.c:132-143 | For any start offset and page count, searching the scatter list for byte k of a pinned buffer gives 4096 times the frame that the page table has for that byte, plus its place in the page |
| `PinnerScatter.EntryIs` | mpsoc_programming/drivers/pinner/pinner.c:153-176 | Entry i of a pin is what buffer and page i have in common: its frame, where it starts there, how long it is |
| `PinnerScatter.ListCoversBuffer` | mpsoc_programming/drivers/pinner/pinner.c:153-176 | Every entry is 1 to 4096 bytes long and together they are the buffer's size |
| `PinnerScatter.LookupPastEnd` | mpsoc_programming/how_to_use_marcos_drivers/axidma/user_example.c:141-142 | Behind the end the search gives 0 |
| `PinnerScatter.FillSglist` | mpsoc_programming/drivers/pinner/pinner.c:134-180 | First, middle and last page, filled by index, are the pieces of the buffer that lie in each page; no length goes below zero |
| `PinnerScatter.SendPhyslist` | mpsoc_programming/drivers/pinner/pinner.c:109-112 | The list for user space names each piece's physical address and length, in order |
| `PinnerScatter.VirtToPhys` | mpsoc_programming/how_to_use_marcos_drivers/axidma/user_example.c:132-143 | The search loop that uses up its offset finds the address at that offset of the list |
| `AxiDmaChain.TransferReaches` | mpsoc_programming/how_to_use_marcos_drivers/axidma/user_example.c:151-256 | Pin a buffer, build its chain in another pinned buffer, follow it from the current to the tail descriptor: the engine goes through exactly the physical addresses of the buffer's bytes, in order |
| `AxiDmaChain.ChainCorrect` | mpsoc_programming/how_to_use_marcos_drivers/axidma/user_example.c:151-164 | Following next pointers through memory from curdesc, the engine fetches exactly n descriptors and ends at taildesc, no earlier and no later, whatever the memory held before; the i-th one fetched carries entry i, with SOF only on the first and EOF only on the last |
| `AxiDmaChain.ChainWords` | mpsoc_programming/how_to_use_marcos_drivers/axidma/user_example.c:21-34 | The words in memory once the chain is written: descriptor i lies 128i bytes into its buffer; words 0 and 1 are the address 128 bytes on, words 2 and 3 the entry's, word 6 has its length, bit 26 on the last and bit 27 on the first |
| `AxiDmaChain.FetchWritten` | mpsoc_programming/how_to_use_marcos_drivers/axidma/user_example.c:154-162 | A descriptor stored field by field through virtual addresses is read back through its physical address as written |
| `AxiDmaChain.FetchElsewhere` | mpsoc_programming/how_to_use_marcos_drivers/axidma/user_example.c:154-162 | and its stores do not touch any descriptor that does not overlap it |
| `AxiDmaChain.ControlFields` | mpsoc_programming/how_to_use_marcos_drivers/axidma/user_example.c:29-34 | The three bit-field stores into one control word do not disturb each other or the four unnamed bits |
| `AxiDmaChain.ContiguousIsSeparated` | mpsoc_programming/how_to_use_marcos_drivers/axidma/user_example.c:145-150 | A physically contiguous descriptor buffer, as the code assumes, keeps the slots whole and apart |
| `AxiDmaChain.AlignedIsSeparated` | mpsoc_programming/how_to_use_marcos_drivers/axidma/user_example.c:145-155 | A 128-byte aligned buffer over distinct, scattered page frames does so as well: contiguity is sufficient, not needed |
| `AxiDmaChain.Submit` | mpsoc_programming/how_to_use_marcos_drivers/axidma/user_example.c:238-256 | The program's own sequence on memory and registers: afterwards the engine, given only those, goes through the buffer and stops |
| `AxiDmaChain.Ram.WritePhyslistSg` | mpsoc_programming/how_to_use_marcos_drivers/axidma/user_example.c:151-164 | The loop's stores leave memory as the chain specification says, one descriptor for each entry |
| `AxiDmaChain.DmaRegisters.StartTransfer` | mpsoc_programming/how_to_use_marcos_drivers/axidma/user_example.c:248-256 | curdesc and taildesc hold the looked-up addresses of the first and last slot |
| `PinnerLedger.LedgerExact` | mpsoc_programming/drivers/pinner/pinner.c:26-499 | From loading the module on, over every run and any failures: the references to a page are its live scatter entries over all users, plus one for each time a scatter list could not be allocated for it, minus one for each time a short pin put it unpinned; without those two failures they are the live entries exactly |
| `PinnerLedger.StepKeeps` | mpsoc_programming/drivers/pinner/pinner.c:182-416 | An event keeps a balanced ledger balanced if and only if it is not a pin that fails in pinning all pages or in allocating the scatter list |
| `PinnerLedger.FailedPinRestores` | mpsoc_programming/drivers/pinner/pinner.c:220-283 | A failing pin leaves the lists alone, and restores every count if and only if what failed was neither of those two |
| `PinnerLedger.StepExcess` | mpsoc_programming/drivers/pinner/pinner.c:182-499 | Every event changes references and live entries alike, but for its drift |
| `PinnerLedger.PinExcess` | mpsoc_programming/drivers/pinner/pinner.c:213-283 | A pin adds one reference for each page of its buffer when it succeeds, and its drift when it fails |
| `PinnerLedger.PinCodes` | mpsoc_programming/drivers/pinner/pinner.c:198-271 | Which failure gives which code, in order: -22 for a size of no or more than 1024 pages, -12, -11, the mapping's own, and 0 only when nothing failed |
| `PinnerLedger.UnpinCodes` | mpsoc_programming/drivers/pinner/pinner.c:343-372 | An unpin or a flush returns -11 without a handle, 0 if the user's magic and one of its pinnings' magics match, and -22 otherwise |
| `PinnerLedger.DriftIsClean` | mpsoc_programming/drivers/pinner/pinner.c:220-239 | Each of the two failures always leaves some count wrong |
| `PinnerLedger.RunKeeps` | mpsoc_programming/drivers/pinner/pinner.c:182-499 | A run without the two failures keeps a balanced ledger balanced |
| `PinnerLedger.ExitReleasesAll` | mpsoc_programming/drivers/pinner/pinner.c:486-499 | Unloading puts every live entry of whoever still has the device open; what remains is the drift of the run, nothing for a run without the two failures |
| `PinnerLedger.NoUsersNoReferences` | mpsoc_programming/drivers/pinner/pinner.c:408-416 | The same when the last file is closed |
| `PinnerLedger.ReleaseGivesBack` | mpsoc_programming/drivers/pinner/pinner.c:76-88 | A release gives back exactly the user's share; from a balanced ledger what is left is the others' live entries |
| `PinnerLedger.PutsAreHeld` | mpsoc_programming/drivers/pinner/pinner.c:33-64 | From a balanced ledger every page that freeing a pinning puts is held when it is put |
| `PinnerLedger.ShortPinUnderflows` | mpsoc_programming/drivers/pinner/pinner.c:220-226 | A short pin whose unpinned slot points to a page nobody holds makes that page's count negative |
| `PinnerLedger.ShortPinExample` | mpsoc_programming/drivers/pinner/pinner.c:273-281 | One such pin: one byte, no page pinned, a slot that points to page 7, whose count becomes -1 |
| `PinnerLedger.LostListLeaks` | mpsoc_programming/drivers/pinner/pinner.c:236-239 | After a missing scatter list a page stays referenced even when the file has been closed |
| `PinnerLedger.StepDistinct` | mpsoc_programming/drivers/pinner/pinner.c:380-416 | No event makes two entries for one open file |
| `PinnerLedger.FirstMatch` | mpsoc_programming/drivers/pinner/pinner.c:361-367 | The search picks the first pinning in list order |
| `PinnerLedger.OnePerEntry` | mpsoc_programming/drivers/pinner/pinner.c:161-176 | The pages named by a buffer's scatter list are the pages pinned for it, in order |
| `PinnerHandles.UnpinUndoesPin` | mpsoc_programming/drivers/pinner/pinner.c:182-378 | Unpinning with the returned handle restores the lists and every count, even if an older pinning has the same magic |
| `PinnerHandles.HandleAfterAnyRun` | mpsoc_programming/drivers/pinner/pinner.c:182-378 | Over any run of this user and all others in which the pinning stays live, its handle is still accepted, and frees that very pinning if and only if no newer live pinning of the user has the same magic |
| `PinnerHandles.TrackRunSound` | mpsoc_programming/drivers/pinner/pinner.c:182-416 | Followed through every event of a run, a pinning that was not freed is still there, unchanged, with its user's magic |
| `PinnerHandles.FreedExactly` | mpsoc_programming/drivers/pinner/pinner.c:337-416 | A pinning is lost exactly when the module goes, its file is closed, or an unpin has its user's magic and its own and no newer pinning has that |
| `PinnerHandles.HandleSurvivesOthers` | mpsoc_programming/drivers/pinner/pinner.c:182-378 | Pin, any run of the other users, unpin: the user has what it had and exactly the pages of the pin were put |
| `PinnerHandles.UnpinRefused` | mpsoc_programming/drivers/pinner/pinner.c:353-372 | An unpin succeeds if and only if the user's magic and one of its pinnings' magics match, and otherwise changes nothing |
| `PinnerHandles.UsersAreIsolated` | mpsoc_programming/drivers/pinner/pinner.c:182-416 | What one open file does leaves what the others have pinned alone |
| `PinnerDriver.Driver.Write` | mpsoc_programming/drivers/pinner/pinner.c:419-452 | Dispatch by number: 1 is the pin event, 2 the unpin event, and nothing else changes the state, so a buffer stays pinned through a flush; 3 returns what an unpin with that handle would; -22 for a command of the wrong size, -11 when it cannot be copied, -38 for any other number |
| `PinnerDriver.Driver.Pin` | mpsoc_programming/drivers/pinner/pinner.c:182-284 | A pin command is one step of the state machine, list and handle included |
| `PinnerDriver.Driver.DoPin` | mpsoc_programming/drivers/pinner/pinner.c:182-284 | All error paths in place: the references are those of the specification, the list has the new pinning at its head or is as it was, and a failure has restored every count if and only if it was neither a short pin nor a missing scatter list |
| `PinnerDriver.Driver.PinPages` | mpsoc_programming/drivers/pinner/pinner.c:220-283 | From pinning the pages on: a short pin puts every slot of the page array, pinned or not; a missing scatter list puts nothing |
| `PinnerDriver.Driver.CompletePin` | mpsoc_programming/drivers/pinner/pinner.c:240-283 | A failure after the insertion puts the pages through the pinning, which leaves the list |
| `PinnerDriver.Driver.MapAndSend` | mpsoc_programming/drivers/pinner/pinner.c:249-269 | The order in which mapping, list and handle can fail decides the return code |
| `PinnerDriver.Driver.GetUserPages` | mpsoc_programming/drivers/pinner/pinner.c:220 | One reference is taken for each page that could be pinned |
| `PinnerDriver.Driver.PutPageList` | mpsoc_programming/drivers/pinner/pinner.c:26-31 | Every slot of the page array is put once, also after a short pin |
| `PinnerDriver.Driver.PutSglistPages` | mpsoc_programming/drivers/pinner/pinner.c:33-46 | One page is put for each scatter entry, and none when the list is missing |
| `PinnerDriver.Driver.FreePinning` | mpsoc_programming/drivers/pinner/pinner.c:48-64 | One pinning leaves the list and its pages are put |
| `PinnerDriver.Driver.FreePinnings` | mpsoc_programming/drivers/pinner/pinner.c:66-74 | The loop empties the list and puts all the user's pages |
| `PinnerDriver.Driver.FreeProcInfo` | mpsoc_programming/drivers/pinner/pinner.c:76-88 | A user is taken out of the list with all its pages put; the others are as before |
| `PinnerDriver.Driver.Open` | mpsoc_programming/drivers/pinner/pinner.c:380-406 | A new user without pinnings at the head of the list and 0, or no change and -12 |
| `PinnerDriver.Driver.Release` | mpsoc_programming/drivers/pinner/pinner.c:408-416 | Closing a file is one step of the state machine |
| `PinnerDriver.Driver.Exit` | mpsoc_programming/drivers/pinner/pinner.c:486-499 | The loop over all users is the exit step: no user is left and every live entry was put |
| `PinnerDriver.Driver.Unpin` | mpsoc_programming/drivers/pinner/pinner.c:337-378 | An unpin command is one step of the state machine |
| `PinnerDriver.ProcInfo.FindPinning` | mpsoc_programming/drivers/pinner/pinner.c:361-367 | The linear search finds the first match |
| `PinnerDriver.ProcInfo.DoFlush` | mpsoc_programming/drivers/pinner/pinner.c:287-335 | A flush is accepted exactly when an unpin with that handle would be, and changes no list |

## Left out

- RoceFraming.BeatOk: input beats with gaps in `keep`, and empty last beats, are outside the model; the packetizer is for streams whose non-last beats are full and whose last beat keeps 1 to 64 leading bytes.
- RoceWriteCore.Stream: FIFO depth and the clock are not modelled; each call finds each stream ready or stalled, in any pattern.
- RoceFraming.Bth: the packet sequence number is copied into every packet of a message as the code does; its advance is another core's business, and invariant CRCs are added elsewhere.
- XvcServer.Socket: `recv` returns any non-empty part of the peer's stream that fits, and nothing only at its end; `send` writes everything. Failed receives do not occur, because the length that is tested for being negative is unsigned.
- XvcServer.XvcClient: `pending_error` is only ever cleared, so the branches that answer with zeros are dead. The `read_more` jump without a receive is dead as well, since the inner loop ends only when more bytes are needed.
- XvcServer.XvcClient.StoreReply: bytes that the original writes behind the end of the reply buffer are counted (`high`) but what they overwrite is not modelled; nor is sending more than the buffer holds.
- XvcServer.XvcClient.ReadPacket: one connection is served from an empty buffer; the accept loop, URLs, address lookup, logging and timing are not part of the model.
- XvcServer.XvcClient.Perform: handlers are functions of the device's state and the command.
- XvcEndToEnd.HandlerIsSplitter: its requests are served by `XvcAxi.XvcAxiioc` below 2^31 bits; the server's buffer admits fewer than 40000 bits, or lengths above 0xFFFFFFF8.
- XvcEndToEnd.Vector: above 0xFFFFFFF8 bits the original reads past the vectors it was sent; the model takes what it finds there as given.
- XvcAxi.XvcAxiioc: for requests below 2^31 bits; from there on the original's signed bit counter overflows, which C++ leaves undefined, and its byte index would be negative. After a timeout the chain's state is left open, since the hardware may still be shifting, and so is a request to a bridge that is still busy from an earlier one. The TDO buffer is separate from the other two vectors.
- XvcAxi.Registers: the bridge is a deterministic step function with an arbitrary busy time for each shift.
- Jtag.Honest: the bits of the TDO register above the shifted ones are arbitrary.
- PinnerScatter.PageTable: the page size is 4096 and the table does not change while a buffer is pinned.
- PinnerDriver.Driver.PutPageList: after a short pin the unpinned slots hold whatever the allocation left there; the model lets each name some page. Pointers to no page at all are not modelled.
- PinnerDriver.Driver.PinPages: after a failed allocation of the scatter list the original also unmaps the missing list and unlinks a pinning that is in no list, which follows a null pointer. The model has what the ledger would be if the kernel survived that.
- PinnerDriver.Driver.CompletePin: the DMA mapping leaves entries unchanged, as the author intends. The array of page pointers, which the original does not free after a successful pin, is memory outside the ledger.
- PinnerDriver.ProcInfo.DoFlush: cache synchronisation has no effect on lists or references.
- PinnerLedger.FirstMatch: magics are given, not drawn; nothing assumes them distinct.
- PinnerLedger.Enabled: the kernel hands the driver only files that are open, and opens each once. Mutexes and concurrent commands on one file are not modelled.
- AxiDmaChain.Ram: caches are not modelled; the engine reads what was stored.
- AxiDmaChain.Submit: interrupts, the control register and the status words that the engine writes back are not modelled.
- The AXI DMA library, the clock and register pokers, the UIO drivers and the scripts are thin wrappers that would add only easy members.
- The Verilog, Tcl and prose tutorials have no counterpart here other than `write_core`.
