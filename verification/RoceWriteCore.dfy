/** `write_core` as the original has it: registers updated in place, streams read and written. */
module RoceWriteCore {
  import opened Bytes
  import opened RoceFraming
  import opened RoceCore
  import opened RoceWire

  /**
   * An AXI stream.  `queue` is everything that will ever come out of it, or everything
   * that went in; `stalled` is what the next call finds: nothing to read, or no room.
   */
  class Stream<T> {
    var queue: seq<T>
    var stalled: bool

    constructor (queue: seq<T>)
      ensures this.queue == queue && !stalled
    {
      this.queue := queue;
      stalled := false;
    }

    method Empty() returns (empty: bool)
      ensures empty == (stalled || queue == [])
    {
      empty := stalled || queue == [];
    }

    method Full() returns (full: bool)
      ensures full == stalled
    {
      full := stalled;
    }

    method Read() returns (x: T)
      requires !stalled && queue != []
      modifies this`queue
      ensures x == old(queue)[0] && queue == old(queue)[1..]
    {
      x := queue[0];
      queue := queue[1..];
    }

    method Write(x: T)
      requires !stalled
      modifies this`queue
      ensures queue == old(queue) + [x]
    {
      queue := queue + [x];
    }
  }

  class WriteCore {
    const roceFlags: Flags
    const paramIn: Stream<Parameters>
    const dataToWrite: Stream<Beat>
    const payloadOut: Stream<Beat>

    var stage: Stage
    var numOfReads: u8
    var doNotRead: bool
    var paramPerm: Parameters
    var oldData: OldData
    var oldKeep: OldKeep

    ghost predicate Valid() { dataToWrite != payloadOut }

    function Registers(): Regs
      reads this
    {
      Regs(stage, numOfReads, doNotRead, paramPerm, oldData, oldKeep)
    }

    function State(): Core
      reads this, paramIn, dataToWrite, payloadOut
    {
      Core(Registers(), roceFlags, paramIn.queue, dataToWrite.queue, payloadOut.queue)
    }

    function Readiness(): Answers
      reads paramIn, dataToWrite, payloadOut
    {
      Answers(paramIn.stalled, dataToWrite.stalled, payloadOut.stalled)
    }

    constructor (flags: Flags, params: Stream<Parameters>, data: Stream<Beat>, out: Stream<Beat>)
      requires data != out
      ensures Valid() && paramIn == params && dataToWrite == data && payloadOut == out
      ensures State() == Core(Reset(), flags, params.queue, data.queue, out.queue)
      ensures stage.WaitingForParam? && numOfReads == 0 && !doNotRead
      ensures forall i :: 0 <= i < 28 ==> oldData[i] == 0 && !oldKeep[i]
    {
      roceFlags, paramIn, dataToWrite, payloadOut := flags, params, data, out;
      stage, numOfReads, doNotRead := WaitingForParam, 0, false;
      paramPerm, oldData, oldKeep := Parameters(0, 0, 0, 0), Zeros(FIRST_HEADER), Keeps(FIRST_HEADER, false);
    }

    /** One clocked call. */
    method Call()
      requires Valid()
      modifies this, paramIn`queue, dataToWrite`queue, payloadOut`queue
      ensures State() == Step(old(State()), old(Readiness()))
      ensures old(payloadOut.stalled) ==> State() == old(State())
      ensures old(dataToWrite.stalled) ==> dataToWrite.queue == old(dataToWrite.queue)
      ensures old(paramIn.stalled) ==> paramIn.queue == old(paramIn.queue)
    {
      StallsHold(State(), Readiness());
      match stage
      case WaitingForParam => Waiting();
      case WriteDataOffset28 => Write28();
      case SendingLastOfPacket28 => Last28();
      case SendingNextPacket => Next();
      case WriteDataOffset12 => Write12();
      case SendingLastOfPacket12 => Last12();
    }

    method Waiting()
      requires Valid() && stage.WaitingForParam?
      modifies this, paramIn`queue, dataToWrite`queue, payloadOut`queue
      ensures State() == Step(old(State()), old(Readiness()))
    {
      var noParam := paramIn.Empty();
      var noData := dataToWrite.Empty();
      var full := payloadOut.Full();
      if !noParam && !noData && !full {
        var param := paramIn.Read();
        var b := dataToWrite.Read();
        var out := TurnFirst(param, b);
        payloadOut.Write(out);
      }
    }

    /** The registers in that stage, once both words are there. */
    method TurnFirst(param: Parameters, b: Beat) returns (out: Beat)
      requires stage.WaitingForParam?
      modifies this
      ensures out == OutFirst(roceFlags, param, b)
      ensures Registers() == NextFirst(old(Registers()), roceFlags, param, b)
    {
      numOfReads := 2;
      var opcode := if param.length < MAX_PAYLOAD_LENGTH then OP_ONLY else OP_FIRST;
      var data := Bth(opcode, roceFlags, param) + Reth(param) + b.data[..36];
      var keep := Keeps(28, true) + b.keep[..36];
      oldData := b.data[36..];
      oldKeep := b.keep[36..];
      var last;
      if b.last && AllClear(b.keep[36..]) {
        last := true;
        stage := WaitingForParam;
      } else if b.last {
        last := false;
        doNotRead := true;
        stage := WriteDataOffset28;
      } else {
        last := false;
        doNotRead := false;
        stage := WriteDataOffset28;
      }
      out := RawBeat(data, keep, last);
      paramPerm := param;
    }

    /** The word a WRITE stage works on. */
    method ReadWord() returns (b: Beat)
      requires Valid() && (doNotRead || (!dataToWrite.stalled && dataToWrite.queue != []))
      modifies dataToWrite`queue
      ensures b == Word(old(State())) && dataToWrite.queue == Unread(old(State()))
    {
      if doNotRead {
        b := NoData();
      } else {
        b := dataToWrite.Read();
      }
    }

    method Write28()
      requires Valid() && stage.WriteDataOffset28?
      modifies this, paramIn`queue, dataToWrite`queue, payloadOut`queue
      ensures State() == Step(old(State()), old(Readiness()))
    {
      var noData := dataToWrite.Empty();
      var full := payloadOut.Full();
      if (!noData || doNotRead) && !full {
        var b := ReadWord();
        var out := Turn28(b);
        payloadOut.Write(out);
      }
    }

    /** The registers in that stage, once the word is there. */
    method Turn28(b: Beat) returns (out: Beat)
      requires stage.WriteDataOffset28?
      modifies this
      ensures out == Out28(old(Registers()), b) && Registers() == Next28(old(Registers()), b)
    {
      paramPerm := paramPerm.(length := (paramPerm.length - 64) % 0x1_0000_0000);
      var data := oldData + b.data[..36];
      var keep := oldKeep + b.keep[..36];
      var last;
      if doNotRead || (b.last && !b.keep[36]) {
        last := true;
        stage := WaitingForParam;
      } else if b.last {
        last := false;
        doNotRead := true;
        stage := WriteDataOffset28;
      } else if numOfReads >= MAX_NUM_OF_BEATS {
        last := false;
        stage := SendingLastOfPacket28;
      } else {
        last := false;
        doNotRead := false;
        stage := WriteDataOffset28;
      }
      oldKeep := b.keep[36..];
      oldData := b.data[36..];
      out := RawBeat(data, keep, last);
      numOfReads := (numOfReads + 1) % 0x100;
    }

    method Last28()
      requires Valid() && stage.SendingLastOfPacket28?
      modifies this, paramIn`queue, dataToWrite`queue, payloadOut`queue
      ensures State() == Step(old(State()), old(Readiness()))
    {
      var full := payloadOut.Full();
      if !full {
        paramPerm := paramPerm.(length := (paramPerm.length - 64) % 0x1_0000_0000);
        stage := SendingNextPacket;
        payloadOut.Write(RawBeat(oldData + Zeros(36), oldKeep + Keeps(36, false), true));
      }
    }

    method Next()
      requires Valid() && stage.SendingNextPacket?
      modifies this, paramIn`queue, dataToWrite`queue, payloadOut`queue
      ensures State() == Step(old(State()), old(Readiness()))
    {
      var noData := dataToWrite.Empty();
      var full := payloadOut.Full();
      if !noData && !full {
        var b := dataToWrite.Read();
        var out := TurnNext(b);
        payloadOut.Write(out);
      }
    }

    /** The registers in that stage, once the word is there. */
    method TurnNext(b: Beat) returns (out: Beat)
      requires stage.SendingNextPacket?
      modifies this
      ensures out == OutContinued(old(Registers()), roceFlags, b)
      ensures Registers() == NextContinued(old(Registers()), roceFlags, b)
    {
      numOfReads := 2;
      var opcode := if paramPerm.length < MAX_PAYLOAD_LENGTH then OP_LAST else OP_MIDDLE;
      var data := Bth(opcode, roceFlags, paramPerm) + b.data[..52];
      var keep := Keeps(12, true) + b.keep[..52];
      oldData := LowLanes(oldData, b.data[52..]);
      oldKeep := LowLanes(oldKeep, b.keep[52..]);
      var last;
      if b.last && !b.keep[52] {
        last := true;
        stage := WaitingForParam;
      } else if b.last {
        last := false;
        doNotRead := true;
        stage := WriteDataOffset12;
      } else {
        last := false;
        doNotRead := false;
        stage := WriteDataOffset12;
      }
      out := RawBeat(data, keep, last);
    }

    method Write12()
      requires Valid() && stage.WriteDataOffset12?
      modifies this, paramIn`queue, dataToWrite`queue, payloadOut`queue
      ensures State() == Step(old(State()), old(Readiness()))
    {
      var noData := dataToWrite.Empty();
      var full := payloadOut.Full();
      if (!noData || doNotRead) && !full {
        var b := ReadWord();
        var out := Turn12(b);
        payloadOut.Write(out);
      }
    }

    /** The registers in that stage, once the word is there. */
    method Turn12(b: Beat) returns (out: Beat)
      requires stage.WriteDataOffset12?
      modifies this
      ensures out == Out12(old(Registers()), b) && Registers() == Next12(old(Registers()), b)
    {
      paramPerm := paramPerm.(length := (paramPerm.length - 64) % 0x1_0000_0000);
      var data := oldData[16..] + b.data[..52];
      var keep := oldKeep[16..] + b.keep[..52];
      var last;
      if doNotRead || (b.last && AllClear(b.keep[52..])) {
        last := true;
        stage := WaitingForParam;
      } else if b.last {
        last := false;
        doNotRead := true;
        stage := WriteDataOffset12;
      } else if numOfReads >= MAX_NUM_OF_BEATS {
        last := false;
        stage := SendingLastOfPacket12;
      } else {
        last := false;
        doNotRead := false;
        stage := WriteDataOffset12;
      }
      oldKeep := LowLanes(oldKeep, b.keep[52..]);
      oldData := LowLanes(oldData, b.data[52..]);
      out := RawBeat(data, keep, last);
      numOfReads := (numOfReads + 1) % 0x100;
    }

    method Last12()
      requires Valid() && stage.SendingLastOfPacket12?
      modifies this, paramIn`queue, dataToWrite`queue, payloadOut`queue
      ensures State() == Step(old(State()), old(Readiness()))
    {
      var full := payloadOut.Full();
      if !full {
        paramPerm := paramPerm.(length := (paramPerm.length - 64) % 0x1_0000_0000);
        stage := SendingNextPacket;
        payloadOut.Write(RawBeat(oldData[16..] + Zeros(52), oldKeep[16..] + Keeps(52, false), true));
      }
    }
  }
}
