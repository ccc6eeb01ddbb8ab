/**
 * One call of the packetizer as a function on its registers and streams, and the
 * proof that a call that fires emits exactly the next beat of the framing.
 */
module RoceCore {
  import opened Bytes
  import opened RoceFraming
  import opened RocePlan

  datatype Stage =
    | WaitingForParam
    | WriteDataOffset28
    | SendingLastOfPacket28
    | SendingNextPacket
    | WriteDataOffset12
    | SendingLastOfPacket12

  type OldData = s: seq<byte> | |s| == FIRST_HEADER witness seq(FIRST_HEADER, _ => 0)
  type OldKeep = s: seq<bool> | |s| == FIRST_HEADER witness seq(FIRST_HEADER, _ => false)

  /** The static variables of the core. */
  datatype Regs = Regs(stage: Stage, numOfReads: u8, doNotRead: bool, paramPerm: Parameters,
                       oldData: OldData, oldKeep: OldKeep)

  /** The core, what is still to arrive on its inputs, and what it has emitted. */
  datatype Core = Core(regs: Regs, flags: Flags, paramIn: seq<Parameters>, dataToWrite: seq<Beat>,
                       payloadOut: seq<Beat>)

  /**
   * How the streams answer in one call.  An input that has not arrived yet, and one
   * that never will, both answer "empty".
   */
  datatype Answers = Answers(paramStalled: bool, dataStalled: bool, outFull: bool)

  const READY := Answers(false, false, false)

  predicate ParamEmpty(c: Core, a: Answers) { a.paramStalled || c.paramIn == [] }

  predicate DataEmpty(c: Core, a: Answers) { a.dataStalled || c.dataToWrite == [] }

  predicate Fires(c: Core, a: Answers) {
    !a.outFull &&
    match c.regs.stage
    case WaitingForParam => !ParamEmpty(c, a) && !DataEmpty(c, a)
    case WriteDataOffset28 => !DataEmpty(c, a) || c.regs.doNotRead
    case SendingLastOfPacket28 => true
    case SendingNextPacket => !DataEmpty(c, a)
    case WriteDataOffset12 => !DataEmpty(c, a) || c.regs.doNotRead
    case SendingLastOfPacket12 => true
  }

  function Zeros(n: nat): (r: seq<byte>) ensures |r| == n { seq(n, _ => 0) }
  function Keeps(n: nat, v: bool): (r: seq<bool>) ensures |r| == n { seq(n, _ => v) }

  /** The word used when nothing is read: no data, nothing kept, last. */
  function NoData(): Beat { RawBeat(Zeros(BEAT), Keeps(BEAT, false), true) }

  /** `c` after it has put `out` on its output stream. */
  function Emit(c: Core, regs: Regs, out: Beat): Core {
    c.(regs := regs, payloadOut := c.payloadOut + [out])
  }

  /** What opening a message with the word `b` sends, and what it leaves in the registers. */
  function OutFirst(f: Flags, p: Parameters, b: Beat): Beat {
    RawBeat(Bth(FirstOpcode(p.length), f, p) + Reth(p) + b.data[..36],
            Keeps(28, true) + b.keep[..36],
            b.last && AllClear(b.keep[36..]))
  }

  function NextFirst(r: Regs, f: Flags, p: Parameters, b: Beat): Regs {
    var last := OutFirst(f, p, b).last;
    Regs(if last then WaitingForParam else WriteDataOffset28, 2, if last then r.doNotRead else b.last,
         p, b.data[36..], b.keep[36..])
  }

  function OutWaiting(c: Core): Beat
    requires c.paramIn != [] && c.dataToWrite != []
  {
    OutFirst(c.flags, c.paramIn[0], c.dataToWrite[0])
  }

  function StepWaiting(c: Core): Core
    requires c.paramIn != [] && c.dataToWrite != []
  {
    Emit(c.(paramIn := c.paramIn[1..], dataToWrite := c.dataToWrite[1..]),
         NextFirst(c.regs, c.flags, c.paramIn[0], c.dataToWrite[0]), OutWaiting(c))
  }

  /** The word a WRITE stage works on: nothing at all once the message has been read. */
  function Word(c: Core): Beat
    requires c.regs.doNotRead || c.dataToWrite != []
  {
    if c.regs.doNotRead then NoData() else c.dataToWrite[0]
  }

  function Unread(c: Core): seq<Beat>
    requires c.regs.doNotRead || c.dataToWrite != []
  {
    if c.regs.doNotRead then c.dataToWrite else c.dataToWrite[1..]
  }

  /** What the 28-byte write stage sends for the word `b`, and what it leaves in the registers. */
  function Out28(r: Regs, b: Beat): Beat {
    RawBeat(r.oldData + b.data[..36], r.oldKeep + b.keep[..36],
            r.doNotRead || (b.last && !b.keep[36]))
  }

  function Next28(r: Regs, b: Beat): Regs {
    var last := Out28(r, b).last;
    var stage :=
      if last then WaitingForParam
      else if !b.last && r.numOfReads >= MAX_NUM_OF_BEATS then SendingLastOfPacket28
      else WriteDataOffset28;
    Regs(stage, (r.numOfReads + 1) % 0x100, if last then r.doNotRead else b.last,
         Lower(r.paramPerm, 64), b.data[36..], b.keep[36..])
  }

  function OutWrite28(c: Core): Beat
    requires c.regs.doNotRead || c.dataToWrite != []
  {
    Out28(c.regs, Word(c))
  }

  function StepWrite28(c: Core): Core
    requires c.regs.doNotRead || c.dataToWrite != []
  {
    Emit(c.(dataToWrite := Unread(c)), Next28(c.regs, Word(c)), OutWrite28(c))
  }

  function OutLast28(c: Core): Beat {
    RawBeat(c.regs.oldData + Zeros(36), c.regs.oldKeep + Keeps(36, false), true)
  }

  function StepLast28(c: Core): Core {
    Emit(c, c.regs.(stage := SendingNextPacket, paramPerm := Lower(c.regs.paramPerm, 64)), OutLast28(c))
  }

  /** Only the low 12 byte lanes of the remainder registers are written from here on. */
  function LowLanes<T>(high: seq<T>, low: seq<T>): (r: seq<T>)
    requires |high| == FIRST_HEADER && |low| == NEXT_HEADER
    ensures |r| == FIRST_HEADER && r[..16] == high[..16] && r[16..] == low
  {
    high[..16] + low
  }

  /** What opening a continuation with the word `b` sends, and what it leaves in the registers. */
  function OutContinued(r: Regs, f: Flags, b: Beat): Beat {
    RawBeat(Bth(NextOpcode(r.paramPerm.length), f, r.paramPerm) + b.data[..52],
            Keeps(12, true) + b.keep[..52],
            b.last && !b.keep[52])
  }

  function NextContinued(r: Regs, f: Flags, b: Beat): Regs {
    var last := OutContinued(r, f, b).last;
    Regs(if last then WaitingForParam else WriteDataOffset12, 2, if last then r.doNotRead else b.last,
         r.paramPerm, LowLanes(r.oldData, b.data[52..]), LowLanes(r.oldKeep, b.keep[52..]))
  }

  function OutNext(c: Core): Beat
    requires c.dataToWrite != []
  {
    OutContinued(c.regs, c.flags, c.dataToWrite[0])
  }

  function StepNext(c: Core): Core
    requires c.dataToWrite != []
  {
    Emit(c.(dataToWrite := c.dataToWrite[1..]), NextContinued(c.regs, c.flags, c.dataToWrite[0]), OutNext(c))
  }

  /** The same for the 12-byte write stage. */
  function Out12(r: Regs, b: Beat): Beat {
    RawBeat(r.oldData[16..] + b.data[..52], r.oldKeep[16..] + b.keep[..52],
            r.doNotRead || (b.last && AllClear(b.keep[52..])))
  }

  function Next12(r: Regs, b: Beat): Regs {
    var last := Out12(r, b).last;
    var stage :=
      if last then WaitingForParam
      else if !b.last && r.numOfReads >= MAX_NUM_OF_BEATS then SendingLastOfPacket12
      else WriteDataOffset12;
    Regs(stage, (r.numOfReads + 1) % 0x100, if last then r.doNotRead else b.last,
         Lower(r.paramPerm, 64), LowLanes(r.oldData, b.data[52..]), LowLanes(r.oldKeep, b.keep[52..]))
  }

  function OutWrite12(c: Core): Beat
    requires c.regs.doNotRead || c.dataToWrite != []
  {
    Out12(c.regs, Word(c))
  }

  function StepWrite12(c: Core): Core
    requires c.regs.doNotRead || c.dataToWrite != []
  {
    Emit(c.(dataToWrite := Unread(c)), Next12(c.regs, Word(c)), OutWrite12(c))
  }

  function OutLast12(c: Core): Beat {
    RawBeat(c.regs.oldData[16..] + Zeros(52), c.regs.oldKeep[16..] + Keeps(52, false), true)
  }

  function StepLast12(c: Core): Core {
    Emit(c, c.regs.(stage := SendingNextPacket, paramPerm := Lower(c.regs.paramPerm, 64)), OutLast12(c))
  }

  /** One call of `write_core`. */
  function Step(c: Core, a: Answers): Core {
    if !Fires(c, a) then c else
    match c.regs.stage
    case WaitingForParam => StepWaiting(c)
    case WriteDataOffset28 => StepWrite28(c)
    case SendingLastOfPacket28 => StepLast28(c)
    case SendingNextPacket => StepNext(c)
    case WriteDataOffset12 => StepWrite12(c)
    case SendingLastOfPacket12 => StepLast12(c)
  }

  function Run(c: Core, answers: seq<Answers>): Core
    decreases |answers|
  {
    if answers == [] then c else Run(Step(c, answers[0]), answers[1..])
  }

  // ---- The state-machine invariant ----------------------------------------

  /** The part of the remainder that the current packet still has to send. */
  function OldKeepOf(r: Regs): seq<bool> {
    if r.stage.WriteDataOffset28? || r.stage.SendingLastOfPacket28? then r.oldKeep else r.oldKeep[16..]
  }

  function OldDataOf(r: Regs): seq<byte> {
    if r.stage.WriteDataOffset28? || r.stage.SendingLastOfPacket28? then r.oldData else r.oldData[16..]
  }

  predicate Writing(s: Stage) { s.WriteDataOffset28? || s.WriteDataOffset12? }

  predicate Closing(s: Stage) { s.SendingLastOfPacket28? || s.SendingLastOfPacket12? }

  /** What the registers hold, given whether the last beat read ended its message. */
  ghost predicate RegsInv(r: Regs, between: bool) {
    match r.stage
    case WaitingForParam => between
    case SendingNextPacket => !between && !r.doNotRead
    case _ =>
      && r.doNotRead == between
      && (if between then Writing(r.stage) && SomeLeading(OldKeepOf(r)) else Full(OldKeepOf(r)))
      && (Writing(r.stage) && !between ==> 2 <= r.numOfReads <= MAX_NUM_OF_BEATS)
  }

  /** The core, with the data stream `whole` that the run started from. */
  datatype Snapshot = Snapshot(core: Core, whole: seq<Beat>) {
    /** No message is in progress: all that was read of `whole` is whole messages. */
    predicate Between()
      requires |core.dataToWrite| <= |whole|
    {
      var n := |whole| - |core.dataToWrite|;
      n == 0 || whole[n - 1].last
    }

    ghost predicate Inv() {
      && StreamOk(whole)
      && |core.dataToWrite| <= |whole|
      && core.dataToWrite == whole[|whole| - |core.dataToWrite|..]
      && (!core.regs.stage.WaitingForParam? ==> |core.dataToWrite| < |whole|)
      && RegsInv(core.regs, Between())
    }
  }

  /** The initial values of the static variables. */
  function Reset(): Regs {
    Regs(WaitingForParam, 0, false, Parameters(0, 0, 0, 0), Zeros(FIRST_HEADER), Keeps(FIRST_HEADER, false))
  }

  /** A snapshot that keeps the invariant. */
  type Sound = s: Snapshot | s.Inv()
    witness Snapshot(Core(Reset(), Flags(0, 0, false, false, 0, false), [], [], []), [])

  // ---- The plan a state stands for ----------------------------------------

  function Old(r: Regs): seq<byte> { Kept(OldDataOf(r), OldKeepOf(r)) }

  /** Payload bytes that the current packet can still read. */
  function Room(r: Regs): nat {
    if r.numOfReads <= MAX_NUM_OF_BEATS then BEAT * (MAX_NUM_OF_BEATS + 1 - r.numOfReads) else 0
  }

  function WritePlan(c: Core): Plan {
    var r := c.regs;
    if r.doNotRead then Flushing(c.flags, c.paramIn, c.dataToWrite, Old(r))
    else Building(c.flags, c.paramIn, c.dataToWrite, Old(r), Room(r), Lower(r.paramPerm, Room(r) + 64))
  }

  function ClosePlan(c: Core): Plan {
    Building(c.flags, c.paramIn, c.dataToWrite, Old(c.regs), 0, Lower(c.regs.paramPerm, 64))
  }

  function PlanOf(c: Core): Plan {
    match c.regs.stage
    case WaitingForParam => Between(c.flags, c.paramIn, c.dataToWrite)
    case WriteDataOffset28 => WritePlan(c)
    case SendingLastOfPacket28 => ClosePlan(c)
    case SendingNextPacket => Reopened(c.flags, c.paramIn, c.dataToWrite, c.regs.paramPerm)
    case WriteDataOffset12 => WritePlan(c)
    case SendingLastOfPacket12 => ClosePlan(c)
  }

  /** The beats that the core, in this state, is bound to emit. */
  function Pending(c: Core): seq<Flit> { Owed(PlanOf(c)) }

  /** An output beat as the receiver sees it. */
  function ToFlit(b: Beat): Flit { Flit(KeptOf(b), b.last) }

  function ToFlits(bs: seq<Beat>): (r: seq<Flit>)
    ensures |r| == |bs|
  {
    seq(|bs|, i requires 0 <= i < |bs| => ToFlit(bs[i]))
  }
}
