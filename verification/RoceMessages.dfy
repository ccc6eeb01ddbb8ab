/** How long a message keeps the packetizer busy, on runs: the calls that fire for it, and what they emit. */
module RoceMessages {
  import opened Bytes
  import opened RoceFraming
  import opened RocePlan
  import opened RoceCore
  import opened RoceRefinement
  import opened RoceRuns
  import opened RoceShape

  /** The plan once the message in progress is over. */
  function Behind(p: Plan): Plan {
    match p
    case Between(_, _, _) => p
    case Flushing(f, params, d, _) => Between(f, params, d)
    case Building(f, params, d, _, _, _) => Between(f, params, Rest(d))
  }

  /** The beats still owed for the message in progress. */
  function Left(p: Plan): nat {
    match p
    case Between(_, _, _) => 0
    case Flushing(_, _, _, head) => |Chop(head)|
    case Building(f, _, d, head, room, over) =>
      |Chop(head + Take(Payload(d), room))| + |ChopAll(Overflow(f, over, Payload(d), room))|
  }

  lemma {:induction false} ChopAllAppend(a: seq<seq<byte>>, b: seq<seq<byte>>)
    ensures ChopAll(a + b) == ChopAll(a) + ChopAll(b)
  {
    if a == [] {
      assert a + b == b;
    } else {
      assert (a + b)[1..] == a[1..] + b;
      ChopAllAppend(a[1..], b);
      Regroup(Chop(a[0]), ChopAll(a[1..]), ChopAll(b));
    }
  }

  lemma OwedLength(p: Plan)
    ensures |Owed(p)| == Left(p) + |Owed(Behind(p))|
    ensures Left(p) == 0 <==> p.Between?
  {
    if p.Building? {
      ChopAllAppend(Overflow(p.f, p.over, Payload(p.d), p.room), Packets(p.f, p.params, Rest(p.d)));
    }
  }

  /** Reading a beat does not change what is behind the message. */
  lemma ReadBehind(p: Plan)
    requires Reads(p)
    ensures Behind(AfterRead(p)) == Behind(p)
  {
  }

  lemma WaitingBehind(s: Sound)
    requires s.core.regs.stage.WaitingForParam? && s.core.paramIn != [] && s.core.dataToWrite != []
    ensures Behind(PlanOf(StepWaiting(s.core))) ==
            Between(s.core.flags, s.core.paramIn[1..], Rest(s.core.dataToWrite))
  {
    SoundHead(s);
    WaitingReads(s.core);
    ReadBehind(Opened(s.core.flags, s.core.paramIn, s.core.dataToWrite));
  }

  lemma NextBehind(s: Sound)
    requires s.core.regs.stage.SendingNextPacket? && s.core.dataToWrite != []
    ensures Behind(PlanOf(StepNext(s.core))) == Behind(PlanOf(s.core))
  {
    SoundHead(s);
    NextReads(s.core);
    ReadBehind(PlanOf(s.core));
  }

  lemma Write28Behind(s: Sound)
    requires s.core.regs.stage.WriteDataOffset28? && !s.core.regs.doNotRead && s.core.dataToWrite != []
    ensures Behind(PlanOf(StepWrite28(s.core))) == Behind(PlanOf(s.core))
  {
    SoundHead(s);
    SoundMiddle(s);
    Write28Sends(s.core);
    Write28Reads(s.core);
    ReadBehind(PlanOf(s.core));
  }

  lemma Write12Behind(s: Sound)
    requires s.core.regs.stage.WriteDataOffset12? && !s.core.regs.doNotRead && s.core.dataToWrite != []
    ensures Behind(PlanOf(StepWrite12(s.core))) == Behind(PlanOf(s.core))
  {
    SoundHead(s);
    SoundMiddle(s);
    Write12Sends(s.core);
    Write12Reads(s.core);
    ReadBehind(PlanOf(s.core));
  }

  /** A call in the middle of a message does not change what is behind it. */
  lemma StepBehind(s: Sound)
    requires !s.core.regs.stage.WaitingForParam? && Fires(s.core, READY)
    ensures Behind(PlanOf(Step(s.core, READY))) == Behind(PlanOf(s.core))
  {
    match s.core.regs.stage
    case WriteDataOffset28 => if !s.core.regs.doNotRead { Write28Behind(s); }
    case SendingLastOfPacket28 =>
    case SendingNextPacket => NextBehind(s);
    case WriteDataOffset12 => if !s.core.regs.doNotRead { Write12Behind(s); }
    case SendingLastOfPacket12 =>
  }

  /** Where a core stands: the beats left of the message in progress, and the plan after it. */
  datatype Standing = Standing(left: nat, behind: Plan)

  function StandingOf(c: Core): Standing { Standing(Left(PlanOf(c)), Behind(PlanOf(c))) }

  lemma AtOwes(c: Core, n: nat, behind: Plan)
    requires StandingOf(c) == Standing(n, behind)
    ensures |Pending(c)| == n + |Owed(behind)|
    ensures n == 0 <==> c.regs.stage.WaitingForParam?
    ensures n == 0 ==> PlanOf(c) == behind
  {
    OwedLength(PlanOf(c));
  }

  lemma AtBehind(c: Core, n: nat, behind: Plan)
    requires Behind(PlanOf(c)) == behind && |Pending(c)| == n + |Owed(behind)|
    ensures StandingOf(c) == Standing(n, behind)
  {
    OwedLength(PlanOf(c));
  }

  /** A call that fires. */
  lemma OneCall(s: Sound) returns (u: Sound)
    requires Pending(s.core) != []
    ensures Fires(s.core, READY) && u.core == Step(s.core, READY) && |Pending(u.core)| == |Pending(s.core)| - 1
  {
    ReadyFires(s);
    StepRefines(s, READY);
    var t: Sound, out: Beat :| t.core == Step(s.core, READY) && Peels(s, t, out);
    u := t;
  }

  lemma ReadyNext(c: Core, k: nat, calls: nat)
    requires k == calls + 1
    ensures Run(c, Readys(k)) == Run(Step(c, READY), Readys(calls))
  {
    ReadyFirst(c, k);
  }

  /** One of `k` calls in the middle of a message. */
  lemma MiddleCall(s: Sound, n: nat, behind: Plan, k: nat, c: Core, left: nat, calls: nat) returns (u: Sound)
    requires StandingOf(s.core) == Standing(n, behind) && c == Run(s.core, Readys(k))
    requires n == left + 1 && k == calls + 1
    ensures c == Run(u.core, Readys(calls)) && StandingOf(u.core) == Standing(left, behind)
  {
    AtOwes(s.core, n, behind);
    u := OneCall(s);
    StepBehind(s);
    AtBehind(u.core, left, behind);
    ReadyNext(s.core, k, calls);
  }

  /** `k` calls with the streams ready pay `k` of the beats left of a message. */
  lemma {:induction false} LeftAfter(s: Sound, n: nat, behind: Plan, k: nat, m: nat, c: Core)
    requires StandingOf(s.core) == Standing(n, behind) && n == k + m && c == Run(s.core, Readys(k))
    ensures StandingOf(c) == Standing(m, behind)
    decreases k
  {
    if k > 0 {
      var left, calls := n - 1, k - 1;
      var u := MiddleCall(s, n, behind, k, c, left, calls);
      LeftAfter(u, left, behind, calls, m, c);
    }
  }

  /** The beats of the message in front of a core that waits for one. */
  function MessageBeats(c: Core): seq<Flit>
    requires c.paramIn != [] && c.dataToWrite != []
  {
    ChopAll(MessagePackets(c.flags, c.paramIn[0], Payload(c.dataToWrite)))
  }

  lemma MessageOwed(c: Core)
    requires c.regs.stage.WaitingForParam? && c.paramIn != [] && c.dataToWrite != []
    ensures Pending(c) == MessageBeats(c) + Frame(c.flags, c.paramIn[1..], Rest(c.dataToWrite))
  {
    ChopAllAppend(MessagePackets(c.flags, c.paramIn[0], Payload(c.dataToWrite)),
                  Packets(c.flags, c.paramIn[1..], Rest(c.dataToWrite)));
  }

  /** The plan once that message is over. */
  function MessageBehind(c: Core): Plan
    requires c.paramIn != [] && c.dataToWrite != []
  {
    Between(c.flags, c.paramIn[1..], Rest(c.dataToWrite))
  }

  /** The first of `k` calls, which opens the message. */
  lemma OpeningCall(s: Sound, k: nat, c: Core, left: nat, calls: nat) returns (u: Sound)
    requires s.core.regs.stage.WaitingForParam? && s.core.paramIn != [] && s.core.dataToWrite != []
    requires |MessageBeats(s.core)| == left + 1 && k == calls + 1 && c == Run(s.core, Readys(k))
    ensures c == Run(u.core, Readys(calls)) && StandingOf(u.core) == Standing(left, MessageBehind(s.core))
  {
    MessageOwed(s.core);
    u := OneCall(s);
    WaitingBehind(s);
    AtBehind(u.core, left, MessageBehind(s.core));
    ReadyNext(s.core, k, calls);
  }

  /** The same from before the message: the first call opens it. */
  lemma MessageAfter(s: Sound, k: nat, m: nat, c: Core)
    requires s.core.regs.stage.WaitingForParam? && s.core.paramIn != [] && s.core.dataToWrite != []
    requires 1 <= k && k + m == |MessageBeats(s.core)| && c == Run(s.core, Readys(k))
    ensures StandingOf(c) == Standing(m, MessageBehind(s.core))
  {
    var left, calls := |MessageBeats(s.core)| - 1, k - 1;
    var u := OpeningCall(s, k, c, left, calls);
    LeftAfter(u, left, MessageBehind(s.core), calls, m, c);
  }

  lemma PayloadNotEmpty(s: Sound)
    requires s.core.dataToWrite != []
    ensures Payload(s.core.dataToWrite) != []
  {
    SoundHead(s);
    SplitBeat(s.core.dataToWrite[0], 1);
  }

  lemma MessageBeatsBound(s: Sound)
    requires s.core.paramIn != [] && s.core.dataToWrite != []
    ensures 1 <= |MessageBeats(s.core)| <= 21 * PacketCount(|Payload(s.core.dataToWrite)|)
  {
    PayloadNotEmpty(s);
    FiringsPerMessage(s.core.flags, s.core.paramIn[0], Payload(s.core.dataToWrite));
  }

  /**
   * A message is over after exactly as many firing calls as it has beats, under any stalls:
   * not before, and then all of it has been read and nothing else. They are at most 21 for
   * each 1280 bytes begun.
   */
  lemma MessageTakes(s: Sound, answers: seq<Answers>)
    requires s.core.regs.stage.WaitingForParam? && s.core.paramIn != [] && s.core.dataToWrite != []
    requires 1 <= Emitted(s.core, answers) <= |MessageBeats(s.core)|
    ensures var t := Run(s.core, answers);
            && (t.regs.stage.WaitingForParam? <==> Emitted(s.core, answers) == |MessageBeats(s.core)|)
            && (t.regs.stage.WaitingForParam? ==>
                  t.paramIn == s.core.paramIn[1..] && t.dataToWrite == Rest(s.core.dataToWrite))
    ensures |MessageBeats(s.core)| <= 21 * PacketCount(|Payload(s.core.dataToWrite)|)
  {
    var t, n := Run(s.core, answers), Emitted(s.core, answers);
    StallsOnlyDelay(s.core, answers);
    MessageAfter(s, n, |MessageBeats(s.core)| - n, t);
    AtOwes(t, |MessageBeats(s.core)| - n, MessageBehind(s.core));
    MessageBeatsBound(s);
  }

  lemma CancelSuffix(a: seq<Flit>, b: seq<Flit>, c: seq<Flit>)
    requires a + c == b + c
    ensures a == b
  {
    assert |a| == |b|;
    assert a == (a + c)[..|a|] && b == (b + c)[..|b|];
  }

  /** What those calls emit is the message's packets, beat by beat, and nothing else. */
  lemma MessageEmits(s: Sound, answers: seq<Answers>)
    requires s.core.regs.stage.WaitingForParam? && s.core.paramIn != [] && s.core.dataToWrite != []
    requires Emitted(s.core, answers) == |MessageBeats(s.core)|
    ensures ToFlits(Run(s.core, answers).payloadOut) == ToFlits(s.core.payloadOut) + MessageBeats(s.core)
  {
    var later := Frame(s.core.flags, s.core.paramIn[1..], Rest(s.core.dataToWrite));
    MessageBeatsBound(s);
    StallsOnlyDelay(s.core, answers);
    MessageAfter(s, |MessageBeats(s.core)|, 0, Run(s.core, answers));
    AtOwes(Run(s.core, answers), 0, MessageBehind(s.core));
    MessageOwed(s.core);
    var t := RunRefines(s, answers);
    Regroup(ToFlits(s.core.payloadOut), MessageBeats(s.core), later);
    CancelSuffix(ToFlits(t.core.payloadOut), ToFlits(s.core.payloadOut) + MessageBeats(s.core), later);
  }
}
