/** Every call of the packetizer keeps its invariant and pays one beat of its plan. */
module RoceRefinement {
  import opened Bytes
  import opened RoceFraming
  import opened RocePlan
  import opened RoceCore

  /** An output beat made of a kept head and the front of an input beat. */
  lemma HeadedBeat(hd: seq<byte>, hk: seq<bool>, b: Beat, cut: nat)
    requires BeatOk(b) && 0 < cut < BEAT && |hd| == |hk| == BEAT - cut && Full(hk)
    ensures Kept(hd + b.data[..cut], hk + b.keep[..cut]) == hd + Front(b, cut)
    ensures Tail(b, cut) != [] ==> Full(hk + b.keep[..cut])
    ensures SomeLeading(hk + b.keep[..cut])
  {
    SplitBeat(b, cut);
    KeptAppend(hd, hk, b.data[..cut], b.keep[..cut]);
    KeptFull(hd, hk);
    var n: nat :| 1 <= n <= cut && Leading(b.keep[..cut], n);
    assert Leading(hk + b.keep[..cut], BEAT - cut + n);
  }

  /** An output beat made of a remainder and nothing else. */
  lemma FlushedBeat(hd: seq<byte>, hk: seq<bool>, zeros: seq<byte>, cleared: seq<bool>)
    requires |hd| == |hk| && |zeros| == |cleared| == BEAT - |hd| && SomeLeading(hk) && AllClear(cleared)
    ensures Kept(hd + zeros, hk + cleared) == Kept(hd, hk) && |Kept(hd, hk)| <= BEAT
    ensures SomeLeading(hk + cleared)
  {
    var n: nat :| 1 <= n <= |hk| && Leading(hk, n);
    KeptLeading(hd, hk, n);
    KeptAppend(hd, hk, zeros, cleared);
    KeptLeading(zeros, cleared, 0);
    assert Leading(hk + cleared, n);
  }

  lemma FullIsLeading(keep: seq<bool>)
    requires keep != [] && Full(keep)
    ensures SomeLeading(keep)
  {
    assert Leading(keep, |keep|);
  }

  lemma SoundHead(s: Sound)
    requires s.core.dataToWrite != []
    ensures StreamOk(s.core.dataToWrite) && BeatOk(s.core.dataToWrite[0])
  {
    StreamOkTail(s.whole, |s.whole| - |s.core.dataToWrite|);
  }

  /** In the middle of a message there is more to read and the remainder is full. */
  lemma SoundMiddle(s: Sound)
    requires !s.core.regs.stage.WaitingForParam? && !s.core.regs.doNotRead
    ensures s.core.dataToWrite != [] && !s.Between()
    ensures !s.core.regs.stage.SendingNextPacket? ==> Full(OldKeepOf(s.core.regs))
    ensures Writing(s.core.regs.stage) ==> 2 <= s.core.regs.numOfReads <= MAX_NUM_OF_BEATS
  {
  }

  // ---- Steps --------------------------------------------------------------

  /** `t` is `s` after it emitted `out`, the first beat of what it had pending. */
  ghost predicate Peels(s: Sound, t: Sound, out: Beat) {
    && t.whole == s.whole
    && t.core.payloadOut == s.core.payloadOut + [out]
    && Pending(s.core) == [ToFlit(out)] + Pending(t.core)
    && BeatOk(out)
  }

  /** `c1` is sound and is `s` after it emitted one beat. */
  ghost predicate Fired(s: Sound, c1: Core) {
    exists t: Sound, out: Beat :: t.core == c1 && Peels(s, t, out)
  }

  lemma ReadSound(s: Sound, c1: Core) returns (t: Sound)
    requires s.core.dataToWrite != [] && c1.dataToWrite == s.core.dataToWrite[1..]
    requires RegsInv(c1.regs, s.core.dataToWrite[0].last)
    ensures t == Snapshot(c1, s.whole)
  {
    t := Snapshot(c1, s.whole);
  }

  lemma SendSound(s: Sound, c1: Core) returns (t: Sound)
    requires c1.dataToWrite == s.core.dataToWrite && !s.core.regs.stage.WaitingForParam?
    requires RegsInv(c1.regs, s.Between())
    ensures t == Snapshot(c1, s.whole)
  {
    t := Snapshot(c1, s.whole);
  }

  /** A stage that reads a beat carries the plan and the output along. */
  lemma ReadFires(s: Sound, p: Plan, t: Sound, out: Beat)
    requires Reads(p) && p.d == s.core.dataToWrite && Owed(p) == Pending(s.core)
    requires t.whole == s.whole && t.core.payloadOut == s.core.payloadOut + [out]
    requires PlanOf(t.core) == AfterRead(p) && ToFlit(out) == ReadFlit(p) && BeatOk(out)
    ensures Fired(s, t.core)
  {
    SoundHead(s);
    ReadOwes(p);
    assert Peels(s, t, out);
  }

  /** A stage that sends the remainder does the same. */
  lemma SendFires(s: Sound, t: Sound, hd: seq<byte>, hk: seq<bool>, out: Beat)
    requires |hd| == |hk| <= BEAT && SomeLeading(hk)
    requires out == RawBeat(hd + Zeros(BEAT - |hd|), hk + Keeps(BEAT - |hk|, false), true)
    requires t.whole == s.whole && t.core.payloadOut == s.core.payloadOut + [out]
    requires Pending(s.core) == [Flit(Kept(hd, hk), true)] + Pending(t.core)
    ensures Fired(s, t.core)
  {
    FlushedFlit(hd, hk, out);
    assert Peels(s, t, out);
  }

  lemma FlushedFlit(hd: seq<byte>, hk: seq<bool>, out: Beat)
    requires |hd| == |hk| <= BEAT && SomeLeading(hk)
    requires out == RawBeat(hd + Zeros(BEAT - |hd|), hk + Keeps(BEAT - |hk|, false), true)
    ensures ToFlit(out) == Flit(Kept(hd, hk), true) && BeatOk(out)
  {
    FlushedBeat(hd, hk, Zeros(BEAT - |hd|), Keeps(BEAT - |hk|, false));
  }

  /** WAITING_FOR_PARAM opens the first packet of a message with its first beat. */
  lemma WaitingReads(c: Core)
    requires c.paramIn != [] && c.dataToWrite != [] && BeatOk(c.dataToWrite[0])
    ensures var p, c1, out := Opened(c.flags, c.paramIn, c.dataToWrite), StepWaiting(c), OutWaiting(c);
            && PlanOf(c1) == AfterRead(p) && ToFlit(out) == ReadFlit(p) && BeatOk(out)
            && RegsInv(c1.regs, c.dataToWrite[0].last)
  {
    SplitBeat(c.dataToWrite[0], 36);
    HeadedBeat(Started(c.paramIn[0], c.flags), Keeps(28, true), c.dataToWrite[0], 36);
  }

  lemma WaitingFires(s: Sound)
    requires s.core.regs.stage.WaitingForParam? && s.core.paramIn != [] && s.core.dataToWrite != []
    ensures Fired(s, StepWaiting(s.core))
  {
    SoundHead(s);
    OpenOwes(s.core.flags, s.core.paramIn, s.core.dataToWrite);
    WaitingReads(s.core);
    var t := ReadSound(s, StepWaiting(s.core));
    ReadFires(s, Opened(s.core.flags, s.core.paramIn, s.core.dataToWrite), t, OutWaiting(s.core));
  }

  /** SENDING_NEXT_PACKET opens a continuation packet with its first beat. */
  lemma NextReads(c: Core)
    requires c.regs.stage.SendingNextPacket? && !c.regs.doNotRead
    requires c.dataToWrite != [] && BeatOk(c.dataToWrite[0])
    ensures var c1, out := StepNext(c), OutNext(c);
            && PlanOf(c1) == AfterRead(PlanOf(c)) && ToFlit(out) == ReadFlit(PlanOf(c)) && BeatOk(out)
            && RegsInv(c1.regs, c.dataToWrite[0].last)
  {
    SplitBeat(c.dataToWrite[0], 52);
    HeadedBeat(Continued(c.regs.paramPerm, c.flags), Keeps(12, true), c.dataToWrite[0], 52);
  }

  lemma NextFires(s: Sound)
    requires s.core.regs.stage.SendingNextPacket? && s.core.dataToWrite != []
    ensures Fired(s, StepNext(s.core))
  {
    SoundHead(s);
    NextReads(s.core);
    var t := ReadSound(s, StepNext(s.core));
    ReadFires(s, PlanOf(s.core), t, OutNext(s.core));
  }

  lemma Write28Sends(c: Core)
    requires c.regs.stage.WriteDataOffset28? && !c.regs.doNotRead && 2 <= c.regs.numOfReads <= MAX_NUM_OF_BEATS
    requires Full(c.regs.oldKeep) && c.dataToWrite != [] && BeatOk(c.dataToWrite[0])
    ensures Reads(PlanOf(c)) && ToFlit(OutWrite28(c)) == ReadFlit(PlanOf(c)) && BeatOk(OutWrite28(c))
  {
    KeptFull(c.regs.oldData, c.regs.oldKeep);
    SplitBeat(c.dataToWrite[0], 36);
    HeadedBeat(c.regs.oldData, c.regs.oldKeep, c.dataToWrite[0], 36);
  }

  lemma TailIs(p: Plan, cut: nat)
    requires Reads(p) && |p.head| + cut == BEAT
    ensures TailOf(p) == Tail(p.d[0], cut)
  {
  }

  /** Lowering the length by one beat and the room by one leaves what the next packet starts from. */
  lemma OverAfter(p: Parameters, room: nat, left: nat)
    requires room == left + 64
    ensures Lower(Lower(p, 64), left + 64) == Lower(p, room + 64)
  {
    LowerLower(p, 64, left + 64);
  }

  lemma Write28Reads(c: Core)
    requires c.regs.stage.WriteDataOffset28? && !c.regs.doNotRead && c.regs.numOfReads <= MAX_NUM_OF_BEATS
    requires Full(c.regs.oldKeep) && Reads(PlanOf(c)) && BeatOk(c.dataToWrite[0])
    ensures PlanOf(StepWrite28(c)) == AfterRead(PlanOf(c))
  {
    KeptFull(c.regs.oldData, c.regs.oldKeep);
    TailIs(PlanOf(c), 36);
    OverAfter(c.regs.paramPerm, Room(c.regs), Room(c.regs) - 64);
    SplitBeat(c.dataToWrite[0], 36);
  }

  lemma Write28Keeps(c: Core)
    requires c.regs.stage.WriteDataOffset28? && !c.regs.doNotRead && 2 <= c.regs.numOfReads <= MAX_NUM_OF_BEATS
    requires c.dataToWrite != [] && BeatOk(c.dataToWrite[0])
    ensures RegsInv(StepWrite28(c).regs, c.dataToWrite[0].last)
  {
    SplitBeat(c.dataToWrite[0], 36);
  }

  lemma Write28Fires(s: Sound)
    requires s.core.regs.stage.WriteDataOffset28? && !s.core.regs.doNotRead && s.core.dataToWrite != []
    ensures Fired(s, StepWrite28(s.core))
  {
    SoundHead(s);
    SoundMiddle(s);
    Write28Sends(s.core);
    Write28Reads(s.core);
    Write28Keeps(s.core);
    var t := ReadSound(s, StepWrite28(s.core));
    ReadFires(s, PlanOf(s.core), t, OutWrite28(s.core));
  }

  lemma Write12Sends(c: Core)
    requires c.regs.stage.WriteDataOffset12? && !c.regs.doNotRead && 2 <= c.regs.numOfReads <= MAX_NUM_OF_BEATS
    requires Full(c.regs.oldKeep[16..]) && c.dataToWrite != [] && BeatOk(c.dataToWrite[0])
    ensures Reads(PlanOf(c)) && ToFlit(OutWrite12(c)) == ReadFlit(PlanOf(c)) && BeatOk(OutWrite12(c))
  {
    KeptFull(c.regs.oldData[16..], c.regs.oldKeep[16..]);
    SplitBeat(c.dataToWrite[0], 52);
    HeadedBeat(c.regs.oldData[16..], c.regs.oldKeep[16..], c.dataToWrite[0], 52);
  }

  /** The remainder after the 12-byte write stage is what the beat read leaves over. */
  lemma Write12Carries(c: Core)
    requires c.regs.stage.WriteDataOffset12? && !c.regs.doNotRead && c.dataToWrite != []
    requires Full(c.regs.oldKeep[16..])
    ensures |Old(c.regs)| == 12 && 0 < |Old(c.regs)| < BEAT
    ensures var r := StepWrite12(c).regs;
            !OutWrite12(c).last ==> Old(r) == Tail(c.dataToWrite[0], 52) && OldKeepOf(r) == c.dataToWrite[0].keep[52..]
  {
    KeptFull(c.regs.oldData[16..], c.regs.oldKeep[16..]);
  }

  lemma Write12Ends(c: Core)
    requires c.regs.stage.WriteDataOffset12? && !c.regs.doNotRead && Full(c.regs.oldKeep[16..])
    requires Reads(PlanOf(c)) && BeatOk(c.dataToWrite[0]) && c.dataToWrite[0].last
    ensures PlanOf(StepWrite12(c)) == AfterRead(PlanOf(c))
  {
    Write12Carries(c);
    SplitBeat(c.dataToWrite[0], 52);
  }

  lemma Write12GoesOn(c: Core)
    requires c.regs.stage.WriteDataOffset12? && !c.regs.doNotRead && c.regs.numOfReads < MAX_NUM_OF_BEATS
    requires Full(c.regs.oldKeep[16..])
    requires Reads(PlanOf(c)) && BeatOk(c.dataToWrite[0]) && !c.dataToWrite[0].last
    ensures PlanOf(StepWrite12(c)) == AfterRead(PlanOf(c))
  {
    Write12Carries(c);
    TailIs(PlanOf(c), 52);
    OverAfter(c.regs.paramPerm, Room(c.regs), Room(StepWrite12(c).regs));
  }

  lemma Write12Fills(c: Core)
    requires c.regs.stage.WriteDataOffset12? && !c.regs.doNotRead && c.regs.numOfReads == MAX_NUM_OF_BEATS
    requires Full(c.regs.oldKeep[16..])
    requires Reads(PlanOf(c)) && BeatOk(c.dataToWrite[0]) && !c.dataToWrite[0].last
    ensures PlanOf(StepWrite12(c)) == AfterRead(PlanOf(c))
  {
    Write12Carries(c);
    TailIs(PlanOf(c), 52);
    OverAfter(c.regs.paramPerm, Room(c.regs), 0);
  }

  lemma Write12Reads(c: Core)
    requires c.regs.stage.WriteDataOffset12? && !c.regs.doNotRead && c.regs.numOfReads <= MAX_NUM_OF_BEATS
    requires Full(c.regs.oldKeep[16..]) && Reads(PlanOf(c)) && BeatOk(c.dataToWrite[0])
    ensures PlanOf(StepWrite12(c)) == AfterRead(PlanOf(c))
  {
    if c.dataToWrite[0].last {
      Write12Ends(c);
    } else if c.regs.numOfReads < MAX_NUM_OF_BEATS {
      Write12GoesOn(c);
    } else {
      Write12Fills(c);
    }
  }

  lemma Write12Keeps(c: Core)
    requires c.regs.stage.WriteDataOffset12? && !c.regs.doNotRead && 2 <= c.regs.numOfReads <= MAX_NUM_OF_BEATS
    requires c.dataToWrite != [] && BeatOk(c.dataToWrite[0])
    ensures RegsInv(StepWrite12(c).regs, c.dataToWrite[0].last)
  {
    SplitBeat(c.dataToWrite[0], 52);
  }

  lemma Write12Fires(s: Sound)
    requires s.core.regs.stage.WriteDataOffset12? && !s.core.regs.doNotRead && s.core.dataToWrite != []
    ensures Fired(s, StepWrite12(s.core))
  {
    SoundHead(s);
    SoundMiddle(s);
    Write12Sends(s.core);
    Write12Reads(s.core);
    Write12Keeps(s.core);
    var t := ReadSound(s, StepWrite12(s.core));
    ReadFires(s, PlanOf(s.core), t, OutWrite12(s.core));
  }

  /** The message was read: a WRITE stage sends the remainder and the message is over. */
  lemma Flush28Fires(s: Sound)
    requires s.core.regs.stage.WriteDataOffset28? && s.core.regs.doNotRead
    ensures Fired(s, StepWrite28(s.core))
  {
    var r := s.core.regs;
    assert NoData().data[..36] == Zeros(36) && NoData().keep[..36] == Keeps(36, false);
    FlushOwes(s.core.flags, s.core.paramIn, s.core.dataToWrite, Old(r));
    var t := SendSound(s, StepWrite28(s.core));
    SendFires(s, t, r.oldData, r.oldKeep, OutWrite28(s.core));
  }

  lemma Flush12Fires(s: Sound)
    requires s.core.regs.stage.WriteDataOffset12? && s.core.regs.doNotRead
    ensures Fired(s, StepWrite12(s.core))
  {
    var r := s.core.regs;
    assert NoData().data[..52] == Zeros(52) && NoData().keep[..52] == Keeps(52, false);
    FlushOwes(s.core.flags, s.core.paramIn, s.core.dataToWrite, Old(r));
    var t := SendSound(s, StepWrite12(s.core));
    SendFires(s, t, r.oldData[16..], r.oldKeep[16..], OutWrite12(s.core));
  }

  lemma ClosingHolds(s: Sound)
    requires Closing(s.core.regs.stage)
    ensures SomeLeading(OldKeepOf(s.core.regs)) && |Old(s.core.regs)| <= BEAT && Payload(s.core.dataToWrite) != []
  {
    SoundMiddle(s);
    FullIsLeading(OldKeepOf(s.core.regs));
    SoundHead(s);
    SplitBeat(s.core.dataToWrite[0], 1);
  }

  lemma ClosePays(c: Core, t: Core)
    requires Closing(c.regs.stage) && |Old(c.regs)| <= BEAT && Payload(c.dataToWrite) != []
    requires PlanOf(t) == Reopened(c.flags, c.paramIn, c.dataToWrite, Lower(c.regs.paramPerm, 64))
    ensures Pending(c) == [Flit(Old(c.regs), true)] + Pending(t)
  {
    PlanOwes(c, ClosePlan(c));
    PlanOwes(t, Reopened(c.flags, c.paramIn, c.dataToWrite, Lower(c.regs.paramPerm, 64)));
    CloseOwes(c.flags, c.paramIn, c.dataToWrite, Old(c.regs), Lower(c.regs.paramPerm, 64));
  }

  lemma PlanOwes(c: Core, p: Plan)
    requires PlanOf(c) == p
    ensures Pending(c) == Owed(p)
  {
  }

  /** The packet is full but the message goes on: the remainder closes the packet. */
  lemma CloseFires(s: Sound, t: Sound, out: Beat)
    requires Closing(s.core.regs.stage) && t.whole == s.whole
    requires t.core.payloadOut == s.core.payloadOut + [out]
    requires PlanOf(t.core) ==
             Reopened(s.core.flags, s.core.paramIn, s.core.dataToWrite, Lower(s.core.regs.paramPerm, 64))
    requires var hd, hk := OldDataOf(s.core.regs), OldKeepOf(s.core.regs);
             |hd| <= BEAT && out == RawBeat(hd + Zeros(BEAT - |hd|), hk + Keeps(BEAT - |hk|, false), true)
    ensures Fired(s, t.core)
  {
    var r := s.core.regs;
    ClosingHolds(s);
    ClosePays(s.core, t.core);
    SendFires(s, t, OldDataOf(r), OldKeepOf(r), out);
  }

  lemma Close28Fires(s: Sound)
    requires s.core.regs.stage.SendingLastOfPacket28?
    ensures Fired(s, StepLast28(s.core))
  {
    SoundMiddle(s);
    var t := SendSound(s, StepLast28(s.core));
    CloseFires(s, t, OutLast28(s.core));
  }

  lemma Close12Fires(s: Sound)
    requires s.core.regs.stage.SendingLastOfPacket12?
    ensures Fired(s, StepLast12(s.core))
  {
    SoundMiddle(s);
    var t := SendSound(s, StepLast12(s.core));
    CloseFires(s, t, OutLast12(s.core));
  }
}
