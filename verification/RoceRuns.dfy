/** The packetizer over whole runs, under any pattern of stalls. */
module RoceRuns {
  import opened Bytes
  import opened RoceFraming
  import opened RoceCore
  import opened RoceRefinement

  // ---- Runs ---------------------------------------------------------------

  /** A call either does nothing or emits the first beat of what is pending. */
  lemma StepRefines(s: Sound, a: Answers)
    ensures if Fires(s.core, a) then Fired(s, Step(s.core, a)) else Step(s.core, a) == s.core
  {
    if Fires(s.core, a) {
      match s.core.regs.stage
      case WaitingForParam => WaitingFires(s);
      case WriteDataOffset28 => if s.core.regs.doNotRead { Flush28Fires(s); } else { Write28Fires(s); }
      case SendingLastOfPacket28 => Close28Fires(s);
      case SendingNextPacket => NextFires(s);
      case WriteDataOffset12 => if s.core.regs.doNotRead { Flush12Fires(s); } else { Write12Fires(s); }
      case SendingLastOfPacket12 => Close12Fires(s);
    }
  }

  lemma ToFlitsAppend(bs: seq<Beat>, b: Beat)
    ensures ToFlits(bs + [b]) == ToFlits(bs) + [ToFlit(b)]
  {
  }

  /** Emitted and pending beats together are the same in `s` and `t`; nothing emitted is undone. */
  ghost predicate Reaches(s: Sound, t: Sound) {
    && s.core.payloadOut <= t.core.payloadOut
    && ToFlits(t.core.payloadOut) + Pending(t.core) == ToFlits(s.core.payloadOut) + Pending(s.core)
    && forall i :: |s.core.payloadOut| <= i < |t.core.payloadOut| ==> BeatOk(t.core.payloadOut[i])
  }

  lemma PeelsKeepsSum(s: Sound, u: Sound, out: Beat)
    requires Peels(s, u, out)
    ensures ToFlits(u.core.payloadOut) + Pending(u.core) == ToFlits(s.core.payloadOut) + Pending(s.core)
  {
    ToFlitsAppend(s.core.payloadOut, out);
    Regroup(ToFlits(s.core.payloadOut), [ToFlit(out)], Pending(u.core));
  }

  lemma PeelsReaches(s: Sound, u: Sound, out: Beat, t: Sound)
    requires Peels(s, u, out) && Reaches(u, t)
    ensures Reaches(s, t)
  {
    PeelsKeepsSum(s, u, out);
    PrefixThrough(s.core.payloadOut, out, t.core.payloadOut);
  }

  lemma PrefixThrough(a: seq<Beat>, x: Beat, t: seq<Beat>)
    requires a + [x] <= t
    ensures a <= t && |t| > |a| && t[|a|] == x
  {
    assert t[..|a| + 1] == a + [x];
    assert t[|a|] == t[..|a| + 1][|a|];
  }

  /** What has been emitted and what is pending together never change, over any run. */
  lemma {:induction false} RunRefines(s: Sound, answers: seq<Answers>) returns (t: Sound)
    ensures t.core == Run(s.core, answers) && t.whole == s.whole && Reaches(s, t)
    decreases |answers|
  {
    if answers == [] {
      t := s;
    } else {
      StepRefines(s, answers[0]);
      if Fires(s.core, answers[0]) {
        var u: Sound, out: Beat :| u.core == Step(s.core, answers[0]) && Peels(s, u, out);
        t := RunRefines(u, answers[1..]);
        PeelsReaches(s, u, out, t);
      } else {
        t := RunRefines(s, answers[1..]);
      }
    }
  }

  /** The core out of reset, with everything that will ever arrive on its inputs. */
  function Start(f: Flags, params: seq<Parameters>, d: seq<Beat>): Core { Core(Reset(), f, params, d, []) }

  lemma StartSound(f: Flags, params: seq<Parameters>, d: seq<Beat>) returns (s: Sound)
    requires StreamOk(d)
    ensures s == Snapshot(Start(f, params, d), d)
    ensures ToFlits(s.core.payloadOut) == [] && Pending(s.core) == Frame(f, params, d)
  {
    s := Snapshot(Start(f, params, d), d);
  }

  /**
   * Under any pattern of stalls the output so far, followed by what is pending, is the
   * canonical framing.
   */
  lemma RunFrames(f: Flags, params: seq<Parameters>, d: seq<Beat>, answers: seq<Answers>)
    requires StreamOk(d)
    ensures var c := Run(Start(f, params, d), answers);
            ToFlits(c.payloadOut) + Pending(c) == Frame(f, params, d)
  {
    var s := StartSound(f, params, d);
    var t := RunRefines(s, answers);
    assert [] + Frame(f, params, d) == Frame(f, params, d);
  }

  /** Every non-last output beat is full; every last one keeps a non-empty leading run. */
  lemma OutputKeepsLeading(f: Flags, params: seq<Parameters>, d: seq<Beat>, answers: seq<Answers>)
    requires StreamOk(d)
    ensures forall b :: b in Run(Start(f, params, d), answers).payloadOut ==> BeatOk(b)
  {
    var s := StartSound(f, params, d);
    var t := RunRefines(s, answers);
  }

  /** With the streams ready, a core that owes something pays. */
  lemma ReadyFires(s: Sound)
    requires Pending(s.core) != []
    ensures Fires(s.core, READY)
  {
    if !s.core.regs.stage.WaitingForParam? && !s.core.regs.doNotRead {
      SoundMiddle(s);
    }
  }

  function ReadyCalls(answers: seq<Answers>): nat {
    if answers == [] then 0 else (if answers[0] == READY then 1 else 0) + ReadyCalls(answers[1..])
  }

  /** Every call that fires pays one beat, so as many ready calls as there are beats pay them all. */
  lemma {:induction false} RunFinishes(s: Sound, answers: seq<Answers>)
    requires ReadyCalls(answers) >= |Pending(s.core)|
    ensures Pending(Run(s.core, answers)) == []
    decreases |answers|
  {
    if answers != [] {
      StepRefines(s, answers[0]);
      if Fires(s.core, answers[0]) {
        var u: Sound, out: Beat :| u.core == Step(s.core, answers[0]) && Peels(s, u, out);
        RunFinishes(u, answers[1..]);
      } else {
        if Pending(s.core) != [] {
          ReadyFires(s);
        }
        RunFinishes(s, answers[1..]);
      }
    }
  }

  // ---- Stalls -------------------------------------------------------------

  function Readys(n: nat): seq<Answers> { if n == 0 then [] else [READY] + Readys(n - 1) }

  lemma {:induction false} RunGrows(c: Core, answers: seq<Answers>)
    ensures |c.payloadOut| <= |Run(c, answers).payloadOut|
    decreases |answers|
  {
    if answers != [] {
      RunGrows(Step(c, answers[0]), answers[1..]);
    }
  }

  /** The number of beats a run emits. */
  function Emitted(c: Core, answers: seq<Answers>): nat {
    RunGrows(c, answers);
    |Run(c, answers).payloadOut| - |c.payloadOut|
  }

  /** A call that fires does what it would do with all streams ready. */
  lemma StepReady(c: Core, a: Answers)
    requires Fires(c, a)
    ensures Step(c, a) == Step(c, READY) && |Step(c, a).payloadOut| == |c.payloadOut| + 1
  {
  }

  lemma ReadyFirst(c: Core, n: nat)
    requires n > 0
    ensures Run(c, Readys(n)) == Run(Step(c, READY), Readys(n - 1))
  {
    assert Readys(n)[0] == READY && Readys(n)[1..] == Readys(n - 1);
  }

  /**
   * Stalls only delay: a run ends in exactly the state, unkept lanes included, that
   * never-stalled streams reach in as many calls as the run emitted beats.
   */
  lemma {:induction false} StallsOnlyDelay(c: Core, answers: seq<Answers>)
    ensures Run(c, answers) == Run(c, Readys(Emitted(c, answers)))
    decreases |answers|
  {
    if answers != [] {
      var c1 := Step(c, answers[0]);
      StallsOnlyDelay(c1, answers[1..]);
      if Fires(c, answers[0]) {
        StepReady(c, answers[0]);
        assert Emitted(c, answers) == Emitted(c1, answers[1..]) + 1;
        ReadyFirst(c, Emitted(c, answers));
      }
    }
  }

  /** Two runs that emitted equally many beats are in the same state. */
  lemma StallInsensitive(c: Core, a: seq<Answers>, b: seq<Answers>)
    requires Emitted(c, a) == Emitted(c, b)
    ensures Run(c, a) == Run(c, b)
  {
    StallsOnlyDelay(c, a);
    StallsOnlyDelay(c, b);
  }

  predicate ReadFlagOk(c: Core, d: seq<Beat>) {
    c.regs.stage.WaitingForParam?
    || (&& |c.dataToWrite| < |d|
        && c.regs.doNotRead == d[|d| - |c.dataToWrite| - 1].last
        && (c.regs.doNotRead ==> Writing(c.regs.stage)))
  }

  lemma SoundReadFlag(t: Sound)
    ensures ReadFlagOk(t.core, t.whole)
  {
  }

  /** In the WRITE stages `do_not_read` says that the message was read; no other stage sets it. */
  lemma DoNotReadMeans(f: Flags, params: seq<Parameters>, d: seq<Beat>, answers: seq<Answers>)
    requires StreamOk(d)
    ensures ReadFlagOk(Run(Start(f, params, d), answers), d)
  {
    var s := StartSound(f, params, d);
    var t := RunRefines(s, answers);
    SoundReadFlag(t);
  }

  /** As many ready calls as the framing has beats emit all of it. */
  lemma CompleteRun(f: Flags, params: seq<Parameters>, d: seq<Beat>, answers: seq<Answers>)
    requires StreamOk(d) && ReadyCalls(answers) >= |Frame(f, params, d)|
    ensures ToFlits(Run(Start(f, params, d), answers).payloadOut) == Frame(f, params, d)
  {
    var s := StartSound(f, params, d);
    RunFrames(f, params, d, answers);
    RunFinishes(s, answers);
  }
}
