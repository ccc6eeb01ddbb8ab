/**
 * The packetizer without its registers: at any time it owes its receiver a list of
 * beats, described by a plan.  Each plan pays one beat and becomes the next plan.
 */
module RocePlan {
  import opened Bytes
  import opened RoceFraming

  datatype Plan =
    /** No message is in progress; `params` and `d` are still to come. */
    | Between(f: Flags, params: seq<Parameters>, d: seq<Beat>)
    /** Only `head` of the current message is left to send. */
    | Flushing(f: Flags, params: seq<Parameters>, d: seq<Beat>, head: seq<byte>)
    /**
     * A packet under construction: `head` is ready and `room` bytes of the message at the
     * front of `d` still go into it.  The length register of the packet after it is `over`'s.
     */
    | Building(f: Flags, params: seq<Parameters>, d: seq<Beat>, head: seq<byte>, room: nat, over: Parameters)

  /** The beats a plan owes. */
  function Owed(p: Plan): seq<Flit> {
    match p
    case Between(f, params, d) => Frame(f, params, d)
    case Flushing(f, params, d, head) => Chop(head) + Frame(f, params, d)
    case Building(f, params, d, head, room, over) =>
      BuildingOwed(f, over, head, Payload(d), room, Packets(f, params, Rest(d)))
  }

  function BuildingOwed(f: Flags, over: Parameters, head: seq<byte>, pay: seq<byte>, room: nat,
                        later: seq<seq<byte>>): seq<Flit>
  {
    Chop(head + Take(pay, room)) + ChopAll(Overflow(f, over, pay, room) + later)
  }

  // ---- Cutting a beat -----------------------------------------------------

  /** The kept bytes of the lanes before and from lane `cut` on. */
  function Front(b: Beat, cut: nat): seq<byte>
    requires cut <= BEAT
  {
    Kept(b.data[..cut], b.keep[..cut])
  }

  function Tail(b: Beat, cut: nat): seq<byte>
    requires cut <= BEAT
  {
    Kept(b.data[cut..], b.keep[cut..])
  }

  /** Cutting a well-formed input beat at lane `cut`. */
  lemma SplitBeat(b: Beat, cut: nat)
    requires BeatOk(b) && 0 < cut < BEAT
    ensures KeptOf(b) == Front(b, cut) + Tail(b, cut)
    ensures Front(b, cut) != []
    ensures b.keep[cut] <==> Tail(b, cut) != []
    ensures AllClear(b.keep[cut..]) <==> Tail(b, cut) == []
    ensures Tail(b, cut) != [] ==> |Front(b, cut)| == cut && Full(b.keep[..cut]) && SomeLeading(b.keep[cut..])
    ensures !b.last ==> Tail(b, cut) != [] && |KeptOf(b)| == BEAT && Full(b.keep[cut..])
    ensures SomeLeading(b.keep[..cut])
  {
    assert KeptOf(b) == Front(b, cut) + Tail(b, cut) by {
      assert b.data == b.data[..cut] + b.data[cut..] && b.keep == b.keep[..cut] + b.keep[cut..];
      KeptAppend(b.data[..cut], b.keep[..cut], b.data[cut..], b.keep[cut..]);
    }
    SplitKeep(b, cut);
  }

  lemma SplitKeep(b: Beat, cut: nat)
    requires BeatOk(b) && 0 < cut < BEAT
    ensures 0 < |Front(b, cut)| <= cut && SomeLeading(b.keep[..cut])
    ensures b.keep[cut] <==> Tail(b, cut) != []
    ensures AllClear(b.keep[cut..]) <==> Tail(b, cut) == []
    ensures Tail(b, cut) != [] ==> |Front(b, cut)| == cut && Full(b.keep[..cut]) && SomeLeading(b.keep[cut..])
    ensures !b.last ==> |Tail(b, cut)| == BEAT - cut && Full(b.keep[cut..])
  {
    var n: nat :| 1 <= n <= BEAT && Leading(b.keep, n) && (!b.last ==> n == BEAT);
    var m := if n > cut then n - cut else 0;
    assert Leading(b.keep[..cut], n - m);
    KeptLeading(b.data[..cut], b.keep[..cut], n - m);
    assert Leading(b.keep[cut..], m);
    KeptLeading(b.data[cut..], b.keep[cut..], m);
    assert b.keep[cut..][0] == b.keep[cut];
  }

  /** A packet that has at least one more full beat starts with that beat. */
  lemma ChopPeels(head: seq<byte>, front: seq<byte>, rest: seq<byte>)
    requires |head| + |front| == BEAT && rest != []
    ensures Chop(head + (front + rest)) == [Flit(head + front, false)] + Chop(rest)
  {
    assert head + (front + rest) == (head + front) + rest;
    assert ((head + front) + rest)[..BEAT] == head + front && ((head + front) + rest)[BEAT..] == rest;
  }

  lemma TakeBehind(a: seq<byte>, b: seq<byte>, room: nat)
    requires |a| == BEAT <= room
    ensures Take(a + b, room) == a + Take(b, room - BEAT)
  {
  }

  lemma OverflowBehind(f: Flags, p: Parameters, a: seq<byte>, b: seq<byte>, room: nat)
    requires |a| == BEAT <= room
    ensures Overflow(f, p, a + b, room) == Overflow(f, p, b, room - BEAT)
  {
    if |a + b| > room {
      assert Drop(a + b, room) == Drop(b, room - BEAT);
    }
  }

  lemma MessageGoesOn(d: seq<Beat>)
    requires StreamOk(d) && d != [] && !d[0].last
    ensures |KeptOf(d[0])| == BEAT && d[1..] != [] && Payload(d[1..]) != []
    ensures Payload(d) == KeptOf(d[0]) + Payload(d[1..])
  {
    SplitBeat(d[0], 1);
    assert BeatOk(d[1]);
    SplitBeat(d[1], 1);
  }

  lemma ConsJoin(x: Flit, all: seq<Flit>, tail: seq<Flit>, behind: seq<Flit>)
    requires all == [x] + tail
    ensures all + behind == [x] + (tail + behind)
  {
  }

  /** A packet under construction takes the last bytes of its message. */
  lemma TakeLast(f: Flags, p: Parameters, head: seq<byte>, front: seq<byte>, tail: seq<byte>, pay: seq<byte>,
                 room: nat, later: seq<seq<byte>>)
    requires pay == front + tail && |pay| <= BEAT <= room
    requires if tail == [] then |head + front| <= BEAT else |head| + |front| == BEAT && |tail| <= BEAT
    ensures BuildingOwed(f, p, head, pay, room, later) ==
            if tail == [] then [Flit(head + front, true)] + ChopAll(later)
            else [Flit(head + front, false)] + (Chop(tail) + ChopAll(later))
  {
    var packet := Chop(head + Take(pay, room));
    assert BuildingOwed(f, p, head, pay, room, later) == packet + ChopAll(later) by {
      assert [] + later == later;
    }
    assert Take(pay, room) == front + tail;
    if tail == [] {
      assert front + tail == front;
    } else {
      ChopPeels(head, front, tail);
      ConsJoin(Flit(head + front, false), packet, Chop(tail), ChopAll(later));
    }
  }

  /** A packet under construction takes one full beat, with `more` of the message behind it. */
  lemma TakeFull(f: Flags, p: Parameters, head: seq<byte>, front: seq<byte>, tail: seq<byte>, more: seq<byte>,
                 pay: seq<byte>, room: nat, later: seq<seq<byte>>)
    requires pay == (front + tail) + more
    requires |front| + |tail| == BEAT <= room && |head| + |front| == BEAT && tail != []
    ensures BuildingOwed(f, p, head, pay, room, later) ==
            [Flit(head + front, false)] + BuildingOwed(f, p, tail, more, room - BEAT, later)
  {
    var rest := tail + Take(more, room - BEAT);
    OverflowBehind(f, p, front + tail, more, room);
    assert Chop(head + Take((front + tail) + more, room)) == [Flit(head + front, false)] + Chop(rest) by {
      TakeBehind(front + tail, more, room);
      assert (front + tail) + Take(more, room - BEAT) == front + rest;
      ChopPeels(head, front, rest);
    }
    ConsJoin(Flit(head + front, false), Chop(head + Take((front + tail) + more, room)), Chop(rest),
             ChopAll(Overflow(f, p, more, room - BEAT) + later));
  }

  /** With no room left, the packet is its head and everything else is in later packets. */
  lemma NoRoom(f: Flags, p: Parameters, head: seq<byte>, pay: seq<byte>, later: seq<seq<byte>>)
    requires pay != []
    ensures BuildingOwed(f, p, head, pay, 0, later) == Chop(head) + ChopAll(NextPackets(f, p, pay) + later)
  {
    assert head + Take(pay, 0) == head;
    assert Drop(pay, 0) == pay;
  }

  lemma ChopAllCons(x: seq<byte>, xs: seq<seq<byte>>)
    ensures ChopAll([x] + xs) == Chop(x) + ChopAll(xs)
  {
    assert ([x] + xs)[1..] == xs;
  }

  lemma ChopAllMessage(x: seq<byte>, over: seq<seq<byte>>, later: seq<seq<byte>>)
    ensures ChopAll(([x] + over) + later) == Chop(x) + ChopAll(over + later)
  {
    assert ([x] + over) + later == [x] + (over + later);
    ChopAllCons(x, over + later);
  }

  // ---- How plans follow each other ----------------------------------------

  function Started(p: Parameters, f: Flags): seq<byte> { Bth(FirstOpcode(p.length), f, p) + Reth(p) }

  function Continued(p: Parameters, f: Flags): seq<byte> { Bth(NextOpcode(p.length), f, p) }

  /** The plan that opens the first packet of the next message. */
  function Opened(f: Flags, params: seq<Parameters>, d: seq<Beat>): Plan
    requires params != []
  {
    Building(f, params[1..], d, Started(params[0], f), MAX_PAYLOAD_LENGTH, Lower(params[0], MAX_PAYLOAD_LENGTH))
  }

  lemma OpenOwes(f: Flags, params: seq<Parameters>, d: seq<Beat>)
    requires params != [] && d != []
    ensures Owed(Between(f, params, d)) == Owed(Opened(f, params, d))
  {
    var p, pay := params[0], Payload(d);
    ChopAllMessage(FirstPacket(f, p, pay), Overflow(f, Lower(p, MAX_PAYLOAD_LENGTH), pay, MAX_PAYLOAD_LENGTH),
                   Packets(f, params[1..], Rest(d)));
  }

  /** The plan that opens the continuation packet whose length register is `p`'s. */
  function Reopened(f: Flags, params: seq<Parameters>, d: seq<Beat>, p: Parameters): Plan {
    Building(f, params, d, Continued(p, f), MAX_PAYLOAD_LENGTH, Lower(p, MAX_PAYLOAD_LENGTH))
  }

  lemma CloseOwes(f: Flags, params: seq<Parameters>, d: seq<Beat>, head: seq<byte>, p: Parameters)
    requires Payload(d) != [] && |head| <= BEAT
    ensures Owed(Building(f, params, d, head, 0, p)) == [Flit(head, true)] + Owed(Reopened(f, params, d, p))
  {
    var pay, later := Payload(d), Packets(f, params, Rest(d));
    NoRoom(f, p, head, pay, later);
    ChopAllMessage(Continued(p, f) + Take(pay, MAX_PAYLOAD_LENGTH),
                   Overflow(f, Lower(p, MAX_PAYLOAD_LENGTH), pay, MAX_PAYLOAD_LENGTH), later);
  }

  lemma FlushOwes(f: Flags, params: seq<Parameters>, d: seq<Beat>, head: seq<byte>)
    requires |head| <= BEAT
    ensures Owed(Flushing(f, params, d, head)) == [Flit(head, true)] + Owed(Between(f, params, d))
  {
  }

  /** A packet under construction that can take one more beat. */
  predicate Reads(p: Plan) {
    p.Building? && 0 < |p.head| < BEAT <= p.room && p.d != []
  }

  function TailOf(p: Plan): seq<byte>
    requires Reads(p)
  {
    Tail(p.d[0], BEAT - |p.head|)
  }

  /** What taking that beat sends, and the plan it leaves. */
  function ReadFlit(p: Plan): Flit
    requires Reads(p)
  {
    Flit(p.head + Front(p.d[0], BEAT - |p.head|), p.d[0].last && TailOf(p) == [])
  }

  function AfterRead(p: Plan): Plan
    requires Reads(p)
  {
    if !p.d[0].last then p.(head := TailOf(p), d := p.d[1..], room := p.room - BEAT)
    else if TailOf(p) == [] then Between(p.f, p.params, p.d[1..])
    else Flushing(p.f, p.params, p.d[1..], TailOf(p))
  }

  lemma LastReadOwes(p: Plan)
    requires Reads(p) && StreamOk(p.d) && p.d[0].last
    ensures Owed(p) == [ReadFlit(p)] + Owed(AfterRead(p))
  {
    var b, cut := p.d[0], BEAT - |p.head|;
    SplitBeat(b, cut);
    TakeLast(p.f, p.over, p.head, Front(b, cut), Tail(b, cut), Payload(p.d), p.room, Packets(p.f, p.params, p.d[1..]));
  }

  lemma MoreReadOwes(p: Plan)
    requires Reads(p) && StreamOk(p.d) && !p.d[0].last
    ensures Owed(p) == [ReadFlit(p)] + Owed(AfterRead(p))
  {
    var b, cut, later := p.d[0], BEAT - |p.head|, Packets(p.f, p.params, Rest(p.d));
    SplitBeat(b, cut);
    MessageGoesOn(p.d);
    BuildingOwes(p, Payload(p.d), later);
    BuildingOwes(AfterRead(p), Payload(p.d[1..]), later);
    TakeFull(p.f, p.over, p.head, Front(b, cut), Tail(b, cut), Payload(p.d[1..]), Payload(p.d), p.room, later);
  }

  lemma BuildingOwes(p: Plan, pay: seq<byte>, later: seq<seq<byte>>)
    requires p.Building? && pay == Payload(p.d) && later == Packets(p.f, p.params, Rest(p.d))
    ensures Owed(p) == BuildingOwed(p.f, p.over, p.head, pay, p.room, later)
  {
  }

  lemma ReadOwes(p: Plan)
    requires Reads(p) && StreamOk(p.d)
    ensures Owed(p) == [ReadFlit(p)] + Owed(AfterRead(p))
  {
    if p.d[0].last {
      LastReadOwes(p);
    } else {
      MoreReadOwes(p);
    }
  }
}
