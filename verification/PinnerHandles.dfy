/** What a pin's handle is good for: over any run, and against all that other files do. */
module PinnerHandles {
  import opened Bytes
  import opened PinnerScatter
  import opened PinnerLedger

  lemma {:induction false} FindAdjusted(users: seq<User>, id: nat, pinnings: seq<Pinning>)
    requires Has(users, id)
    ensures Has(Adjust(users, id, pinnings), id)
    ensures Find(Adjust(users, id, pinnings), id) == Find(users, id).(pinnings := pinnings)
  {
    if users[0].id != id {
      FindAdjusted(users[1..], id, pinnings);
      assert Adjust(users, id, pinnings)[1..] == Adjust(users[1..], id, pinnings);
    }
  }

  lemma {:induction false} AdjustBack(users: seq<User>, id: nat, pinnings: seq<Pinning>)
    requires Has(users, id)
    ensures Has(Adjust(users, id, pinnings), id)
    ensures Adjust(Adjust(users, id, pinnings), id, Find(users, id).pinnings) == users
  {
    var after := Adjust(users, id, pinnings);
    if users[0].id == id {
      assert after[1..] == users[1..];
    } else {
      AdjustBack(users[1..], id, pinnings);
      assert after[1..] == Adjust(users[1..], id, pinnings);
    }
  }

  /** The handle that a pin returns. */
  function HandleOf(k: Kernel, id: nat, call: PinCall): Handle
    requires Has(k.users, id)
  {
    Handle(Find(k.users, id).magic, call.magic)
  }

  /**
   * A pin that succeeds is undone by unpinning with the handle it returned, even if
   * another pinning of that user has the same magic: the newest is first in the list.
   */
  lemma UnpinUndoesPin(k: Kernel, id: nat, call: PinCall)
    requires Has(k.users, id) && call.Code() == OK
    ensures var pinned := Step(k, Pin(id, call));
            var unpin := Unpin(id, Some(HandleOf(k, id, call)));
            && Enabled(pinned, unpin)
            && Step(pinned, unpin).users == k.users
            && forall x: Page :: Step(pinned, unpin).refs(x) == k.refs(x)
  {
    var p, u := call.NewPinning(), Find(k.users, id);
    var list := [p] + u.pinnings;
    var pinned := Step(k, Pin(id, call));
    FindAdjusted(k.users, id, list);
    AdjustBack(k.users, id, list);
    assert FirstMatch(list, call.magic) == 0;
    assert Without(list, 0) == u.pinnings;
    OnePerEntry(call);
    forall x: Page
      ensures PutAll(pinned.refs, PagesOf(p.sglist))(x) == k.refs(x)
    {
      PinExcess(k.refs, call, x);
      PutAllAt(pinned.refs, PagesOf(p.sglist), x);
    }
  }

  /** An unpin is accepted if and only if both magics match, and changes nothing otherwise. */
  lemma UnpinRefused(k: Kernel, id: nat, h: Handle)
    requires Has(k.users, id)
    ensures UnpinCode(Find(k.users, id), Some(h)) == OK <==>
            h.userMagic == Find(k.users, id).magic &&
            exists p :: p in Find(k.users, id).pinnings && p.magic == h.pinMagic
    ensures UnpinCode(Find(k.users, id), Some(h)) != OK ==> Step(k, Unpin(id, Some(h))) == k
  {
    UnpinCodes(Find(k.users, id), Some(h));
  }

  // ---- Other files ---------------------------------------------------------

  predicate Concerns(e: Event, id: nat) { e.Exit? || e.id == id }

  lemma {:induction false} FindOther(users: seq<User>, id: nat, pinnings: seq<Pinning>, other: nat)
    requires Has(users, id) && Has(users, other) && id != other
    ensures Has(Adjust(users, id, pinnings), other) && Find(Adjust(users, id, pinnings), other) == Find(users, other)
    ensures Has(Remove(users, id), other) && Find(Remove(users, id), other) == Find(users, other)
  {
    if users[0].id == id {
      assert Adjust(users, id, pinnings)[1..] == users[1..];
    } else if users[0].id != other {
      FindOther(users[1..], id, pinnings, other);
      assert Adjust(users, id, pinnings)[1..] == Adjust(users[1..], id, pinnings);
      assert Remove(users, id)[1..] == Remove(users[1..], id);
    }
  }

  /** What one open file does leaves what the others have pinned alone. */
  lemma UsersAreIsolated(k: Kernel, e: Event, other: nat)
    requires Enabled(k, e) && Has(k.users, other) && !Concerns(e, other)
    ensures Has(Step(k, e).users, other) && Find(Step(k, e).users, other) == Find(k.users, other)
  {
    match e
    case Open(id, granted, magic) =>
      if granted {
        assert ([User(id, magic, [])] + k.users)[1..] == k.users;
      }
    case Pin(id, call) =>
      FindOther(k.users, id, [call.NewPinning()] + Find(k.users, id).pinnings, other);
    case Unpin(id, handle) =>
      var u := Find(k.users, id);
      if UnpinCode(u, handle) == OK {
        FindOther(k.users, id, Without(u.pinnings, FirstMatch(u.pinnings, handle.value.pinMagic)), other);
      }
    case Release(id) =>
      FindOther(k.users, id, [], other);
  }

  // ---- A pinning over a run ------------------------------------------------

  /** Where pinning `j` of a user stands after an event; `None` when the event frees it. */
  function Track(k: Kernel, id: nat, j: nat, e: Event): Option<nat>
    requires Enabled(k, e) && Has(k.users, id)
  {
    if !Concerns(e, id) then Some(j)
    else
      match e
      case Open(_, _, _) => Some(j)
      case Pin(_, call) => Some(if call.Code() == OK then j + 1 else j)
      case Unpin(_, handle) =>
        var u := Find(k.users, id);
        if UnpinCode(u, handle) != OK then Some(j)
        else
          var i := FirstMatch(u.pinnings, handle.value.pinMagic);
          if i == j then None else Some(if i < j then j - 1 else j)
      case _ => None
  }

  /** The pinning is still there, and its user still has its magic. */
  predicate Stands(k: Kernel, id: nat, j: nat, magic: u32, p: Pinning) {
    && Has(k.users, id)
    && Find(k.users, id).magic == magic
    && j < |Find(k.users, id).pinnings| && Find(k.users, id).pinnings[j] == p
  }

  /** Taking one pinning out leaves all others, in order. */
  lemma WithoutAt(pinnings: seq<Pinning>, i: nat, j: nat)
    requires i < |pinnings| && j < |pinnings| && i != j
    ensures |Without(pinnings, i)| == |pinnings| - 1
    ensures Without(pinnings, i)[if i < j then j - 1 else j] == pinnings[j]
  {
  }

  lemma TrackUnpin(k: Kernel, id: nat, j: nat, handle: Option<Handle>, magic: u32, p: Pinning)
    requires Stands(k, id, j, magic, p)
    ensures match Track(k, id, j, Unpin(id, handle))
            case Some(i) => Stands(UnpinStep(k, id, handle), id, i, magic, p)
            case None => true
  {
    var u := Find(k.users, id);
    if UnpinCode(u, handle) == OK {
      var i := FirstMatch(u.pinnings, handle.value.pinMagic);
      if i != j {
        WithoutAt(u.pinnings, i, j);
        FindAdjusted(k.users, id, Without(u.pinnings, i));
      }
    }
  }

  /** A pin puts its pinning at the head. */
  lemma PinStands(k: Kernel, id: nat, call: PinCall)
    requires Has(k.users, id) && call.Code() == OK
    ensures Stands(Step(k, Pin(id, call)), id, 0, Find(k.users, id).magic, call.NewPinning())
    ensures Find(Step(k, Pin(id, call)).users, id).pinnings == [call.NewPinning()] + Find(k.users, id).pinnings
  {
    FindAdjusted(k.users, id, [call.NewPinning()] + Find(k.users, id).pinnings);
  }

  lemma TrackPin(k: Kernel, id: nat, j: nat, call: PinCall, magic: u32, p: Pinning)
    requires Stands(k, id, j, magic, p)
    ensures Stands(PinStep(k, id, call), id, if call.Code() == OK then j + 1 else j, magic, p)
  {
    if call.Code() == OK {
      FindAdjusted(k.users, id, [call.NewPinning()] + Find(k.users, id).pinnings);
    }
  }

  lemma TrackSound(k: Kernel, id: nat, j: nat, e: Event, magic: u32, p: Pinning)
    requires Enabled(k, e) && Stands(k, id, j, magic, p)
    ensures match Track(k, id, j, e)
            case Some(i) => Stands(Step(k, e), id, i, magic, p)
            case None => true
  {
    if !Concerns(e, id) {
      UsersAreIsolated(k, e, id);
    } else if e.Pin? {
      TrackPin(k, id, j, e.call, magic, p);
    } else if e.Unpin? {
      TrackUnpin(k, id, j, e.handle, magic, p);
    }
  }

  /** A newer pinning of the user with the same magic hides this one. */
  predicate Hidden(pinnings: seq<Pinning>, j: nat, magic: u32)
    requires j <= |pinnings|
  {
    exists i :: 0 <= i < j && pinnings[i].magic == magic
  }

  lemma FirstIs(pinnings: seq<Pinning>, j: nat, magic: u32)
    requires j < |pinnings|
    ensures FirstMatch(pinnings, magic) == j <==> pinnings[j].magic == magic && !Hidden(pinnings, j, magic)
  {
  }

  /**
   * A pinning is lost exactly when the module goes, its file is closed, or an unpin names it:
   * with its user's magic and its own, and no newer pinning has that.
   */
  lemma FreedExactly(k: Kernel, id: nat, j: nat, e: Event)
    requires Enabled(k, e) && Has(k.users, id) && j < |Find(k.users, id).pinnings|
    ensures Track(k, id, j, e) == None <==>
            || e.Exit?
            || (e.Release? && e.id == id)
            || (e.Unpin? && e.id == id && e.handle.Some? && e.handle.value.userMagic == Find(k.users, id).magic
                && Find(k.users, id).pinnings[j].magic == e.handle.value.pinMagic
                && !Hidden(Find(k.users, id).pinnings, j, e.handle.value.pinMagic))
  {
    if e.Unpin? && e.id == id && e.handle.Some? {
      FirstIs(Find(k.users, id).pinnings, j, e.handle.value.pinMagic);
    }
  }

  /** The same over a run; `None` also when there is no such pinning to begin with. */
  function TrackRun(k: Kernel, id: nat, j: nat, es: seq<Event>): Option<nat>
    requires Legal(k, es)
    decreases |es|
  {
    if !Has(k.users, id) || j >= |Find(k.users, id).pinnings| then None
    else if es == [] then Some(j)
    else
      match Track(k, id, j, es[0])
      case None => None
      case Some(i) => TrackRun(Step(k, es[0]), id, i, es[1..])
  }

  lemma {:induction false} TrackRunSound(k: Kernel, id: nat, j: nat, es: seq<Event>, magic: u32, p: Pinning)
    requires Legal(k, es) && Stands(k, id, j, magic, p)
    ensures match TrackRun(k, id, j, es)
            case Some(i) => Stands(Run(k, es), id, i, magic, p)
            case None => true
    decreases |es|
  {
    if es != [] {
      TrackSound(k, id, j, es[0], magic, p);
      var t := Track(k, id, j, es[0]);
      if t.Some? {
        TrackRunSound(Step(k, es[0]), id, t.value, es[1..], magic, p);
      }
    }
  }

  /**
   * A handle over any run in which its pinning stays live, whatever the same user and the
   * others do: it is always accepted, and it frees that very pinning if and only if no
   * newer live pinning of the user has the same magic.
   */
  lemma HandleAfterAnyRun(k: Kernel, id: nat, call: PinCall, es: seq<Event>, j: nat)
    requires Has(k.users, id) && call.Code() == OK && Legal(Step(k, Pin(id, call)), es)
    requires TrackRun(Step(k, Pin(id, call)), id, 0, es) == Some(j)
    ensures var later, unpin := Run(Step(k, Pin(id, call)), es), Unpin(id, Some(HandleOf(k, id, call)));
            && Stands(later, id, j, Find(k.users, id).magic, call.NewPinning())
            && UnpinCode(Find(later.users, id), unpin.handle) == OK
            && (Track(later, id, j, unpin) == None <==> !Hidden(Find(later.users, id).pinnings, j, call.magic))
            && (!Hidden(Find(later.users, id).pinnings, j, call.magic) ==> Step(later, unpin) == FreeStep(later, id, j))
  {
    var later := Run(Step(k, Pin(id, call)), es);
    PinStands(k, id, call);
    TrackRunSound(Step(k, Pin(id, call)), id, 0, es, Find(k.users, id).magic, call.NewPinning());
    FirstIs(Find(later.users, id).pinnings, j, call.magic);
  }

  predicate NoneConcerns(es: seq<Event>, id: nat) { forall i :: 0 <= i < |es| ==> !Concerns(es[i], id) }

  /** Runs of the others leave a user alone. */
  lemma {:induction false} RunsAreIsolated(k: Kernel, es: seq<Event>, other: nat)
    requires Legal(k, es) && Has(k.users, other) && NoneConcerns(es, other)
    ensures Has(Run(k, es).users, other) && Find(Run(k, es).users, other) == Find(k.users, other)
    decreases |es|
  {
    if es != [] {
      UsersAreIsolated(k, es[0], other);
      RunsAreIsolated(Step(k, es[0]), es[1..], other);
    }
  }

  /** Pin, any run of the others, unpin: the user has what it had and the pages have been given back. */
  lemma HandleSurvivesOthers(k: Kernel, id: nat, call: PinCall, es: seq<Event>, x: Page)
    requires Has(k.users, id) && call.Code() == OK
    requires Legal(Step(k, Pin(id, call)), es) && NoneConcerns(es, id)
    ensures var later := Run(Step(k, Pin(id, call)), es);
            && Has(later.users, id)
            && UnpinCode(Find(later.users, id), Some(HandleOf(k, id, call))) == OK
            && var after := Step(later, Unpin(id, Some(HandleOf(k, id, call))));
               && Has(after.users, id)
               && Find(after.users, id) == Find(k.users, id)
               && after.refs(x) == later.refs(x) - Occurrences(call.Wanted(), x)
  {
    var p, u := call.NewPinning(), Find(k.users, id);
    var list := [p] + u.pinnings;
    PinStands(k, id, call);
    RunsAreIsolated(Step(k, Pin(id, call)), es, id);
    var later := Run(Step(k, Pin(id, call)), es);
    assert FirstMatch(list, call.magic) == 0;
    assert Without(list, 0) == u.pinnings;
    FindAdjusted(later.users, id, u.pinnings);
    OnePerEntry(call);
    PutAllAt(later.refs, PagesOf(p.sglist), x);
  }
}
