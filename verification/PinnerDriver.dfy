/**
 * The pinner driver's code over its lists and page references. Each entry point does one
 * step of the state machine in `PinnerLedger`, on every error path.
 */
module PinnerDriver {
  import opened Bytes
  import opened PinnerScatter
  import opened PinnerLedger

  const ENOSYS: int := -38

  const PINNER_PIN: nat := 1
  const PINNER_UNPIN: nat := 2
  const PINNER_FLUSH: nat := 3

  /** What the driver keeps per open file. */
  class ProcInfo {
    const id: nat
    const magic: u32
    var pinnings: seq<Pinning>

    constructor (id: nat, magic: u32)
      ensures Value() == User(id, magic, [])
    {
      this.id := id;
      this.magic := magic;
      pinnings := [];
    }

    function Value(): User
      reads this
    {
      User(id, magic, pinnings)
    }

    /** The search of unpin and flush. */
    method FindPinning(pinMagic: u32) returns (found: nat)
      ensures found == FirstMatch(pinnings, pinMagic)
    {
      found := 0;
      assert pinnings[0..] == pinnings;
      while found < |pinnings| && pinnings[found].magic != pinMagic
        invariant found <= |pinnings|
        invariant FirstMatch(pinnings, pinMagic) == found + FirstMatch(pinnings[found..], pinMagic)
      {
        assert pinnings[found..][1..] == pinnings[found + 1..];
        found := found + 1;
      }
    }

    /** `pinner_do_flush` as far as the lists go. */
    method DoFlush(handle: Option<Handle>) returns (code: int)
      ensures code == UnpinCode(Value(), handle)
    {
      if handle.None? {
        return EAGAIN;
      }
      if handle.value.userMagic != magic {
        return EINVAL;
      }
      var found := FindPinning(handle.value.pinMagic);
      code := if found == |pinnings| then EINVAL else OK;
    }
  }

  function Snapshot(users: seq<ProcInfo>): (r: seq<User>)
    reads users
    ensures |r| == |users| && forall i :: 0 <= i < |r| ==> r[i] == users[i].Value()
  {
    if users == [] then [] else [users[0].Value()] + Snapshot(users[1..])
  }

  /** `list_del`. */
  function Unlinked(users: seq<ProcInfo>, info: ProcInfo): (r: seq<ProcInfo>)
    requires info in users
    ensures forall u :: u in r ==> u in users
  {
    if users[0] == info then users[1..] else [users[0]] + Unlinked(users[1..], info)
  }

  lemma {:induction false} HasAt(users: seq<User>, i: nat)
    requires i < |users|
    ensures Has(users, users[i].id)
  {
    if i > 0 {
      HasAt(users[1..], i - 1);
    }
  }

  /** When only one user's pinnings have changed, the snapshot has changed there only. */
  lemma {:induction false} SnapshotAdjusted(users: seq<ProcInfo>, info: ProcInfo, before: seq<User>)
    requires info in users && |before| == |users| && Distinct(before)
    requires forall i :: 0 <= i < |users| ==>
               if users[i] == info then before[i].(pinnings := info.pinnings) == info.Value()
               else before[i] == users[i].Value()
    ensures Has(before, info.id)
    ensures Snapshot(users) == Adjust(before, info.id, info.pinnings)
  {
    if users[0] == info {
      forall i | 0 < i < |users|
        ensures before[i] == users[i].Value()
      {
        HasAt(before[1..], i - 1);
      }
      assert Snapshot(users)[1..] == before[1..];
    } else {
      SnapshotAdjusted(users[1..], info, before[1..]);
      assert before[0].id != info.id;
    }
  }

  lemma {:induction false} FindSnapshot(users: seq<ProcInfo>, info: ProcInfo)
    requires info in users && Distinct(Snapshot(users))
    ensures Has(Snapshot(users), info.id) && Find(Snapshot(users), info.id) == info.Value()
  {
    assert Snapshot(users)[1..] == Snapshot(users[1..]);
    if users[0] != info {
      FindSnapshot(users[1..], info);
    }
  }

  lemma {:induction false} SnapshotWithout(users: seq<ProcInfo>, info: ProcInfo)
    requires info in users && Distinct(Snapshot(users))
    ensures Has(Snapshot(users), info.id)
    ensures Snapshot(Unlinked(users, info)) == Remove(Snapshot(users), info.id)
  {
    assert Snapshot(users)[1..] == Snapshot(users[1..]);
    if users[0] != info {
      SnapshotWithout(users[1..], info);
      FindSnapshot(users[1..], info);
      assert Unlinked(users, info)[1..] == Unlinked(users[1..], info);
    }
  }

  lemma {:induction false} RemoveAdjusted(users: seq<User>, id: nat, pinnings: seq<Pinning>)
    requires Has(users, id)
    ensures Has(Adjust(users, id, pinnings), id)
    ensures Remove(Adjust(users, id, pinnings), id) == Remove(users, id)
  {
    if users[0].id != id {
      RemoveAdjusted(users[1..], id, pinnings);
      assert Adjust(users, id, pinnings)[1..] == Adjust(users[1..], id, pinnings);
    }
  }

  /** Once a user's pinnings are freed, unlinking it leaves the others as they were. */
  lemma SnapshotFreed(users: seq<ProcInfo>, info: ProcInfo, before: seq<User>)
    requires info in users && |before| == |users| && Distinct(before) && info.pinnings == []
    requires forall i :: 0 <= i < |users| ==>
               if users[i] == info then before[i].(pinnings := info.pinnings) == info.Value()
               else before[i] == users[i].Value()
    ensures Has(before, info.id) && Snapshot(Unlinked(users, info)) == Remove(before, info.id)
  {
    SnapshotAdjusted(users, info, before);
    AdjustDistinct(before, info.id, []);
    SnapshotWithout(users, info);
    RemoveAdjusted(before, info.id, []);
  }

  lemma TakeNext(c: Counts, pages: seq<Page>, i: nat)
    requires i < |pages|
    ensures TakeAll(c, pages[..i + 1]) == Bump(TakeAll(c, pages[..i]), pages[i], 1)
  {
    assert pages[..i + 1][..i] == pages[..i];
  }

  lemma PutNext(c: Counts, pages: seq<Page>, i: nat)
    requires i < |pages|
    ensures PutAll(c, pages[..i + 1]) == Bump(PutAll(c, pages[..i]), pages[i], -1)
  {
    assert pages[..i + 1][..i] == pages[..i];
  }

  /** The driver: its list of users, newest first, and the page references it holds. */
  class Driver {
    var users: seq<ProcInfo>
    var refs: Counts

    constructor ()
      ensures State() == Loaded()
    {
      users, refs := [], Loaded().refs;
    }

    ghost function State(): Kernel
      reads this, users
    {
      Kernel(Snapshot(users), refs)
    }

    /** Each file has one entry in the list. */
    ghost predicate Valid()
      reads this, users
    {
      Distinct(Snapshot(users))
    }

    // ---- Page references --------------------------------------------------

    /** One reference less. */
    method PutPage(page: Page)
      modifies this`refs
      ensures refs == Bump(old(refs), page, -1)
    {
      refs := Bump(refs, page, -1);
    }

    /** One reference more. */
    method GetPage(page: Page)
      modifies this`refs
      ensures refs == Bump(old(refs), page, 1)
    {
      refs := Bump(refs, page, 1);
    }

    /** A new array of page pointers, as `get_user_pages_fast` leaves it: the slots it did not reach are stale. */
    static method PageArray(call: PinCall, firstPage: nat, numPages: nat, pinned: nat) returns (p: array<Page>)
      requires firstPage == call.usrBuf / PAGE_SIZE && numPages == call.Count()
      requires pinned == Min(call.pinnable, numPages)
      ensures fresh(p) && p[..] == call.Slots()
    {
      p := new Page[numPages](i requires 0 <= i => if i < pinned then call.pt(firstPage + i) else call.stale(i));
    }

    /** `get_user_pages_fast`: one reference for each page it could pin. */
    method GetUserPages(p: array<Page>, pinned: nat)
      requires pinned <= p.Length
      modifies this`refs
      ensures refs == TakeAll(old(refs), p[..pinned])
    {
      ghost var pages := p[..pinned];
      for i := 0 to pinned
        modifies this`refs
        invariant refs == TakeAll(old(refs), pages[..i])
      {
        TakeNext(old(refs), pages, i);
        GetPage(p[i]);
      }
      assert pages[..pinned] == pages;
    }

    /** `put_page_list`: every slot, whether it was pinned or not. */
    method PutPageList(p: array<Page>)
      modifies this`refs
      ensures refs == PutAll(old(refs), p[..])
    {
      ghost var pages := p[..];
      for i := 0 to p.Length
        modifies this`refs
        invariant refs == PutAll(old(refs), pages[..i])
      {
        PutNext(old(refs), pages, i);
        PutPage(p[i]);
      }
      assert pages[..|pages|] == pages;
    }

    /** `pinner_put_sglist_pages`; a pinning whose list could not be allocated has none. */
    method PutSglistPages(list: Option<seq<SgEntry>>)
      modifies this`refs
      ensures refs == if list.None? then old(refs) else PutAll(old(refs), PagesOf(list.value))
    {
      if list.None? {
        return;
      }
      var sglist := list.value;
      ghost var pages := PagesOf(sglist);
      for i := 0 to |sglist|
        modifies this`refs
        invariant refs == PutAll(old(refs), pages[..i])
      {
        PutNext(old(refs), pages, i);
        PutPage(sglist[i].page);
      }
      assert pages[..|pages|] == pages;
    }

    // ---- Giving pinnings back ---------------------------------------------

    /** `pinner_free_pinning` on a pinning in the list. */
    method FreePinning(info: ProcInfo, i: nat)
      requires i < |info.pinnings|
      modifies this`refs, info`pinnings
      ensures refs == PutAll(old(refs), PagesOf(old(info.pinnings)[i].sglist))
      ensures info.pinnings == Without(old(info.pinnings), i)
    {
      PutSglistPages(Some(info.pinnings[i].sglist));
      info.pinnings := info.pinnings[..i] + info.pinnings[i + 1..];
    }

    /** `pinner_free_pinnings`. */
    method FreePinnings(info: ProcInfo)
      modifies this`refs, info`pinnings
      ensures refs == PutPinnings(old(refs), old(info.pinnings)) && info.pinnings == []
    {
      while info.pinnings != []
        modifies this`refs, info`pinnings
        invariant PutPinnings(refs, info.pinnings) == PutPinnings(old(refs), old(info.pinnings))
        decreases |info.pinnings|
      {
        assert Without(info.pinnings, 0) == info.pinnings[1..];
        FreePinning(info, 0);
      }
    }

    /** `pinner_free_proc_info`. */
    method FreeProcInfo(info: ProcInfo)
      requires Valid() && info in users
      modifies this, info
      ensures Valid() && old(Has(State().users, info.id))
      ensures State() == ReleaseStep(old(State()), info.id)
      ensures users == Unlinked(old(users), info) && forall u :: u in users ==> u in old(users)
    {
      ghost var k := State();
      FindSnapshot(users, info);
      FreePinnings(info);
      SnapshotFreed(users, info, k.users);
      users := Unlinked(users, info);
      RemoveDistinct(k.users, info.id);
    }

    // ---- Entry points -----------------------------------------------------

    /** `pinner_open`. */
    method Open(id: nat, granted: bool, magic: u32) returns (code: int, info: ProcInfo?)
      requires Valid() && !Has(State().users, id)
      modifies this
      ensures Valid() && State() == Step(old(State()), Event.Open(id, granted, magic))
      ensures granted ==> code == 0 && info != null && users == [info] + old(users) && refs == old(refs)
      ensures granted ==> info.id == id && info.magic == magic && info.pinnings == []
      ensures !granted ==> code == -12 && info == null && users == old(users) && refs == old(refs)
    {
      if !granted {
        return ENOMEM, null;
      }
      info := new ProcInfo(id, magic);
      ghost var others := users;
      users := [info] + users;
      assert users[1..] == others;
      code := OK;
    }

    /** `pinner_release`. */
    method Release(info: ProcInfo)
      requires Valid() && info in users
      modifies this, info
      ensures Valid() && old(Has(State().users, info.id))
      ensures State() == Step(old(State()), Event.Release(info.id))
    {
      FreeProcInfo(info);
    }

    /** `pinner_exit`. */
    method Exit()
      requires Valid()
      modifies this, users
      ensures Valid() && State() == Step(old(State()), Event.Exit)
    {
      ghost var k := State();
      while users != []
        modifies this, old(users)
        invariant Valid() && forall u :: u in users ==> u in old(users)
        invariant PutUsers(refs, Snapshot(users)) == PutUsers(k.refs, k.users)
        decreases |users|
      {
        var first := users[0];
        assert first in users && first in old(users);
        FreeProcInfo(first);
      }
    }

    /** `pinner_do_unpin`. */
    method DoUnpin(info: ProcInfo, handle: Option<Handle>) returns (code: int)
      modifies this`refs, info`pinnings
      ensures code == old(UnpinCode(info.Value(), handle))
      ensures code != OK ==> refs == old(refs) && info.pinnings == old(info.pinnings)
      ensures code == OK ==>
                var was := old(info.pinnings);
                var i := FirstMatch(was, handle.value.pinMagic);
                refs == PutAll(old(refs), PagesOf(was[i].sglist)) && info.pinnings == Without(was, i)
    {
      if handle.None? {
        return EAGAIN;
      }
      if handle.value.userMagic != info.magic {
        return EINVAL;
      }
      var found := info.FindPinning(handle.value.pinMagic);
      if found == |info.pinnings| {
        return EINVAL;
      }
      FreePinning(info, found);
      code := OK;
    }

    /**
     * `pinner_do_pin`; the physical list and the handle are what user space gets. A failed
     * pin has restored every count if and only if neither of the two failures happened.
     */
    method DoPin(info: ProcInfo, call: PinCall) returns (code: int, entries: seq<PhysEntry>, handle: Handle)
      modifies this`refs, info`pinnings
      ensures code == call.Code() && refs == call.Refs(old(refs))
      ensures info.pinnings == if code == OK then [call.NewPinning()] + old(info.pinnings) else old(info.pinnings)
      ensures code == OK ==> entries == Physlist(call.NewPinning().sglist) && handle == Handle(info.magic, call.magic)
      ensures code != OK ==>
                ((forall x: Page :: refs(x) == old(refs(x))) <==> !call.ShortPin() && !call.LostList())
    {
      ghost var was := refs;
      entries, handle := [], Handle(0, 0);
      if call.Code() != OK {
        RefsRestored(was, call);
      }
      var start := call.usrBuf / PAGE_SIZE * PAGE_SIZE;
      var firstPgOffset := call.usrBuf - start;
      var numPages := (firstPgOffset + call.size + (PAGE_SIZE - 1)) / PAGE_SIZE;
      if numPages > PINNER_MAX_PAGES {
        code := EINVAL;
      } else if numPages <= 0 {
        code := EINVAL;
      } else if !call.arrayAllocated {
        code := ENOMEM;
      } else {
        code, entries, handle := PinPages(info, call, start / PAGE_SIZE, firstPgOffset, numPages);
      }
    }

    /** From pinning the pages on. */
    method PinPages(info: ProcInfo, call: PinCall, firstPage: nat, firstPgOffset: nat, numPages: nat)
      returns (code: int, entries: seq<PhysEntry>, handle: Handle)
      requires firstPage == call.usrBuf / PAGE_SIZE && firstPgOffset == call.usrBuf % PAGE_SIZE
      requires numPages == call.Count() && call.Sized() && call.arrayAllocated
      modifies this`refs, info`pinnings
      ensures code == call.Code() && refs == call.Refs(old(refs))
      ensures info.pinnings == if code == OK then [call.NewPinning()] + old(info.pinnings) else old(info.pinnings)
      ensures code == OK ==> entries == Physlist(call.NewPinning().sglist) && handle == Handle(info.magic, call.magic)
    {
      entries, handle := [], Handle(0, 0);
      var n := if call.pinnable < numPages then call.pinnable else numPages;
      var p := PageArray(call, firstPage, numPages, n);
      GetUserPages(p, n);
      assert p[..n] == call.Taken();
      if n != numPages {
        PutPageList(p);
        code := EAGAIN;
      } else if !call.pinAllocated {
        PutPageList(p);
        code := ENOMEM;
      } else if !call.listAllocated {
        PutSglistPages(None);
        code := ENOMEM;
      } else {
        code, entries, handle := CompletePin(info, call, p, firstPgOffset);
      }
    }

    /** The part that manages the pages through a pinning, and frees that on an error. */
    method CompletePin(info: ProcInfo, call: PinCall, p: array<Page>, firstPgOffset: nat)
      returns (code: int, entries: seq<PhysEntry>, handle: Handle)
      requires call.Sized() && p.Length == call.Count() && firstPgOffset == call.usrBuf % PAGE_SIZE
      requires p[..] == call.Wanted()
      modifies this`refs, info`pinnings
      ensures code == call.LateCode()
      ensures refs == if code == OK then old(refs) else PutAll(old(refs), PagesOf(call.NewPinning().sglist))
      ensures info.pinnings == if code == OK then [call.NewPinning()] + old(info.pinnings) else old(info.pinnings)
      ensures code == OK ==> entries == Physlist(call.NewPinning().sglist) && handle == Handle(info.magic, call.magic)
    {
      handle := Handle(0, 0);
      var sglist := FillSglist(p, p.Length, firstPgOffset, call.size);
      assert p[..p.Length] == p[..];
      var pin := Pinning(call.magic, sglist[..]);
      assert pin == call.NewPinning();
      info.pinnings := [pin] + info.pinnings;
      code, entries := MapAndSend(sglist, call);
      if code == OK {
        handle := Handle(info.magic, call.magic);
      } else {
        assert Without(info.pinnings, 0) == old(info.pinnings);
        FreePinning(info, 0);
      }
    }

    /** The answers after the insertion: mapping, the list for user space, the handle. */
    method MapAndSend(sglist: array<SgEntry>, call: PinCall) returns (code: int, entries: seq<PhysEntry>)
      ensures code == call.LateCode()
      ensures code == OK ==> entries == Physlist(sglist[..])
    {
      entries := [];
      if call.dmaResult < 0 {
        return call.dmaResult, entries;
      }
      if !call.entriesAllocated {
        return ENOMEM, entries;
      }
      var list := SendPhyslist(sglist, sglist.Length);
      if !call.countCopied || !call.entriesCopied {
        return EAGAIN, entries;
      }
      entries := list[..];
      code := if call.handleCopied then OK else EAGAIN;
    }

    /** A pin command is one step of the state machine. */
    method Pin(info: ProcInfo, call: PinCall) returns (code: int, entries: seq<PhysEntry>, handle: Handle)
      requires Valid() && info in users
      modifies this`refs, info`pinnings
      ensures Valid() && old(Has(State().users, info.id))
      ensures State() == PinStep(old(State()), info.id, call) && code == call.Code()
      ensures code == OK ==> entries == Physlist(call.NewPinning().sglist) && handle == Handle(info.magic, call.magic)
    {
      ghost var k := State();
      FindSnapshot(users, info);
      SnapshotSame(users, info, k.users);
      code, entries, handle := DoPin(info, call);
      SnapshotAdjusted(users, info, k.users);
      AdjustDistinct(k.users, info.id, info.pinnings);
    }

    /** So is an unpin command. */
    method Unpin(info: ProcInfo, handle: Option<Handle>) returns (code: int)
      requires Valid() && info in users
      modifies this`refs, info`pinnings
      ensures Valid() && old(Has(State().users, info.id))
      ensures State() == UnpinStep(old(State()), info.id, handle) && code == old(UnpinCode(info.Value(), handle))
    {
      ghost var k := State();
      FindSnapshot(users, info);
      SnapshotSame(users, info, k.users);
      code := DoUnpin(info, handle);
      SnapshotAdjusted(users, info, k.users);
      AdjustDistinct(k.users, info.id, info.pinnings);
    }

    /**
     * `pinner_write`: one command. `sized` and `copied` say whether the command was read. Only
     * a pin and an unpin change anything: a buffer stays pinned through a flush.
     */
    method Write(info: ProcInfo, sized: bool, copied: bool, cmd: u32, call: PinCall, handle: Option<Handle>)
      returns (code: int, entries: seq<PhysEntry>, result: Handle)
      requires Valid() && info in users
      modifies this`refs, info`pinnings
      ensures Valid() && old(Has(State().users, info.id))
      ensures sized && copied && cmd == 1 ==>
                State() == Step(old(State()), Event.Pin(info.id, call)) && code == call.Code()
      ensures sized && copied && cmd == 2 ==>
                && State() == Step(old(State()), Event.Unpin(info.id, handle))
                && code == old(UnpinCode(info.Value(), handle))
      ensures !sized || !copied || cmd !in {1, 2} ==> State() == old(State())
      ensures sized && copied && cmd == 3 ==> code == old(UnpinCode(info.Value(), handle))
      ensures !sized ==> code == -22
      ensures sized && !copied ==> code == -11
      ensures sized && copied && cmd !in {1, 2, 3} ==> code == -38
      ensures code == 0 && cmd == 1 ==>
                entries == Physlist(call.NewPinning().sglist) && result == Handle(info.magic, call.magic)
    {
      entries, result := [], Handle(0, 0);
      FindSnapshot(users, info);
      if !sized {
        return EINVAL, entries, result;
      }
      if !copied {
        return EAGAIN, entries, result;
      }
      if cmd == PINNER_PIN {
        code, entries, result := Pin(info, call);
      } else if cmd == PINNER_UNPIN {
        code := Unpin(info, handle);
      } else if cmd == PINNER_FLUSH {
        code := info.DoFlush(handle);
      } else {
        code := ENOSYS;
      }
    }
  }

  lemma RefsRestored(c: Counts, call: PinCall)
    requires call.Code() != OK
    ensures (forall x: Page :: call.Refs(c)(x) == c(x)) <==> !call.ShortPin() && !call.LostList()
  {
    FailedPinRestores(Kernel([User(0, 0, [])], c), 0, call);
  }

  /** Writing back what is there changes nothing. */
  lemma SnapshotSame(users: seq<ProcInfo>, info: ProcInfo, before: seq<User>)
    requires info in users && before == Snapshot(users) && Distinct(before)
    ensures Has(before, info.id) && Adjust(before, info.id, info.pinnings) == before
  {
    SnapshotAdjusted(users, info, before);
  }
}
