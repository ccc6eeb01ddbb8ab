/**
 * The pinner's bookkeeping as a state machine: who has the device open, what each has
 * pinned, and how many references to each page the driver has taken and not put. Over
 * every run the references are the live scatter entries, but for what two error paths of
 * a pin leave behind; how much that is, is stated exactly.
 */
module PinnerLedger {
  import opened Bytes
  import opened PinnerScatter

  const OK: int := 0
  const EAGAIN: int := -11
  const ENOMEM: int := -12
  const EINVAL: int := -22

  datatype Pinning = Pinning(magic: u32, sglist: seq<SgEntry>)

  /** An open file's `proc_info`; `id` stands for its identity. */
  datatype User = User(id: nat, magic: u32, pinnings: seq<Pinning>)

  /** References taken minus references put, page by page: one put too many shows as a negative number. */
  type Counts = Page -> int

  /** The driver's lists, newest first, and its page references. */
  datatype Kernel = Kernel(users: seq<User>, refs: Counts)

  datatype Handle = Handle(userMagic: u32, pinMagic: u32)

  // ---- Taking and putting references ---------------------------------------

  function Bump(c: Counts, page: Page, n: int): Counts { (x: Page) => if x == page then c(x) + n else c(x) }

  /** `get_page` on each page of a list. */
  function TakeAll(c: Counts, pages: seq<Page>): Counts {
    if pages == [] then c else Bump(TakeAll(c, pages[..|pages| - 1]), pages[|pages| - 1], 1)
  }

  /** `put_page` on each page of a list. */
  function PutAll(c: Counts, pages: seq<Page>): Counts {
    if pages == [] then c else Bump(PutAll(c, pages[..|pages| - 1]), pages[|pages| - 1], -1)
  }

  /** The pages of a scatter list, one for each entry. */
  function PagesOf(sglist: seq<SgEntry>): (r: seq<Page>)
    ensures |r| == |sglist| && forall i :: 0 <= i < |r| ==> r[i] == sglist[i].page
  {
    seq(|sglist|, i requires 0 <= i < |sglist| => sglist[i].page)
  }

  /** A user's pinnings are freed from the head of the list. */
  function PutPinnings(c: Counts, pinnings: seq<Pinning>): Counts
    decreases |pinnings|
  {
    if pinnings == [] then c else PutPinnings(PutAll(c, PagesOf(pinnings[0].sglist)), pinnings[1..])
  }

  function PutUsers(c: Counts, users: seq<User>): Counts
    decreases |users|
  {
    if users == [] then c else PutUsers(PutPinnings(c, users[0].pinnings), users[1..])
  }

  // ---- What the lists account for -----------------------------------------

  function PlacesOf(pages: seq<Page>, x: Page): set<nat> { set i | 0 <= i < |pages| && pages[i] == x }

  /** How often a list names a page. */
  function Occurrences(pages: seq<Page>, x: Page): nat { |PlacesOf(pages, x)| }

  function NamingBy(pinnings: seq<Pinning>, x: Page): nat {
    if pinnings == [] then 0 else Occurrences(PagesOf(pinnings[0].sglist), x) + NamingBy(pinnings[1..], x)
  }

  /** Live scatter entries, over all users, that name a page. */
  function LiveEntries(users: seq<User>, x: Page): nat {
    if users == [] then 0 else NamingBy(users[0].pinnings, x) + LiveEntries(users[1..], x)
  }

  predicate Has(users: seq<User>, id: nat) { users != [] && (users[0].id == id || Has(users[1..], id)) }

  predicate Distinct(users: seq<User>) {
    users == [] || (!Has(users[1..], users[0].id) && Distinct(users[1..]))
  }

  /** References to a page beyond its live entries. */
  function Excess(k: Kernel, x: Page): int { k.refs(x) - LiveEntries(k.users, x) }

  /** The ledger: each page has as many references as live scatter entries name it. */
  ghost predicate Balanced(k: Kernel) { forall x: Page :: Excess(k, x) == 0 }

  // ---- Lists of users ------------------------------------------------------

  function Find(users: seq<User>, id: nat): (u: User)
    requires Has(users, id)
    ensures u in users && u.id == id
  {
    if users[0].id == id then users[0] else Find(users[1..], id)
  }

  function Adjust(users: seq<User>, id: nat, pinnings: seq<Pinning>): seq<User>
    requires Has(users, id)
  {
    if users[0].id == id then [users[0].(pinnings := pinnings)] + users[1..]
    else [users[0]] + Adjust(users[1..], id, pinnings)
  }

  function Remove(users: seq<User>, id: nat): seq<User>
    requires Has(users, id)
  {
    if users[0].id == id then users[1..] else [users[0]] + Remove(users[1..], id)
  }

  // ---- A pin request -------------------------------------------------------

  /**
   * A pin request and what the kernel answers on the way. Of the buffer's pages it can pin
   * the first `pinnable`; `stale` are the pages that the slots of a newly allocated page
   * array happen to point to.
   */
  datatype PinCall = PinCall(pt: PageTable, usrBuf: nat, size: u32, arrayAllocated: bool, pinnable: nat,
                             stale: nat -> Page, pinAllocated: bool, listAllocated: bool, magic: u32,
                             dmaResult: int, entriesAllocated: bool, countCopied: bool,
                             entriesCopied: bool, handleCopied: bool)
  {
    function Count(): nat { PageCount(usrBuf % PAGE_SIZE, size) }

    predicate Sized() { 0 < Count() <= PINNER_MAX_PAGES }

    function Wanted(): (r: seq<Page>)
      ensures |r| == Count()
    {
      PinnedPages(pt, usrBuf, size)
    }

    /** The pages that were pinned. */
    function Taken(): seq<Page> { Wanted()[..Min(pinnable, Count())] }

    /** What is in the slots behind those. */
    function Leftover(): seq<Page> {
      var n := Min(pinnable, Count());
      seq(Count() - n, i requires 0 <= i => stale(n + i))
    }

    /** The whole page array. */
    function Slots(): seq<Page> { Taken() + Leftover() }

    function SendCode(): int {
      if !entriesAllocated then ENOMEM else if countCopied && entriesCopied then OK else EAGAIN
    }

    /** The outcome once the pinning is in the list. */
    function LateCode(): int {
      if dmaResult < 0 then dmaResult
      else if SendCode() < 0 then SendCode()
      else if handleCopied then OK else EAGAIN
    }

    /** Not all pages could be pinned. */
    predicate ShortPin() { Sized() && arrayAllocated && pinnable < Count() }

    /** All were, but there is no memory for the scatter list. */
    predicate LostList() { Sized() && arrayAllocated && pinnable >= Count() && pinAllocated && !listAllocated }

    function Code(): int {
      if !Sized() then EINVAL
      else if !arrayAllocated then ENOMEM
      else if pinnable < Count() then EAGAIN
      else if !pinAllocated || !listAllocated then ENOMEM
      else LateCode()
    }

    function NewPinning(): Pinning { Pinning(magic, PinnedList(pt, usrBuf, size)) }

    /**
     * The references after the request. The error path of a short pin puts every slot of
     * the array, pinned or not; that of a missing scatter list puts nothing, because it
     * looks for the pages in that list.
     */
    function Refs(c: Counts): Counts {
      if !Sized() || !arrayAllocated then c
      else
        var taken := TakeAll(c, Taken());
        if pinnable < Count() || !pinAllocated then PutAll(taken, Slots())
        else if listAllocated && LateCode() != OK then PutAll(taken, PagesOf(NewPinning().sglist))
        else taken
    }

    /** How many references to a page the request leaves behind, or puts too often. */
    function Drift(x: Page): int {
      if ShortPin() then 0 - Occurrences(Leftover(), x)
      else if LostList() then Occurrences(Wanted(), x)
      else 0
    }
  }

  // ---- Operations ----------------------------------------------------------

  /** Index of the first pinning in list order with a magic; the length when there is none. */
  function FirstMatch(pinnings: seq<Pinning>, magic: u32): (i: nat)
    ensures i <= |pinnings|
    ensures forall j :: 0 <= j < i ==> pinnings[j].magic != magic
    ensures i < |pinnings| ==> pinnings[i].magic == magic
  {
    if pinnings == [] || pinnings[0].magic == magic then 0 else 1 + FirstMatch(pinnings[1..], magic)
  }

  datatype Option<T> = None | Some(value: T)

  /** The handle as copied from user space; `None` when the copy fails. */
  function UnpinCode(u: User, handle: Option<Handle>): int {
    match handle
    case None => EAGAIN
    case Some(h) =>
      if h.userMagic != u.magic || FirstMatch(u.pinnings, h.pinMagic) == |u.pinnings| then EINVAL else OK
  }

  datatype Event =
    | Open(id: nat, granted: bool, magic: u32)
    | Pin(id: nat, call: PinCall)
    | Unpin(id: nat, handle: Option<Handle>)
    | Release(id: nat)
    | Exit

  /** Files are opened once and used while open. */
  predicate Enabled(k: Kernel, e: Event) {
    match e
    case Open(id, _, _) => !Has(k.users, id)
    case Exit => true
    case _ => Has(k.users, e.id)
  }

  function PinStep(k: Kernel, id: nat, call: PinCall): Kernel
    requires Has(k.users, id)
  {
    Kernel(if call.Code() == OK then Adjust(k.users, id, [call.NewPinning()] + Find(k.users, id).pinnings) else k.users,
           call.Refs(k.refs))
  }

  function Without(pinnings: seq<Pinning>, i: nat): seq<Pinning>
    requires i < |pinnings|
  {
    pinnings[..i] + pinnings[i + 1..]
  }

  /** Pinning `i` of a user is freed. */
  function FreeStep(k: Kernel, id: nat, i: nat): Kernel
    requires Has(k.users, id) && i < |Find(k.users, id).pinnings|
  {
    var pinnings := Find(k.users, id).pinnings;
    Kernel(Adjust(k.users, id, Without(pinnings, i)), PutAll(k.refs, PagesOf(pinnings[i].sglist)))
  }

  function UnpinStep(k: Kernel, id: nat, handle: Option<Handle>): Kernel
    requires Has(k.users, id)
  {
    var u := Find(k.users, id);
    if UnpinCode(u, handle) != OK then k else FreeStep(k, id, FirstMatch(u.pinnings, handle.value.pinMagic))
  }

  function ReleaseStep(k: Kernel, id: nat): Kernel
    requires Has(k.users, id)
  {
    Kernel(Remove(k.users, id), PutPinnings(k.refs, Find(k.users, id).pinnings))
  }

  function Step(k: Kernel, e: Event): Kernel
    requires Enabled(k, e)
  {
    match e
    case Open(id, granted, magic) => if granted then Kernel([User(id, magic, [])] + k.users, k.refs) else k
    case Pin(id, call) => PinStep(k, id, call)
    case Unpin(id, handle) => UnpinStep(k, id, handle)
    case Release(id) => ReleaseStep(k, id)
    case Exit => Kernel([], PutUsers(k.refs, k.users))
  }

  predicate Legal(k: Kernel, es: seq<Event>)
    decreases |es|
  {
    es == [] || (Enabled(k, es[0]) && Legal(Step(k, es[0]), es[1..]))
  }

  function Run(k: Kernel, es: seq<Event>): Kernel
    requires Legal(k, es)
    decreases |es|
  {
    if es == [] then k else Run(Step(k, es[0]), es[1..])
  }

  /** As the module is loaded. */
  function Loaded(): Kernel { Kernel([], (x: Page) => 0) }

  // ---- Counting ------------------------------------------------------------

  lemma OccurrencesLast(pages: seq<Page>, x: Page)
    requires pages != []
    ensures Occurrences(pages, x) ==
            Occurrences(pages[..|pages| - 1], x) + if pages[|pages| - 1] == x then 1 else 0
  {
    var last := |pages| - 1;
    var before := PlacesOf(pages[..last], x);
    assert PlacesOf(pages, x) == if pages[last] == x then before + {last} else before;
  }

  lemma {:induction false} OccurrencesAppend(a: seq<Page>, b: seq<Page>, x: Page)
    ensures Occurrences(a + b, x) == Occurrences(a, x) + Occurrences(b, x)
    decreases |b|
  {
    if b == [] {
      assert a + b == a;
    } else {
      OccurrencesAppend(a, b[..|b| - 1], x);
      assert (a + b)[..|a + b| - 1] == a + b[..|b| - 1];
      OccurrencesLast(a + b, x);
      OccurrencesLast(b, x);
    }
  }

  lemma {:induction false} TakeAllAt(c: Counts, pages: seq<Page>, x: Page)
    ensures TakeAll(c, pages)(x) == c(x) + Occurrences(pages, x)
  {
    if pages != [] {
      TakeAllAt(c, pages[..|pages| - 1], x);
      OccurrencesLast(pages, x);
    }
  }

  lemma {:induction false} PutAllAt(c: Counts, pages: seq<Page>, x: Page)
    ensures PutAll(c, pages)(x) == c(x) - Occurrences(pages, x)
  {
    if pages != [] {
      PutAllAt(c, pages[..|pages| - 1], x);
      OccurrencesLast(pages, x);
    }
  }

  lemma {:induction false} PutPinningsAt(c: Counts, pinnings: seq<Pinning>, x: Page)
    ensures PutPinnings(c, pinnings)(x) == c(x) - NamingBy(pinnings, x)
    decreases |pinnings|
  {
    if pinnings != [] {
      PutAllAt(c, PagesOf(pinnings[0].sglist), x);
      PutPinningsAt(PutAll(c, PagesOf(pinnings[0].sglist)), pinnings[1..], x);
    }
  }

  lemma {:induction false} PutUsersAt(c: Counts, users: seq<User>, x: Page)
    ensures PutUsers(c, users)(x) == c(x) - LiveEntries(users, x)
    decreases |users|
  {
    if users != [] {
      PutPinningsAt(c, users[0].pinnings, x);
      PutUsersAt(PutPinnings(c, users[0].pinnings), users[1..], x);
    }
  }

  lemma {:induction false} LiveAdjust(users: seq<User>, id: nat, pinnings: seq<Pinning>, x: Page)
    requires Has(users, id)
    ensures LiveEntries(Adjust(users, id, pinnings), x) + NamingBy(Find(users, id).pinnings, x) ==
            LiveEntries(users, x) + NamingBy(pinnings, x)
  {
    var after := Adjust(users, id, pinnings);
    if users[0].id == id {
      assert after[1..] == users[1..];
    } else {
      LiveAdjust(users[1..], id, pinnings, x);
      assert after[1..] == Adjust(users[1..], id, pinnings);
    }
  }

  lemma {:induction false} LiveRemove(users: seq<User>, id: nat, x: Page)
    requires Has(users, id)
    ensures LiveEntries(Remove(users, id), x) + NamingBy(Find(users, id).pinnings, x) == LiveEntries(users, x)
  {
    if users[0].id != id {
      LiveRemove(users[1..], id, x);
      assert Remove(users, id)[1..] == Remove(users[1..], id);
    }
  }

  lemma {:induction false} NamingWithout(pinnings: seq<Pinning>, i: nat, x: Page)
    requires i < |pinnings|
    ensures NamingBy(Without(pinnings, i), x) + Occurrences(PagesOf(pinnings[i].sglist), x) == NamingBy(pinnings, x)
  {
    if i == 0 {
      assert Without(pinnings, 0) == pinnings[1..];
    } else {
      NamingWithout(pinnings[1..], i - 1, x);
      assert Without(pinnings, i)[1..] == Without(pinnings[1..], i - 1);
    }
  }

  /** The references taken for a buffer are one for each entry of its scatter list. */
  lemma OnePerEntry(call: PinCall)
    ensures PagesOf(call.NewPinning().sglist) == call.Wanted()
  {
  }

  // ---- Return codes, by number ---------------------------------------------

  /** The first thing that goes wrong in a pin decides its code. */
  lemma PinCodes(call: PinCall)
    ensures var n := (call.usrBuf % 4096 + call.size + 4095) / 4096;
            call.Code() ==
            if n == 0 || n > 1024 then -22
            else if !call.arrayAllocated then -12
            else if call.pinnable < n then -11
            else if !call.pinAllocated || !call.listAllocated then -12
            else if call.dmaResult < 0 then call.dmaResult
            else if !call.entriesAllocated then -12
            else if call.countCopied && call.entriesCopied && call.handleCopied then 0 else -11
  {
  }

  /** An unpin or a flush needs the user's magic and that of one of its pinnings. */
  lemma UnpinCodes(u: User, handle: Option<Handle>)
    ensures handle.None? ==> UnpinCode(u, handle) == -11
    ensures handle.Some? ==>
              UnpinCode(u, handle) ==
              if handle.value.userMagic == u.magic && exists p :: p in u.pinnings && p.magic == handle.value.pinMagic
              then 0 else -22
  {
    if handle.Some? {
      var i := FirstMatch(u.pinnings, handle.value.pinMagic);
      if i < |u.pinnings| {
        assert u.pinnings[i] in u.pinnings;
      }
    }
  }

  // ---- What each event does to the ledger ----------------------------------

  lemma PinExcess(c: Counts, call: PinCall, x: Page)
    ensures call.Refs(c)(x) ==
            c(x) + call.Drift(x) + if call.Code() == OK then Occurrences(call.Wanted(), x) else 0
  {
    var taken := TakeAll(c, call.Taken());
    TakeAllAt(c, call.Taken(), x);
    OccurrencesAppend(call.Taken(), call.Leftover(), x);
    PutAllAt(taken, call.Slots(), x);
    OnePerEntry(call);
    PutAllAt(taken, call.Wanted(), x);
    if call.pinnable >= call.Count() {
      assert call.Taken() == call.Wanted() == call.Slots();
    }
  }

  function Drift(e: Event, x: Page): int { if e.Pin? then e.call.Drift(x) else 0 }

  /** Every event changes references and live entries alike, but for its drift. */
  lemma StepExcess(k: Kernel, e: Event, x: Page)
    requires Enabled(k, e)
    ensures Excess(Step(k, e), x) == Excess(k, x) + Drift(e, x)
  {
    match e
    case Open(id, granted, magic) =>
      assert ([User(id, magic, [])] + k.users)[1..] == k.users;
    case Pin(id, call) =>
      PinStepExcess(k, id, call, x);
    case Unpin(id, handle) =>
      var u := Find(k.users, id);
      if UnpinCode(u, handle) == OK {
        FreeExcess(k, id, FirstMatch(u.pinnings, handle.value.pinMagic), x);
      }
    case Release(id) =>
      LiveRemove(k.users, id, x);
      PutPinningsAt(k.refs, Find(k.users, id).pinnings, x);
    case Exit =>
      PutUsersAt(k.refs, k.users, x);
  }

  lemma PinStepExcess(k: Kernel, id: nat, call: PinCall, x: Page)
    requires Has(k.users, id)
    ensures Excess(PinStep(k, id, call), x) == Excess(k, x) + call.Drift(x)
  {
    PinExcess(k.refs, call, x);
    OnePerEntry(call);
    var p, before := call.NewPinning(), Find(k.users, id).pinnings;
    assert ([p] + before)[1..] == before;
    LiveAdjust(k.users, id, [p] + before, x);
  }

  lemma FreeExcess(k: Kernel, id: nat, i: nat, x: Page)
    requires Has(k.users, id) && i < |Find(k.users, id).pinnings|
    ensures Excess(FreeStep(k, id, i), x) == Excess(k, x)
  {
    var pinnings := Find(k.users, id).pinnings;
    NamingWithout(pinnings, i, x);
    LiveAdjust(k.users, id, Without(pinnings, i), x);
    PutAllAt(k.refs, PagesOf(pinnings[i].sglist), x);
  }

  /** Neither of the two failures that disturb the ledger. */
  predicate Clean(e: Event) { e.Pin? ==> !e.call.ShortPin() && !e.call.LostList() }

  lemma OccursFirst(pages: seq<Page>)
    requires pages != []
    ensures Occurrences(pages, pages[0]) > 0
  {
    assert 0 in PlacesOf(pages, pages[0]);
  }

  /** The two failures do disturb it, always. */
  lemma DriftIsClean(call: PinCall)
    ensures (forall x: Page :: call.Drift(x) == 0) <==> !call.ShortPin() && !call.LostList()
  {
    if call.ShortPin() {
      OccursFirst(call.Leftover());
      assert call.Drift(call.Leftover()[0]) != 0;
    } else if call.LostList() {
      OccursFirst(call.Wanted());
      assert call.Drift(call.Wanted()[0]) != 0;
    }
  }

  /** An event keeps a balanced ledger balanced if and only if it is not one of the two failures. */
  lemma StepKeeps(k: Kernel, e: Event)
    requires Balanced(k) && Enabled(k, e)
    ensures Balanced(Step(k, e)) <==> Clean(e)
  {
    forall x: Page
      ensures Excess(Step(k, e), x) == Drift(e, x)
    {
      StepExcess(k, e, x);
    }
    if e.Pin? {
      DriftIsClean(e.call);
      assert Balanced(Step(k, e)) <==> forall x: Page :: e.call.Drift(x) == 0 by {
        assert forall x: Page :: Drift(e, x) == e.call.Drift(x);
      }
    }
  }

  /**
   * A pin that fails leaves the lists alone, and restores every count if and only if what
   * failed was neither pinning all the pages nor allocating the scatter list.
   */
  lemma FailedPinRestores(k: Kernel, id: nat, call: PinCall)
    requires Has(k.users, id) && call.Code() != OK
    ensures Step(k, Pin(id, call)).users == k.users
    ensures (forall x: Page :: Step(k, Pin(id, call)).refs(x) == k.refs(x)) <==> !call.ShortPin() && !call.LostList()
  {
    forall x: Page
      ensures call.Refs(k.refs)(x) == k.refs(x) + call.Drift(x)
    {
      PinExcess(k.refs, call, x);
    }
    DriftIsClean(call);
  }

  // ---- Runs ----------------------------------------------------------------

  function DriftOf(es: seq<Event>, x: Page): int {
    if es == [] then 0 else Drift(es[0], x) + DriftOf(es[1..], x)
  }

  predicate AllClean(es: seq<Event>) { forall i :: 0 <= i < |es| ==> Clean(es[i]) }

  lemma {:induction false} CleanDrift(es: seq<Event>, x: Page)
    requires AllClean(es)
    ensures DriftOf(es, x) == 0
  {
    if es != [] {
      assert Clean(es[0]);
      CleanDrift(es[1..], x);
    }
  }

  lemma {:induction false} RunExcess(k: Kernel, es: seq<Event>, x: Page)
    requires Legal(k, es)
    ensures Excess(Run(k, es), x) == Excess(k, x) + DriftOf(es, x)
    decreases |es|
  {
    if es != [] {
      StepExcess(k, es[0], x);
      RunExcess(Step(k, es[0]), es[1..], x);
    }
  }

  /** A run without the two failures keeps the ledger. */
  lemma RunKeeps(k: Kernel, es: seq<Event>)
    requires Balanced(k) && Legal(k, es) && AllClean(es)
    ensures Balanced(Run(k, es))
  {
    forall x: Page
      ensures Excess(Run(k, es), x) == 0
    {
      RunExcess(k, es, x);
      CleanDrift(es, x);
    }
  }

  /**
   * The ledger over every run from loading the module on, with any failures: a page has one
   * reference for each live entry naming it, one more for each time a scatter list could not
   * be allocated for it, and one less for each time a short pin put it without having it.
   */
  lemma LedgerExact(es: seq<Event>, x: Page)
    requires Legal(Loaded(), es)
    ensures var k := Run(Loaded(), es);
            && k.refs(x) == LiveEntries(k.users, x) + DriftOf(es, x)
            && (AllClean(es) ==> k.refs(x) == LiveEntries(k.users, x))
  {
    RunExcess(Loaded(), es, x);
    if AllClean(es) {
      CleanDrift(es, x);
    }
  }

  /** Unloading the module leaves only that drift behind, whoever still has it open. */
  lemma ExitReleasesAll(es: seq<Event>, x: Page)
    requires Legal(Loaded(), es)
    ensures var k := Step(Run(Loaded(), es), Exit);
            && k.users == [] && k.refs(x) == DriftOf(es, x)
            && (AllClean(es) ==> k.refs(x) == 0)
  {
    LedgerExact(es, x);
    StepExcess(Run(Loaded(), es), Exit, x);
  }

  /** So does closing the last file. */
  lemma NoUsersNoReferences(es: seq<Event>, x: Page)
    requires Legal(Loaded(), es) && Run(Loaded(), es).users == []
    ensures Run(Loaded(), es).refs(x) == DriftOf(es, x)
    ensures AllClean(es) ==> Run(Loaded(), es).refs(x) == 0
  {
    LedgerExact(es, x);
  }

  /** A release gives back the user's share and only that: the others' entries stay. */
  lemma ReleaseGivesBack(k: Kernel, id: nat, x: Page)
    requires Has(k.users, id) && Distinct(k.users)
    ensures var after := Step(k, Release(id));
            && !Has(after.users, id)
            && after.refs(x) == k.refs(x) - NamingBy(Find(k.users, id).pinnings, x)
            && (Balanced(k) ==> after.refs(x) == LiveEntries(Remove(k.users, id), x))
  {
    RemoveHas(k.users, id, id);
    LiveRemove(k.users, id, x);
    PutPinningsAt(k.refs, Find(k.users, id).pinnings, x);
    assert Balanced(k) ==> Excess(k, x) == 0;
  }

  /** In a balanced ledger every page that freeing a pinning puts is held when it is put. */
  lemma PutsAreHeld(k: Kernel, id: nat, i: nat, j: nat)
    requires Balanced(k) && Has(k.users, id) && i < |Find(k.users, id).pinnings|
    requires j < |Find(k.users, id).pinnings[i].sglist|
    ensures var pages := PagesOf(Find(k.users, id).pinnings[i].sglist);
            PutAll(k.refs, pages[..j])(pages[j]) > 0
  {
    var pinnings := Find(k.users, id).pinnings;
    var pages := PagesOf(pinnings[i].sglist);
    var x := pages[j];
    assert Excess(k, x) == 0;
    LiveRemove(k.users, id, x);
    NamingWithout(pinnings, i, x);
    PutAllAt(k.refs, pages[..j], x);
    assert pages == pages[..j] + pages[j..];
    OccurrencesAppend(pages[..j], pages[j..], x);
    OccursFirst(pages[j..]);
  }

  // ---- The two failures, once each -----------------------------------------

  /** A short pin puts a page that nobody holds. */
  lemma ShortPinUnderflows(k: Kernel, id: nat, call: PinCall)
    requires Balanced(k) && Has(k.users, id) && call.ShortPin()
    requires LiveEntries(k.users, call.Leftover()[0]) == 0
    ensures Step(k, Pin(id, call)).refs(call.Leftover()[0]) < 0
  {
    var x := call.Leftover()[0];
    assert Excess(k, x) == 0;
    StepExcess(k, Pin(id, call), x);
    OccursFirst(call.Leftover());
  }

  /** One byte on a page that cannot be pinned, and an array slot that points to page 7. */
  function Unpinnable(): PinCall {
    PinCall(va => 5, 0, 1, true, 0, i => 7, true, true, 0, 0, true, true, true, true)
  }

  lemma ShortPinExample()
    ensures var k := Kernel([User(0, 0, [])], Loaded().refs);
            Step(k, Pin(0, Unpinnable())).refs(7) == -1 && Unpinnable().Code() == EAGAIN
  {
    var call := Unpinnable();
    assert call.Count() == 1 && call.ShortPin();
    PinExcess(Loaded().refs, call, 7);
    assert call.Leftover() == [7];
    var none: seq<Page> := [];
    assert [7][..0] == none;
    OccurrencesLast([7], 7);
  }

  /** After a missing scatter list, closing the file does not give the pages back. */
  lemma LostListLeaks(k: Kernel, id: nat, call: PinCall)
    requires |k.users| == 1 && k.users[0].id == id && Balanced(k) && call.LostList()
    ensures var after := Step(Step(k, Pin(id, call)), Release(id));
            call.Wanted() != [] && after.users == [] && after.refs(call.Wanted()[0]) > 0
  {
    var x := call.Wanted()[0];
    assert Excess(k, x) == 0;
    StepExcess(k, Pin(id, call), x);
    StepExcess(Step(k, Pin(id, call)), Release(id), x);
    OccursFirst(call.Wanted());
  }

  // ---- Lists of users keep their members -----------------------------------

  lemma {:induction false} AdjustHas(users: seq<User>, id: nat, pinnings: seq<Pinning>, x: nat)
    requires Has(users, id)
    ensures Has(Adjust(users, id, pinnings), x) <==> Has(users, x)
  {
    var after := Adjust(users, id, pinnings);
    if users[0].id == id {
      assert after[1..] == users[1..];
    } else {
      AdjustHas(users[1..], id, pinnings, x);
      assert after[1..] == Adjust(users[1..], id, pinnings);
    }
  }

  lemma {:induction false} AdjustDistinct(users: seq<User>, id: nat, pinnings: seq<Pinning>)
    requires Has(users, id) && Distinct(users)
    ensures Distinct(Adjust(users, id, pinnings))
  {
    var after := Adjust(users, id, pinnings);
    if users[0].id == id {
      assert after[1..] == users[1..];
    } else {
      AdjustDistinct(users[1..], id, pinnings);
      AdjustHas(users[1..], id, pinnings, users[0].id);
      assert after[1..] == Adjust(users[1..], id, pinnings);
    }
  }

  lemma {:induction false} RemoveHas(users: seq<User>, id: nat, x: nat)
    requires Has(users, id) && Distinct(users)
    ensures Has(Remove(users, id), x) <==> Has(users, x) && x != id
  {
    if users[0].id != id {
      RemoveHas(users[1..], id, x);
      assert Remove(users, id)[1..] == Remove(users[1..], id);
    }
  }

  lemma {:induction false} RemoveDistinct(users: seq<User>, id: nat)
    requires Has(users, id) && Distinct(users)
    ensures Distinct(Remove(users, id))
  {
    if users[0].id != id {
      RemoveDistinct(users[1..], id);
      RemoveHas(users[1..], id, users[0].id);
      assert Remove(users, id)[1..] == Remove(users[1..], id);
    }
  }

  /** No event makes two users of one file. */
  lemma StepDistinct(k: Kernel, e: Event)
    requires Distinct(k.users) && Enabled(k, e)
    ensures Distinct(Step(k, e).users)
  {
    match e
    case Open(id, granted, magic) =>
      assert ([User(id, magic, [])] + k.users)[1..] == k.users;
    case Pin(id, call) =>
      AdjustDistinct(k.users, id, [call.NewPinning()] + Find(k.users, id).pinnings);
    case Unpin(id, handle) =>
      var u := Find(k.users, id);
      if UnpinCode(u, handle) == OK {
        AdjustDistinct(k.users, id, Without(u.pinnings, FirstMatch(u.pinnings, handle.value.pinMagic)));
      }
    case Release(id) =>
      RemoveDistinct(k.users, id);
    case Exit =>
  }
}
