/**
 * The descriptor chain that user space builds for the DMA engine: written through virtual
 * addresses word by word, then followed by the engine through physical ones.
 */
module AxiDmaChain {
  import opened Bytes
  import opened PinnerScatter

  /** Physical memory, by the byte address of 32-bit words. */
  datatype Words = Words(cells: map<nat, u32>)

  function ReadWord(m: Words, pa: nat): u32 { if pa in m.cells then m.cells[pa] else 0 }

  function Update(m: Words, pa: nat, w: u32): Words { Words(m.cells[pa := w]) }

  /** What the engine sees of a descriptor. */
  datatype Descriptor = Descriptor(next: nat, buffer: nat, len: nat, sof: bool, eof: bool)

  /** The engine's view of the words at a physical address. */
  function Fetch(m: Words, pa: nat): Descriptor {
    Parse(ReadWord(m, pa), ReadWord(m, pa + 4), ReadWord(m, pa + 8), ReadWord(m, pa + 12), ReadWord(m, pa + 24))
  }

  /** Two 64-bit addresses, and a control word: 26 bits of length, then `eof`, then `sof`. */
  function Parse(nextLsb: u32, nextMsb: u32, bufferLsb: u32, bufferMsb: u32, control: u32): Descriptor {
    Descriptor(nextLsb + 0x1_0000_0000 * nextMsb, bufferLsb + 0x1_0000_0000 * bufferMsb,
               control % 0x400_0000, control / 0x800_0000 % 2 == 1, control / 0x400_0000 % 2 == 1)
  }

  // ---- Bit-field stores ----------------------------------------------------

  function Bit(b: bool): nat { if b then 1 else 0 }

  function SetSof(w: u32, b: bool): u32 { w / 0x1000_0000 * 0x1000_0000 + Bit(b) * 0x800_0000 + w % 0x800_0000 }

  function SetEof(w: u32, b: bool): u32 { w / 0x800_0000 * 0x800_0000 + Bit(b) * 0x400_0000 + w % 0x400_0000 }

  function SetLen(w: u32, len: nat): u32 { w / 0x400_0000 * 0x400_0000 + len % 0x400_0000 }

  /** The control word after the three stores, whatever it held before. */
  function Control(w: u32, sof: bool, eof: bool, len: nat): u32 { SetLen(SetEof(SetSof(w, sof), eof), len) }

  /** The three fields are as stored, and the four unnamed bits above them as before. */
  lemma ControlFields(w: u32, sof: bool, eof: bool, len: nat)
    ensures var c := Control(w, sof, eof, len);
            && c % 0x400_0000 == len % 0x400_0000
            && (c / 0x400_0000 % 2 == 1 <==> eof)
            && (c / 0x800_0000 % 2 == 1 <==> sof)
            && c / 0x1000_0000 == w / 0x1000_0000
  {
    SofBit(w, sof);
    EofBit(SetSof(w, sof), eof);
    LenBits(SetEof(SetSof(w, sof), eof), len);
  }

  lemma SofBit(w: u32, b: bool)
    ensures SetSof(w, b) / 0x1000_0000 == w / 0x1000_0000 && (SetSof(w, b) / 0x800_0000 % 2 == 1 <==> b)
  {
    assert SetSof(w, b) / 0x800_0000 == w / 0x1000_0000 * 2 + Bit(b);
  }

  lemma EofBit(w: u32, b: bool)
    ensures SetEof(w, b) / 0x800_0000 == w / 0x800_0000 && (SetEof(w, b) / 0x400_0000 % 2 == 1 <==> b)
    ensures SetEof(w, b) / 0x1000_0000 == w / 0x1000_0000
  {
    assert SetEof(w, b) / 0x400_0000 == w / 0x800_0000 * 2 + Bit(b);
    Quotients(SetEof(w, b));
    Quotients(w);
  }

  lemma LenBits(w: u32, len: nat)
    ensures SetLen(w, len) / 0x400_0000 == w / 0x400_0000 && SetLen(w, len) % 0x400_0000 == len % 0x400_0000
    ensures SetLen(w, len) / 0x800_0000 == w / 0x800_0000 && SetLen(w, len) / 0x1000_0000 == w / 0x1000_0000
  {
    Quotients(SetLen(w, len));
    Quotients(w);
  }

  lemma Quotients(w: u32)
    ensures w / 0x800_0000 == w / 0x400_0000 / 2 && w / 0x1000_0000 == w / 0x800_0000 / 2
  {
  }

  // ---- The memory after writing -------------------------------------------

  /** A 32-bit store through the page table. */
  function StoreWord(m: Words, pt: PageTable, va: nat, w: u32): Words { Update(m, Translate(pt, va), w) }

  /** The four address words of a descriptor. */
  function StoreAddresses(m: Words, pt: PageTable, va: nat, nextLsb: u32, nextMsb: u32, bufferLsb: u32, bufferMsb: u32)
    : Words
  {
    var m1 := StoreWord(m, pt, va, nextLsb);
    var m2 := StoreWord(m1, pt, va + 4, nextMsb);
    var m3 := StoreWord(m2, pt, va + 8, bufferLsb);
    StoreWord(m3, pt, va + 12, bufferMsb)
  }

  /** The stores for one descriptor. */
  function WriteDescriptor(m: Words, pt: PageTable, va: nat, d: Descriptor): Words {
    var m4 := StoreAddresses(m, pt, va, d.next % 0x1_0000_0000, d.next / 0x1_0000_0000 % 0x1_0000_0000,
                             d.buffer % 0x1_0000_0000, d.buffer / 0x1_0000_0000 % 0x1_0000_0000);
    StoreWord(m4, pt, va + 24, Control(ReadWord(m4, Translate(pt, va + 24)), d.sof, d.eof, d.len))
  }

  /** Descriptor `i` of the chain for `plist` in a descriptor buffer pinned as `sg`. */
  function ChainEntry(sg: seq<PhysEntry>, plist: seq<PhysEntry>, i: nat): Descriptor
    requires i < |plist|
  {
    Descriptor(Lookup(sg, 128 * (i + 1)), plist[i].addr, plist[i].len, i == 0, i == |plist| - 1)
  }

  /** The whole chain. */
  function Chain(sg: seq<PhysEntry>, plist: seq<PhysEntry>): (r: seq<Descriptor>)
    ensures |r| == |plist| && forall i :: 0 <= i < |r| ==> r[i] == ChainEntry(sg, plist, i)
  {
    seq(|plist|, i requires 0 <= i < |plist| => ChainEntry(sg, plist, i))
  }

  /** Descriptor `i` into its slot. */
  function Place(m: Words, pt: PageTable, base: nat, ds: seq<Descriptor>, i: nat): Words
    requires i < |ds|
  {
    WriteDescriptor(m, pt, base + 128 * i, ds[i])
  }

  lemma PlaceIs(m: Words, pt: PageTable, base: nat, ds: seq<Descriptor>, i: nat, va: nat, d: Descriptor)
    requires i < |ds| && va == base + 128 * i && d == ds[i]
    ensures Place(m, pt, base, ds, i) == WriteDescriptor(m, pt, va, d)
  {
  }

  /** Memory after the first `n` descriptors. */
  function ChainMemory(m: Words, pt: PageTable, base: nat, ds: seq<Descriptor>, n: nat): Words
    requires n <= |ds|
  {
    if n == 0 then m
    else Place(ChainMemory(m, pt, base, ds, n - 1), pt, base, ds, n - 1)
  }

  lemma ChainStep(m: Words, pt: PageTable, base: nat, ds: seq<Descriptor>, n: nat, before: Words, after: Words)
    requires n < |ds| && before == ChainMemory(m, pt, base, ds, n) && after == Place(before, pt, base, ds, n)
    ensures after == ChainMemory(m, pt, base, ds, n + 1)
  {
  }

  /** Physical memory as the processor changes it. */
  class Ram {
    var words: Words

    method Store(pt: PageTable, va: nat, w: u32)
      modifies this
      ensures words == StoreWord(old(words), pt, va, w)
    {
      words := Words(words.cells[Translate(pt, va) := w]);
    }

    method Load(pt: PageTable, va: nat) returns (w: u32)
      ensures w == ReadWord(words, Translate(pt, va))
    {
      var pa := Translate(pt, va);
      w := if pa in words.cells then words.cells[pa] else 0;
    }

    /** `write_physlist_sg`. */
    method WritePhyslistSg(pt: PageTable, base: nat, sgPlist: array<PhysEntry>, plist: array<PhysEntry>)
      requires plist.Length <= PINNER_MAX_PAGES
      modifies this
      ensures words == ChainMemory(old(words), pt, base, Chain(sgPlist[..], plist[..]), plist.Length)
    {
      WriteAll(pt, base, sgPlist, plist, Chain(sgPlist[..], plist[..]));
    }

    /** The loop. */
    method WriteAll(pt: PageTable, base: nat, sgPlist: array<PhysEntry>, plist: array<PhysEntry>,
                    ghost ds: seq<Descriptor>)
      requires plist.Length <= PINNER_MAX_PAGES && |ds| == plist.Length
      requires forall i :: 0 <= i < |ds| ==> ds[i] == ChainEntry(sgPlist[..], plist[..], i)
      modifies this
      ensures words == ChainMemory(old(words), pt, base, ds, plist.Length)
    {
      ghost var sg, list := sgPlist[..], plist[..];
      for i := 0 to plist.Length
        modifies this
        invariant sgPlist[..] == sg && plist[..] == list
        invariant words == ChainMemory(old(words), pt, base, ds, i)
      {
        ghost var before := words;
        WriteEntry(pt, base, i, sgPlist, plist, ds);
        ChainStep(old(words), pt, base, ds, i, before, words);
      }
    }

    /** One turn of that loop. */
    method WriteEntry(pt: PageTable, base: nat, i: nat, sgPlist: array<PhysEntry>, plist: array<PhysEntry>,
                      ghost ds: seq<Descriptor>)
      requires i < plist.Length <= PINNER_MAX_PAGES && |ds| == plist.Length
      requires ds[i] == ChainEntry(sgPlist[..], plist[..], i)
      modifies this
      ensures words == Place(old(words), pt, base, ds, i)
    {
      var curdesc := base + 128 * i;
      var nextPhys := VirtToPhys(128 * (i + 1), sgPlist);
      ghost var d := Descriptor(nextPhys, plist[i].addr, plist[i].len, i == 0, i == plist.Length - 1);
      PlaceIs(words, pt, base, ds, i, curdesc, d);
      WriteFields(pt, curdesc, nextPhys, plist[i], i == 0, i == plist.Length - 1, d);
    }

    /** Its assignments. */
    method WriteFields(pt: PageTable, curdesc: nat, nextPhys: nat, entry: PhysEntry, sof: bool, eof: bool,
                       ghost d: Descriptor)
      requires d == Descriptor(nextPhys, entry.addr, entry.len, sof, eof)
      modifies this
      ensures words == WriteDescriptor(old(words), pt, curdesc, d)
    {
      Store(pt, curdesc, nextPhys % 0x1_0000_0000);
      Store(pt, curdesc + 4, nextPhys / 0x1_0000_0000 % 0x1_0000_0000);
      Store(pt, curdesc + 8, entry.addr % 0x1_0000_0000);
      Store(pt, curdesc + 12, entry.addr / 0x1_0000_0000 % 0x1_0000_0000);
      var control := Load(pt, curdesc + 24);
      Store(pt, curdesc + 24, SetSof(control, sof));
      control := Load(pt, curdesc + 24);
      Store(pt, curdesc + 24, SetEof(control, eof));
      control := Load(pt, curdesc + 24);
      Store(pt, curdesc + 24, SetLen(control, entry.len));
      StoreOver(StoreAddresses(old(words), pt, curdesc, d.next % 0x1_0000_0000, d.next / 0x1_0000_0000 % 0x1_0000_0000,
                               d.buffer % 0x1_0000_0000, d.buffer / 0x1_0000_0000 % 0x1_0000_0000),
                Translate(pt, curdesc + 24), sof, eof, entry.len);
    }
  }

  /** Three stores to one word leave the last. */
  lemma StoreOver(m: Words, pa: nat, sof: bool, eof: bool, len: nat)
    ensures var a := SetSof(ReadWord(m, pa), sof);
            var b := SetEof(a, eof);
            Update(Update(Update(m, pa, a), pa, b), pa, SetLen(b, len)) ==
            Update(m, pa, Control(ReadWord(m, pa), sof, eof, len))
  {
    var a := SetSof(ReadWord(m, pa), sof);
    var b := SetEof(a, eof);
    var c := SetLen(b, len);
    assert m.cells[pa := a][pa := b][pa := c] == m.cells[pa := c];
  }

  /** The registers that start a transfer. */
  class DmaRegisters {
    var curdescLsb: u32
    var curdescMsb: u32
    var taildescLsb: u32
    var taildescMsb: u32

    ghost function Curdesc(): nat reads this { curdescLsb + 0x1_0000_0000 * curdescMsb }

    ghost function Taildesc(): nat reads this { taildescLsb + 0x1_0000_0000 * taildescMsb }

    /** The two addresses that the program writes for a chain of `n` descriptors. */
    method StartTransfer(sgPlist: array<PhysEntry>, n: nat)
      requires 0 < n <= PINNER_MAX_PAGES
      modifies this
      ensures Curdesc() == Lookup(sgPlist[..], 0) % 0x1_0000_0000_0000_0000
      ensures Taildesc() == Lookup(sgPlist[..], 128 * (n - 1)) % 0x1_0000_0000_0000_0000
    {
      var curdesc := VirtToPhys(0, sgPlist);
      curdescLsb := curdesc % 0x1_0000_0000;
      curdescMsb := curdesc / 0x1_0000_0000 % 0x1_0000_0000;
      Halves(curdesc);
      var taildesc := VirtToPhys(128 * (n - 1), sgPlist);
      taildescLsb := taildesc % 0x1_0000_0000;
      taildescMsb := taildesc / 0x1_0000_0000 % 0x1_0000_0000;
      Halves(taildesc);
    }
  }

  lemma Halves(a: nat)
    ensures a % 0x1_0000_0000 + 0x1_0000_0000 * (a / 0x1_0000_0000 % 0x1_0000_0000) == a % 0x1_0000_0000_0000_0000
    ensures a < 0x1_0000_0000_0000_0000 ==> a % 0x1_0000_0000_0000_0000 == a
  {
  }

  // ---- Slots in physical memory -------------------------------------------

  /** Where slot `i` lies. */
  function Slot(pt: PageTable, base: nat, i: nat): nat { Translate(pt, base + 128 * i) }

  /** A slot is in one piece. */
  predicate Whole(pt: PageTable, va: nat) {
    var pa := Translate(pt, va);
    && Translate(pt, va + 4) == pa + 4
    && Translate(pt, va + 8) == pa + 8
    && Translate(pt, va + 12) == pa + 12
    && Translate(pt, va + 24) == pa + 24
  }

  predicate Apart(a: nat, b: nat) { a + 28 <= b || b + 28 <= a }

  /** Every slot is in one piece and no two overlap. */
  predicate Separated(pt: PageTable, base: nat, n: nat) {
    && (forall i :: 0 <= i < n ==> Whole(pt, base + 128 * i))
    && (forall i, j :: 0 <= i < j < n ==> Apart(Slot(pt, base, i), Slot(pt, base, j)))
  }

  predicate Contiguous(pt: PageTable, base: nat, size: nat) {
    forall va :: base <= va < base + size ==> Translate(pt, va) == Translate(pt, base) + (va - base)
  }

  /** What the code assumes of the descriptor buffer is enough. */
  lemma ContiguousIsSeparated(pt: PageTable, base: nat, n: nat)
    requires Contiguous(pt, base, 128 * n)
    ensures Separated(pt, base, n)
  {
  }

  predicate DistinctFrames(pt: PageTable, first: nat, last: nat) {
    forall a, b :: first <= a < b <= last ==> pt(a) != pt(b)
  }

  /** So is alignment, on distinct page frames that need not be neighbours. */
  lemma AlignedIsSeparated(pt: PageTable, base: nat, n: nat)
    requires base % 128 == 0 && DistinctFrames(pt, base / PAGE_SIZE, (base + 128 * n) / PAGE_SIZE)
    ensures Separated(pt, base, n)
  {
    forall i | 0 <= i < n
      ensures Whole(pt, base + 128 * i)
    {
      AlignedIsWhole(pt, base + 128 * i);
    }
    forall i, j | 0 <= i < j < n
      ensures Apart(Slot(pt, base, i), Slot(pt, base, j))
    {
      AlignedPair(pt, base, n, i, j);
    }
  }

  lemma AlignedPair(pt: PageTable, base: nat, n: nat, i: nat, j: nat)
    requires base % 128 == 0 && DistinctFrames(pt, base / PAGE_SIZE, (base + 128 * n) / PAGE_SIZE) && i < j < n
    ensures Apart(Slot(pt, base, i), Slot(pt, base, j))
  {
    var v, w := base + 128 * i, base + 128 * j;
    PagesInRange(base, n, i);
    PagesInRange(base, n, j);
    DivOrder(v, w);
    AlignedApart(pt, v, w, v / PAGE_SIZE, w / PAGE_SIZE);
  }

  lemma DivOrder(a: nat, b: nat)
    requires a <= b
    ensures a / PAGE_SIZE <= b / PAGE_SIZE
  {
  }

  lemma PagesInRange(base: nat, n: nat, i: nat)
    requires i <= n
    ensures base / PAGE_SIZE <= (base + 128 * i) / PAGE_SIZE <= (base + 128 * n) / PAGE_SIZE
  {
    DivOrder(base, base + 128 * i);
    DivOrder(base + 128 * i, base + 128 * n);
  }

  lemma AlignedIsWhole(pt: PageTable, va: nat)
    requires va % 128 == 0
    ensures Whole(pt, va)
  {
    assert va % PAGE_SIZE <= PAGE_SIZE - 128;
  }

  lemma AlignedApart(pt: PageTable, v: nat, w: nat, p: nat, q: nat)
    requires v % 128 == 0 && w % 128 == 0 && v < w
    requires p == v / PAGE_SIZE && q == w / PAGE_SIZE && (p != q ==> pt(p) != pt(q))
    ensures Apart(Translate(pt, v), Translate(pt, w))
  {
    InSlots(v);
    InSlots(w);
  }

  lemma InSlots(va: nat)
    requires va % 128 == 0
    ensures exists i :: i == va % PAGE_SIZE / 128 && 0 <= i < 32 && va % PAGE_SIZE == 128 * i
  {
    assert va % PAGE_SIZE == 128 * (va / 128 - 32 * (va / PAGE_SIZE));
  }

  // ---- What the engine reads back -----------------------------------------

  /** The words of a descriptor are what was stored there. */
  lemma ReadsBack(m: Words, pt: PageTable, va: nat, nextLsb: u32, nextMsb: u32, bufferLsb: u32, bufferMsb: u32,
                  control: u32, pa: nat)
    requires Whole(pt, va) && pa == Translate(pt, va)
    ensures var addressed := StoreAddresses(m, pt, va, nextLsb, nextMsb, bufferLsb, bufferMsb);
            var after := StoreWord(addressed, pt, va + 24, control);
            Fetch(after, pa) == Parse(nextLsb, nextMsb, bufferLsb, bufferMsb, control)
  {
  }

  predicate Fits(d: Descriptor) {
    d.next < 0x1_0000_0000_0000_0000 && d.buffer < 0x1_0000_0000_0000_0000 && d.len < 0x400_0000
  }

  lemma ParsesBack(d: Descriptor, w: u32, nextLsb: u32, nextMsb: u32, bufferLsb: u32, bufferMsb: u32)
    requires Fits(d)
    requires d.next == nextLsb + 0x1_0000_0000 * nextMsb && d.buffer == bufferLsb + 0x1_0000_0000 * bufferMsb
    ensures Parse(nextLsb, nextMsb, bufferLsb, bufferMsb, Control(w, d.sof, d.eof, d.len)) == d
  {
    ControlFields(w, d.sof, d.eof, d.len);
    assert d.len % 0x400_0000 == d.len;
  }

  /** A descriptor reads back as written. */
  lemma FetchWritten(m: Words, pt: PageTable, va: nat, d: Descriptor)
    requires Whole(pt, va) && Fits(d)
    ensures Fetch(WriteDescriptor(m, pt, va, d), Translate(pt, va)) == d
  {
    var nextLsb, nextMsb := d.next % 0x1_0000_0000, d.next / 0x1_0000_0000 % 0x1_0000_0000;
    var bufferLsb, bufferMsb := d.buffer % 0x1_0000_0000, d.buffer / 0x1_0000_0000 % 0x1_0000_0000;
    var m4 := StoreAddresses(m, pt, va, nextLsb, nextMsb, bufferLsb, bufferMsb);
    var was := ReadWord(m4, Translate(pt, va + 24));
    ReadsBack(m, pt, va, nextLsb, nextMsb, bufferLsb, bufferMsb, Control(was, d.sof, d.eof, d.len), Translate(pt, va));
    Halves(d.next);
    Halves(d.buffer);
    ParsesBack(d, was, nextLsb, nextMsb, bufferLsb, bufferMsb);
  }

  /** Writing one slot leaves the descriptors apart from it alone. */
  lemma FetchElsewhere(m: Words, pt: PageTable, va: nat, d: Descriptor, pa: nat)
    requires Whole(pt, va) && Apart(pa, Translate(pt, va))
    ensures Fetch(WriteDescriptor(m, pt, va, d), pa) == Fetch(m, pa)
  {
  }

  /** Memory as the engine sees it: at every physical address, a descriptor. */
  type View = nat -> Descriptor

  function ViewOf(m: Words): View { (pa: nat) => Fetch(m, pa) }

  /** `after` has `d` at `pa` and is otherwise as `before`. */
  ghost predicate Wrote(before: View, after: View, pa: nat, d: Descriptor) {
    && after(pa) == d
    && forall q: nat :: Apart(q, pa) ==> after(q) == before(q)
  }

  lemma DescriptorWrote(m: Words, pt: PageTable, va: nat, d: Descriptor)
    requires Whole(pt, va) && Fits(d)
    ensures Wrote(ViewOf(m), ViewOf(WriteDescriptor(m, pt, va, d)), Translate(pt, va), d)
  {
    FetchWritten(m, pt, va, d);
    forall q: nat | Apart(q, Translate(pt, va))
      ensures Fetch(WriteDescriptor(m, pt, va, d), q) == Fetch(m, q)
    {
      FetchElsewhere(m, pt, va, d, q);
    }
  }

  /** After writes to slots that do not overlap, every slot still has what was written there. */
  lemma {:induction false} WritesPersist(views: seq<View>, slots: seq<nat>, ds: seq<Descriptor>, i: nat, k: nat)
    requires |views| == |slots| + 1 && |slots| == |ds| && i < k <= |slots|
    requires forall a :: 0 <= a < |slots| ==> Wrote(views[a], views[a + 1], slots[a], ds[a])
    requires forall a, b :: 0 <= a < b < |slots| ==> Apart(slots[a], slots[b])
    ensures views[k](slots[i]) == ds[i]
    decreases k
  {
    assert Wrote(views[k - 1], views[k], slots[k - 1], ds[k - 1]);
    if i < k - 1 {
      WritesPersist(views, slots, ds, i, k - 1);
      assert Apart(slots[i], slots[k - 1]);
    }
  }

  // ---- Following the chain -------------------------------------------------

  datatype Trace = Ended(visited: seq<Descriptor>) | Unfinished

  /** The engine, for at most `fuel` descriptors: from `cur` along the next pointers to `tail`. */
  function Walk(view: View, cur: nat, tail: nat, fuel: nat): Trace
    decreases fuel
  {
    if fuel == 0 then Unfinished
    else if cur == tail then Ended([view(cur)])
    else
      match Walk(view, view(cur).next, tail, fuel - 1)
      case Ended(rest) => Ended([view(cur)] + rest)
      case Unfinished => Unfinished
  }

  /** Each slot shows its descriptor. */
  predicate Shows(view: View, slots: seq<nat>, ds: seq<Descriptor>) {
    |slots| == |ds| && forall i :: 0 <= i < |ds| ==> view(slots[i]) == ds[i]
  }

  /** Each descriptor points to the next slot. */
  predicate Points(slots: seq<nat>, ds: seq<Descriptor>) {
    |slots| == |ds| && forall i :: 0 <= i < |ds| - 1 ==> ds[i].next == slots[i + 1]
  }

  predicate Distinct(slots: seq<nat>) {
    forall i, j :: 0 <= i < j < |slots| ==> slots[i] != slots[j]
  }

  predicate Linked(view: View, slots: seq<nat>, ds: seq<Descriptor>) {
    Shows(view, slots, ds) && Points(slots, ds) && Distinct(slots)
  }

  /** The engine goes through the slots in order and stops at the last, no earlier. */
  lemma {:induction false} WalkFrom(view: View, slots: seq<nat>, ds: seq<Descriptor>, i: nat, fuel: nat)
    requires Linked(view, slots, ds) && i < |ds|
    ensures Walk(view, slots[i], slots[|ds| - 1], fuel) ==
            if fuel < |ds| - i then Unfinished else Ended(ds[i..])
    decreases fuel
  {
    if fuel > 0 {
      assert ds[i..] == [ds[i]] + ds[i + 1..];
      if i < |ds| - 1 {
        WalkFrom(view, slots, ds, i + 1, fuel - 1);
      }
    }
  }

  lemma {:induction false} PinnedLookupFits(pt: PageTable, usrBuf: nat, size: nat, k: nat)
    requires size > 0
    ensures Lookup(Physlist(PinnedList(pt, usrBuf, size)), k) < 0x1_0000_0000_0000_0000
  {
    var plist := Physlist(PinnedList(pt, usrBuf, size));
    if k < size {
      LookupAgrees(pt, usrBuf, size, k);
    } else {
      ListCoversBuffer(PinnedPages(pt, usrBuf, size), usrBuf % PAGE_SIZE, size);
      LookupPastEnd(plist, k);
    }
  }

  function Slots(pt: PageTable, base: nat, n: nat): (r: seq<nat>)
    ensures |r| == n && forall i :: 0 <= i < n ==> r[i] == Slot(pt, base, i)
  {
    seq(n, i requires 0 <= i < n => Slot(pt, base, i))
  }

  function Views(m: Words, pt: PageTable, base: nat, ds: seq<Descriptor>): (r: seq<View>)
    ensures |r| == |ds| + 1 && forall i :: 0 <= i <= |ds| ==> r[i] == ViewOf(ChainMemory(m, pt, base, ds, i))
  {
    seq(|ds| + 1, i requires 0 <= i <= |ds| => ViewOf(ChainMemory(m, pt, base, ds, i)))
  }

  lemma StepWrote(m: Words, pt: PageTable, base: nat, ds: seq<Descriptor>, i: nat)
    requires i < |ds| && Whole(pt, base + 128 * i) && Fits(ds[i])
    ensures Wrote(ViewOf(ChainMemory(m, pt, base, ds, i)), ViewOf(ChainMemory(m, pt, base, ds, i + 1)),
                  Slot(pt, base, i), ds[i])
  {
    PlaceWrote(ChainMemory(m, pt, base, ds, i), pt, base, ds, i);
  }

  lemma PlaceWrote(m: Words, pt: PageTable, base: nat, ds: seq<Descriptor>, i: nat)
    requires i < |ds| && Whole(pt, base + 128 * i) && Fits(ds[i])
    ensures Wrote(ViewOf(m), ViewOf(Place(m, pt, base, ds, i)), Slot(pt, base, i), ds[i])
  {
    DescriptorWrote(m, pt, base + 128 * i, ds[i]);
  }

  /** Once all descriptors are written, each slot shows its own. */
  lemma AllWritten(m: Words, pt: PageTable, base: nat, ds: seq<Descriptor>)
    requires Separated(pt, base, |ds|)
    requires forall i :: 0 <= i < |ds| ==> Fits(ds[i])
    ensures Shows(ViewOf(ChainMemory(m, pt, base, ds, |ds|)), Slots(pt, base, |ds|), ds)
  {
    var views, slots := Views(m, pt, base, ds), Slots(pt, base, |ds|);
    forall i | 0 <= i < |ds|
      ensures Wrote(views[i], views[i + 1], slots[i], ds[i])
    {
      StepWrote(m, pt, base, ds, i);
    }
    forall i | 0 <= i < |ds|
      ensures views[|ds|](slots[i]) == ds[i]
    {
      WritesPersist(views, slots, ds, i, |ds|);
    }
  }

  /** The list of the pinned descriptor buffer leads to the slots. */
  lemma LeadsToSlots(pt: PageTable, base: nat, sgSize: nat, i: nat)
    requires 128 * i < sgSize
    ensures Lookup(Physlist(PinnedList(pt, base, sgSize)), 128 * i) == Slot(pt, base, i)
  {
    LookupAgrees(pt, base, sgSize, 128 * i);
  }

  predicate EntriesFit(plist: seq<PhysEntry>) {
    forall i :: 0 <= i < |plist| ==> plist[i].addr < 0x1_0000_0000_0000_0000 && plist[i].len < 0x400_0000
  }

  /** What the engine goes through for a list of entries, with the descriptors in a pinned buffer. */
  function Transfer(m: Words, pt: PageTable, base: nat, sg: seq<PhysEntry>, plist: seq<PhysEntry>, fuel: nat): Trace
    requires 0 < |plist|
  {
    Walk(ViewOf(ChainMemory(m, pt, base, Chain(sg, plist), |plist|)), Lookup(sg, 0), Lookup(sg, 128 * (|plist| - 1)),
         fuel)
  }

  /** The engine fetches the chain, descriptor by descriptor. */
  lemma WalkIsChain(m: Words, pt: PageTable, base: nat, sgSize: nat, plist: seq<PhysEntry>, fuel: nat)
    requires 0 < |plist| && 128 * |plist| <= sgSize && Separated(pt, base, |plist|) && EntriesFit(plist)
    ensures var sg := Physlist(PinnedList(pt, base, sgSize));
            Transfer(m, pt, base, sg, plist, fuel) ==
            if fuel < |plist| then Unfinished else Ended(Chain(sg, plist))
  {
    var sg, n := Physlist(PinnedList(pt, base, sgSize)), |plist|;
    var ds, slots := Chain(sg, plist), Slots(pt, base, n);
    ChainFits(pt, base, sgSize, plist);
    AllWritten(m, pt, base, ds);
    var view := ViewOf(ChainMemory(m, pt, base, ds, n));
    PointsToSlots(pt, base, sgSize, plist);
    SlotsDiffer(pt, base, n);
    LeadsToSlots(pt, base, sgSize, 0);
    LeadsToSlots(pt, base, sgSize, n - 1);
    WalkWhole(view, slots, ds, Lookup(sg, 0), Lookup(sg, 128 * (n - 1)), fuel);
  }

  lemma WalkWhole(view: View, slots: seq<nat>, ds: seq<Descriptor>, cur: nat, tail: nat, fuel: nat)
    requires Linked(view, slots, ds) && 0 < |ds| && cur == slots[0] && tail == slots[|ds| - 1]
    ensures Walk(view, cur, tail, fuel) == if fuel < |ds| then Unfinished else Ended(ds)
  {
    WalkFrom(view, slots, ds, 0, fuel);
    assert ds[0..] == ds;
  }

  lemma ChainFits(pt: PageTable, base: nat, sgSize: nat, plist: seq<PhysEntry>)
    requires sgSize > 0 && EntriesFit(plist)
    ensures forall d :: d in Chain(Physlist(PinnedList(pt, base, sgSize)), plist) ==> Fits(d)
  {
    forall i: nat | i < |plist|
      ensures Fits(ChainEntry(Physlist(PinnedList(pt, base, sgSize)), plist, i))
    {
      PinnedLookupFits(pt, base, sgSize, 128 * (i + 1));
    }
  }

  lemma PointsToSlots(pt: PageTable, base: nat, sgSize: nat, plist: seq<PhysEntry>)
    requires 128 * |plist| <= sgSize
    ensures Points(Slots(pt, base, |plist|), Chain(Physlist(PinnedList(pt, base, sgSize)), plist))
  {
    forall i | 0 <= i < |plist| - 1
      ensures Chain(Physlist(PinnedList(pt, base, sgSize)), plist)[i].next == Slot(pt, base, i + 1)
    {
      LeadsToSlots(pt, base, sgSize, i + 1);
    }
  }

  lemma SlotsDiffer(pt: PageTable, base: nat, n: nat)
    requires Separated(pt, base, n)
    ensures Distinct(Slots(pt, base, n))
  {
    forall i, j | 0 <= i < j < n
      ensures Slot(pt, base, i) != Slot(pt, base, j)
    {
      assert Apart(Slot(pt, base, i), Slot(pt, base, j));
    }
  }

  /** Descriptors for the entries of a list, in order, `sof` only on the first and `eof` only on the last. */
  predicate Carry(visited: seq<Descriptor>, plist: seq<PhysEntry>) {
    && |visited| == |plist|
    && forall i :: 0 <= i < |plist| ==>
         && visited[i].buffer == plist[i].addr && visited[i].len == plist[i].len
         && (visited[i].sof <==> i == 0)
         && (visited[i].eof <==> i == |plist| - 1)
  }

  /** The words at `pa` are a descriptor with these fields: next, buffer, then at byte 24 length, `eof`, `sof`. */
  predicate HoldsWords(m: Words, pa: nat, next: nat, buffer: nat, len: nat, sof: bool, eof: bool) {
    var control: nat := ReadWord(m, pa + 24);
    && ReadWord(m, pa) + 0x1_0000_0000 * ReadWord(m, pa + 4) == next
    && ReadWord(m, pa + 8) + 0x1_0000_0000 * ReadWord(m, pa + 12) == buffer
    && control % 0x400_0000 == len
    && (control / 0x400_0000 % 2 == 1 <==> eof) && (control / 0x800_0000 % 2 == 1 <==> sof)
  }

  lemma FetchedWords(m: Words, pa: nat, d: Descriptor)
    requires Fetch(m, pa) == d
    ensures HoldsWords(m, pa, d.next, d.buffer, d.len, d.sof, d.eof)
  {
  }

  /**
   * The words in memory once the chain is written: descriptor `i` lies 128*i bytes into the
   * descriptor buffer, names the place 128 bytes on as the next one, and carries entry `i`.
   */
  lemma ChainWords(m: Words, pt: PageTable, base: nat, sgSize: nat, plist: seq<PhysEntry>, i: nat, va: nat)
    requires 128 * |plist| <= sgSize && Separated(pt, base, |plist|) && EntriesFit(plist)
    requires i < |plist| && va == base + 128 * i
    ensures var sg := Physlist(PinnedList(pt, base, sgSize));
            HoldsWords(ChainMemory(m, pt, base, Chain(sg, plist), |plist|), 4096 * pt(va / 4096) + va % 4096,
                       Lookup(sg, 128 * (i + 1)), plist[i].addr, plist[i].len, i == 0, i == |plist| - 1)
  {
    var ds := Chain(Physlist(PinnedList(pt, base, sgSize)), plist);
    ChainFits(pt, base, sgSize, plist);
    AllWritten(m, pt, base, ds);
    ShownWords(ChainMemory(m, pt, base, ds, |plist|), pt, base, ds, i, va);
  }

  lemma ShownWords(m: Words, pt: PageTable, base: nat, ds: seq<Descriptor>, i: nat, va: nat)
    requires i < |ds| && va == base + 128 * i && Shows(ViewOf(m), Slots(pt, base, |ds|), ds)
    ensures HoldsWords(m, 4096 * pt(va / 4096) + va % 4096, ds[i].next, ds[i].buffer, ds[i].len, ds[i].sof, ds[i].eof)
  {
    assert Slots(pt, base, |ds|)[i] == Slot(pt, base, i) == Translate(pt, va);
    FetchedWords(m, Translate(pt, va), ds[i]);
  }

  /**
   * From the address written to `curdesc`, the engine fetches one descriptor per entry of
   * the list, with that entry's address and length and the right flags, and stops at the
   * address written to `taildesc`, whatever the memory held before. It has not stopped any
   * earlier.
   */
  lemma ChainCorrect(m: Words, pt: PageTable, base: nat, sgSize: nat, plist: seq<PhysEntry>, fuel: nat)
    requires 0 < |plist| && 128 * |plist| <= sgSize && Separated(pt, base, |plist|) && EntriesFit(plist)
    ensures var walk := Transfer(m, pt, base, Physlist(PinnedList(pt, base, sgSize)), plist, fuel);
            if fuel < |plist| then walk == Unfinished else walk.Ended? && Carry(walk.visited, plist)
  {
    WalkIsChain(m, pt, base, sgSize, plist, fuel);
  }

  // ---- The bytes that a transfer touches ----------------------------------

  /** Physical addresses of the bytes of a run of entries, in order. */
  function Span(plist: seq<PhysEntry>): (r: seq<nat>)
    ensures |r| == TotalLength(plist)
  {
    if plist == [] then []
    else seq(plist[0].len, k requires 0 <= k => plist[0].addr + k) + Span(plist[1..])
  }

  lemma {:induction false} SpanIsLookup(plist: seq<PhysEntry>, k: nat)
    requires k < TotalLength(plist)
    ensures Span(plist)[k] == Lookup(plist, k)
  {
    if k >= plist[0].len {
      SpanIsLookup(plist[1..], k - plist[0].len);
    }
  }

  function Visited(ds: seq<Descriptor>): (r: seq<PhysEntry>)
    ensures |r| == |ds| && forall i :: 0 <= i < |r| ==> r[i] == PhysEntry(ds[i].buffer, ds[i].len)
  {
    seq(|ds|, i requires 0 <= i < |ds| => PhysEntry(ds[i].buffer, ds[i].len))
  }

  lemma CarriedVisited(visited: seq<Descriptor>, plist: seq<PhysEntry>)
    requires Carry(visited, plist)
    ensures Visited(visited) == plist
  {
  }

  lemma PinnedEntriesFit(pt: PageTable, usrBuf: nat, size: nat)
    requires size > 0
    ensures EntriesFit(Physlist(PinnedList(pt, usrBuf, size)))
  {
    var offset, pages := usrBuf % PAGE_SIZE, PinnedPages(pt, usrBuf, size);
    var plist := Physlist(PinnedList(pt, usrBuf, size));
    ListCoversBuffer(pages, offset, size);
    forall i | 0 <= i < |plist|
      ensures plist[i].addr < 0x1_0000_0000_0000_0000
    {
      assert PinnedList(pt, usrBuf, size)[i] == Piece(pages, offset, size, i);
    }
  }

  lemma SpanIsBuffer(pt: PageTable, usrBuf: nat, size: nat)
    requires size > 0
    ensures Span(Physlist(PinnedList(pt, usrBuf, size))) == seq(size, k requires 0 <= k => Translate(pt, usrBuf + k))
  {
    var plist := Physlist(PinnedList(pt, usrBuf, size));
    ListCoversBuffer(PinnedPages(pt, usrBuf, size), usrBuf % PAGE_SIZE, size);
    forall k | 0 <= k < size
      ensures Span(plist)[k] == Translate(pt, usrBuf + k)
    {
      SpanIsLookup(plist, k);
      LookupAgrees(pt, usrBuf, size, k);
    }
  }

  /**
   * The example program's own sequence: build the chain for a pinned buffer, then write
   * the two addresses that start the engine. From the registers and the memory alone, the
   * engine finds the buffer's bytes in order and stops.
   */
  method Submit(ram: Ram, regs: DmaRegisters, pt: PageTable, base: nat, sgSize: nat, usrBuf: nat, size: nat,
                sgPlist: array<PhysEntry>, plist: array<PhysEntry>)
    requires size > 0 && plist.Length <= PINNER_MAX_PAGES && 128 * plist.Length <= sgSize
    requires sgPlist[..] == Physlist(PinnedList(pt, base, sgSize))
    requires plist[..] == Physlist(PinnedList(pt, usrBuf, size))
    requires Separated(pt, base, plist.Length)
    modifies ram, regs
    ensures Reaches(ram.words, regs.Curdesc(), regs.Taildesc(), plist.Length, pt, usrBuf, size)
  {
    ghost var was := ram.words;
    PinnedCount(pt, usrBuf, size);
    ram.WritePhyslistSg(pt, base, sgPlist, plist);
    regs.StartTransfer(sgPlist, plist.Length);
    AddressesFit(pt, base, sgSize, plist.Length);
    TransferReaches(was, pt, base, sgSize, usrBuf, size);
  }

  /** The engine stops after `n` descriptors, having gone through the bytes of a buffer in order. */
  predicate Reaches(m: Words, curdesc: nat, taildesc: nat, n: nat, pt: PageTable, usrBuf: nat, size: nat) {
    var walk := Walk(ViewOf(m), curdesc, taildesc, n);
    && walk.Ended?
    && |walk.visited| == n
    && Span(Visited(walk.visited)) == seq(size, k requires 0 <= k => Translate(pt, usrBuf + k))
  }

  lemma PinnedCount(pt: PageTable, usrBuf: nat, size: nat)
    requires size > 0
    ensures |Physlist(PinnedList(pt, usrBuf, size))| == PageCount(usrBuf % PAGE_SIZE, size) > 0
  {
  }

  /** The registers hold the two addresses whole. */
  lemma AddressesFit(pt: PageTable, base: nat, sgSize: nat, n: nat)
    requires 0 < n && 128 * n <= sgSize
    ensures var sg := Physlist(PinnedList(pt, base, sgSize));
            && Lookup(sg, 0) % 0x1_0000_0000_0000_0000 == Lookup(sg, 0)
            && Lookup(sg, 128 * (n - 1)) % 0x1_0000_0000_0000_0000 == Lookup(sg, 128 * (n - 1))
  {
    PinnedLookupFits(pt, base, sgSize, 0);
    PinnedLookupFits(pt, base, sgSize, 128 * (n - 1));
    Halves(Lookup(Physlist(PinnedList(pt, base, sgSize)), 0));
    Halves(Lookup(Physlist(PinnedList(pt, base, sgSize)), 128 * (n - 1)));
  }

  /**
   * Pinning a buffer, building its chain and following it touches exactly the buffer:
   * byte `k` of the transfer is the byte that the page table puts at `usrBuf + k`.
   */
  lemma TransferReaches(m: Words, pt: PageTable, base: nat, sgSize: nat, usrBuf: nat, size: nat)
    requires size > 0 && 128 * PageCount(usrBuf % PAGE_SIZE, size) <= sgSize
    requires Separated(pt, base, PageCount(usrBuf % PAGE_SIZE, size))
    ensures var sg, plist := Physlist(PinnedList(pt, base, sgSize)), Physlist(PinnedList(pt, usrBuf, size));
            var n := |plist|;
            n > 0 && Reaches(ChainMemory(m, pt, base, Chain(sg, plist), n), Lookup(sg, 0), Lookup(sg, 128 * (n - 1)), n,
                             pt, usrBuf, size)
  {
    var sg, plist := Physlist(PinnedList(pt, base, sgSize)), Physlist(PinnedList(pt, usrBuf, size));
    PinnedCount(pt, usrBuf, size);
    PinnedEntriesFit(pt, usrBuf, size);
    ChainCorrect(m, pt, base, sgSize, plist, |plist|);
    CarriedVisited(Transfer(m, pt, base, sg, plist, |plist|).visited, plist);
    SpanIsBuffer(pt, usrBuf, size);
  }
}
