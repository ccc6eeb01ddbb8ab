/**
 * The page pinner's scatter list and its user-side inverse: from a virtual buffer to
 * pieces of pages, and from an offset into the buffer back to a physical address.
 */
module PinnerScatter {
  import opened Bytes

  const PAGE_SIZE: nat := 4096
  const PINNER_MAX_PAGES: nat := 1024

  /** A page frame number. Physical addresses have 64 bits. */
  type Page = p: nat | p < 0x10_0000_0000_0000

  /** `page_to_phys`. */
  function PageToPhys(p: Page): u64 { PAGE_SIZE * p }

  /** The process's page table, from virtual page numbers to frames. */
  type PageTable = nat -> Page

  /** The physical address behind a virtual one. */
  function Translate(pt: PageTable, va: nat): u64 { PageToPhys(pt(va / PAGE_SIZE)) + va % PAGE_SIZE }

  datatype SgEntry = SgEntry(page: Page, length: nat, offset: nat, dmaAddress: nat)

  datatype PhysEntry = PhysEntry(addr: nat, len: nat)

  /** Pages that a buffer of `size` bytes touches when it starts `offset` bytes into a page. */
  function PageCount(offset: nat, size: nat): nat { (offset + size + (PAGE_SIZE - 1)) / PAGE_SIZE }

  /** Bytes of the buffer in the pages before page `i`. */
  function Covered(offset: nat, i: nat): nat
    requires offset < PAGE_SIZE
  {
    if i == 0 then 0 else PAGE_SIZE * i - offset
  }

  /** Bytes of the buffer in page `i`: those up to the end of the page or of the buffer. */
  function PieceLength(offset: nat, size: nat, i: nat): nat
    requires offset < PAGE_SIZE && Covered(offset, i) <= size
  {
    Min(size, Covered(offset, i + 1)) - Covered(offset, i)
  }

  lemma CoveredBound(offset: nat, size: nat, i: nat)
    requires offset < PAGE_SIZE && i < PageCount(offset, size)
    ensures Covered(offset, i) <= size
  {
  }

  /** The part of the buffer that lies in page `i`. */
  function Piece(pages: seq<Page>, offset: nat, size: nat, i: nat): SgEntry
    requires offset < PAGE_SIZE && i < |pages| == PageCount(offset, size)
  {
    CoveredBound(offset, size, i);
    SgEntry(pages[i], PieceLength(offset, size, i), if i == 0 then offset else 0, PageToPhys(pages[i]))
  }

  /** The whole scatter list. */
  function Pieces(pages: seq<Page>, offset: nat, size: nat): (r: seq<SgEntry>)
    requires offset < PAGE_SIZE && |pages| == PageCount(offset, size)
    ensures |r| == |pages| && forall i :: 0 <= i < |r| ==> r[i] == Piece(pages, offset, size, i)
  {
    seq(|pages|, i requires 0 <= i < |pages| => Piece(pages, offset, size, i))
  }

  /** `pinner_alloc_and_fill_sglist`: a first page, middle pages, a last page. */
  method FillSglist(pageArr: array<Page>, numPages: nat, firstPageOffset: nat, totalSz: u32)
    returns (sglist: array<SgEntry>)
    requires 0 < numPages <= pageArr.Length && firstPageOffset < PAGE_SIZE
    requires numPages == PageCount(firstPageOffset, totalSz)
    ensures fresh(sglist)
    ensures sglist[..] == Pieces(pageArr[..numPages], firstPageOffset, totalSz)
  {
    sglist := new SgEntry[numPages](_ => SgEntry(0, 0, 0, 0));
    ghost var pages := pageArr[..numPages];
    var firstPageSz: nat;
    if totalSz < PAGE_SIZE - firstPageOffset {
      firstPageSz := totalSz;
    } else {
      firstPageSz := PAGE_SIZE - firstPageOffset;
    }
    sglist[0] := SgEntry(pageArr[0], firstPageSz, firstPageOffset, PageToPhys(pageArr[0]));
    FirstPiece(pages, firstPageOffset, totalSz);
    var i := 1;
    while i < numPages - 1
      invariant 1 <= i && (i <= numPages - 1 || numPages == 1 == i)
      invariant forall j :: 0 <= j < i ==> sglist[j] == Piece(pages, firstPageOffset, totalSz, j)
    {
      MiddlePiece(pages, firstPageOffset, totalSz, i);
      sglist[i] := SgEntry(pageArr[i], PAGE_SIZE, 0, PageToPhys(pageArr[i]));
      i := i + 1;
    }
    if numPages > 1 {
      LastPiece(pages, firstPageOffset, totalSz);
      var lastSz := totalSz - (PAGE_SIZE - firstPageOffset) - (numPages - 2) * PAGE_SIZE;
      sglist[numPages - 1] := SgEntry(pageArr[numPages - 1], lastSz, 0, PageToPhys(pageArr[numPages - 1]));
    }
  }

  lemma FirstPiece(pages: seq<Page>, offset: nat, size: nat)
    requires offset < PAGE_SIZE && 0 < |pages| == PageCount(offset, size)
    ensures Piece(pages, offset, size, 0) ==
            SgEntry(pages[0], if size < PAGE_SIZE - offset then size else PAGE_SIZE - offset, offset,
                    PageToPhys(pages[0]))
  {
  }

  lemma MiddlePiece(pages: seq<Page>, offset: nat, size: nat, i: nat)
    requires offset < PAGE_SIZE && 0 < i < |pages| - 1 && |pages| == PageCount(offset, size)
    ensures Piece(pages, offset, size, i) == SgEntry(pages[i], PAGE_SIZE, 0, PageToPhys(pages[i]))
  {
  }

  /** The subtraction that gives the last page's length does not go below zero. */
  lemma LastPiece(pages: seq<Page>, offset: nat, size: nat)
    requires offset < PAGE_SIZE && 1 < |pages| == PageCount(offset, size)
    ensures size - (PAGE_SIZE - offset) - (|pages| - 2) * PAGE_SIZE >= 0
    ensures Piece(pages, offset, size, |pages| - 1) ==
            SgEntry(pages[|pages| - 1], size - (PAGE_SIZE - offset) - (|pages| - 2) * PAGE_SIZE, 0,
                    PageToPhys(pages[|pages| - 1]))
  {
  }

  // ---- The list that user space gets --------------------------------------

  function ToPhys(e: SgEntry): PhysEntry { PhysEntry(e.dmaAddress + e.offset, e.length) }

  function Physlist(sglist: seq<SgEntry>): (r: seq<PhysEntry>)
    ensures |r| == |sglist| && forall i :: 0 <= i < |r| ==> r[i] == ToPhys(sglist[i])
  {
    seq(|sglist|, i requires 0 <= i < |sglist| => ToPhys(sglist[i]))
  }

  /** The copy loop of `pinner_send_physlist`. */
  method SendPhyslist(sglist: array<SgEntry>, numSgEnts: nat) returns (entries: array<PhysEntry>)
    requires numSgEnts == sglist.Length
    ensures fresh(entries) && entries[..] == Physlist(sglist[..])
  {
    entries := new PhysEntry[numSgEnts](_ => PhysEntry(0, 0));
    for i := 0 to numSgEnts
      invariant forall j :: 0 <= j < i ==> entries[j] == ToPhys(sglist[j])
    {
      entries[i] := PhysEntry(sglist[i].dmaAddress + sglist[i].offset, sglist[i].length);
    }
  }

  function TotalLength(plist: seq<PhysEntry>): nat {
    if plist == [] then 0 else plist[0].len + TotalLength(plist[1..])
  }

  /** The address `offset` bytes into the list; 0 when the list is shorter. */
  function Lookup(plist: seq<PhysEntry>, offset: nat): nat {
    if plist == [] then 0
    else if offset >= plist[0].len then Lookup(plist[1..], offset - plist[0].len)
    else plist[0].addr + offset
  }

  /** `virt_to_phys`: a linear search that uses the offset up. */
  method VirtToPhys(offset: u32, plist: array<PhysEntry>) returns (addr: nat)
    ensures addr == Lookup(plist[..], offset)
  {
    var left: nat := offset;
    assert plist[0..] == plist[..];
    for i := 0 to plist.Length
      invariant Lookup(plist[..], offset) == Lookup(plist[i..], left)
    {
      assert plist[i..][0] == plist[i] && plist[i..][1..] == plist[i + 1..];
      if left >= plist[i].len {
        left := left - plist[i].len;
        continue;
      }
      return plist[i].addr + left;
    }
    return 0;
  }

  // ---- Translation agrees with the page table -----------------------------

  /** What `get_user_pages_fast` returns for a buffer at `usrBuf`. */
  function PinnedPages(pt: PageTable, usrBuf: nat, size: nat): (r: seq<Page>)
    ensures |r| == PageCount(usrBuf % PAGE_SIZE, size)
  {
    seq(PageCount(usrBuf % PAGE_SIZE, size), i requires 0 <= i => pt(usrBuf / PAGE_SIZE + i))
  }

  /** The scatter list of a pin. */
  function PinnedList(pt: PageTable, usrBuf: nat, size: nat): seq<SgEntry> {
    Pieces(PinnedPages(pt, usrBuf, size), usrBuf % PAGE_SIZE, size)
  }

  lemma PageSpan(usrBuf: nat, i: nat, page: nat, offset: nat)
    requires page == usrBuf / 4096 && offset == usrBuf % 4096
    ensures 4096 * (page + i) == usrBuf - offset + 4096 * i
  {
  }

  /**
   * Entry `i` of a pin is what the buffer and its page `i` have in common: the frame that the
   * page table has there, where the common part starts in it, and how long it is.
   */
  lemma EntryIs(pt: PageTable, usrBuf: nat, size: nat, i: nat)
    requires i < (usrBuf % 4096 + size + 4095) / 4096
    ensures |PinnedList(pt, usrBuf, size)| == (usrBuf % 4096 + size + 4095) / 4096
    ensures var e, start := PinnedList(pt, usrBuf, size)[i], 4096 * (usrBuf / 4096 + i);
            var from := if start < usrBuf then usrBuf else start;
            && e.page == pt(usrBuf / 4096 + i) && e.dmaAddress == 4096 * e.page && e.offset == from - start
            && e.length == (if usrBuf + size < start + 4096 then usrBuf + size else start + 4096) - from
  {
    PageSpan(usrBuf, i, usrBuf / 4096, usrBuf % 4096);
    CoveredBound(usrBuf % 4096, size, i);
    assert PinnedList(pt, usrBuf, size)[i] == Piece(PinnedPages(pt, usrBuf, size), usrBuf % 4096, size, i);
  }

  lemma PieceBounds(offset: nat, size: nat, i: nat)
    requires offset < PAGE_SIZE && i < PageCount(offset, size) && size > 0
    ensures Covered(offset, i) <= size && 1 <= PieceLength(offset, size, i) <= PAGE_SIZE
    ensures Covered(offset, i) + PieceLength(offset, size, i) ==
            if i + 1 < PageCount(offset, size) then Covered(offset, i + 1) else size
  {
  }

  lemma {:induction false} TailLength(pages: seq<Page>, offset: nat, size: nat, i: nat)
    requires offset < PAGE_SIZE && i <= |pages| == PageCount(offset, size) && size > 0
    ensures i < |pages| ==> Covered(offset, i) <= size
    ensures TotalLength(Physlist(Pieces(pages, offset, size))[i..]) ==
            if i < |pages| then size - Covered(offset, i) else 0
    decreases |pages| - i
  {
    var plist := Physlist(Pieces(pages, offset, size));
    if i < |pages| {
      PieceBounds(offset, size, i);
      TailLength(pages, offset, size, i + 1);
      assert plist[i..][1..] == plist[i + 1..];
    }
  }

  /** Every entry is 1 to 4096 bytes long and together they are the buffer's size. */
  lemma ListCoversBuffer(pages: seq<Page>, offset: nat, size: nat)
    requires offset < PAGE_SIZE && |pages| == PageCount(offset, size) && size > 0
    ensures var plist := Physlist(Pieces(pages, offset, size));
            && TotalLength(plist) == size
            && forall i :: 0 <= i < |plist| ==> 1 <= plist[i].len <= 4096
  {
    var plist := Physlist(Pieces(pages, offset, size));
    TailLength(pages, offset, size, 0);
    assert plist[0..] == plist;
    forall i | 0 <= i < |plist|
      ensures 1 <= plist[i].len <= PAGE_SIZE
    {
      PieceBounds(offset, size, i);
    }
  }

  lemma {:induction false} LookupFrom(pages: seq<Page>, offset: nat, size: nat, i: nat, k: nat)
    requires offset < PAGE_SIZE && i < |pages| == PageCount(offset, size)
    requires Covered(offset, i) <= k < size
    ensures Lookup(Physlist(Pieces(pages, offset, size))[i..], k - Covered(offset, i)) ==
            PageToPhys(pages[(offset + k) / PAGE_SIZE]) + (offset + k) % PAGE_SIZE
    decreases |pages| - i
  {
    var plist := Physlist(Pieces(pages, offset, size));
    PieceBounds(offset, size, i);
    assert plist[i..][1..] == plist[i + 1..];
    if k - Covered(offset, i) >= plist[i].len {
      LookupFrom(pages, offset, size, i + 1, k);
    } else {
      assert (offset + k) / PAGE_SIZE == i;
    }
  }

  lemma PageOf(usrBuf: nat, k: nat)
    ensures (usrBuf + k) / PAGE_SIZE == usrBuf / PAGE_SIZE + (usrBuf % PAGE_SIZE + k) / PAGE_SIZE
    ensures (usrBuf + k) % PAGE_SIZE == (usrBuf % PAGE_SIZE + k) % PAGE_SIZE
  {
  }

  lemma TranslateFrom(pt: PageTable, usrBuf: nat, k: nat, into: nat, i: nat, within: nat)
    requires into == usrBuf % PAGE_SIZE + k && i == into / PAGE_SIZE && within == into % PAGE_SIZE
    ensures Translate(pt, usrBuf + k) == PageToPhys(pt(usrBuf / PAGE_SIZE + i)) + within
  {
    PageOf(usrBuf, k);
  }

  lemma LookupWhole(pages: seq<Page>, offset: nat, size: nat, k: nat, into: nat, i: nat, within: nat)
    requires offset < PAGE_SIZE && |pages| == PageCount(offset, size) && k < size && into == offset + k
    requires i == into / PAGE_SIZE && within == into % PAGE_SIZE
    ensures i < |pages| && Lookup(Physlist(Pieces(pages, offset, size)), k) == PageToPhys(pages[i]) + within
  {
    var plist := Physlist(Pieces(pages, offset, size));
    assert plist[0..] == plist;
    LookupFrom(pages, offset, size, 0, k);
  }

  lemma PinnedPageAt(pt: PageTable, usrBuf: nat, size: nat, i: nat, page: nat)
    requires i < PageCount(usrBuf % PAGE_SIZE, size) && page == usrBuf / PAGE_SIZE + i
    ensures PinnedPages(pt, usrBuf, size)[i] == pt(page)
  {
  }

  lemma PinnedListIs(pt: PageTable, usrBuf: nat, size: nat, offset: nat, pages: seq<Page>)
    requires offset == usrBuf % PAGE_SIZE && pages == PinnedPages(pt, usrBuf, size)
    ensures |pages| == PageCount(offset, size) && PinnedList(pt, usrBuf, size) == Pieces(pages, offset, size)
  {
  }

  lemma LookupAgrees(pt: PageTable, usrBuf: nat, size: nat, k: nat)
    requires k < size
    ensures Lookup(Physlist(PinnedList(pt, usrBuf, size)), k) == Translate(pt, usrBuf + k)
  {
    var first, offset, pages := usrBuf / PAGE_SIZE, usrBuf % PAGE_SIZE, PinnedPages(pt, usrBuf, size);
    var i, within := (offset + k) / PAGE_SIZE, (offset + k) % PAGE_SIZE;
    PinnedListIs(pt, usrBuf, size, offset, pages);
    LookupWhole(pages, offset, size, k, offset + k, i, within);
    PinnedPageAt(pt, usrBuf, size, i, first + i);
    TranslateFrom(pt, usrBuf, k, offset + k, i, within);
  }

  /**
   * Searching the list for byte `k` of a pinned buffer gives the page table's translation
   * of that byte, wherever in its page the buffer starts and however many pages it spans.
   */
  lemma TranslationAgrees(pt: PageTable, usrBuf: nat, size: nat, k: nat, va: nat)
    requires k < size && va == usrBuf + k
    ensures Lookup(Physlist(PinnedList(pt, usrBuf, size)), k) == 4096 * pt(va / 4096) + va % 4096
  {
    LookupAgrees(pt, usrBuf, size, k);
  }

  /** Behind the end of the list the search finds nothing. */
  lemma {:induction false} LookupPastEnd(plist: seq<PhysEntry>, offset: nat)
    requires offset >= TotalLength(plist)
    ensures Lookup(plist, offset) == 0
  {
    if plist != [] {
      LookupPastEnd(plist[1..], offset - plist[0].len);
    }
  }
}
