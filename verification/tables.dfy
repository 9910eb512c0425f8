/**
 Page tables as values.

 The format is the ARMv7 short-descriptor one (section B3.5 of the ARM Architecture Reference
 Manual, ARMv7-A and ARMv7-R edition): a first-level table of 4096 entries, each covering 1 MB,
 over second-level tables of 256 entries, each covering a 4 KB page.  Attribute bits are not
 modelled, so a first-level entry is a fault, a section or a reference to a second-level table.

 Tables live in the kernel heap.  A pointer to a table is the address of a block, the heap maps
 addresses to blocks, and freeing a block removes its address, so that leaks, double frees and
 sharing can all be expressed.
 */
module Tables {
  import opened Wrappers

  const PAGE_SIZE: nat := 0x1000
  const SECT_SIZE: nat := 0x10_0000
  const SPACE: nat := 0x1_0000_0000

  /** Number of virtual pages, which is also the number of physical frames. */
  const PAGES: nat := 0x10_0000

  datatype L1Entry = Fault | Section(mb: nat) | Table(at: nat)
  datatype L2Entry = Hole | Page(pfn: nat)

  type L1Table = s: seq<L1Entry> | |s| == 4096 witness seq(4096, _ => Fault)
  type L2Table = s: seq<L2Entry> | |s| == 256 witness seq(256, _ => Hole)

  /** A first-level table, and a second-level one, just after memset. */
  function EmptyRoot(): L1Table { seq(4096, _ => Fault) }
  function Blank(): L2Table { seq(256, _ => Hole) }

  datatype Heap = Heap(l1: map<nat, L1Table>, l2: map<nat, L2Table>)

  /** No two slots of a first-level table refer to the same second-level table. */
  ghost predicate Separate(row: L1Table) {
    forall i, j | 0 <= i < j < 4096 && row[i].Table? && row[j].Table? :: row[i].at != row[j].at
  }

  /** The root table exists, and what its slots refer to exists and is not shared among them. */
  ghost predicate Live(h: Heap, root: nat) {
    && root in h.l1
    && (forall i | 0 <= i < 4096 && h.l1[root][i].Table? :: h.l1[root][i].at in h.l2)
    && Separate(h.l1[root])
  }

  /** The frame a table maps a virtual page to. */
  function Translate(h: Heap, root: nat, page: nat): Option<nat>
    requires root in h.l1 && page < PAGES
  {
    match h.l1[root][page / 256]
    case Fault => None
    case Section(mb) => Some(mb * 256 + page % 256)
    case Table(at) =>
      if at in h.l2 && h.l2[at][page % 256].Page? then Some(h.l2[at][page % 256].pfn) else None
  }

  /** The part of slot i, as an index into its 256 pages, that lies below a page number. */
  function Clip(i: nat, page: nat): (c: nat)
    ensures c <= 256
  {
    if page <= 256 * i then 0 else if page >= 256 * i + 256 then 256 else page - 256 * i
  }

  predicate Covered(i: nat, first: nat, last: nat) {
    Clip(i, first) < Clip(i, last)
  }

  predicate Whole(i: nat, first: nat, last: nat) {
    Clip(i, first) == 0 && Clip(i, last) == 256
  }

  /** The frame k pages after a physical address, in 32-bit arithmetic. */
  function FrameNo(phys: nat, k: nat): (f: nat)
    ensures f < PAGES
  {
    (phys / PAGE_SIZE + k) % PAGES
  }

  /** Whether virtual and physical 1 MB boundaries coincide when page first maps to phys. */
  predicate SectionFits(phys: nat, first: nat) {
    phys % PAGE_SIZE == 0 && (phys / PAGE_SIZE - first) % 256 == 0
  }

  predicate BySection(i: nat, first: nat, last: nat, phys: nat) {
    Whole(i, first, last) && SectionFits(phys, first)
  }

  predicate ByPages(i: nat, first: nat, last: nat, phys: nat) {
    Covered(i, first, last) && !BySection(i, first, last, phys)
  }

  /** What the slot holds as a second-level table before a mapping is added to it. */
  function OldRow(h: Heap, root: nat, i: nat): L2Table
    requires root in h.l1 && i < 4096
  {
    match h.l1[root][i]
    case Table(at) => if at in h.l2 then h.l2[at] else Blank()
    case _ => Blank()
  }

  function MapCell(e: L2Entry, i: nat, j: nat, first: nat, last: nat, phys: nat): L2Entry {
    if Clip(i, first) <= j < Clip(i, last) then Page(FrameNo(phys, Distance(first, 256 * i + j))) else e
  }

  function Distance(first: nat, page: nat): nat {
    if first <= page then page - first else 0
  }

  function MapRow(row: L2Table, i: nat, first: nat, last: nat, phys: nat): (r: L2Table)
    ensures forall j | 0 <= j < 256 :: r[j] == MapCell(row[j], i, j, first, last, phys)
  {
    seq(256, j requires 0 <= j < 256 => MapCell(row[j], i, j, first, last, phys))
  }

  function ClearRow(row: L2Table, i: nat, first: nat, last: nat): (r: L2Table)
    ensures forall j | 0 <= j < 256 :: r[j] == if Clip(i, first) <= j < Clip(i, last) then Hole else row[j]
  {
    seq(256, j requires 0 <= j < 256 => if Clip(i, first) <= j < Clip(i, last) then Hole else row[j])
  }

  /** How slot i looks after pages [first, last) have been mapped from phys on. */
  ghost predicate SlotMapped(h: Heap, h': Heap, root: nat, i: nat, first: nat, last: nat, phys: nat)
    requires root in h.l1 && root in h'.l1 && i < 4096
  {
    if !Covered(i, first, last) then h'.l1[root][i] == h.l1[root][i]
    else if BySection(i, first, last, phys) then
      h'.l1[root][i] == Section(FrameNo(phys, Distance(first, 256 * i)) / 256)
    else
      && h'.l1[root][i].Table?
      && (if h.l1[root][i].Table? then h'.l1[root][i] == h.l1[root][i] else h'.l1[root][i].at !in h.l2)
      && h'.l1[root][i].at in h'.l2
      && h'.l2[h'.l1[root][i].at] == MapRow(OldRow(h, root, i), i, first, last, phys)
  }

  /** Pages [first, last) of root have been mapped to consecutive frames from phys on. */
  ghost predicate Mapped(h: Heap, h': Heap, root: nat, first: nat, last: nat, phys: nat)
    requires root in h.l1
  {
    && root in h'.l1
    && h'.l1 == h.l1[root := h'.l1[root]]
    && (forall i | 0 <= i < 4096 :: SlotMapped(h, h', root, i, first, last, phys))
    && (forall a | a in h.l2 :: a in h'.l2)
    && (forall a | a in h.l2 && h'.l2[a] != h.l2[a] ::
          exists i | 0 <= i < 4096 :: ByPages(i, first, last, phys) && h.l1[root][i] == Table(a))
    && (forall a | a in h'.l2 && a !in h.l2 ::
          exists i | 0 <= i < 4096 :: ByPages(i, first, last, phys) && h'.l1[root][i] == Table(a))
    && Separate(h'.l1[root])
  }

  /** No slot that must hold a second-level table holds a section. */
  ghost predicate Mappable(h: Heap, root: nat, first: nat, last: nat, phys: nat)
    requires root in h.l1
  {
    forall i | 0 <= i < 4096 && ByPages(i, first, last, phys) :: !h.l1[root][i].Section?
  }

  /** The root table stays live. */
  lemma MappedLive(h: Heap, h': Heap, root: nat, first: nat, last: nat, phys: nat)
    requires Live(h, root) && Mapped(h, h', root, first, last, phys)
    ensures Live(h', root)
  {
    forall i | 0 <= i < 4096 && h'.l1[root][i].Table?
      ensures h'.l1[root][i].at in h'.l2
    {
      assert SlotMapped(h, h', root, i, first, last, phys);
    }
  }

  lemma ClipRange(page: nat, first: nat, last: nat)
    ensures page == 256 * (page / 256) + page % 256
    ensures first <= page < last <==> Clip(page / 256, first) <= page % 256 < Clip(page / 256, last)
  {
  }

  /** MAIN: mapping refines the update of a flat map from virtual to physical pages. */
  lemma MappedIsFlatUpdate(h: Heap, h': Heap, root: nat, first: nat, last: nat, phys: nat, page: nat)
    requires Live(h, root) && Mapped(h, h', root, first, last, phys)
    requires first < last <= PAGES && page < PAGES && phys < SPACE
    requires Mappable(h, root, first, last, phys)
    ensures Translate(h', root, page) ==
            if first <= page < last then Some(FrameNo(phys, page - first)) else Translate(h, root, page)
  {
    var i := page / 256;
    assert SlotMapped(h, h', root, i, first, last, phys);
    if BySection(i, first, last, phys) {
      SectionFrame(phys, first, page);
    } else if Covered(i, first, last) {
      ClipRange(page, first, last);
      assert h'.l2[h'.l1[root][i].at][page % 256] == MapCell(OldRow(h, root, i)[page % 256], i, page % 256, first, last, phys);
    }
  }

  /** A section gives each of its pages the frame a page mapping would have given it. */
  lemma SectionFrame(phys: nat, first: nat, page: nat)
    requires SectionFits(phys, first) && phys < SPACE
    requires first <= page / 256 * 256
    ensures FrameNo(phys, Distance(first, 256 * (page / 256))) / 256 * 256 + page % 256 == FrameNo(phys, page - first)
  {
    var x, d := phys / PAGE_SIZE, 256 * (page / 256) - first;
    assert (x + d) % 256 == 0 by {
      assert x + d == (x - first) + 256 * (page / 256);
    }
    assert page - first == d + page % 256;
    var q := (x + d) / PAGES;
    assert x + d == q * PAGES + FrameNo(phys, d);
    assert FrameNo(phys, d) % 256 == 0;
  }

  /** Starting later in the range, from the physical address reached there, changes nothing. */
  lemma SectionShift(phys: nat, phys1: nat, first: nat, mid: nat, q: int)
    requires phys / PAGE_SIZE + (mid - first) == q * PAGES + phys1 / PAGE_SIZE
    requires phys1 % PAGE_SIZE == phys % PAGE_SIZE
    ensures SectionFits(phys1, mid) <==> SectionFits(phys, first)
  {
    assert (phys1 / PAGE_SIZE - mid) == (phys / PAGE_SIZE - first) - q * 4096 * 256;
  }

  lemma FrameShift(phys: nat, phys1: nat, first: nat, mid: nat, k: nat)
    requires first <= mid
    requires phys1 / PAGE_SIZE == FrameNo(phys, mid - first)
    requires phys1 % PAGE_SIZE == phys % PAGE_SIZE
    ensures FrameNo(phys1, k) == FrameNo(phys, mid - first + k)
    ensures SectionFits(phys1, mid) <==> SectionFits(phys, first)
  {
    var x, d := phys / PAGE_SIZE, mid - first;
    var q := (x + d) / PAGES;
    assert x + d == q * PAGES + phys1 / PAGE_SIZE;
    assert x + d + k == q * PAGES + (phys1 / PAGE_SIZE + k);
    SectionShift(phys, phys1, first, mid, q);
  }

  /** A slot is covered by the part of the range before the boundary, or by the part after it. */
  lemma CoverSplit(i: nat, first: nat, mid: nat, last: nat, phys: nat, phys1: nat)
    requires first < mid < last && mid % 256 == 0 && last <= mid + 256
    requires phys1 / PAGE_SIZE == FrameNo(phys, mid - first)
    requires phys1 % PAGE_SIZE == phys % PAGE_SIZE
    ensures i < mid / 256 ==> !Covered(i, mid, last) && (ByPages(i, first, last, phys) <==> ByPages(i, first, mid, phys))
    ensures i >= mid / 256 ==> !Covered(i, first, mid) && (ByPages(i, first, last, phys) <==> ByPages(i, mid, last, phys1))
  {
    FrameShift(phys, phys1, first, mid, 0);
  }

  /** Mapping a range slot by slot is mapping the whole range. */
  lemma MappedCompose(h0: Heap, h1: Heap, h2: Heap, root: nat, first: nat, mid: nat, last: nat, phys: nat, phys1: nat)
    requires Live(h0, root) && Live(h1, root)
    requires first < mid < last <= PAGES
    requires mid % 256 == 0
    requires last <= mid + 256
    requires phys1 / PAGE_SIZE == FrameNo(phys, mid - first)
    requires phys1 % PAGE_SIZE == phys % PAGE_SIZE
    requires Mapped(h0, h1, root, first, mid, phys)
    requires Mapped(h1, h2, root, mid, last, phys1)
    ensures Mapped(h0, h2, root, first, last, phys)
  {
    forall i | 0 <= i < 4096
      ensures SlotMapped(h0, h2, root, i, first, last, phys)
    {
      MappedComposeSlot(h0, h1, h2, root, i, first, mid, last, phys, phys1);
    }
    forall a | a in h2.l2 && a !in h0.l2
      ensures exists i | 0 <= i < 4096 :: ByPages(i, first, last, phys) && h2.l1[root][i] == Table(a)
    {
      MappedComposeFresh(h0, h1, h2, root, a, first, mid, last, phys, phys1);
    }
    forall a | a in h0.l2 && h2.l2[a] != h0.l2[a]
      ensures exists i | 0 <= i < 4096 :: ByPages(i, first, last, phys) && h0.l1[root][i] == Table(a)
    {
      MappedComposeChanged(h0, h1, h2, root, a, first, mid, last, phys, phys1);
    }
  }

  lemma MappedComposeSlot(h0: Heap, h1: Heap, h2: Heap, root: nat, i: nat,
                          first: nat, mid: nat, last: nat, phys: nat, phys1: nat)
    requires Live(h0, root) && Live(h1, root) && i < 4096
    requires first < mid < last <= PAGES
    requires mid % 256 == 0
    requires last <= mid + 256
    requires phys1 / PAGE_SIZE == FrameNo(phys, mid - first)
    requires phys1 % PAGE_SIZE == phys % PAGE_SIZE
    requires Mapped(h0, h1, root, first, mid, phys)
    requires Mapped(h1, h2, root, mid, last, phys1)
    ensures SlotMapped(h0, h2, root, i, first, last, phys)
  {
    assert SlotMapped(h0, h1, root, i, first, mid, phys);
    assert SlotMapped(h1, h2, root, i, mid, last, phys1);
    if i < mid / 256 {
      assert !Covered(i, mid, last);
      assert h2.l1[root][i] == h1.l1[root][i];
    } else if i == mid / 256 {
      assert !Covered(i, first, mid);
      assert OldRow(h1, root, i) == OldRow(h0, root, i);
      SameRowSplit(OldRow(h0, root, i), i, first, mid, last, phys, phys1);
    }
  }

  /** The part of a row from a slot boundary on is mapped the same, seen from there with the advanced base. */
  lemma SameRowSplit(row: L2Table, i: nat, first: nat, mid: nat, last: nat, phys: nat, phys1: nat)
    requires first < mid < last && mid == 256 * i && last <= mid + 256
    requires phys1 / PAGE_SIZE == FrameNo(phys, mid - first)
    requires phys1 % PAGE_SIZE == phys % PAGE_SIZE
    ensures MapRow(row, i, first, last, phys) == MapRow(row, i, mid, last, phys1)
    ensures SectionFits(phys1, mid) <==> SectionFits(phys, first)
    ensures FrameNo(phys1, 0) == FrameNo(phys, mid - first)
  {
    hide FrameNo, SectionFits;
    FrameShift(phys, phys1, first, mid, 0);
    forall j | 0 <= j < 256
      ensures MapCell(row[j], i, j, first, last, phys) == MapCell(row[j], i, j, mid, last, phys1)
    {
      FrameShift(phys, phys1, first, mid, j);
    }
  }

  lemma MappedComposeFresh(h0: Heap, h1: Heap, h2: Heap, root: nat, a: nat,
                           first: nat, mid: nat, last: nat, phys: nat, phys1: nat)
    requires Live(h0, root) && Live(h1, root)
    requires first < mid < last <= PAGES
    requires mid % 256 == 0
    requires last <= mid + 256
    requires phys1 / PAGE_SIZE == FrameNo(phys, mid - first)
    requires phys1 % PAGE_SIZE == phys % PAGE_SIZE
    requires Mapped(h0, h1, root, first, mid, phys)
    requires Mapped(h1, h2, root, mid, last, phys1)
    requires a in h2.l2 && a !in h0.l2
    ensures exists i | 0 <= i < 4096 :: ByPages(i, first, last, phys) && h2.l1[root][i] == Table(a)
  {
    if a in h1.l2 {
      var i :| 0 <= i < 4096 && ByPages(i, first, mid, phys) && h1.l1[root][i] == Table(a);
      CoverSplit(i, first, mid, last, phys, phys1);
      assert SlotMapped(h1, h2, root, i, mid, last, phys1);
    } else {
      var i :| 0 <= i < 4096 && ByPages(i, mid, last, phys1) && h2.l1[root][i] == Table(a);
      CoverSplit(i, first, mid, last, phys, phys1);
    }
  }

  lemma MappedComposeChanged(h0: Heap, h1: Heap, h2: Heap, root: nat, a: nat,
                             first: nat, mid: nat, last: nat, phys: nat, phys1: nat)
    requires Live(h0, root) && Live(h1, root)
    requires first < mid < last <= PAGES
    requires mid % 256 == 0
    requires last <= mid + 256
    requires phys1 / PAGE_SIZE == FrameNo(phys, mid - first)
    requires phys1 % PAGE_SIZE == phys % PAGE_SIZE
    requires Mapped(h0, h1, root, first, mid, phys)
    requires Mapped(h1, h2, root, mid, last, phys1)
    requires a in h0.l2 && h2.l2[a] != h0.l2[a]
    ensures exists i | 0 <= i < 4096 :: ByPages(i, first, last, phys) && h0.l1[root][i] == Table(a)
  {
    if h1.l2[a] != h0.l2[a] {
      var i :| 0 <= i < 4096 && ByPages(i, first, mid, phys) && h0.l1[root][i] == Table(a);
      CoverSplit(i, first, mid, last, phys, phys1);
    } else {
      var i :| 0 <= i < 4096 && ByPages(i, mid, last, phys1) && h1.l1[root][i] == Table(a);
      CoverSplit(i, first, mid, last, phys, phys1);
      assert SlotMapped(h0, h1, root, i, first, mid, phys);
    }
  }

  /** How slot i looks after pages [first, last) have been unmapped. */
  ghost predicate SlotUnmapped(h: Heap, h': Heap, root: nat, i: nat, first: nat, last: nat)
    requires root in h.l1 && root in h'.l1 && i < 4096
  {
    if !Covered(i, first, last) then h'.l1[root][i] == h.l1[root][i]
    else if Whole(i, first, last) then h'.l1[root][i] == Fault
    else if ClearRow(OldRow(h, root, i), i, first, last) == Blank() then
      h'.l1[root][i] == Fault && (h.l1[root][i].Table? ==> h.l1[root][i].at !in h'.l2)
    else
      && h'.l1[root][i] == h.l1[root][i]
      && (h.l1[root][i].Table? ==>
            h.l1[root][i].at in h'.l2 && h'.l2[h.l1[root][i].at] == ClearRow(OldRow(h, root, i), i, first, last))
  }

  predicate PartlyCovered(i: nat, first: nat, last: nat) {
    Covered(i, first, last) && !Whole(i, first, last)
  }

  /** Pages [first, last) of root have been unmapped. */
  ghost predicate Unmapped(h: Heap, h': Heap, root: nat, first: nat, last: nat)
    requires root in h.l1
  {
    && root in h'.l1
    && h'.l1 == h.l1[root := h'.l1[root]]
    && (forall i | 0 <= i < 4096 :: SlotUnmapped(h, h', root, i, first, last))
    && (forall a | a in h'.l2 :: a in h.l2)
    && (forall a | a in h.l2 && (a !in h'.l2 || h'.l2[a] != h.l2[a]) ::
          exists i | 0 <= i < 4096 :: PartlyCovered(i, first, last) && h.l1[root][i] == Table(a))
  }

  /** Every partly covered slot has a second-level table. */
  ghost predicate Unmappable(h: Heap, root: nat, first: nat, last: nat)
    requires root in h.l1
  {
    forall i | 0 <= i < 4096 && PartlyCovered(i, first, last) :: h.l1[root][i].Table?
  }

  lemma UnmappedLive(h: Heap, h': Heap, root: nat, first: nat, last: nat)
    requires Live(h, root) && Unmapped(h, h', root, first, last)
    requires Unmappable(h, root, first, last)
    ensures Live(h', root)
  {
    forall i | 0 <= i < 4096 && h'.l1[root][i].Table?
      ensures h'.l1[root][i].at in h'.l2 && h'.l1[root][i] == h.l1[root][i]
    {
      assert SlotUnmapped(h, h', root, i, first, last);
    }
  }

  /** MAIN: unmapping refines the removal of a range from the flat map. */
  lemma UnmappedIsFlatRemoval(h: Heap, h': Heap, root: nat, first: nat, last: nat, page: nat)
    requires Live(h, root) && Unmapped(h, h', root, first, last)
    requires Unmappable(h, root, first, last)
    requires first < last <= PAGES && page < PAGES
    ensures Translate(h', root, page) == if first <= page < last then None else Translate(h, root, page)
  {
    var i := page / 256;
    assert SlotUnmapped(h, h', root, i, first, last);
    ClipRange(page, first, last);
    if PartlyCovered(i, first, last) {
      assert ClearRow(OldRow(h, root, i), i, first, last)[page % 256]
          == if first <= page < last then Hole else OldRow(h, root, i)[page % 256];
    }
  }

  /** Unmapping a range slot by slot is unmapping the whole range. */
  lemma UnmappedCompose(h0: Heap, h1: Heap, h2: Heap, root: nat, first: nat, mid: nat, last: nat)
    requires Live(h0, root) && Live(h1, root) && Unmappable(h0, root, first, last)
    requires first < mid < last <= PAGES
    requires mid % 256 == 0
    requires last <= mid + 256
    requires Unmapped(h0, h1, root, first, mid)
    requires Unmapped(h1, h2, root, mid, last)
    ensures Unmapped(h0, h2, root, first, last)
  {
    forall i | 0 <= i < 4096
      ensures SlotUnmapped(h0, h2, root, i, first, last)
    {
      UnmappedComposeSlot(h0, h1, h2, root, i, first, mid, last);
    }
    forall a | a in h0.l2 && (a !in h2.l2 || h2.l2[a] != h0.l2[a])
      ensures exists i | 0 <= i < 4096 :: PartlyCovered(i, first, last) && h0.l1[root][i] == Table(a)
    {
      UnmappedComposeChanged(h0, h1, h2, root, a, first, mid, last);
    }
  }

  /** A table found after an unmapping stood there before. */
  lemma UnmappedKeepsSlot(h: Heap, h': Heap, root: nat, i: nat, first: nat, last: nat, a: nat)
    requires root in h.l1 && root in h'.l1 && i < 4096
    requires Unmapped(h, h', root, first, last) && h'.l1[root][i] == Table(a)
    ensures h.l1[root][i] == Table(a) && !Whole(i, first, last)
  {
    hide OldRow, ClearRow;
    assert SlotUnmapped(h, h', root, i, first, last);
  }

  /** A table that an unmapping has changed or freed stood in a slot it covers in part. */
  lemma UnmappedChangedSlot(h: Heap, h': Heap, root: nat, first: nat, last: nat, a: nat) returns (i: nat)
    requires root in h.l1 && Unmapped(h, h', root, first, last) && a in h.l2 && (a !in h'.l2 || h'.l2[a] != h.l2[a])
    ensures i < 4096 && PartlyCovered(i, first, last) && h.l1[root][i] == Table(a) && root in h'.l1
  {
    hide SlotUnmapped, PartlyCovered;
    i :| 0 <= i < 4096 && PartlyCovered(i, first, last) && h.l1[root][i] == Table(a);
  }

  lemma PartlyWider(i: nat, first: nat, last: nat, first': nat, last': nat)
    requires PartlyCovered(i, first, last) && first' <= first && last <= last'
    requires first == first' || first % 256 == 0
    requires last == last' || last % 256 == 0
    ensures PartlyCovered(i, first', last')
  {
  }

  lemma UnmappedComposeChanged(h0: Heap, h1: Heap, h2: Heap, root: nat, a: nat, first: nat, mid: nat, last: nat)
    requires Live(h0, root)
    requires first < mid < last <= PAGES
    requires mid % 256 == 0
    requires last <= mid + 256
    requires Unmapped(h0, h1, root, first, mid)
    requires Unmapped(h1, h2, root, mid, last)
    requires a in h0.l2 && (a !in h2.l2 || h2.l2[a] != h0.l2[a])
    ensures exists i | 0 <= i < 4096 :: PartlyCovered(i, first, last) && h0.l1[root][i] == Table(a)
  {
    hide SlotUnmapped, PartlyCovered, Separate;
    if a !in h1.l2 || h1.l2[a] != h0.l2[a] {
      var i := UnmappedChangedSlot(h0, h1, root, first, mid, a);
      PartlyWider(i, first, mid, first, last);
    } else {
      var i := UnmappedChangedSlot(h1, h2, root, mid, last, a);
      UnmappedKeepsSlot(h0, h1, root, i, first, mid, a);
      PartlyWider(i, mid, last, first, last);
    }
  }

  lemma UnmappedComposeSlot(h0: Heap, h1: Heap, h2: Heap, root: nat, i: nat, first: nat, mid: nat, last: nat)
    requires Live(h0, root) && Live(h1, root) && i < 4096 && Unmappable(h0, root, first, last)
    requires first < mid < last <= PAGES
    requires mid % 256 == 0
    requires last <= mid + 256
    requires Unmapped(h0, h1, root, first, mid)
    requires Unmapped(h1, h2, root, mid, last)
    ensures SlotUnmapped(h0, h2, root, i, first, last)
  {
    assert SlotUnmapped(h0, h1, root, i, first, mid);
    assert SlotUnmapped(h1, h2, root, i, mid, last);
    if i < mid / 256 {
      assert !Covered(i, mid, last);
      assert ClearRow(OldRow(h0, root, i), i, first, last) == ClearRow(OldRow(h0, root, i), i, first, mid);
    } else {
      assert !Covered(i, first, mid);
      assert OldRow(h1, root, i) == OldRow(h0, root, i);
      assert ClearRow(OldRow(h0, root, i), i, first, last) == ClearRow(OldRow(h0, root, i), i, mid, last);
    }
  }

  /** No page of the range is mapped. */
  ghost predicate RangeFree(h: Heap, root: nat, first: nat, last: nat)
    requires root in h.l1 && last <= PAGES
  {
    forall page | first <= page < last :: Translate(h, root, page) == None
  }

  /** Every second-level table in a slot of the range maps at least one page. */
  ghost predicate NonEmptyTables(h: Heap, root: nat, first: nat, last: nat)
    requires root in h.l1
  {
    forall i | 0 <= i < 4096 && Covered(i, first, last) && h.l1[root][i].Table? && h.l1[root][i].at in h.l2 ::
      h.l2[h.l1[root][i].at] != Blank()
  }

  /** What a free range says about one slot it covers. */
  lemma FreeSlot(h: Heap, root: nat, i: nat, first: nat, last: nat)
    requires Live(h, root) && NonEmptyTables(h, root, first, last) && last <= PAGES && RangeFree(h, root, first, last)
    requires i < 4096 && Covered(i, first, last)
    ensures !h.l1[root][i].Section?
    ensures Whole(i, first, last) ==> h.l1[root][i] == Fault
    ensures forall j | Clip(i, first) <= j < Clip(i, last) :: OldRow(h, root, i)[j] == Hole
  {
    ClipRange(256 * i + Clip(i, first), first, last);
    assert Translate(h, root, 256 * i + Clip(i, first)) == None;
    forall j | Clip(i, first) <= j < Clip(i, last)
      ensures OldRow(h, root, i)[j] == Hole
    {
      ClipRange(256 * i + j, first, last);
      assert Translate(h, root, 256 * i + j) == None;
    }
    if Whole(i, first, last) {
      assert OldRow(h, root, i) == Blank();
    }
  }

  lemma RestoredSlot(h: Heap, h1: Heap, h2: Heap, root: nat, i: nat, first: nat, last: nat, phys: nat)
    requires Live(h, root) && NonEmptyTables(h, root, first, last) && first < last <= PAGES && RangeFree(h, root, first, last)
    requires Mapped(h, h1, root, first, last, phys) && Unmapped(h1, h2, root, first, last)
    requires i < 4096
    ensures h2.l1[root][i] == h.l1[root][i]
    ensures PartlyCovered(i, first, last) && h.l1[root][i].Table? ==>
              h.l1[root][i].at in h2.l2 && h2.l2[h.l1[root][i].at] == h.l2[h.l1[root][i].at]
    ensures PartlyCovered(i, first, last) && !h.l1[root][i].Table? ==>
              h1.l1[root][i].Table? && h1.l1[root][i].at !in h2.l2
  {
    assert SlotMapped(h, h1, root, i, first, last, phys);
    assert SlotUnmapped(h1, h2, root, i, first, last);
    if Covered(i, first, last) {
      FreeSlot(h, root, i, first, last);
      if PartlyCovered(i, first, last) {
        var row := OldRow(h, root, i);
        hide Separate;
        assert OldRow(h1, root, i) == MapRow(row, i, first, last, phys);
        assert ClearRow(MapRow(row, i, first, last, phys), i, first, last) == row;
      }
    }
  }

  /**
   MAIN: releasing what was just created over a free range restores every first-level table and
   every second-level table there was.  The set of live second-level tables is restored exactly
   when no wholly covered slot got one, that is when the range holds no whole megabyte or
   virtual and physical megabytes line up.
   */
  lemma ReleaseUndoesCreate(h: Heap, h1: Heap, h2: Heap, root: nat, first: nat, last: nat, phys: nat)
    requires Live(h, root) && NonEmptyTables(h, root, first, last) && first < last <= PAGES && RangeFree(h, root, first, last)
    requires Mapped(h, h1, root, first, last, phys) && Unmapped(h1, h2, root, first, last)
    ensures h2.l1 == h.l1
    ensures forall a | a in h.l2 :: a in h2.l2 && h2.l2[a] == h.l2[a]
    ensures h2 == h <==> SectionFits(phys, first) || forall i | 0 <= i < 4096 :: !Whole(i, first, last)
  {
    forall i | 0 <= i < 4096
      ensures h2.l1[root][i] == h.l1[root][i]
    {
      RestoredSlot(h, h1, h2, root, i, first, last, phys);
    }
    assert h2.l1[root] == h.l1[root];
    forall a | a in h.l2
      ensures a in h2.l2 && h2.l2[a] == h.l2[a]
    {
      RestoredTable(h, h1, h2, root, a, first, last, phys);
    }
    if h2 == h && !SectionFits(phys, first) {
      forall i | 0 <= i < 4096
        ensures !Whole(i, first, last)
      {
        if Whole(i, first, last) {
          LeakedTable(h, h1, h2, root, i, first, last, phys);
        }
      }
    }
    if SectionFits(phys, first) || forall i | 0 <= i < 4096 :: !Whole(i, first, last) {
      forall a | a in h2.l2 && a !in h.l2
        ensures false
      {
        ExtraTable(h, h1, h2, root, a, first, last, phys);
      }
      assert h2.l2 == h.l2;
    }
  }

  lemma ExtraTable(h: Heap, h1: Heap, h2: Heap, root: nat, a: nat, first: nat, last: nat, phys: nat)
    requires Live(h, root) && NonEmptyTables(h, root, first, last) && first < last <= PAGES && RangeFree(h, root, first, last)
    requires Mapped(h, h1, root, first, last, phys) && Unmapped(h1, h2, root, first, last)
    requires a in h2.l2 && a !in h.l2
    ensures !SectionFits(phys, first) && exists i | 0 <= i < 4096 :: Whole(i, first, last)
  {
    var i :| 0 <= i < 4096 && ByPages(i, first, last, phys) && h1.l1[root][i] == Table(a);
    RestoredSlot(h, h1, h2, root, i, first, last, phys);
    assert SlotMapped(h, h1, root, i, first, last, phys);
    assert Whole(i, first, last);
  }

  lemma RestoredTable(h: Heap, h1: Heap, h2: Heap, root: nat, a: nat, first: nat, last: nat, phys: nat)
    requires Live(h, root) && NonEmptyTables(h, root, first, last) && first < last <= PAGES && RangeFree(h, root, first, last)
    requires Mapped(h, h1, root, first, last, phys) && Unmapped(h1, h2, root, first, last)
    requires a in h.l2
    ensures a in h2.l2 && h2.l2[a] == h.l2[a]
  {
    if a !in h2.l2 || h2.l2[a] != h.l2[a] {
      var i :| 0 <= i < 4096 && Covered(i, first, last) && (h.l1[root][i] == Table(a) || h1.l1[root][i] == Table(a));
      assert SlotMapped(h, h1, root, i, first, last, phys);
      FreeSlot(h, root, i, first, last);
      RestoredSlot(h, h1, h2, root, i, first, last, phys);
    }
  }

  /** A second-level table created for a whole slot outlives the release. */
  lemma LeakedTable(h: Heap, h1: Heap, h2: Heap, root: nat, i: nat, first: nat, last: nat, phys: nat)
    requires Live(h, root) && NonEmptyTables(h, root, first, last) && first < last <= PAGES && RangeFree(h, root, first, last)
    requires Mapped(h, h1, root, first, last, phys) && Unmapped(h1, h2, root, first, last)
    requires i < 4096 && Whole(i, first, last) && !SectionFits(phys, first)
    ensures h1.l1[root][i].Table? && h1.l1[root][i].at !in h.l2 && h1.l1[root][i].at in h2.l2
  {
    assert SlotMapped(h, h1, root, i, first, last, phys);
    FreeSlot(h, root, i, first, last);
  }

  /** Slot i has got pages [first, last) of a mapping through a second-level table, and nothing else changed. */
  ghost predicate SlotPaged(h: Heap, h': Heap, root: nat, i: nat, first: nat, last: nat, phys: nat)
    requires root in h.l1 && i < 4096
  {
    && root in h'.l1
    && h'.l1[root][i].Table?
    && (if h.l1[root][i].Table? then h'.l1[root][i] == h.l1[root][i] else h'.l1[root][i].at !in h.l2)
    && h'.l1 == h.l1[root := h.l1[root][i := h'.l1[root][i]]]
    && h'.l2 == h.l2[h'.l1[root][i].at := MapRow(OldRow(h, root, i), i, first, last, phys)]
  }

  lemma SlotPagedIsMapped(h: Heap, h': Heap, root: nat, i: nat, first: nat, last: nat, phys: nat)
    requires Live(h, root) && i < 4096 && SlotPaged(h, h', root, i, first, last, phys)
    requires 256 * i <= first < last <= 256 * i + 256
    requires !BySection(i, first, last, phys)
    ensures Mapped(h, h', root, first, last, phys)
  {
    assert ByPages(i, first, last, phys);
    forall k | 0 <= k < 4096
      ensures SlotMapped(h, h', root, k, first, last, phys)
    {
      assert k != i ==> !Covered(k, first, last);
    }
  }

  lemma MapRowStep(row: L2Table, i: nat, first: nat, next: nat, phys: nat)
    requires 256 * i <= first <= next < 256 * i + 256
    ensures MapRow(row, i, first, next, phys)[next - 256 * i := Page(FrameNo(phys, next - first))]
         == MapRow(row, i, first, next + 1, phys)
  {
  }

  /** Slot i has got a section, and nothing else changed. */
  lemma SlotSectionIsMapped(h: Heap, h': Heap, root: nat, i: nat, phys: nat)
    requires Live(h, root) && i < 4096 && phys % SECT_SIZE == 0 && phys < SPACE
    requires h' == Heap(h.l1[root := h.l1[root][i := Section(phys / SECT_SIZE)]], h.l2)
    ensures Mapped(h, h', root, 256 * i, 256 * i + 256, phys)
  {
    assert SectionFits(phys, 256 * i) by {
      assert phys / PAGE_SIZE % 256 == 0;
    }
    var first, last := 256 * i, 256 * i + 256;
    forall k | 0 <= k < 4096
      ensures SlotMapped(h, h', root, k, first, last, phys)
    {
      assert k != i ==> !Covered(k, first, last);
    }
  }

  /** A mapping loop that starts at page first has reached page cur. */
  ghost predicate MappedSoFar(h0: Heap, h: Heap, root: nat, first: nat, cur: nat, phys: nat)
    requires root in h0.l1
  {
    if cur <= first then h == h0 else Mapped(h0, h, root, first, cur, phys)
  }

  lemma MappedAll(h0: Heap, h: Heap, root: nat, first: nat, cur: nat, phys: nat)
    requires root in h0.l1 && first < cur
    ensures MappedSoFar(h0, h, root, first, cur, phys) <==> Mapped(h0, h, root, first, cur, phys)
  {
  }

  lemma MappedNothing(h: Heap, root: nat, first: nat, phys: nat)
    requires root in h.l1
    ensures MappedSoFar(h, h, root, first, first, phys)
  {
  }

  lemma MappedStep(h0: Heap, h1: Heap, h2: Heap, root: nat, first: nat, mid: nat, last: nat, phys: nat, phys1: nat)
    requires Live(h0, root) && Live(h1, root) && phys < SPACE
    requires first <= mid < last <= PAGES
    requires mid == first || mid % 256 == 0
    requires last <= 256 * (mid / 256) + 256
    requires phys1 == (phys + PAGE_SIZE * (mid - first)) % SPACE
    requires MappedSoFar(h0, h1, root, first, mid, phys)
    requires Mapped(h1, h2, root, mid, last, phys1)
    ensures Mapped(h0, h2, root, first, last, phys)
    ensures Live(h2, root)
  {
    MappedLive(h1, h2, root, mid, last, phys1);
    if first < mid {
      PhysAdvance(phys, phys1, mid - first);
      MappedCompose(h0, h1, h2, root, first, mid, last, phys, phys1);
    }
  }

  lemma PhysAdvance(phys: nat, phys1: nat, k: nat)
    requires phys1 == (phys + PAGE_SIZE * k) % SPACE
    ensures phys1 / PAGE_SIZE == FrameNo(phys, k)
    ensures phys1 % PAGE_SIZE == phys % PAGE_SIZE
  {
    var q := (phys + PAGE_SIZE * k) / SPACE;
    assert phys + PAGE_SIZE * k == q * SPACE + phys1;
    assert phys / PAGE_SIZE + k == q * PAGES + phys1 / PAGE_SIZE;
  }

  lemma MappedSectionStep(h0: Heap, h1: Heap, h2: Heap, root: nat, first: nat, k: nat, phys: nat, phys1: nat)
    requires Live(h0, root) && Live(h1, root) && phys < SPACE
    requires first % 256 == 0 && first <= 256 * k && k < 4096
    requires phys1 % SECT_SIZE == 0 && phys1 == (phys + PAGE_SIZE * (256 * k - first)) % SPACE
    requires MappedSoFar(h0, h1, root, first, 256 * k, phys)
    requires h2 == Heap(h1.l1[root := h1.l1[root][k := Section(phys1 / SECT_SIZE)]], h1.l2)
    ensures Mapped(h0, h2, root, first, 256 * k + 256, phys)
    ensures Live(h2, root)
  {
    SlotSectionIsMapped(h1, h2, root, k, phys1);
    MappedStep(h0, h1, h2, root, first, 256 * k, 256 * k + 256, phys, phys1);
  }

  /** The slot a mapping loop has reached is still as it was, so it can take its part of the range. */
  lemma NextSlotMappable(h0: Heap, h1: Heap, root: nat, first: nat, mid: nat, next: nat, last: nat, phys: nat, phys1: nat)
    requires Live(h0, root) && phys < SPACE
    requires first <= mid < next <= last <= PAGES
    requires mid == first || mid % 256 == 0
    requires next == last || next == 256 * (mid / 256) + 256
    requires next <= 256 * (mid / 256) + 256
    requires phys1 == (phys + PAGE_SIZE * (mid - first)) % SPACE
    requires Mappable(h0, root, first, last, phys)
    requires MappedSoFar(h0, h1, root, first, mid, phys)
    ensures Mappable(h1, root, mid, next, phys1)
  {
    PhysAdvance(phys, phys1, mid - first);
    FrameShift(phys, phys1, first, mid, 0);
    var i := mid / 256;
    if first < mid {
      assert SlotMapped(h0, h1, root, i, first, mid, phys);
    }
    assert ByPages(i, mid, next, phys1) ==> ByPages(i, first, last, phys);
  }

  /** Slot i has lost pages [first, last) of its second-level table, and the table itself if that emptied it. */
  ghost predicate SlotCleared(h: Heap, h': Heap, root: nat, i: nat, first: nat, last: nat)
    requires root in h.l1 && i < 4096 && h.l1[root][i].Table?
  {
    if ClearRow(OldRow(h, root, i), i, first, last) == Blank() then
      && h'.l1 == h.l1[root := h.l1[root][i := Fault]]
      && h'.l2 == h.l2 - {h.l1[root][i].at}
    else
      && h'.l1 == h.l1
      && h'.l2 == h.l2[h.l1[root][i].at := ClearRow(OldRow(h, root, i), i, first, last)]
  }

  lemma SlotClearedIsUnmapped(h: Heap, h': Heap, root: nat, i: nat, first: nat, last: nat)
    requires Live(h, root) && i < 4096 && h.l1[root][i].Table? && SlotCleared(h, h', root, i, first, last)
    requires 256 * i <= first < last <= 256 * i + 256 && last - first < 256
    ensures Unmapped(h, h', root, first, last)
  {
    assert PartlyCovered(i, first, last);
    forall k | 0 <= k < 4096
      ensures SlotUnmapped(h, h', root, k, first, last)
    {
      assert k != i ==> !Covered(k, first, last);
    }
  }

  /** A whole slot is emptied without looking at what it held. */
  lemma SlotFaultIsUnmapped(h: Heap, h': Heap, root: nat, i: nat)
    requires Live(h, root) && i < 4096 && h' == Heap(h.l1[root := h.l1[root][i := Fault]], h.l2)
    ensures Unmapped(h, h', root, 256 * i, 256 * i + 256)
  {
    var first, last := 256 * i, 256 * i + 256;
    forall k | 0 <= k < 4096
      ensures SlotUnmapped(h, h', root, k, first, last)
    {
      assert k != i ==> !Covered(k, first, last);
    }
  }

  lemma ClearRowStep(row: L2Table, i: nat, first: nat, next: nat)
    requires 256 * i <= first <= next < 256 * i + 256
    ensures ClearRow(row, i, first, next)[next - 256 * i := Hole] == ClearRow(row, i, first, next + 1)
  {
  }

  /** An unmapping loop that starts at page first has reached page cur. */
  ghost predicate UnmappedSoFar(h0: Heap, h: Heap, root: nat, first: nat, cur: nat)
    requires root in h0.l1
  {
    if cur <= first then h == h0 else Unmapped(h0, h, root, first, cur)
  }

  lemma UnmappedStep(h0: Heap, h1: Heap, h2: Heap, root: nat, first: nat, mid: nat, last: nat, end: nat)
    requires Live(h0, root) && Live(h1, root) && Unmappable(h0, root, first, end) && Unmappable(h1, root, mid, last)
    requires first <= mid < last <= end <= PAGES
    requires last == end || last % 256 == 0
    requires mid == first || mid % 256 == 0
    requires last <= 256 * (mid / 256) + 256
    requires UnmappedSoFar(h0, h1, root, first, mid)
    requires Unmapped(h1, h2, root, mid, last)
    ensures Unmapped(h0, h2, root, first, last)
    ensures Live(h2, root)
  {
    UnmappedLive(h1, h2, root, mid, last);
    if first < mid {
      assert Unmappable(h0, root, first, last) by {
        forall i | 0 <= i < 4096 && PartlyCovered(i, first, last)
          ensures h0.l1[root][i].Table?
        {
          assert PartlyCovered(i, first, end);
        }
      }
      UnmappedCompose(h0, h1, h2, root, first, mid, last);
    }
  }

  /** The slot an unmapping loop has reached is still as it was. */
  lemma NextSlotUnmappable(h0: Heap, h1: Heap, root: nat, first: nat, mid: nat, next: nat, last: nat)
    requires Live(h0, root)
    requires first <= mid < next <= last <= PAGES
    requires mid == first || mid % 256 == 0
    requires next == last || next == 256 * (mid / 256) + 256
    requires next <= 256 * (mid / 256) + 256
    requires Unmappable(h0, root, first, last)
    requires UnmappedSoFar(h0, h1, root, first, mid)
    ensures Unmappable(h1, root, mid, next)
  {
    var i := mid / 256;
    if first < mid {
      assert SlotUnmapped(h0, h1, root, i, first, mid);
    }
    assert PartlyCovered(i, mid, next) ==> PartlyCovered(i, first, last);
  }

  /** A mapping within one slot, spelled out. */
  lemma MappedIsSlotPaged(h: Heap, h': Heap, root: nat, i: nat, first: nat, last: nat, phys: nat)
    requires Live(h, root) && i < 4096 && Mapped(h, h', root, first, last, phys)
    requires 256 * i <= first < last <= 256 * i + 256
    requires !BySection(i, first, last, phys)
    ensures SlotPaged(h, h', root, i, first, last, phys)
  {
    forall k | 0 <= k < 4096
      ensures SlotMapped(h, h', root, k, first, last, phys)
      ensures k != i ==> !Covered(k, first, last) && h'.l1[root][k] == h.l1[root][k]
    {
    }
    assert h'.l1[root] == h.l1[root][i := h'.l1[root][i]];
    assert SlotMapped(h, h', root, i, first, last, phys);
    assert h'.l2 == h.l2[h'.l1[root][i].at := MapRow(OldRow(h, root, i), i, first, last, phys)];
  }

  /** Mapping one page, spelled out. */
  lemma MappedPage(h: Heap, h': Heap, root: nat, page: nat, frame: nat)
    requires Live(h, root) && page < PAGES && frame < PAGES && Mapped(h, h', root, page, page + 1, frame * PAGE_SIZE)
    ensures var i := page / 256;
      && h'.l1[root][i].Table?
      && (if h.l1[root][i].Table? then h'.l1[root][i] == h.l1[root][i] else h'.l1[root][i].at !in h.l2)
      && h'.l1 == h.l1[root := h.l1[root][i := h'.l1[root][i]]]
      && h'.l2 == h.l2[h'.l1[root][i].at := OldRow(h, root, i)[page % 256 := Page(frame)]]
  {
    var i, phys := page / 256, frame * PAGE_SIZE;
    MappedIsSlotPaged(h, h', root, i, page, page + 1, phys);
    assert MapRow(OldRow(h, root, i), i, page, page + 1, phys) == OldRow(h, root, i)[page % 256 := Page(frame)];
  }

  /** An unmapping within one slot, spelled out. */
  lemma UnmappedIsSlotCleared(h: Heap, h': Heap, root: nat, i: nat, first: nat, last: nat)
    requires Live(h, root) && i < 4096 && h.l1[root][i].Table? && Unmapped(h, h', root, first, last)
    requires 256 * i <= first < last <= 256 * i + 256 && last - first < 256
    ensures SlotCleared(h, h', root, i, first, last)
  {
    forall k | 0 <= k < 4096
      ensures SlotUnmapped(h, h', root, k, first, last)
      ensures k != i ==> !Covered(k, first, last) && h'.l1[root][k] == h.l1[root][k]
    {
    }
    assert SlotUnmapped(h, h', root, i, first, last);
    assert h'.l1[root] == h.l1[root][i := h'.l1[root][i]];
    var at, row := h.l1[root][i].at, ClearRow(OldRow(h, root, i), i, first, last);
    if row == Blank() {
      assert h'.l2 == h.l2 - {at};
    } else {
      assert h'.l1[root] == h.l1[root];
      assert h'.l2 == h.l2[at := row];
    }
  }
}
