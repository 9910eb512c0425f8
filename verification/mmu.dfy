/**
 The page-table code: it walks tables in the kernel heap and changes them in place.
 Addresses are 32-bit byte addresses; an end address of 0 stands for the top of the space.
 */
module MmuCode {
  import opened Wrappers
  import opened Tables
  import opened Space

  /** The address one past a range, as a number that does not wrap. */
  function Limit(end: nat): nat {
    if end == 0 then SPACE else end
  }

  /** End of the part of [addr, end) that lies in the same megabyte as addr. */
  function L1SectAddrEnd(addr: nat, end: nat): nat {
    if (addr / SECT_SIZE + 1) * SECT_SIZE < Limit(end) then (addr / SECT_SIZE + 1) * SECT_SIZE else end
  }

  function AlignUp(x: nat): nat {
    (x + PAGE_SIZE - 1) / PAGE_SIZE * PAGE_SIZE
  }

  /** The allocator can always find an address outside a finite set of live ones. */
  lemma FreshAddress(used: set<nat>)
    ensures exists a: nat :: a !in used
  {
    var bound := Above(used);
    assert bound !in used;
  }

  lemma Above(s: set<nat>) returns (b: nat)
    ensures forall x | x in s :: x < b
  {
    if s == {} {
      b := 0;
    } else {
      var x :| x in s;
      var c := Above(s - {x});
      assert s == (s - {x}) + {x};
      b := if c > x then c else x + 1;
    }
  }

  class Mmu {
    const lay: Layout
    const sys: nat
    var l1: map<nat, L1Table>
    var l2: map<nat, L2Table>

    function V(): Heap
      reads this
    {
      Heap(l1, l2)
    }

    /** The kernel boots with a system table, whose second-level tables are in h. */
    constructor (lay: Layout, sys: nat, h: Heap)
      ensures this.lay == lay && this.sys == sys && V() == h
    {
      this.lay, this.sys, this.l1, this.l2 := lay, sys, h.l1, h.l2;
    }

    /** memalign followed by memset, for a second-level table. */
    method NewL2() returns (at: nat)
      modifies this
      ensures at !in old(l2) && l2 == old(l2)[at := Blank()] && l1 == old(l1)
    {
      FreshAddress(l2.Keys);
      at :| at !in l2.Keys;
      l2 := l2[at := Blank()];
    }

    method FreeL2(at: nat)
      requires at in l2
      modifies this
      ensures l2 == old(l2) - {at} && l1 == old(l1)
    {
      l2 := l2 - {at};
    }

    /** Maps the pages of [addr, end), all in slot i, starting from frame pfn. */
    method AllocInitPte(root: nat, i: nat, addr: nat, end: nat, pfn: nat)
      requires Live(V(), root) && i < 4096 && !l1[root][i].Section?
      requires addr % PAGE_SIZE == 0 && end % PAGE_SIZE == 0
      requires i * SECT_SIZE <= addr < Limit(end) <= (i + 1) * SECT_SIZE && end < SPACE
      requires pfn < PAGES
      modifies this
      ensures SlotPaged(old(V()), V(), root, i, addr / PAGE_SIZE, Limit(end) / PAGE_SIZE, pfn * PAGE_SIZE)
    {
      hide Separate, Translate;
      ghost var row, first := OldRow(V(), root, i), addr / PAGE_SIZE;
      if l1[root][i] == Fault {
        var at' := NewL2();
        l1 := l1[root := l1[root][i := Table(at')]];
      }
      var at := l1[root][i].at;
      var j, a, f := addr / PAGE_SIZE % 256, addr, pfn;
      ghost var l2', cur, last := l2, first, Limit(end) / PAGE_SIZE;
      assert l1[root] == old(l1)[root][i := Table(at)];
      assert MapRow(row, i, first, first, pfn * PAGE_SIZE) == row;
      while true
        invariant at in l2 && l1 == old(l1)[root := old(l1)[root][i := Table(at)]]
        invariant first <= cur < last <= 256 * i + 256 && a == PAGE_SIZE * cur
        invariant j == cur - 256 * i && f == pfn + cur - first
        invariant l2 == l2'[at := MapRow(row, i, first, cur, pfn * PAGE_SIZE)]
        decreases last - cur
      {
        MapRowStep(row, i, first, cur, pfn * PAGE_SIZE);
        NextPage(a, end, cur, last);
        l2 := l2[at := l2[at][j := Page(f % PAGES)]];
        f, cur := f + 1, cur + 1;
        j, a := j + 1, (a + PAGE_SIZE) % SPACE;
        if a == end { break; }
      }
    }

    /** The loop over whole megabytes: one section for each. */
    method AllocSections(root: nat, i: nat, addr: nat, end: nat, phys: nat)
      requires Live(V(), root)
      requires addr % SECT_SIZE == end % SECT_SIZE == phys % SECT_SIZE == 0 && end < SPACE && phys < SPACE
      requires i == addr / SECT_SIZE && addr < Limit(end)
      modifies this
      ensures Mapped(old(V()), V(), root, addr / PAGE_SIZE, Limit(end) / PAGE_SIZE, phys)
    {
      hide Translate, Mapped, MappedSoFar, Separate, BaseAt;
      var k, a, p := i, addr, phys;
      ghost var h0, stop := V(), Limit(end) / SECT_SIZE;
      SectionRange(addr, end);
      MappedNothing(h0, root, 256 * i, phys);
      FirstBase(phys);
      while true
        invariant i <= k < stop <= 4096 && a == SECT_SIZE * k
        invariant p % SECT_SIZE == 0 && p == BaseAt(phys, k - i)
        invariant Live(V(), root) && MappedSoFar(h0, V(), root, 256 * i, 256 * k, phys)
        decreases stop - k
      {
        ghost var h1 := V();
        l1 := l1[root := l1[root][k := Section(p / SECT_SIZE)]];
        SectionStored(h0, h1, V(), root, i, k, phys, p);
        NextMegabyte(a, end, k, stop);
        p := (p + SECT_SIZE) % SPACE;
        k, a := k + 1, (a + SECT_SIZE) % SPACE;
        if a == end { break; }
      }
      MappedAll(h0, V(), root, 256 * i, 256 * k, phys);
    }

    /**
     Maps [addr, end) by sections where virtual and physical megabytes line up, and through a
     second-level table otherwise.
     */
    method AllocInitSection(root: nat, i: nat, addr: nat, end: nat, phys: nat)
      requires Live(V(), root)
      requires addr % PAGE_SIZE == 0 && end % PAGE_SIZE == 0 && end < SPACE && phys < SPACE
      requires i == addr / SECT_SIZE && addr < Limit(end) <= (i + 1) * SECT_SIZE
      requires Mappable(V(), root, addr / PAGE_SIZE, Limit(end) / PAGE_SIZE, phys)
      modifies this
      ensures Mapped(old(V()), V(), root, addr / PAGE_SIZE, Limit(end) / PAGE_SIZE, phys)
    {
      ghost var first, last := addr / PAGE_SIZE, Limit(end) / PAGE_SIZE;
      SectionTest(addr, end, phys);
      if addr % SECT_SIZE == 0 && end % SECT_SIZE == 0 && phys % SECT_SIZE == 0 {
        AllocSections(root, i, addr, end, phys);
      } else {
        assert ByPages(i, first, last, phys);
        AllocInitPte(root, i, addr, end, phys / PAGE_SIZE);
        assert MapRow(OldRow(old(V()), root, i), i, first, last, phys / PAGE_SIZE * PAGE_SIZE)
            == MapRow(OldRow(old(V()), root, i), i, first, last, phys);
        SlotPagedIsMapped(old(V()), V(), root, i, first, last, phys);
      }
    }

    /**
     MAIN: whatever mix of sections and second-level tables the loop chooses, the pages of the
     rounded range end up mapped to consecutive frames from physBase on.  The range may end at
     the top of the address space, where the end address wraps to 0.
     */
    method CreateMapping(root: nat, virtBase: nat, physBase: nat, size: nat)
      requires Live(V(), root)
      requires 0 < size < SPACE && virtBase + size <= SPACE && physBase < SPACE
      requires Mappable(V(), root, virtBase / PAGE_SIZE, LastPage(virtBase, size), physBase)
      modifies this
      ensures Mapped(old(V()), V(), root, virtBase / PAGE_SIZE, LastPage(virtBase, size), physBase)
      ensures Live(V(), root)
    {
      var addr := virtBase / PAGE_SIZE * PAGE_SIZE;
      var length := AlignUp(size + virtBase % PAGE_SIZE) % SPACE;
      var i := addr / SECT_SIZE;
      var end := (addr + length) % SPACE;
      var phys := physBase;
      ghost var h0, first, last := V(), virtBase / PAGE_SIZE, LastPage(virtBase, size);
      ghost var cur := first;
      RoundedRange(virtBase, size, addr, end);
      while true
        invariant first <= cur < last && addr == PAGE_SIZE * cur && i == cur / 256
        invariant cur == first || cur % 256 == 0
        invariant phys == (physBase + PAGE_SIZE * (cur - first)) % SPACE
        invariant Live(V(), root) && MappedSoFar(h0, V(), root, first, cur, physBase)
        decreases last - cur
      {
        var next := L1SectAddrEnd(addr, end);
        ghost var h1, stop := V(), Limit(next) / PAGE_SIZE;
        NextBoundary(addr, end, next, cur, last);
        NextSlotMappable(h0, h1, root, first, cur, stop, last, physBase, phys);
        AllocInitSection(root, i, addr, next, phys);
        MappedStep(h0, h1, V(), root, first, cur, stop, physBase, phys);
        AdvanceTwice(physBase, cur - first, stop - cur);
        phys := (phys + (Limit(next) - addr)) % SPACE;
        i, addr, cur := i + 1, next, stop;
        if addr == end { break; }
      }
    }

    /** Clears the entries of [addr, end) in slot i; the table goes when nothing is left in it. */
    method FreeL2Mapping(root: nat, i: nat, addr: nat, end: nat)
      requires Live(V(), root) && i < 4096 && l1[root][i].Table?
      requires addr % PAGE_SIZE == 0 && end % PAGE_SIZE == 0 && end < SPACE
      requires i * SECT_SIZE <= addr < Limit(end) <= (i + 1) * SECT_SIZE
      modifies this
      ensures SlotCleared(old(V()), V(), root, i, addr / PAGE_SIZE, Limit(end) / PAGE_SIZE)
    {
      var at := l1[root][i].at;
      ghost var row, first, last := l2[at], addr / PAGE_SIZE, Limit(end) / PAGE_SIZE;
      ghost var cur := first;
      var j, a := addr / PAGE_SIZE % 256, addr;
      assert ClearRow(row, i, first, first) == row;
      while true
        invariant l1 == old(l1) && at in l2
        invariant first <= cur < last <= 256 * i + 256 && a == PAGE_SIZE * cur && j == cur - 256 * i
        invariant l2 == old(l2)[at := ClearRow(row, i, first, cur)]
        decreases last - cur
      {
        ClearRowStep(row, i, first, cur);
        NextPage(a, end, cur, last);
        l2 := l2[at := l2[at][j := Hole]];
        cur := cur + 1;
        j, a := j + 1, (a + PAGE_SIZE) % SPACE;
        if a == end { break; }
      }
      var k, found := 0, false;
      while !found && k < 256
        invariant 0 <= k <= 256
        invariant found <==> exists n | 0 <= n < k :: l2[at][n] != Hole
      {
        found := l2[at][k] != Hole;
        k := k + 1;
      }
      if !found {
        assert l2[at] == Blank();
        FreeL2(at);
        l1 := l1[root := l1[root][i := Fault]];
      }
    }

    method FreeL1Mapping(root: nat, i: nat, addr: nat, end: nat)
      requires Live(V(), root)
      requires addr % PAGE_SIZE == 0 && end % PAGE_SIZE == 0 && end < SPACE
      requires i == addr / SECT_SIZE && addr < Limit(end) <= (i + 1) * SECT_SIZE
      requires Unmappable(V(), root, addr / PAGE_SIZE, Limit(end) / PAGE_SIZE)
      modifies this
      ensures Unmapped(old(V()), V(), root, addr / PAGE_SIZE, Limit(end) / PAGE_SIZE)
    {
      ghost var first, last := addr / PAGE_SIZE, Limit(end) / PAGE_SIZE;
      SectionTest(addr, end, 0);
      if addr % SECT_SIZE == 0 && end % SECT_SIZE == 0 {
        FreeSections(root, i, addr, end);
      } else {
        assert PartlyCovered(i, first, last);
        FreeL2Mapping(root, i, addr, end);
        SlotClearedIsUnmapped(old(V()), V(), root, i, first, last);
      }
    }

    /** The loop over whole megabytes: each entry is zeroed, and a table it refers to is not freed. */
    method FreeSections(root: nat, i: nat, addr: nat, end: nat)
      requires Live(V(), root)
      requires addr % SECT_SIZE == end % SECT_SIZE == 0 && end < SPACE
      requires i == addr / SECT_SIZE && addr < Limit(end)
      modifies this
      ensures Unmapped(old(V()), V(), root, addr / PAGE_SIZE, Limit(end) / PAGE_SIZE)
    {
      hide Translate, Separate;
      var k, a := i, addr;
      ghost var h0, stop := V(), Limit(end) / SECT_SIZE;
      SectionRange(addr, end);
      while true
        invariant i <= k < stop <= 4096 && a == SECT_SIZE * k
        invariant Live(V(), root) && UnmappedSoFar(h0, V(), root, 256 * i, 256 * k)
        decreases stop - k
      {
        ghost var h1 := V();
        l1 := l1[root := l1[root][k := Fault]];
        SlotFaultIsUnmapped(h1, V(), root, k);
        UnmappedStep(h0, h1, V(), root, 256 * i, 256 * k, 256 * k + 256, 256 * stop);
        NextMegabyte(a, end, k, stop);
        k, a := k + 1, (a + SECT_SIZE) % SPACE;
        if a == end { break; }
      }
    }

    /** MAIN: the pages of the rounded range are unmapped, and tables this empties are freed. */
    method ReleaseMapping(root: nat, virtBase: nat, size: nat)
      requires Live(V(), root)
      requires 0 < size < SPACE && virtBase + size <= SPACE
      requires Unmappable(V(), root, virtBase / PAGE_SIZE, LastPage(virtBase, size))
      modifies this
      ensures Unmapped(old(V()), V(), root, virtBase / PAGE_SIZE, LastPage(virtBase, size))
      ensures Live(V(), root)
    {
      var addr := virtBase / PAGE_SIZE * PAGE_SIZE;
      var length := AlignUp(size + virtBase % PAGE_SIZE) % SPACE;
      var i := addr / SECT_SIZE;
      var end := (addr + length) % SPACE;
      ghost var h0, first, last := V(), virtBase / PAGE_SIZE, LastPage(virtBase, size);
      ghost var cur := first;
      RoundedRange(virtBase, size, addr, end);
      while true
        invariant first <= cur < last && addr == PAGE_SIZE * cur && i == cur / 256
        invariant cur == first || cur % 256 == 0
        invariant Live(V(), root) && UnmappedSoFar(h0, V(), root, first, cur)
        decreases last - cur
      {
        var next := L1SectAddrEnd(addr, end);
        ghost var h1, stop := V(), Limit(next) / PAGE_SIZE;
        NextBoundary(addr, end, next, cur, last);
        NextSlotUnmappable(h0, h1, root, first, cur, stop, last);
        FreeL1Mapping(root, i, addr, next);
        UnmappedStep(h0, h1, V(), root, first, cur, stop, last);
        i, addr, cur := i + 1, next, stop;
        if addr == end { break; }
      }
    }

    method NewRootPgtable() returns (root: nat)
      modifies this
      ensures root !in old(l1) && l1 == old(l1)[root := EmptyRoot()] && l2 == old(l2)
    {
      FreshAddress(l1.Keys);
      root :| root !in l1.Keys;
      l1 := l1[root := EmptyRoot()];
    }

    /** The kernel slots of a new table become copies of the system table's. */
    method PgtableCopyKernelArea(root: nat)
      requires root in l1 && sys in l1 && root != sys && lay.kernelSlot <= 4096
      modifies this
      ensures l2 == old(l2) && root in l1 && l1 == old(l1)[root := l1[root]]
      ensures forall i | 0 <= i < 4096 :: l1[root][i] == if i < lay.kernelSlot then old(l1)[root][i] else l1[sys][i]
    {
      for i := lay.kernelSlot to 4096
        invariant l2 == old(l2) && root in l1 && l1 == old(l1)[root := l1[root]]
        invariant forall k | 0 <= k < 4096 ::
          l1[root][k] == if lay.kernelSlot <= k < i then l1[sys][k] else old(l1)[root][k]
      {
        l1 := l1[root := l1[root][i := l1[sys][i]]];
      }
    }

    /**
     Frees the second-level tables of the user slots, each once, and empties these slots; the
     table itself is freed on request.
     */
    method ResetRootPgtable(root: nat, remove: bool)
      requires Live(V(), root) && lay.kernelSlot <= 4096
      modifies this
      ensures V() == Reset(lay, old(V()), root, remove)
    {
      ghost var h0 := V();
      ghost var row := l1[root];
      assert ClearedBelow(row, 0) == row;
      for i := 0 to lay.kernelSlot
        invariant l1 == h0.l1[root := ClearedBelow(row, i)]
        invariant l2 == h0.l2 - UserTables(row, i)
      {
        UserTablesStep(row, i);
        if l1[root][i] != Fault {
          if !l1[root][i].Section? {
            FreeL2(l1[root][i].at);
          }
          l1 := l1[root := l1[root][i := Fault]];
        }
        assert l1[root] == ClearedBelow(row, i + 1);
      }
      if remove {
        l1 := l1 - {root};
      }
    }

    /**
     MAIN: the physical address of a virtual one, computed with 12 offset bits only; None is the stop
     on an empty first-level entry.  It is the true one exactly for small pages and for the first
     page of a section.  For an empty second-level entry, which is not looked for, it is the offset.
     */
    method VirtToPhysPt(root: nat, vaddr: nat) returns (paddr: Option<nat>)
      requires Live(V(), root) && vaddr < SPACE
      ensures paddr == None <==> l1[root][vaddr / SECT_SIZE] == Fault
      ensures Translate(V(), root, vaddr / PAGE_SIZE).Some? ==>
        (paddr == Some(Translate(V(), root, vaddr / PAGE_SIZE).value * PAGE_SIZE + vaddr % PAGE_SIZE)
         <==> l1[root][vaddr / SECT_SIZE].Table? || vaddr / PAGE_SIZE % 256 == 0)
      ensures Translate(V(), root, vaddr / PAGE_SIZE) == None && l1[root][vaddr / SECT_SIZE] != Fault ==> paddr == Some(vaddr % 0x1000)
      ensures paddr == Computed(V(), root, vaddr)
    {
      var i, offset := vaddr / SECT_SIZE, vaddr % PAGE_SIZE;
      assert i == vaddr / PAGE_SIZE / 256;
      match l1[root][i]
      case Fault => paddr := None;
      case Section(mb) => paddr := Some(mb * SECT_SIZE + offset);
      case Table(at) =>
        var e := l2[at][vaddr / PAGE_SIZE % 256];
        paddr := Some((if e.Page? then e.pfn else 0) * PAGE_SIZE + offset);
    }
  }

  /** What virt_to_phys_pt computes, by the translation: it takes a page of a section for the first one. */
  function Computed(h: Heap, root: nat, vaddr: nat): Option<nat>
    requires Live(h, root) && vaddr < SPACE
  {
    var page, offset := vaddr / PAGE_SIZE, vaddr % PAGE_SIZE;
    if h.l1[root][page / 256] == Fault then None
    else
      match Translate(h, root, if h.l1[root][page / 256].Section? then page / 256 * 256 else page)
      case Some(f) => Some(f * PAGE_SIZE + offset)
      case None => Some(offset)
  }

  /** In every section all addresses but those of its first page come out wrong. */
  lemma SectionMistaken(h: Heap, root: nat, i: nat, k: nat)
    requires Live(h, root) && i < 4096 && h.l1[root][i].Section? && 0 < k < SECT_SIZE
    ensures var vaddr := i * SECT_SIZE + k;
      && vaddr < SPACE && Translate(h, root, vaddr / PAGE_SIZE).Some?
      && (PAGE_SIZE <= k <==>
            Computed(h, root, vaddr) != Some(Translate(h, root, vaddr / PAGE_SIZE).value * PAGE_SIZE + vaddr % PAGE_SIZE))
  {
    var vaddr := i * SECT_SIZE + k;
    assert vaddr / PAGE_SIZE == 256 * i + k / PAGE_SIZE && vaddr / PAGE_SIZE / 256 == i;
    assert vaddr / PAGE_SIZE % 256 == k / PAGE_SIZE;
  }

  /** The second page of a megabyte mapped by a section, for one. */
  lemma MistakenPage() returns (h: Heap)
    ensures Live(h, 0) && Translate(h, 0, 257) == Some(7 * 256 + 1)
    ensures Computed(h, 0, SECT_SIZE + PAGE_SIZE) == Some(7 * SECT_SIZE)
  {
    h := Heap(map[0 := EmptyRoot()[1 := Section(7)]], map[]);
  }

  /** One past the last page a byte range touches. */
  function LastPage(virtBase: nat, size: nat): nat {
    (virtBase + size + PAGE_SIZE - 1) / PAGE_SIZE
  }

  lemma RoundedRange(virtBase: nat, size: nat, addr: nat, end: nat)
    requires 0 < size && virtBase + size <= SPACE
    requires addr == virtBase / PAGE_SIZE * PAGE_SIZE
    requires end == (addr + AlignUp(size + virtBase % PAGE_SIZE) % SPACE) % SPACE
    ensures end < SPACE && Limit(end) == PAGE_SIZE * LastPage(virtBase, size)
    ensures addr / SECT_SIZE == virtBase / PAGE_SIZE / 256
    ensures virtBase / PAGE_SIZE < LastPage(virtBase, size) <= PAGES
  {
    assert virtBase == addr + virtBase % PAGE_SIZE;
    assert addr + AlignUp(size + virtBase % PAGE_SIZE) == LastPage(virtBase, size) * PAGE_SIZE;
  }

  /** One turn of a loop over megabytes, in pages: from cur to the next boundary or the end. */
  lemma NextBoundary(addr: nat, end: nat, next: nat, cur: nat, last: nat)
    requires addr == PAGE_SIZE * cur && Limit(end) == PAGE_SIZE * last && cur < last <= PAGES && end < SPACE
    requires next == L1SectAddrEnd(addr, end)
    ensures var stop := Limit(next) / PAGE_SIZE;
      && Limit(next) == PAGE_SIZE * stop && next < SPACE && next % PAGE_SIZE == 0
      && cur < stop <= last && stop <= 256 * (cur / 256) + 256
      && (if next == end then stop == last
          else next == PAGE_SIZE * stop && stop < last && stop == 256 * (cur / 256) + 256)
    ensures addr / PAGE_SIZE == cur && addr % PAGE_SIZE == 0 && addr / SECT_SIZE == cur / 256
    ensures Limit(next) <= (addr / SECT_SIZE + 1) * SECT_SIZE
  {
    assert addr / SECT_SIZE == cur / 256;
  }

  /** One turn of a loop over the pages of a slot. */
  lemma NextPage(addr: nat, end: nat, cur: nat, last: nat)
    requires addr == PAGE_SIZE * cur && Limit(end) == PAGE_SIZE * last && cur < last <= PAGES && end < SPACE
    ensures (addr + PAGE_SIZE) % SPACE == end <==> cur + 1 == last
    ensures cur + 1 < last ==> (addr + PAGE_SIZE) % SPACE == PAGE_SIZE * (cur + 1)
  {
  }

  lemma AdvanceTwice(phys: nat, j: nat, k: nat)
    ensures ((phys + PAGE_SIZE * j) % SPACE + PAGE_SIZE * k) % SPACE == (phys + PAGE_SIZE * (j + k)) % SPACE
  {
    var x := phys + PAGE_SIZE * j;
    assert phys + PAGE_SIZE * (j + k) == x + PAGE_SIZE * k;
    RemainderFirst(x, PAGE_SIZE * k);
  }

  lemma RemainderFirst(x: nat, y: nat)
    ensures (x % SPACE + y) % SPACE == (x + y) % SPACE
  {
    var z := x % SPACE + y;
    assert x + y == (x / SPACE + z / SPACE) * SPACE + z % SPACE;
  }

  lemma SectionRange(addr: nat, end: nat)
    requires addr % SECT_SIZE == end % SECT_SIZE == 0 && addr < Limit(end) && end < SPACE
    ensures var i, stop := addr / SECT_SIZE, Limit(end) / SECT_SIZE;
      && addr == SECT_SIZE * i && Limit(end) == SECT_SIZE * stop && i < stop <= 4096
      && addr / PAGE_SIZE == 256 * i && Limit(end) / PAGE_SIZE == 256 * stop
  {
  }

  /** One turn of a loop over whole megabytes. */
  lemma NextMegabyte(addr: nat, end: nat, k: nat, stop: nat)
    requires addr == SECT_SIZE * k && Limit(end) == SECT_SIZE * stop && k < stop <= 4096 && end < SPACE
    ensures (addr + SECT_SIZE) % SPACE == end <==> k + 1 == stop
    ensures k + 1 < stop ==> (addr + SECT_SIZE) % SPACE == SECT_SIZE * (k + 1)
  {
  }

  /** The physical address n megabytes further on. */
  function BaseAt(phys: nat, n: nat): nat {
    (phys + PAGE_SIZE * (256 * n)) % SPACE
  }

  lemma FirstBase(phys: nat)
    requires phys < SPACE
    ensures BaseAt(phys, 0) == phys
  {
  }

  lemma SectionStored(h0: Heap, h1: Heap, h2: Heap, root: nat, i: nat, k: nat, phys: nat, p: nat)
    requires Live(h0, root) && Live(h1, root) && phys < SPACE && i <= k < 4096
    requires p % SECT_SIZE == 0 && p == BaseAt(phys, k - i) && MappedSoFar(h0, h1, root, 256 * i, 256 * k, phys)
    requires h2 == Heap(h1.l1[root := h1.l1[root][k := Section(p / SECT_SIZE)]], h1.l2)
    ensures Live(h2, root) && MappedSoFar(h0, h2, root, 256 * i, 256 * (k + 1), phys)
    ensures (p + SECT_SIZE) % SPACE == BaseAt(phys, k + 1 - i) && (p + SECT_SIZE) % SPACE % SECT_SIZE == 0
  {
    hide Mapped, MappedSoFar, Separate;
    MappedSectionStep(h0, h1, h2, root, 256 * i, k, phys, p);
    MappedAll(h0, h2, root, 256 * i, 256 * (k + 1), phys);
    NextSection(phys, p, 256 * (k - i));
  }

  lemma NextSection(phys: nat, p: nat, k: nat)
    requires p % SECT_SIZE == 0 && p == (phys + PAGE_SIZE * k) % SPACE
    ensures (p + SECT_SIZE) % SPACE % SECT_SIZE == 0
    ensures (p + SECT_SIZE) % SPACE == (phys + PAGE_SIZE * (k + 256)) % SPACE
  {
    AdvanceTwice(phys, k, 256);
  }

  /** The alignment test on bytes is the one the page-level description uses. */
  lemma SectionTest(addr: nat, end: nat, phys: nat)
    requires addr % PAGE_SIZE == 0 && end % PAGE_SIZE == 0 && end < SPACE && phys < SPACE
    requires addr < Limit(end) <= (addr / SECT_SIZE + 1) * SECT_SIZE
    ensures addr % SECT_SIZE == 0 && end % SECT_SIZE == 0 && phys % SECT_SIZE == 0 <==>
            BySection(addr / SECT_SIZE, addr / PAGE_SIZE, Limit(end) / PAGE_SIZE, phys)
    ensures 256 * (addr / SECT_SIZE) <= addr / PAGE_SIZE < Limit(end) / PAGE_SIZE <= 256 * (addr / SECT_SIZE) + 256
  {
    hide Whole, SectionFits;
    var i, first, last := addr / SECT_SIZE, addr / PAGE_SIZE, Limit(end) / PAGE_SIZE;
    assert addr == PAGE_SIZE * first && Limit(end) == PAGE_SIZE * last;
    PageInSection(first);
    PageInSection(last);
    WholeSlot(i, first, last);
    if first == 256 * i {
      FitsSection(phys, i);
    }
  }

  lemma PageInSection(page: nat)
    ensures PAGE_SIZE * page / SECT_SIZE == page / 256
    ensures PAGE_SIZE * page % SECT_SIZE == 0 <==> page % 256 == 0
  {
  }

  lemma WholeSlot(i: nat, first: nat, last: nat)
    requires 256 * i <= first < last <= 256 * i + 256
    ensures Whole(i, first, last) <==> first == 256 * i && last == 256 * i + 256
  {
  }

  lemma FitsSection(phys: nat, i: nat)
    ensures SectionFits(phys, 256 * i) <==> phys % SECT_SIZE == 0
  {
  }

  /** A first-level table with its first n slots emptied. */
  function ClearedBelow(row: L1Table, n: nat): L1Table {
    seq(4096, i requires 0 <= i < 4096 => if i < n then Fault else row[i])
  }

  /** The second-level tables that the first n slots refer to. */
  ghost function UserTables(row: L1Table, n: nat): set<nat> {
    set i | 0 <= i < 4096 && i < n && row[i].Table? :: row[i].at
  }

  /** The heap after the user slots of root have been emptied and their tables freed. */
  ghost function Reset(lay: Layout, h: Heap, root: nat, remove: bool): Heap
    requires root in h.l1
  {
    Heap(if remove then h.l1 - {root} else h.l1[root := ClearedBelow(h.l1[root], lay.kernelSlot)],
         h.l2 - UserTables(h.l1[root], lay.kernelSlot))
  }

  lemma UserTablesStep(row: L1Table, i: nat)
    requires Separate(row) && i < 4096
    ensures UserTables(row, i + 1) == UserTables(row, i) + (if row[i].Table? then {row[i].at} else {})
    ensures row[i].Table? ==> row[i].at !in UserTables(row, i)
  {
  }

  /** With its fixmap slot empty, what an address space owns are the tables of its user slots. */
  lemma OwnIsUser(lay: Layout, h: Heap, root: nat)
    requires lay.Valid() && root in h.l1 && h.l1[root][lay.FixmapSlot()] == Fault
    ensures Own(lay, h, root) == UserTables(h.l1[root], lay.kernelSlot)
  {
  }

  /** MAIN: emptying an address space frees exactly its own tables and leaves the kernel slots alone. */
  lemma ResetSpace(lay: Layout, h: Heap, sys: nat, root: nat)
    requires lay.Valid() && RootOk(lay, h, sys, root) && h.l1[root][lay.FixmapSlot()] == Fault
    ensures var h' := Reset(lay, h, root, false);
      && Local(lay, h, h', root) && RootOk(lay, h', sys, root) && h'.l1[root][lay.FixmapSlot()] == Fault
      && UserMap(lay, h', root) == map[] && h'.l2 == Rest(lay, h, root)
      && forall i | lay.kernelSlot <= i < 4096 :: h'.l1[root][i] == h.l1[root][i]
    ensures Reset(lay, h, root, true) == Heap(h.l1 - {root}, Rest(lay, h, root))
  {
    OwnIsUser(lay, h, root);
    var h' := Reset(lay, h, root, false);
    assert Own(lay, h', root) == {};
    assert Shared(h', sys) == Shared(h, sys);
    forall a | a in Shared(h, sys)
      ensures a in h'.l2
    {
    }
    forall i | 0 <= i < 4096 && h'.l1[root][i].Table?
      ensures h'.l1[root][i].at in h'.l2
    {
      assert h.l1[sys][i] == h.l1[root][i];
      assert h.l1[root][i].at in Shared(h, sys);
    }
    forall v | 0 <= v < lay.UserPages()
      ensures Translate(h', root, v) == None
    {
    }
  }
}
