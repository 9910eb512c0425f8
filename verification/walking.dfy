/**
 The walk of the tables as the processor does it, for an address: section B3.5.1 of the ARM
 Architecture Reference Manual, ARMv7-A and ARMv7-R edition.  What the page-table code does is said
 here once more in bytes, and with the sizes written out.
 */
module Walking {
  import opened Wrappers
  import opened Tables
  import opened MmuCode

  /** Bits [31:20] of the address select a first-level entry, bits [19:12] one of a second-level table. */
  function Walk(h: Heap, root: nat, vaddr: nat): Option<nat>
    requires root in h.l1 && vaddr < 0x1_0000_0000
  {
    match h.l1[root][vaddr / 0x10_0000]
    case Fault => None
    case Section(mb) => Some(mb * 0x10_0000 + vaddr % 0x10_0000)
    case Table(at) =>
      if at !in h.l2 then None
      else
        match h.l2[at][vaddr % 0x10_0000 / 0x1000]
        case Hole => None
        case Page(pfn) => Some(pfn * 0x1000 + vaddr % 0x1000)
  }

  /** It maps whole pages, each to the frame the table says. */
  lemma WalkByPages(h: Heap, root: nat, vaddr: nat)
    requires root in h.l1 && vaddr < 0x1_0000_0000
    ensures vaddr / 0x1000 < PAGES
    ensures Walk(h, root, vaddr) ==
      match Translate(h, root, vaddr / 0x1000)
      case Some(f) => Some(f * 0x1000 + vaddr % 0x1000)
      case None => None
  {
    var page := vaddr / 0x1000;
    assert vaddr / 0x10_0000 == page / 256 && vaddr % 0x10_0000 / 0x1000 == page % 256;
    assert vaddr % 0x10_0000 == page % 256 * 0x1000 + vaddr % 0x1000;
  }

  /** Where a range of bytes starts and ends when it is rounded to pages. */
  lemma Rounded(virtBase: nat, size: nat, vaddr: nat)
    requires 0 < size && virtBase + size <= 0x1_0000_0000 && vaddr < 0x1_0000_0000
    ensures LastPage(virtBase, size) <= PAGES && virtBase / PAGE_SIZE < LastPage(virtBase, size)
    ensures virtBase / PAGE_SIZE <= vaddr / 0x1000 < LastPage(virtBase, size) <==>
            virtBase - virtBase % 0x1000 <= vaddr < virtBase + size + (0x1_0000_0000 - virtBase - size) % 0x1000
  {
    var end := virtBase + size;
    var up := end + (0x1_0000_0000 - end) % 0x1000;
    assert up % 0x1000 == 0 && end <= up < end + 0x1000 by {
      RoundsUp(end);
    }
    assert LastPage(virtBase, size) == up / 0x1000;
  }

  lemma RoundsUp(end: nat)
    requires end <= 0x1_0000_0000
    ensures var up := end + (0x1_0000_0000 - end) % 0x1000;
      up % 0x1000 == 0 && end <= up < end + 0x1000 && (end + 0xFFF) / 0x1000 == up / 0x1000
  {
    var gap := 0x1_0000_0000 - end;
    assert gap == gap / 0x1000 * 0x1000 + gap % 0x1000;
    assert end + gap % 0x1000 == (0x10_0000 - gap / 0x1000) * 0x1000;
  }

  /**
   MAIN: after create_mapping the bytes of the range, rounded to pages at both ends, lead to consecutive
   physical addresses from the page of physBase on, modulo 2^32; every other byte leads where it did.
   */
  lemma CreatedBytes(h: Heap, h': Heap, root: nat, virtBase: nat, physBase: nat, size: nat, vaddr: nat)
    requires Live(h, root) && 0 < size && virtBase + size <= SPACE && physBase < SPACE && vaddr < 0x1_0000_0000
    requires Mappable(h, root, virtBase / PAGE_SIZE, LastPage(virtBase, size), physBase)
    requires Mapped(h, h', root, virtBase / PAGE_SIZE, LastPage(virtBase, size), physBase)
    ensures var first := virtBase - virtBase % 0x1000;
      Walk(h', root, vaddr) ==
        if first <= vaddr < virtBase + size + (0x1_0000_0000 - virtBase - size) % 0x1000
        then Some((physBase - physBase % 0x1000 + (vaddr - first)) % 0x1_0000_0000)
        else Walk(h, root, vaddr)
  {
    hide Walk, Translate, Mappable, Separate, SlotMapped;
    Rounded(virtBase, size, vaddr);
    var first, last, page := virtBase / PAGE_SIZE, LastPage(virtBase, size), vaddr / 0x1000;
    WalkByPages(h, root, vaddr);
    WalkByPages(h', root, vaddr);
    MappedIsFlatUpdate(h, h', root, first, last, physBase, page);
    if first <= page < last {
      FrameByte(physBase, first, vaddr);
      assert virtBase - virtBase % 0x1000 == first * 0x1000;
    }
  }

  /** A byte of a page, counted from the first page. */
  lemma FrameByte(phys: nat, first: nat, vaddr: nat)
    requires first <= vaddr / 0x1000
    ensures FrameNo(phys, vaddr / 0x1000 - first) * 0x1000 + vaddr % 0x1000
         == (phys - phys % 0x1000 + (vaddr - first * 0x1000)) % 0x1_0000_0000
  {
    var n := phys / 0x1000 + (vaddr / 0x1000 - first);
    assert phys - phys % 0x1000 + (vaddr - first * 0x1000) == n * 0x1000 + vaddr % 0x1000;
    WrapByte(n, vaddr % 0x1000);
  }

  lemma WrapByte(n: nat, offset: nat)
    requires offset < 0x1000
    ensures n % 0x10_0000 * 0x1000 + offset == (n * 0x1000 + offset) % 0x1_0000_0000
  {
    var q, r := n / 0x10_0000, n % 0x10_0000;
    assert n * 0x1000 + offset == q * 0x1_0000_0000 + (r * 0x1000 + offset);
  }

  /** MAIN: after release_mapping no byte of the rounded range leads anywhere, and every other byte leads where it did. */
  lemma ReleasedBytes(h: Heap, h': Heap, root: nat, virtBase: nat, size: nat, vaddr: nat)
    requires Live(h, root) && 0 < size && virtBase + size <= SPACE && vaddr < 0x1_0000_0000
    requires Unmappable(h, root, virtBase / PAGE_SIZE, LastPage(virtBase, size))
    requires Unmapped(h, h', root, virtBase / PAGE_SIZE, LastPage(virtBase, size))
    ensures Walk(h', root, vaddr) ==
      if virtBase - virtBase % 0x1000 <= vaddr < virtBase + size + (0x1_0000_0000 - virtBase - size) % 0x1000 then None
      else Walk(h, root, vaddr)
  {
    hide Walk, Translate, Unmappable, Separate, SlotUnmapped;
    Rounded(virtBase, size, vaddr);
    WalkByPages(h, root, vaddr);
    WalkByPages(h', root, vaddr);
    UnmappedIsFlatRemoval(h, h', root, virtBase / PAGE_SIZE, LastPage(virtBase, size), vaddr / 0x1000);
  }
}
