/**
 Address spaces: what each process owns of the page-table heap, and what all of them share.

 The first-level slots below the kernel base belong to the process, and so does the slot of the
 fixmap page, which fork uses as a window.  All other slots are copies of the system table's.
 */
module Space {
  import opened Wrappers
  import opened Tables

  /** Link-time constants of the kernel, in pages and 1 MB slots. */
  datatype Layout = Layout(
    kernelSlot: nat, fixmapPage: nat, argsPage: nat, stackPages: nat, heapPages: nat,
    userPage: nat, imagePages: nat, imageFrame: nat, heapSize: nat)
  {
    ghost predicate Valid() {
      && 0 < kernelSlot && kernelSlot <= fixmapPage / 256 && fixmapPage < PAGES
      && argsPage < 256 * kernelSlot
      && 0 < stackPages <= argsPage
      && userPage + imagePages <= argsPage - stackPages
      && 0 < imagePages < 256 && imageFrame + imagePages <= PAGES
      && heapPages == (heapSize + PAGE_SIZE - 1) / PAGE_SIZE
    }

    predicate Private(i: nat) {
      i < kernelSlot || i == fixmapPage / 256
    }

    function UserPages(): nat { 256 * kernelSlot }

    function FixmapSlot(): nat { fixmapPage / 256 }
  }

  /** The second-level tables an address space does not share. */
  ghost function Own(lay: Layout, h: Heap, root: nat): set<nat>
    requires root in h.l1
  {
    set i | 0 <= i < 4096 && lay.Private(i) && h.l1[root][i].Table? :: h.l1[root][i].at
  }

  /** The second-level tables of the system table. */
  ghost function Shared(h: Heap, sys: nat): set<nat>
    requires sys in h.l1
  {
    set i | 0 <= i < 4096 && h.l1[sys][i].Table? :: h.l1[sys][i].at
  }

  /** All tables except those of one address space. */
  ghost function Rest(lay: Layout, h: Heap, root: nat): map<nat, L2Table>
    requires root in h.l1
  {
    h.l2 - Own(lay, h, root)
  }

  /** Only one address space has changed. */
  ghost predicate Local(lay: Layout, h: Heap, h': Heap, root: nat)
    requires root in h.l1
  {
    && root in h'.l1
    && h'.l1 == h.l1[root := h'.l1[root]]
    && Rest(lay, h', root) == Rest(lay, h, root)
  }

  ghost predicate SysOk(lay: Layout, h: Heap, sys: nat) {
    Live(h, sys) && lay.FixmapSlot() < 4096 && h.l1[sys][lay.FixmapSlot()] == Fault
  }

  /** An address space: its own tables exist, are distinct and hold something; the rest is the system's. */
  ghost predicate RootOk(lay: Layout, h: Heap, sys: nat, root: nat) {
    && SysOk(lay, h, sys)
    && root != sys
    && Live(h, root)
    && (forall i | 0 <= i < 4096 && !lay.Private(i) :: h.l1[root][i] == h.l1[sys][i])
    && (forall i | 0 <= i < 4096 && lay.Private(i) ::
          !h.l1[root][i].Section? && (h.l1[root][i].Table? ==> h.l2[h.l1[root][i].at] != Blank()))
    && Own(lay, h, root) !! Shared(h, sys)
  }

  /**
   The state of all page tables between two kernel calls: every second-level table is owned by
   exactly one slot of one process, or by the system.
   */
  ghost predicate TablesOk(lay: Layout, h: Heap, sys: nat, roots: set<nat>) {
    && SysOk(lay, h, sys)
    && h.l1.Keys == roots + {sys}
    && (forall r | r in roots :: RootOk(lay, h, sys, r) && h.l1[r][lay.FixmapSlot()] == Fault)
    && (forall r, r' | r in roots && r' in roots && r != r' :: Own(lay, h, r) !! Own(lay, h, r'))
    && (forall a | a in h.l2 :: a in Shared(h, sys) || exists r :: r in roots && a in Own(lay, h, r))
  }

  /** The user part of an address space as a flat map from virtual pages to frames. */
  function UserMap(lay: Layout, h: Heap, root: nat): map<nat, nat>
    requires root in h.l1 && lay.UserPages() <= PAGES
  {
    map p | 0 <= p < lay.UserPages() && Translate(h, root, p).Some? :: Translate(h, root, p).value
  }

  lemma UserMapLookup(lay: Layout, h: Heap, root: nat, v: nat)
    requires root in h.l1 && lay.UserPages() <= PAGES && v in UserMap(lay, h, root)
    ensures v < PAGES && Translate(h, root, v) == Some(UserMap(lay, h, root)[v])
  {
  }

  lemma LocalTrans(lay: Layout, h0: Heap, h1: Heap, h2: Heap, root: nat)
    requires root in h0.l1 && Local(lay, h0, h1, root) && Local(lay, h1, h2, root)
    ensures Local(lay, h0, h2, root)
  {
  }

  /** The range lies in private slots and is mapped through second-level tables only. */
  ghost predicate PrivateRange(lay: Layout, first: nat, last: nat, phys: nat) {
    forall i | 0 <= i < 4096 && Covered(i, first, last) :: lay.Private(i) && !BySection(i, first, last, phys)
  }

  lemma MappedOwn(lay: Layout, h: Heap, h': Heap, sys: nat, root: nat, first: nat, last: nat, phys: nat)
    requires RootOk(lay, h, sys, root) && PrivateRange(lay, first, last, phys)
    requires Mapped(h, h', root, first, last, phys)
    ensures Own(lay, h, root) <= Own(lay, h', root)
    ensures forall a | a in Own(lay, h', root) && a !in Own(lay, h, root) :: a !in h.l2
    ensures forall i | 0 <= i < 4096 && !lay.Private(i) :: h'.l1[root][i] == h.l1[root][i]
  {
    forall i | 0 <= i < 4096
      ensures SlotMapped(h, h', root, i, first, last, phys)
      ensures lay.Private(i) && h.l1[root][i].Table? ==> h'.l1[root][i] == h.l1[root][i]
      ensures !lay.Private(i) ==> h'.l1[root][i] == h.l1[root][i]
    {
    }
  }

  lemma MappedRest(lay: Layout, h: Heap, h': Heap, sys: nat, root: nat, first: nat, last: nat, phys: nat)
    requires RootOk(lay, h, sys, root) && PrivateRange(lay, first, last, phys)
    requires Mapped(h, h', root, first, last, phys)
    ensures Rest(lay, h', root) == Rest(lay, h, root)
  {
    MappedOwn(lay, h, h', sys, root, first, last, phys);
    forall a | a in h.l2 && a !in Own(lay, h, root)
      ensures a in Rest(lay, h', root) && h'.l2[a] == h.l2[a]
    {
    }
    forall a | a in h'.l2 && a !in Own(lay, h', root)
      ensures a in Rest(lay, h, root)
    {
    }
  }

  /** Mapping pages of private slots, without sections, changes one address space and keeps it in order. */
  lemma MappedPrivate(lay: Layout, h: Heap, h': Heap, sys: nat, root: nat, first: nat, last: nat, phys: nat)
    requires RootOk(lay, h, sys, root) && PrivateRange(lay, first, last, phys)
    requires Mapped(h, h', root, first, last, phys)
    ensures Local(lay, h, h', root)
    ensures RootOk(lay, h', sys, root)
  {
    MappedOwn(lay, h, h', sys, root, first, last, phys);
    MappedRest(lay, h, h', sys, root, first, last, phys);
    MappedLive(h, h', root, first, last, phys);
    assert Shared(h', sys) == Shared(h, sys);
    forall i | 0 <= i < 4096 && lay.Private(i)
      ensures !h'.l1[root][i].Section?
      ensures h'.l1[root][i].Table? ==> h'.l2[h'.l1[root][i].at] != Blank()
    {
      assert SlotMapped(h, h', root, i, first, last, phys);
      if Covered(i, first, last) {
        var j := Clip(i, first);
        assert h'.l2[h'.l1[root][i].at][j] == MapCell(OldRow(h, root, i)[j], i, j, first, last, phys);
        assert Blank()[j] == Hole;
      }
    }
  }

  /** What other address spaces see depends only on the rest of the heap. */
  lemma SameUserMap(lay: Layout, h: Heap, h': Heap, r: nat)
    requires r in h.l1 && r in h'.l1 && h'.l1[r] == h.l1[r] && lay.UserPages() <= PAGES
    requires Live(h, r)
    requires forall a | a in Own(lay, h, r) :: a in h'.l2 && h'.l2[a] == h.l2[a]
    ensures UserMap(lay, h', r) == UserMap(lay, h, r)
  {
    forall p | 0 <= p < lay.UserPages()
      ensures Translate(h', r, p) == Translate(h, r, p)
    {
      var i := p / 256;
      if h.l1[r][i].Table? {
        assert h.l1[r][i].at in Own(lay, h, r);
      }
    }
  }

  lemma SameRoot(lay: Layout, h: Heap, h': Heap, sys: nat, r: nat)
    requires RootOk(lay, h, sys, r) && r in h'.l1 && h'.l1[r] == h.l1[r]
    requires sys in h'.l1 && h'.l1[sys] == h.l1[sys]
    requires forall a | a in Shared(h, sys) || a in Own(lay, h, r) :: a in h'.l2 && h'.l2[a] == h.l2[a]
    ensures RootOk(lay, h', sys, r)
    ensures Own(lay, h', r) == Own(lay, h, r)
    ensures Shared(h', sys) == Shared(h, sys)
  {
    forall i | 0 <= i < 4096
      ensures h.l1[sys][i].Table? ==> h.l1[sys][i].at in h'.l2
      ensures h.l1[r][i].Table? ==> h.l1[r][i].at in h'.l2
    {
      if h.l1[sys][i].Table? {
        assert h.l1[sys][i].at in Shared(h, sys);
      }
      if h.l1[r][i].Table? {
        assert lay.Private(i) ==> h.l1[r][i].at in Own(lay, h, r);
      }
    }
    forall i | 0 <= i < 4096 && lay.Private(i) && h.l1[r][i].Table?
      ensures h'.l2[h.l1[r][i].at] == h.l2[h.l1[r][i].at]
    {
      assert h.l1[r][i].at in Own(lay, h, r);
    }
  }

  /** A change confined to one address space leaves all tables in order and the others as they were. */
  lemma TablesLocal(lay: Layout, h: Heap, h': Heap, sys: nat, roots: set<nat>, root: nat)
    requires lay.Valid() && TablesOk(lay, h, sys, roots) && root in roots
    requires Local(lay, h, h', root) && RootOk(lay, h', sys, root) && h'.l1[root][lay.FixmapSlot()] == Fault
    ensures TablesOk(lay, h', sys, roots)
    ensures forall r | r in roots && r != root :: UserMap(lay, h', r) == UserMap(lay, h, r)
  {
    forall a | a in h.l2 && a !in Own(lay, h, root)
      ensures a in h'.l2 && h'.l2[a] == h.l2[a] && a !in Own(lay, h', root)
    {
      assert a in Rest(lay, h, root);
      assert a in Rest(lay, h', root);
    }
    forall r | r in roots && r != root
      ensures RootOk(lay, h', sys, r) && Own(lay, h', r) == Own(lay, h, r)
      ensures UserMap(lay, h', r) == UserMap(lay, h, r)
    {
      SameRoot(lay, h, h', sys, r);
      SameUserMap(lay, h, h', r);
    }
    TablesCovered(lay, h, h', sys, roots, root);
  }

  lemma TablesCovered(lay: Layout, h: Heap, h': Heap, sys: nat, roots: set<nat>, root: nat)
    requires TablesOk(lay, h, sys, roots) && root in roots
    requires Local(lay, h, h', root) && root != sys
    requires forall r | r in roots && r != root :: r in h'.l1 && Own(lay, h', r) == Own(lay, h, r)
    ensures forall a | a in h'.l2 :: a in Shared(h', sys) || exists r :: r in roots && r in h'.l1 && a in Own(lay, h', r)
  {
    forall a | a in h'.l2
      ensures a in Shared(h', sys) || exists r :: r in roots && r in h'.l1 && a in Own(lay, h', r)
    {
      if a !in Own(lay, h', root) {
        assert a in Rest(lay, h', root);
        assert a in Rest(lay, h, root);
        if a !in Shared(h, sys) {
          var r :| r in roots && a in Own(lay, h, r);
        }
      }
    }
  }

  /** A new address space with tables of its own. */
  lemma TablesAdd(lay: Layout, h: Heap, h': Heap, sys: nat, roots: set<nat>, root: nat)
    requires lay.Valid() && TablesOk(lay, h, sys, roots) && root !in h.l1
    requires root in h'.l1 && h'.l1 == h.l1[root := h'.l1[root]] && Rest(lay, h', root) == h.l2
    requires RootOk(lay, h', sys, root) && h'.l1[root][lay.FixmapSlot()] == Fault
    ensures TablesOk(lay, h', sys, roots + {root})
    ensures forall r | r in roots :: UserMap(lay, h', r) == UserMap(lay, h, r)
  {
    forall a | a in h.l2
      ensures a in h'.l2 && h'.l2[a] == h.l2[a] && a !in Own(lay, h', root)
    {
      assert a in Rest(lay, h', root);
    }
    forall r | r in roots
      ensures RootOk(lay, h', sys, r) && Own(lay, h', r) == Own(lay, h, r) && Own(lay, h, r) <= h.l2.Keys
      ensures UserMap(lay, h', r) == UserMap(lay, h, r)
    {
      SameRoot(lay, h, h', sys, r);
      SameUserMap(lay, h, h', r);
    }
    forall a | a in h'.l2
      ensures a in Shared(h', sys) || exists r :: r in roots + {root} && a in Own(lay, h', r)
    {
      if a !in Own(lay, h', root) {
        assert a in Rest(lay, h', root);
        if a !in Shared(h, sys) {
          var r :| r in roots && a in Own(lay, h, r);
          assert r in roots + {root} && a in Own(lay, h', r);
        }
      } else {
        assert root in roots + {root};
      }
    }
  }

  /** An address space goes, with its own tables. */
  lemma TablesRemove(lay: Layout, h: Heap, h': Heap, sys: nat, roots: set<nat>, root: nat)
    requires lay.Valid() && TablesOk(lay, h, sys, roots) && root in roots
    requires h'.l1 == h.l1 - {root} && h'.l2 == Rest(lay, h, root)
    ensures TablesOk(lay, h', sys, roots - {root})
    ensures forall r | r in roots && r != root :: UserMap(lay, h', r) == UserMap(lay, h, r)
  {
    assert sys !in roots;
    forall r | r in roots && r != root
      ensures RootOk(lay, h', sys, r) && Own(lay, h', r) == Own(lay, h, r)
      ensures UserMap(lay, h', r) == UserMap(lay, h, r)
    {
      SameRoot(lay, h, h', sys, r);
      SameUserMap(lay, h, h', r);
    }
    forall i | 0 <= i < 4096 && h.l1[sys][i].Table?
      ensures h.l1[sys][i].at in h'.l2
    {
      assert h.l1[sys][i].at in Shared(h, sys);
    }
    forall a | a in h'.l2
      ensures a in Shared(h', sys) || exists r :: r in roots - {root} && a in Own(lay, h', r)
    {
      if a !in Shared(h, sys) {
        var r :| r in roots && a in Own(lay, h, r);
        assert r in roots - {root} && a in Own(lay, h', r);
      }
    }
  }
}
