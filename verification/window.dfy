/**
 The page tables in the middle of a fork.  The parent's fixmap slot serves as a window through
 which the child's frames are filled; the child's user slots are being built.
 */
module Window {
  import opened Wrappers
  import opened Tables
  import opened Space

  /**
   Since h0, in which the child c has no user slots yet, only the parent's fixmap slot and the
   child's user slots have changed, and only tables for these have been added.
   */
  ghost predicate Open(lay: Layout, h0: Heap, h: Heap, p: nat, c: nat) {
    && p in h0.l1 && c in h0.l1 && p != c && Live(h, p) && Live(h, c) && lay.FixmapSlot() < 4096
    && h.l1 == h0.l1[p := h.l1[p]][c := h.l1[c]]
    && (forall i | 0 <= i < 4096 && i != lay.FixmapSlot() :: h.l1[p][i] == h0.l1[p][i])
    && (forall i | lay.kernelSlot <= i < 4096 :: h.l1[c][i] == h0.l1[c][i])
    && (forall i | 0 <= i < 4096 && i < lay.kernelSlot ::
          h.l1[c][i] == Fault
          || (h.l1[c][i].Table? && h.l1[c][i].at !in h0.l2 && h.l1[c][i] != h.l1[p][lay.FixmapSlot()]))
    && (h.l1[p][lay.FixmapSlot()] == Fault
        || (h.l1[p][lay.FixmapSlot()].Table? && h.l1[p][lay.FixmapSlot()].at !in h0.l2
            && forall j | 0 <= j < 256 && j != lay.fixmapPage % 256 :: h.l2[h.l1[p][lay.FixmapSlot()].at][j] == Hole))
    && (forall a | a in h0.l2 :: a in h.l2 && h.l2[a] == h0.l2[a])
    && NewTablesUsed(lay, h0, h, p, c)
  }

  /** What the parent maps in user space has not changed. */
  lemma ParentSees(lay: Layout, h0: Heap, h: Heap, p: nat, c: nat)
    requires lay.Valid() && Live(h0, p) && Open(lay, h0, h, p, c)
    ensures UserMap(lay, h, p) == UserMap(lay, h0, p)
  {
    forall v | 0 <= v < lay.UserPages()
      ensures Translate(h, p, v) == Translate(h0, p, v)
    {
    }
  }

  ghost predicate NewTablesUsed(lay: Layout, h0: Heap, h: Heap, p: nat, c: nat)
    requires p in h.l1 && c in h.l1 && lay.FixmapSlot() < 4096
  {
    forall a | a in h.l2 && a !in h0.l2 ::
      h.l1[p][lay.FixmapSlot()] == Table(a) || exists i | 0 <= i < 4096 :: i < lay.kernelSlot && h.l1[c][i] == Table(a)
  }

  lemma NewTablesStep(lay: Layout, h0: Heap, h: Heap, h': Heap, p: nat, c: nat, at: nat)
    requires p in h.l1 && c in h.l1 && p in h'.l1 && c in h'.l1 && lay.FixmapSlot() < 4096
    requires NewTablesUsed(lay, h0, h, p, c)
    requires forall a | a in h'.l2 :: a in h.l2 || a == at
    requires h'.l1[p][lay.FixmapSlot()] == Table(at) || exists i | 0 <= i < 4096 :: i < lay.kernelSlot && h'.l1[c][i] == Table(at)
    requires h.l1[p][lay.FixmapSlot()].Table? ==> h'.l1[p][lay.FixmapSlot()] == h.l1[p][lay.FixmapSlot()]
    requires forall i | 0 <= i < 4096 && h.l1[c][i].Table? :: h'.l1[c][i] == h.l1[c][i]
    ensures NewTablesUsed(lay, h0, h', p, c)
  {
    forall a | a in h'.l2 && a !in h0.l2 && h'.l1[p][lay.FixmapSlot()] != Table(a)
      ensures exists i | 0 <= i < 4096 :: i < lay.kernelSlot && h'.l1[c][i] == Table(a)
    {
      if a != at {
        var k :| 0 <= k < 4096 && k < lay.kernelSlot && h.l1[c][k] == Table(a);
        assert h'.l1[c][k] == Table(a);
      }
    }
  }

  /** A blank second-level table for slot i of the child. */
  lemma OpenSlot(lay: Layout, h0: Heap, h: Heap, h': Heap, p: nat, c: nat, i: nat, at: nat)
    requires lay.Valid() && Open(lay, h0, h, p, c) && i < lay.kernelSlot && h.l1[c][i] == Fault && at !in h.l2
    requires h' == Heap(h.l1[c := h.l1[c][i := Table(at)]], h.l2[at := Blank()])
    ensures Open(lay, h0, h', p, c)
  {
    hide NewTablesUsed, Separate;
    forall k | 0 <= k < 4096
      ensures h.l1[c][k].Table? ==> h.l1[c][k].at != at
      ensures h.l1[p][k].Table? ==> h.l1[p][k].at != at
    {
    }
    assert h'.l1[c][i] == Table(at);
    NewTablesStep(lay, h0, h, h', p, c, at);
    TableAdded(h, h', c, i, at);
    SameTable(h, h', p, at);
  }

  /** A slot that was empty gets a new table. */
  lemma TableAdded(h: Heap, h': Heap, c: nat, i: nat, at: nat)
    requires Live(h, c) && c in h'.l1 && i < 4096 && h.l1[c][i] == Fault && at !in h.l2
    requires h'.l1[c] == h.l1[c][i := Table(at)] && h'.l2 == h.l2[at := Blank()]
    ensures Live(h', c)
  {
  }

  lemma SameTable(h: Heap, h': Heap, p: nat, at: nat)
    requires Live(h, p) && p in h'.l1 && h'.l1[p] == h.l1[p] && h'.l2 == h.l2[at := Blank()]
    ensures Live(h', p)
  {
  }

  lemma OpenSlotSees(lay: Layout, h: Heap, h': Heap, c: nat, i: nat, at: nat)
    requires lay.Valid() && Live(h, c) && i < lay.kernelSlot && h.l1[c][i] == Fault && at !in h.l2
    requires h' == Heap(h.l1[c := h.l1[c][i := Table(at)]], h.l2[at := Blank()])
    ensures UserMap(lay, h', c) == UserMap(lay, h, c)
  {
    forall v | 0 <= v < lay.UserPages()
      ensures Translate(h', c, v) == Translate(h, c, v)
    {
      assert Blank()[v % 256] == Hole;
    }
  }

  /** The fixmap page is pointed at a frame, through the table at. */
  ghost predicate Pointed(lay: Layout, h: Heap, h': Heap, p: nat, at: nat, frame: nat)
    requires p in h.l1 && lay.FixmapSlot() < 4096
  {
    var s := lay.FixmapSlot();
    && (if h.l1[p][s].Table? then h.l1[p][s] == Table(at) else at !in h.l2)
    && h' == Heap(h.l1[p := h.l1[p][s := Table(at)]],
                  h.l2[at := OldRow(h, p, s)[lay.fixmapPage % 256 := Page(frame)]])
  }

  lemma PointedKeepsOpen(lay: Layout, h0: Heap, h: Heap, h': Heap, p: nat, c: nat, at: nat, frame: nat)
    requires lay.Valid() && Open(lay, h0, h, p, c) && Pointed(lay, h, h', p, at, frame) && Live(h', p)
    ensures Open(lay, h0, h', p, c)
  {
    forall k | 0 <= k < 4096 && h.l1[c][k].Table? && k < lay.kernelSlot
      ensures h.l1[c][k].at != at
    {
    }
    NewTablesStep(lay, h0, h, h', p, c, at);
  }

  lemma PointedSees(lay: Layout, h0: Heap, h: Heap, h': Heap, p: nat, c: nat, at: nat, frame: nat)
    requires lay.Valid() && Open(lay, h0, h, p, c) && Pointed(lay, h, h', p, at, frame)
    ensures h'.l1[c] == h.l1[c] && UserMap(lay, h', c) == UserMap(lay, h, c)
    ensures Translate(h', p, lay.fixmapPage) == Some(frame)
  {
    SameUserMapBelow(lay, h, h', c);
  }

  lemma OpenWindow(lay: Layout, h0: Heap, h: Heap, h': Heap, p: nat, c: nat, frame: nat)
    requires lay.Valid() && Open(lay, h0, h, p, c) && frame < PAGES
    requires Mapped(h, h', p, lay.fixmapPage, lay.fixmapPage + 1, frame * PAGE_SIZE)
    ensures Open(lay, h0, h', p, c)
    ensures Translate(h', p, lay.fixmapPage) == Some(frame)
    ensures h'.l1[c] == h.l1[c] && UserMap(lay, h', c) == UserMap(lay, h, c)
    ensures h'.l1[p][lay.FixmapSlot()].Table?
  {
    MappedPage(h, h', p, lay.fixmapPage, frame);
    var at := h'.l1[p][lay.FixmapSlot()].at;
    assert Pointed(lay, h, h', p, at, frame);
    assert Live(h', p) by {
      MappedLive(h, h', p, lay.fixmapPage, lay.fixmapPage + 1, frame * PAGE_SIZE);
    }
    PointedKeepsOpen(lay, h0, h, h', p, c, at, frame);
    PointedSees(lay, h0, h, h', p, c, at, frame);
  }

  /** One entry of a second-level table of the child is written. */
  ghost predicate EntrySet(h: Heap, h': Heap, c: nat, i: nat, j: nat, frame: nat)
    requires c in h.l1 && i < 4096 && j < 256
  {
    && h.l1[c][i].Table? && h.l1[c][i].at in h.l2
    && h' == Heap(h.l1, h.l2[h.l1[c][i].at := h.l2[h.l1[c][i].at][j := Page(frame)]])
  }

  lemma OpenEntry(lay: Layout, h0: Heap, h: Heap, h': Heap, p: nat, c: nat, i: nat, j: nat, frame: nat)
    requires lay.Valid() && Open(lay, h0, h, p, c) && i < lay.kernelSlot && j < 256 && EntrySet(h, h', c, i, j, frame)
    ensures Open(lay, h0, h', p, c)
    ensures Translate(h', p, lay.fixmapPage) == Translate(h, p, lay.fixmapPage)
  {
    assert h'.l2.Keys == h.l2.Keys;
    assert NewTablesUsed(lay, h0, h', p, c);
  }

  lemma OpenEntrySees(lay: Layout, h: Heap, h': Heap, c: nat, i: nat, j: nat, frame: nat)
    requires lay.Valid() && Live(h, c) && i < lay.kernelSlot && j < 256 && EntrySet(h, h', c, i, j, frame)
    ensures UserMap(lay, h', c) == UserMap(lay, h, c)[256 * i + j := frame]
  {
    forall v | 0 <= v < lay.UserPages()
      ensures Translate(h', c, v) == if v == 256 * i + j then Some(frame) else Translate(h, c, v)
    {
      EntrySeen(h, h', c, i, j, frame, v);
    }
    hide Translate, EntrySet, Live;
    assert UserMap(lay, h', c).Keys == UserMap(lay, h, c)[256 * i + j := frame].Keys;
  }

  lemma EntrySeen(h: Heap, h': Heap, c: nat, i: nat, j: nat, frame: nat, v: nat)
    requires Live(h, c) && i < 4096 && j < 256 && v < PAGES && EntrySet(h, h', c, i, j, frame)
    ensures Translate(h', c, v) == if v == 256 * i + j then Some(frame) else Translate(h, c, v)
  {
    if v / 256 == i {
      assert v == 256 * i + v % 256;
    }
  }

  /** The user map depends on the user slots only. */
  lemma SameUserMapBelow(lay: Layout, h: Heap, h': Heap, r: nat)
    requires lay.Valid() && r in h.l1 && r in h'.l1
    requires forall i | 0 <= i < 4096 && i < lay.kernelSlot ::
      h'.l1[r][i] == h.l1[r][i]
      && (h.l1[r][i].Table? ==> h.l1[r][i].at in h.l2 && h.l1[r][i].at in h'.l2 && h'.l2[h.l1[r][i].at] == h.l2[h.l1[r][i].at])
    ensures UserMap(lay, h', r) == UserMap(lay, h, r)
  {
    forall v | 0 <= v < lay.UserPages()
      ensures Translate(h', r, v) == Translate(h, r, v)
    {
    }
  }

  /** Releasing the fixmap page frees the window's table and leaves the parent's slot as it was. */
  lemma WindowFreed(lay: Layout, h0: Heap, h: Heap, h': Heap, p: nat, c: nat)
    requires lay.Valid() && Open(lay, h0, h, p, c) && h.l1[p][lay.FixmapSlot()].Table?
    requires h0.l1[p][lay.FixmapSlot()] == Fault
    requires Unmapped(h, h', p, lay.fixmapPage, lay.fixmapPage + 1)
    ensures h'.l1 == h0.l1[c := h.l1[c]] && h'.l2 == h.l2 - {h.l1[p][lay.FixmapSlot()].at}
  {
    var s := lay.FixmapSlot();
    UnmappedIsSlotCleared(h, h', p, s, lay.fixmapPage, lay.fixmapPage + 1);
    assert ClearRow(OldRow(h, p, s), s, lay.fixmapPage, lay.fixmapPage + 1) == Blank();
    assert h.l1[p][s := Fault] == h0.l1[p];
  }

  /** The window is closed: apart from the child, all tables are as they were. */
  lemma CloseWindow(lay: Layout, h0: Heap, h: Heap, h': Heap, p: nat, c: nat)
    requires lay.Valid() && Open(lay, h0, h, p, c) && h.l1[p][lay.FixmapSlot()].Table?
    requires h0.l1[c][lay.FixmapSlot()] == Fault && Live(h0, c)
    requires h'.l1 == h0.l1[c := h.l1[c]] && h'.l2 == h.l2 - {h.l1[p][lay.FixmapSlot()].at}
    ensures Rest(lay, h', c) == h0.l2
    ensures UserMap(lay, h', c) == UserMap(lay, h, c)
    ensures Live(h', c)
  {
    forall a | a in h'.l2 && a !in h0.l2
      ensures a in Own(lay, h', c)
    {
      var k :| 0 <= k < 4096 && k < lay.kernelSlot && h.l1[c][k] == Table(a);
      assert lay.Private(k) && h'.l1[c][k] == Table(a);
    }
    SameUserMapBelow(lay, h, h', c);
  }

  /** Every table the child got maps a page, because the parent's table in that slot does. */
  lemma ChildNotBlank(lay: Layout, h0: Heap, h: Heap, p: nat, c: nat, i: nat)
    requires lay.Valid() && Live(h0, p) && Live(h, c) && i < lay.kernelSlot
    requires UserMap(lay, h, c).Keys == UserMap(lay, h0, p).Keys
    requires h.l1[c][i].Table? && h0.l1[p][i].Table? && h0.l2[h0.l1[p][i].at] != Blank()
    ensures h.l2[h.l1[c][i].at] != Blank()
  {
    var row := h0.l2[h0.l1[p][i].at];
    var j :| 0 <= j < 256 && row[j] != Hole;
    assert Translate(h0, p, 256 * i + j).Some?;
    assert 256 * i + j in UserMap(lay, h0, p);
    assert 256 * i + j in UserMap(lay, h, c);
    assert Blank()[j] == Hole;
  }

  /** The finished child is an address space in order. */
  lemma ChildOk(lay: Layout, h0: Heap, h: Heap, sys: nat, p: nat, c: nat)
    requires lay.Valid() && SysOk(lay, h0, sys) && RootOk(lay, h0, sys, p) && Live(h, c) && p != c && c != sys
    requires h.l1 == h0.l1[c := h.l1[c]] && Rest(lay, h, c) == h0.l2
    requires forall i | lay.kernelSlot <= i < 4096 :: h.l1[c][i] == h0.l1[sys][i]
    requires forall i | 0 <= i < 4096 && i < lay.kernelSlot ::
      h.l1[c][i] == Fault || (h.l1[c][i].Table? && h0.l1[p][i].Table?)
    requires UserMap(lay, h, c).Keys == UserMap(lay, h0, p).Keys
    ensures RootOk(lay, h, sys, c) && h.l1[c][lay.FixmapSlot()] == Fault
  {
    forall i | 0 <= i < 4096 && i < lay.kernelSlot && h.l1[c][i].Table?
      ensures h.l2[h.l1[c][i].at] != Blank()
    {
      ChildNotBlank(lay, h0, h, p, c, i);
    }
    forall a | a in h0.l2
      ensures a in h.l2 && a !in Own(lay, h, c)
    {
      assert a in Rest(lay, h, c);
    }
    assert Shared(h, sys) == Shared(h0, sys);
    assert forall a | a in Shared(h0, sys) :: a in h0.l2;
  }

  /** Once the window has been used it can be released. */
  lemma WindowUnmappable(lay: Layout, h0: Heap, h: Heap, p: nat, c: nat)
    requires lay.Valid() && Open(lay, h0, h, p, c) && h.l1[p][lay.FixmapSlot()].Table?
    ensures Live(h, p) && Unmappable(h, p, lay.fixmapPage, lay.fixmapPage + 1)
  {
    forall i | 0 <= i < 4096 && PartlyCovered(i, lay.fixmapPage, lay.fixmapPage + 1)
      ensures h.l1[p][i].Table?
    {
      assert i == lay.FixmapSlot();
    }
  }
}
