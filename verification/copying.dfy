/**
 The kernel state in the middle of a fork's copy loop.
 */
module Copying {
  import opened Wrappers
  import opened Tables
  import opened Space
  import opened Sequences
  import opened KernelState
  import opened Window

  /** The pages of a flat map below page n. */
  function Below(m: map<nat, nat>, n: nat): map<nat, nat> {
    map v | v in m && v < n :: m[v]
  }

  /** Every free frame is a frame of the pool that nobody counts, and it is not mapped by orig. */
  ghost predicate FreeReady(s: State, orig: map<nat, nat>) {
    && (forall f | f in s.free :: f in s.refs && s.refs[f] == 0 && f < PAGES && f in s.mem)
    && (forall v | v in orig :: orig[v] in s.mem && orig[v] !in s.free)
    && |orig| <= |s.free|
  }

  /** The accounts after the frames pages have been taken from the pool for block c. */
  ghost predicate Taken(s0: State, s: State, c: nat) {
    && c in s0.pcbs && c in s.pcbs
    && s.pcbs == s0.pcbs[c := s0.pcbs[c].(pages := s.pcbs[c].pages)]
    && Fresh(s0, [], s.pcbs[c].pages)
    && s.free == s0.free - Elements(s.pcbs[c].pages)
    && s.refs == Recount(s0.refs, [], s.pcbs[c].pages)
    && s == s0.(tables := s.tables, mem := s.mem, pcbs := s.pcbs, free := s.free, refs := s.refs)
  }

  /** The child's slots below k stand where the parent's do; the others are still empty. */
  ghost predicate SlotsBelow(lay: Layout, h0: Heap, h: Heap, p: nat, c: nat, k: nat)
    requires p in h0.l1 && c in h.l1
  {
    forall i | 0 <= i < 4096 && i < lay.kernelSlot ::
      h.l1[c][i] == Fault || (i < k && h.l1[c][i].Table? && h0.l1[p][i].Table?)
  }

  /** The window is open, and the child's slots below k are. */
  ghost predicate OpenBelow(lay: Layout, h0: Heap, h: Heap, p: nat, c: nat, k: nat) {
    Open(lay, h0, h, p, c) && SlotsBelow(lay, h0, h, p, c, k)
  }

  /** The pages below n have been copied, and the slots below k opened. */
  ghost predicate CopiedBelow(s0: State, s: State, p: nat, c: nat, k: nat, n: nat) {
    && s0.lay.Valid() && p in s0.pcbs && c in s0.pcbs && p != c
    && s0.pcbs[p].pgtable in s0.tables.l1 && s0.pcbs[p].pgtable in s.tables.l1 && s0.pcbs[c].pgtable in s.tables.l1
    && Taken(s0, s, c)
    && OpenBelow(s0.lay, s0.tables, s.tables, s0.pcbs[p].pgtable, s0.pcbs[c].pgtable, k)
    && Cloned(s0.mem, s.mem, Below(UserMap(s0.lay, s0.tables, s0.pcbs[p].pgtable), n),
              UserMap(s.lay, s.tables, s0.pcbs[c].pgtable), s.pcbs[c].pages)
    && (s.pcbs[c].pages != [] ==> s.tables.l1[s0.pcbs[p].pgtable][s0.lay.FixmapSlot()].Table?)
  }

  /** A page that is not mapped needs no copy. */
  lemma BelowSkip(m: map<nat, nat>, n: nat)
    requires n !in m
    ensures Below(m, n + 1) == Below(m, n)
  {
  }

  lemma BelowTake(m: map<nat, nat>, n: nat)
    requires n in m
    ensures Below(m, n + 1) == Below(m, n)[n := m[n]]
    ensures n !in Below(m, n)
    ensures |Below(m, n + 1)| == |Below(m, n)| + 1
  {
  }

  lemma BelowSize(m: map<nat, nat>, n: nat)
    requires n in m
    ensures |Below(m, n)| < |m|
  {
    assert Below(m, n).Keys <= m.Keys - {n};
    SubsetSize(Below(m, n).Keys, m.Keys - {n});
  }

  lemma ValuesStep(copy: map<nat, nat>, n: nat, f: nat)
    requires n !in copy
    ensures copy[n := f].Values == copy.Values + {f}
  {
    forall g | g in copy.Values
      ensures g in copy[n := f].Values
    {
      var v :| v in copy && copy[v] == g;
      assert copy[n := f][v] == g;
    }
    assert copy[n := f][n] == f;
  }

  lemma OneMore(frames: seq<nat>, f: nat)
    ensures Elements(frames + [f]) == Elements(frames) + {f}
    ensures f in Elements(frames) <==> f in frames
  {
  }

  lemma ShapeStep(orig: map<nat, nat>, n: nat, copy: map<nat, nat>, frames: seq<nat>, f: nat)
    requires n in orig && n !in copy && f !in frames && SameShape(Below(orig, n), copy, frames)
    ensures SameShape(Below(orig, n + 1), copy[n := f], frames + [f])
  {
    hide Below, Elements, Injective;
    BelowTake(orig, n);
    ValuesStep(copy, n, f);
    OneMore(frames, f);
    InjectiveStep(copy, n, f);
  }

  lemma InjectiveStep(copy: map<nat, nat>, n: nat, f: nat)
    requires n !in copy && f !in copy.Values && Injective(copy)
    ensures Injective(copy[n := f])
  {
    forall v | v in copy
      ensures copy[v] != f
    {
      assert copy[v] in copy.Values;
    }
  }

  lemma BytesStep(mem0: map<nat, Contents>, mem: map<nat, Contents>, mem': map<nat, Contents>,
                  orig: map<nat, nat>, n: nat, copy: map<nat, nat>, frames: seq<nat>, f: nat)
    requires n in orig && n !in copy && f !in frames && f in mem0 && orig[n] in mem0 && orig[n] !in frames
    requires copy.Values == Elements(frames)
    requires SameBytes(mem0, mem, Below(orig, n), copy, frames)
    requires orig[n] in mem && mem' == mem[f := mem[orig[n]]]
    ensures SameBytes(mem0, mem', Below(orig, n + 1), copy[n := f], frames + [f])
  {
    var copy', orig' := copy[n := f], Below(orig, n + 1);
    forall v | v in orig' && v in copy'
      ensures orig'[v] in mem0 && copy'[v] in mem0 && mem'[copy'[v]] == mem0[orig'[v]]
    {
      if v != n {
        assert copy[v] in copy.Values;
        assert v in Below(orig, n);
      }
    }
  }

  /** One more page copied to one more frame. */
  lemma ClonedStep(mem0: map<nat, Contents>, mem: map<nat, Contents>, mem': map<nat, Contents>,
                   orig: map<nat, nat>, n: nat, copy: map<nat, nat>, frames: seq<nat>, f: nat)
    requires n in orig && n !in copy && f !in frames && f in mem0 && orig[n] in mem0 && orig[n] !in frames
    requires Cloned(mem0, mem, Below(orig, n), copy, frames)
    requires orig[n] in mem && mem' == mem[f := mem[orig[n]]]
    ensures Cloned(mem0, mem', Below(orig, n + 1), copy[n := f], frames + [f])
  {
    ShapeStep(orig, n, copy, frames, f);
    BytesStep(mem0, mem, mem', orig, n, copy, frames, f);
  }

  lemma TakenStep(s0: State, s: State, s': State, c: nat, f: nat)
    requires Taken(s0, s, c) && f in s.free
    requires forall g | g in s0.free :: g in s0.refs && s0.refs[g] == 0
    requires s' == s.(tables := s'.tables, mem := s'.mem, pcbs := s.pcbs[c := s.pcbs[c].(pages := s.pcbs[c].pages + [f])],
                      free := s.free - {f}, refs := s.refs[f := s.refs[f] + 1])
    ensures Taken(s0, s', c)
  {
    assert Elements(s'.pcbs[c].pages) == Elements(s.pcbs[c].pages) + {f};
    assert s'.refs == Recount(s0.refs, [], s'.pcbs[c].pages);
  }

  lemma TakenSize(s0: State, s: State, c: nat, orig: map<nat, nat>, n: nat, copy: map<nat, nat>)
    requires Taken(s0, s, c) && FreeReady(s0, orig) && n in orig
    requires Cloned(s0.mem, s.mem, Below(orig, n), copy, s.pcbs[c].pages)
    ensures s.free != {}
  {
    BelowSize(orig, n);
    SomeLeft(s0.free, s.free, s.pcbs[c].pages);
  }

  lemma SomeLeft(all: set<nat>, left: set<nat>, used: seq<nat>)
    requires Distinct(used) && Elements(used) <= all && left == all - Elements(used) && |used| < |all|
    ensures left != {}
  {
    DistinctSize(used);
    assert all == left + Elements(used);
  }

  lemma ShowBelow(lay: Layout, h0: Heap, h: Heap, h': Heap, p: nat, c: nat, k: nat, f: nat)
    requires lay.Valid() && OpenBelow(lay, h0, h, p, c, k) && f < PAGES
    requires Mapped(h, h', p, lay.fixmapPage, lay.fixmapPage + 1, f * PAGE_SIZE)
    ensures OpenBelow(lay, h0, h', p, c, k) && p in h'.l1 && c in h'.l1
    ensures h'.l1[c] == h.l1[c] && UserMap(lay, h', c) == UserMap(lay, h, c)
    ensures h'.l1[p][lay.FixmapSlot()].Table? && Translate(h', p, lay.fixmapPage) == Some(f)
  {
    OpenWindow(lay, h0, h, h', p, c, f);
  }

  lemma EnterBelow(lay: Layout, h0: Heap, h: Heap, h': Heap, p: nat, c: nat, i: nat, j: nat, f: nat)
    requires lay.Valid() && OpenBelow(lay, h0, h, p, c, i + 1) && i < lay.kernelSlot && j < 256
    requires EntrySet(h, h', c, i, j, f)
    ensures OpenBelow(lay, h0, h', p, c, i + 1)
    ensures UserMap(lay, h', c) == UserMap(lay, h, c)[256 * i + j := f]
    ensures Translate(h', p, lay.fixmapPage) == Translate(h, p, lay.fixmapPage)
  {
    OpenEntry(lay, h0, h, h', p, c, i, j, f);
    OpenEntrySees(lay, h, h', c, i, j, f);
  }

  /** The window can be pointed anywhere: the fixmap slot never holds a section. */
  lemma WindowMappable(lay: Layout, h0: Heap, h: Heap, p: nat, c: nat, phys: nat)
    requires lay.Valid() && Open(lay, h0, h, p, c)
    ensures Mappable(h, p, lay.fixmapPage, lay.fixmapPage + 1, phys)
  {
    forall i | 0 <= i < 4096 && ByPages(i, lay.fixmapPage, lay.fixmapPage + 1, phys)
      ensures !h.l1[p][i].Section?
    {
      assert i == lay.FixmapSlot();
    }
  }

  /** One turn of the copy loop, as far as blocks, frames and memory go. */
  ghost predicate FrameFilled(s: State, s': State, c: nat, src: nat, f: nat) {
    && c in s.pcbs && src in s.mem && f in s.refs
    && s' == s.(tables := s'.tables, mem := s.mem[f := s.mem[src]],
                pcbs := s.pcbs[c := s.pcbs[c].(pages := s.pcbs[c].pages + [f])],
                free := s.free - {f}, refs := s.refs[f := s.refs[f] + 1])
  }

  /** One turn of the copy loop: a frame taken, shown in the window, entered in the child, and filled. */
  lemma CopyStep(s0: State, s: State, s': State, p: nat, c: nat, k: nat, n: nat, f: nat)
    requires CopiedBelow(s0, s, p, c, k, n) && f in s.free
    requires FreeReady(s0, UserMap(s0.lay, s0.tables, s0.pcbs[p].pgtable))
    requires n in UserMap(s0.lay, s0.tables, s0.pcbs[p].pgtable)
    requires s0.pcbs[c].pgtable in s'.tables.l1 && s0.pcbs[p].pgtable in s'.tables.l1
    requires OpenBelow(s0.lay, s0.tables, s'.tables, s0.pcbs[p].pgtable, s0.pcbs[c].pgtable, k)
    requires UserMap(s0.lay, s'.tables, s0.pcbs[c].pgtable) == UserMap(s0.lay, s.tables, s0.pcbs[c].pgtable)[n := f]
    requires s'.tables.l1[s0.pcbs[p].pgtable][s0.lay.FixmapSlot()].Table?
    requires FrameFilled(s, s', c, UserMap(s0.lay, s0.tables, s0.pcbs[p].pgtable)[n], f)
    ensures CopiedBelow(s0, s', p, c, k, n + 1)
  {
    var lay, pr, cr := s0.lay, s0.pcbs[p].pgtable, s0.pcbs[c].pgtable;
    assert Taken(s0, s', c) by {
      TakenStep(s0, s, s', c, f);
    }
    CopyContents(s0, s, s', UserMap(lay, s0.tables, pr), UserMap(lay, s.tables, cr), c, n, f);
  }

  lemma CopyContents(s0: State, s: State, s': State, orig: map<nat, nat>, copy: map<nat, nat>, c: nat, n: nat, f: nat)
    requires Taken(s0, s, c) && FreeReady(s0, orig) && n in orig && f in s.free
    requires Cloned(s0.mem, s.mem, Below(orig, n), copy, s.pcbs[c].pages)
    requires FrameFilled(s, s', c, orig[n], f)
    ensures Cloned(s0.mem, s'.mem, Below(orig, n + 1), copy[n := f], s'.pcbs[c].pages)
  {
    ClonedStep(s0.mem, s.mem, s'.mem, orig, n, copy, s.pcbs[c].pages, f);
  }

  /** The parent's slots are, in the middle of the copy, what they were before it. */
  lemma ParentSlot(lay: Layout, h0: Heap, h: Heap, sys: nat, p: nat, c: nat, i: nat)
    requires lay.Valid() && RootOk(lay, h0, sys, p) && Open(lay, h0, h, p, c) && i < lay.kernelSlot
    ensures h.l1[p][i] == h0.l1[p][i]
    ensures h.l1[p][i] == Fault || (h.l1[p][i].Table? && h.l1[p][i].at in h.l2)
  {
  }

  lemma ParentEntry(lay: Layout, h0: Heap, h: Heap, sys: nat, p: nat, c: nat, i: nat, j: nat)
    requires lay.Valid() && RootOk(lay, h0, sys, p) && Open(lay, h0, h, p, c) && i < lay.kernelSlot && j < 256
    requires h.l1[p][i].Table?
    ensures h.l1[p][i].at in h.l2 && (h.l2[h.l1[p][i].at][j].Page? <==> 256 * i + j in UserMap(lay, h0, p))
  {
    var v := 256 * i + j;
    assert v / 256 == i && v % 256 == j && v < lay.UserPages();
    assert Translate(h0, p, v).Some? <==> h.l2[h.l1[p][i].at][j].Page?;
  }

  /** What the copy loop reads of the parent's table is what it was before the copy. */
  lemma CopiedFacts(s0: State, s: State, p: nat, c: nat, k: nat, n: nat)
    requires CopiedBelow(s0, s, p, c, k, n) && RootOk(s0.lay, s0.tables, s0.sys, s0.pcbs[p].pgtable) && k <= s0.lay.kernelSlot
    ensures p in s.pcbs && c in s.pcbs && s.pcbs[p].pgtable == s0.pcbs[p].pgtable && s.pcbs[c].pgtable == s0.pcbs[c].pgtable
    ensures s0.pcbs[p].pgtable in s0.tables.l1 && s0.pcbs[p].pgtable in s.tables.l1 && s0.pcbs[c].pgtable in s.tables.l1
    ensures s0.pcbs[p].pgtable != s0.pcbs[c].pgtable && s0.lay.kernelSlot <= 4096
    ensures forall i | 0 <= i < s0.lay.kernelSlot && i < 4096 ::
      var e := s.tables.l1[s0.pcbs[p].pgtable][i];
      e == s0.tables.l1[s0.pcbs[p].pgtable][i] && (e == Fault || (e.Table? && e.at in s.tables.l2))
  {
    hide UserMap, Translate, Cloned;
    forall i | 0 <= i < s0.lay.kernelSlot && i < 4096
      ensures var e := s.tables.l1[s0.pcbs[p].pgtable][i];
        e == s0.tables.l1[s0.pcbs[p].pgtable][i] && (e == Fault || (e.Table? && e.at in s.tables.l2))
    {
      ParentSlot(s0.lay, s0.tables, s.tables, s0.sys, s0.pcbs[p].pgtable, s0.pcbs[c].pgtable, i);
    }
  }

  /** An entry of the parent's table is present exactly when the page is one to copy. */
  lemma CopiedEntry(s0: State, s: State, p: nat, c: nat, k: nat, n: nat, i: nat, j: nat)
    requires CopiedBelow(s0, s, p, c, k, n) && RootOk(s0.lay, s0.tables, s0.sys, s0.pcbs[p].pgtable) && k <= s0.lay.kernelSlot
    requires i < s0.lay.kernelSlot && i < 4096 && j < 256 && s.tables.l1[s0.pcbs[p].pgtable][i].Table?
    ensures s.tables.l1[s0.pcbs[p].pgtable][i].at in s.tables.l2
    ensures s.tables.l2[s.tables.l1[s0.pcbs[p].pgtable][i].at][j].Page? <==> 256 * i + j in UserMap(s0.lay, s0.tables, s0.pcbs[p].pgtable)
  {
    hide UserMap, Translate, Cloned;
    ParentEntry(s0.lay, s0.tables, s.tables, s0.sys, s0.pcbs[p].pgtable, s0.pcbs[c].pgtable, i, j);
  }

  /** A page the parent does not map is skipped. */
  lemma SkipPage(s0: State, s: State, p: nat, c: nat, k: nat, n: nat)
    requires CopiedBelow(s0, s, p, c, k, n) && n !in UserMap(s0.lay, s0.tables, s0.pcbs[p].pgtable)
    ensures CopiedBelow(s0, s, p, c, k, n + 1)
  {
    BelowSkip(UserMap(s0.lay, s0.tables, s0.pcbs[p].pgtable), n);
  }

  /** A slot the parent does not use is skipped. */
  lemma SkipSlot(s0: State, s: State, p: nat, c: nat, i: nat)
    requires CopiedBelow(s0, s, p, c, i, 256 * i) && i < s0.lay.kernelSlot
    requires s0.tables.l1[s0.pcbs[p].pgtable][i] == Fault
    ensures CopiedBelow(s0, s, p, c, i + 1, 256 * i + 256)
  {
    hide Open, SameShape, SameBytes;
    var m := UserMap(s0.lay, s0.tables, s0.pcbs[p].pgtable);
    forall v | v in m && v < 256 * i + 256
      ensures v < 256 * i
    {
      assert Translate(s0.tables, s0.pcbs[p].pgtable, v).Some?;
    }
    assert Below(m, 256 * i + 256) == Below(m, 256 * i);
  }

  lemma OpenLive(lay: Layout, h0: Heap, h: Heap, p: nat, c: nat)
    requires Open(lay, h0, h, p, c)
    ensures Live(h, c) && Live(h, p) && p != c && c in h.l1 && p in h.l1 && lay.FixmapSlot() < 4096
  {
  }

  /** The child gets a blank table for the slot the loop has reached. */
  lemma SlotOpened(s0: State, s: State, s': State, p: nat, c: nat, i: nat, at: nat)
    requires CopiedBelow(s0, s, p, c, i, 256 * i) && i < s0.lay.kernelSlot && at !in s.tables.l2
    requires s0.tables.l1[s0.pcbs[p].pgtable][i].Table?
    requires var cr := s0.pcbs[c].pgtable;
      s' == s.(tables := Heap(s.tables.l1[cr := s.tables.l1[cr][i := Table(at)]], s.tables.l2[at := Blank()]))
    ensures CopiedBelow(s0, s', p, c, i + 1, 256 * i)
    ensures s'.tables.l1[s0.pcbs[c].pgtable][i].Table?
  {
    hide UserMap, Translate, Open, Cloned, Live;
    var cr := s0.pcbs[c].pgtable;
    assert s.tables.l1[cr][i] == Fault;
    OpenLive(s0.lay, s0.tables, s.tables, s0.pcbs[p].pgtable, cr);
    OpenSlot(s0.lay, s0.tables, s.tables, s'.tables, s0.pcbs[p].pgtable, cr, i, at);
    OpenSlotSees(s0.lay, s.tables, s'.tables, cr, i, at);
  }

  /** What the copy starts from: a parent in order, a child without user slots, and frames enough. */
  ghost predicate ReadyToCopy(s: State, p: nat, c: nat) {
    && s.lay.Valid() && p in s.pcbs && c in s.pcbs && p != c && s.pcbs[c].pages == []
    && RootOk(s.lay, s.tables, s.sys, s.pcbs[p].pgtable) && Live(s.tables, s.pcbs[p].pgtable)
    && s.tables.l1[s.pcbs[p].pgtable][s.lay.FixmapSlot()] == Fault
    && s.pcbs[c].pgtable in s.tables.l1 && s.pcbs[c].pgtable != s.pcbs[p].pgtable && s.pcbs[c].pgtable != s.sys
    && (forall i | 0 <= i < 4096 ::
          s.tables.l1[s.pcbs[c].pgtable][i] == if i < s.lay.kernelSlot then Fault else s.tables.l1[s.sys][i])
    && FreeReady(s, UserMap(s.lay, s.tables, s.pcbs[p].pgtable))
    && exists v :: v in UserMap(s.lay, s.tables, s.pcbs[p].pgtable)
  }

  /** What the copy ends with: the child is an address space of its own, and a clone of the parent's. */
  ghost predicate Duplicated(s0: State, s: State, p: nat, c: nat)
    requires ReadyToCopy(s0, p, c)
  {
    var cr := s0.pcbs[c].pgtable;
    && Taken(s0, s, c)
    && cr in s.tables.l1 && s.tables.l1 == s0.tables.l1[cr := s.tables.l1[cr]]
    && Rest(s0.lay, s.tables, cr) == s0.tables.l2
    && RootOk(s0.lay, s.tables, s0.sys, cr) && s.tables.l1[cr][s0.lay.FixmapSlot()] == Fault
    && Cloned(s0.mem, s.mem, UserMap(s0.lay, s0.tables, s0.pcbs[p].pgtable), UserMap(s0.lay, s.tables, cr), s.pcbs[c].pages)
  }

  lemma ChildLive(lay: Layout, h: Heap, sys: nat, c: nat)
    requires lay.Valid() && SysOk(lay, h, sys) && c in h.l1
    requires forall i | 0 <= i < 4096 :: h.l1[c][i] == if i < lay.kernelSlot then Fault else h.l1[sys][i]
    ensures Live(h, c) && h.l1[c][lay.FixmapSlot()] == Fault
    ensures UserMap(lay, h, c) == map[]
  {
    forall v | 0 <= v < lay.UserPages()
      ensures Translate(h, c, v) == None
    {
    }
  }

  lemma OpenAtStart(s: State, p: nat, c: nat)
    requires ReadyToCopy(s, p, c)
    ensures Open(s.lay, s.tables, s.tables, s.pcbs[p].pgtable, s.pcbs[c].pgtable)
  {
    hide UserMap, Translate, FreeReady;
    ChildLive(s.lay, s.tables, s.sys, s.pcbs[c].pgtable);
  }

  lemma StartCopy(s: State, p: nat, c: nat)
    requires ReadyToCopy(s, p, c)
    ensures CopiedBelow(s, s, p, c, 0, 0)
  {
    hide Separate, UserMap, Translate, RootOk, Open, Cloned, Taken, Below;
    BlankChild(s.lay, s.tables, s.pcbs[c].pgtable);
    OpenAtStart(s, p, c);
    BelowNothing(UserMap(s.lay, s.tables, s.pcbs[p].pgtable));
    ClonedNothing(s.mem);
    TakenNothing(s, c);
  }

  lemma ClonedNothing(mem: map<nat, Contents>)
    ensures Cloned(mem, mem, map[], map[], [])
  {
  }

  lemma TakenNothing(s: State, c: nat)
    requires c in s.pcbs && s.pcbs[c].pages == []
    ensures Taken(s, s, c)
  {
    assert s.refs == Recount(s.refs, [], []);
    assert s.pcbs == s.pcbs[c := s.pcbs[c].(pages := s.pcbs[c].pages)];
  }

  lemma BelowNothing(m: map<nat, nat>)
    ensures Below(m, 0) == map[]
  {
  }

  /** A table without user slots maps nothing in user space. */
  lemma BlankChild(lay: Layout, h: Heap, c: nat)
    requires lay.Valid() && c in h.l1 && forall i | 0 <= i < 4096 && i < lay.kernelSlot :: h.l1[c][i] == Fault
    ensures UserMap(lay, h, c) == map[]
  {
  }

  /** The user map ends where the loop does. */
  lemma BelowAll(lay: Layout, h: Heap, root: nat)
    requires root in h.l1 && lay.UserPages() <= PAGES
    ensures Below(UserMap(lay, h, root), 256 * lay.kernelSlot) == UserMap(lay, h, root)
  {
  }

  lemma WindowUsed(s0: State, s: State, p: nat, c: nat)
    requires ReadyToCopy(s0, p, c) && CopiedBelow(s0, s, p, c, s0.lay.kernelSlot, 256 * s0.lay.kernelSlot)
    ensures s.tables.l1[s0.pcbs[p].pgtable][s0.lay.FixmapSlot()].Table?
    ensures Cloned(s0.mem, s.mem, UserMap(s0.lay, s0.tables, s0.pcbs[p].pgtable),
                   UserMap(s0.lay, s.tables, s0.pcbs[c].pgtable), s.pcbs[c].pages)
  {
    hide Open, SlotsBelow, SameBytes, Translate, Live, RootOk;
    BelowAll(s0.lay, s0.tables, s0.pcbs[p].pgtable);
    var orig := UserMap(s0.lay, s0.tables, s0.pcbs[p].pgtable);
    assert |orig| > 0 by {
      var v :| v in orig;
      assert orig.Keys != {};
    }
  }

  /** The window is closed and the child complete. */
  lemma FinishCopy(s0: State, s: State, s': State, p: nat, c: nat)
    requires ReadyToCopy(s0, p, c) && CopiedBelow(s0, s, p, c, s0.lay.kernelSlot, 256 * s0.lay.kernelSlot)
    requires s' == s.(tables := s'.tables) && s0.pcbs[p].pgtable in s.tables.l1
    requires Unmapped(s.tables, s'.tables, s0.pcbs[p].pgtable, s0.lay.fixmapPage, s0.lay.fixmapPage + 1)
    ensures Duplicated(s0, s', p, c)
  {
    hide Live, SameBytes, UserMap, Translate, FreeReady, Unmapped, Fresh, Rest;
    var lay, pr, cr := s0.lay, s0.pcbs[p].pgtable, s0.pcbs[c].pgtable;
    WindowUsed(s0, s, p, c);
    WindowFreed(lay, s0.tables, s.tables, s'.tables, pr, cr);
    ChildLive(lay, s0.tables, s0.sys, cr);
    CloseWindow(lay, s0.tables, s.tables, s'.tables, pr, cr);
    ChildOk(lay, s0.tables, s'.tables, s0.sys, pr, cr);
  }

  lemma DuplicatedBlocks(s0: State, s: State, p: nat, c: nat)
    requires ReadyToCopy(s0, p, c) && Duplicated(s0, s, p, c)
    ensures c in s.pcbs
  {
  }
}
