/**
 Allocating the pages of an image one by one.
 */
module Imaging {
  import opened Wrappers
  import opened Tables
  import opened Space
  import opened Sequences
  import opened KernelState
  import opened Lifecycle
  import opened Copying
  import opened Forking

  /** Free frames are frames of the pool that nobody counts. */
  ghost predicate Uncounted(s: State) {
    forall f | f in s.free :: f in s.refs && s.refs[f] == 0 && f < PAGES
  }

  /** Only the pages and the size fields of a block differ. */
  predicate SameButSize(p: Pcb, p': Pcb) {
    p' == p.(pages := p'.pages, pageCount := p'.pageCount, stackTop := p'.stackTop,
             heapBase := p'.heapBase, heapPointer := p'.heapPointer)
  }

  /** The accounts after the process a, which had no pages, has got some. */
  ghost predicate Granted(s0: State, s: State, a: nat) {
    && a in s0.pcbs && a in s.pcbs && s0.pcbs[a].pages == []
    && s.pcbs == s0.pcbs[a := s.pcbs[a]] && SameButSize(s0.pcbs[a], s.pcbs[a])
    && Fresh(s0, [], s.pcbs[a].pages)
    && s.free == s0.free - Elements(s.pcbs[a].pages)
    && s.refs == Recount(s0.refs, [], s.pcbs[a].pages)
    && s == s0.(tables := s.tables, pcbs := s.pcbs, free := s.free, refs := s.refs)
  }

  /** The pages ps of root have been mapped to the frames fs, and no other address space has changed. */
  ghost predicate Placed(lay: Layout, h0: Heap, h: Heap, sys: nat, root: nat, ps: seq<nat>, fs: seq<nat>) {
    && lay.Valid() && root in h0.l1 && Local(lay, h0, h, root) && RootOk(lay, h, sys, root)
    && h.l1[root][lay.FixmapSlot()] == Fault
    && |ps| == |fs| && UserMap(lay, h, root) == Assign(UserMap(lay, h0, root), ps, fs)
  }

  ghost predicate Allocated(s0: State, s: State, a: nat, ps: seq<nat>) {
    Granted(s0, s, a) && Placed(s0.lay, s0.tables, s.tables, s0.sys, s0.pcbs[a].pgtable, ps, s.pcbs[a].pages)
  }

  lemma AssignStep(m: map<nat, nat>, ps: seq<nat>, fs: seq<nat>, p: nat, f: nat)
    requires |ps| == |fs|
    ensures Assign(m, ps + [p], fs + [f]) == Assign(m, ps, fs)[p := f]
  {
    assert (ps + [p])[..|ps|] == ps && (fs + [f])[..|fs|] == fs;
  }

  lemma GrantedStep(s0: State, s: State, s': State, a: nat, f: nat)
    requires Uncounted(s0) && Granted(s0, s, a) && f in s.free
    requires s' == s.(tables := s'.tables, pcbs := s.pcbs[a := s.pcbs[a].(pages := s.pcbs[a].pages + [f])],
                      free := s.free - {f}, refs := s.refs[f := s.refs[f] + 1])
    ensures Granted(s0, s', a)
  {
    assert Elements(s'.pcbs[a].pages) == Elements(s.pcbs[a].pages) + {f};
    assert s'.refs == Recount(s0.refs, [], s'.pcbs[a].pages);
  }

  /** A user page lies in a private slot, and one page never makes a section. */
  lemma UserPagePrivate(lay: Layout, v: nat, phys: nat)
    requires lay.Valid() && v < lay.UserPages()
    ensures PrivateRange(lay, v, v + 1, phys)
    ensures !Covered(lay.FixmapSlot(), v, v + 1)
  {
  }

  lemma PlacedStep(lay: Layout, h0: Heap, h: Heap, h': Heap, sys: nat, root: nat, ps: seq<nat>, fs: seq<nat>, v: nat, f: nat)
    requires Placed(lay, h0, h, sys, root, ps, fs) && v < lay.UserPages() && f < PAGES
    requires Mapped(h, h', root, v, v + 1, f * PAGE_SIZE)
    ensures Placed(lay, h0, h', sys, root, ps + [v], fs + [f])
  {
    UserPagePrivate(lay, v, f * PAGE_SIZE);
    assert Local(lay, h, h', root) && RootOk(lay, h', sys, root) by {
      MappedPrivate(lay, h, h', sys, root, v, v + 1, f * PAGE_SIZE);
    }
    LocalTrans(lay, h0, h, h', root);
    assert h'.l1[root][lay.FixmapSlot()] == Fault by {
      assert SlotMapped(h, h', root, lay.FixmapSlot(), v, v + 1, f * PAGE_SIZE);
    }
    UserMapStep(lay, h, h', root, v, f);
    AssignStep(UserMap(lay, h0, root), ps, fs, v, f);
  }

  lemma UserMapStep(lay: Layout, h: Heap, h': Heap, root: nat, v: nat, f: nat)
    requires lay.Valid() && Live(h, root) && v < lay.UserPages() && f < PAGES
    requires Mapped(h, h', root, v, v + 1, f * PAGE_SIZE) && Mappable(h, root, v, v + 1, f * PAGE_SIZE)
    ensures UserMap(lay, h', root) == UserMap(lay, h, root)[v := f]
  {
    forall w | 0 <= w < lay.UserPages()
      ensures Translate(h', root, w) == if w == v then Some(f) else Translate(h, root, w)
    {
      MappedIsFlatUpdate(h, h', root, v, v + 1, f * PAGE_SIZE, w);
    }
    assert UserMap(lay, h', root).Keys == UserMap(lay, h, root).Keys + {v};
  }

  /** A private slot never holds a section, so a user page can always be mapped. */
  lemma UserPageMappable(lay: Layout, h: Heap, sys: nat, root: nat, v: nat, phys: nat)
    requires lay.Valid() && RootOk(lay, h, sys, root) && v < lay.UserPages()
    ensures Live(h, root) && Mappable(h, root, v, v + 1, phys)
  {
    UserPagePrivate(lay, v, phys);
  }

  lemma AllocatedStep(s0: State, s: State, s': State, a: nat, ps: seq<nat>, v: nat, f: nat)
    requires Uncounted(s0) && Allocated(s0, s, a, ps) && f in s.free && v < s0.lay.UserPages()
    requires s' == s.(tables := s'.tables, pcbs := s.pcbs[a := s.pcbs[a].(pages := s.pcbs[a].pages + [f])],
                      free := s.free - {f}, refs := s.refs[f := s.refs[f] + 1])
    requires s0.pcbs[a].pgtable in s.tables.l1
    requires Mapped(s.tables, s'.tables, s0.pcbs[a].pgtable, v, v + 1, f * PAGE_SIZE)
    ensures Allocated(s0, s', a, ps + [v])
  {
    hide UserMap, RootOk, Local, Mapped, Translate;
    GrantedStep(s0, s, s', a, f);
    PlacedStep(s0.lay, s0.tables, s.tables, s'.tables, s0.sys, s0.pcbs[a].pgtable, ps, s.pcbs[a].pages, v, f);
  }

  lemma AllocatedNothing(s: State, a: nat)
    requires s.lay.Valid() && a in s.pcbs && s.pcbs[a].pages == []
    requires RootOk(s.lay, s.tables, s.sys, s.pcbs[a].pgtable) && s.pcbs[a].pgtable in s.tables.l1
    requires s.tables.l1[s.pcbs[a].pgtable][s.lay.FixmapSlot()] == Fault
    ensures Allocated(s, s, a, [])
  {
    hide UserMap, RootOk, Translate;
    assert s.pcbs == s.pcbs[a := s.pcbs[a]];
    assert s.refs == Recount(s.refs, [], []);
  }

  lemma RangeStep(first: nat, n: nat)
    ensures Range(first, n + 1) == Range(first, n) + [first + n]
  {
  }

  /** The size fields of the block may be set at any time. */
  lemma AllocatedFields(s0: State, s: State, s': State, a: nat, ps: seq<nat>)
    requires Allocated(s0, s, a, ps) && a in s'.pcbs && s' == s.(pcbs := s.pcbs[a := s'.pcbs[a]])
    requires SameButSize(s.pcbs[a], s'.pcbs[a]) && s'.pcbs[a].pages == s.pcbs[a].pages
    ensures Allocated(s0, s', a, ps)
  {
  }

  /** What a process owns is counted once. */
  lemma OwnedOnce(s: State, a: nat)
    requires ListOk(s) && FramesOk(s) && a in s.pcbs
    ensures Distinct(s.pcbs[a].pages)
    ensures forall f | f in s.pcbs[a].pages :: f in s.refs && s.refs[f] == 1 && f !in s.free
  {
    PageLists(s, a);
    OwnersMember(s.pcbs, s.procList, a);
    forall f | f in s.pcbs[a].pages
      ensures s.refs[f] == 1
    {
      assert multiset(s.pcbs[a].pages)[f] >= 1;
    }
  }

  /** The image of a process is gone: its frames are free and its user slots empty. */
  ghost predicate Emptied(s: State, s': State, a: nat) {
    && a in s.pcbs && a in s'.pcbs && s'.pcbs == s.pcbs[a := s'.pcbs[a]]
    && SameButSize(s.pcbs[a], s'.pcbs[a]) && s'.pcbs[a].pages == []
    && s'.free == s.free + Elements(s.pcbs[a].pages) && s'.refs == Recount(s.refs, s.pcbs[a].pages, [])
    && EmptiedSpace(s.lay, s.tables, s'.tables, s.sys, s.pcbs[a].pgtable)
    && s' == s.(tables := s'.tables, pcbs := s'.pcbs, free := s'.free, refs := s'.refs)
  }

  ghost predicate EmptiedSpace(lay: Layout, h: Heap, h': Heap, sys: nat, root: nat) {
    && lay.Valid() && root in h.l1 && Local(lay, h, h', root) && RootOk(lay, h', sys, root)
    && h'.l1[root][lay.FixmapSlot()] == Fault && UserMap(lay, h', root) == map[]
  }

  /** What emptying the image of a live process relies on. */
  lemma EmptyReady(s: State, a: nat)
    requires StateOk(s) && a in s.pcbs && Alive(s.pcbs[a])
    ensures s.lay.Valid() && RootOk(s.lay, s.tables, s.sys, s.pcbs[a].pgtable) && Live(s.tables, s.pcbs[a].pgtable)
    ensures s.pcbs[a].pgtable in s.tables.l1 && s.sys in s.tables.l1 && s.pcbs[a].pgtable != s.sys
    ensures s.tables.l1[s.pcbs[a].pgtable][s.lay.FixmapSlot()] == Fault
    ensures Distinct(s.pcbs[a].pages) && forall f | f in s.pcbs[a].pages :: f in s.refs && s.refs[f] == 1
  {
    hide UserMap, Translate, MapsOk, ForestOk, Live, Own, Owners;
    HasTable(s, a);
    RootLive(s.lay, s.tables, s.sys, s.pcbs[a].pgtable);
    OwnedOnce(s, a);
  }

  lemma EmptiedReady(s: State, s': State, a: nat)
    requires StateOk(s) && Emptied(s, s', a)
    ensures Uncounted(s') && Allocated(s', s', a, [])
    ensures |s'.free| == |s.free| + |s.pcbs[a].pages|
    ensures s'.pcbs[a].pgtable in s'.tables.l1 && UserMap(s.lay, s'.tables, s'.pcbs[a].pgtable) == map[]
    ensures forall f | 0 <= f < PAGES :: f in s.mem
  {
    hide UserMap, RootOk, TablesOk, Translate, MapsOk;
    assert Allocated(s', s', a, []) by {
      AllocatedNothing(s', a);
    }
    assert Uncounted(s') && |s'.free| == |s.free| + |s.pcbs[a].pages| by {
      OwnedOnce(s, a);
      DistinctSize(s.pcbs[a].pages);
      assert s.free !! Elements(s.pcbs[a].pages);
    }
  }

  /** Emptying a process and giving it the pages of an image is an exec. */
  lemma ImageIsExec(s: State, s1: State, s2: State, s3: State, a: nat, entry: nat, code: nat)
    requires a in s.pcbs && Alive(s.pcbs[a]) && Emptied(s, s1, a)
    requires s.lay.Valid() && Allocated(s1, s2, a, ImagePages(s.lay, entry, code))
    requires s3 == s2.(mem := s3.mem) && s3.mem.Keys == s.mem.Keys
    requires forall f | f in s.mem && f !in s2.pcbs[a].pages :: s3.mem[f] == s.mem[f]
    requires var p := s2.pcbs[a];
      p.pageCount == |p.pages| && p.stackTop == s.lay.argsPage * PAGE_SIZE
      && p.heapBase == p.heapPointer == (s.lay.stackPages + code + 1) * PAGE_SIZE
    ensures ExecStep(s, s3, a, entry, code, s3.pcbs[a].pages)
  {
    hide UserMap, RootOk, Translate, Rest;
    LocalTrans(s.lay, s.tables, s1.tables, s2.tables, s.pcbs[a].pgtable);
    assert s3.refs == Recount(s.refs, s.pcbs[a].pages, s3.pcbs[a].pages);
    assert s3.pcbs == s.pcbs[a := s3.pcbs[a]];
  }

  /** The arguments page of a new image is mapped, to a frame of the process. */
  lemma AllocatedArgs(s1: State, s2: State, a: nat, entry: nat, code: nat)
    requires s1.lay.Valid() && a in s1.pcbs && a in s2.pcbs && Uncounted(s1)
    requires s1.pcbs[a].pgtable in s1.tables.l1 && UserMap(s1.lay, s1.tables, s1.pcbs[a].pgtable) == map[]
    requires Allocated(s1, s2, a, ImagePages(s1.lay, entry, code))
    ensures s2.pcbs[a].pgtable in s2.tables.l1
    ensures Translate(s2.tables, s2.pcbs[a].pgtable, s1.lay.argsPage).Some?
    ensures Translate(s2.tables, s2.pcbs[a].pgtable, s1.lay.argsPage).value in s2.pcbs[a].pages
    ensures Translate(s2.tables, s2.pcbs[a].pgtable, s1.lay.argsPage).value < PAGES
    ensures |s2.pcbs[a].pages| == |ImagePages(s1.lay, entry, code)|
  {
    hide RootOk, Translate;
    var ps := ImagePages(s1.lay, entry, code);
    assert ps[|ps| - 1] == s1.lay.argsPage;
    AssignLookup(map[], ps, s2.pcbs[a].pages, s1.lay.argsPage);
    UserMapLookup(s1.lay, s2.tables, s2.pcbs[a].pgtable, s1.lay.argsPage);
  }

  /** What the next turn of an allocation loop may rely on. */
  lemma AllocatedFacts(s0: State, s: State, a: nat, ps: seq<nat>)
    requires Uncounted(s0) && Allocated(s0, s, a, ps)
    ensures s0.lay.Valid() && a in s.pcbs && a in s0.pcbs && s.pcbs[a].pgtable == s0.pcbs[a].pgtable
    ensures s.pcbs[a].pgtable in s.tables.l1 && RootOk(s0.lay, s.tables, s0.sys, s.pcbs[a].pgtable)
    ensures forall f | f in s.free :: f in s.refs && f < PAGES
  {
  }

  lemma SysLive(s: State)
    requires StateOk(s)
    ensures s.lay.Valid() && s.sys in s.tables.l1
  {
  }

  /** A new boot process, with nothing but the kernel mapped, is ready for its stack. */
  lemma BlankRoot(s: State, s1: State, a: nat)
    requires StateOk(s) && BlankAdded(s, s1, a)
    ensures Uncounted(s1) && Allocated(s1, s1, a, [])
    ensures UserMap(s.lay, s1.tables, s1.pcbs[a].pgtable) == map[]
    ensures Rest(s.lay, s1.tables, s1.pcbs[a].pgtable) == s.tables.l2
  {
    hide UserMap, Translate, MapsOk, ForestOk;
    var root := s1.pcbs[a].pgtable;
    assert SysOk(s.lay, s1.tables, s.sys);
    ChildLive(s.lay, s1.tables, s.sys, root);
    assert Own(s.lay, s1.tables, root) == {};
    assert RootOk(s.lay, s1.tables, s.sys, root);
    AllocatedNothing(s1, a);
  }

  /** The boot image is smaller than a megabyte, so it is mapped by pages, all in user slots. */
  lemma ImageRange(lay: Layout)
    requires lay.Valid()
    ensures PrivateRange(lay, lay.userPage, lay.userPage + lay.imagePages, lay.imageFrame * PAGE_SIZE)
    ensures !Covered(lay.FixmapSlot(), lay.userPage, lay.userPage + lay.imagePages)
  {
  }

  lemma ImageMappable(s1: State, s2: State, a: nat)
    requires s1.lay.Valid() && Allocated(s1, s2, a, Range(s1.lay.argsPage - s1.lay.stackPages, s1.lay.stackPages))
    ensures a in s2.pcbs && s2.pcbs[a].pgtable == s1.pcbs[a].pgtable && s2.pcbs[a].pgtable in s2.tables.l1
    ensures Live(s2.tables, s1.pcbs[a].pgtable)
    ensures Mappable(s2.tables, s1.pcbs[a].pgtable, s1.lay.userPage, s1.lay.userPage + s1.lay.imagePages, s1.lay.imageFrame * PAGE_SIZE)
  {
    hide UserMap, Translate;
    ImageRange(s1.lay);
  }

  /** Mapping a range to consecutive frames is assigning its pages one by one. */
  lemma {:induction false} AssignRange(m: map<nat, nat>, first: nat, frame: nat, n: nat, v: nat)
    ensures v in Assign(m, Range(first, n), Range(frame, n)) <==> v in m || first <= v < first + n
    ensures v in Assign(m, Range(first, n), Range(frame, n)) ==>
      Assign(m, Range(first, n), Range(frame, n))[v] == if first <= v < first + n then frame + (v - first) else m[v]
  {
    if n > 0 {
      AssignRange(m, first, frame, n - 1, v);
      assert Range(first, n)[..n - 1] == Range(first, n - 1);
      assert Range(frame, n)[..n - 1] == Range(frame, n - 1);
    }
  }

  lemma RangeFrame(frame: nat, k: nat)
    requires frame + k < PAGES
    ensures frame * PAGE_SIZE < SPACE && FrameNo(frame * PAGE_SIZE, k) == frame + k
  {
  }

  lemma UserMapRange(lay: Layout, h: Heap, h': Heap, root: nat, first: nat, n: nat, frame: nat)
    requires lay.Valid() && Live(h, root) && 0 < n && first + n <= lay.UserPages() && frame + n <= PAGES
    requires Mapped(h, h', root, first, first + n, frame * PAGE_SIZE) && Mappable(h, root, first, first + n, frame * PAGE_SIZE)
    ensures UserMap(lay, h', root) == Assign(UserMap(lay, h, root), Range(first, n), Range(frame, n))
  {
    assert root in h'.l1;
    hide Assign, Mapped, Mappable, Translate, Range, Live, Layout.Valid, FrameNo;
    var m, m' := Assign(UserMap(lay, h, root), Range(first, n), Range(frame, n)), UserMap(lay, h', root);
    forall v: nat
      ensures (v in m' <==> v in m) && (v in m' ==> m'[v] == m[v])
    {
      AssignRange(UserMap(lay, h, root), first, frame, n, v);
      if v < lay.UserPages() {
        if first <= v < first + n {
          RangeFrame(frame, v - first);
        }
        RangeFrame(frame, 0);
        MappedIsFlatUpdate(h, h', root, first, first + n, frame * PAGE_SIZE, v);
      }
    }
    hide UserMap;
    assert m.Keys == m'.Keys;
  }

  /** A stack and the boot image make a boot process. */
  lemma BootIsCreate(s: State, s1: State, s2: State, s3: State, s4: State, a: nat)
    requires s.lay.Valid() && BlankAdded(s, s1, a) && a in s4.pcbs
    requires UserMap(s.lay, s1.tables, s1.pcbs[a].pgtable) == map[]
    requires Rest(s.lay, s1.tables, s1.pcbs[a].pgtable) == s.tables.l2
    requires s1.pcbs[a] == Pcb(s.nextPid, None, New, false, s1.pcbs[a].pgtable, [], s.lay.stackPages,
                               s.lay.argsPage * PAGE_SIZE, 0, 0, 0)
    requires Allocated(s1, s2, a, Range(s.lay.argsPage - s.lay.stackPages, s.lay.stackPages))
    requires s2.pcbs[a] == s1.pcbs[a].(pages := s2.pcbs[a].pages)
    requires s1.pcbs[a].pgtable in s2.tables.l1 && s3 == s2.(tables := s3.tables)
    requires Mapped(s2.tables, s3.tables, s1.pcbs[a].pgtable, s.lay.userPage, s.lay.userPage + s.lay.imagePages,
                    s.lay.imageFrame * PAGE_SIZE)
    requires s4 == s3.(pcbs := s3.pcbs[a := s3.pcbs[a].(mainThread := true, state := Ready)])
    ensures CreateRootStep(s, s4, a, s4.pcbs[a].pages)
  {
    hide UserMap, Translate, RootOk, Mapped, Mappable, Own;
    var root := s1.pcbs[a].pgtable;
    BootSpace(s.lay, s2.tables, s3.tables, s.sys, root);
    LocalTrans(s.lay, s1.tables, s2.tables, s3.tables, root);
    assert s4.pcbs == s.pcbs[a := s4.pcbs[a]];
  }

  lemma BootSpace(lay: Layout, h: Heap, h': Heap, sys: nat, root: nat)
    requires lay.Valid() && root in h.l1 && RootOk(lay, h, sys, root) && h.l1[root][lay.FixmapSlot()] == Fault
    requires Mapped(h, h', root, lay.userPage, lay.userPage + lay.imagePages, lay.imageFrame * PAGE_SIZE)
    ensures Local(lay, h, h', root) && RootOk(lay, h', sys, root) && h'.l1[root][lay.FixmapSlot()] == Fault
    ensures UserMap(lay, h', root)
         == Assign(UserMap(lay, h, root), Range(lay.userPage, lay.imagePages), Range(lay.imageFrame, lay.imagePages))
  {
    hide UserMap, Translate;
    var first, last, phys := lay.userPage, lay.userPage + lay.imagePages, lay.imageFrame * PAGE_SIZE;
    ImageRange(lay);
    MappedPrivate(lay, h, h', sys, root, first, last, phys);
    UserMapRange(lay, h, h', root, first, lay.imagePages, lay.imageFrame);
    assert h'.l1[root][lay.FixmapSlot()] == Fault by {
      assert SlotMapped(h, h', root, lay.FixmapSlot(), first, last, phys);
    }
  }
}
