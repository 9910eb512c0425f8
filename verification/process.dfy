/**
 The process code: it changes process control blocks, the frame pool and memory in place, and
 the page tables through the page-table code.
 */
module ProcessCode {
  import opened Wrappers
  import opened Tables
  import opened Space
  import opened Sequences
  import opened KernelState
  import opened MmuCode
  import opened Window
  import opened Copying
  import opened Lifecycle
  import opened Forking
  import opened Imaging
  import opened ArgPage

  lemma OnePage(page: nat)
    requires page < PAGES
    ensures page * PAGE_SIZE + PAGE_SIZE <= SPACE
    ensures page * PAGE_SIZE / PAGE_SIZE == page && LastPage(page * PAGE_SIZE, PAGE_SIZE) == page + 1
    ensures page * PAGE_SIZE < SPACE
  {
  }

  lemma ManyPages(page: nat, n: nat)
    requires page + n <= PAGES
    ensures page * PAGE_SIZE / PAGE_SIZE == page && page * PAGE_SIZE + n * PAGE_SIZE <= SPACE
    ensures LastPage(page * PAGE_SIZE, n * PAGE_SIZE) == page + n
  {
  }

  lemma Aligned(page: nat)
    ensures page * PAGE_SIZE / PAGE_SIZE == page && page * PAGE_SIZE % PAGE_SIZE == 0
  {
  }

  /** A page mapped at an address takes up one page of the table exactly when the address is aligned. */
  lemma OnePageWhenAligned(virtAddr: nat)
    ensures LastPage(virtAddr, PAGE_SIZE) == virtAddr / PAGE_SIZE + 1 <==> virtAddr % PAGE_SIZE == 0
    ensures LastPage(virtAddr, PAGE_SIZE) <= virtAddr / PAGE_SIZE + 2
  {
  }

  /**
   A frame mapped at an address stands for the page there and for no other exactly when the address
   is aligned, or the next page is by chance mapped already to the frame that follows.
   */
  lemma OneFrame(h: Heap, h': Heap, root: nat, virtAddr: nat, f: nat)
    requires Live(h, root) && virtAddr + PAGE_SIZE <= SPACE && f < PAGES
    requires Mappable(h, root, virtAddr / PAGE_SIZE, LastPage(virtAddr, PAGE_SIZE), f * PAGE_SIZE)
    requires Mapped(h, h', root, virtAddr / PAGE_SIZE, LastPage(virtAddr, PAGE_SIZE), f * PAGE_SIZE)
    ensures LastPage(virtAddr, PAGE_SIZE) <= PAGES
    ensures var v := virtAddr / PAGE_SIZE;
      (forall page | 0 <= page < PAGES :: Translate(h', root, page) == if page == v then Some(f) else Translate(h, root, page))
      <==> virtAddr % PAGE_SIZE == 0 || Translate(h, root, v + 1) == Some((f + 1) % PAGES)
  {
    hide SlotMapped, Mappable, Translate, Separate, FrameNo;
    var v, last := virtAddr / PAGE_SIZE, LastPage(virtAddr, PAGE_SIZE);
    OnePageWhenAligned(virtAddr);
    RangeFrames(f);
    forall page | 0 <= page < PAGES
      ensures Translate(h', root, page) ==
              if v <= page < last then Some(FrameNo(f * PAGE_SIZE, page - v)) else Translate(h, root, page)
    {
      MappedIsFlatUpdate(h, h', root, v, last, f * PAGE_SIZE, page);
    }
  }

  lemma RangeFrames(f: nat)
    requires f < PAGES
    ensures f * PAGE_SIZE < SPACE && FrameNo(f * PAGE_SIZE, 0) == f && FrameNo(f * PAGE_SIZE, 1) == (f + 1) % PAGES
  {
  }

  /** There are arguments, so that the name of the program does not stand in for them. */
  predicate Given(argv: Option<seq<CStr>>) {
    argv.Some? && argv.value != []
  }

  class Kernel {
    const lay: Layout
    const sys: nat
    const pool: set<nat>
    const mmu: Mmu
    var pcbs: map<nat, Pcb>
    var procList: seq<nat>
    var pidCurrent: nat
    var free: set<nat>
    var refs: map<nat, nat>
    var mem: map<nat, Contents>

    /** The block of the running process, whose page table is the current one. */
    var current: nat

    /** The kernel has booted: its own tables stand, and all frames of the pool are free. */
    constructor (lay: Layout, sys: nat, boot: Heap, pool: set<nat>, mem: map<nat, Contents>)
      requires PoolOk(State(lay, sys, boot, map[], [], 1, pool, pool, map[], mem)) && TablesOk(lay, boot, sys, {})
      ensures Init(S()) && Wired() && fresh(mmu)
      ensures S() == State(lay, sys, boot, map[], [], 1, pool, pool, map f | f in pool :: 0, mem)
    {
      this.lay, this.sys, this.pool := lay, sys, pool;
      mmu := new Mmu(lay, sys, boot);
      pcbs, procList, pidCurrent, current := map[], [], 1, 0;
      free, refs, this.mem := pool, map f | f in pool :: 0, mem;
    }

    function S(): State
      reads this, mmu
    {
      State(lay, sys, mmu.V(), pcbs, procList, pidCurrent, pool, free, refs, mem)
    }

    ghost predicate Wired() {
      lay.Valid() && mmu.lay == lay && mmu.sys == sys
    }

    /** The caller has checked that a frame is left; the kernel stops otherwise. */
    method GetFreePage() returns (f: nat)
      requires free != {}
      modifies this
      ensures f in old(free) && S() == old(S()).(free := old(free) - {f}) && current == old(current)
    {
      f :| f in free;
      free := free - {f};
    }

    method FreePage(f: nat)
      modifies this
      ensures S() == old(S()).(free := old(free) + {f}) && current == old(current)
    {
      free := free + {f};
    }

    method AddPageToProc(a: nat, f: nat)
      requires a in pcbs && f in refs
      modifies this
      ensures current == old(current)
      ensures S() == old(S()).(pcbs := old(pcbs)[a := old(pcbs)[a].(pages := old(pcbs)[a].pages + [f])],
                               refs := old(refs)[f := old(refs)[f] + 1])
    {
      refs := refs[f := refs[f] + 1];
      pcbs := pcbs[a := pcbs[a].(pages := pcbs[a].pages + [f])];
    }

    /** A frame is shown in the parent's window. */
    method ShowInWindow(pr: nat, cr: nat, f: nat, ghost h0: Heap, ghost k: nat)
      requires lay.Valid() && f < PAGES && OpenBelow(lay, h0, mmu.V(), pr, cr, k)
      modifies mmu
      ensures OpenBelow(lay, h0, mmu.V(), pr, cr, k) && pr in mmu.l1 && cr in mmu.l1
      ensures mmu.l1[cr] == old(mmu.l1[cr]) && UserMap(lay, mmu.V(), cr) == UserMap(lay, old(mmu.V()), cr)
      ensures mmu.l1[pr][lay.FixmapSlot()].Table? && Translate(mmu.V(), pr, lay.fixmapPage) == Some(f)
    {
      hide Open, SlotsBelow, Mapped, Mappable, UserMap, Translate, Live, LastPage;
      OnePage(lay.fixmapPage);
      OnePage(f);
      OpenLive(lay, h0, mmu.V(), pr, cr);
      WindowMappable(lay, h0, mmu.V(), pr, cr, f * PAGE_SIZE);
      mmu.CreateMapping(pr, lay.fixmapPage * PAGE_SIZE, f * PAGE_SIZE, PAGE_SIZE);
      ShowBelow(lay, h0, old(mmu.V()), mmu.V(), pr, cr, k, f);
    }

    /** A frame is entered in the child's table. */
    method EnterPage(pr: nat, cr: nat, i: nat, j: nat, f: nat, ghost h0: Heap)
      requires lay.Valid() && i < lay.kernelSlot && j < 256
      requires OpenBelow(lay, h0, mmu.V(), pr, cr, i + 1) && mmu.l1[cr][i].Table?
      modifies mmu
      ensures OpenBelow(lay, h0, mmu.V(), pr, cr, i + 1) && pr in mmu.l1 && cr in mmu.l1
      ensures mmu.l1 == old(mmu.l1) && UserMap(lay, mmu.V(), cr) == UserMap(lay, old(mmu.V()), cr)[256 * i + j := f]
      ensures Translate(mmu.V(), pr, lay.fixmapPage) == Translate(old(mmu.V()), pr, lay.fixmapPage)
    {
      var at := mmu.l1[cr][i].at;
      mmu.l2 := mmu.l2[at := mmu.l2[at][j := Page(f)]];
      EnterBelow(lay, h0, old(mmu.V()), mmu.V(), pr, cr, i, j, f);
    }

    /** memcpy of one page, through the table at root. */
    method CopyThrough(root: nat, dst: nat, src: nat)
      requires root in mmu.l1 && dst < PAGES && src < PAGES
      requires Translate(mmu.V(), root, dst).Some? && Translate(mmu.V(), root, src).Some?
      requires Translate(mmu.V(), root, src).value in mem
      modifies this
      ensures S() == old(S()).(mem := old(mem)[Translate(mmu.V(), root, dst).value := old(mem)[Translate(mmu.V(), root, src).value]])
      ensures current == old(current)
    {
      mem := mem[Translate(mmu.V(), root, dst).value := mem[Translate(mmu.V(), root, src).value]];
    }

    /** A frame is taken from the pool and put on a page list. */
    method TakeFrame(c: nat) returns (f: nat)
      requires free != {} && c in pcbs && forall g | g in free :: g in refs
      modifies this
      ensures f in old(free) && current == old(current)
      ensures S() == old(S()).(free := old(free) - {f}, refs := old(refs)[f := old(refs)[f] + 1],
                               pcbs := old(pcbs)[c := old(pcbs)[c].(pages := old(pcbs)[c].pages + [f])])
    {
      f := GetFreePage();
      AddPageToProc(c, f);
    }

    /** A frame becomes the child's copy of one page. */
    method FillPage(pr: nat, cr: nat, i: nat, j: nat, f: nat, ghost h0: Heap)
      requires lay.Valid() && i < lay.kernelSlot && j < 256 && f < PAGES && Live(h0, pr)
      requires OpenBelow(lay, h0, mmu.V(), pr, cr, i + 1) && mmu.l1[cr][i].Table?
      requires 256 * i + j in UserMap(lay, h0, pr) && UserMap(lay, h0, pr)[256 * i + j] in mem
      modifies this, mmu
      ensures OpenBelow(lay, h0, mmu.V(), pr, cr, i + 1) && pr in mmu.l1 && cr in mmu.l1 && mmu.l1[cr] == old(mmu.l1[cr])
      ensures UserMap(lay, mmu.V(), cr) == UserMap(lay, old(mmu.V()), cr)[256 * i + j := f]
      ensures mmu.l1[pr][lay.FixmapSlot()].Table? && current == old(current)
      ensures S() == old(S()).(tables := mmu.V(), mem := old(mem)[f := old(mem)[UserMap(lay, h0, pr)[256 * i + j]]])
    {
      hide Open, Live, SlotsBelow, UserMap, Translate;
      ShowInWindow(pr, cr, f, h0, i + 1);
      EnterPage(pr, cr, i, j, f, h0);
      ParentSees(lay, h0, mmu.V(), pr, cr);
      UserMapLookup(lay, mmu.V(), pr, 256 * i + j);
      CopyThrough(pr, lay.fixmapPage, 256 * i + j);
    }

    /** The body of the copy loop for one mapped page. */
    method CopyPage(p: nat, c: nat, i: nat, j: nat, ghost s0: State)
      requires i < lay.kernelSlot && j < 256 && lay == s0.lay
      requires CopiedBelow(s0, S(), p, c, i + 1, 256 * i + j) && Live(s0.tables, s0.pcbs[p].pgtable)
      requires FreeReady(s0, UserMap(s0.lay, s0.tables, s0.pcbs[p].pgtable))
      requires 256 * i + j in UserMap(s0.lay, s0.tables, s0.pcbs[p].pgtable)
      requires mmu.l1[s0.pcbs[c].pgtable][i].Table?
      modifies this, mmu
      ensures CopiedBelow(s0, S(), p, c, i + 1, 256 * i + j + 1) && s0.pcbs[c].pgtable in mmu.l1
      ensures mmu.l1[s0.pcbs[c].pgtable] == old(mmu.l1[s0.pcbs[c].pgtable]) && current == old(current)
    {
      hide Open, Live, SlotsBelow, SameShape, UserMap, Translate;
      var pr, cr, v := pcbs[p].pgtable, pcbs[c].pgtable, 256 * i + j;
      ghost var s, h0 := S(), s0.tables;
      TakenSize(s0, s, c, UserMap(lay, h0, pr), v, UserMap(lay, s.tables, cr));
      var f := TakeFrame(c);
      FillPage(pr, cr, i, j, f, h0);
      CopyStep(s0, s, S(), p, c, i + 1, v, f);
    }

    /** The inner loop of the copy: one slot of the parent. */
    method DuplicateSlot(p: nat, c: nat, i: nat, ghost s0: State)
      requires i < lay.kernelSlot && lay == s0.lay && sys == s0.sys
      requires CopiedBelow(s0, S(), p, c, i, 256 * i)
      requires RootOk(lay, s0.tables, sys, s0.pcbs[p].pgtable) && Live(s0.tables, s0.pcbs[p].pgtable)
      requires FreeReady(s0, UserMap(s0.lay, s0.tables, s0.pcbs[p].pgtable))
      modifies this, mmu
      ensures CopiedBelow(s0, S(), p, c, i + 1, 256 * i + 256) && current == old(current)
    {
      hide CopiedBelow, Live, UserMap, FreeReady, RootOk;
      CopiedFacts(s0, S(), p, c, i, 256 * i);
      var pr, cr := pcbs[p].pgtable, pcbs[c].pgtable;
      if mmu.l1[pr][i] == Fault {
        SkipSlot(s0, S(), p, c, i);
      } else {
        ghost var s := S();
        var at := mmu.NewL2();
        mmu.l1 := mmu.l1[cr := mmu.l1[cr][i := Table(at)]];
        SlotOpened(s0, s, S(), p, c, i, at);
        for j := 0 to 256
          invariant CopiedBelow(s0, S(), p, c, i + 1, 256 * i + j) && current == old(current)
          invariant cr in mmu.l1 && mmu.l1[cr][i].Table?
        {
          CopiedFacts(s0, S(), p, c, i + 1, 256 * i + j);
          CopiedEntry(s0, S(), p, c, i + 1, 256 * i + j, i, j);
          if mmu.l2[mmu.l1[pr][i].at][j] != Hole {
            CopyPage(p, c, i, j, s0);
          } else {
            SkipPage(s0, S(), p, c, i + 1, 256 * i + j);
          }
        }
      }
    }

    /**
     MAIN: the child gets every user page of the parent, in a frame of its own with the same
     bytes, and the parent's tables end exactly as they were, window included.
     */
    method DuplicateUserSpace(p: nat, c: nat)
      requires ReadyToCopy(S(), p, c)
      modifies this, mmu
      ensures Duplicated(old(S()), S(), p, c) && current == old(current)
    {
      hide Open, SlotsBelow, SameShape, SameBytes, UserMap, Translate, FreeReady, RootOk;
      ghost var s0 := S();
      StartCopy(s0, p, c);
      for i := 0 to lay.kernelSlot
        invariant CopiedBelow(s0, S(), p, c, i, 256 * i) && current == old(current)
      {
        DuplicateSlot(p, c, i, s0);
      }
      ghost var s := S();
      var pr := pcbs[p].pgtable;
      WindowUsed(s0, s, p, c);
      OnePage(lay.fixmapPage);
      WindowUnmappable(lay, s0.tables, s.tables, pr, pcbs[c].pgtable);
      mmu.ReleaseMapping(pr, lay.fixmapPage * PAGE_SIZE, PAGE_SIZE);
      FinishCopy(s0, s, S(), p, c);
    }

    /** A block for a new process, last in the list, with a table that maps the kernel only. */
    method NewProcess() returns (a: nat)
      requires Wired() && lay.Valid() && sys in mmu.l1
      modifies this, mmu
      ensures BlankAdded(old(S()), S(), a) && current == old(current)
      ensures pcbs[a] == Pcb(old(pidCurrent), None, New, false, pcbs[a].pgtable, [], 0, 0, 0, 0, 0)
    {
      FreshAddress(pcbs.Keys);
      a :| a !in pcbs.Keys;
      var pid := pidCurrent;
      pidCurrent := pidCurrent + 1;
      var root := mmu.NewRootPgtable();
      mmu.PgtableCopyKernelArea(root);
      pcbs := pcbs[a := Pcb(pid, None, New, false, root, [], 0, 0, 0, 0, 0)];
      procList := procList + [a];
      assert mmu.l1[sys] == old(mmu.l1[sys]);
    }

    /** A new block with what a child inherits. */
    method DuplicateProcess(parent: nat) returns (a: nat)
      requires Wired() && lay.Valid() && sys in mmu.l1 && parent in pcbs
      modifies this, mmu
      ensures BlankAdded(old(S()), S(), a) && current == old(current)
      ensures var p := old(pcbs)[parent];
        pcbs[a] == Pcb(old(pidCurrent), Some(parent), New, false, pcbs[a].pgtable, [],
                       p.pageCount, p.stackTop, p.heapBase, p.heapPointer, 0)
    {
      a := NewProcess();
      var p := pcbs[parent];
      pcbs := pcbs[a := pcbs[a].(pageCount := p.pageCount, parent := Some(parent), stackTop := p.stackTop,
                                 heapBase := p.heapBase, heapPointer := p.heapPointer)];
    }

    /** MAIN: fork does what the abstract step says; the kernel stops when frames run out. */
    method Fork() returns (pid: nat, ghost child: nat)
      requires Wired() && StateOk(S()) && current in pcbs && Alive(pcbs[current])
      requires pcbs[current].pgtable in mmu.l1 && |UserMap(lay, mmu.V(), pcbs[current].pgtable)| <= |free|
      modifies this, mmu
      ensures child in pcbs && ForkStep(old(S()), S(), current, child, pcbs[child].pages)
      ensures pid == pcbs[child].pid && current == old(current) && StateOk(S())
    {
      hide UserMap, RootOk, TablesOk, Duplicated, ReadyToCopy, ForkStep, MapsOk, FramesOk;
      ghost var s := S();
      HasTable(s, current);
      var c := DuplicateProcess(current);
      ghost var s1 := S();
      BlankReady(s, s1, current, c);
      DuplicateUserSpace(current, c);
      ghost var s2 := S();
      assert c in pcbs by {
        DuplicatedBlocks(s1, s2, current, c);
      }
      pcbs := pcbs[c := pcbs[c].(state := Ready, mainThread := true)];
      CopyIsFork(s, s1, s2, S(), current, c);
      ForkKeeps(s, S(), current, c, pcbs[c].pages);
      pid, child := pcbs[c].pid, c;
    }

    /** Maps n new frames from a page-aligned address on. */
    method AllocatePage(a: nat, virtAddr: nat, n: nat, ghost s0: State, ghost ps: seq<nat>)
      requires Uncounted(s0) && Allocated(s0, S(), a, ps) && lay == s0.lay && sys == s0.sys
      requires virtAddr % PAGE_SIZE == 0 && virtAddr / PAGE_SIZE + n <= lay.UserPages() && n <= |free|
      modifies this, mmu
      ensures Allocated(s0, S(), a, ps + Range(virtAddr / PAGE_SIZE, n))
      ensures |free| == |old(free)| - n && current == old(current)
      ensures a in pcbs && a in old(pcbs) && pcbs[a] == old(pcbs)[a].(pages := pcbs[a].pages) && mem == old(mem)
    {
      hide UserMap, RootOk, Local, Mapped, Mappable, Translate, Separate, LastPage, Allocated, Uncounted, Range;
      AllocatedFacts(s0, S(), a, ps);
      ghost var first := virtAddr / PAGE_SIZE;
      assert ps + Range(first, 0) == ps;
      for i := 0 to n
        invariant Allocated(s0, S(), a, ps + Range(first, i))
        invariant |free| == |old(free)| - i && current == old(current)
        invariant a in pcbs && pcbs[a] == old(pcbs)[a].(pages := pcbs[a].pages) && mem == old(mem)
      {
        ghost var s := S();
        AllocatedFacts(s0, s, a, ps + Range(first, i));
        var root := pcbs[a].pgtable;
        var f := GetFreePage();
        OnePage(first + i);
        OnePage(f);
        UserPageMappable(lay, mmu.V(), sys, root, first + i, f * PAGE_SIZE);
        mmu.CreateMapping(root, virtAddr + i * PAGE_SIZE, f * PAGE_SIZE, PAGE_SIZE);
        AddPageToProc(a, f);
        AllocatedStep(s0, s, S(), a, ps + Range(first, i), first + i, f);
        RangeStep(first, i);
        assert ps + Range(first, i) + [first + i] == ps + Range(first, i + 1);
      }
    }

    /** Gives all frames of a process back; those nobody else counts become free. */
    method ReleaseProcPages(a: nat)
      requires a in pcbs && Distinct(pcbs[a].pages) && forall f | f in pcbs[a].pages :: f in refs && refs[f] == 1
      modifies this
      ensures S() == old(S()).(pcbs := old(pcbs)[a := old(pcbs)[a].(pages := [])],
                               free := old(free) + Elements(old(pcbs)[a].pages),
                               refs := Recount(old(refs), old(pcbs)[a].pages, []))
      ensures current == old(current)
    {
      hide Recount, Elements, Distinct;
      ghost var s, all := S(), pcbs[a].pages;
      ghost var k := 0;
      ReleaseNothing(refs, all);
      assert pcbs == pcbs[a := pcbs[a].(pages := all[0..])];
      while pcbs[a].pages != []
        invariant k <= |all| && current == old(current)
        invariant S() == s.(pcbs := s.pcbs[a := s.pcbs[a].(pages := all[k..])],
                            free := s.free + Elements(all[..k]), refs := Recount(s.refs, all[..k], []))
        decreases |all| - k
      {
        ReleaseStep(s.refs, all, k);
        var f := pcbs[a].pages[0];
        pcbs := pcbs[a := pcbs[a].(pages := pcbs[a].pages[1..])];
        refs := refs[f := refs[f] - 1];
        if refs[f] == 0 {
          FreePage(f);
        }
        k := k + 1;
      }
      assert all[..k] == all;
    }

    /** The image of a process goes: page tables of the user slots first, then the frames. */
    method EmptyImage(a: nat)
      requires Wired() && StateOk(S()) && a in pcbs && Alive(pcbs[a])
      modifies this, mmu
      ensures Emptied(old(S()), S(), a) && current == old(current)
      ensures mem == old(mem)
      ensures a in pcbs && pcbs[a].pageCount == lay.stackPages && pcbs[a].stackTop == lay.argsPage * PAGE_SIZE
    {
      hide UserMap, RootOk, Translate, StateOk, Reset, Live, Local, Rest;
      EmptyReady(S(), a);
      ResetSpace(lay, mmu.V(), sys, pcbs[a].pgtable);
      pcbs := pcbs[a := pcbs[a].(pageCount := lay.stackPages, stackTop := lay.argsPage * PAGE_SIZE)];
      mmu.ResetRootPgtable(pcbs[a].pgtable, false);
      ReleaseProcPages(a);
    }

    /** The size fields of a block are set in the middle of an allocation. */
    method SetSize(a: nat, pageCount: nat, heapBase: nat, ghost s0: State, ghost ps: seq<nat>)
      requires Allocated(s0, S(), a, ps) && a in pcbs
      modifies this
      ensures Allocated(s0, S(), a, ps) && S() == old(S()).(pcbs := pcbs) && current == old(current)
      ensures a in pcbs && pcbs[a] == old(pcbs)[a].(pageCount := pageCount, heapBase := heapBase, heapPointer := heapBase)
    {
      pcbs := pcbs[a := pcbs[a].(pageCount := pageCount, heapBase := heapBase, heapPointer := heapBase)];
      AllocatedFields(s0, old(S()), S(), a, ps);
    }

    /** The stack is allocated again, and then the pages of the program. */
    method PlaceStackAndCode(a: nat, entry: nat, code: nat, ghost s1: State)
      requires Wired() && lay == s1.lay && sys == s1.sys && Uncounted(s1) && S() == s1 && Allocated(s1, s1, a, []) && a in pcbs
      requires pcbs[a].pageCount == lay.stackPages && pcbs[a].stackTop == lay.argsPage * PAGE_SIZE
      requires entry % PAGE_SIZE == 0 && entry / PAGE_SIZE + code <= lay.UserPages() && lay.stackPages + code <= |free|
      modifies this, mmu
      ensures Allocated(s1, S(), a, Range(lay.argsPage - lay.stackPages, lay.stackPages) + Range(entry / PAGE_SIZE, code))
      ensures a in pcbs && pcbs[a].pageCount == lay.stackPages + code && pcbs[a].stackTop == lay.argsPage * PAGE_SIZE
      ensures |free| == |old(free)| - lay.stackPages - code && mem == old(mem) && current == old(current)
    {
      hide Allocated, Uncounted, Range;
      Aligned(lay.argsPage - lay.stackPages);
      ghost var ps := Range(lay.argsPage - lay.stackPages, lay.stackPages);
      assert [] + ps == ps;
      AllocatePage(a, pcbs[a].stackTop - pcbs[a].pageCount * PAGE_SIZE, pcbs[a].pageCount, s1, []);
      SetSize(a, pcbs[a].pageCount + code, pcbs[a].heapBase, s1, ps);
      AllocatePage(a, entry, code, s1, ps);
    }

    /** Stack, code, heap and arguments are allocated one after the other. */
    method PlaceImage(a: nat, entry: nat, code: nat, ghost s1: State)
      requires Wired() && lay == s1.lay && sys == s1.sys && Uncounted(s1) && S() == s1 && Allocated(s1, s1, a, []) && a in pcbs
      requires pcbs[a].pageCount == lay.stackPages && pcbs[a].stackTop == lay.argsPage * PAGE_SIZE
      requires entry % PAGE_SIZE == 0 && entry / PAGE_SIZE + code <= lay.UserPages()
      requires lay.stackPages + code + 1 + lay.heapPages <= lay.UserPages()
      requires lay.stackPages + code + lay.heapPages + 1 <= |free|
      modifies this, mmu
      ensures Allocated(s1, S(), a, ImagePages(lay, entry / PAGE_SIZE, code)) && a in pcbs
      ensures pcbs[a].pageCount == lay.stackPages + code + lay.heapPages + 1 && pcbs[a].stackTop == lay.argsPage * PAGE_SIZE
      ensures pcbs[a].heapBase == pcbs[a].heapPointer == (lay.stackPages + code + 1) * PAGE_SIZE
      ensures mem == old(mem) && current == old(current)
    {
      hide Allocated, Uncounted, Range, ImagePages;
      Aligned(lay.stackPages + code + 1);
      Aligned(lay.argsPage);
      PlaceStackAndCode(a, entry, code, s1);
      ghost var ps := Range(lay.argsPage - lay.stackPages, lay.stackPages) + Range(entry / PAGE_SIZE, code);
      var heapBase := (pcbs[a].pageCount + 1) * PAGE_SIZE;
      SetSize(a, pcbs[a].pageCount + lay.heapPages, heapBase, s1, ps);
      AllocatePage(a, heapBase, lay.heapPages, s1, ps);
      ps := ps + Range(lay.stackPages + code + 1, lay.heapPages);
      SetSize(a, pcbs[a].pageCount + 1, heapBase, s1, ps);
      AllocatePage(a, lay.argsPage * PAGE_SIZE, 1, s1, ps);
      ImageList(lay, entry / PAGE_SIZE, code);
    }

    /** MAIN: a new image replaces the running process's, as the abstract step says. */
    method SetupProcImageReplace(entry: nat, code: nat, args: Option<Contents>)
      requires Wired() && StateOk(S()) && current in pcbs && Alive(pcbs[current])
      requires entry % PAGE_SIZE == 0 && entry / PAGE_SIZE + code <= lay.UserPages()
      requires lay.stackPages + code + 1 + lay.heapPages <= lay.UserPages()
      requires lay.stackPages + code + lay.heapPages + 1 <= |free| + |pcbs[current].pages|
      modifies this, mmu
      ensures current == old(current) && current in pcbs
      ensures ExecStep(old(S()), S(), current, entry / PAGE_SIZE, code, pcbs[current].pages) && StateOk(S())
      ensures pcbs[current].pgtable in mmu.l1 && Translate(mmu.V(), pcbs[current].pgtable, lay.argsPage).Some?
      ensures args.Some? ==>
        Translate(mmu.V(), pcbs[current].pgtable, lay.argsPage).value in mem &&
        mem[Translate(mmu.V(), pcbs[current].pgtable, lay.argsPage).value] == args.value
    {
      hide UserMap, RootOk, TablesOk, Translate, Allocated, Emptied, StateOk, ExecStep, Uncounted;
      var a := current;
      ghost var s, first := S(), entry / PAGE_SIZE;
      EmptyImage(a);
      ghost var s1 := S();
      EmptiedReady(s, s1, a);
      PlaceImage(a, entry, code, s1);
      ghost var s2 := S();
      AllocatedArgs(s1, s2, a, first, code);
      if args.Some? {
        mem := mem[Translate(mmu.V(), pcbs[a].pgtable, lay.argsPage).value := args.value];
      }
      ImageIsExec(s, s1, s2, S(), a, first, code);
      ExecKeeps(s, S(), a, first, code, pcbs[a].pages);
    }

    /**
     MAIN: exec as a whole.  When the arguments fit into their page, the new program reads them
     back, with the environment, from the page mapped below the stack; otherwise it starts all the
     same, with whatever that page holds.  The old copy stands at base, in a buffer of size n.
     */
    method Execve(entry: nat, code: nat, argv: Option<seq<CStr>>, envp: Option<seq<CStr>>, name: CStr,
                  base: nat, n: nat) returns (preserved: bool)
      requires Wired() && StateOk(S()) && current in pcbs && Alive(pcbs[current])
      requires entry % PAGE_SIZE == 0 && entry / PAGE_SIZE + code <= lay.UserPages()
      requires lay.stackPages + code + 1 + lay.heapPages <= lay.UserPages()
      requires lay.stackPages + code + lay.heapPages + 1 <= |free| + |pcbs[current].pages|
      requires |name| < 80 && 0 < base && base + n <= SPACE && PAGE_SIZE <= n
      requires Total(ArgList(if argv.Some? then |argv.value| else 0, argv, name), EnvList(envp)) <= n
      modifies this, mmu
      ensures current == old(current) && current in pcbs
      ensures ExecStep(old(S()), S(), current, entry / PAGE_SIZE, code, pcbs[current].pages) && StateOk(S())
      ensures preserved <==>
        4 * ((if Given(argv) then |argv.value| else 1) + (if envp.Some? then |envp.value| else 0) + 2)
        + Bytes(if Given(argv) then argv.value else [name]) + Bytes(if envp.Some? then envp.value else []) <= 4096
      ensures pcbs[current].pgtable in mmu.l1 && Translate(mmu.V(), pcbs[current].pgtable, lay.argsPage).Some?
      ensures preserved ==>
        var f := Translate(mmu.V(), pcbs[current].pgtable, lay.argsPage).value;
        && f in mem && Word(mem[f], 0) == (if Given(argv) then |argv.value| else 1)
        && ReadArgv(mem[f], lay.argsPage * PAGE_SIZE, 0) == (if Given(argv) then argv.value else [name])
        && ReadEnvp(mem[f], lay.argsPage * PAGE_SIZE, Word(mem[f], 0)) == (if envp.Some? then envp.value else [])
    {
      hide StateOk, ExecStep, Laid, Total, ReadArgv, ReadEnvp, Word, Translate, Bytes;
      var argc := 0;
      if argv.Some? {
        while argc < |argv.value|
          invariant argc <= |argv.value|
        {
          argc := argc + 1;
        }
        assert argv.value[..argc] == argv.value;
      }
      BytesOne(name);
      var b := new byte[n];
      preserved := PreserveArgsAndEnv(b, base, argc, argv, envp, name);
      var args: Option<Contents> := None;
      if preserved {
        var page := new byte[PAGE_SIZE];
        PostSetupImage(page, b[..PAGE_SIZE], base, lay.argsPage * PAGE_SIZE, ArgList(argc, argv, name), EnvList(envp));
        ReadBack(page[..], lay.argsPage * PAGE_SIZE, ArgList(argc, argv, name), EnvList(envp));
        args := Some(page[..]);
      }
      SetupProcImageReplace(entry, code, args);
    }

    /** MAIN: the running process ends; a process without a parent stops the kernel instead. */
    method Exit(status: int) returns (panicked: bool)
      requires Wired() && StateOk(S()) && current in pcbs && Alive(pcbs[current])
      modifies this, mmu
      ensures panicked <==> old(pcbs)[old(current)].parent == None
      ensures panicked ==> S() == old(S())
      ensures !panicked ==> ExitStep(old(S()), S(), old(current), status) && StateOk(S())
    {
      hide UserMap, RootOk, TablesOk, Translate, MapsOk, ForestOk;
      var a := current;
      if pcbs[a].parent == None {
        return true;
      }
      OwnedOnce(S(), a);
      pcbs := pcbs[a := pcbs[a].(state := Zombie)];
      pcbs := pcbs[a := pcbs[a].(exitStatus := status)];
      ReleaseProcPages(a);
      ExitKeeps(old(S()), S(), a, status);
      panicked := false;
    }

    /** MAIN: the break of the running process moves, and the old one is returned; -1 says that it would leave the heap. */
    method Sbrk(increment: int) returns (ret: int)
      requires Wired() && StateOk(S()) && current in pcbs && Alive(pcbs[current])
      modifies this
      ensures current == old(current) && StateOk(S())
      ensures var p := old(pcbs)[current];
        if 0 <= p.heapPointer - p.heapBase + increment < lay.heapSize
        then ret == p.heapPointer && SbrkStep(old(S()), S(), current, increment)
        else ret == -1 && S() == old(S())
    {
      hide StateOk;
      var p := pcbs[current];
      var size := p.heapPointer - p.heapBase;
      var required := size + increment;
      if required >= lay.heapSize || required < 0 {
        return -1;
      }
      pcbs := pcbs[current := p.(heapPointer := p.heapPointer + increment)];
      SbrkKeeps(old(S()), S(), current, increment);
      ret := p.heapPointer;
    }

    method FindProcByPid(pid: int) returns (r: Option<nat>)
      requires ListOk(S())
      ensures r.Some? ==> r.value in pcbs && pcbs[r.value].pid == pid
      ensures r == None ==> forall a | a in pcbs :: pcbs[a].pid != pid
    {
      for i := 0 to |procList|
        invariant forall k | 0 <= k < i :: pcbs[procList[k]].pid != pid
      {
        if pcbs[procList[i]].pid == pid {
          return Some(procList[i]);
        }
      }
      r := None;
    }

    /** The oldest zombie that has not been waited for, whoever its parent is. */
    method FindProcZombieToClean() returns (r: Option<nat>)
      requires ListOk(S())
      ensures r.Some? ==> r.value in pcbs && pcbs[r.value].state == Zombie && pcbs[r.value].mainThread
      ensures r.Some? ==> forall b | b in pcbs && pcbs[b].state == Zombie && pcbs[b].mainThread ::
                            pcbs[r.value].pid <= pcbs[b].pid
      ensures r == None ==> forall b | b in pcbs && pcbs[b].state == Zombie :: !pcbs[b].mainThread
    {
      for i := 0 to |procList|
        invariant forall k | 0 <= k < i :: !(pcbs[procList[k]].state == Zombie && pcbs[procList[k]].mainThread)
      {
        if pcbs[procList[i]].state == Zombie && pcbs[procList[i]].mainThread {
          return Some(procList[i]);
        }
      }
      r := None;
    }

    method FindProcByParent(a: nat) returns (r: Option<nat>)
      requires ListOk(S())
      ensures r.Some? <==> HasChild(S(), a)
      ensures r.Some? ==> r.value in pcbs && pcbs[r.value].parent == Some(a)
    {
      for i := 0 to |procList|
        invariant forall k | 0 <= k < i :: pcbs[procList[k]].parent != Some(a)
      {
        if pcbs[procList[i]].parent == Some(a) {
          return Some(procList[i]);
        }
      }
      r := None;
    }

    /** Takes a block off the list and frees it. */
    method RemoveProc(a: nat)
      requires ListOk(S()) && a in pcbs
      modifies this
      ensures S() == old(S()).(pcbs := old(pcbs) - {a}, procList := Without(old(procList), a)) && current == old(current)
    {
      ListDistinct(S());
      for i := 0 to |procList|
        invariant procList == old(procList) && pcbs == old(pcbs) && S() == old(S()) && current == old(current)
        invariant a in procList[i..]
      {
        if procList[i] == a {
          WithoutIndex(procList, i);
          procList := procList[..i] + procList[i + 1..];
          pcbs := pcbs - {a};
          return;
        }
      }
    }

    /**
     What is left to do for a dead process: free its table, and its block unless it has children.
     thread_join has left it without its thread.
     */
    method CleanUp(child: nat) returns (wstatus: int)
      requires Wired() && StateOk(S()) && child in pcbs && pcbs[child].state == Zombie && pcbs[child].mainThread
      modifies this, mmu
      ensures WaitStep(old(S()), S(), child) && StateOk(S()) && current == old(current)
      ensures wstatus == old(pcbs)[child].exitStatus % 256 * 256
    {
      hide UserMap, RootOk, TablesOk, Translate, MapsOk, ForestOk, FramesOk, Reset, Rest, Live, Without;
      ghost var s := S();
      HasTable(s, child);
      RootLive(lay, mmu.V(), sys, pcbs[child].pgtable);
      ResetSpace(lay, mmu.V(), sys, pcbs[child].pgtable);
      pcbs := pcbs[child := pcbs[child].(mainThread := false)];
      mmu.ResetRootPgtable(pcbs[child].pgtable, true);
      wstatus := pcbs[child].exitStatus % 256 * 256;
      NoThread(s, S(), child);
      var c := FindProcByParent(child);
      if c == None {
        RemoveProc(child);
      }
      WaitKeeps(s, S(), child);
    }

    /**
     MAIN: waitpid.  With -1 it takes the oldest zombie that has not been waited for, whoever its
     parent is: a child of the caller exactly when some child of the caller is that oldest one.  With a pid it waits for that process; here it has died by the time the call goes on,
     and has not been waited for before, because a second wait would free its table again.
     */
    method Waitpid(pid: int, nohang: bool) returns (ret: int, wstatus: Option<int>, ghost child: Option<nat>)
      requires Wired() && StateOk(S())
      requires forall a | a in pcbs && pcbs[a].pid == pid :: pcbs[a].mainThread && (nohang || pcbs[a].state == Zombie)
      modifies this, mmu
      ensures current == old(current) && StateOk(S())
      ensures child.Some? ==>
        && WaitStep(old(S()), S(), child.value) && ret == old(pcbs)[child.value].pid
        && wstatus == Some(old(pcbs)[child.value].exitStatus % 256 * 256)
        && (pid != -1 ==> ret == pid)
      ensures child.Some? && pid == -1 ==> forall b | b in old(pcbs) && old(pcbs)[b].state == Zombie && old(pcbs)[b].mainThread ::
        ret <= old(pcbs)[b].pid
      ensures child.Some? && pid == -1 ==>
        && FirstUnwaited(old(S()), child.value)
        && (old(pcbs)[child.value].parent == Some(current) <==>
              exists a :: FirstUnwaited(old(S()), a) && old(pcbs)[a].parent == Some(current))
      ensures child == None ==> S() == old(S())
      ensures child == None && pid == -1 ==>
        ret == -1 && wstatus == None && forall b | b in pcbs && pcbs[b].state == Zombie :: !pcbs[b].mainThread
      ensures child == None && pid != -1 ==>
        if exists a :: a in pcbs && pcbs[a].pid == pid
        then ret == 0 && wstatus == None && nohang && forall a | a in pcbs && pcbs[a].pid == pid :: pcbs[a].state != Zombie
        else ret == -1 && wstatus == Some(-128)
    {
      hide UserMap, RootOk, TablesOk, Translate, MapsOk, ForestOk, FramesOk, SpacesOk, WaitStep;
      var r: Option<nat>;
      if pid == -1 {
        r := FindProcZombieToClean();
        if r == None {
          return -1, None, None;
        }
      } else {
        r := FindProcByPid(pid);
        if r == None {
          return -1, Some(-128), None;
        }
      }
      var a := r.value;
      if nohang && pcbs[a].state != Zombie {
        return 0, None, None;
      }
      ret := pcbs[a].pid;
      OneFirstUnwaited(S());
      var status := CleanUp(a);
      wstatus, child := Some(status), r;
    }

    /** The boot image is mapped at the start of the user space. */
    method MapBootImage(a: nat, ghost s1: State)
      requires Wired() && lay == s1.lay && a in s1.pcbs
      requires Allocated(s1, S(), a, Range(lay.argsPage - lay.stackPages, lay.stackPages))
      modifies mmu
      ensures S() == old(S()).(tables := mmu.V()) && s1.pcbs[a].pgtable in old(mmu.V()).l1
      ensures Mapped(old(mmu.V()), mmu.V(), s1.pcbs[a].pgtable, lay.userPage, lay.userPage + lay.imagePages, lay.imageFrame * PAGE_SIZE)
    {
      hide Allocated, Mapped, Mappable, Live;
      ManyPages(lay.userPage, lay.imagePages);
      ImageMappable(s1, S(), a);
      mmu.CreateMapping(pcbs[a].pgtable, lay.userPage * PAGE_SIZE, lay.imageFrame * PAGE_SIZE, lay.imagePages * PAGE_SIZE);
    }

    /** A new process with the size of its stack, which maps nothing in user space yet. */
    method NewRoot() returns (a: nat)
      requires Wired() && StateOk(S())
      modifies this, mmu
      ensures BlankAdded(old(S()), S(), a) && Uncounted(S()) && Allocated(S(), S(), a, []) && a in pcbs
      ensures pcbs[a].pgtable in mmu.l1 && UserMap(lay, mmu.V(), pcbs[a].pgtable) == map[]
      ensures Rest(lay, mmu.V(), pcbs[a].pgtable) == old(mmu.V()).l2 && free == old(free) && current == old(current)
      ensures pcbs[a] == Pcb(old(pidCurrent), None, New, false, pcbs[a].pgtable, [], lay.stackPages, lay.argsPage * PAGE_SIZE, 0, 0, 0)
    {
      hide UserMap, Translate, StateOk, Allocated, Uncounted, Rest;
      ghost var s := S();
      SysLive(s);
      a := NewProcess();
      pcbs := pcbs[a := pcbs[a].(pageCount := lay.stackPages, stackTop := lay.argsPage * PAGE_SIZE)];
      BlankRoot(s, S(), a);
    }

    /** MAIN: a boot process gets a stack of its own and maps the boot image. */
    method CreateRootProcess() returns (a: nat)
      requires Wired() && StateOk(S()) && lay.stackPages <= |free|
      modifies this, mmu
      ensures a in pcbs && CreateRootStep(old(S()), S(), a, pcbs[a].pages) && StateOk(S()) && current == old(current)
    {
      hide UserMap, RootOk, TablesOk, Translate, MapsOk, ForestOk, FramesOk, Allocated, Uncounted, BootMap, Mapped, StateOk, CreateRootStep;
      ghost var s := S();
      SysLive(s);
      a := NewRoot();
      ghost var s1 := S();
      AllocatePage(a, pcbs[a].stackTop - pcbs[a].pageCount * PAGE_SIZE, pcbs[a].pageCount, s1, []);
      ghost var s2 := S();
      assert [] + Range(lay.argsPage - lay.stackPages, lay.stackPages) == Range(lay.argsPage - lay.stackPages, lay.stackPages);
      MapBootImage(a, s1);
      ghost var s3 := S();
      pcbs := pcbs[a := pcbs[a].(mainThread := true)];
      pcbs := pcbs[a := pcbs[a].(state := Ready)];
      BootIsCreate(s, s1, s2, s3, S(), a);
      CreateRootKeeps(s, S(), a, pcbs[a].pages);
    }
  }

  /** A zombie that has not been waited for, of which there is none older. */
  ghost predicate FirstUnwaited(s: State, a: nat) {
    && Unwaited(s, a)
    && forall b | Unwaited(s, b) :: s.pcbs[a].pid <= s.pcbs[b].pid
  }

  ghost predicate Unwaited(s: State, a: nat) {
    a in s.pcbs && s.pcbs[a].state == Zombie && s.pcbs[a].mainThread
  }

  lemma OneFirstUnwaited(s: State)
    requires ListOk(s)
    ensures forall a, b | FirstUnwaited(s, a) && FirstUnwaited(s, b) :: a == b
  {
    forall a, b | FirstUnwaited(s, a) && FirstUnwaited(s, b)
      ensures a == b
    {
      assert s.pcbs[a].pid == s.pcbs[b].pid;
      SamePid(s, a, b);
    }
  }

  /** Pids name processes. */
  lemma SamePid(s: State, a: nat, b: nat)
    requires ListOk(s) && a in s.pcbs && b in s.pcbs && s.pcbs[a].pid == s.pcbs[b].pid
    ensures a == b
  {
    assert a in s.procList && b in s.procList;
    var i :| 0 <= i < |s.procList| && s.procList[i] == a;
    var j :| 0 <= j < |s.procList| && s.procList[j] == b;
  }

  /** Losing its thread changes nothing else about a process, children included. */
  lemma NoThread(s: State, s': State, a: nat)
    requires ListOk(s) && a in s.pcbs && s'.pcbs == s.pcbs[a := s.pcbs[a].(mainThread := false)]
    requires s'.procList == s.procList && s'.nextPid == s.nextPid
    ensures ListOk(s')
    ensures forall b: nat :: HasChild(s', b) <==> HasChild(s, b)
  {
    assert s'.pcbs.Keys == s.pcbs.Keys;
    forall b | b in s.pcbs
      ensures s'.pcbs[b].pid == s.pcbs[b].pid && s'.pcbs[b].parent == s.pcbs[b].parent
    {
    }
    forall b: nat
      ensures HasChild(s', b) <==> HasChild(s, b)
    {
      if c :| c in s.pcbs && s.pcbs[c].parent == Some(b) {
        assert s'.pcbs[c].parent == Some(b);
      }
      if c :| c in s'.pcbs && s'.pcbs[c].parent == Some(b) {
        assert s.pcbs[c].parent == Some(b);
      }
    }
  }

  lemma ReleaseStep(refs: map<nat, nat>, all: seq<nat>, k: nat)
    requires k < |all| && Distinct(all) && forall f | f in all :: f in refs && refs[f] == 1
    ensures all[k] !in all[..k] && all[k] in Recount(refs, all[..k], []) && Recount(refs, all[..k], [])[all[k]] == 1
    ensures Recount(refs, all[..k + 1], []) == Recount(refs, all[..k], [])[all[k] := 0]
    ensures Elements(all[..k + 1]) == Elements(all[..k]) + {all[k]}
    ensures all[k..][1..] == all[k + 1..]
  {
    assert all[..k + 1] == all[..k] + [all[k]];
  }

  lemma ReleaseNothing(refs: map<nat, nat>, all: seq<nat>)
    ensures Recount(refs, all[..0], []) == refs && Elements(all[..0]) == {}
  {
  }

  lemma ImageList(lay: Layout, entry: nat, code: nat)
    requires lay.stackPages <= lay.argsPage
    ensures Range(lay.argsPage - lay.stackPages, lay.stackPages) + Range(entry, code)
            + Range(lay.stackPages + code + 1, lay.heapPages) + Range(lay.argsPage, 1) == ImagePages(lay, entry, code)
  {
  }

  lemma {:induction false} WithoutIndex(list: seq<nat>, k: nat)
    requires k < |list| && Distinct(list)
    ensures Without(list, list[k]) == list[..k] + list[k + 1..]
  {
    if k > 0 {
      WithoutIndex(list[1..], k - 1);
    }
  }
}
