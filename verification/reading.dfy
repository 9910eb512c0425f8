/**
 What processes read: each byte of user space through the walk of the process's own tables.
 */
module Reading {
  import opened Wrappers
  import opened Tables
  import opened Space
  import opened KernelState
  import opened Lifecycle
  import opened Walking
  import opened Imaging

  /** The byte a process reads at a user address, if the walk leads anywhere. */
  function ReadByte(s: State, a: nat, vaddr: nat): Option<byte>
    requires a in s.pcbs && s.pcbs[a].pgtable in s.tables.l1 && vaddr < 0x1_0000_0000
  {
    match Walk(s.tables, s.pcbs[a].pgtable, vaddr)
    case None => None
    case Some(paddr) => if paddr / 0x1000 in s.mem then Some(s.mem[paddr / 0x1000][paddr % 0x1000]) else None
  }

  /** It is a byte of the frame that the page is mapped to. */
  lemma ReadByPages(s: State, a: nat, vaddr: nat)
    requires a in s.pcbs && s.pcbs[a].pgtable in s.tables.l1 && s.lay.Valid() && vaddr < s.lay.kernelSlot * 0x10_0000
    ensures vaddr < 0x1_0000_0000
    ensures var m, page := UserMap(s.lay, s.tables, s.pcbs[a].pgtable), vaddr / 0x1000;
      ReadByte(s, a, vaddr) == if page in m && m[page] in s.mem then Some(s.mem[m[page]][vaddr % 0x1000]) else None
  {
    hide Walk, Translate;
    WalkByPages(s.tables, s.pcbs[a].pgtable, vaddr);
    var page := vaddr / 0x1000;
    assert page < s.lay.UserPages();
    if page in UserMap(s.lay, s.tables, s.pcbs[a].pgtable) {
      var f := UserMap(s.lay, s.tables, s.pcbs[a].pgtable)[page];
      assert (f * 0x1000 + vaddr % 0x1000) / 0x1000 == f && (f * 0x1000 + vaddr % 0x1000) % 0x1000 == vaddr % 0x1000;
    }
  }

  /** Same pages, to frames with the same bytes: the same is read. */
  lemma SameRead(s: State, a: nat, s': State, b: nat, vaddr: nat)
    requires a in s.pcbs && s.pcbs[a].pgtable in s.tables.l1 && b in s'.pcbs && s'.pcbs[b].pgtable in s'.tables.l1
    requires s.lay.Valid() && s'.lay == s.lay && vaddr < s.lay.kernelSlot * 0x10_0000
    requires var m, m' := UserMap(s.lay, s.tables, s.pcbs[a].pgtable), UserMap(s.lay, s'.tables, s'.pcbs[b].pgtable);
      && m'.Keys == m.Keys
      && forall v | v in m :: m[v] in s.mem && m'[v] in s'.mem && s'.mem[m'[v]] == s.mem[m[v]]
    ensures vaddr < 0x1_0000_0000 && ReadByte(s', b, vaddr) == ReadByte(s, a, vaddr)
  {
    hide UserMap, ReadByte;
    ReadByPages(s, a, vaddr);
    ReadByPages(s', b, vaddr);
  }

  /** MAIN: after a fork the child reads at every user address what the parent read there. */
  lemma ChildReadsSame(s: State, s': State, p: nat, c: nat, frames: seq<nat>, vaddr: nat)
    requires ForkStep(s, s', p, c, frames) && vaddr < s.lay.kernelSlot * 0x10_0000
    ensures vaddr < 0x1_0000_0000 && s'.pcbs[c].pgtable in s'.tables.l1
    ensures ReadByte(s', c, vaddr) == ReadByte(s, p, vaddr)
  {
    hide UserMap, ReadByte;
    SameRead(s, p, s', c, vaddr);
  }

  // ----- what a call does to the others

  /** A call made, or answered, by process a, which is the child in a fork. */
  ghost predicate Acts(s: State, s': State, a: nat) {
    || (exists frames :: CreateRootStep(s, s', a, frames))
    || (exists p, frames :: ForkStep(s, s', p, a, frames))
    || (exists entry, code, frames :: ExecStep(s, s', a, entry, code, frames))
    || (exists status :: ExitStep(s, s', a, status))
    || (exists increment :: SbrkStep(s, s', a, increment))
    || WaitStep(s, s', a)
  }

  lemma SomebodyActs(s: State, s': State) returns (a: nat)
    requires Step(s, s')
    ensures Acts(s, s', a)
  {
    hide CreateRootStep, ForkStep, ExecStep, ExitStep, SbrkStep, WaitStep;
    if c, frames :| CreateRootStep(s, s', c, frames) {
      a := c;
    } else if p, c, frames :| ForkStep(s, s', p, c, frames) {
      a := c;
    } else if c, entry, code, frames :| ExecStep(s, s', c, entry, code, frames) {
      a := c;
    } else if c, status :| ExitStep(s, s', c, status) {
      a := c;
    } else if c, increment :| SbrkStep(s, s', c, increment) {
      a := c;
    } else {
      a :| WaitStep(s, s', a);
    }
  }

  /** The address space of b is as it was. */
  ghost predicate SpaceKept(s: State, s': State, b: nat)
    requires b in s.pcbs && s.lay.UserPages() <= PAGES
  {
    && s.pcbs[b].pgtable in s.tables.l1 && s.pcbs[b].pgtable in s'.tables.l1
    && UserMap(s.lay, s'.tables, s.pcbs[b].pgtable) == UserMap(s.lay, s.tables, s.pcbs[b].pgtable)
  }

  /** Only given frames have new contents, and they were free or on the list of a. */
  ghost predicate MemKept(s: State, s': State, frames: seq<nat>, given: seq<nat>) {
    && s'.mem.Keys == s.mem.Keys && (forall f | f in s.mem && f !in frames :: s'.mem[f] == s.mem[f])
    && (forall f | f in frames :: f in s.free || f in given)
  }

  lemma RootsOf(s: State, a: nat, b: nat)
    requires SpacesOk(s) && b in s.pcbs && s.pcbs[b].mainThread && a != b
    ensures s.pcbs[b].pgtable in Roots(s.pcbs) && s.pcbs[b].pgtable in s.tables.l1
    ensures a in s.pcbs && s.pcbs[a].mainThread ==> s.pcbs[a].pgtable != s.pcbs[b].pgtable
  {
  }

  lemma AddedOther(s: State, s': State, a: nat, b: nat, frames: seq<nat>)
    requires StateOk(s) && b in s.pcbs && Alive(s.pcbs[b]) && a !in s.pcbs && a in s'.pcbs
    requires Appended(s, s', a, s'.pcbs[a].pgtable, frames) && SpaceAdded(s, s', s'.pcbs[a].pgtable)
    ensures SpaceKept(s, s', b)
  {
    hide UserMap, ListOk, FramesOk, MapsOk, ForestOk;
    RootsOf(s, a, b);
    AppendedSpaces(s, s', a, s'.pcbs[a].pgtable, frames);
  }

  lemma RootOther(s: State, s': State, a: nat, b: nat, frames: seq<nat>)
    requires StateOk(s) && b in s.pcbs && Alive(s.pcbs[b]) && CreateRootStep(s, s', a, frames)
    ensures a != b && b in s'.pcbs && s'.pcbs[b] == s.pcbs[b] && s'.lay == s.lay && SpaceKept(s, s', b) && MemKept(s, s', [], [])
  {
    hide UserMap, SpaceAdded, BootMap, Recount, FramesOk, MapsOk, SpacesOk, ForestOk;
    AddedOther(s, s', a, b, frames);
  }

  lemma ForkOther(s: State, s': State, p: nat, a: nat, b: nat, frames: seq<nat>)
    requires StateOk(s) && b in s.pcbs && Alive(s.pcbs[b]) && ForkStep(s, s', p, a, frames)
    ensures a != b && b in s'.pcbs && s'.pcbs[b] == s.pcbs[b] && s'.lay == s.lay && SpaceKept(s, s', b) && MemKept(s, s', frames, [])
  {
    hide UserMap, SpaceAdded, Recount, FramesOk, MapsOk, SpacesOk, ForestOk, SameShape;
    AddedOther(s, s', a, b, frames);
  }

  lemma ExecOther(s: State, s': State, a: nat, b: nat, entry: nat, code: nat, frames: seq<nat>)
    requires StateOk(s) && b in s.pcbs && Alive(s.pcbs[b]) && a != b && ExecStep(s, s', a, entry, code, frames)
    ensures b in s'.pcbs && s'.pcbs[b] == s.pcbs[b] && s'.lay == s.lay && SpaceKept(s, s', b)
    ensures MemKept(s, s', frames, s.pcbs[a].pages)
  {
    hide UserMap, SpaceChanged, Recount, FramesOk, MapsOk, ForestOk, ListOk, TablesOk;
    RootsOf(s, a, b);
    ExecSpaces(s, s', a);
  }

  lemma WaitOther(s: State, s': State, a: nat, b: nat)
    requires StateOk(s) && b in s.pcbs && Alive(s.pcbs[b]) && WaitStep(s, s', a)
    ensures a != b && b in s'.pcbs && s'.pcbs[b] == s.pcbs[b] && s'.lay == s.lay && SpaceKept(s, s', b) && MemKept(s, s', [], [])
  {
    hide UserMap, FramesOk, MapsOk, ForestOk, ListOk, TablesOk, HasChild, Without;
    RootsOf(s, a, b);
    WaitSpaces(s, s', a);
  }

  lemma QuietOther(s: State, s': State, a: nat, b: nat)
    requires StateOk(s) && b in s.pcbs && Alive(s.pcbs[b]) && a != b
    requires s'.tables == s.tables && s'.mem == s.mem && s'.lay == s.lay && a in s'.pcbs && s'.pcbs == s.pcbs[a := s'.pcbs[a]]
    ensures b in s'.pcbs && s'.pcbs[b] == s.pcbs[b] && SpaceKept(s, s', b) && MemKept(s, s', [], [])
  {
    hide UserMap, FramesOk, MapsOk, ForestOk, ListOk, TablesOk;
    RootsOf(s, a, b);
  }

  /** No frame of b's is free or on another list, nor, if it is of the boot image, in the pool. */
  lemma FramesKept(s: State, s': State, a: nat, b: nat, frames: seq<nat>, given: seq<nat>)
    requires StateOk(s) && b in s.pcbs && Alive(s.pcbs[b]) && a != b && MemKept(s, s', frames, given)
    requires given == [] || (a in s.pcbs && given == s.pcbs[a].pages)
    requires s.pcbs[b].pgtable in s.tables.l1
    ensures forall v | v in UserMap(s.lay, s.tables, s.pcbs[b].pgtable) ::
      var f := UserMap(s.lay, s.tables, s.pcbs[b].pgtable)[v]; f in s.mem && f in s'.mem && s'.mem[f] == s.mem[f]
  {
    hide UserMap, SpacesOk, ForestOk, Owners;
    assert MapOk(s.lay, s.tables, s.pool, s.pcbs[b]);
    PageLists(s, b);
    if given != [] {
      PageLists(s, a);
    }
    forall v | v in UserMap(s.lay, s.tables, s.pcbs[b].pgtable)
      ensures var f := UserMap(s.lay, s.tables, s.pcbs[b].pgtable)[v]; f in s.mem && f !in frames
    {
      var f := UserMap(s.lay, s.tables, s.pcbs[b].pgtable)[v];
      assert f in s.pcbs[b].pages || f !in s.pool;
    }
  }

  lemma OtherKept(s: State, s': State, a: nat, b: nat) returns (frames: seq<nat>, given: seq<nat>)
    requires StateOk(s) && Acts(s, s', a) && a != b && b in s.pcbs && Alive(s.pcbs[b])
    ensures b in s'.pcbs && s'.pcbs[b] == s.pcbs[b] && s'.lay == s.lay && s.lay.Valid() && SpaceKept(s, s', b)
    ensures MemKept(s, s', frames, given) && (given == [] || (a in s.pcbs && given == s.pcbs[a].pages))
  {
    hide CreateRootStep, ForkStep, ExecStep, WaitStep, SpaceKept, MemKept, ListOk, ForestOk, SpacesOk, FramesOk, MapsOk;
    frames, given := [], [];
    if fs :| CreateRootStep(s, s', a, fs) {
      RootOther(s, s', a, b, fs);
    } else if p, fs :| ForkStep(s, s', p, a, fs) {
      ForkOther(s, s', p, a, b, fs);
      frames := fs;
    } else if entry, code, fs :| ExecStep(s, s', a, entry, code, fs) {
      ExecOther(s, s', a, b, entry, code, fs);
      ActorThere(s, s', a, entry, code, fs);
      frames, given := fs, s.pcbs[a].pages;
    } else if status :| ExitStep(s, s', a, status) {
      QuietOther(s, s', a, b);
    } else if increment :| SbrkStep(s, s', a, increment) {
      QuietOther(s, s', a, b);
    } else {
      WaitOther(s, s', a, b);
    }
  }

  lemma ActorThere(s: State, s': State, a: nat, entry: nat, code: nat, frames: seq<nat>)
    requires ExecStep(s, s', a, entry, code, frames)
    ensures a in s.pcbs
  {
  }

  /**
   MAIN: no call of one process changes what another reads, at any user address: not its parent's when it
   is forked, not anybody's when it executes a new image, ends, moves its break or is waited for.
   */
  lemma OthersReadSame(s: State, s': State, a: nat, b: nat, vaddr: nat)
    requires StateOk(s) && Acts(s, s', a) && a != b && b in s.pcbs && Alive(s.pcbs[b]) && vaddr < s.lay.kernelSlot * 0x10_0000
    ensures vaddr < 0x1_0000_0000 && s.pcbs[b].pgtable in s.tables.l1
    ensures b in s'.pcbs && Alive(s'.pcbs[b]) && s'.pcbs[b].pgtable in s'.tables.l1
    ensures ReadByte(s', b, vaddr) == ReadByte(s, b, vaddr)
  {
    hide UserMap, ReadByte, Acts, StateOk, MemKept;
    var frames, given := OtherKept(s, s', a, b);
    FramesKept(s, s', a, b, frames, given);
    SameRead(s, b, s', b, vaddr);
  }

  ghost predicate SomeoneElseActs(s: State, s': State, b: nat) {
    exists a :: a != b && Acts(s, s', a)
  }

  /** MAIN: in any run a process reads the same at every user address as long as only others make calls. */
  lemma {:induction false} Undisturbed(run: seq<State>, b: nat, i: nat, j: nat, vaddr: nat)
    requires IsRun(run) && i <= j < |run| && b in run[i].pcbs && Alive(run[i].pcbs[b])
    requires forall k | i <= k < j :: SomeoneElseActs(run[k], run[k + 1], b)
    requires vaddr < run[i].lay.kernelSlot * 0x10_0000
    ensures vaddr < 0x1_0000_0000 && run[i].pcbs[b].pgtable in run[i].tables.l1 && run[j].lay == run[i].lay
    ensures b in run[j].pcbs && Alive(run[j].pcbs[b]) && run[j].pcbs[b].pgtable in run[j].tables.l1
    ensures ReadByte(run[j], b, vaddr) == ReadByte(run[i], b, vaddr)
    decreases j
  {
    hide ReadByte, Acts, StateOk, Init, Step;
    RunOk(run, i);
    HasSpace(run[i], b, vaddr);
    if i < j {
      Undisturbed(run, b, i, j - 1, vaddr);
      RunOk(run, j - 1);
      assert SomeoneElseActs(run[j - 1], run[j], b);
      var a :| a != b && Acts(run[j - 1], run[j], a);
      OthersReadSame(run[j - 1], run[j], a, b, vaddr);
      var frames, given := OtherKept(run[j - 1], run[j], a, b);
    }
  }

  lemma HasSpace(s: State, b: nat, vaddr: nat)
    requires StateOk(s) && b in s.pcbs && Alive(s.pcbs[b]) && vaddr < s.lay.kernelSlot * 0x10_0000
    ensures s.pcbs[b].pgtable in s.tables.l1 && vaddr < 0x1_0000_0000
  {
    RootsOf(s, b + 1, b);
  }

  // ----- the blocks of processes

  /** The heap, if a program has been executed, and the stack are mapped; the break lies in the heap. */
  ghost predicate BlockOk(s: State, a: nat)
    requires a in s.pcbs
  {
    var p := s.pcbs[a];
    && (p.state == Ready || p.state == Zombie) && p.stackTop == s.lay.argsPage * 0x1000
    && p.heapBase % 0x1000 == 0 && p.heapBase <= p.heapPointer
    && (p.heapPointer == p.heapBase || p.heapPointer - p.heapBase < s.lay.heapSize)
    && (Alive(p) ==> RegionsMapped(s, p))
  }

  ghost predicate RegionsMapped(s: State, p: Pcb) {
    && p.pgtable in s.tables.l1 && s.lay.UserPages() <= PAGES && s.lay.stackPages <= s.lay.argsPage
    && (forall v | s.lay.argsPage - s.lay.stackPages <= v < s.lay.argsPage :: v in UserMap(s.lay, s.tables, p.pgtable))
    && (0 < p.heapBase ==>
          && s.lay.argsPage in UserMap(s.lay, s.tables, p.pgtable)
          && forall v | p.heapBase / 0x1000 <= v < p.heapBase / 0x1000 + s.lay.heapPages :: v in UserMap(s.lay, s.tables, p.pgtable))
  }

  ghost predicate BlocksOk(s: State) {
    forall a | a in s.pcbs :: BlockOk(s, a)
  }

  lemma SameBlock(s: State, s': State, b: nat)
    requires b in s.pcbs && BlockOk(s, b) && b in s'.pcbs && s'.pcbs[b] == s.pcbs[b] && s'.lay == s.lay
    requires s.lay.UserPages() <= PAGES && (Alive(s.pcbs[b]) ==> SpaceKept(s, s', b))
    ensures BlockOk(s', b)
  {
    hide UserMap;
  }

  /** A dead process is changed only by the wait for it. */
  lemma DeadOther(s: State, s': State, a: nat, b: nat)
    requires ForestOk(s) && Acts(s, s', a) && b in s.pcbs && b in s'.pcbs && a != b && !Alive(s.pcbs[b])
    ensures s'.pcbs[b] == s.pcbs[b] && s'.lay == s.lay
  {
    hide UserMap, SpaceAdded, SpaceChanged, Cloned, Fresh, Recount, BootMap, HasChild, Without;
  }

  /** Where an assignment of pages to frames maps. */
  lemma {:induction false} AssignKeys(m: map<nat, nat>, ps: seq<nat>, fs: seq<nat>)
    requires |ps| == |fs|
    ensures forall v :: v in Assign(m, ps, fs) <==> v in m || v in ps
  {
    forall v: nat
      ensures v in Assign(m, ps, fs) <==> v in m || v in ps
    {
      AssignLookup(m, ps, fs, v);
    }
  }

  /**
   MAIN: what an image maps: the stack below the argument page, that page, the program from its entry on,
   and the heap behind a gap of one page after as many pages as stack and program have.
   */
  lemma ExecMaps(s: State, s': State, a: nat, entry: nat, code: nat, frames: seq<nat>)
    requires ExecStep(s, s', a, entry, code, frames)
    ensures s'.pcbs[a].pgtable in s'.tables.l1 && s.lay.stackPages <= s.lay.argsPage
    ensures forall v :: v in UserMap(s'.lay, s'.tables, s'.pcbs[a].pgtable) <==>
      || s.lay.argsPage - s.lay.stackPages <= v < s.lay.argsPage + 1
      || entry <= v < entry + code
      || s.lay.stackPages + code + 1 <= v < s.lay.stackPages + code + 1 + s.lay.heapPages
    ensures s'.pcbs[a].heapBase == (s.lay.stackPages + code + 1) * 0x1000 == s'.pcbs[a].heapPointer
    ensures s'.pcbs[a].stackTop == s.lay.argsPage * 0x1000
    ensures s'.pcbs[a].pageCount == s.lay.stackPages + code + s.lay.heapPages + 1
  {
    hide RootOk, Rest, Fresh, Recount, UserMap, Assign;
    var ps := ImagePages(s.lay, entry, code);
    AssignKeys(map[], ps, frames);
    ImageMembers(s.lay, entry, code);
  }

  lemma ImageMembers(lay: Layout, entry: nat, code: nat)
    requires lay.stackPages <= lay.argsPage
    ensures forall v :: v in ImagePages(lay, entry, code) <==>
      || lay.argsPage - lay.stackPages <= v < lay.argsPage + 1
      || entry <= v < entry + code
      || lay.stackPages + code + 1 <= v < lay.stackPages + code + 1 + lay.heapPages
  {
    RangeMembers(lay.argsPage - lay.stackPages, lay.stackPages);
    RangeMembers(entry, code);
    RangeMembers(lay.stackPages + code + 1, lay.heapPages);
    hide Range;
  }

  lemma RangeMembers(first: nat, n: nat)
    ensures forall v: nat :: v in Range(first, n) <==> first <= v < first + n
  {
    forall v: nat | first <= v < first + n
      ensures v in Range(first, n)
    {
      assert Range(first, n)[v - first] == v;
    }
  }

  /** MAIN: what a boot process maps: its stack, and the boot image, to the frames that hold it. */
  lemma RootMaps(s: State, s': State, a: nat, frames: seq<nat>)
    requires CreateRootStep(s, s', a, frames)
    ensures s'.pcbs[a].pgtable in s'.tables.l1 && s.lay.stackPages <= s.lay.argsPage
    ensures forall v :: v in UserMap(s'.lay, s'.tables, s'.pcbs[a].pgtable) <==>
      || s.lay.argsPage - s.lay.stackPages <= v < s.lay.argsPage
      || s.lay.userPage <= v < s.lay.userPage + s.lay.imagePages
    ensures forall v | s.lay.userPage <= v < s.lay.userPage + s.lay.imagePages ::
      v in UserMap(s'.lay, s'.tables, s'.pcbs[a].pgtable)
      && UserMap(s'.lay, s'.tables, s'.pcbs[a].pgtable)[v] == s.lay.imageFrame + (v - s.lay.userPage)
    ensures var p := s'.pcbs[a];
      p.pageCount == |p.pages| == s.lay.stackPages && p.heapBase == p.heapPointer == 0 && p.parent == None && p.pid == s.nextPid
  {
    hide RootOk, Rest, Fresh, Recount, UserMap, Assign, Range;
    var stack := Range(s.lay.argsPage - s.lay.stackPages, s.lay.stackPages);
    var m := Assign(map[], stack, frames);
    AssignKeys(map[], stack, frames);
    RangeMembers(s.lay.argsPage - s.lay.stackPages, s.lay.stackPages);
    forall v: nat
      ensures v in BootMap(s.lay, frames) <==> v in m || s.lay.userPage <= v < s.lay.userPage + s.lay.imagePages
      ensures s.lay.userPage <= v < s.lay.userPage + s.lay.imagePages ==>
        BootMap(s.lay, frames)[v] == s.lay.imageFrame + (v - s.lay.userPage)
    {
      AssignRange(m, s.lay.userPage, s.lay.imageFrame, s.lay.imagePages, v);
    }
  }

  /** The block of the process that acts, if it stays. */
  lemma ActorBlock(s: State, s': State, a: nat)
    requires StateOk(s) && BlocksOk(s) && Acts(s, s', a) && a in s'.pcbs
    ensures BlockOk(s', a)
  {
    hide CreateRootStep, ForkStep, ExecStep, ExitStep, SbrkStep, WaitStep, UserMap, StateOk, BlockOk, RegionsMapped;
    if frames :| CreateRootStep(s, s', a, frames) {
      RootBlock(s, s', a, frames);
    } else if p, frames :| ForkStep(s, s', p, a, frames) {
      ForkBlock(s, s', p, a, frames);
    } else if entry, code, frames :| ExecStep(s, s', a, entry, code, frames) {
      ExecBlock(s, s', a, entry, code, frames);
    } else if status :| ExitStep(s, s', a, status) {
      ExitBlock(s, s', a, status);
    } else if increment :| SbrkStep(s, s', a, increment) {
      SbrkBlock(s, s', a, increment);
    } else {
      WaitBlock(s, s', a);
    }
  }

  lemma RootBlock(s: State, s': State, a: nat, frames: seq<nat>)
    requires CreateRootStep(s, s', a, frames)
    ensures BlockOk(s', a)
  {
    hide SpaceAdded, Fresh, Recount, UserMap, BootMap;
    RootMaps(s, s', a, frames);
  }

  lemma ForkBlock(s: State, s': State, p: nat, a: nat, frames: seq<nat>)
    requires ForkStep(s, s', p, a, frames) && BlocksOk(s)
    ensures BlockOk(s', a)
  {
    hide RootOk, Rest, Fresh, Recount, UserMap, SameBytes;
    assert BlockOk(s, p);
  }

  lemma ExecBlock(s: State, s': State, a: nat, entry: nat, code: nat, frames: seq<nat>)
    requires ExecStep(s, s', a, entry, code, frames) && BlocksOk(s)
    ensures BlockOk(s', a)
  {
    hide SpaceChanged, Fresh, Recount, UserMap, Assign, ImagePages;
    assert BlockOk(s, a);
    ExecMaps(s, s', a, entry, code, frames);
    assert s'.pcbs[a].heapBase / 0x1000 == s.lay.stackPages + code + 1 && s'.pcbs[a].heapBase % 0x1000 == 0;
  }

  lemma ExitBlock(s: State, s': State, a: nat, status: int)
    requires ExitStep(s, s', a, status) && BlocksOk(s)
    ensures BlockOk(s', a)
  {
    hide Recount, UserMap;
    assert BlockOk(s, a);
  }

  lemma SbrkBlock(s: State, s': State, a: nat, increment: int)
    requires SbrkStep(s, s', a, increment) && BlocksOk(s)
    ensures BlockOk(s', a)
  {
    hide UserMap;
    assert BlockOk(s, a);
  }

  lemma WaitBlock(s: State, s': State, a: nat)
    requires WaitStep(s, s', a) && BlocksOk(s) && a in s'.pcbs
    ensures BlockOk(s', a)
  {
    hide UserMap, Without;
    assert BlockOk(s, a);
  }

  lemma OtherBlock(s: State, s': State, a: nat, b: nat)
    requires StateOk(s) && BlocksOk(s) && Acts(s, s', a) && b in s'.pcbs && a != b
    ensures BlockOk(s', b)
  {
    hide Acts, BlockOk, StateOk;
    OthersAreOld(s, s', a, b);
    if Alive(s.pcbs[b]) {
      var frames, given := OtherKept(s, s', a, b);
    } else {
      ForestIn(s);
      DeadOther(s, s', a, b);
    }
    SameBlock(s, s', b);
  }

  lemma ForestIn(s: State)
    requires StateOk(s)
    ensures ForestOk(s) && s.lay.UserPages() <= PAGES
  {
  }

  lemma OthersAreOld(s: State, s': State, a: nat, b: nat)
    requires StateOk(s) && Acts(s, s', a) && b in s'.pcbs && a != b
    ensures b in s.pcbs && s.lay.UserPages() <= PAGES
  {
    hide UserMap, SpaceAdded, SpaceChanged, Cloned, Fresh, Recount, BootMap, HasChild, Without, FramesOk, MapsOk, SpacesOk, ForestOk, ListOk;
  }

  /**
   MAIN: in any state of any run each process is ready or dead, with its stack below the argument page; a
   live one has its stack mapped, and once it has executed a program its heap and argument page, with the
   break inside the heap.
   */
  lemma {:induction false} RunBlocks(run: seq<State>, i: nat)
    requires IsRun(run) && i < |run|
    ensures BlocksOk(run[i])
  {
    hide StateOk, Step, BlockOk, Acts;
    if i > 0 {
      RunBlocks(run, i - 1);
      RunOk(run, i - 1);
      var s, s' := run[i - 1], run[i];
      var a := SomebodyActs(s, s');
      forall b | b in s'.pcbs
        ensures BlockOk(s', b)
      {
        if b == a {
          ActorBlock(s, s', a);
        } else {
          OtherBlock(s, s', a, b);
        }
      }
    }
  }
}
