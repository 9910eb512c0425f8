/**
 The state of the kernel between two system calls, what always holds of it, and what each call
 may do to it.  Process control blocks are blocks of the kernel heap, named by their address.
 */
module KernelState {
  import opened Wrappers
  import opened Tables
  import opened Space
  import opened Sequences

  newtype byte = x: int | 0 <= x < 256

  /** The bytes of one physical frame. */
  type Contents = c: seq<byte> | |c| == 4096 witness seq(4096, _ => 0)

  datatype ProcState = New | Ready | Running | Zombie

  datatype Pcb = Pcb(
    pid: nat, parent: Option<nat>, state: ProcState, mainThread: bool, pgtable: nat, pages: seq<nat>,
    pageCount: nat, stackTop: nat, heapBase: nat, heapPointer: nat, exitStatus: int)

  datatype State = State(
    lay: Layout, sys: nat, tables: Heap,
    pcbs: map<nat, Pcb>, procList: seq<nat>, nextPid: nat,
    pool: set<nat>, free: set<nat>, refs: map<nat, nat>, mem: map<nat, Contents>)

  function Range(first: nat, n: nat): (r: seq<nat>)
    ensures |r| == n
    ensures forall k | 0 <= k < n :: r[k] == first + k
  {
    seq(n, k requires 0 <= k < n => first + k)
  }

  /** A flat map after the pages ps have been mapped, one after the other, to the frames fs. */
  function Assign(m: map<nat, nat>, ps: seq<nat>, fs: seq<nat>): map<nat, nat>
    requires |ps| == |fs|
  {
    if |ps| == 0 then m
    else Assign(m, ps[..|ps| - 1], fs[..|ps| - 1])[ps[|ps| - 1] := fs[|ps| - 1]]
  }

  /** All page lists together, with multiplicity. */
  ghost function Owners(pcbs: map<nat, Pcb>, list: seq<nat>): multiset<nat>
    requires forall a | a in list :: a in pcbs
  {
    if list == [] then multiset{} else multiset(pcbs[list[0]].pages) + Owners(pcbs, list[1..])
  }

  /** A process that has not been waited for still has its page table. */
  ghost function Roots(pcbs: map<nat, Pcb>): set<nat> {
    set a | a in pcbs && pcbs[a].mainThread :: pcbs[a].pgtable
  }

  // ----- what holds between two calls

  ghost predicate Increasing(pcbs: map<nat, Pcb>, list: seq<nat>)
    requires forall a | a in list :: a in pcbs
  {
    forall i, j | 0 <= i < j < |list| :: pcbs[list[i]].pid < pcbs[list[j]].pid
  }

  /** The process list holds every block once, in the order of their pids. */
  ghost predicate ListOk(s: State) {
    && (forall a | a in s.procList :: a in s.pcbs)
    && (forall a | a in s.pcbs :: a in s.procList)
    && Increasing(s.pcbs, s.procList)
    && (forall a | a in s.pcbs :: 0 < s.pcbs[a].pid < s.nextPid) && 0 < s.nextPid
  }

  /** Parents are older and still there; a process without a parent never dies. */
  ghost predicate ForestOk(s: State) {
    && (forall a | a in s.pcbs && s.pcbs[a].parent.Some? ::
          s.pcbs[a].parent.value in s.pcbs && s.pcbs[s.pcbs[a].parent.value].pid < s.pcbs[a].pid)
    && (forall a | a in s.pcbs && s.pcbs[a].parent.None? :: s.pcbs[a].state != Zombie)
    && (forall a | a in s.pcbs && !s.pcbs[a].mainThread :: s.pcbs[a].state == Zombie)
    && (forall a | a in s.pcbs && s.pcbs[a].state == Zombie :: s.pcbs[a].pages == [])
  }

  /** Page tables are in order, and no two processes that still have one have the same. */
  ghost predicate SpacesOk(s: State) {
    && TablesOk(s.lay, s.tables, s.sys, Roots(s.pcbs))
    && (forall a, b | a in s.pcbs && b in s.pcbs && a != b && s.pcbs[a].mainThread && s.pcbs[b].mainThread ::
          s.pcbs[a].pgtable != s.pcbs[b].pgtable)
  }

  /** Reference counts count, free frames are those that nobody owns, and nobody shares a frame. */
  ghost predicate FramesOk(s: State)
    requires ListOk(s)
  {
    && s.refs.Keys == s.pool && s.free <= s.pool
    && (forall f | f in s.pool :: s.refs[f] == Owners(s.pcbs, s.procList)[f] <= 1)
    && (forall f | f in s.pool :: f in s.free <==> s.refs[f] == 0)
    && (forall a, f | a in s.pcbs && f in s.pcbs[a].pages :: f in s.pool)
  }

  /** The pool leaves out frame 0 and the frames of the boot image. */
  ghost predicate PoolOk(s: State) {
    && s.lay.Valid()
    && (forall f | f in s.pool :: 0 < f < PAGES && !(s.lay.imageFrame <= f < s.lay.imageFrame + s.lay.imagePages))
    && (forall f | 0 <= f < PAGES :: f in s.mem)
  }

  /**
   A process maps something, and only frames of its own; a process made at boot time also maps
   the boot image, which is outside the pool.
   */
  ghost predicate MapOk(lay: Layout, h: Heap, pool: set<nat>, p: Pcb)
    requires p.pgtable in h.l1 && lay.UserPages() <= PAGES
  {
    && (exists v :: v in UserMap(lay, h, p.pgtable))
    && (forall v | v in UserMap(lay, h, p.pgtable) ::
          || UserMap(lay, h, p.pgtable)[v] in p.pages
          || (p.parent.None? && UserMap(lay, h, p.pgtable)[v] < PAGES && UserMap(lay, h, p.pgtable)[v] !in pool))
  }

  ghost predicate Alive(p: Pcb) {
    p.mainThread && p.state != Zombie
  }

  ghost predicate MapsOk(s: State)
    requires PoolOk(s) && SpacesOk(s)
  {
    forall a | a in s.pcbs && Alive(s.pcbs[a]) :: MapOk(s.lay, s.tables, s.pool, s.pcbs[a])
  }

  ghost predicate StateOk(s: State) {
    PoolOk(s) && ListOk(s) && ForestOk(s) && SpacesOk(s) && FramesOk(s) && MapsOk(s)
  }

  // ----- the calls

  /** Reference counts after some frames have been given back and others taken. */
  function Recount(refs: map<nat, nat>, given: seq<nat>, taken: seq<nat>): map<nat, nat> {
    map f | f in refs :: if f in taken then 1 else if f in given then 0 else refs[f]
  }

  /** Distinct frames out of those that are free once some have been given back. */
  ghost predicate Fresh(s: State, given: seq<nat>, taken: seq<nat>) {
    Distinct(taken) && forall f | f in taken :: f in s.free || f in given
  }

  /** One more address space, with second-level tables of its own. */
  ghost predicate SpaceAdded(s: State, s': State, root: nat) {
    && root !in s.tables.l1 && root in s'.tables.l1
    && s'.tables.l1 == s.tables.l1[root := s'.tables.l1[root]]
    && Rest(s.lay, s'.tables, root) == s.tables.l2
    && RootOk(s.lay, s'.tables, s.sys, root)
    && s'.tables.l1[root][s.lay.FixmapSlot()] == Fault
  }

  /** The address space at root may have changed, but no other one. */
  ghost predicate SpaceChanged(s: State, s': State, root: nat) {
    && root in s.tables.l1
    && Local(s.lay, s.tables, s'.tables, root)
    && RootOk(s.lay, s'.tables, s.sys, root)
    && s'.tables.l1[root][s.lay.FixmapSlot()] == Fault
  }

  /** The map a boot process starts with: a stack of its own, and the boot image. */
  ghost function BootMap(lay: Layout, frames: seq<nat>): map<nat, nat>
    requires lay.Valid() && |frames| == lay.stackPages
  {
    Assign(Assign(map[], Range(lay.argsPage - lay.stackPages, lay.stackPages), frames),
           Range(lay.userPage, lay.imagePages), Range(lay.imageFrame, lay.imagePages))
  }

  ghost predicate CreateRootStep(s: State, s': State, a: nat, frames: seq<nat>) {
    && s.lay.Valid() && a !in s.pcbs && a in s'.pcbs && |frames| == s.lay.stackPages
    && Fresh(s, [], frames)
    && SpaceAdded(s, s', s'.pcbs[a].pgtable)
    && UserMap(s.lay, s'.tables, s'.pcbs[a].pgtable) == BootMap(s.lay, frames)
    && s' == s.(tables := s'.tables,
                pcbs := s.pcbs[a := Pcb(s.nextPid, None, Ready, true, s'.pcbs[a].pgtable, frames, s.lay.stackPages,
                                        s.lay.argsPage * PAGE_SIZE, 0, 0, 0)],
                procList := s.procList + [a], nextPid := s.nextPid + 1,
                free := s.free - Elements(frames), refs := Recount(s.refs, [], frames))
  }

  ghost predicate Injective(m: map<nat, nat>) {
    forall v, w | v in m && w in m && v != w :: m[v] != m[w]
  }

  /** The copy maps the same pages, each to a frame of its own out of the given ones, which are all used. */
  ghost predicate SameShape(orig: map<nat, nat>, copy: map<nat, nat>, frames: seq<nat>) {
    copy.Keys == orig.Keys && |frames| == |orig| && copy.Values == Elements(frames) && Injective(copy)
  }

  /** Each frame of the copy has received the bytes of the original's, and no other frame has changed. */
  ghost predicate SameBytes(mem: map<nat, Contents>, mem': map<nat, Contents>,
                            orig: map<nat, nat>, copy: map<nat, nat>, frames: seq<nat>) {
    && mem'.Keys == mem.Keys
    && (forall v | v in orig && v in copy :: orig[v] in mem && copy[v] in mem && mem'[copy[v]] == mem[orig[v]])
    && (forall f | f in mem && f !in frames :: mem'[f] == mem[f])
  }

  ghost predicate Cloned(mem: map<nat, Contents>, mem': map<nat, Contents>,
                         orig: map<nat, nat>, copy: map<nat, nat>, frames: seq<nat>) {
    SameShape(orig, copy, frames) && SameBytes(mem, mem', orig, copy, frames)
  }

  /**
   Fork: the child maps exactly the user pages of the parent p, each to a frame of its own,
   distinct from all others and holding a copy; everything else is as it was.
   */
  ghost predicate ForkStep(s: State, s': State, p: nat, c: nat, frames: seq<nat>) {
    && s.lay.Valid() && p in s.pcbs && Alive(s.pcbs[p]) && c !in s.pcbs && c in s'.pcbs && s.pcbs[p].pgtable in s.tables.l1
    && Fresh(s, [], frames)
    && SpaceAdded(s, s', s'.pcbs[c].pgtable)
    && Cloned(s.mem, s'.mem, UserMap(s.lay, s.tables, s.pcbs[p].pgtable),
              UserMap(s.lay, s'.tables, s'.pcbs[c].pgtable), frames)
    && s' == s.(tables := s'.tables, mem := s'.mem,
                pcbs := s.pcbs[c := Pcb(s.nextPid, Some(p), Ready, true, s'.pcbs[c].pgtable, frames,
                                        s.pcbs[p].pageCount, s.pcbs[p].stackTop, s.pcbs[p].heapBase, s.pcbs[p].heapPointer, 0)],
                procList := s.procList + [c], nextPid := s.nextPid + 1,
                free := s.free - Elements(frames), refs := Recount(s.refs, [], frames))
  }

  /** The pages of a new image in the order they are mapped: stack, code, heap, arguments. */
  function ImagePages(lay: Layout, entry: nat, code: nat): (r: seq<nat>)
    requires lay.stackPages <= lay.argsPage
    ensures |r| == lay.stackPages + code + lay.heapPages + 1
  {
    Range(lay.argsPage - lay.stackPages, lay.stackPages) + Range(entry, code)
    + Range(lay.stackPages + code + 1, lay.heapPages) + [lay.argsPage]
  }

  /** Exec: the process a drops all its frames and gets a new image of frames of its own. */
  ghost predicate ExecStep(s: State, s': State, a: nat, entry: nat, code: nat, frames: seq<nat>) {
    && s.lay.Valid() && a in s.pcbs && Alive(s.pcbs[a]) && a in s'.pcbs
    && Fresh(s, s.pcbs[a].pages, frames) && |frames| == |ImagePages(s.lay, entry, code)|
    && SpaceChanged(s, s', s.pcbs[a].pgtable)
    && UserMap(s.lay, s'.tables, s.pcbs[a].pgtable) == Assign(map[], ImagePages(s.lay, entry, code), frames)
    && s'.mem.Keys == s.mem.Keys && (forall f | f in s.mem && f !in frames :: s'.mem[f] == s.mem[f])
    && s' == s.(tables := s'.tables, mem := s'.mem,
                pcbs := s.pcbs[a := s.pcbs[a].(pages := frames, pageCount := |frames|, stackTop := s.lay.argsPage * PAGE_SIZE,
                                               heapBase := (s.lay.stackPages + code + 1) * PAGE_SIZE,
                                               heapPointer := (s.lay.stackPages + code + 1) * PAGE_SIZE)],
                free := s.free + Elements(s.pcbs[a].pages) - Elements(frames),
                refs := Recount(s.refs, s.pcbs[a].pages, frames))
  }

  /** Exit: the process a gives its frames back and waits for its parent. */
  ghost predicate ExitStep(s: State, s': State, a: nat, status: int) {
    && a in s.pcbs && Alive(s.pcbs[a]) && s.pcbs[a].parent.Some?
    && s' == s.(pcbs := s.pcbs[a := s.pcbs[a].(state := Zombie, exitStatus := status, pages := [])],
                free := s.free + Elements(s.pcbs[a].pages),
                refs := Recount(s.refs, s.pcbs[a].pages, []))
  }

  /** Sbrk: the break of the process a moves, within the size of the heap. */
  ghost predicate SbrkStep(s: State, s': State, a: nat, increment: int) {
    && a in s.pcbs && Alive(s.pcbs[a])
    && 0 <= s.pcbs[a].heapPointer - s.pcbs[a].heapBase + increment < s.lay.heapSize
    && s' == s.(pcbs := s.pcbs[a := s.pcbs[a].(heapPointer := s.pcbs[a].heapPointer + increment)])
  }

  ghost predicate HasChild(s: State, a: nat) {
    exists c :: c in s.pcbs && s.pcbs[c].parent == Some(a)
  }

  function Without(list: seq<nat>, a: nat): seq<nat> {
    if list == [] then [] else if list[0] == a then list[1..] else [list[0]] + Without(list[1..], a)
  }

  /** Wait: the tables of the dead process a go, and its block too unless it has children. */
  ghost predicate WaitStep(s: State, s': State, a: nat) {
    && a in s.pcbs && s.pcbs[a].state == Zombie && s.pcbs[a].mainThread
    && s.pcbs[a].pgtable in s.tables.l1
    && s'.tables == Heap(s.tables.l1 - {s.pcbs[a].pgtable}, Rest(s.lay, s.tables, s.pcbs[a].pgtable))
    && s' == (if HasChild(s, a) then s.(tables := s'.tables, pcbs := s.pcbs[a := s.pcbs[a].(mainThread := false)])
              else s.(tables := s'.tables, pcbs := s.pcbs - {a}, procList := Without(s.procList, a)))
  }

  ghost predicate Step(s: State, s': State) {
    || (exists a, frames :: CreateRootStep(s, s', a, frames))
    || (exists p, c, frames :: ForkStep(s, s', p, c, frames))
    || (exists a, entry, code, frames :: ExecStep(s, s', a, entry, code, frames))
    || (exists a, status :: ExitStep(s, s', a, status))
    || (exists a, increment :: SbrkStep(s, s', a, increment))
    || (exists a :: WaitStep(s, s', a))
  }

  /** A kernel that has booted and not yet made a process. */
  ghost predicate Init(s: State) {
    && PoolOk(s) && s.pcbs == map[] && s.procList == [] && s.nextPid == 1
    && s.free == s.pool && s.refs == (map f | f in s.pool :: 0)
    && TablesOk(s.lay, s.tables, s.sys, {})
  }

  ghost predicate IsRun(run: seq<State>) {
    |run| > 0 && Init(run[0]) && forall i | 0 <= i < |run| - 1 :: Step(run[i], run[i + 1])
  }
}
