/**
 The kernel's own calls one after the other: a child is forked, executes a new image, ends and is
 waited for; and a child that leaves a child of its own behind.
 */
module ChildLife {
  import opened Wrappers
  import opened Tables
  import opened Space
  import opened Sequences
  import opened KernelState
  import opened Lifecycle
  import opened Theorems
  import opened ProcessCode

  lemma TakenCount(all: set<nat>, taken: seq<nat>)
    requires Distinct(taken) && forall f | f in taken :: f in all
    ensures |all - Elements(taken)| + |taken| == |all|
  {
    DistinctSize(taken);
    assert all == (all - Elements(taken)) + Elements(taken);
  }

  lemma ForkedChild(s: State, s': State, p: nat, c: nat, frames: seq<nat>)
    requires ListOk(s) && ForkStep(s, s', p, c, frames)
    ensures c in s'.pcbs && Alive(s'.pcbs[c]) && s'.pcbs[c].parent == Some(p) && s'.pcbs[c].pages == frames
    ensures s'.pcbs[c].pid == s.nextPid
    ensures |s'.free| + |frames| == |s.free| && s'.lay == s.lay
  {
    TakenCount(s.free, frames);
  }

  lemma ExecutedChild(s: State, s': State, c: nat, entry: nat, code: nat, frames: seq<nat>)
    requires ExecStep(s, s', c, entry, code, frames)
    ensures s'.pcbs.Keys == s.pcbs.Keys && s'.pcbs[c] == s.pcbs[c].(pages := s'.pcbs[c].pages, pageCount := s'.pcbs[c].pageCount,
      stackTop := s'.pcbs[c].stackTop, heapBase := s'.pcbs[c].heapBase, heapPointer := s'.pcbs[c].heapPointer)
  {
  }

  lemma EndedChild(s: State, s': State, c: nat, status: int)
    requires ExitStep(s, s', c, status)
    ensures c in s.pcbs && s'.pcbs == s.pcbs[c := s.pcbs[c].(state := Zombie, exitStatus := status, pages := [])]
  {
  }

  lemma OnlyThatPid(s: State, c: nat, pid: int)
    requires ListOk(s) && c in s.pcbs && s.pcbs[c].pid == pid
    ensures forall a | a in s.pcbs && s.pcbs[a].pid == pid :: a == c
  {
    forall a | a in s.pcbs && s.pcbs[a].pid == pid
      ensures a == c
    {
      SamePid(s, a, c);
    }
  }

  lemma WaitedFor(s: State, s': State, a: nat, c: nat)
    requires ListOk(s) && WaitStep(s, s', a) && c in s.pcbs && s.pcbs[a].pid == s.pcbs[c].pid
    ensures a == c
  {
    SamePid(s, a, c);
  }

  /** The running process forks a child, which is scheduled and executes a new image. */
  method ForkAndExec(k: Kernel, entry: nat, code: nat) returns (pid: nat, ghost c: nat, ghost s1: State)
    requires k.Wired() && StateOk(k.S()) && k.current in k.pcbs && Alive(k.pcbs[k.current])
    requires k.pcbs[k.current].pgtable in k.mmu.l1 && |UserMap(k.lay, k.mmu.V(), k.pcbs[k.current].pgtable)| <= |k.free|
    requires entry % PAGE_SIZE == 0 && entry / PAGE_SIZE + code <= k.lay.UserPages()
    requires k.lay.stackPages + code + 1 + k.lay.heapPages <= k.lay.UserPages()
    requires k.lay.stackPages + code + k.lay.heapPages + 1 <= |k.free|
    modifies k, k.mmu
    ensures k.current == c && StateOk(k.S()) && pid == old(k.pidCurrent)
    ensures c in k.pcbs && Alive(k.pcbs[c]) && k.pcbs[c].parent == Some(old(k.current)) && k.pcbs[c].pid == pid
    ensures Forks(old(k.S()), s1, old(k.current), c) && Execs(s1, k.S(), c)
  {
    hide ForkStep, ExecStep, UserMap, StateOk, ListOk;
    ghost var s0, parent := k.S(), k.current;
    ListsIn(s0);
    pid, c := k.Fork();
    s1 := k.S();
    ListsIn(s1);
    ForkedChild(s0, s1, parent, c, s1.pcbs[c].pages);
    Schedule(k, pid, c);
    k.SetupProcImageReplace(entry, code, None);
    ExecutedChild(s1, k.S(), c, entry / PAGE_SIZE, code, k.pcbs[c].pages);
  }

  lemma WholeLifeReady(s: State)
    requires StateOk(s)
    ensures ListOk(s) && ForestOk(s) && FramesOk(s)
  {
  }

  /**
   MAIN: with enough frames for the copy and for the new image, the whole life of a child leaves
   the kernel as it was, apart from the pid counter and the bytes of free frames, and the parent
   learns the low byte of the exit status.
   */
  method WholeLife(k: Kernel, entry: nat, code: nat, status: int) returns (ret: int, wstatus: Option<int>)
    requires k.Wired() && StateOk(k.S()) && k.current in k.pcbs && Alive(k.pcbs[k.current])
    requires k.pcbs[k.current].pgtable in k.mmu.l1 && |UserMap(k.lay, k.mmu.V(), k.pcbs[k.current].pgtable)| <= |k.free|
    requires entry % PAGE_SIZE == 0 && entry / PAGE_SIZE + code <= k.lay.UserPages()
    requires k.lay.stackPages + code + 1 + k.lay.heapPages <= k.lay.UserPages()
    requires k.lay.stackPages + code + k.lay.heapPages + 1 <= |k.free|
    modifies k, k.mmu
    ensures k.S() == old(k.S()).(nextPid := old(k.pidCurrent) + 1, mem := k.mem)
    ensures forall f | f in old(k.mem) && f !in old(k.free) :: f in k.mem && k.mem[f] == old(k.mem)[f]
    ensures ret == old(k.pidCurrent) && wstatus == Some(status % 256 * 256) && k.current == old(k.current)
  {
    hide Forks, Execs, UserMap, WaitStep, ExitStep, StateOk, ListOk, ForestOk, FramesOk;
    var parent := k.current;
    ghost var s0 := k.S();
    WholeLifeReady(s0);
    var pid;
    ghost var c, s1;
    pid, c, s1 := ForkAndExec(k, entry, code);
    ghost var s2 := k.S();
    var panicked := k.Exit(status);
    ghost var s3 := k.S();
    EndedChild(s2, s3, c, status);
    k.current := parent;
    ListsIn(s3);
    OnlyThatPid(s3, c, pid);
    ghost var w: Option<nat>;
    ret, wstatus, w := k.Waitpid(pid, false);
    WaitedFor(s3, k.S(), w.value, c);
    LifeLeavesNothing(s0, [s1, s2], s3, k.S(), parent, c);
  }

  // ----- a zombie that is kept

  lemma {:induction false} AssignBound(m: map<nat, nat>, ps: seq<nat>, fs: seq<nat>)
    requires |ps| == |fs|
    ensures |Assign(m, ps, fs)| <= |m| + |ps|
  {
    if |ps| > 0 {
      var n := |ps| - 1;
      AssignBound(m, ps[..n], fs[..n]);
      MapGrows(Assign(m, ps[..n], fs[..n]), ps[n], fs[n]);
    }
  }

  lemma MapGrows(m: map<nat, nat>, v: nat, f: nat)
    ensures |m[v := f]| <= |m| + 1
  {
    assert m[v := f].Keys == m.Keys + {v};
  }

  lemma BootMapBound(lay: Layout, frames: seq<nat>)
    requires lay.Valid() && |frames| == lay.stackPages
    ensures |BootMap(lay, frames)| <= lay.stackPages + lay.imagePages
  {
    var stack := Range(lay.argsPage - lay.stackPages, lay.stackPages);
    AssignBound(map[], stack, frames);
    AssignBound(Assign(map[], stack, frames), Range(lay.userPage, lay.imagePages), Range(lay.imageFrame, lay.imagePages));
  }

  /** What a process needs to be forked: to be alive, to have its table, and as many frames as it maps pages. */
  ghost predicate CanFork(s: State, p: nat, pages: nat) {
    && p in s.pcbs && Alive(s.pcbs[p]) && s.pcbs[p].pgtable in s.tables.l1
    && s.lay.UserPages() <= PAGES && |UserMap(s.lay, s.tables, s.pcbs[p].pgtable)| <= pages
  }

  lemma CreatedRoot(s: State, s': State, r: nat, frames: seq<nat>)
    requires CreateRootStep(s, s', r, frames) && s.pcbs == map[]
    ensures CanFork(s', r, s.lay.stackPages + s.lay.imagePages) && s'.pcbs.Keys == {r} && s'.lay == s.lay
    ensures |s'.free| + s.lay.stackPages == |s.free|
  {
    hide UserMap, BootMap;
    BootMapBound(s.lay, frames);
    TakenCount(s.free, frames);
  }

  lemma ForkedAgain(s: State, s': State, p: nat, c: nat, frames: seq<nat>, pages: nat)
    requires ListOk(s) && ForkStep(s, s', p, c, frames) && CanFork(s, p, pages)
    ensures CanFork(s', c, pages) && |s'.free| + pages >= |s.free| && s'.lay == s.lay
    ensures s'.pcbs.Keys == s.pcbs.Keys + {c} && (forall b | b in s.pcbs :: s'.pcbs[b] == s.pcbs[b]) && c !in s.pcbs
    ensures s'.pcbs[c].parent == Some(p) && s'.pcbs[c].pid == s.nextPid
  {
    hide UserMap;
    ForkedChild(s, s', p, c, frames);
    SameSize(UserMap(s.lay, s.tables, s.pcbs[p].pgtable), UserMap(s.lay, s'.tables, s'.pcbs[c].pgtable));
  }

  lemma SameSize(m: map<nat, nat>, m': map<nat, nat>)
    requires m.Keys == m'.Keys
    ensures |m| == |m'|
  {
    assert |m| == |m.Keys| && |m'| == |m'.Keys|;
  }

  /** The kernel after a process c has been waited for that left its child g behind. */
  ghost predicate LeftBehind(s: State, r: nat, c: nat, g: nat) {
    && s.pcbs.Keys == {r, c, g} && r != c && c != g && r != g
    && s.pcbs[c].state == Zombie && !s.pcbs[c].mainThread && s.pcbs[c].pgtable !in s.tables.l1
    && s.pcbs[g].parent == Some(c) && Alive(s.pcbs[g]) && Alive(s.pcbs[r]) && s.pcbs[c].parent == Some(r)
  }

  lemma WaitedAndKept(s: State, s': State, r: nat, c: nat, g: nat)
    requires WaitStep(s, s', c) && s.pcbs.Keys == {r, c, g} && r != c && c != g && r != g
    requires s.pcbs[g].parent == Some(c) && Alive(s.pcbs[g]) && Alive(s.pcbs[r]) && s.pcbs[c].parent == Some(r)
    ensures LeftBehind(s', r, c, g) && HasChild(s', c)
  {
    assert HasChild(s, c);
    assert s'.pcbs[g].parent == Some(c);
  }

  /** The process with the pid becomes the running one. */
  method Schedule(k: Kernel, pid: int, ghost c: nat)
    requires ListOk(k.S()) && c in k.pcbs && k.pcbs[c].pid == pid
    modifies k
    ensures k.current == c && k.S() == old(k.S())
  {
    var a := k.FindProcByPid(pid);
    SamePid(k.S(), a.value, c);
    k.current := a.value;
  }

  /** Three processes, each the child of the one before, the second of them running. */
  ghost predicate Line(s: State, r: nat, c: nat, g: nat) {
    && s.pcbs.Keys == {r, c, g} && r != c && c != g && r != g
    && Alive(s.pcbs[r]) && Alive(s.pcbs[c]) && Alive(s.pcbs[g])
    && s.pcbs[c].parent == Some(r) && s.pcbs[g].parent == Some(c)
  }

  lemma LineFacts(s: State, r: nat, c: nat, g: nat)
    requires Line(s, r, c, g)
    ensures r in s.pcbs && c in s.pcbs && g in s.pcbs && Alive(s.pcbs[c]) && s.pcbs[c].parent == Some(r) && c != r
  {
  }

  lemma ForksLine(s1: State, s2: State, s3: State, r: nat, c: nat, g: nat)
    requires s1.pcbs.Keys == {r} && s2.pcbs.Keys == {r, c} && s3.pcbs.Keys == {r, c} + {g}
    requires c !in s1.pcbs && g !in s2.pcbs && s2.pcbs[r] == s1.pcbs[r] && s3.pcbs[r] == s2.pcbs[r] && s3.pcbs[c] == s2.pcbs[c]
    requires Alive(s1.pcbs[r]) && Alive(s2.pcbs[c]) && Alive(s3.pcbs[g])
    requires s2.pcbs[c].parent == Some(r) && s3.pcbs[g].parent == Some(c)
    ensures Line(s3, r, c, g)
  {
  }

  /** The first process made at boot forks a child, which forks in turn. */
  method ForkTwice(lay: Layout, sys: nat, boot: Heap, pool: set<nat>, mem: map<nat, Contents>)
    returns (k: Kernel, root: nat, pid: nat, ghost c: nat, ghost g: nat, ghost run: seq<State>)
    requires PoolOk(State(lay, sys, boot, map[], [], 1, pool, pool, map[], mem)) && TablesOk(lay, boot, sys, {})
    requires 3 * lay.stackPages + 2 * lay.imagePages <= |pool|
    ensures k.Wired() && StateOk(k.S()) && Line(k.S(), root, c, g) && k.current == c && c in k.pcbs && k.pcbs[c].pid == pid
    ensures IsRun(run) && run[|run| - 1] == k.S() && fresh(k) && fresh(k.mmu)
  {
    hide ForkStep, CreateRootStep, StateOk, CanFork, Line, Init, Step, UserMap, TablesOk, PoolOk;
    ghost var pages := lay.stackPages + lay.imagePages;
    k := new Kernel(lay, sys, boot, pool, mem);
    ghost var s0 := k.S();
    InitOk(s0);
    root := k.CreateRootProcess();
    ghost var s1 := k.S();
    CreatedRoot(s0, s1, root, s1.pcbs[root].pages);
    k.current := root;
    ForkReady(s1, root, pages);
    pid, c := k.Fork();
    ghost var s2 := k.S();
    ListsIn(s1);
    ForkedAgain(s1, s2, root, c, s2.pcbs[c].pages, pages);
    ListsIn(s2);
    Schedule(k, pid, c);
    ForkReady(s2, c, pages);
    ghost var pid2;
    pid2, g := k.Fork();
    ghost var s3 := k.S();
    ForkedAgain(s2, s3, c, g, s3.pcbs[g].pages, pages);
    ForkReady(s3, g, pages);
    ForksLine(s1, s2, s3, root, c, g);
    run := [s0, s1, s2, s3];
    StepsTaken(s0, s1, s2, s3, root, c, g);
  }

  lemma ListsIn(s: State)
    requires StateOk(s)
    ensures ListOk(s)
  {
  }

  lemma StepsTaken(s0: State, s1: State, s2: State, s3: State, r: nat, c: nat, g: nat)
    requires r in s1.pcbs && c in s2.pcbs && g in s3.pcbs
    requires CreateRootStep(s0, s1, r, s1.pcbs[r].pages) && ForkStep(s1, s2, r, c, s2.pcbs[c].pages)
    requires ForkStep(s2, s3, c, g, s3.pcbs[g].pages)
    ensures Step(s0, s1) && Step(s1, s2) && Step(s2, s3)
  {
    hide CreateRootStep, ForkStep;
  }

  lemma EndedLine(s: State, s': State, s'': State, r: nat, c: nat, g: nat, status: int)
    requires Line(s, r, c, g) && ExitStep(s, s', c, status) && WaitStep(s', s'', c)
    ensures LeftBehind(s'', r, c, g) && HasChild(s'', c) && Step(s, s') && Step(s', s'')
  {
    EndedChild(s, s', c, status);
    WaitedAndKept(s', s'', r, c, g);
  }

  /**
   MAIN: from boot, the kernel's own calls reach a zombie that has been waited for and still has a
   block and a child, but no table: a process forks a child, which forks in turn and ends.
   */
  method LeaveGrandchild(lay: Layout, sys: nat, boot: Heap, pool: set<nat>, mem: map<nat, Contents>)
    returns (k: Kernel, ghost r: nat, ghost c: nat, ghost g: nat, ghost run: seq<State>)
    requires PoolOk(State(lay, sys, boot, map[], [], 1, pool, pool, map[], mem)) && TablesOk(lay, boot, sys, {})
    requires 3 * lay.stackPages + 2 * lay.imagePages <= |pool|
    ensures k.Wired() && StateOk(k.S()) && LeftBehind(k.S(), r, c, g) && HasChild(k.S(), c) && k.current == r
    ensures IsRun(run) && run[|run| - 1] == k.S() && fresh(k) && fresh(k.mmu)
  {
    hide ForkStep, CreateRootStep, ExitStep, WaitStep, StateOk, Line, LeftBehind, HasChild, Init, Step, PoolOk, TablesOk;
    var root, pid;
    k, root, pid, c, g, run := ForkTwice(lay, sys, boot, pool, mem);
    r := root;
    ghost var s := k.S();
    LineFacts(s, r, c, g);
    var panicked := k.Exit(0);
    ghost var s' := k.S();
    EndedChild(s, s', c, 0);
    k.current := root;
    ListsIn(s');
    OnlyThatPid(s', c, pid);
    ghost var w: Option<nat>;
    var ret, wstatus;
    ret, wstatus, w := k.Waitpid(pid, false);
    WaitedFor(s', k.S(), w.value, c);
    EndedLine(s, s', k.S(), r, c, g, 0);
    run := run + [s', k.S()];
  }

  lemma ForkReady(s: State, p: nat, pages: nat)
    requires CanFork(s, p, pages)
    ensures p in s.pcbs && Alive(s.pcbs[p]) && s.pcbs[p].pgtable in s.tables.l1
    ensures s.lay.UserPages() <= PAGES && |UserMap(s.lay, s.tables, s.pcbs[p].pgtable)| <= pages
  {
  }

  // ----- waiting for any child

  /** The running process g ends and `waiter` waits for any zombie: there is only this one. */
  method EndAndWaitAny(k: Kernel, waiter: nat, ghost g: nat) returns (ret: int, ghost s1: State)
    requires k.Wired() && StateOk(k.S()) && k.current == g && g in k.pcbs && Alive(k.pcbs[g]) && k.pcbs[g].parent.Some?
    requires forall a | a in k.pcbs :: !Unwaited(k.S(), a)
    modifies k, k.mmu
    ensures StateOk(k.S()) && k.current == waiter && ret == old(k.pcbs)[g].pid
    ensures ExitStep(old(k.S()), s1, g, 0) && WaitStep(s1, k.S(), g)
  {
    hide ExitStep, WaitStep, StateOk, ListOk;
    ghost var s := k.S();
    var panicked := k.Exit(0);
    s1 := k.S();
    EndedChild(s, s1, g, 0);
    k.current := waiter;
    var status;
    ghost var w: Option<nat>;
    ret, status, w := k.Waitpid(-1, false);
    OnlyUnwaited(s, s1, g);
  }

  lemma OnlyUnwaited(s: State, s': State, g: nat)
    requires g in s.pcbs && Alive(s.pcbs[g]) && (forall a | a in s.pcbs :: !Unwaited(s, a))
    requires s'.pcbs == s.pcbs[g := s.pcbs[g].(state := Zombie, exitStatus := 0, pages := [])]
    ensures Unwaited(s', g) && forall a | Unwaited(s', a) :: a == g
  {
  }

  lemma LineUnwaited(s: State, r: nat, c: nat, g: nat)
    requires Line(s, r, c, g) || LeftBehind(s, r, c, g)
    ensures g in s.pcbs && Alive(s.pcbs[g]) && s.pcbs[g].parent == Some(c) && c != r
    ensures c in s.pcbs && forall a | a in s.pcbs && s.pcbs[a].parent == Some(c) :: a == g || (a == r && s.pcbs[r].parent == Some(c))
    ensures forall a | a in s.pcbs :: !Unwaited(s, a)
  {
  }

  /** The parent of the first of three processes is none of them: it was made at boot. */
  lemma ChildOfMiddle(s: State, r: nat, c: nat, g: nat)
    requires ListOk(s) && ForestOk(s) && (Line(s, r, c, g) || LeftBehind(s, r, c, g))
    ensures forall a | a in s.pcbs && s.pcbs[a].parent == Some(c) :: a == g
  {
    LineUnwaited(s, r, c, g);
    assert s.pcbs[c].parent == Some(r);
    assert s.pcbs[r].pid < s.pcbs[c].pid;
  }

  /**
   MAIN: from boot, the kernel's own calls reach a waitpid(-1) that takes a process whose parent is not
   the caller: a grandchild ends, and its grandparent waits.
   */
  method WaitForGrandchild(lay: Layout, sys: nat, boot: Heap, pool: set<nat>, mem: map<nat, Contents>)
    returns (k: Kernel, ret: int, ghost r: nat, ghost c: nat, ghost g: nat, ghost run: seq<State>)
    requires PoolOk(State(lay, sys, boot, map[], [], 1, pool, pool, map[], mem)) && TablesOk(lay, boot, sys, {})
    requires 3 * lay.stackPages + 2 * lay.imagePages <= |pool|
    ensures k.Wired() && StateOk(k.S()) && k.current == r && fresh(k) && fresh(k.mmu)
    ensures IsRun(run) && run[|run| - 1] == k.S() && 2 < |run|
    ensures var s, s' := run[|run| - 3], run[|run| - 2];
      && Line(s, r, c, g) && ExitStep(s, s', g, 0) && WaitStep(s', k.S(), g)
      && ret == s.pcbs[g].pid && s.pcbs[g].parent == Some(c) && c != r
  {
    hide ExitStep, WaitStep, StateOk, Line, Init, Step, PoolOk, TablesOk, ListOk, ForestOk, Unwaited;
    var root, pid;
    k, root, pid, c, g, run := ForkTwice(lay, sys, boot, pool, mem);
    r := root;
    ghost var s := k.S();
    LineUnwaited(s, r, c, g);
    WholeLifeReady(s);
    ChildOfMiddle(s, r, c, g);
    ChildThere(s, c, g);
    var child := k.FindProcByParent(k.current);
    k.current := child.value;
    ghost var s1;
    ret, s1 := EndAndWaitAny(k, root, g);
    EndedSteps(s, s1, k.S(), g);
    run := run + [s1, k.S()];
  }

  lemma ChildThere(s: State, c: nat, g: nat)
    requires g in s.pcbs && s.pcbs[g].parent == Some(c)
    ensures HasChild(s, c)
  {
  }

  lemma EndedSteps(s: State, s1: State, s2: State, g: nat)
    requires ExitStep(s, s1, g, 0) && WaitStep(s1, s2, g)
    ensures Step(s, s1) && Step(s1, s2)
  {
    hide ExitStep, WaitStep;
  }
}
