/**
 What the invariant of the kernel means for its processes.
 */
module Theorems {
  import opened Wrappers
  import opened Tables
  import opened Space
  import opened Sequences
  import opened KernelState
  import opened Lifecycle

  /** A kernel can boot with any layout and any pool that leaves out frame 0 and the boot image. */
  lemma InitExists(lay: Layout, pool: set<nat>) returns (s: State)
    requires lay.Valid()
    requires forall f | f in pool :: 0 < f < PAGES && !(lay.imageFrame <= f < lay.imageFrame + lay.imagePages)
    ensures Init(s) && s.lay == lay && s.pool == pool
  {
    var blank: Contents := seq(PAGE_SIZE, _ => 0);
    var frames := Range(0, PAGES);
    var mem: map<nat, Contents> := map f | f in frames :: blank;
    forall f | 0 <= f < PAGES
      ensures f in mem
    {
      assert frames[f] == f;
    }
    s := State(lay, 0, Heap(map[0 := EmptyRoot()], map[]), map[], [], 1, pool, pool, map f | f in pool :: 0, mem);
  }

  /**
   MAIN: no page of one process is backed by the same frame as a page of another, except for
   frames of the boot image in two processes that both started at boot.
   */
  lemma Isolation(s: State, a: nat, b: nat, v: nat, w: nat)
    requires StateOk(s) && a in s.pcbs && b in s.pcbs && a != b && Alive(s.pcbs[a]) && Alive(s.pcbs[b])
    requires v in UserMap(s.lay, s.tables, s.pcbs[a].pgtable) && w in UserMap(s.lay, s.tables, s.pcbs[b].pgtable)
    requires UserMap(s.lay, s.tables, s.pcbs[a].pgtable)[v] == UserMap(s.lay, s.tables, s.pcbs[b].pgtable)[w]
    ensures s.pcbs[a].parent == None && s.pcbs[b].parent == None
    ensures UserMap(s.lay, s.tables, s.pcbs[a].pgtable)[v] !in s.pool
  {
    var f := UserMap(s.lay, s.tables, s.pcbs[a].pgtable)[v];
    assert MapOk(s.lay, s.tables, s.pool, s.pcbs[a]) && MapOk(s.lay, s.tables, s.pool, s.pcbs[b]);
    if f in s.pcbs[a].pages {
      PageLists(s, a);
    } else if f in s.pcbs[b].pages {
      PageLists(s, b);
    }
  }

  /** The first process up the chain of parents that has none itself. */
  ghost function Ancestor(s: State, a: nat): nat
    requires ListOk(s) && ForestOk(s) && a in s.pcbs
    decreases s.pcbs[a].pid
  {
    if s.pcbs[a].parent.None? then a else Ancestor(s, s.pcbs[a].parent.value)
  }

  /** MAIN: every chain of parents ends at a process that is alive and was made at boot. */
  lemma {:induction false} AncestorAlive(s: State, a: nat)
    requires ListOk(s) && ForestOk(s) && a in s.pcbs
    ensures var r := Ancestor(s, a); r in s.pcbs && s.pcbs[r].parent == None && Alive(s.pcbs[r])
    ensures a != Ancestor(s, a) ==> s.pcbs[Ancestor(s, a)].pid < s.pcbs[a].pid
    decreases s.pcbs[a].pid
  {
    if s.pcbs[a].parent.Some? {
      AncestorAlive(s, s.pcbs[a].parent.value);
    }
  }

  /** A boot process, or a process that has been waited for and kept, stays what it is. */
  ghost predicate Kept(s: State, s': State, a: nat)
    requires a in s.pcbs
  {
    && a in s'.pcbs && s'.pcbs[a].pid == s.pcbs[a].pid && s'.pcbs[a].parent == s.pcbs[a].parent
    && (!s.pcbs[a].mainThread ==> !s'.pcbs[a].mainThread)
  }

  lemma KeptByFork(s: State, s': State, p: nat, c: nat, frames: seq<nat>, a: nat)
    requires ForkStep(s, s', p, c, frames) && a in s.pcbs
    ensures Kept(s, s', a)
  {
  }

  lemma KeptByExec(s: State, s': State, c: nat, entry: nat, code: nat, frames: seq<nat>, a: nat)
    requires ExecStep(s, s', c, entry, code, frames) && a in s.pcbs
    ensures Kept(s, s', a)
  {
  }

  lemma KeptByWait(s: State, s': State, c: nat, a: nat)
    requires ForestOk(s) && WaitStep(s, s', c) && a in s.pcbs
    requires s.pcbs[a].parent == None || !s.pcbs[a].mainThread
    ensures Kept(s, s', a)
  {
  }

  lemma KeptByStep(s: State, s': State, a: nat)
    requires ForestOk(s) && Step(s, s') && a in s.pcbs
    requires s.pcbs[a].parent == None || !s.pcbs[a].mainThread
    ensures Kept(s, s', a)
  {
    if c, frames :| CreateRootStep(s, s', c, frames) {
    } else if p, c, frames :| ForkStep(s, s', p, c, frames) {
      KeptByFork(s, s', p, c, frames, a);
    } else if c, entry, code, frames :| ExecStep(s, s', c, entry, code, frames) {
      KeptByExec(s, s', c, entry, code, frames, a);
    } else if c, status :| ExitStep(s, s', c, status) {
    } else if c, increment :| SbrkStep(s, s', c, increment) {
    } else {
      var c :| WaitStep(s, s', c);
      KeptByWait(s, s', c, a);
    }
  }

  lemma ForestStays(run: seq<State>, i: nat)
    requires IsRun(run) && i < |run|
    ensures ForestOk(run[i])
  {
    RunOk(run, i);
  }

  /**
   MAIN: over any run in which a process is waited for by its pid once at most, a boot process is
   never removed; and a zombie that was waited for while it had children keeps its block, also after
   its last child has gone: no first wait and no waitpid(-1) removes it.
   */
  lemma {:induction false} Stays(run: seq<State>, a: nat, i: nat, j: nat)
    requires IsRun(run) && i <= j < |run| && a in run[i].pcbs
    requires run[i].pcbs[a].parent == None || !run[i].pcbs[a].mainThread
    ensures Kept(run[i], run[j], a)
    decreases j
  {
    hide Init, Step, ForestOk;
    if i < j {
      Stays(run, a, i, j - 1);
      ForestStays(run, j - 1);
      KeptByStep(run[j - 1], run[j], a);
    }
  }

  /**
   MAIN: the table that a second wait for the same process would free is not the process's own.
   Either it is no live block at all, or it has become the table of somebody else.
   */
  lemma WaitTwice(s: State, a: nat)
    requires StateOk(s) && a in s.pcbs && s.pcbs[a].state == Zombie
    ensures s.pcbs[a].mainThread <==>
            s.pcbs[a].pgtable in s.tables.l1 && s.pcbs[a].pgtable != s.sys
            && forall b | b in s.pcbs && b != a && s.pcbs[b].mainThread :: s.pcbs[b].pgtable != s.pcbs[a].pgtable
  {
    if s.pcbs[a].mainThread {
      assert s.pcbs[a].pgtable in Roots(s.pcbs);
    } else if s.pcbs[a].pgtable in s.tables.l1 && s.pcbs[a].pgtable != s.sys {
      assert s.pcbs[a].pgtable in Roots(s.pcbs);
    }
  }

  // ----- a child's whole life

  /** s is s0 plus one process c, made of frames and tables that were free in s0. */
  ghost predicate PlusChild(s0: State, s: State, c: nat) {
    && c !in s0.pcbs && c in s.pcbs && s.pcbs == s0.pcbs[c := s.pcbs[c]]
    && s.procList == s0.procList + [c] && s.nextPid == s0.nextPid + 1
    && s.lay == s0.lay && s.sys == s0.sys && s.pool == s0.pool
    && s.pcbs[c].mainThread && s.pcbs[c].parent.Some? && s.pcbs[c].parent.value in s0.pcbs
    && PlusSpace(s0, s, s.pcbs[c].pgtable)
    && PlusFrames(s0, s, s.pcbs[c].pages)
  }

  ghost predicate PlusSpace(s0: State, s: State, root: nat) {
    && root !in s0.tables.l1 && root in s.tables.l1
    && s.tables.l1 == s0.tables.l1[root := s.tables.l1[root]]
    && Rest(s0.lay, s.tables, root) == s0.tables.l2
  }

  ghost predicate PlusFrames(s0: State, s: State, pages: seq<nat>) {
    && (forall f | f in s0.free :: f in s0.refs && s0.refs[f] == 0)
    && (forall f | f in pages :: f in s0.free)
    && s.free == s0.free - Elements(pages)
    && s.refs == Recount(s0.refs, [], pages)
    && s.mem.Keys == s0.mem.Keys && (forall f | f in s0.mem && f !in s0.free :: s.mem[f] == s0.mem[f])
  }

  lemma ForkPlus(s0: State, s: State, p: nat, c: nat, frames: seq<nat>)
    requires ListOk(s0) && FramesOk(s0) && ForkStep(s0, s, p, c, frames)
    ensures PlusChild(s0, s, c)
  {
  }

  lemma ExecPlus(s0: State, s: State, s': State, c: nat, entry: nat, code: nat, frames: seq<nat>)
    requires PlusChild(s0, s, c) && ExecStep(s, s', c, entry, code, frames)
    ensures PlusChild(s0, s', c)
  {
    forall f | f in frames
      ensures f in s0.free
    {
    }
    assert s'.free == s0.free - Elements(frames);
    assert s'.refs == Recount(s0.refs, [], frames);
  }

  lemma ExitPlus(s0: State, s: State, s': State, c: nat, status: int)
    requires PlusChild(s0, s, c) && ExitStep(s, s', c, status)
    ensures PlusChild(s0, s', c) && s'.pcbs[c].pages == []
  {
    assert s'.free == s0.free;
    assert s'.refs == Recount(s0.refs, [], []);
  }

  lemma {:induction false} WithoutLast(list: seq<nat>, c: nat)
    requires c !in list
    ensures Without(list + [c], c) == list
  {
    if list != [] {
      assert (list + [c])[1..] == list[1..] + [c];
      WithoutLast(list[1..], c);
    }
  }

  lemma PlusChildless(s0: State, s: State, c: nat)
    requires ForestOk(s0) && PlusChild(s0, s, c)
    ensures !HasChild(s, c)
  {
  }

  lemma PlusNoFrames(s0: State, s: State)
    requires PlusFrames(s0, s, [])
    ensures s.free == s0.free && s.refs == s0.refs
    ensures forall f | f in s0.mem && f !in s0.free :: f in s.mem && s.mem[f] == s0.mem[f]
  {
  }

  lemma PlusNoSpace(s0: State, s: State, root: nat)
    requires PlusSpace(s0, s, root)
    ensures Heap(s.tables.l1 - {root}, Rest(s0.lay, s.tables, root)) == s0.tables
  {
    assert s.tables.l1 - {root} == s0.tables.l1;
  }

  lemma WaitPlus(s0: State, s: State, s': State, c: nat)
    requires ListOk(s0) && ForestOk(s0) && PlusChild(s0, s, c) && s.pcbs[c].pages == [] && WaitStep(s, s', c)
    ensures s' == s0.(nextPid := s0.nextPid + 1, mem := s'.mem)
    ensures forall f | f in s0.mem && f !in s0.free :: f in s'.mem && s'.mem[f] == s0.mem[f]
  {
    hide PlusFrames, PlusSpace, ForestOk, Increasing, HasChild, Without;
    PlusChildless(s0, s, c);
    WithoutLast(s0.procList, c);
    assert s.pcbs - {c} == s0.pcbs;
    PlusNoSpace(s0, s, s.pcbs[c].pgtable);
    PlusNoFrames(s0, s);
  }

  ghost predicate Forks(s: State, s': State, p: nat, c: nat) {
    exists frames :: ForkStep(s, s', p, c, frames)
  }

  ghost predicate Execs(s: State, s': State, c: nat) {
    exists entry, code, frames :: ExecStep(s, s', c, entry, code, frames)
  }

  ghost predicate Exits(s: State, s': State, c: nat) {
    exists status :: ExitStep(s, s', c, status)
  }

  ghost predicate Sbrks(s: State, s': State, c: nat) {
    exists increment :: SbrkStep(s, s', c, increment)
  }

  /** Any number of images, one after the other, and moves of the break. */
  ghost predicate ExecRun(run: seq<State>, c: nat) {
    |run| > 0 && forall i | 0 <= i < |run| - 1 :: Execs(run[i], run[i + 1], c) || Sbrks(run[i], run[i + 1], c)
  }

  lemma {:induction false} ExecRunPlus(s0: State, run: seq<State>, c: nat, i: nat)
    requires ExecRun(run, c) && PlusChild(s0, run[0], c) && i < |run|
    ensures PlusChild(s0, run[i], c)
  {
    if i > 0 {
      ExecRunPlus(s0, run, c, i - 1);
      if Execs(run[i - 1], run[i], c) {
        ExecsPlus(s0, run[i - 1], run[i], c);
      } else {
        SbrksPlus(s0, run[i - 1], run[i], c);
      }
    }
  }

  lemma ExecsPlus(s0: State, s: State, s': State, c: nat)
    requires PlusChild(s0, s, c) && Execs(s, s', c)
    ensures PlusChild(s0, s', c)
  {
    var entry, code, frames :| ExecStep(s, s', c, entry, code, frames);
    ExecPlus(s0, s, s', c, entry, code, frames);
  }

  lemma SbrksPlus(s0: State, s: State, s': State, c: nat)
    requires PlusChild(s0, s, c) && Sbrks(s, s', c)
    ensures PlusChild(s0, s', c)
  {
  }

  /**
   MAIN: a child's whole life, which is its fork from s0, any number of images and moves of the break, its end and the
   wait for it, leaves the page tables, the process list, the blocks, the free frames and the
   reference counts exactly as they were, and every frame in use unchanged.
   */
  lemma LifeLeavesNothing(s0: State, run: seq<State>, s1: State, s: State, p: nat, c: nat)
    requires ListOk(s0) && ForestOk(s0) && FramesOk(s0) && |run| > 0
    requires Forks(s0, run[0], p, c) && ExecRun(run, c) && Exits(run[|run| - 1], s1, c) && WaitStep(s1, s, c)
    ensures s == s0.(nextPid := s0.nextPid + 1, mem := s.mem)
    ensures forall f | f in s0.mem && f !in s0.free :: f in s.mem && s.mem[f] == s0.mem[f]
  {
    assert PlusChild(s0, run[0], c) by {
      var frames :| ForkStep(s0, run[0], p, c, frames);
      ForkPlus(s0, run[0], p, c, frames);
    }
    ExecRunPlus(s0, run, c, |run| - 1);
    assert PlusChild(s0, s1, c) && s1.pcbs[c].pages == [] by {
      var status :| ExitStep(run[|run| - 1], s1, c, status);
      ExitPlus(s0, run[|run| - 1], s1, c, status);
    }
    WaitPlus(s0, s1, s, c);
  }

  // ----- the shape of an image

  lemma {:induction false} AssignSize(ps: seq<nat>, fs: seq<nat>)
    requires |ps| == |fs|
    ensures Assign(map[], ps, fs).Keys == Elements(ps)
    ensures |Assign(map[], ps, fs)| == |ps| <==> Distinct(ps)
    ensures |Assign(map[], ps, fs)| <= |ps|
  {
    if |ps| > 0 {
      var n := |ps| - 1;
      AssignSize(ps[..n], fs[..n]);
      assert ps == ps[..n] + [ps[n]];
      var m := Assign(map[], ps[..n], fs[..n]);
      assert Assign(map[], ps, fs).Keys == m.Keys + {ps[n]};
      assert ps[n] in m.Keys <==> ps[n] in ps[..n];
    }
  }

  /** Two page ranges have no page in common. */
  predicate Apart(first: nat, n: nat, first': nat, n': nat) {
    n == 0 || n' == 0 || first + n <= first' || first' + n' <= first
  }

  predicate RegionsApart(lay: Layout, entry: nat, code: nat)
    requires lay.stackPages <= lay.argsPage
  {
    && Apart(entry, code, lay.argsPage - lay.stackPages, lay.stackPages + 1)
    && Apart(lay.stackPages + code + 1, lay.heapPages, lay.argsPage - lay.stackPages, lay.stackPages + 1)
    && Apart(entry, code, lay.stackPages + code + 1, lay.heapPages)
  }

  lemma DistinctRegions(lay: Layout, entry: nat, code: nat)
    requires lay.stackPages <= lay.argsPage
    ensures Distinct(ImagePages(lay, entry, code)) <==> RegionsApart(lay, entry, code)
  {
    var ps := ImagePages(lay, entry, code);
    var stack, heap := lay.argsPage - lay.stackPages, lay.stackPages + code + 1;
    var a, b, c := lay.stackPages, lay.stackPages + code, lay.stackPages + code + lay.heapPages;
    forall k | 0 <= k < |ps|
      ensures ps[k] == if k < a then stack + k else if k < b then entry + (k - a) else if k < c then heap + (k - b) else lay.argsPage
    {
    }
    if !RegionsApart(lay, entry, code) {
      SharedPage(lay, entry, code);
    }
  }

  /** Overlapping regions ask for some page twice. */
  lemma SharedPage(lay: Layout, entry: nat, code: nat)
    requires lay.stackPages <= lay.argsPage && !RegionsApart(lay, entry, code)
    ensures !Distinct(ImagePages(lay, entry, code))
  {
    var ps := ImagePages(lay, entry, code);
    var stack, heap := lay.argsPage - lay.stackPages, lay.stackPages + code + 1;
    var a, b, c := lay.stackPages, lay.stackPages + code, lay.stackPages + code + lay.heapPages;
    if !Apart(entry, code, heap, lay.heapPages) {
      var v := if entry < heap then heap else entry;
      assert ps[a + (v - entry)] == v == ps[b + (v - heap)];
    } else {
      var first, at := if Apart(entry, code, stack, lay.stackPages + 1) then heap else entry,
                       if Apart(entry, code, stack, lay.stackPages + 1) then b else a;
      var v := if first < stack then stack else first;
      var i := if v == lay.argsPage then c else v - stack;
      assert ps[i] == v == ps[at + (v - first)];
    }
  }

  /** As many pages mapped as frames owned as pages counted. */
  ghost predicate Tidy(s: State, a: nat) {
    && a in s.pcbs && s.pcbs[a].pgtable in s.tables.l1 && s.lay.UserPages() <= PAGES
    && |UserMap(s.lay, s.tables, s.pcbs[a].pgtable)| == |s.pcbs[a].pages| == s.pcbs[a].pageCount
  }

  /**
   MAIN: after exec the page count is the number of frames owned; it is also the number of pages
   mapped exactly when code, heap, stack and arguments do not overlap.
   */
  lemma ExecShape(s: State, s': State, a: nat, entry: nat, code: nat, frames: seq<nat>)
    requires ExecStep(s, s', a, entry, code, frames)
    ensures s'.pcbs[a].pageCount == |s'.pcbs[a].pages|
    ensures Tidy(s', a) <==> RegionsApart(s.lay, entry, code)
    ensures entry == 1 && s.lay.stackPages + code + 1 + s.lay.heapPages + s.lay.stackPages <= s.lay.argsPage ==> Tidy(s', a)
  {
    AssignSize(ImagePages(s.lay, entry, code), frames);
    DistinctRegions(s.lay, entry, code);
  }

  /** MAIN: a child is as tidy as its parent. */
  lemma ForkShape(s: State, s': State, p: nat, c: nat, frames: seq<nat>)
    requires ForkStep(s, s', p, c, frames) && Tidy(s, p)
    ensures Tidy(s', c)
  {
    var orig, copy := UserMap(s.lay, s.tables, s.pcbs[p].pgtable), UserMap(s.lay, s'.tables, s'.pcbs[c].pgtable);
    assert |copy| == |copy.Keys| && |orig| == |orig.Keys|;
  }
}
