/**
 Runs in which a process may also be waited for a second time, by its pid.  The page table that such a
 wait resets has been freed before, so nothing is said here of the tables afterwards, and only what
 holds of the process list and of the parents is followed.
 */
module WaitAgain {
  import opened Wrappers
  import opened KernelState
  import opened Lifecycle
  import opened Theorems
  import opened Tables
  import opened Space
  import opened ProcessCode
  import opened ChildLife

  /** A zombie whose thread is gone is waited for again; its block goes if it has no children. */
  ghost predicate WaitAgainStep(s: State, s': State, a: nat) {
    && a in s.pcbs && s.pcbs[a].state == Zombie && !s.pcbs[a].mainThread
    && s' == (if HasChild(s, a) then s.(tables := s'.tables)
              else s.(tables := s'.tables, pcbs := s.pcbs - {a}, procList := Without(s.procList, a)))
  }

  ghost predicate AnyStep(s: State, s': State) {
    Step(s, s') || exists a :: WaitAgainStep(s, s', a)
  }

  ghost predicate IsAnyRun(run: seq<State>) {
    |run| > 0 && Init(run[0]) && forall i | 0 <= i < |run| - 1 :: AnyStep(run[i], run[i + 1])
  }

  /** The second wait that removes the block. */
  ghost predicate RemovedAgain(s: State, s': State, a: nat) {
    WaitAgainStep(s, s', a) && !HasChild(s, a)
  }

  ghost predicate ListsOk(s: State) {
    ListOk(s) && ForestOk(s)
  }

  /** How a step may change the blocks: one is added, one is changed, or one goes that has no children. */
  ghost predicate ListsChange(s: State, s': State) {
    || (exists a :: Added(s, s', a))
    || (exists a :: Updated(s, s', a))
    || (exists a :: Dropped(s, s', a))
    || (s'.pcbs == s.pcbs && s'.procList == s.procList && s'.nextPid == s.nextPid)
  }

  ghost predicate Added(s: State, s': State, a: nat) {
    && a in s'.pcbs && Appended(s, s', a, s'.pcbs[a].pgtable, s'.pcbs[a].pages)
    && (s'.pcbs[a].parent.Some? ==> s'.pcbs[a].parent.value in s.pcbs)
  }

  ghost predicate Dropped(s: State, s': State, a: nat) {
    && a in s.pcbs && s.pcbs[a].state == Zombie && !HasChild(s, a)
    && s'.pcbs == s.pcbs - {a} && s'.procList == Without(s.procList, a) && s'.nextPid == s.nextPid
  }

  lemma ForkChange(s: State, s': State, p: nat, c: nat, frames: seq<nat>)
    requires ListsOk(s) && ForkStep(s, s', p, c, frames)
    ensures ListsChange(s, s')
  {
    hide SpaceAdded, Cloned, Fresh, Recount;
    assert Added(s, s', c);
  }

  lemma RootChange(s: State, s': State, a: nat, frames: seq<nat>)
    requires ListsOk(s) && CreateRootStep(s, s', a, frames)
    ensures ListsChange(s, s')
  {
    hide SpaceAdded, Fresh, Recount, BootMap;
    assert Added(s, s', a);
  }

  lemma ExecChange(s: State, s': State, a: nat, entry: nat, code: nat, frames: seq<nat>)
    requires ListsOk(s) && ExecStep(s, s', a, entry, code, frames)
    ensures ListsChange(s, s')
  {
    hide SpaceChanged, Fresh, Recount;
    assert Updated(s, s', a);
  }

  lemma ExitChange(s: State, s': State, a: nat, status: int)
    requires ListsOk(s) && ExitStep(s, s', a, status)
    ensures ListsChange(s, s')
  {
    hide Recount;
    assert Updated(s, s', a);
  }

  lemma SbrkChange(s: State, s': State, a: nat, increment: int)
    requires ListsOk(s) && SbrkStep(s, s', a, increment)
    ensures ListsChange(s, s')
  {
    assert Updated(s, s', a);
  }

  lemma WaitChange(s: State, s': State, a: nat)
    requires ListsOk(s) && WaitStep(s, s', a)
    ensures ListsChange(s, s')
  {
    if HasChild(s, a) {
      assert Updated(s, s', a);
    } else {
      assert Dropped(s, s', a);
    }
  }

  lemma StepChange(s: State, s': State)
    requires ListsOk(s) && AnyStep(s, s')
    ensures ListsChange(s, s')
  {
    hide CreateRootStep, ForkStep, ExecStep, ExitStep, SbrkStep, WaitStep, ListsChange, ListsOk;
    if a, frames :| CreateRootStep(s, s', a, frames) {
      RootChange(s, s', a, frames);
    } else if p, c, frames :| ForkStep(s, s', p, c, frames) {
      ForkChange(s, s', p, c, frames);
    } else if a, entry, code, frames :| ExecStep(s, s', a, entry, code, frames) {
      ExecChange(s, s', a, entry, code, frames);
    } else if a, status :| ExitStep(s, s', a, status) {
      ExitChange(s, s', a, status);
    } else if a, increment :| SbrkStep(s, s', a, increment) {
      SbrkChange(s, s', a, increment);
    } else if a :| WaitStep(s, s', a) {
      WaitChange(s, s', a);
    } else {
      var a :| WaitAgainStep(s, s', a);
      AgainChange(s, s', a);
    }
  }

  lemma AgainChange(s: State, s': State, a: nat)
    requires WaitAgainStep(s, s', a)
    ensures ListsChange(s, s')
  {
    if !HasChild(s, a) {
      assert Dropped(s, s', a);
    }
  }

  /** The list stays ordered by pid and every parent present, whatever is waited for again. */
  lemma ChangeKeeps(s: State, s': State)
    requires ListsOk(s) && ListsChange(s, s')
    ensures ListsOk(s')
  {
    hide Appended, Updated, Dropped, ListOk, ForestOk;
    if a :| Added(s, s', a) {
      AppendedList(s, s', a, s'.pcbs[a].pgtable, s'.pcbs[a].pages);
      AppendedForest(s, s', a, s'.pcbs[a].pgtable, s'.pcbs[a].pages);
    } else if a :| Updated(s, s', a) {
      UpdatedList(s, s', a);
    } else if a :| Dropped(s, s', a) {
      DroppedKeeps(s, s', a);
    } else {
      SameLists(s, s');
    }
  }

  lemma DroppedKeeps(s: State, s': State, a: nat)
    requires ListsOk(s) && Dropped(s, s', a)
    ensures ListsOk(s')
  {
    hide ListOk, ForestOk, HasChild, Without;
    RemovedList(s, s', a);
    RemovedForest(s, s', a);
  }

  lemma SameLists(s: State, s': State)
    requires ListsOk(s) && s'.pcbs == s.pcbs && s'.procList == s.procList && s'.nextPid == s.nextPid
    ensures ListsOk(s')
  {
  }

  lemma {:induction false} AnyRunOk(run: seq<State>, i: nat)
    requires IsAnyRun(run) && i < |run|
    ensures ListsOk(run[i])
  {
    hide AnyStep, ListsChange;
    if i > 0 {
      AnyRunOk(run, i - 1);
      StepChange(run[i - 1], run[i]);
      ChangeKeeps(run[i - 1], run[i]);
    }
  }

  /** No process has the pid, and none will get it. */
  ghost predicate Gone(s: State, pid: nat) {
    pid < s.nextPid && forall a | a in s.pcbs :: s.pcbs[a].pid != pid
  }

  lemma GoneStays(s: State, s': State, pid: nat)
    requires ListsOk(s) && ListsChange(s, s') && Gone(s, pid)
    ensures Gone(s', pid)
  {
  }

  /** The processes of which the theorem speaks: made at boot, or waited for and kept. */
  ghost predicate Settled(s: State, a: nat) {
    a in s.pcbs && (s.pcbs[a].parent == None || !s.pcbs[a].mainThread)
  }

  lemma DroppedGone(s: State, s': State, a: nat)
    requires ListsOk(s) && Dropped(s, s', a)
    ensures Gone(s', s.pcbs[a].pid)
  {
    forall b | b in s'.pcbs
      ensures s'.pcbs[b].pid != s.pcbs[a].pid
    {
      assert a in s.procList && b in s.procList;
      var i :| 0 <= i < |s.procList| && s.procList[i] == a;
      var j :| 0 <= j < |s.procList| && s.procList[j] == b;
    }
  }

  lemma RemovedGone(s: State, s': State, a: nat)
    requires ListsOk(s) && RemovedAgain(s, s', a)
    ensures a in s.pcbs && Gone(s', s.pcbs[a].pid)
  {
    DroppedGone(s, s', a);
  }

  /** Only the second wait removes a settled process. */
  lemma SettledStep(s: State, s': State, a: nat)
    requires ListsOk(s) && AnyStep(s, s') && Settled(s, a) && !RemovedAgain(s, s', a)
    ensures Kept(s, s', a)
  {
    hide Step, Kept, WaitAgainStep, RemovedAgain;
    if b :| WaitAgainStep(s, s', b) {
      KeptByAgain(s, s', b, a);
    } else {
      KeptByStep(s, s', a);
    }
  }

  lemma KeptByAgain(s: State, s': State, b: nat, a: nat)
    requires WaitAgainStep(s, s', b) && a in s.pcbs && !RemovedAgain(s, s', a)
    ensures Kept(s, s', a)
  {
  }

  /**
   MAIN: in any run, second waits included, a boot process, and a zombie that was waited for while it
   had children, stay what they are as long as no second wait by pid removes them; and after such a
   wait no process has that pid any more.
   */
  lemma {:induction false} StaysUntil(run: seq<State>, a: nat, i: nat, j: nat)
    requires IsAnyRun(run) && i <= j < |run| && Settled(run[i], a)
    ensures Kept(run[i], run[j], a) <==> forall k | i <= k < j :: !RemovedAgain(run[k], run[k + 1], a)
    ensures !Kept(run[i], run[j], a) ==> Gone(run[j], run[i].pcbs[a].pid)
    decreases j
  {
    hide AnyStep, RemovedAgain, ListsChange, ListsOk, Init;
    if i < j {
      StaysUntil(run, a, i, j - 1);
      AnyRunOk(run, j - 1);
      if Kept(run[i], run[j - 1], a) {
        if RemovedAgain(run[j - 1], run[j], a) {
          RemovedGone(run[j - 1], run[j], a);
        } else {
          SettledStep(run[j - 1], run[j], a);
        }
      } else {
        StepChange(run[j - 1], run[j]);
        GoneStays(run[j - 1], run[j], run[i].pcbs[a].pid);
      }
    }
  }

  /** MAIN: and a process made at boot is never removed, whatever is waited for again. */
  lemma {:induction false} BootStays(run: seq<State>, a: nat, i: nat, j: nat)
    requires IsAnyRun(run) && i <= j < |run| && a in run[i].pcbs && run[i].pcbs[a].parent == None
    ensures Kept(run[i], run[j], a)
    decreases j
  {
    hide AnyStep, ListsChange, Init;
    if i < j {
      BootStays(run, a, i, j - 1);
      AnyRunOk(run, j - 1);
      SettledStep(run[j - 1], run[j], a);
    }
  }

  // ----- a second wait that removes a process

  lemma OnlyChild(s: State, r: nat, c: nat, g: nat)
    requires ListOk(s) && ForestOk(s) && LeftBehind(s, r, c, g)
    ensures r in s.pcbs && c in s.pcbs && HasChild(s, r) && forall a | a in s.pcbs && s.pcbs[a].parent == Some(r) :: a == c
    ensures forall a | a in s.pcbs :: s.pcbs[a].parent != Some(g)
  {
    hide Increasing;
    assert s.pcbs[c].parent == Some(r);
    LineOfPids(s, r, c, g);
  }

  lemma LineOfPids(s: State, r: nat, c: nat, g: nat)
    requires ForestOk(s) && LeftBehind(s, r, c, g)
    ensures s.pcbs[r].pid < s.pcbs[c].pid < s.pcbs[g].pid
    ensures s.pcbs[r].parent.Some? ==> s.pcbs[r].parent.value in {r, c, g} && s.pcbs[s.pcbs[r].parent.value].pid < s.pcbs[r].pid
  {
  }

  /** With its last child gone, the kept zombie is alone with the process that waited for it. */
  lemma GrandchildGone(s: State, s1: State, s2: State, r: nat, c: nat, g: nat)
    requires ListOk(s) && ForestOk(s) && LeftBehind(s, r, c, g) && ExitStep(s, s1, g, 0) && WaitStep(s1, s2, g)
    ensures Settled(s2, c) && s2.pcbs[c].state == Zombie && !s2.pcbs[c].mainThread && !HasChild(s2, c)
    ensures c in s.pcbs && Kept(s, s2, c)
  {
    OnlyChild(s, r, c, g);
    assert !HasChild(s1, g);
  }

  /** One more step of either kind. */
  lemma RunLonger(run: seq<State>, s: State)
    requires IsAnyRun(run) && AnyStep(run[|run| - 1], s)
    ensures IsAnyRun(run + [s])
  {
    hide AnyStep;
  }

  lemma RunsAreAny(run: seq<State>)
    requires IsRun(run)
    ensures IsAnyRun(run)
  {
    hide Step;
  }

  /**
   MAIN: from boot, the kernel's own calls reach a kept zombie whose last child is gone, and there a
   second wait by its pid removes it.
   */
  method RemoveAgain(lay: Layout, sys: nat, boot: Heap, pool: set<nat>, mem: map<nat, Contents>)
    returns (k: Kernel, ghost c: nat, ghost run: seq<State>)
    requires PoolOk(State(lay, sys, boot, map[], [], 1, pool, pool, map[], mem)) && TablesOk(lay, boot, sys, {})
    requires 3 * lay.stackPages + 2 * lay.imagePages <= |pool|
    ensures IsAnyRun(run) && 3 < |run| && k.S() == run[|run| - 2] && StateOk(k.S())
    ensures Settled(run[|run| - 4], c) && HasChild(run[|run| - 4], c)
    ensures Kept(run[|run| - 4], k.S(), c) && RemovedAgain(k.S(), run[|run| - 1], c)
    ensures !Kept(run[|run| - 4], run[|run| - 1], c)
  {
    hide ExitStep, WaitStep, StateOk, LeftBehind, Init, Step, PoolOk, TablesOk, ListOk, ForestOk, Unwaited, HasChild;
    hide IsAnyRun, AnyStep, RemovedAgain, Settled, Kept;
    ghost var r, g;
    k, r, c, g, run := LeaveGrandchild(lay, sys, boot, pool, mem);
    var root := k.current;
    ghost var s := k.S();
    WholeLifeReady(s);
    LineUnwaited(s, r, c, g);
    OnlyChild(s, r, c, g);
    ChildOfMiddle(s, r, c, g);
    var child := k.FindProcByParent(root);
    var grandchild := k.FindProcByParent(child.value);
    k.current := grandchild.value;
    var ret;
    ghost var s1;
    ret, s1 := EndAndWaitAny(k, root, g);
    ghost var s2, s3 := k.S(), Removed(k.S(), c);
    EndedSteps(s, s1, s2, g);
    GrandchildGone(s, s1, s2, r, c, g);
    RunsAreAny(run);
    AnyOfSteps(s, s1, s2, s3, c);
    RunLonger(run, s1);
    RunLonger(run + [s1], s2);
    RunLonger(run + [s1] + [s2], s3);
    SettledBehind(s, r, c, g);
    run := run + [s1] + [s2] + [s3];
    RemovedNotKept(s, s2, s3, c);
  }

  /** The state after a block has been removed by a second wait, which here leaves the tables alone. */
  function Removed(s: State, c: nat): State {
    s.(pcbs := s.pcbs - {c}, procList := Without(s.procList, c))
  }

  lemma AnyOfSteps(s: State, s1: State, s2: State, s3: State, c: nat)
    requires Step(s, s1) && Step(s1, s2) && s3 == Removed(s2, c)
    requires c in s2.pcbs && s2.pcbs[c].state == Zombie && !s2.pcbs[c].mainThread && !HasChild(s2, c)
    ensures AnyStep(s, s1) && AnyStep(s1, s2) && AnyStep(s2, s3) && RemovedAgain(s2, s3, c)
  {
    hide Step;
    assert WaitAgainStep(s2, s3, c);
  }

  lemma SettledBehind(s: State, r: nat, c: nat, g: nat)
    requires LeftBehind(s, r, c, g)
    ensures Settled(s, c)
  {
  }

  lemma RemovedNotKept(s: State, s2: State, s3: State, c: nat)
    requires c in s.pcbs && RemovedAgain(s2, s3, c)
    ensures !Kept(s, s3, c)
  {
  }
}
