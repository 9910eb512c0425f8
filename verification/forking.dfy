/**
 From the parts of a fork, an exec and a wait to the calls as a whole.
 */
module Forking {
  import opened Wrappers
  import opened Tables
  import opened Space
  import opened KernelState
  import opened Lifecycle
  import opened Copying

  /** A new block with a table that holds the kernel slots only. */
  ghost predicate BlankAdded(s: State, s': State, a: nat) {
    && a !in s.pcbs && a in s'.pcbs
    && BlankSpace(s, s', s'.pcbs[a].pgtable)
    && s'.pcbs == s.pcbs[a := s'.pcbs[a]] && s'.pcbs[a].pages == []
    && s' == s.(tables := s'.tables, pcbs := s'.pcbs, procList := s.procList + [a], nextPid := s.nextPid + 1)
  }

  ghost predicate BlankSpace(s: State, s': State, root: nat) {
    && root !in s.tables.l1 && root in s'.tables.l1 && s.sys in s.tables.l1
    && s'.tables.l1 == s.tables.l1[root := s'.tables.l1[root]] && s'.tables.l2 == s.tables.l2
    && (forall i | 0 <= i < 4096 ::
          s'.tables.l1[root][i] == if i < s.lay.kernelSlot then Fault else s.tables.l1[s.sys][i])
  }

  lemma BlankKeepsOthers(s: State, s': State, root: nat, r: nat)
    requires s.lay.Valid() && s'.sys == s.sys && s'.lay == s.lay && BlankSpace(s, s', root) && RootOk(s.lay, s.tables, s.sys, r)
    ensures r in s'.tables.l1 && s'.tables.l1[r] == s.tables.l1[r] && RootOk(s.lay, s'.tables, s.sys, r)
    ensures UserMap(s.lay, s'.tables, r) == UserMap(s.lay, s.tables, r)
  {
    assert forall a | a in Shared(s.tables, s.sys) || a in Own(s.lay, s.tables, r) :: a in s.tables.l2;
    SameRoot(s.lay, s.tables, s'.tables, s.sys, r);
    SameUserMap(s.lay, s.tables, s'.tables, r);
  }

  lemma HasTable(s: State, p: nat)
    requires SpacesOk(s) && p in s.pcbs && s.pcbs[p].mainThread
    ensures s.pcbs[p].pgtable in s.tables.l1 && s.pcbs[p].pgtable in Roots(s.pcbs) && s.sys in s.tables.l1
    ensures RootOk(s.lay, s.tables, s.sys, s.pcbs[p].pgtable)
    ensures s.tables.l1[s.pcbs[p].pgtable][s.lay.FixmapSlot()] == Fault
  {
    assert s.pcbs[p].pgtable in Roots(s.pcbs);
  }

  /** A process maps frames that are not free. */
  lemma MapsTakenFrames(s: State, p: nat)
    requires StateOk(s) && p in s.pcbs && Alive(s.pcbs[p])
    ensures s.pcbs[p].pgtable in s.tables.l1
    ensures var orig := UserMap(s.lay, s.tables, s.pcbs[p].pgtable);
      (exists v :: v in orig) && forall v | v in orig :: orig[v] in s.mem && orig[v] !in s.free
  {
    hide TablesOk, UserMap, RootOk;
    HasTable(s, p);
    assert MapOk(s.lay, s.tables, s.pool, s.pcbs[p]);
    PageLists(s, p);
  }

  /** A new block for a child is all a fork needs to start copying. */
  lemma BlankReady(s: State, s': State, p: nat, c: nat)
    requires StateOk(s) && p in s.pcbs && Alive(s.pcbs[p]) && BlankAdded(s, s', c)
    requires s.pcbs[p].pgtable in s.tables.l1 && |UserMap(s.lay, s.tables, s.pcbs[p].pgtable)| <= |s.free|
    ensures ReadyToCopy(s', p, c)
    ensures UserMap(s.lay, s'.tables, s.pcbs[p].pgtable) == UserMap(s.lay, s.tables, s.pcbs[p].pgtable)
  {
    hide TablesOk, UserMap, RootOk, MapsOk, ForestOk;
    HasTable(s, p);
    MapsTakenFrames(s, p);
    BlankKeepsOthers(s, s', s'.pcbs[c].pgtable, s.pcbs[p].pgtable);
    assert Live(s'.tables, s.pcbs[p].pgtable) by {
      RootLive(s.lay, s'.tables, s.sys, s.pcbs[p].pgtable);
    }
  }

  lemma RootLive(lay: Layout, h: Heap, sys: nat, r: nat)
    requires RootOk(lay, h, sys, r)
    ensures Live(h, r) && Live(h, sys)
  {
  }

  /** A finished copy in a block that has been filled in is a fork. */
  lemma CopyIsFork(s: State, s1: State, s2: State, s3: State, p: nat, c: nat)
    requires s.lay.Valid() && p in s.pcbs && Alive(s.pcbs[p]) && BlankAdded(s, s1, c)
    requires s.pcbs[p].pgtable in s.tables.l1 && ReadyToCopy(s1, p, c)
    requires UserMap(s.lay, s1.tables, s.pcbs[p].pgtable) == UserMap(s.lay, s.tables, s.pcbs[p].pgtable)
    requires Duplicated(s1, s2, p, c)
    requires s1.pcbs[c] == Pcb(s.nextPid, Some(p), New, false, s1.pcbs[c].pgtable, [],
                               s.pcbs[p].pageCount, s.pcbs[p].stackTop, s.pcbs[p].heapBase, s.pcbs[p].heapPointer, 0)
    requires s3 == s2.(pcbs := s2.pcbs[c := s2.pcbs[c].(state := Ready, mainThread := true)])
    ensures ForkStep(s, s3, p, c, s3.pcbs[c].pages)
  {
    hide UserMap, RootOk, Live, FreeReady, SameBytes, Rest;
    assert SpaceAdded(s, s3, s3.pcbs[c].pgtable);
    assert s3.pcbs == s.pcbs[c := s3.pcbs[c]];
  }
}
