/**
 What holds between two kernel calls holds after any number of them.
 */
module Lifecycle {
  import opened Wrappers
  import opened Space
  import opened Sequences
  import opened KernelState

  // ----- page lists

  lemma OwnersSame(pcbs: map<nat, Pcb>, pcbs': map<nat, Pcb>, list: seq<nat>)
    requires forall a | a in list :: a in pcbs && a in pcbs' && pcbs'[a].pages == pcbs[a].pages
    ensures Owners(pcbs', list) == Owners(pcbs, list)
  {
    if list != [] {
      OwnersSame(pcbs, pcbs', list[1..]);
    }
  }

  lemma {:induction false} OwnersAppend(pcbs: map<nat, Pcb>, list: seq<nat>, a: nat)
    requires a in pcbs && forall b | b in list :: b in pcbs
    ensures Owners(pcbs, list + [a]) == Owners(pcbs, list) + multiset(pcbs[a].pages)
  {
    if list == [] {
      assert list + [a] == [a] && [a][1..] == [];
    } else {
      OwnersAppend(pcbs, list[1..], a);
      assert (list + [a])[1..] == list[1..] + [a];
    }
  }

  /** Replacing one page list replaces its share. */
  lemma {:induction false} OwnersChange(pcbs: map<nat, Pcb>, list: seq<nat>, a: nat, p: Pcb)
    requires a in list && Distinct(list) && forall b | b in list :: b in pcbs
    ensures Owners(pcbs[a := p], list) + multiset(pcbs[a].pages) == Owners(pcbs, list) + multiset(p.pages)
  {
    if list[0] == a {
      OwnersSame(pcbs, pcbs[a := p], list[1..]);
    } else {
      OwnersChange(pcbs, list[1..], a, p);
      var head, rest, rest' := multiset(pcbs[list[0]].pages), Owners(pcbs, list[1..]), Owners(pcbs[a := p], list[1..]);
      assert (head + rest') + multiset(pcbs[a].pages) == head + (rest' + multiset(pcbs[a].pages));
      assert (head + rest) + multiset(p.pages) == head + (rest + multiset(p.pages));
    }
  }

  lemma {:induction false} OwnersMember(pcbs: map<nat, Pcb>, list: seq<nat>, a: nat)
    requires a in list && forall b | b in list :: b in pcbs
    ensures multiset(pcbs[a].pages) <= Owners(pcbs, list)
  {
    if list[0] != a {
      OwnersMember(pcbs, list[1..], a);
    }
  }

  /** Two processes take two shares. */
  lemma {:induction false} OwnersTwo(pcbs: map<nat, Pcb>, list: seq<nat>, a: nat, b: nat)
    requires a in list && b in list && a != b && forall c | c in list :: c in pcbs
    ensures multiset(pcbs[a].pages) + multiset(pcbs[b].pages) <= Owners(pcbs, list)
  {
    if list[0] == a {
      OwnersMember(pcbs, list[1..], b);
    } else if list[0] == b {
      OwnersMember(pcbs, list[1..], a);
    } else {
      OwnersTwo(pcbs, list[1..], a, b);
    }
  }

  lemma {:induction false} OwnersNone(pcbs: map<nat, Pcb>, list: seq<nat>, f: nat)
    requires forall b | b in list :: b in pcbs && f !in pcbs[b].pages
    ensures Owners(pcbs, list)[f] == 0
  {
    if list != [] {
      OwnersNone(pcbs, list[1..], f);
    }
  }

  lemma {:induction false} CountDistinct(s: seq<nat>, f: nat)
    requires Distinct(s)
    ensures multiset(s)[f] == if f in s then 1 else 0
  {
    if s != [] {
      assert s == [s[0]] + s[1..];
      CountDistinct(s[1..], f);
    }
  }

  lemma {:induction false} DistinctCount(s: seq<nat>)
    requires forall f :: multiset(s)[f] <= 1
    ensures Distinct(s)
  {
    if s != [] {
      assert s == [s[0]] + s[1..];
      forall f ensures multiset(s[1..])[f] <= 1 {
        assert multiset(s)[f] <= 1;
      }
      DistinctCount(s[1..]);
      assert s[0] !in s[1..] by {
        assert multiset(s)[s[0]] == 1 + multiset(s[1..])[s[0]];
      }
    }
  }

  lemma ListDistinct(s: State)
    requires ListOk(s)
    ensures Distinct(s.procList)
  {
  }

  /** Each page list is free of duplicates, and shares no frame with another or with the free pool. */
  lemma PageLists(s: State, a: nat)
    requires ListOk(s) && FramesOk(s) && a in s.pcbs
    ensures Distinct(s.pcbs[a].pages)
    ensures forall f | f in s.pcbs[a].pages :: f in s.pool && f !in s.free
    ensures forall b, f | b in s.pcbs && b != a && f in s.pcbs[a].pages :: f !in s.pcbs[b].pages
  {
    OwnersMember(s.pcbs, s.procList, a);
    var own := multiset(s.pcbs[a].pages);
    forall f ensures own[f] <= 1 {
      if f in s.pcbs[a].pages {
        assert own[f] <= Owners(s.pcbs, s.procList)[f];
      }
    }
    DistinctCount(s.pcbs[a].pages);
    forall f | f in s.pcbs[a].pages ensures f !in s.free {
      assert own[f] <= Owners(s.pcbs, s.procList)[f];
    }
    forall b, f | b in s.pcbs && b != a && f in s.pcbs[a].pages ensures f !in s.pcbs[b].pages {
      OwnersTwo(s.pcbs, s.procList, a, b);
      assert own[f] + multiset(s.pcbs[b].pages)[f] <= Owners(s.pcbs, s.procList)[f];
    }
  }

  // ----- frames

  /** Changing one page list, or adding one, keeps the accounts straight. */
  lemma FramesChange(s: State, s': State, given: seq<nat>, taken: seq<nat>)
    requires ListOk(s) && FramesOk(s) && ListOk(s')
    requires Distinct(given) && Fresh(s, given, taken)
    requires forall f | f in given :: f in s.pool && f !in s.free
    requires s'.pool == s.pool && s'.refs == Recount(s.refs, given, taken)
    requires s'.free == s.free + Elements(given) - Elements(taken)
    requires Owners(s'.pcbs, s'.procList) + multiset(given) == Owners(s.pcbs, s.procList) + multiset(taken)
    requires forall a, f | a in s'.pcbs && f in s'.pcbs[a].pages :: f in s.pool
    ensures FramesOk(s')
  {
    forall f | f in s.pool
      ensures s'.refs[f] == Owners(s'.pcbs, s'.procList)[f] <= 1
      ensures f in s'.free <==> s'.refs[f] == 0
    {
      CountDistinct(given, f);
      CountDistinct(taken, f);
      assert (Owners(s'.pcbs, s'.procList) + multiset(given))[f] == (Owners(s.pcbs, s.procList) + multiset(taken))[f];
    }
  }

  // ----- flat maps

  /** A flat map after assignments: a page holds the frame of its last assignment, or what it held before. */
  lemma {:induction false} AssignLookup(m: map<nat, nat>, ps: seq<nat>, fs: seq<nat>, v: nat)
    requires |ps| == |fs|
    ensures v in Assign(m, ps, fs) <==> v in m || v in ps
    ensures v in Assign(m, ps, fs) ==>
              if v in ps then exists k :: 0 <= k < |ps| && ps[k] == v && Assign(m, ps, fs)[v] == fs[k]
              else Assign(m, ps, fs)[v] == m[v]
  {
    if |ps| > 0 {
      var n := |ps| - 1;
      AssignLookup(m, ps[..n], fs[..n], v);
      assert ps == ps[..n] + [ps[n]];
      if v in ps[..n] && v != ps[n] {
        var k :| 0 <= k < n && ps[..n][k] == v && Assign(m, ps[..n], fs[..n])[v] == fs[..n][k];
        assert ps[k] == v && Assign(m, ps, fs)[v] == fs[k];
      }
    }
  }

  lemma BootMapOk(lay: Layout, frames: seq<nat>)
    requires lay.Valid() && |frames| == lay.stackPages
    ensures exists v :: v in BootMap(lay, frames)
    ensures forall v | v in BootMap(lay, frames) ::
              BootMap(lay, frames)[v] in frames || lay.imageFrame <= BootMap(lay, frames)[v] < lay.imageFrame + lay.imagePages
  {
    hide Assign, Range;
    var stack := Range(lay.argsPage - lay.stackPages, lay.stackPages);
    var image, codes := Range(lay.userPage, lay.imagePages), Range(lay.imageFrame, lay.imagePages);
    assert image[0] == lay.userPage && lay.userPage in image;
    AssignLookup(Assign(map[], stack, frames), image, codes, lay.userPage);
    assert lay.userPage in BootMap(lay, frames);
    forall v | v in BootMap(lay, frames)
      ensures BootMap(lay, frames)[v] in frames || lay.imageFrame <= BootMap(lay, frames)[v] < lay.imageFrame + lay.imagePages
    {
      AssignLookup(Assign(map[], stack, frames), image, codes, v);
      AssignLookup(map[], stack, frames, v);
    }
  }

  // ----- each call keeps the state in order

  ghost predicate Appended(s: State, s': State, a: nat, root: nat, frames: seq<nat>) {
    && a !in s.pcbs && a in s'.pcbs && s'.pcbs == s.pcbs[a := s'.pcbs[a]]
    && s'.procList == s.procList + [a]
    && s'.pcbs[a].pid == s.nextPid && s'.nextPid == s.nextPid + 1 && 0 < s.nextPid
    && Alive(s'.pcbs[a]) && s'.pcbs[a].pgtable == root && s'.pcbs[a].pages == frames
    && s'.lay == s.lay && s'.sys == s.sys && s'.pool == s.pool
  }

  lemma AppendedList(s: State, s': State, a: nat, root: nat, frames: seq<nat>)
    requires ListOk(s) && Appended(s, s', a, root, frames)
    ensures ListOk(s')
    ensures Owners(s'.pcbs, s'.procList) == Owners(s.pcbs, s.procList) + multiset(frames)
  {
    OwnersSame(s.pcbs, s'.pcbs, s.procList);
    OwnersAppend(s'.pcbs, s.procList, a);
  }

  lemma AppendedForest(s: State, s': State, a: nat, root: nat, frames: seq<nat>)
    requires ListOk(s) && ForestOk(s) && Appended(s, s', a, root, frames)
    requires s'.pcbs[a].parent.Some? ==> s'.pcbs[a].parent.value in s.pcbs
    ensures ForestOk(s')
  {
  }

  lemma AppendedRoots(s: State, s': State, a: nat, root: nat, frames: seq<nat>)
    requires Appended(s, s', a, root, frames)
    ensures Roots(s'.pcbs) == Roots(s.pcbs) + {root}
  {
    forall r | r in Roots(s.pcbs)
      ensures r in Roots(s'.pcbs)
    {
      var b :| b in s.pcbs && s.pcbs[b].mainThread && s.pcbs[b].pgtable == r;
      assert s'.pcbs[b] == s.pcbs[b];
    }
    assert s'.pcbs[a].pgtable in Roots(s'.pcbs);
  }

  lemma AppendedSpaces(s: State, s': State, a: nat, root: nat, frames: seq<nat>)
    requires PoolOk(s) && SpacesOk(s) && Appended(s, s', a, root, frames) && SpaceAdded(s, s', root)
    ensures SpacesOk(s')
    ensures forall r | r in Roots(s.pcbs) :: UserMap(s.lay, s'.tables, r) == UserMap(s.lay, s.tables, r)
  {
    AppendedRoots(s, s', a, root, frames);
    TablesAdd(s.lay, s.tables, s'.tables, s.sys, Roots(s.pcbs), root);
    forall b, c | b in s'.pcbs && c in s'.pcbs && b != c && s'.pcbs[b].mainThread && s'.pcbs[c].mainThread
      ensures s'.pcbs[b].pgtable != s'.pcbs[c].pgtable
    {
      assert b != a ==> s.pcbs[b].pgtable in Roots(s.pcbs);
      assert c != a ==> s.pcbs[c].pgtable in Roots(s.pcbs);
    }
  }

  lemma SameMap(s: State, s': State, b: nat)
    requires PoolOk(s) && SpacesOk(s) && MapsOk(s) && PoolOk(s') && SpacesOk(s')
    requires s'.lay == s.lay && s'.pool == s.pool && b in s.pcbs && Alive(s.pcbs[b])
    requires forall r | r in Roots(s.pcbs) && r == s.pcbs[b].pgtable ::
               r in s'.tables.l1 && UserMap(s.lay, s'.tables, r) == UserMap(s.lay, s.tables, r)
    ensures s.pcbs[b].pgtable in s'.tables.l1 && MapOk(s'.lay, s'.tables, s'.pool, s.pcbs[b])
  {
    assert s.pcbs[b].pgtable in Roots(s.pcbs);
    assert MapOk(s.lay, s.tables, s.pool, s.pcbs[b]);
  }

  lemma AppendedMaps(s: State, s': State, a: nat, root: nat, frames: seq<nat>)
    requires PoolOk(s) && SpacesOk(s) && MapsOk(s) && PoolOk(s') && SpacesOk(s') && Appended(s, s', a, root, frames)
    requires forall r | r in Roots(s.pcbs) ::
               r in s'.tables.l1 && UserMap(s.lay, s'.tables, r) == UserMap(s.lay, s.tables, r)
    requires root in s'.tables.l1 && MapOk(s'.lay, s'.tables, s'.pool, s'.pcbs[a])
    ensures MapsOk(s')
  {
    forall b | b in s'.pcbs && Alive(s'.pcbs[b])
      ensures s'.pcbs[b].pgtable in s'.tables.l1 && MapOk(s'.lay, s'.tables, s'.pool, s'.pcbs[b])
    {
      if b != a {
        SameMap(s, s', b);
      }
    }
  }

  lemma AppendedFrames(s: State, s': State, a: nat, root: nat, frames: seq<nat>)
    requires ListOk(s) && FramesOk(s) && Appended(s, s', a, root, frames) && Fresh(s, [], frames)
    requires s'.free == s.free - Elements(frames) && s'.refs == Recount(s.refs, [], frames)
    ensures ListOk(s') && FramesOk(s')
  {
    AppendedList(s, s', a, root, frames);
    forall b, f | b in s'.pcbs && f in s'.pcbs[b].pages
      ensures f in s.pool
    {
    }
    FramesChange(s, s', [], frames);
  }

  lemma AppendedKeeps(s: State, s': State, a: nat, root: nat, frames: seq<nat>)
    requires StateOk(s) && PoolOk(s') && Appended(s, s', a, root, frames)
    requires Fresh(s, [], frames) && s'.free == s.free - Elements(frames) && s'.refs == Recount(s.refs, [], frames)
    requires SpaceAdded(s, s', root)
    requires s'.pcbs[a].parent.Some? ==> s'.pcbs[a].parent.value in s.pcbs
    requires MapOk(s'.lay, s'.tables, s'.pool, s'.pcbs[a])
    ensures StateOk(s')
  {
    AppendedFrames(s, s', a, root, frames);
    AppendedForest(s, s', a, root, frames);
    AppendedSpaces(s, s', a, root, frames);
    AppendedMaps(s, s', a, root, frames);
  }

  lemma CreateRootKeeps(s: State, s': State, a: nat, frames: seq<nat>)
    requires StateOk(s) && CreateRootStep(s, s', a, frames)
    ensures StateOk(s')
  {
    BootMapOk(s.lay, frames);
    AppendedKeeps(s, s', a, s'.pcbs[a].pgtable, frames);
  }

  lemma ForkMapOk(s: State, s': State, p: nat, c: nat, frames: seq<nat>)
    requires PoolOk(s) && SpacesOk(s) && MapsOk(s) && ForkStep(s, s', p, c, frames)
    ensures MapOk(s'.lay, s'.tables, s'.pool, s'.pcbs[c])
  {
    assert MapOk(s.lay, s.tables, s.pool, s.pcbs[p]);
    var orig, copy := UserMap(s.lay, s.tables, s.pcbs[p].pgtable), UserMap(s.lay, s'.tables, s'.pcbs[c].pgtable);
    assert copy.Keys == orig.Keys;
    forall v | v in copy
      ensures copy[v] in frames
    {
      assert copy[v] in copy.Values;
    }
  }

  lemma ForkKeeps(s: State, s': State, p: nat, c: nat, frames: seq<nat>)
    requires StateOk(s) && ForkStep(s, s', p, c, frames)
    ensures StateOk(s')
  {
    assert 0 < s.pcbs[p].pid < s.nextPid;
    ForkMapOk(s, s', p, c, frames);
    AppendedKeeps(s, s', c, s'.pcbs[c].pgtable, frames);
  }

  /** One block has changed, but not who it is. */
  ghost predicate Updated(s: State, s': State, a: nat) {
    && a in s.pcbs && a in s'.pcbs && s'.pcbs == s.pcbs[a := s'.pcbs[a]]
    && s'.procList == s.procList && s'.nextPid == s.nextPid
    && s'.pcbs[a].pid == s.pcbs[a].pid && s'.pcbs[a].parent == s.pcbs[a].parent
    && s'.pcbs[a].pgtable == s.pcbs[a].pgtable
    && (s'.pcbs[a].state == Zombie ==> s'.pcbs[a].pages == [] && s'.pcbs[a].parent.Some?)
    && (!s'.pcbs[a].mainThread ==> s'.pcbs[a].state == Zombie)
    && s'.lay == s.lay && s'.sys == s.sys && s'.pool == s.pool
  }

  lemma UpdatedList(s: State, s': State, a: nat)
    requires ListOk(s) && ForestOk(s) && Updated(s, s', a)
    ensures ListOk(s') && ForestOk(s')
  {
    SameMembers(s, s', a);
    UpdatedForest(s, s', a);
  }

  lemma SameMembers(s: State, s': State, a: nat)
    requires ListOk(s) && Updated(s, s', a)
    ensures ListOk(s')
  {
    hide Increasing;
    assert s'.pcbs.Keys == s.pcbs.Keys;
    forall b | b in s.pcbs
      ensures s'.pcbs[b].pid == s.pcbs[b].pid
    {
    }
    SameOrder(s.pcbs, s'.pcbs, s.procList);
  }

  lemma UpdatedForest(s: State, s': State, a: nat)
    requires ForestOk(s) && Updated(s, s', a)
    ensures ForestOk(s')
  {
    assert s'.pcbs.Keys == s.pcbs.Keys;
    forall b | b in s.pcbs
      ensures s'.pcbs[b].pid == s.pcbs[b].pid && s'.pcbs[b].parent == s.pcbs[b].parent
    {
    }
  }

  lemma UpdatedFrames(s: State, s': State, a: nat)
    requires ListOk(s) && ForestOk(s) && FramesOk(s) && Updated(s, s', a)
    requires Fresh(s, s.pcbs[a].pages, s'.pcbs[a].pages)
    requires s'.free == s.free + Elements(s.pcbs[a].pages) - Elements(s'.pcbs[a].pages)
    requires s'.refs == Recount(s.refs, s.pcbs[a].pages, s'.pcbs[a].pages)
    ensures ListOk(s') && FramesOk(s')
  {
    UpdatedList(s, s', a);
    PageLists(s, a);
    OwnersChange(s.pcbs, s.procList, a, s'.pcbs[a]);
    FramesChange(s, s', s.pcbs[a].pages, s'.pcbs[a].pages);
  }

  lemma UpdatedRoots(s: State, s': State, a: nat)
    requires Updated(s, s', a) && s.pcbs[a].mainThread && s'.pcbs[a].mainThread
    ensures Roots(s'.pcbs) == Roots(s.pcbs)
  {
    forall r | r in Roots(s.pcbs)
      ensures r in Roots(s'.pcbs)
    {
      var b :| b in s.pcbs && s.pcbs[b].mainThread && s.pcbs[b].pgtable == r;
      assert s'.pcbs[b].pgtable == r && s'.pcbs[b].mainThread;
    }
    forall r | r in Roots(s'.pcbs)
      ensures r in Roots(s.pcbs)
    {
      var b :| b in s'.pcbs && s'.pcbs[b].mainThread && s'.pcbs[b].pgtable == r;
      assert s.pcbs[b].pgtable == r && s.pcbs[b].mainThread;
    }
  }

  lemma ExecSpaces(s: State, s': State, a: nat)
    requires PoolOk(s) && SpacesOk(s) && Updated(s, s', a) && s.pcbs[a].mainThread && s'.pcbs[a].mainThread
    requires SpaceChanged(s, s', s.pcbs[a].pgtable)
    ensures SpacesOk(s')
    ensures forall r | r in Roots(s.pcbs) && r != s.pcbs[a].pgtable ::
              r in s'.tables.l1 && UserMap(s.lay, s'.tables, r) == UserMap(s.lay, s.tables, r)
  {
    UpdatedRoots(s, s', a);
    assert s.pcbs[a].pgtable in Roots(s.pcbs);
    TablesLocal(s.lay, s.tables, s'.tables, s.sys, Roots(s.pcbs), s.pcbs[a].pgtable);
  }

  lemma UpdatedMaps(s: State, s': State, a: nat)
    requires PoolOk(s) && SpacesOk(s) && MapsOk(s) && PoolOk(s') && SpacesOk(s') && Updated(s, s', a)
    requires forall r | r in Roots(s.pcbs) && r != s.pcbs[a].pgtable ::
               r in s'.tables.l1 && UserMap(s.lay, s'.tables, r) == UserMap(s.lay, s.tables, r)
    requires s.pcbs[a].mainThread
    requires Alive(s'.pcbs[a]) ==> s'.pcbs[a].pgtable in s'.tables.l1 && MapOk(s'.lay, s'.tables, s'.pool, s'.pcbs[a])
    ensures MapsOk(s')
  {
    forall b | b in s'.pcbs && Alive(s'.pcbs[b])
      ensures s'.pcbs[b].pgtable in s'.tables.l1 && MapOk(s'.lay, s'.tables, s'.pool, s'.pcbs[b])
    {
      if b != a {
        SameMap(s, s', b);
      }
    }
  }

  lemma ExecMapOk(s: State, s': State, a: nat, entry: nat, code: nat, frames: seq<nat>)
    requires ExecStep(s, s', a, entry, code, frames)
    ensures MapOk(s'.lay, s'.tables, s'.pool, s'.pcbs[a])
  {
    var pages, m := ImagePages(s.lay, entry, code), UserMap(s.lay, s'.tables, s.pcbs[a].pgtable);
    assert pages[|pages| - 1] in pages;
    AssignLookup(map[], pages, frames, pages[|pages| - 1]);
    forall v | v in m
      ensures m[v] in frames
    {
      AssignLookup(map[], pages, frames, v);
    }
  }

  lemma UpdatedKeeps(s: State, s': State, a: nat)
    requires StateOk(s) && PoolOk(s') && Updated(s, s', a) && s.pcbs[a].mainThread
    requires Fresh(s, s.pcbs[a].pages, s'.pcbs[a].pages)
    requires s'.free == s.free + Elements(s.pcbs[a].pages) - Elements(s'.pcbs[a].pages)
    requires s'.refs == Recount(s.refs, s.pcbs[a].pages, s'.pcbs[a].pages)
    requires SpacesOk(s')
    requires forall r | r in Roots(s.pcbs) && r != s.pcbs[a].pgtable ::
               r in s'.tables.l1 && UserMap(s.lay, s'.tables, r) == UserMap(s.lay, s.tables, r)
    requires Alive(s'.pcbs[a]) ==> s'.pcbs[a].pgtable in s'.tables.l1 && MapOk(s'.lay, s'.tables, s'.pool, s'.pcbs[a])
    ensures StateOk(s')
  {
    UpdatedList(s, s', a);
    UpdatedFrames(s, s', a);
    UpdatedMaps(s, s', a);
  }

  lemma ExecKeeps(s: State, s': State, a: nat, entry: nat, code: nat, frames: seq<nat>)
    requires StateOk(s) && ExecStep(s, s', a, entry, code, frames)
    ensures StateOk(s')
  {
    ExecMapOk(s, s', a, entry, code, frames);
    ExecSpaces(s, s', a);
    UpdatedKeeps(s, s', a);
  }

  lemma SameTables(s: State, s': State, a: nat)
    requires PoolOk(s) && SpacesOk(s) && Updated(s, s', a) && s'.tables == s.tables
    requires s.pcbs[a].mainThread && s'.pcbs[a].mainThread
    ensures SpacesOk(s')
    ensures forall r | r in Roots(s.pcbs) ::
              r in s'.tables.l1 && UserMap(s.lay, s'.tables, r) == UserMap(s.lay, s.tables, r)
  {
    UpdatedRoots(s, s', a);
  }

  lemma ExitKeeps(s: State, s': State, a: nat, status: int)
    requires StateOk(s) && ExitStep(s, s', a, status)
    ensures StateOk(s')
  {
    hide ListOk, ForestOk, FramesOk, SpacesOk, MapsOk, MapOk, UserMap, Roots, Recount;
    SameTables(s, s', a);
    UpdatedKeeps(s, s', a);
  }

  lemma SbrkKeeps(s: State, s': State, a: nat, increment: int)
    requires StateOk(s) && SbrkStep(s, s', a, increment)
    ensures StateOk(s')
  {
    hide ListOk, ForestOk, FramesOk, SpacesOk, MapsOk, UserMap, Roots, Owners;
    SameTables(s, s', a);
    PageLists(s, a);
    RecountSame(s, a);
    AliveMapped(s, s', a);
    UpdatedKeeps(s, s', a);
  }

  /** Giving a process's frames back and taking the same ones changes no count. */
  lemma RecountSame(s: State, a: nat)
    requires ListOk(s) && FramesOk(s) && a in s.pcbs
    ensures Recount(s.refs, s.pcbs[a].pages, s.pcbs[a].pages) == s.refs
    ensures s.free + Elements(s.pcbs[a].pages) - Elements(s.pcbs[a].pages) == s.free
  {
    PageLists(s, a);
    forall f | f in s.pcbs[a].pages
      ensures f in s.refs && s.refs[f] == 1
    {
    }
  }

  lemma AliveMapped(s: State, s': State, a: nat)
    requires StateOk(s) && a in s.pcbs && Alive(s.pcbs[a]) && a in s'.pcbs
    requires s'.tables == s.tables && s'.lay == s.lay && s'.pool == s.pool
    requires s'.pcbs[a].pgtable == s.pcbs[a].pgtable && s'.pcbs[a].pages == s.pcbs[a].pages && s'.pcbs[a].parent == s.pcbs[a].parent
    ensures s'.pcbs[a].pgtable in s'.tables.l1 && MapOk(s'.lay, s'.tables, s'.pool, s'.pcbs[a])
  {
    assert s.pcbs[a].pgtable in Roots(s.pcbs);
    assert MapOk(s.lay, s.tables, s.pool, s.pcbs[a]);
  }

  lemma {:induction false} WithoutMembers(list: seq<nat>, a: nat)
    requires Distinct(list)
    ensures forall b :: b in Without(list, a) <==> b in list && b != a
  {
    if list != [] {
      WithoutMembers(list[1..], a);
      assert list == [list[0]] + list[1..];
    }
  }

  /** What is left of the list is in the same order. */
  lemma {:induction false} WithoutOrder(pcbs: map<nat, Pcb>, list: seq<nat>, a: nat)
    requires Distinct(list) && (forall b | b in list :: b in pcbs) && Increasing(pcbs, list)
    ensures forall b | b in Without(list, a) :: b in pcbs
    ensures Increasing(pcbs, Without(list, a))
  {
    if list != [] {
      var head, tail := list[0], list[1..];
      assert list == [head] + tail && head !in tail;
      assert Distinct(tail) && Increasing(pcbs, tail);
      if head != a {
        WithoutMembers(tail, a);
        WithoutOrder(pcbs, tail, a);
        forall b | b in Without(tail, a)
          ensures b in pcbs && pcbs[head].pid < pcbs[b].pid
        {
          var i :| 0 <= i < |tail| && tail[i] == b;
          assert list[i + 1] == b;
        }
        IncreasingCons(pcbs, head, Without(tail, a));
      }
    }
  }

  lemma IncreasingCons(pcbs: map<nat, Pcb>, head: nat, rest: seq<nat>)
    requires head in pcbs && (forall b | b in rest :: b in pcbs && pcbs[head].pid < pcbs[b].pid) && Increasing(pcbs, rest)
    ensures Increasing(pcbs, [head] + rest)
  {
    forall i, j | 0 <= i < j < |[head] + rest|
      ensures pcbs[([head] + rest)[i]].pid < pcbs[([head] + rest)[j]].pid
    {
      assert ([head] + rest)[j] == rest[j - 1] && rest[j - 1] in rest;
    }
  }

  /** The order of a list depends on the pids of its members only. */
  lemma SameOrder(pcbs: map<nat, Pcb>, pcbs': map<nat, Pcb>, list: seq<nat>)
    requires (forall b | b in list :: b in pcbs && b in pcbs' && pcbs'[b].pid == pcbs[b].pid) && Increasing(pcbs, list)
    ensures Increasing(pcbs', list)
  {
    forall i, j | 0 <= i < j < |list|
      ensures pcbs'[list[i]].pid < pcbs'[list[j]].pid
    {
      assert list[i] in list && list[j] in list;
    }
  }

  lemma RemovedList(s: State, s': State, a: nat)
    requires ListOk(s) && a in s.pcbs && s'.pcbs == s.pcbs - {a} && s'.procList == Without(s.procList, a)
    requires s'.nextPid == s.nextPid
    ensures ListOk(s')
  {
    ListDistinct(s);
    WithoutMembers(s.procList, a);
    WithoutOrder(s.pcbs, s.procList, a);
    hide Without, Distinct, Increasing;
    SameOrder(s.pcbs, s'.pcbs, s'.procList);
  }

  lemma {:induction false} OwnersWithout(pcbs: map<nat, Pcb>, list: seq<nat>, a: nat)
    requires a in list && Distinct(list) && (forall b | b in list :: b in pcbs) && pcbs[a].pages == []
    ensures (forall b | b in Without(list, a) :: b in pcbs - {a})
    ensures Owners(pcbs - {a}, Without(list, a)) == Owners(pcbs, list)
  {
    if list[0] == a {
      OwnersSame(pcbs, pcbs - {a}, list[1..]);
    } else {
      OwnersWithout(pcbs, list[1..], a);
      assert Without(list, a)[1..] == Without(list[1..], a);
    }
  }

  lemma RemovedFrames(s: State, s': State, a: nat)
    requires ListOk(s) && FramesOk(s) && a in s.pcbs && s.pcbs[a].pages == []
    requires s'.pcbs == s.pcbs - {a} && s'.procList == Without(s.procList, a) && s'.nextPid == s.nextPid
    requires s'.pool == s.pool && s'.free == s.free && s'.refs == s.refs
    ensures ListOk(s') && FramesOk(s')
  {
    RemovedList(s, s', a);
    OwnersWithout(s.pcbs, s.procList, a);
  }

  /** A process that has been waited for no longer counts as having a page table. */
  lemma WaitRoots(s: State, s': State, a: nat)
    requires SpacesOk(s) && a in s.pcbs && s.pcbs[a].mainThread
    requires s'.pcbs == s.pcbs - {a} || s'.pcbs == s.pcbs[a := s.pcbs[a].(mainThread := false)]
    ensures Roots(s'.pcbs) == Roots(s.pcbs) - {s.pcbs[a].pgtable}
  {
    forall r | r in Roots(s.pcbs) && r != s.pcbs[a].pgtable
      ensures r in Roots(s'.pcbs)
    {
      var b :| b in s.pcbs && s.pcbs[b].mainThread && s.pcbs[b].pgtable == r;
      assert b in s'.pcbs && s'.pcbs[b] == s.pcbs[b];
    }
    forall r | r in Roots(s'.pcbs)
      ensures r in Roots(s.pcbs) && r != s.pcbs[a].pgtable
    {
      var b :| b in s'.pcbs && s'.pcbs[b].mainThread && s'.pcbs[b].pgtable == r;
      assert b != a && s.pcbs[b] == s'.pcbs[b];
    }
  }

  lemma WaitSpaces(s: State, s': State, a: nat)
    requires PoolOk(s) && SpacesOk(s) && WaitStep(s, s', a)
    ensures SpacesOk(s')
    ensures forall r | r in Roots(s.pcbs) && r != s.pcbs[a].pgtable ::
              r in s'.tables.l1 && UserMap(s.lay, s'.tables, r) == UserMap(s.lay, s.tables, r)
  {
    WaitRoots(s, s', a);
    assert s.pcbs[a].pgtable in Roots(s.pcbs);
    TablesRemove(s.lay, s.tables, s'.tables, s.sys, Roots(s.pcbs), s.pcbs[a].pgtable);
  }

  lemma WaitMaps(s: State, s': State, a: nat)
    requires PoolOk(s) && SpacesOk(s) && MapsOk(s) && WaitStep(s, s', a) && PoolOk(s') && SpacesOk(s')
    requires forall r | r in Roots(s.pcbs) && r != s.pcbs[a].pgtable ::
              r in s'.tables.l1 && UserMap(s.lay, s'.tables, r) == UserMap(s.lay, s.tables, r)
    ensures MapsOk(s')
  {
    forall b | b in s'.pcbs && Alive(s'.pcbs[b])
      ensures s'.pcbs[b].pgtable in s'.tables.l1 && MapOk(s'.lay, s'.tables, s'.pool, s'.pcbs[b])
    {
      SameMap(s, s', b);
    }
  }

  lemma RemovedForest(s: State, s': State, a: nat)
    requires ListOk(s) && ForestOk(s) && ListOk(s') && s'.pcbs == s.pcbs - {a} && !HasChild(s, a)
    ensures ForestOk(s')
  {
    assert forall b | b in s'.pcbs :: s'.pcbs[b] == s.pcbs[b] && s.pcbs[b].parent != Some(a);
  }

  /** A block that is kept because of its children only loses its thread. */
  lemma KeptBlock(s: State, s': State, a: nat)
    requires ListOk(s) && ForestOk(s) && FramesOk(s) && WaitStep(s, s', a) && HasChild(s, a)
    ensures ListOk(s') && ForestOk(s') && FramesOk(s')
  {
    UpdatedList(s, s', a);
    OwnersSame(s.pcbs, s'.pcbs, s.procList);
  }

  lemma WaitKeeps(s: State, s': State, a: nat)
    requires StateOk(s) && WaitStep(s, s', a)
    ensures StateOk(s')
  {
    hide ListOk, ForestOk, FramesOk, SpacesOk, MapsOk, HasChild, Without, UserMap, Rest, Own;
    WaitSpaces(s, s', a);
    WaitMaps(s, s', a);
    if HasChild(s, a) {
      KeptBlock(s, s', a);
    } else {
      DeadNoFrames(s, a);
      RemovedFrames(s, s', a);
      RemovedForest(s, s', a);
    }
  }

  lemma DeadNoFrames(s: State, a: nat)
    requires ForestOk(s) && a in s.pcbs && s.pcbs[a].state == Zombie
    ensures s.pcbs[a].pages == []
  {
  }

  lemma InitOk(s: State)
    requires Init(s)
    ensures StateOk(s)
  {
    assert Roots(s.pcbs) == {};
  }

  lemma StepKeeps(s: State, s': State)
    requires StateOk(s) && Step(s, s')
    ensures StateOk(s')
  {
    if a, frames :| CreateRootStep(s, s', a, frames) {
      CreateRootKeeps(s, s', a, frames);
    } else if p, c, frames :| ForkStep(s, s', p, c, frames) {
      ForkKeeps(s, s', p, c, frames);
    } else if a, entry, code, frames :| ExecStep(s, s', a, entry, code, frames) {
      ExecKeeps(s, s', a, entry, code, frames);
    } else if a, status :| ExitStep(s, s', a, status) {
      ExitKeeps(s, s', a, status);
    } else if a, increment :| SbrkStep(s, s', a, increment) {
      SbrkKeeps(s, s', a, increment);
    } else {
      var a :| WaitStep(s, s', a);
      WaitKeeps(s, s', a);
    }
  }

  /** MAIN: the state is in order after any run. */
  lemma {:induction false} RunOk(run: seq<State>, i: nat)
    requires IsRun(run) && i < |run|
    ensures StateOk(run[i])
  {
    if i == 0 {
      InitOk(run[0]);
    } else {
      RunOk(run, i - 1);
      StepKeeps(run[i - 1], run[i]);
    }
  }
}
