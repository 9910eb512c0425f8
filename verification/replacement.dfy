/**
 The page replacement program: sixteen pages whose bits, times of use and clock it updates in place.
 */
module Replacement {
  import opened Recency

  const PAGES: nat := 16
  const DELTA: int := 2

  const VALID: bv8 := 0x01
  const SWAP: bv8 := 0x02
  const REF: bv8 := 0x04

  /** An 8-bit time of use. */
  type Time = t: nat | t < 256

  predicate Check(x: bv8, mask: bv8) {
    x & mask == mask
  }

  function SetMask(x: bv8, mask: bv8): bv8 {
    x | mask
  }

  function UnsetMask(x: bv8, mask: bv8): bv8 {
    x & !mask
  }

  predicate IsValid(x: bv8) {
    Check(x, VALID)
  }

  predicate IsSwapped(x: bv8) {
    Check(x, SWAP)
  }

  predicate IsRef(x: bv8) {
    Check(x, REF)
  }

  function Number(x: bv8): bv8 {
    x >> 4
  }

  function Unload(x: bv8): (r: bv8)
    ensures !IsValid(r) && IsSwapped(r) && (IsRef(r) <==> IsRef(x)) && Number(r) == Number(x)
  {
    SetMask(UnsetMask(x, VALID), SWAP)
  }

  function Load(x: bv8): (r: bv8)
    ensures IsValid(r) && !IsSwapped(r) && IsRef(r) && Number(r) == Number(x)
  {
    UnsetMask(SetMask(x, VALID | REF), SWAP)
  }

  function Unref(x: bv8): (r: bv8)
    ensures !IsRef(r) && (IsValid(r) <==> IsValid(x)) && (IsSwapped(r) <==> IsSwapped(x)) && Number(r) == Number(x)
  {
    UnsetMask(x, REF)
  }

  /** The program's globals, as a value. */
  datatype Memory = Memory(table: seq<bv8>, tdu: seq<Time>, tvc: Time) {
    ghost predicate Sized() {
      |table| == PAGES == |tdu|
    }
  }

  ghost function Resident(table: seq<bv8>): set<nat> {
    set i | 0 <= i < |table| && IsValid(table[i])
  }

  /** What replacement by timestamps sees. */
  ghost function View(m: Memory): (s: Lru)
    requires m.Sized()
    ensures s.Valid()
  {
    Lru(Resident(m.table), m.tdu, m.tvc)
  }

  /** No page is both in memory and swapped out, and each entry holds its own number. */
  ghost predicate EntriesOk(table: seq<bv8>) {
    |table| == PAGES && forall i | 0 <= i < PAGES :: !(IsValid(table[i]) && IsSwapped(table[i])) && Number(table[i]) == i as bv8
  }

  /** Only pages in memory are marked as referenced. */
  ghost predicate RefOk(table: seq<bv8>) {
    forall i | 0 <= i < |table| :: IsRef(table[i]) ==> IsValid(table[i])
  }

  // ----- an access under LRU

  ghost function LruReplaced(m: Memory): (t: seq<bv8>)
    requires m.Sized()
    ensures |t| == PAGES
  {
    if View(m).resident == {} then m.table
    else
      var v := Victim(View(m));
      m.table[v := Unload(m.table[v])]
  }

  ghost function LruAccess(m: Memory, p: nat): (m': Memory)
    requires m.Sized() && p < PAGES
    ensures m'.Sized()
  {
    var t := if IsValid(m.table[p]) then m.table else LruReplaced(m);
    Memory(t[p := Load(t[p])], m.tdu[p := m.tvc], (m.tvc + 1) % 256)
  }

  /** The bit operations of an access do what the access by timestamps does. */
  lemma LruRefines(m: Memory, p: nat)
    requires m.Sized() && p < PAGES
    ensures View(LruAccess(m, p)) == Access(View(m), p, 256)
  {
    var s, t := View(m), LruAccess(m, p).table;
    forall i | 0 <= i < PAGES
      ensures IsValid(t[i]) <==> i in Access(s, p, 256).resident
    {
    }
    assert forall i | i in Access(s, p, 256).resident :: 0 <= i < PAGES;
    assert Resident(t) == Access(s, p, 256).resident;
  }

  lemma LruEntries(m: Memory, p: nat)
    requires m.Sized() && p < PAGES && EntriesOk(m.table)
    ensures EntriesOk(LruAccess(m, p).table)
  {
    hide Victim;
  }

  // ----- an access under WSClock

  /**
   A page in memory, not referenced, and not used for longer than DELTA by the program's clock: once that
   has wrapped the difference may be small or negative for a page that is really old (see BootAges).
   */
  predicate Aged(m: Memory, i: nat)
    requires m.Sized() && i < PAGES
  {
    IsValid(m.table[i]) && !IsRef(m.table[i]) && m.tvc - m.tdu[i] > DELTA
  }

  function FirstAged(m: Memory, i: nat): (r: nat)
    requires m.Sized() && i <= PAGES
    ensures i <= r <= PAGES && (forall j | i <= j < r :: !Aged(m, j)) && (r < PAGES ==> Aged(m, r))
    decreases PAGES - i
  {
    if i == PAGES || Aged(m, i) then i else FirstAged(m, i + 1)
  }

  function FirstValid(table: seq<bv8>, i: nat): (r: nat)
    requires i <= |table|
    ensures i <= r <= |table| && (forall j | i <= j < r :: !IsValid(table[j])) && (r < |table| ==> IsValid(table[r]))
    decreases |table| - i
  {
    if i == |table| || IsValid(table[i]) then i else FirstValid(table, i + 1)
  }

  /** The first aged page, or without one the first in memory, or PAGES. */
  function WscVictim(m: Memory): (v: nat)
    requires m.Sized()
    ensures v <= PAGES && (v < PAGES ==> IsValid(m.table[v]))
    ensures v == PAGES <==> forall i | 0 <= i < PAGES :: !IsValid(m.table[i])
  {
    if FirstAged(m, 0) < PAGES then FirstAged(m, 0) else FirstValid(m.table, 0)
  }

  function SweptEntry(x: bv8): (r: bv8)
    ensures !(IsValid(r) && IsRef(r)) && (IsValid(r) <==> IsValid(x)) && (IsSwapped(r) <==> IsSwapped(x)) && Number(r) == Number(x)
    ensures IsRef(r) ==> IsRef(x)
  {
    if IsValid(x) && IsRef(x) then Unref(x) else x
  }

  /** The pages before `reach` have lost their reference bits. */
  function Swept(table: seq<bv8>, reach: nat): (t: seq<bv8>)
    ensures |t| == |table|
    ensures forall i | 0 <= i < |table| :: t[i] == if i < reach then SweptEntry(table[i]) else table[i]
  {
    seq(|table|, i requires 0 <= i < |table| => if i < reach then SweptEntry(table[i]) else table[i])
  }

  function WscReplaced(m: Memory): (t: seq<bv8>)
    requires m.Sized()
    ensures |t| == PAGES
  {
    var t, v := Swept(m.table, FirstAged(m, 0)), WscVictim(m);
    if v == PAGES then t else t[v := Unload(t[v])]
  }

  /** Pages marked as referenced were used at time tvc. */
  function Updated(table: seq<bv8>, tdu: seq<Time>, tvc: Time): (r: seq<Time>)
    requires |table| == |tdu|
    ensures |r| == |tdu|
    ensures forall i | 0 <= i < |tdu| :: r[i] == if IsRef(table[i]) then tvc else tdu[i]
  {
    seq(|tdu|, i requires 0 <= i < |tdu| => if IsRef(table[i]) then tvc else tdu[i])
  }

  function WscAccess(m: Memory, p: nat): (m': Memory)
    requires m.Sized() && p < PAGES
    ensures m'.Sized()
  {
    var t := if IsValid(m.table[p]) then m.table else WscReplaced(m);
    Memory(t[p := Load(t[p])], Updated(t, m.tdu, m.tvc), (m.tvc + 1) % 256)
  }

  lemma WscEntries(m: Memory, p: nat)
    requires m.Sized() && p < PAGES && EntriesOk(m.table) && RefOk(m.table)
    ensures EntriesOk(WscAccess(m, p).table) && RefOk(WscAccess(m, p).table)
  {
    hide IsValid, IsSwapped, IsRef, Number, WscAccess;
    forall i | 0 <= i < PAGES
      ensures var x := WscAccess(m, p).table[i];
        !(IsValid(x) && IsSwapped(x)) && Number(x) == i as bv8 && (IsRef(x) ==> IsValid(x))
    {
      WscEntry(m, p, i);
    }
  }

  lemma WscEntry(m: Memory, p: nat, i: nat)
    requires m.Sized() && p < PAGES && i < PAGES && EntriesOk(m.table) && RefOk(m.table)
    ensures var x := WscAccess(m, p).table[i];
      !(IsValid(x) && IsSwapped(x)) && Number(x) == i as bv8 && (IsRef(x) ==> IsValid(x))
  {
    hide IsValid, IsSwapped, IsRef, Number, FirstAged, Load, Unload, SweptEntry;
  }

  /** An access to a page outside memory puts it in the victim's place. */
  lemma WscResident(m: Memory, p: nat)
    requires m.Sized() && p < PAGES && Resident(m.table) != {}
    ensures p in Resident(m.table) ==> Resident(WscAccess(m, p).table) == Resident(m.table)
    ensures p !in Resident(m.table) ==>
      && WscVictim(m) in Resident(m.table)
      && Resident(WscAccess(m, p).table) == Resident(m.table) - {WscVictim(m)} + {p}
  {
    hide IsValid, IsSwapped, IsRef, Number, FirstAged, WscVictim, Load, Unload, SweptEntry, WscAccess, Swept;
    var i :| i in Resident(m.table);
    assert IsValid(m.table[i]);
    forall j | 0 <= j < PAGES
      ensures IsValid(WscAccess(m, p).table[j]) <==>
        if IsValid(m.table[p]) then IsValid(m.table[j]) else j == p || (IsValid(m.table[j]) && j != WscVictim(m))
    {
      WscValid(m, p, j);
    }
  }

  lemma WscValid(m: Memory, p: nat, j: nat)
    requires m.Sized() && p < PAGES && j < PAGES
    ensures IsValid(WscAccess(m, p).table[j]) <==>
      if IsValid(m.table[p]) then IsValid(m.table[j]) else j == p || (IsValid(m.table[j]) && j != WscVictim(m))
  {
    hide IsValid, IsSwapped, IsRef, Number, FirstAged, WscVictim, Load, Unload, SweptEntry;
  }

  /**
   MAIN: the second chance.  A page that an access throws out was either not referenced and the
   first aged one, or no page was aged and it was the lowest-numbered in memory; and in that case
   no page but the one accessed comes out still marked as referenced.  Age is what the program's clock
   makes of it; BootAges says how long that is the real age.
   */
  lemma SecondChance(m: Memory, p: nat, q: nat)
    requires m.Sized() && p < PAGES && q < PAGES && RefOk(m.table)
    ensures IsValid(m.table[q]) && !IsValid(WscAccess(m, p).table[q]) <==>
      && !IsValid(m.table[p]) && IsValid(m.table[q])
      && ((Aged(m, q) && forall j | 0 <= j < q :: !Aged(m, j))
          || ((forall j | 0 <= j < PAGES :: !Aged(m, j)) && forall j | 0 <= j < q :: !IsValid(m.table[j])))
    ensures IsValid(m.table[q]) && !IsValid(WscAccess(m, p).table[q]) && IsRef(m.table[q]) ==>
      && (forall j | 0 <= j < q :: !IsValid(m.table[j])) && (forall j | 0 <= j < PAGES :: !Aged(m, j))
      && forall j | 0 <= j < PAGES && j != p :: !IsRef(WscAccess(m, p).table[j])
  {
    hide IsValid, IsRef, WscAccess, WscVictim, FirstAged, FirstValid;
    WscValid(m, p, q);
    if IsValid(m.table[q]) {
      VictimIs(m, q);
    }
    if !IsValid(m.table[p]) && WscVictim(m) == q && IsRef(m.table[q]) {
      NoMarksLeft(m, p, q);
    }
  }

  lemma VictimIs(m: Memory, q: nat)
    requires m.Sized() && q < PAGES && IsValid(m.table[q])
    ensures WscVictim(m) == q <==>
      || (Aged(m, q) && forall j | 0 <= j < q :: !Aged(m, j))
      || ((forall j | 0 <= j < PAGES :: !Aged(m, j)) && forall j | 0 <= j < q :: !IsValid(m.table[j]))
  {
    hide IsValid, IsRef, Aged;
  }

  /** A victim that was referenced was found only after a sweep of the whole table. */
  lemma NoMarksLeft(m: Memory, p: nat, q: nat)
    requires m.Sized() && p < PAGES && q < PAGES && RefOk(m.table) && !IsValid(m.table[p])
    requires WscVictim(m) == q && IsRef(m.table[q])
    ensures forall j | 0 <= j < PAGES && j != p :: !IsRef(WscAccess(m, p).table[j])
  {
    hide IsValid, IsRef, Number, IsSwapped, Load, Unload, SweptEntry;
  }

  // ----- entry by entry

  /** Which bits of an entry mean what: [0] valid, [1] swapped, [2] referenced, [7..4] the number. */
  lemma EntryBits(x: bv8)
    ensures IsValid(x) <==> x & 1 == 1
    ensures IsSwapped(x) <==> x & 2 == 2
    ensures IsRef(x) <==> x & 4 == 4
    ensures Number(x) << 4 == x & 0xF0
  {
  }

  /**
   MAIN: an access under LRU leaves every other page marked as it was, and a page it throws out, and no
   other, comes to be swapped; the page accessed is in memory and marked.
   */
  lemma LruEntryIs(m: Memory, p: nat, q: nat)
    requires m.Sized() && p < PAGES && q < PAGES
    ensures var x, y := m.table[q], LruAccess(m, p).table[q];
      && (q == p ==> IsValid(y) && IsRef(y)) && (q != p ==> (IsRef(y) <==> IsRef(x)) && (IsValid(y) ==> IsValid(x)))
      && (IsSwapped(y) <==> q != p && (IsSwapped(x) || (IsValid(x) && !IsValid(y))))
  {
    hide IsValid, IsSwapped, IsRef, Number, Victim, Load, Unload;
  }

  /**
   MAIN: an access under WSClock to a page outside memory unmarks the pages in memory up to the first that
   is neither marked nor younger than three accesses, and no others; a page it throws out, and no other,
   comes to be swapped.  The pages still marked then get the present time.
   */
  lemma WscEntryIs(m: Memory, p: nat, q: nat)
    requires m.Sized() && p < PAGES && q < PAGES
    ensures var x, y := m.table[q], WscAccess(m, p).table[q];
      && (q == p ==> IsValid(y) && IsRef(y)) && (q != p ==> (IsValid(y) ==> IsValid(x)))
      && (q != p && IsValid(m.table[p]) ==> y == x)
      && (q != p && !IsValid(m.table[p]) ==>
            (IsRef(y) <==> IsRef(x) && (!IsValid(x) || exists j | 0 <= j < q ::
               IsValid(m.table[j]) && !IsRef(m.table[j]) && m.tvc - m.tdu[j] > 2)))
      && (IsSwapped(y) <==> q != p && (IsSwapped(x) || (IsValid(x) && !IsValid(y))))
      && WscAccess(m, p).tdu[q] == (if IsRef(if q == p then x else y) then m.tvc else m.tdu[q])
      && WscAccess(m, p).tvc == (m.tvc + 1) % 256
  {
    hide IsValid, IsSwapped, IsRef, Number, Load, Unload, SweptEntry, FirstAged, WscVictim, WscAccess, WscReplaced, Swept;
    AccessIs(m, p, q);
    if !IsValid(m.table[p]) {
      ReplacedIs(m, q);
      BeforeAged(m, q);
    }
  }

  /** The entry and the time of a page after an access, from its entry after the replacement. */
  lemma AccessIs(m: Memory, p: nat, q: nat)
    requires m.Sized() && p < PAGES && q < PAGES
    ensures var t := if IsValid(m.table[p]) then m.table else WscReplaced(m);
      && WscAccess(m, p).table[q] == (if q == p then Load(t[p]) else t[q])
      && WscAccess(m, p).tdu[q] == (if IsRef(t[q]) then m.tvc else m.tdu[q])
      && WscAccess(m, p).tvc == (m.tvc + 1) % 256
  {
    hide IsValid, IsRef, WscReplaced, Load;
  }

  lemma ReplacedIs(m: Memory, q: nat)
    requires m.Sized() && q < PAGES
    ensures var x := m.table[q];
      var swept := if q < FirstAged(m, 0) then SweptEntry(x) else x;
      WscReplaced(m)[q] == if q == WscVictim(m) then Unload(swept) else swept
  {
    hide IsValid, IsRef, FirstAged, WscVictim, SweptEntry, Unload;
  }

  /** The sweep reaches a page in memory exactly when no page before it is aged, and itself it is not, or not marked. */
  lemma BeforeAged(m: Memory, q: nat)
    requires m.Sized() && q < PAGES
    ensures IsValid(m.table[q]) && IsRef(m.table[q]) ==>
      (FirstAged(m, 0) <= q <==> exists j | 0 <= j < q :: IsValid(m.table[j]) && !IsRef(m.table[j]) && m.tvc - m.tdu[j] > 2)
    ensures q < FirstAged(m, 0) ==> (IsRef(SweptEntry(m.table[q])) <==> IsRef(m.table[q]) && !IsValid(m.table[q]))
    ensures WscVictim(m) < PAGES ==> IsValid(m.table[WscVictim(m)])
  {
    hide IsValid, IsRef, FirstAged, WscVictim, Unref;
    var r := FirstAged(m, 0);
    if r <= q {
      assert Aged(m, r);
    }
    if j :| 0 <= j < q && IsValid(m.table[j]) && !IsRef(m.table[j]) && m.tvc - m.tdu[j] > 2 {
      assert Aged(m, j);
    }
  }

  // ----- runs

  ghost predicate InRange(trace: seq<nat>) {
    forall k | 0 <= k < |trace| :: trace[k] < PAGES
  }

  ghost function LruRun(m: Memory, trace: seq<nat>): (m': Memory)
    requires m.Sized() && InRange(trace)
    ensures m'.Sized()
    decreases |trace|
  {
    if trace == [] then m else LruAccess(LruRun(m, trace[..|trace| - 1]), trace[|trace| - 1])
  }

  function WscRun(m: Memory, trace: seq<nat>): (m': Memory)
    requires m.Sized() && forall k | 0 <= k < |trace| :: trace[k] < PAGES
    ensures m'.Sized()
    decreases |trace|
  {
    if trace == [] then m else WscAccess(WscRun(m, trace[..|trace| - 1]), trace[|trace| - 1])
  }

  /** MAIN: a run under LRU is a run by timestamps, keeps the entries well formed and as many pages in memory. */
  lemma {:induction false} LruRunOk(m: Memory, trace: seq<nat>)
    requires m.Sized() && InRange(trace) && EntriesOk(m.table) && Resident(m.table) != {}
    ensures View(LruRun(m, trace)) == Run(View(m), trace, 256)
    ensures EntriesOk(LruRun(m, trace).table) && |Resident(LruRun(m, trace).table)| == |Resident(m.table)|
    decreases |trace|
  {
    if trace != [] {
      var n := |trace| - 1;
      var m1 := LruRun(m, trace[..n]);
      LruRunOk(m, trace[..n]);
      LruRefines(m1, trace[n]);
      LruEntries(m1, trace[n]);
    }
    RunSize(View(m), trace, 256);
  }

  /**
   MAIN: of two memories that agree on times and clock, the one with fewer valid pages, but some,
   never has a page that the other has not, and never fewer faults.
   */
  lemma LruInclusion(m1: Memory, m2: Memory, trace: seq<nat>)
    requires m1.Sized() && m2.Sized() && InRange(trace) && EntriesOk(m1.table) && EntriesOk(m2.table)
    requires m1.tdu == m2.tdu && m1.tvc == m2.tvc && Resident(m1.table) != {}
    requires forall i | 0 <= i < PAGES :: IsValid(m1.table[i]) ==> IsValid(m2.table[i])
    ensures forall i | 0 <= i < PAGES :: IsValid(LruRun(m1, trace).table[i]) ==> IsValid(LruRun(m2, trace).table[i])
    ensures Faults(View(m2), trace, 256) <= Faults(View(m1), trace, 256)
  {
    var first :| first in Resident(m1.table);
    assert first in Resident(m2.table);
    LruRunOk(m1, trace);
    LruRunOk(m2, trace);
    Inclusion(View(m1), View(m2), trace, 256);
    FewerFaults(View(m1), View(m2), trace, 256);
    hide IsValid, LruRun, Run;
    forall i | 0 <= i < PAGES && IsValid(LruRun(m1, trace).table[i])
      ensures IsValid(LruRun(m2, trace).table[i])
    {
      assert i in Resident(LruRun(m1, trace).table);
    }
  }

  /** MAIN: a run under WSClock keeps the entries well formed, the marks on pages in memory, and as many of those. */
  lemma {:induction false} WscRunOk(m: Memory, trace: seq<nat>)
    requires m.Sized() && InRange(trace) && EntriesOk(m.table) && RefOk(m.table) && Resident(m.table) != {}
    ensures EntriesOk(WscRun(m, trace).table) && RefOk(WscRun(m, trace).table)
    ensures |Resident(WscRun(m, trace).table)| == |Resident(m.table)|
    decreases |trace|
  {
    if trace != [] {
      var n := |trace| - 1;
      var m1 := WscRun(m, trace[..n]);
      WscRunOk(m, trace[..n]);
      SameSize(Resident(m1.table), Resident(m.table));
      WscEntries(m1, trace[n]);
      WscResident(m1, trace[n]);
      hide WscAccess, WscVictim, EntriesOk, RefOk, Resident;
    }
  }

  lemma SameSize(a: set<nat>, b: set<nat>)
    requires |a| == |b| && b != {}
    ensures a != {}
  {
    if a == {} {
      EqualBySize(a, b);
    }
  }

  /** MAIN: over any run under LRU no page is lost: one that was in memory or swapped stays in one of these, not both. */
  lemma {:induction false} LruNothingLost(m: Memory, trace: seq<nat>, i: nat)
    requires m.Sized() && InRange(trace) && EntriesOk(m.table) && i < PAGES
    ensures var x := LruRun(m, trace).table[i];
      && (IsValid(x) || IsSwapped(x) <==> IsValid(m.table[i]) || IsSwapped(m.table[i]) || i in trace)
      && !(IsValid(x) && IsSwapped(x))
      && (IsRef(x) <==> IsRef(m.table[i]) || i in trace)
    decreases |trace|
  {
    hide IsValid, IsSwapped, IsRef, LruAccess;
    if trace != [] {
      var n := |trace| - 1;
      LruNothingLost(m, trace[..n], i);
      LruEntryIs(LruRun(m, trace[..n]), trace[n], i);
      assert trace == trace[..n] + [trace[n]];
      LoadedNotSwapped(LruRun(m, trace[..n]), trace[n], i);
    }
  }

  lemma LoadedNotSwapped(m: Memory, p: nat, i: nat)
    requires m.Sized() && p < PAGES && i < PAGES && !(IsValid(m.table[i]) && IsSwapped(m.table[i]))
    ensures !(IsValid(LruAccess(m, p).table[i]) && IsSwapped(LruAccess(m, p).table[i]))
  {
    hide IsValid, IsSwapped, LruAccess;
    LruEntryIs(m, p, i);
  }

  /** MAIN: and none over any run under WSClock. */
  lemma {:induction false} WscNothingLost(m: Memory, trace: seq<nat>, i: nat)
    requires m.Sized() && InRange(trace) && EntriesOk(m.table) && i < PAGES
    ensures var x := WscRun(m, trace).table[i];
      && (IsValid(x) || IsSwapped(x) <==> IsValid(m.table[i]) || IsSwapped(m.table[i]) || i in trace)
      && !(IsValid(x) && IsSwapped(x))
    decreases |trace|
  {
    hide IsValid, IsSwapped, IsRef, WscAccess;
    if trace != [] {
      var n := |trace| - 1;
      WscNothingLost(m, trace[..n], i);
      WscEntryIs(WscRun(m, trace[..n]), trace[n], i);
      assert trace == trace[..n] + [trace[n]];
    }
  }

  // ----- the program's own start

  ghost predicate IsBoot(m: Memory) {
    && m.Sized() && m.tvc == 0 && (forall i | 0 <= i < PAGES :: m.tdu[i] == 0)
    && EntriesOk(m.table)
    && forall i | 0 <= i < PAGES :: (IsValid(m.table[i]) <==> i < 3) && (IsSwapped(m.table[i]) <==> i == 3) && !IsRef(m.table[i])
  }

  lemma BootResident(m: Memory)
    requires IsBoot(m)
    ensures Resident(m.table) == {0, 1, 2} && IsStart(View(m)) && |m.table| == 16 == |m.tdu|
  {
    assert 0 in Resident(m.table);
  }

  /**
   MAIN: from the program's start, memory holds exactly the three most recently accessed pages after
   every trace of at most n accesses to three pages or more, if and only if the first access is not
   to page 0 or 1 and n is at most 256.
   */
  lemma BootRecency(m: Memory, q: nat, n: nat)
    requires IsBoot(m) && q < PAGES && 3 <= n
    ensures |View(m).resident| == 3
    ensures KeepsRecent(View(m), q, 256, n) <==> 2 <= q && n <= 256
  {
    BootResident(m);
    var s := View(m);
    assert Lowest(s, 0) && !Lowest(s, 1) && 1 in s.resident && 2 in s.resident;
    assert FirstAbove(s, q) <==> 2 <= q;
    RecencyUpTo(s, q, 256, n);
  }

  // ----- ages by a clock that does not wrap

  /** The table an access finds after its replacement, if it needs one. */
  function Settled(m: Memory, p: nat): (t: seq<bv8>)
    requires m.Sized() && p < PAGES
    ensures |t| == PAGES
  {
    if IsValid(m.table[p]) then m.table else WscReplaced(m)
  }

  /** For each page, after how many accesses it was last found marked, counted without end; 0 if never. */
  function LastMarked(m: Memory, trace: seq<nat>): (r: seq<nat>)
    requires m.Sized() && forall k | 0 <= k < |trace| :: trace[k] < PAGES
    ensures |r| == PAGES
    decreases |trace|
  {
    if trace == [] then m.tdu
    else
      var before := trace[..|trace| - 1];
      var t, last := Settled(WscRun(m, before), trace[|trace| - 1]), LastMarked(m, before);
      seq(PAGES, i requires 0 <= i < PAGES => if IsRef(t[i]) then |before| else last[i])
  }

  /** A valid page, not referenced, and last found marked more than DELTA of the `now` accesses ago. */
  predicate ReallyAged(m: Memory, last: seq<nat>, now: nat, i: nat)
    requires m.Sized() && |last| == PAGES && i < PAGES
  {
    IsValid(m.table[i]) && !IsRef(m.table[i]) && now - last[i] > DELTA
  }

  /** The page to throw out by real ages: the first really aged one, or without one the lowest in memory. */
  ghost predicate IsRightVictim(m: Memory, last: seq<nat>, now: nat, v: nat)
    requires m.Sized() && |last| == PAGES && v < PAGES
  {
    || (ReallyAged(m, last, now, v) && forall j | 0 <= j < v :: !ReallyAged(m, last, now, j))
    || ((forall j | 0 <= j < PAGES :: !ReallyAged(m, last, now, j))
        && IsValid(m.table[v]) && forall j | 0 <= j < v :: !IsValid(m.table[j]))
  }

  /** The fault, if it is one, at the last access of the trace throws out the right page. */
  ghost predicate RightFault(m: Memory, trace: seq<nat>)
    requires m.Sized() && trace != [] && InRange(trace)
  {
    var before := trace[..|trace| - 1];
    var m1 := WscRun(m, before);
    !IsValid(m1.table[trace[|trace| - 1]]) ==>
      WscVictim(m1) < PAGES && IsRightVictim(m1, LastMarked(m, before), |before|, WscVictim(m1))
  }

  /** Every fault of every trace of at most n accesses throws out the right page. */
  ghost predicate RightFaults(m: Memory, n: nat)
    requires m.Sized()
  {
    forall trace | trace != [] && |trace| <= n && InRange(trace) :: RightFault(m, trace)
  }

  /** Before the wrap the program's times are the real ones. */
  lemma {:induction false} AgesBeforeWrap(m: Memory, trace: seq<nat>)
    requires m.Sized() && m.tvc == 0 && InRange(trace) && |trace| <= 255
    ensures WscRun(m, trace).tdu == LastMarked(m, trace) && WscRun(m, trace).tvc == |trace|
    decreases |trace|
  {
    hide WscRun, LastMarked, WscAccess, Settled, IsRef;
    RunStart(m, trace);
    if trace != [] {
      var n := |trace| - 1;
      AgesBeforeWrap(m, trace[..n]);
      var m1, t := WscRun(m, trace[..n]), Settled(WscRun(m, trace[..n]), trace[n]);
      AccessTimes(m1, trace[n]);
      assert WscRun(m, trace).tdu == LastMarked(m, trace);
    }
  }

  /** The recursions of a run and of its times, once unfolded. */
  lemma RunStart(m: Memory, trace: seq<nat>)
    requires m.Sized() && InRange(trace)
    ensures trace == [] ==> WscRun(m, trace) == m && LastMarked(m, trace) == m.tdu
    ensures trace != [] ==>
      var before, p := trace[..|trace| - 1], trace[|trace| - 1];
      && InRange(before) && WscRun(m, trace) == WscAccess(WscRun(m, before), p)
      && forall i | 0 <= i < PAGES :: LastMarked(m, trace)[i] ==
           if IsRef(Settled(WscRun(m, before), p)[i]) then |before| else LastMarked(m, before)[i]
  {
    hide WscAccess, IsRef, Settled;
  }

  lemma AccessTimes(m: Memory, p: nat)
    requires m.Sized() && p < PAGES
    ensures WscAccess(m, p).tvc == (m.tvc + 1) % 256
    ensures forall i | 0 <= i < PAGES :: WscAccess(m, p).tdu[i] == if IsRef(Settled(m, p)[i]) then m.tvc else m.tdu[i]
  {
    hide IsRef, IsValid, WscReplaced, Load;
  }

  lemma SameAges(m: Memory, last: seq<nat>)
    requires m.Sized() && m.tdu == last
    ensures forall j | 0 <= j < PAGES :: Aged(m, j) <==> ReallyAged(m, last, m.tvc, j)
  {
    hide IsRef, IsValid;
  }

  lemma RightBeforeWrap(m: Memory, trace: seq<nat>)
    requires m.Sized() && m.tvc == 0 && EntriesOk(m.table) && RefOk(m.table) && Resident(m.table) != {}
    requires trace != [] && |trace| <= 256 && InRange(trace)
    ensures RightFault(m, trace)
  {
    hide IsRef, IsValid, WscRun, LastMarked, WscVictim, EntriesOk, RefOk, Resident, Aged, ReallyAged;
    var before := trace[..|trace| - 1];
    var m1 := WscRun(m, before);
    AgesBeforeWrap(m, before);
    WscRunOk(m, before);
    SameSize(Resident(m1.table), Resident(m.table));
    VictimFound(m1);
    VictimIs(m1, WscVictim(m1));
    SameAges(m1, LastMarked(m, before));
  }

  lemma VictimFound(m: Memory)
    requires m.Sized() && Resident(m.table) != {}
    ensures WscVictim(m) < PAGES && IsValid(m.table[WscVictim(m)])
  {
    hide IsValid, WscVictim;
    var i :| i in Resident(m.table);
    assert IsValid(m.table[i]);
  }

  /** Page 0 again and again: the times of the other pages stay 0 while the clock goes round. */
  lemma {:induction false} ZeroRun(m: Memory, k: nat)
    requires IsBoot(m)
    ensures InRange(seq(k, _ => 0))
    ensures var m1, last := WscRun(m, seq(k, _ => 0)), LastMarked(m, seq(k, _ => 0));
      && m1.tvc == k % 256 && IsValid(m1.table[0]) && (0 < k ==> IsRef(m1.table[0]))
      && forall i | 1 <= i < PAGES :: m1.table[i] == m.table[i] && m1.tdu[i] == 0 && last[i] == 0
  {
    hide IsRef, IsValid, WscRun, LastMarked, WscAccess, Settled;
    var trace := seq(k, _ => 0);
    RunStart(m, trace);
    if k > 0 {
      assert trace[..k - 1] == seq(k - 1, _ => 0) && trace[k - 1] == 0;
      ZeroRun(m, k - 1);
      NextTick(k);
      ZeroAccess(WscRun(m, seq(k - 1, _ => 0)));
    }
  }

  /** An access to page 0 in memory leaves the other pages as they are. */
  lemma ZeroAccess(m: Memory)
    requires m.Sized() && IsValid(m.table[0])
    ensures var m' := WscAccess(m, 0);
      && m'.tvc == (m.tvc + 1) % 256 && IsValid(m'.table[0]) && IsRef(m'.table[0])
      && forall i | 1 <= i < PAGES :: m'.table[i] == m.table[i] && Settled(m, 0)[i] == m.table[i]
           && (!IsRef(m.table[i]) ==> m'.tdu[i] == m.tdu[i])
  {
    hide IsRef, IsValid, WscReplaced, Load;
  }

  lemma NextTick(k: nat)
    requires 0 < k
    ensures ((k - 1) % 256 + 1) % 256 == k % 256
  {
  }

  /**
   256 accesses to page 0 and then one to page 5: page 0 goes, although it is referenced and pages 1 and
   2 have never been used.
   */
  lemma WrapHidesAge(m: Memory)
    requires IsBoot(m)
    ensures var before := seq(256, _ => 0); var m1 := WscRun(m, before);
      && InRange(before) && WscVictim(m1) == 0 && IsRef(m1.table[0]) && !IsValid(m1.table[5])
      && ReallyAged(m1, LastMarked(m, before), 256, 1) && ReallyAged(m1, LastMarked(m, before), 256, 2)
      && !RightFault(m, before + [5])
  {
    ZeroRun(m, 256);
    hide IsRef, IsValid, WscRun, LastMarked, WscVictim;
    var before := seq(256, _ => 0);
    var m1 := WscRun(m, before);
    assert (before + [5])[..256] == before && (before + [5])[256] == 5;
    assert m1.table[1] == m.table[1] && m1.table[2] == m.table[2] && m1.table[5] == m.table[5];
    NoneAged(m1);
    VictimIs(m1, 0);
  }

  lemma NoneAged(m: Memory)
    requires m.Sized() && m.tvc == 0
    ensures forall j | 0 <= j < PAGES :: !Aged(m, j)
  {
  }

  /**
   MAIN: from the program's start, in every trace of at most n accesses each fault throws out the first
   page that is in memory, not referenced, and was last found marked more than DELTA accesses ago, or
   without one the lowest-numbered page in memory, if and only if n is at most 256.
   */
  lemma BootAges(m: Memory, n: nat)
    requires IsBoot(m)
    ensures m.Sized() && (RightFaults(m, n) <==> n <= 256)
  {
    hide IsRef, IsValid, RightFault, IsBoot, EntriesOk, RefOk, Resident, WscRun, WscVictim, ReallyAged, LastMarked;
    BootOk(m);
    if n <= 256 {
      forall trace | trace != [] && |trace| <= n && InRange(trace)
        ensures RightFault(m, trace)
      {
        RightBeforeWrap(m, trace);
      }
    } else {
      WrapHidesAge(m);
      var trace := seq(256, _ => 0) + [5];
      assert InRange(trace) && !RightFault(m, trace);
    }
  }

  lemma BootOk(m: Memory)
    requires IsBoot(m)
    ensures m.Sized() && m.tvc == 0 && EntriesOk(m.table) && RefOk(m.table) && Resident(m.table) != {}
  {
    BootResident(m);
  }

  /** The accesses that name an existing page; the program refuses the others. */
  function Accepted(inputs: seq<int>): (r: seq<nat>)
    ensures forall k | 0 <= k < |r| :: r[k] < PAGES
  {
    if inputs == [] then []
    else
      var last := inputs[|inputs| - 1];
      Accepted(inputs[..|inputs| - 1]) + if 0 <= last < PAGES then [last] else []
  }

  class Pager {
    const table: array<bv8>
    const tdu: array<Time>
    var tvc: Time

    ghost predicate Valid()
      reads this
    {
      var separate: object := tdu;
      table.Length == PAGES == tdu.Length && table != separate
    }

    ghost function M(): (m: Memory)
      reads this, table, tdu
      requires Valid()
      ensures m.Sized()
    {
      Memory(table[..], tdu[..], tvc)
    }

    constructor ()
      ensures Valid() && fresh(table) && fresh(tdu)
      ensures IsBoot(M())
    {
      table := new bv8[PAGES](_ => 0);
      tdu := new Time[PAGES](_ => 0);
      tvc := 0;
      new;
      InitPageTable();
    }

    method InitPageTable()
      requires Valid() && forall i | 0 <= i < PAGES :: table[i] == 0
      modifies table
      ensures EntriesOk(table[..])
      ensures forall i | 0 <= i < PAGES :: (IsValid(table[i]) <==> i < 3) && (IsSwapped(table[i]) <==> i == 3) && !IsRef(table[i])
    {
      for i := 0 to PAGES
        invariant forall j | 0 <= j < i :: table[j] == ((j as bv8) & 0xF) << 4
        invariant forall j | i <= j < PAGES :: table[j] == 0
      {
        table[i] := table[i] | (((i as bv8) & 0xF) << 4);
        ZeroOr(((i as bv8) & 0xF) << 4);
      }
      table[0] := table[0] | VALID;
      table[1] := table[1] | VALID;
      table[2] := table[2] | VALID;
      table[3] := table[3] | SWAP;
      forall i | 0 <= i < PAGES
        ensures Number(table[i]) == i as bv8
        ensures (IsValid(table[i]) <==> i < 3) && (IsSwapped(table[i]) <==> i == 3) && !IsRef(table[i])
      {
        FirstBits(i);
      }
    }

    method ReplaceLRU()
      requires Valid()
      modifies table
      ensures table[..] == old(LruReplaced(M()))
    {
      var victim, min := -1, tvc;
      ghost var s := View(M());
      for i := 0 to PAGES
        invariant -1 <= victim < i
        invariant victim == -1 ==> min == tvc && forall j | 0 <= j < i :: !IsValid(table[j])
        invariant victim != -1 ==> IsValid(table[victim]) && min == Key(s, victim)
        invariant victim != -1 ==> forall j | 0 <= j < i && IsValid(table[j]) :: Before(s, victim, j)
      {
        if IsValid(table[i]) {
          if victim == -1 || tdu[i] < min {
            victim := i;
            if tdu[i] < min {
              min := tdu[i];
            }
          }
        }
      }
      if victim != -1 {
        assert IsVictim(s, victim);
        VictimUnique(s, victim, Victim(s));
        table[victim] := Unload(table[victim]);
      }
    }

    method IncCompteur(p: nat)
      requires Valid() && p < PAGES
      modifies this, tdu
      ensures tdu[..] == old(tdu[..])[p := old(tvc)] && tvc == (old(tvc) + 1) % 256
    {
      tdu[p] := tvc;
      tvc := (tvc + 1) % 256;
    }

    method ReplaceWSC()
      requires Valid()
      modifies table
      ensures table[..] == old(WscReplaced(M()))
    {
      hide IsValid, IsRef, IsSwapped, Number, Unload, Unref, Swept, FirstAged, FirstValid;
      var victim, i := -1, 0;
      ghost var m := M();
      ghost var reach := FirstAged(m, 0);
      while i < PAGES
        invariant 0 <= i <= PAGES && i <= reach
        invariant forall j | 0 <= j < PAGES :: table[j] == if j < i then SweptEntry(m.table[j]) else m.table[j]
        invariant victim == if FirstValid(m.table, 0) < i then FirstValid(m.table, 0) else -1
      {
        if IsValid(table[i]) {
          if victim == -1 {
            victim := i;
          }
          if IsRef(table[i]) {
            table[i] := Unref(table[i]);
          } else if tvc - tdu[i] > DELTA {
            assert Aged(m, i) && i == reach;
            victim := i;
            break;
          }
        }
        i := i + 1;
      }
      assert table[..] == Swept(m.table, reach);
      assert victim == if WscVictim(m) == PAGES then -1 else WscVictim(m);
      if victim != -1 {
        table[victim] := Unload(table[victim]);
      }
    }

    method UpdateTDU()
      requires Valid()
      modifies tdu
      ensures tdu[..] == Updated(table[..], old(tdu[..]), tvc)
    {
      hide IsRef;
      for i := 0 to PAGES
        invariant forall j | 0 <= j < i :: tdu[j] == if IsRef(table[j]) then tvc else old(tdu[j])
        invariant forall j | i <= j < PAGES :: tdu[j] == old(tdu[j])
      {
        if IsRef(table[i]) {
          tdu[i] := tvc;
        }
      }
    }

    /** One round of the main loop. */
    method Touch(p: nat, lru: bool)
      requires Valid() && p < PAGES
      modifies this, table, tdu
      ensures M() == old(if lru then LruAccess(M(), p) else WscAccess(M(), p))
    {
      hide IsValid, IsRef, LruReplaced, WscReplaced, Load;
      if lru {
        if !IsValid(table[p]) {
          ReplaceLRU();
        }
        IncCompteur(p);
      } else {
        if !IsValid(table[p]) {
          ReplaceWSC();
        }
        UpdateTDU();
        tvc := (tvc + 1) % 256;
      }
      table[p] := Load(table[p]);
    }

    /** The main loop, until the user leaves; a number that names no page is refused. */
    method Serve(inputs: seq<int>, lru: bool)
      requires Valid()
      modifies this, table, tdu
      ensures M() == old(if lru then LruRun(M(), Accepted(inputs)) else WscRun(M(), Accepted(inputs)))
    {
      ghost var m := M();
      for k := 0 to |inputs|
        invariant M() == if lru then LruRun(m, Accepted(inputs[..k])) else WscRun(m, Accepted(inputs[..k]))
      {
        var p := inputs[k];
        AcceptedStep(inputs, k);
        if 0 <= p < PAGES {
          Touch(p, lru);
        }
      }
      assert inputs[..|inputs|] == inputs;
    }
  }

  lemma AcceptedStep(inputs: seq<int>, k: nat)
    requires k < |inputs|
    ensures var r := Accepted(inputs[..k + 1]);
      && (0 <= inputs[k] < PAGES ==> r != [] && r[|r| - 1] == inputs[k] && r[..|r| - 1] == Accepted(inputs[..k]))
      && (!(0 <= inputs[k] < PAGES) ==> r == Accepted(inputs[..k]))
  {
    assert inputs[..k + 1][..k] == inputs[..k];
  }

  lemma ZeroOr(x: bv8)
    ensures 0 | x == x
  {
  }

  /** The entry of page i before its valid or swap bit is set. */
  lemma FirstBits(i: nat)
    requires i < PAGES
    ensures var x := ((i as bv8) & 0xF) << 4; var y, z := x | VALID, x | SWAP;
      && Number(x) == i as bv8 && !IsValid(x) && !IsSwapped(x) && !IsRef(x)
      && Number(y) == i as bv8 && IsValid(y) && !IsSwapped(y) && !IsRef(y)
      && Number(z) == i as bv8 && !IsValid(z) && IsSwapped(z) && !IsRef(z)
  {
    assert (i as bv8) & 0xF0 == 0;
  }
}
