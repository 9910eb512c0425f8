/**
 Page replacement by timestamps, on values: any number of pages, any resident set, and a clock
 that counts modulo m.
 */
module Recency {
  import opened Sequences

  /** The resident pages, the time of each page's last access, and the clock. */
  datatype Lru = Lru(resident: set<nat>, ts: seq<nat>, clock: nat) {
    ghost predicate Valid() {
      forall p | p in resident :: p < |ts|
    }
  }

  /** A timestamp as the search for a victim sees it: times at or after the clock all count as the clock. */
  function Key(s: Lru, p: nat): nat
    requires p < |s.ts|
  {
    if s.ts[p] < s.clock then s.ts[p] else s.clock
  }

  predicate Before(s: Lru, p: nat, q: nat)
    requires p < |s.ts| && q < |s.ts|
  {
    Key(s, p) < Key(s, q) || (Key(s, p) == Key(s, q) && p <= q)
  }

  /** The resident page that comes first by timestamp and then by number. */
  ghost predicate IsVictim(s: Lru, v: nat)
    requires s.Valid()
  {
    v in s.resident && forall p | p in s.resident :: Before(s, v, p)
  }

  lemma VictimExists(s: Lru, pages: set<nat>) returns (v: nat)
    requires s.Valid() && pages <= s.resident && pages != {}
    ensures v in pages && forall p | p in pages :: Before(s, v, p)
    decreases pages
  {
    v :| v in pages;
    if pages != {v} {
      var w := VictimExists(s, pages - {v});
      assert pages == (pages - {v}) + {v};
      if Before(s, w, v) {
        v := w;
      }
    }
  }

  ghost function Victim(s: Lru): (v: nat)
    requires s.Valid() && s.resident != {}
    ensures IsVictim(s, v)
  {
    assert exists v :: IsVictim(s, v) by {
      var w := VictimExists(s, s.resident);
      assert IsVictim(s, w);
    }
    var v :| IsVictim(s, v);
    v
  }

  lemma VictimUnique(s: Lru, v: nat, w: nat)
    requires s.Valid() && IsVictim(s, v) && IsVictim(s, w)
    ensures v == w
  {
    assert Before(s, v, w) && Before(s, w, v);
  }

  /** The clock counts modulo m. */
  function Tick(clock: nat, m: nat): (r: nat)
    requires 0 < m
    ensures clock + 1 < m ==> r == clock + 1
    ensures clock + 1 == m ==> r == 0
  {
    (clock + 1) % m
  }

  /** An access: a page that is not resident takes the place of the victim, if there is one. */
  ghost function Access(s: Lru, p: nat, m: nat): (s': Lru)
    requires s.Valid() && p < |s.ts| && 0 < m
    ensures s'.Valid() && |s'.ts| == |s.ts| && p in s'.resident
  {
    Lru(if p in s.resident then s.resident
        else if s.resident == {} then {p}
        else s.resident - {Victim(s)} + {p},
        s.ts[p := s.clock], Tick(s.clock, m))
  }

  /** Every page of the trace exists. */
  ghost predicate Fits(s: Lru, trace: seq<nat>) {
    forall k | 0 <= k < |trace| :: trace[k] < |s.ts|
  }

  ghost function Run(s: Lru, trace: seq<nat>, m: nat): (s': Lru)
    requires s.Valid() && 0 < m && Fits(s, trace)
    ensures s'.Valid() && |s'.ts| == |s.ts|
    decreases |trace|
  {
    if trace == [] then s else Access(Run(s, trace[..|trace| - 1], m), trace[|trace| - 1], m)
  }

  ghost function Faults(s: Lru, trace: seq<nat>, m: nat): nat
    requires s.Valid() && 0 < m && Fits(s, trace)
    decreases |trace|
  {
    if trace == [] then 0
    else
      var last, before := trace[|trace| - 1], trace[..|trace| - 1];
      Faults(s, before, m) + if last in Run(s, before, m).resident then 0 else 1
  }

  // ----- inclusion

  /** Two memories that agree on time, the first of which is not empty and contained in the second. */
  ghost predicate Nested(s1: Lru, s2: Lru) {
    s1.ts == s2.ts && s1.clock == s2.clock && s1.resident != {} && s1.resident <= s2.resident
  }

  lemma AccessNested(s1: Lru, s2: Lru, p: nat, m: nat)
    requires s1.Valid() && s2.Valid() && Nested(s1, s2) && p < |s1.ts| && 0 < m
    ensures Nested(Access(s1, p, m), Access(s2, p, m))
  {
    hide Tick;
    if p !in s2.resident {
      var v1, v2 := Victim(s1), Victim(s2);
      if v2 in s1.resident {
        assert IsVictim(s1, v2);
        VictimUnique(s1, v1, v2);
      }
    }
  }

  /**
   MAIN: inclusion.  After any trace, of any length and also across wraps of the clock, what is
   resident in the smaller memory is resident in the larger.
   */
  lemma {:induction false} Inclusion(s1: Lru, s2: Lru, trace: seq<nat>, m: nat)
    requires s1.Valid() && s2.Valid() && Nested(s1, s2) && 0 < m && Fits(s1, trace)
    ensures Nested(Run(s1, trace, m), Run(s2, trace, m))
    decreases |trace|
  {
    if trace != [] {
      var n := |trace| - 1;
      Inclusion(s1, s2, trace[..n], m);
      AccessNested(Run(s1, trace[..n], m), Run(s2, trace[..n], m), trace[n], m);
    }
  }

  /** MAIN: so a larger memory never has more faults. */
  lemma {:induction false} FewerFaults(s1: Lru, s2: Lru, trace: seq<nat>, m: nat)
    requires s1.Valid() && s2.Valid() && Nested(s1, s2) && 0 < m && Fits(s1, trace)
    ensures Faults(s2, trace, m) <= Faults(s1, trace, m)
    decreases |trace|
  {
    if trace != [] {
      var n := |trace| - 1;
      FewerFaults(s1, s2, trace[..n], m);
      Inclusion(s1, s2, trace[..n], m);
    }
  }

  /** The number of resident pages never changes. */
  lemma {:induction false} RunSize(s: Lru, trace: seq<nat>, m: nat)
    requires s.Valid() && s.resident != {} && 0 < m && Fits(s, trace)
    ensures |Run(s, trace, m).resident| == |s.resident|
    decreases |trace|
  {
    if trace != [] {
      var n := |trace| - 1;
      RunSize(s, trace[..n], m);
    }
  }

  /** First by timestamp as it is stored, and then by number. */
  ghost predicate LeastStamped(s: Lru, v: nat)
    requires s.Valid()
  {
    v in s.resident && forall p | p in s.resident :: s.ts[v] < s.ts[p] || (s.ts[v] == s.ts[p] && v <= p)
  }

  ghost predicate Lowest(s: Lru, v: nat) {
    v in s.resident && forall p | p in s.resident :: v <= p
  }

  /**
   The victim has the least timestamp exactly when some resident page is stamped with a time before
   the clock's, or the lowest-numbered resident page has the least timestamp itself.  The first
   holds, or all times are equal, until the clock wraps; what a timestamp then says of recency is the
   matter of RecencyUpTo.
   */
  lemma VictimIsLeastStamped(s: Lru, v: nat, low: nat)
    requires s.Valid() && IsVictim(s, v) && Lowest(s, low)
    ensures LeastStamped(s, v) <==> (exists p :: p in s.resident && s.ts[p] < s.clock) || LeastStamped(s, low)
    ensures (forall p | p in s.resident :: s.ts[p] < s.clock || s.ts[p] == s.clock == 0) ==> LeastStamped(s, v)
  {
    if p :| p in s.resident && s.ts[p] < s.clock {
      assert Before(s, v, p);
      assert LeastStamped(s, v) by {
        forall q | q in s.resident
          ensures s.ts[v] < s.ts[q] || (s.ts[v] == s.ts[q] && v <= q)
        {
          assert Before(s, v, q);
        }
      }
    } else {
      assert Before(s, v, low);
      assert v == low;
    }
  }

  // ----- recency order

  function Remove(list: seq<nat>, p: nat): (r: seq<nat>)
    ensures forall q :: q in r <==> q in list && q != p
    ensures |r| <= |list|
  {
    if list == [] then [] else if list[0] == p then Remove(list[1..], p) else [list[0]] + Remove(list[1..], p)
  }

  /** The pages of a trace, each once, the most recently accessed first. */
  function Stack(trace: seq<nat>): seq<nat> {
    if trace == [] then []
    else [trace[|trace| - 1]] + Remove(Stack(trace[..|trace| - 1]), trace[|trace| - 1])
  }

  ghost predicate Falling(ts: seq<nat>, list: seq<nat>)
    requires forall i | 0 <= i < |list| :: list[i] < |ts|
  {
    forall i, j | 0 <= i < j < |list| :: ts[list[i]] > ts[list[j]]
  }

  /** The timestamps fall along the list; pages outside it have none, and only page q may have 0 in it. */
  ghost predicate Stamped(s: Lru, st: seq<nat>, n: nat, q: nat) {
    && (forall i | 0 <= i < |st| :: st[i] < |s.ts| && s.ts[st[i]] < n)
    && Falling(s.ts, st)
    && (forall p | 0 <= p < |s.ts| && p !in st :: s.ts[p] == 0)
    && (forall p | p in st && s.ts[p] == 0 :: p == q)
  }

  /** Once k pages have been accessed the last k are resident; before, those accessed are, and lower ones than q. */
  ghost predicate Holds(s: Lru, st: seq<nat>, q: nat, k: nat) {
    && |s.resident| == k
    && if k <= |st| then s.resident == Elements(st[..k])
       else Elements(st) <= s.resident && forall u | u in s.resident && u !in st :: u < q
  }

  ghost predicate Tracks(s: Lru, st: seq<nat>, n: nat, q: nat, k: nat) {
    s.Valid() && s.clock == n && Stamped(s, st, n, q) && Holds(s, st, q, k) && 0 < k
  }

  lemma {:induction false} RemoveAbsent(list: seq<nat>, p: nat)
    requires p !in list
    ensures Remove(list, p) == list
  {
    if list != [] {
      RemoveAbsent(list[1..], p);
    }
  }

  lemma {:induction false} RemoveFalling(ts: seq<nat>, list: seq<nat>, p: nat)
    requires (forall i | 0 <= i < |list| :: list[i] < |ts|) && Falling(ts, list)
    ensures (forall i | 0 <= i < |Remove(list, p)| :: Remove(list, p)[i] < |ts|) && Falling(ts, Remove(list, p))
  {
    if list != [] {
      var rest := Remove(list[1..], p);
      RemoveFalling(ts, list[1..], p);
      forall j | 0 <= j < |rest|
        ensures ts[list[0]] > ts[rest[j]]
      {
        assert rest[j] in rest;
        var i :| 0 <= i < |list[1..]| && list[1..][i] == rest[j];
        assert list[i + 1] == rest[j];
      }
    }
  }

  lemma SetCons(p: nat, list: seq<nat>)
    ensures Elements([p] + list) == {p} + Elements(list)
  {
  }

  lemma SetIn(list: seq<nat>)
    ensures forall p :: p in Elements(list) <==> p in list
  {
  }

  lemma SetTake(list: seq<nat>, k: nat)
    requires 0 < k <= |list| && Distinct(list)
    ensures Elements(list[..k]) == Elements(list[..k - 1]) + {list[k - 1]} && list[k - 1] !in Elements(list[..k - 1])
  {
    assert list[..k] == list[..k - 1] + [list[k - 1]];
  }

  /** What stands before p is not touched. */
  lemma {:induction false} RemovePrefix(list: seq<nat>, p: nat, k: nat)
    requires k <= |list| && p !in list[..k]
    ensures k <= |Remove(list, p)| && Remove(list, p)[..k] == list[..k]
  {
    if k > 0 {
      assert list[0] == list[..k][0] && list[..k][1..] == list[1..][..k - 1];
      RemovePrefix(list[1..], p, k - 1);
    }
  }

  /** Taking p out of a list without duplicates takes it out of every prefix that holds it. */
  lemma {:induction false} RemoveInside(list: seq<nat>, p: nat, k: nat)
    requires k <= |list| && p in list[..k] && Distinct(list)
    ensures |Remove(list, p)| == |list| - 1 && Elements(Remove(list, p)[..k - 1]) == Elements(list[..k]) - {p}
  {
    assert list[..k] == [list[0]] + list[1..][..k - 1];
    SetCons(list[0], list[1..][..k - 1]);
    SetIn(list[1..][..k - 1]);
    assert list[0] !in list[1..];
    if list[0] == p {
      RemoveAbsent(list[1..], p);
    } else {
      RemoveInside(list[1..], p, k - 1);
      assert Remove(list, p)[..k - 1] == [list[0]] + Remove(list[1..], p)[..k - 2];
      SetCons(list[0], Remove(list[1..], p)[..k - 2]);
    }
  }

  lemma StampedDistinct(s: Lru, st: seq<nat>, n: nat, q: nat)
    requires Stamped(s, st, n, q)
    ensures Distinct(st)
  {
  }

  lemma StampedStep(s: Lru, s': Lru, st: seq<nat>, n: nat, q: nat, p: nat)
    requires Stamped(s, st, n, q) && p < |s.ts| && 0 < n && s'.ts == s.ts[p := n]
    ensures Stamped(s', [p] + Remove(st, p), n + 1, q)
  {
    hide Remove, Falling;
    RemoveFalling(s.ts, st, p);
    var rest := Remove(st, p);
    forall i | 0 <= i < |rest|
      ensures rest[i] in st && rest[i] != p && s.ts[rest[i]] < n
    {
      assert rest[i] in rest;
    }
    FallingCons(s.ts, rest, p, n);
  }

  lemma FallingCons(ts: seq<nat>, list: seq<nat>, p: nat, n: nat)
    requires p < |ts| && forall i | 0 <= i < |list| :: list[i] < |ts| && list[i] != p && ts[list[i]] < n
    requires Falling(ts, list)
    ensures (forall i | 0 <= i < |list| + 1 :: ([p] + list)[i] < |ts[p := n]|) && Falling(ts[p := n], [p] + list)
  {
  }

  lemma EqualBySize(a: set<nat>, b: set<nat>)
    requires a <= b && |b| <= |a|
    ensures a == b
  {
    assert b == a + (b - a);
  }

  lemma StackFull(s: Lru, st: seq<nat>, k: nat)
    requires |s.resident| == k == |st| && Elements(st) <= s.resident && Distinct(st)
    ensures s.resident == Elements(st[..k])
  {
    DistinctSize(st);
    EqualBySize(Elements(st), s.resident);
    assert st[..k] == st;
  }

  /** While fewer than k pages have been accessed, the victim has never been accessed. */
  lemma VictimUnused(s: Lru, st: seq<nat>, n: nat, q: nat, k: nat)
    requires Tracks(s, st, n, q, k) && |st| < k && 0 < n && s.resident != {}
    ensures Victim(s) !in st
  {
    StampedDistinct(s, st, n, q);
    DistinctSize(st);
    assert !(s.resident <= Elements(st)) by {
      if s.resident <= Elements(st) {
        SubsetSize(s.resident, Elements(st));
      }
    }
    var u :| u in s.resident && u !in st;
    assert Before(s, Victim(s), u);
  }

  /** Afterwards it is the last of the k most recent ones. */
  lemma VictimOldest(s: Lru, st: seq<nat>, n: nat, q: nat, k: nat)
    requires Tracks(s, st, n, q, k) && k <= |st| && 0 < n && s.resident != {}
    ensures Victim(s) == st[k - 1]
  {
    assert st[..k][k - 1] in st[..k];
    assert Before(s, Victim(s), st[k - 1]);
    assert Victim(s) in st[..k];
    var i :| 0 <= i < k && st[..k][i] == Victim(s);
  }

  lemma HoldsHit(s: Lru, st: seq<nat>, q: nat, k: nat, p: nat)
    requires Distinct(st) && Distinct([p] + Remove(st, p)) && Holds(s, st, q, k) && 0 < k && p in s.resident
    ensures Holds(s, [p] + Remove(st, p), q, k)
  {
    var st' := [p] + Remove(st, p);
    SetIn(st);
    SetCons(p, Remove(st, p));
    if k <= |st| {
      SetIn(st[..k]);
      RemoveInside(st, p, k);
      hide Elements, Distinct, Remove;
      assert st'[..k] == [p] + Remove(st, p)[..k - 1];
      SetCons(p, Remove(st, p)[..k - 1]);
    } else if p in st {
      assert st[..|st|] == st && Remove(st, p)[..|Remove(st, p)|] == Remove(st, p);
      RemoveInside(st, p, |st|);
    } else {
      RemoveAbsent(st, p);
      if k == |st'| {
        StackFull(s, st', k);
      }
    }
  }

  lemma ConsPrefix(p: nat, list: seq<nat>, k: nat)
    requires 0 < k <= |list| + 1
    ensures ([p] + list)[..k] == [p] + list[..k - 1]
  {
  }

  lemma HoldsEviction(s: Lru, s': Lru, st: seq<nat>, q: nat, k: nat, p: nat)
    requires Distinct(st) && Holds(s, st, q, k) && 0 < k <= |st| && p !in s.resident && |s'.resident| == k
    requires s'.resident == s.resident - {st[k - 1]} + {p}
    ensures Holds(s', [p] + Remove(st, p), q, k)
  {
    hide Elements, Distinct, Remove;
    SetTake(st, k);
    SetIn(st[..k - 1]);
    assert p !in st[..k - 1];
    RemovePrefix(st, p, k - 1);
    ConsPrefix(p, Remove(st, p), k);
    SetCons(p, st[..k - 1]);
  }

  lemma HoldsGrowth(s: Lru, s': Lru, st: seq<nat>, q: nat, k: nat, p: nat, v: nat)
    requires Distinct([p] + st) && Holds(s, st, q, k) && |st| < k && p !in s.resident && |s'.resident| == k
    requires v in s.resident && v !in st && s'.resident == s.resident - {v} + {p}
    ensures Holds(s', [p] + st, q, k)
  {
    SetIn(st);
    SetCons(p, st);
    hide Elements, Distinct;
    if k == |st| + 1 {
      StackFull(s', [p] + st, k);
    }
  }

  lemma HoldsFault(s: Lru, s': Lru, st: seq<nat>, q: nat, k: nat, p: nat, v: nat)
    requires Distinct(st) && Distinct([p] + Remove(st, p)) && Holds(s, st, q, k) && 0 < k && p !in s.resident
    requires v in s.resident && s'.resident == s.resident - {v} + {p}
    requires if k <= |st| then v == st[k - 1] else v !in st
    ensures Holds(s', [p] + Remove(st, p), q, k)
  {
    if k <= |st| {
      HoldsEviction(s, s', st, q, k, p);
    } else {
      SetIn(st);
      RemoveAbsent(st, p);
      HoldsGrowth(s, s', st, q, k, p, v);
    }
  }

  lemma TracksStep(s: Lru, st: seq<nat>, n: nat, q: nat, k: nat, p: nat, m: nat)
    requires Tracks(s, st, n, q, k) && 0 < n < m && p < |s.ts|
    ensures var s' := Access(s, p, m); Stamped(s', [p] + Remove(st, p), n + 1, q) && Holds(s', [p] + Remove(st, p), q, k)
  {
    hide Stamped, Holds, Victim, Tick;
    var s' := Access(s, p, m);
    StampedStep(s, s', st, n, q, p);
    assert s.resident != {} by {
      ResidentNotEmpty(s, st, q, k);
    }
    StampedDistinct(s, st, n, q);
    StampedDistinct(s', [p] + Remove(st, p), n + 1, q);
    if p in s.resident {
      HoldsHit(s, st, q, k, p);
      HoldsSame(s, s', [p] + Remove(st, p), q, k);
    } else {
      if k <= |st| {
        VictimOldest(s, st, n, q, k);
      } else {
        VictimUnused(s, st, n, q, k);
      }
      HoldsFault(s, s', st, q, k, p, Victim(s));
    }
  }

  lemma ResidentNotEmpty(s: Lru, st: seq<nat>, q: nat, k: nat)
    requires Holds(s, st, q, k) && 0 < k
    ensures s.resident != {}
  {
  }

  lemma HoldsSame(s: Lru, s': Lru, st: seq<nat>, q: nat, k: nat)
    requires Holds(s, st, q, k) && s'.resident == s.resident
    ensures Holds(s', st, q, k)
  {
  }

  /** Nothing has been accessed yet. */
  ghost predicate IsStart(s: Lru) {
    s.Valid() && s.resident != {} && s.clock == 0 && forall p | 0 <= p < |s.ts| :: s.ts[p] == 0
  }

  /** No page of the set is numbered above q. */
  predicate Tops(q: nat, pages: set<nat>) {
    forall u | u in pages && u != q :: u < q
  }

  /** Page q is numbered above every other page in memory, not counting the lowest when q is to take its place. */
  ghost predicate FirstAbove(s: Lru, q: nat) {
    forall u | u in s.resident && u != q && (q in s.resident || !Lowest(s, u)) :: u < q
  }

  /** At the start, the lowest-numbered page is the victim. */
  lemma StartVictim(s: Lru, low: nat)
    requires IsStart(s) && Lowest(s, low)
    ensures Victim(s) == low
  {
    assert IsVictim(s, low);
    VictimUnique(s, Victim(s), low);
  }

  lemma LowestExists(s: Lru) returns (low: nat)
    requires s.Valid() && s.resident != {}
    ensures Lowest(s, low)
  {
    var flat := s.(clock := 0);
    low := VictimExists(flat, s.resident);
    forall p | p in s.resident
      ensures low <= p
    {
      assert Before(flat, low, p);
    }
  }

  /** So it is numbered above all others in memory after its access. */
  lemma FirstAboveIs(s: Lru, q: nat, m: nat)
    requires IsStart(s) && q < |s.ts| && 0 < m
    ensures FirstAbove(s, q) <==> Tops(q, Access(s, q, m).resident)
  {
    hide Victim, Tick;
    var low := LowestExists(s);
    StartVictim(s, low);
    var after := Access(s, q, m).resident;
    assert after == if q in s.resident then s.resident else s.resident - {low} + {q};
    forall u | u in s.resident && u != q && (q in s.resident || !Lowest(s, u))
      ensures u in after
    {
    }
    forall u | u in after && u != q
      ensures u in s.resident && (q in s.resident || !Lowest(s, u))
    {
    }
  }

  /** A trace from q on, of at most n accesses, that touches as many pages as fit in memory. */
  ghost predicate GoodTrace(s: Lru, trace: seq<nat>, q: nat, n: nat) {
    trace != [] && trace[0] == q && |trace| <= n && Fits(s, trace) && |s.resident| <= |Stack(trace)|
  }

  lemma {:induction false} RunTracks(s: Lru, trace: seq<nat>, m: nat)
    requires IsStart(s) && trace != [] && |trace| <= m && Fits(s, trace) && FirstAbove(s, trace[0])
    ensures var s' := Run(s, trace, m);
      && Stamped(s', Stack(trace), |trace|, trace[0]) && Holds(s', Stack(trace), trace[0], |s.resident|)
      && (|trace| < m ==> s'.clock == |trace|)
    decreases |trace|
  {
    hide Stamped, Holds, FirstAbove, Access, Tracks, Tick;
    var n := |trace| - 1;
    if n == 0 {
      assert trace == [trace[0]];
      FirstTracks(s, trace[0], m);
    } else {
      RunTracks(s, trace[..n], m);
      RunTracksStep(s, trace, m);
    }
  }

  lemma RunTracksStep(s: Lru, trace: seq<nat>, m: nat)
    requires s.Valid() && 0 < |s.resident| && 1 < |trace| <= m && Fits(s, trace)
    requires var n := |trace| - 1; var s1 := Run(s, trace[..n], m);
      && Stamped(s1, Stack(trace[..n]), n, trace[0]) && Holds(s1, Stack(trace[..n]), trace[0], |s.resident|)
      && s1.clock == n
    ensures var s' := Run(s, trace, m);
      && Stamped(s', Stack(trace), |trace|, trace[0]) && Holds(s', Stack(trace), trace[0], |s.resident|)
      && (|trace| < m ==> s'.clock == |trace|)
  {
    hide Tick;
    RunLast(s, trace, m);
    var n, k := |trace| - 1, |s.resident|;
    var s1, st := Run(s, trace[..n], m), Stack(trace[..n]);
    assert Tracks(s1, st, n, trace[0], k);
    hide Stamped, Holds, Run, Stack, Access;
    TracksStep(s1, st, n, trace[0], k, trace[n], m);
  }

  lemma RunLast(s: Lru, trace: seq<nat>, m: nat)
    requires s.Valid() && 0 < m && trace != [] && Fits(s, trace)
    ensures var n := |trace| - 1;
      && Fits(s, trace[..n]) && Run(s, trace, m) == Access(Run(s, trace[..n], m), trace[n], m)
      && Run(s, trace, m).clock == Tick(Run(s, trace[..n], m).clock, m)
      && Stack(trace) == [trace[n]] + Remove(Stack(trace[..n]), trace[n])
  {
    hide Tick;
  }

  lemma FirstTracks(s: Lru, q: nat, m: nat)
    requires IsStart(s) && q < |s.ts| && 0 < m && FirstAbove(s, q)
    ensures Stack([q]) == [q] && Run(s, [q], m) == Access(s, q, m)
    ensures 1 < m ==> Access(s, q, m).clock == 1
    ensures Stamped(Access(s, q, m), [q], 1, q) && Holds(Access(s, q, m), [q], q, |s.resident|)
  {
    hide Tick, Holds, Stamped, FirstAbove, Victim;
    var s1 := Access(s, q, m);
    assert [q][..0] == [] && Stack([q][..0]) == [];
    FirstAboveIs(s, q, m);
    FirstStamped(s, s1, q);
    FirstHolds(s, s1, q);
  }

  lemma FirstStamped(s: Lru, s1: Lru, q: nat)
    requires IsStart(s) && q < |s.ts| && s1.ts == s.ts[q := 0]
    ensures Stamped(s1, [q], 1, q)
  {
  }

  lemma FirstHolds(s: Lru, s1: Lru, q: nat)
    requires s.resident != {} && |s1.resident| == |s.resident| && q in s1.resident
    requires Tops(q, s1.resident)
    ensures Holds(s1, [q], q, |s.resident|)
  {
    if |s.resident| == 1 {
      assert [q][..1] == [q];
      assert Elements([q]) == {q};
      EqualBySize({q}, s1.resident);
    } else {
      var u :| u in s.resident;
      assert s.resident == {u} + (s.resident - {u});
    }
  }

  lemma RecentAreResident(s: Lru, trace: seq<nat>, m: nat)
    requires IsStart(s) && trace != [] && |trace| <= m && Fits(s, trace) && FirstAbove(s, trace[0])
    requires |s.resident| <= |Stack(trace)|
    ensures Run(s, trace, m).resident == Elements(Stack(trace)[..|s.resident|])
  {
    RunTracks(s, trace, m);
  }

  lemma {:induction false} SetToSeq(pages: set<nat>) returns (list: seq<nat>)
    ensures Distinct(list) && Elements(list) == pages && |list| == |pages|
    decreases pages
  {
    if pages == {} {
      list := [];
    } else {
      var p :| p in pages;
      var rest := SetToSeq(pages - {p});
      SetCons(p, rest);
      SetIn(rest);
      list := [p] + rest;
    }
  }

  lemma RunCons(s: Lru, trace: seq<nat>, p: nat, m: nat)
    requires s.Valid() && 0 < m && Fits(s, trace) && p < |s.ts|
    ensures Fits(s, trace + [p]) && Run(s, trace + [p], m) == Access(Run(s, trace, m), p, m)
    ensures p !in Stack(trace) ==> Stack(trace + [p]) == [p] + Stack(trace)
  {
    hide Tick;
    assert (trace + [p])[..|trace|] == trace && (trace + [p])[|trace|] == p;
    if p !in Stack(trace) {
      RemoveAbsent(Stack(trace), p);
    }
  }

  /** After q and the pages of hits: nothing was evicted, and of the pages resident only q and r are unstamped. */
  ghost predicate Quiet(s: Lru, s': Lru, q: nat, r: nat, hits: seq<nat>) {
    && s'.resident == s.resident && s'.clock == |hits| + 1 && |s'.ts| == |s.ts|
    && q < |s.ts| && r < |s.ts| && s'.ts[q] == 0 && s'.ts[r] == 0
    && forall i | 0 <= i < |hits| :: hits[i] < |s.ts| && s'.ts[hits[i]] > 0
  }

  lemma QuietStep(s: Lru, s': Lru, q: nat, r: nat, hits: seq<nat>, p: nat, m: nat)
    requires s'.Valid() && Quiet(s, s', q, r, hits) && p in s.resident && p != q && p != r && |hits| + 2 < m
    ensures p < |s.ts| && Quiet(s, Access(s', p, m), q, r, hits + [p])
  {
    hide Tick;
  }

  lemma QuietStart(s: Lru, q: nat, r: nat, m: nat)
    requires IsStart(s) && q < |s.ts| && r < |s.ts| && 1 < m
    ensures Fits(s, [q]) && Run(s, [q], m) == Access(s, q, m) && Quiet(Access(s, q, m), Access(s, q, m), q, r, [])
  {
    hide Tick;
    RunCons(s, [], q, m);
    assert [] + [q] == [q];
  }

  /** Accessing resident pages, each once, evicts nothing and leaves q and r unstamped. */
  lemma {:induction false} HitRun(s: Lru, q: nat, r: nat, hits: seq<nat>, m: nat)
    requires IsStart(s) && q < |s.ts| && r < |s.ts| && |hits| + 1 < m
    requires forall i | 0 <= i < |hits| :: hits[i] in Access(s, q, m).resident && hits[i] != q && hits[i] != r
    ensures Fits(s, [q] + hits) && Quiet(Access(s, q, m), Run(s, [q] + hits, m), q, r, hits)
    decreases |hits|
  {
    assert s.Valid();
    hide Tick, Access, Run, Quiet, IsStart, Fits;
    if hits == [] {
      assert [q] + hits == [q];
      QuietStart(s, q, r, m);
    } else {
      var n := |hits| - 1;
      var before, p := hits[..n], hits[n];
      assert hits == before + [p] && [q] + hits == ([q] + before) + [p];
      HitRun(s, q, r, before, m);
      QuietStep(Access(s, q, m), Run(s, [q] + before, m), q, r, before, p, m);
      RunCons(s, [q] + before, p, m);
    }
  }

  /** A trace that repeats nothing is its own stack. */
  lemma {:induction false} HitStack(q: nat, hits: seq<nat>)
    requires Distinct(hits) && q !in hits
    ensures |Stack([q] + hits)| == |hits| + 1 && forall p :: p in Stack([q] + hits) <==> p == q || p in hits
    decreases |hits|
  {
    var n := |hits|;
    if n == 0 {
      assert [q] + hits == [q] && [q][..0] == [];
    } else {
      var before, p := hits[..n - 1], hits[n - 1];
      HitStack(q, before);
      assert ([q] + hits)[..n] == [q] + before && ([q] + hits)[n] == p;
      assert hits == before + [p] && p !in before;
      RemoveAbsent(Stack([q] + before), p);
    }
  }

  /** When a resident page is numbered above the first one accessed, that one may be evicted too early. */
  lemma RecencyFails(s: Lru, q: nat, r: nat, x: nat, m: nat) returns (trace: seq<nat>)
    requires IsStart(s) && q < |s.ts| && x < |s.ts| && |s.resident| < m
    requires r in Access(s, q, m).resident && q < r && x !in Access(s, q, m).resident
    ensures GoodTrace(s, trace, q, |s.resident|)
    ensures Run(s, trace, m).resident != Elements(Stack(trace)[..|s.resident|])
  {
    hide Tick, Quiet, Stack;
    var hits := PickHits(Access(s, q, m).resident, q, r);
    HitRun(s, q, r, hits, m);
    HitStack(q, hits);
    RunCons(s, [q] + hits, x, m);
    trace := [q] + hits + [x];
    EvictedTooEarly(Access(s, q, m), Run(s, [q] + hits, m), q, r, hits, x, m);
    NotInStack(Run(s, trace, m).resident, Stack(trace), [x] + Stack([q] + hits), q);
    hide Run, Access, IsStart, Distinct;
  }

  lemma NotInStack(pages: set<nat>, st: seq<nat>, st': seq<nat>, q: nat)
    requires st == st' && q in st && q !in pages
    ensures pages != Elements(st[..|st|])
  {
    assert st[..|st|] == st;
  }

  lemma PickHits(pages: set<nat>, q: nat, r: nat) returns (hits: seq<nat>)
    requires q in pages && r in pages && q != r
    ensures Distinct(hits) && |hits| == |pages| - 2
    ensures forall i | 0 <= i < |hits| :: hits[i] in pages && hits[i] != q && hits[i] != r
    ensures forall p | p in pages && p != q && p != r :: p in hits
  {
    hits := SetToSeq(pages - {q, r});
    SetIn(hits);
    assert forall i | 0 <= i < |hits| :: hits[i] in Elements(hits);
  }

  lemma EvictedTooEarly(s: Lru, s': Lru, q: nat, r: nat, hits: seq<nat>, x: nat, m: nat)
    requires s'.Valid() && Quiet(s, s', q, r, hits) && q in s.resident && r in s.resident && q < r && 0 < m
    requires x < |s'.ts| && x !in s.resident && forall p | p in s.resident && p != q && p != r :: p in hits
    ensures q !in Access(s', x, m).resident
  {
    hide Tick;
    EvictsFirst(s', q, r, hits);
  }

  lemma EvictsFirst(s: Lru, q: nat, r: nat, hits: seq<nat>)
    requires s.Valid() && q in s.resident && r in s.resident && q < r && s.clock > 0
    requires s.ts[q] == 0 && s.ts[r] == 0 && forall p | p in s.resident && p != q && p != r :: p in hits
    requires forall i | 0 <= i < |hits| :: hits[i] < |s.ts| && s.ts[hits[i]] > 0
    ensures s.resident != {} && Victim(s) == q
  {
    assert IsVictim(s, q);
    VictimUnique(s, Victim(s), q);
  }

  // ----- past the wrap

  lemma {:induction false} RemoveDistinct(list: seq<nat>, p: nat)
    requires Distinct(list)
    ensures Distinct(Remove(list, p))
  {
    if list != [] {
      RemoveDistinct(list[1..], p);
      assert list[0] !in list[1..];
    }
  }

  lemma DistinctCons(p: nat, list: seq<nat>)
    requires Distinct(list) && p !in list
    ensures Distinct([p] + list)
  {
  }

  lemma {:induction false} StackMembers(trace: seq<nat>)
    ensures Distinct(Stack(trace)) && forall p :: p in Stack(trace) <==> p in trace
    decreases |trace|
  {
    if trace != [] {
      var n := |trace| - 1;
      StackMembers(trace[..n]);
      RemoveDistinct(Stack(trace[..n]), trace[n]);
      DistinctCons(trace[n], Remove(Stack(trace[..n]), trace[n]));
      assert trace == trace[..n] + [trace[n]];
    }
  }

  lemma StackSize(trace: seq<nat>, pages: set<nat>)
    requires forall p | p in pages :: p in trace
    ensures |pages| <= |Stack(trace)|
  {
    StackMembers(trace);
    DistinctSize(Stack(trace));
    SubsetSize(pages, Elements(Stack(trace)));
  }

  /** Accessing resident pages evicts nothing, and brings the clock to 0 after m accesses. */
  lemma {:induction false} StayRun(s: Lru, q: nat, hits: seq<nat>, m: nat)
    requires s.Valid() && s.clock == 0 && q < |s.ts| && |hits| + 1 <= m && 1 < m
    requires forall i | 0 <= i < |hits| :: hits[i] in Access(s, q, m).resident
    ensures Fits(s, [q] + hits) && Run(s, [q] + hits, m).resident == Access(s, q, m).resident
    ensures Run(s, [q] + hits, m).clock == if |hits| + 1 == m then 0 else |hits| + 1
    decreases |hits|
  {
    hide Tick, Victim;
    if hits == [] {
      RunCons(s, [], q, m);
      assert [] + [q] == [q] + hits == [q];
    } else {
      var n := |hits| - 1;
      assert [q] + hits == ([q] + hits[..n]) + [hits[n]];
      StayRun(s, q, hits[..n], m);
      RunCons(s, [q] + hits[..n], hits[n], m);
    }
  }

  /** When the clock stands at 0 the lowest-numbered page is the victim, whenever it was used. */
  lemma ZeroVictim(s: Lru, low: nat)
    requires s.Valid() && s.clock == 0 && Lowest(s, low)
    ensures Victim(s) == low
  {
    assert IsVictim(s, low);
    VictimUnique(s, Victim(s), low);
  }

  /** The page accessed last but one comes second. */
  lemma StackSecond(trace: seq<nat>, low: nat, x: nat)
    requires low != x
    ensures |Stack(trace + [low] + [x])| >= 2 && Stack(trace + [low] + [x])[1] == low
  {
    assert (trace + [low])[..|trace|] == trace && (trace + [low] + [x])[..|trace| + 1] == trace + [low];
    assert Stack(trace + [low])[0] == low;
  }

  /**
   One access more than the clock can count: the first m end on the lowest-numbered page in memory,
   and the next one, to a page outside, evicts exactly that page.
   */
  lemma WrapFails(s: Lru, q: nat, x: nat, m: nat) returns (trace: seq<nat>)
    requires IsStart(s) && q < |s.ts| && x < |s.ts| && 2 <= |s.resident| < m && x !in Access(s, q, m).resident
    ensures GoodTrace(s, trace, q, m + 1)
    ensures Run(s, trace, m).resident != Elements(Stack(trace)[..|s.resident|])
  {
    hide Access, Run, Stack, Tick, IsStart, Fits;
    StartFacts(s, q, m);
    var s1 := Access(s, q, m);
    var low := LowestExists(s1);
    var before := AllBut(s1.resident, low, m);
    StayRun(s, q, before + [low], m);
    var s2 := Run(s, [q] + (before + [low]), m);
    RunCons(s, [q] + (before + [low]), x, m);
    ZeroVictim(s2, low);
    EvictsLowest(s2, low, x, m);
    trace := ([q] + (before + [low])) + [x];
    assert trace == ([q] + before) + [low] + [x];
    StackSecond([q] + before, low, x);
    StackSize(trace, s1.resident);
    SecondKept(Stack(trace), |s.resident|, low);
  }

  lemma StartFacts(s: Lru, q: nat, m: nat)
    requires IsStart(s) && q < |s.ts| && 0 < m
    ensures s.Valid() && s.clock == 0 && |Access(s, q, m).resident| == |s.resident|
  {
    hide Tick;
  }

  /** All pages but one, the last of them as often as it takes. */
  lemma AllBut(pages: set<nat>, low: nat, m: nat) returns (before: seq<nat>)
    requires low in pages && 2 <= |pages| < m
    ensures |before| == m - 2
    ensures forall i | 0 <= i < |before| :: before[i] in pages
    ensures forall p | p in pages && p != low :: p in before
  {
    var others := SetToSeq(pages - {low});
    SetIn(others);
    assert forall i | 0 <= i < |others| :: others[i] in Elements(others);
    before := others + seq(m - 1 - |pages|, _ => low);
  }

  lemma EvictsLowest(s: Lru, low: nat, x: nat, m: nat)
    requires s.Valid() && low in s.resident && x < |s.ts| && x !in s.resident && Victim(s) == low && 0 < m
    ensures low !in Access(s, x, m).resident
  {
    hide Tick;
  }

  lemma SecondKept(list: seq<nat>, k: nat, p: nat)
    requires 2 <= k <= |list| && list[1] == p
    ensures p in Elements(list[..k])
  {
    assert list[..k][1] == p;
  }

  // ----- exactly when memory holds the most recently used pages

  /** After every trace from q on, of at most n accesses, that fills memory, it holds the pages accessed most recently. */
  ghost predicate KeepsRecent(s: Lru, q: nat, m: nat, n: nat)
    requires s.Valid() && 0 < m
  {
    forall trace | GoodTrace(s, trace, q, n) :: Run(s, trace, m).resident == Elements(Stack(trace)[..|s.resident|])
  }

  lemma KeepsUpTo(s: Lru, q: nat, m: nat, n: nat)
    requires IsStart(s) && q < |s.ts| && n <= m && 0 < m && FirstAbove(s, q)
    ensures KeepsRecent(s, q, m, n)
  {
    forall trace | GoodTrace(s, trace, q, n)
      ensures Run(s, trace, m).resident == Elements(Stack(trace)[..|s.resident|])
    {
      RecentAreResident(s, trace, m);
    }
  }

  lemma FailsBelow(s: Lru, q: nat, m: nat, n: nat)
    requires IsStart(s) && q < |s.ts| && |s.resident| < |s.ts| && |s.resident| < m && |s.resident| <= n && !FirstAbove(s, q)
    ensures !KeepsRecent(s, q, m, n)
  {
    FirstAboveIs(s, q, m);
    var s1 := Access(s, q, m);
    var r :| r in s1.resident && r != q && !(r < q);
    Outside(s1.resident, |s.ts|);
    var x :| 0 <= x < |s.ts| && x !in s1.resident;
    var trace := RecencyFails(s, q, r, x, m);
    assert GoodTrace(s, trace, q, n);
  }

  /**
   MAIN: with a page left outside memory, it holds exactly the most recently accessed pages, after
   every trace from q on that the clock can count and that touches as many pages as fit, if and only
   if q is numbered above every other page in memory, not counting the one it takes the place of.
   */
  lemma RecencyExactly(s: Lru, q: nat, m: nat)
    requires IsStart(s) && q < |s.ts| && |s.resident| < |s.ts| && |s.resident| < m
    ensures KeepsRecent(s, q, m, m) <==> FirstAbove(s, q)
  {
    if FirstAbove(s, q) {
      KeepsUpTo(s, q, m, m);
    } else {
      FailsBelow(s, q, m, m);
    }
  }

  /**
   MAIN: and for traces of at most n accesses it does so if and only if, besides, the clock does not
   wrap before the last of them.  With a single page in memory the wrap does no harm.
   */
  lemma RecencyUpTo(s: Lru, q: nat, m: nat, n: nat)
    requires IsStart(s) && q < |s.ts| && 2 <= |s.resident| < |s.ts| && |s.resident| < m && |s.resident| <= n
    ensures KeepsRecent(s, q, m, n) <==> FirstAbove(s, q) && n <= m
  {
    if FirstAbove(s, q) && n <= m {
      KeepsUpTo(s, q, m, n);
    } else if !FirstAbove(s, q) {
      FailsBelow(s, q, m, n);
    } else {
      var s1 := Access(s, q, m);
      Outside(s1.resident, |s.ts|);
      var x :| 0 <= x < |s.ts| && x !in s1.resident;
      var trace := WrapFails(s, q, x, m);
      assert GoodTrace(s, trace, q, n);
    }
  }

  /** A set with fewer than n members misses a number below n. */
  lemma {:induction false} Outside(pages: set<nat>, n: nat)
    requires |pages| < n
    ensures exists x :: 0 <= x < n && x !in pages
  {
    if n - 1 in pages {
      Outside(pages - {n - 1}, n - 1);
      var x :| 0 <= x < n - 1 && x !in pages - {n - 1};
      assert x !in pages;
    }
  }
}
