/**
 Counting the letters of a text with several threads, each on its own part of the text and with
 its own counters.
 */
module Letters {
  const LETTERS: nat := 26

  /** Letter number j, in either case. */
  predicate IsLetter(c: char, j: nat) {
    c as int == 'a' as int + j || c as int == 'A' as int + j
  }

  /** The letter's place in the alphabet whatever its case, or -1. */
  function LetterOf(c: char): (l: int)
    ensures -1 <= l < LETTERS
    ensures forall j | 0 <= j < LETTERS :: IsLetter(c, j) <==> l == j
  {
    if 'a' <= c <= 'z' then c as int - 'a' as int else if 'A' <= c <= 'Z' then c as int - 'A' as int else -1
  }

  /** By character codes: 97 to 122 are the small letters, 65 to 90 the capital ones, and no others count. */
  lemma LetterCodes(c: char)
    ensures 97 <= c as int <= 122 ==> LetterOf(c) == c as int - 97
    ensures 65 <= c as int <= 90 ==> LetterOf(c) == c as int - 65
    ensures LetterOf(c) == -1 <==> !(97 <= c as int <= 122) && !(65 <= c as int <= 90)
  {
  }

  /** The positions of letter j, in either case. */
  function Positions(text: seq<char>, j: nat): set<nat> {
    set i | 0 <= i < |text| && IsLetter(text[i], j)
  }

  function Histogram(text: seq<char>, j: nat): nat {
    if text == [] then 0 else Histogram(text[..|text| - 1], j) + if LetterOf(text[|text| - 1]) == j then 1 else 0
  }

  /** The histogram counts the positions of the letter. */
  lemma {:induction false} HistogramCounts(text: seq<char>, j: nat)
    requires j < LETTERS
    ensures Histogram(text, j) == |Positions(text, j)|
  {
    if text == [] {
      assert Positions(text, j) == {};
    } else {
      var n := |text| - 1;
      HistogramCounts(text[..n], j);
      assert Positions(text, j) == Positions(text[..n], j) + if LetterOf(text[n]) == j then {n} else {};
    }
  }

  lemma {:induction false} HistogramConcat(a: seq<char>, b: seq<char>, j: nat)
    ensures Histogram(a + b, j) == Histogram(a, j) + Histogram(b, j)
    decreases |b|
  {
    if b == [] {
      assert a + b == a;
    } else {
      var n := |b| - 1;
      HistogramConcat(a, b[..n], j);
      assert (a + b)[..|a + b| - 1] == a + b[..n];
    }
  }

  lemma HistogramStep(text: seq<char>, from: nat, to: nat)
    requires from <= to < |text|
    ensures forall j: nat :: Histogram(text[from..to + 1], j) == Histogram(text[from..to], j) + if LetterOf(text[to]) == j then 1 else 0
  {
    assert text[from..to + 1][..to - from] == text[from..to];
  }

  // ----- the parts of the text

  datatype Chunk = Chunk(start: nat, size: nat)

  /** Where part i of n starts; part n is the end of the text. */
  function Start(length: nat, n: nat, i: nat): nat
    requires 0 < n && i <= n
  {
    if i == n then length else i * (length / n)
  }

  function ChunkOf(length: nat, n: nat, i: nat): Chunk
    requires i < n
  {
    Chunk(i * (length / n), if i == n - 1 then length / n + length % n else length / n)
  }

  /** MAIN: the parts tile the text: the first starts at 0, each ends where the next starts, the last at the end. */
  lemma ChunksTile(length: nat, n: nat, i: nat)
    requires i < n
    ensures ChunkOf(length, n, i).start == Start(length, n, i) <= Start(length, n, i + 1) <= length
    ensures Start(length, n, i) + ChunkOf(length, n, i).size == Start(length, n, i + 1)
    ensures Start(length, n, 0) == 0 && Start(length, n, n) == length
  {
    var q := length / n;
    assert length == n * q + length % n;
    assert (i + 1) * q == i * q + q;
    if i + 1 < n {
      MulMonotone(i + 1, n, q);
    }
  }

  lemma MulMonotone(a: nat, b: nat, q: nat)
    requires a <= b
    ensures a * q <= b * q
  {
    assert b * q == a * q + (b - a) * q;
  }

  function Part(text: seq<char>, n: nat, i: nat): seq<char>
    requires i < n
  {
    ChunksTile(|text|, n, i);
    text[Start(|text|, n, i)..Start(|text|, n, i + 1)]
  }

  method Split(text: seq<char>, n: nat) returns (params: seq<Chunk>)
    requires 0 < n
    ensures |params| == n && forall i | 0 <= i < n :: params[i] == ChunkOf(|text|, n, i)
  {
    var size, leftovers := |text| / n, |text| % n;
    params := [];
    for i := 0 to n
      invariant |params| == i && forall k | 0 <= k < i :: params[k] == ChunkOf(|text|, n, k)
    {
      params := params + [Chunk(i * size, if i == n - 1 then size + leftovers else size)];
    }
  }

  /** The work of one thread. */
  method CountLetters(text: seq<char>, chunk: Chunk, counters: array<nat>)
    requires chunk.start + chunk.size <= |text| && counters.Length == LETTERS
    modifies counters
    ensures forall j | 0 <= j < LETTERS ::
      counters[j] == old(counters[j]) + Histogram(text[chunk.start..chunk.start + chunk.size], j)
  {
    ghost var none := text[chunk.start..chunk.start + 0];
    assert forall j: nat :: Histogram(none, j) == 0;
    for i := 0 to chunk.size
      invariant forall j | 0 <= j < LETTERS :: counters[j] == old(counters[j]) + Histogram(text[chunk.start..chunk.start + i], j)
    {
      var l := LetterOf(text[chunk.start + i]);
      if l >= 0 {
        counters[l] := counters[l] + 1;
      }
      HistogramStep(text, chunk.start, chunk.start + i);
      assert chunk.start + i + 1 == chunk.start + (i + 1);
    }
  }

  // ----- all threads at once

  /** A counter is incremented in two steps: it is read, and one more is written back. */
  datatype Worker = Absent | Running(pos: nat) | Loaded(pos: nat, seen: nat) | Exited

  datatype Main = Creating(k: nat) | Joining(k: nat) | Gathering(k: nat, j: nat) | Ended

  datatype State = State(workers: seq<Worker>, counters: seq<seq<nat>>, main: Main, result: seq<nat>)

  function Zeros(): (r: seq<nat>)
    ensures |r| == LETTERS && forall j | 0 <= j < LETTERS :: r[j] == 0
  {
    seq(LETTERS, _ => 0)
  }

  ghost predicate Init(s: State, n: nat) {
    s == State(seq(n, _ => Absent), seq(n, _ => Zeros()), Creating(0), Zeros())
  }

  ghost predicate Sized(s: State, n: nat) {
    && |s.workers| == n == |s.counters| && |s.result| == LETTERS && forall i | 0 <= i < n :: |s.counters[i]| == LETTERS
  }

  function Stored(counters: seq<seq<nat>>, i: nat, l: nat, x: nat): seq<seq<nat>>
    requires i < |counters| && l < |counters[i]|
  {
    var row: seq<nat> := counters[i][l := x];
    counters[i := row]
  }

  ghost predicate WorkerStep(text: seq<char>, n: nat, s: State, s': State, i: nat)
    requires i < n && Sized(s, n)
  {
    var chunk := ChunkOf(|text|, n, i);
    match s.workers[i]
    case Absent => false
    case Exited => false
    case Running(pos) =>
      if pos >= chunk.size then s' == s.(workers := s.workers[i := Exited])
      else
        chunk.start + pos < |text| &&
        var l := LetterOf(text[chunk.start + pos]);
        s' == s.(workers := s.workers[i := if l < 0 then Running(pos + 1) else Loaded(pos, s.counters[i][l])])
    case Loaded(pos, seen) =>
      chunk.start + pos < |text| && 0 <= LetterOf(text[chunk.start + pos]) &&
      s' == s.(workers := s.workers[i := Running(pos + 1)],
               counters := Stored(s.counters, i, LetterOf(text[chunk.start + pos]), seen + 1))
  }

  ghost predicate MainStep(n: nat, s: State, s': State)
    requires Sized(s, n)
  {
    match s.main
    case Creating(k) =>
      k < n && s' == s.(workers := s.workers[k := Running(0)], main := if k + 1 < n then Creating(k + 1) else Joining(0))
    case Joining(k) =>
      k < n && s.workers[k].Exited? && s' == s.(main := if k + 1 < n then Joining(k + 1) else Gathering(0, 0))
    case Gathering(k, j) =>
      k < n && j < LETTERS &&
      s' == s.(result := s.result[j := s.result[j] + s.counters[k][j]],
               main := if j + 1 < LETTERS then Gathering(k, j + 1) else if k + 1 < n then Gathering(k + 1, 0) else Ended)
    case Ended => false
  }

  ghost predicate Next(text: seq<char>, n: nat, s: State, s': State) {
    Sized(s, n) && (MainStep(n, s, s') || exists i: nat :: i < n && WorkerStep(text, n, s, s', i))
  }

  ghost predicate IsRun(text: seq<char>, n: nat, run: seq<State>) {
    run != [] && Init(run[0], n) && forall k | 0 <= k < |run| - 1 :: Next(text, n, run[k], run[k + 1])
  }

  /** How far a worker has come. */
  function Pos(w: Worker, size: nat): nat {
    match w
    case Absent => 0
    case Running(pos) => pos
    case Loaded(pos, _) => pos
    case Exited => size
  }

  /** A worker's counters are those of the text it has been through. */
  ghost predicate WorkerOk(text: seq<char>, n: nat, i: nat, w: Worker, counters: seq<nat>)
    requires i < n
  {
    var chunk := ChunkOf(|text|, n, i);
    && |counters| == LETTERS && Pos(w, chunk.size) <= chunk.size && chunk.start + chunk.size <= |text|
    && (forall j | 0 <= j < LETTERS :: counters[j] == Histogram(text[chunk.start..chunk.start + Pos(w, chunk.size)], j))
    && (w.Loaded? ==> w.pos < chunk.size && 0 <= LetterOf(text[chunk.start + w.pos])
                      && w.seen == counters[LetterOf(text[chunk.start + w.pos])])
  }

  ghost predicate WorkersOk(text: seq<char>, n: nat, s: State)
    requires Sized(s, n)
  {
    forall i | 0 <= i < n :: WorkerOk(text, n, i, s.workers[i], s.counters[i])
  }

  ghost predicate MainOk(text: seq<char>, n: nat, s: State)
    requires 0 < n && Sized(s, n)
  {
    match s.main
    case Creating(k) => k < n && s.result == Zeros() && forall i | 0 <= i < n :: s.workers[i].Absent? <==> k <= i
    case Joining(k) =>
      k < n && s.result == Zeros() && (forall i | 0 <= i < k :: s.workers[i].Exited?) && forall i | 0 <= i < n :: !s.workers[i].Absent?
    case Gathering(k, j) =>
      && k < n && j < LETTERS && (forall i | 0 <= i < n :: s.workers[i].Exited?)
      && forall l | 0 <= l < LETTERS :: s.result[l] == Gathered(text, n, if l < j then k + 1 else k, l)
    case Ended => (forall i | 0 <= i < n :: s.workers[i].Exited?) && forall l | 0 <= l < LETTERS :: s.result[l] == Histogram(text, l)
  }

  /** The count of letter l in the first k parts. */
  function Gathered(text: seq<char>, n: nat, k: nat, l: nat): nat
    requires k <= n && 0 < n
  {
    if k == 0 then 0 else Gathered(text, n, k - 1, l) + Histogram(Part(text, n, k - 1), l)
  }

  lemma {:induction false} GatheredIs(text: seq<char>, n: nat, k: nat, l: nat)
    requires k <= n && 0 < n
    ensures Start(|text|, n, k) <= |text| && Gathered(text, n, k, l) == Histogram(text[..Start(|text|, n, k)], l)
  {
    hide Histogram, Start;
    if k > 0 {
      GatheredIs(text, n, k - 1, l);
      ChunksTile(|text|, n, k - 1);
      var a, b := Start(|text|, n, k - 1), Start(|text|, n, k);
      assert text[..b] == text[..a] + text[a..b];
      HistogramConcat(text[..a], text[a..b], l);
    } else {
      ChunksTile(|text|, n, 0);
      NoLetters(l);
      assert text[..0] == [];
    }
  }

  lemma NoLetters(l: nat)
    ensures Histogram([], l) == 0
  {
  }

  ghost predicate Inv(text: seq<char>, n: nat, s: State) {
    0 < n && Sized(s, n) && WorkersOk(text, n, s) && MainOk(text, n, s)
  }

  lemma InitOk(text: seq<char>, n: nat, s: State)
    requires Init(s, n) && 0 < n
    ensures Inv(text, n, s)
  {
    forall i | 0 <= i < n
      ensures WorkerOk(text, n, i, s.workers[i], s.counters[i])
    {
      ChunksTile(|text|, n, i);
    }
  }

  /** One step of a worker, seen from its own data. */
  lemma WorkerKeeps(text: seq<char>, n: nat, s: State, s': State, i: nat)
    requires i < n && Sized(s, n) && WorkerStep(text, n, s, s', i) && WorkerOk(text, n, i, s.workers[i], s.counters[i])
    ensures Sized(s', n) && WorkerOk(text, n, i, s'.workers[i], s'.counters[i])
  {
    var chunk := ChunkOf(|text|, n, i);
    var pos := Pos(s.workers[i], chunk.size);
    if pos < chunk.size {
      HistogramStep(text, chunk.start, chunk.start + pos);
      assert chunk.start + pos + 1 == chunk.start + (pos + 1);
    }
    hide Histogram, LetterOf, ChunkOf;
  }

  lemma WorkersKeep(text: seq<char>, n: nat, s: State, s': State, i: nat)
    requires Inv(text, n, s) && i < n && WorkerStep(text, n, s, s', i)
    ensures Inv(text, n, s')
  {
    WorkerKeeps(text, n, s, s', i);
    hide WorkerOk, Histogram, Gathered, LetterOf, ChunkOf;
  }

  lemma MainKeeps(text: seq<char>, n: nat, s: State, s': State)
    requires Inv(text, n, s) && MainStep(n, s, s')
    ensures Inv(text, n, s')
  {
    hide WorkerOk, Gathered, Histogram;
    match s.main
    case Creating(k) => StartedOk(text, n, k, s.counters[k]);
    case Joining(k) => NothingGathered(text, n);
    case Gathering(k, j) => GatherKeeps(text, n, s, s', k, j);
    case Ended =>
  }

  lemma GatherKeeps(text: seq<char>, n: nat, s: State, s': State, k: nat, j: nat)
    requires Inv(text, n, s) && MainStep(n, s, s') && s.main == Gathering(k, j)
    ensures MainOk(text, n, s')
  {
    hide WorkerOk, Gathered, Histogram, Part;
    assert WorkerOk(text, n, k, s.workers[k], s.counters[k]);
    ExitedCount(text, n, k, s.counters[k], j);
    GatheredAll(text, n);
    GatheredNext(text, n, k);
  }

  lemma NothingGathered(text: seq<char>, n: nat)
    requires 0 < n
    ensures forall l: nat :: Gathered(text, n, 0, l) == 0
  {
  }

  lemma GatheredNext(text: seq<char>, n: nat, k: nat)
    requires k < n
    ensures forall l: nat :: Gathered(text, n, k + 1, l) == Gathered(text, n, k, l) + Histogram(Part(text, n, k), l)
  {
  }

  lemma GatheredAll(text: seq<char>, n: nat)
    requires 0 < n
    ensures forall l: nat :: Gathered(text, n, n, l) == Histogram(text, l)
  {
    forall l: nat
      ensures Gathered(text, n, n, l) == Histogram(text, l)
    {
      GatheredIs(text, n, n, l);
      assert text[..|text|] == text;
    }
  }

  lemma StartedOk(text: seq<char>, n: nat, k: nat, counters: seq<nat>)
    requires k < n && WorkerOk(text, n, k, Absent, counters)
    ensures WorkerOk(text, n, k, Running(0), counters)
  {
  }

  lemma ExitedCount(text: seq<char>, n: nat, k: nat, counters: seq<nat>, j: nat)
    requires k < n && j < LETTERS && WorkerOk(text, n, k, Exited, counters)
    ensures counters[j] == Histogram(Part(text, n, k), j)
  {
    ChunksTile(|text|, n, k);
  }

  lemma {:induction false} RunOk(text: seq<char>, n: nat, run: seq<State>, k: nat)
    requires 0 < n && IsRun(text, n, run) && k < |run|
    ensures Inv(text, n, run[k])
  {
    if k == 0 {
      InitOk(text, n, run[0]);
    } else {
      RunOk(text, n, run, k - 1);
      if MainStep(n, run[k - 1], run[k]) {
        MainKeeps(text, n, run[k - 1], run[k]);
      } else {
        var i: nat :| i < n && WorkerStep(text, n, run[k - 1], run[k], i);
        WorkersKeep(text, n, run[k - 1], run[k], i);
      }
    }
  }

  /** MAIN: however the threads are interleaved, the counters gathered are those of the whole text. */
  lemma CountsAreExact(text: seq<char>, n: nat, run: seq<State>, j: nat)
    requires 0 < n && IsRun(text, n, run) && run[|run| - 1].main.Ended? && j < LETTERS
    ensures |run[|run| - 1].result| == LETTERS && run[|run| - 1].result[j] == |Positions(text, j)|
    ensures forall i :: i in Positions(text, j) <==> 0 <= i < |text| && (text[i] as int == 97 + j || text[i] as int == 65 + j)
  {
    RunOk(text, n, run, |run| - 1);
    HistogramCounts(text, j);
  }

  // ----- every run ends

  function Left(w: Worker, size: nat): nat {
    match w
    case Absent => 2 * size + 2
    case Running(pos) => if pos <= size then 2 * (size - pos) + 1 else 1
    case Loaded(pos, _) => if pos <= size then 2 * (size - pos) else 1
    case Exited => 0
  }

  function LeftAll(length: nat, workers: seq<Worker>, n: nat): nat
    requires |workers| <= n
  {
    if workers == [] then 0
    else
      var i := |workers| - 1;
      LeftAll(length, workers[..i], n) + Left(workers[i], ChunkOf(length, n, i).size)
  }

  lemma {:induction false} LeftChange(length: nat, workers: seq<Worker>, n: nat, i: nat, w: Worker)
    requires |workers| <= n && i < |workers|
    ensures LeftAll(length, workers[i := w], n) - LeftAll(length, workers, n)
         == Left(w, ChunkOf(length, n, i).size) - Left(workers[i], ChunkOf(length, n, i).size)
  {
    var m := |workers| - 1;
    if i < m {
      LeftChange(length, workers[..m], n, i, w);
      assert workers[i := w][..m] == workers[..m][i := w];
    } else {
      assert workers[i := w][..m] == workers[..m];
    }
  }

  function LeftMain(main: Main, n: nat): int {
    match main
    case Creating(k) => (n - k) + n + LETTERS * n
    case Joining(k) => (n - k) + LETTERS * n
    case Gathering(k, j) => LETTERS * (n - k) - j
    case Ended => 0
  }

  /** Every step, of a worker or of main, leaves less to do. */
  lemma StepShrinks(text: seq<char>, n: nat, s: State, s': State)
    requires Inv(text, n, s) && Next(text, n, s, s')
    ensures LeftAll(|text|, s'.workers, n) + LeftMain(s'.main, n) < LeftAll(|text|, s.workers, n) + LeftMain(s.main, n)
  {
    hide LeftAll, WorkerOk, Gathered, Histogram, LetterOf, ChunkOf;
    if MainStep(n, s, s') {
      if s.main.Creating? {
        LeftChange(|text|, s.workers, n, s.main.k, Running(0));
      }
    } else {
      var i: nat :| i < n && WorkerStep(text, n, s, s', i);
      WorkerShrinks(text, n, s, s', i);
    }
  }

  lemma WorkerShrinks(text: seq<char>, n: nat, s: State, s': State, i: nat)
    requires Inv(text, n, s) && i < n && WorkerStep(text, n, s, s', i)
    ensures s'.main == s.main && |s'.workers| == n && LeftAll(|text|, s'.workers, n) < LeftAll(|text|, s.workers, n)
  {
    assert WorkerOk(text, n, i, s.workers[i], s.counters[i]);
    LeftChange(|text|, s.workers, n, i, s'.workers[i]);
    hide LeftAll, Histogram, LetterOf, ChunkOf;
  }

  /** What all the workers have to do, at the start. */
  lemma {:induction false} LeftAtStart(length: nat, n: nat, k: nat)
    requires 0 < n && k <= n
    ensures LeftAll(length, seq(k, _ => Absent), n) == 2 * Start(length, n, k) + 2 * k
  {
    if k > 0 {
      LeftAtStart(length, n, k - 1);
      ChunksTile(length, n, k - 1);
      var workers := seq(k, _ => Absent);
      assert workers[..k - 1] == seq(k - 1, _ => Absent);
    }
  }

  /** MAIN: no run is longer than 2 steps for each character and 30 for each thread. */
  lemma {:induction false} RunsEnd(text: seq<char>, n: nat, run: seq<State>, k: nat)
    requires 0 < n && IsRun(text, n, run) && k < |run|
    ensures |run[k].workers| == n && 0 <= LeftMain(run[k].main, n)
    ensures k + LeftAll(|text|, run[k].workers, n) + LeftMain(run[k].main, n) <= 2 * |text| + 30 * n
    ensures k <= 2 * |text| + 30 * n
  {
    RunOk(text, n, run, k);
    if k == 0 {
      LeftAtStart(|text|, n, n);
    } else {
      RunsEnd(text, n, run, k - 1);
      RunOk(text, n, run, k - 1);
      StepShrinks(text, n, run[k - 1], run[k]);
    }
  }

  /** MAIN: and a run that cannot go on has ended. */
  lemma NoDeadlock(text: seq<char>, n: nat, run: seq<State>)
    requires 0 < n && IsRun(text, n, run)
    ensures var s := run[|run| - 1]; (forall s' :: !Next(text, n, s, s')) <==> s.main.Ended?
  {
    var s := run[|run| - 1];
    RunOk(text, n, run, |run| - 1);
    if !s.main.Ended? {
      var s' := SomeStep(text, n, s);
      assert Next(text, n, s, s');
    }
  }

  lemma SomeStep(text: seq<char>, n: nat, s: State) returns (s': State)
    requires Inv(text, n, s) && !s.main.Ended?
    ensures Next(text, n, s, s')
  {
    match s.main
    case Creating(k) =>
      s' := s.(workers := s.workers[k := Running(0)], main := if k + 1 < n then Creating(k + 1) else Joining(0));
    case Joining(k) =>
      if s.workers[k].Exited? {
        s' := s.(main := if k + 1 < n then Joining(k + 1) else Gathering(0, 0));
      } else {
        s' := WorkerGoesOn(text, n, s, k);
      }
    case Gathering(k, j) =>
      s' := s.(result := s.result[j := s.result[j] + s.counters[k][j]],
               main := if j + 1 < LETTERS then Gathering(k, j + 1) else if k + 1 < n then Gathering(k + 1, 0) else Ended);
  }

  lemma WorkerGoesOn(text: seq<char>, n: nat, s: State, i: nat) returns (s': State)
    requires i < n && Sized(s, n) && WorkerOk(text, n, i, s.workers[i], s.counters[i])
    requires !s.workers[i].Absent? && !s.workers[i].Exited?
    ensures WorkerStep(text, n, s, s', i)
  {
    var chunk := ChunkOf(|text|, n, i);
    var pos := Pos(s.workers[i], chunk.size);
    if pos == chunk.size {
      s' := s.(workers := s.workers[i := Exited]);
    } else {
      var l := LetterOf(text[chunk.start + pos]);
      if s.workers[i].Loaded? {
        s' := s.(workers := s.workers[i := Running(pos + 1)], counters := Stored(s.counters, i, l, s.workers[i].seen + 1));
      } else {
        s' := s.(workers := s.workers[i := if l < 0 then Running(pos + 1) else Loaded(pos, s.counters[i][l])]);
      }
    }
  }
}
