/**
 The argument page: built by the old image of a process at one address, and moved to another in
 the new one.  It starts with the number of arguments; an array of addresses follows, first of the
 arguments, then of the environment strings, ended by a zero; then come the strings themselves.
 */
module ArgPage {
  import opened Wrappers
  import opened Tables
  import opened KernelState

  /** A C string without its final zero. */
  type CStr = s: seq<byte> | 0 !in s witness []

  /** The little-endian word at an offset. */
  function Word(b: seq<byte>, off: nat): (w: nat)
    requires off + 4 <= |b|
    ensures w < SPACE
  {
    b[off] as nat + 0x100 * b[off + 1] as nat + 0x1_0000 * b[off + 2] as nat + 0x100_0000 * b[off + 3] as nat
  }

  ghost predicate IsStr(b: seq<byte>, off: nat, s: CStr) {
    off + |s| + 1 <= |b| && b[off..off + |s|] == s && b[off + |s|] == 0
  }

  /** Where string k starts, counted from the first string. */
  function Off(strs: seq<CStr>, k: nat): nat
    requires k <= |strs|
  {
    if k == 0 then 0 else Off(strs, k - 1) + |strs[k - 1]| + 1
  }

  lemma {:induction false} OffMonotone(strs: seq<CStr>, j: nat, k: nat)
    requires j <= k <= |strs|
    ensures Off(strs, j) + (k - j) <= Off(strs, k)
  {
    if j < k {
      OffMonotone(strs, j, k - 1);
    }
  }

  /** Where the strings start, with n arguments and m environment strings. */
  function Header(n: nat, m: nat): nat {
    4 + 4 * n + 4 * (m + 1)
  }

  function Start(args: seq<CStr>, envs: seq<CStr>, k: nat): nat
    requires k <= |args| + |envs|
  {
    Header(|args|, |envs|) + Off(args + envs, k)
  }

  function Total(args: seq<CStr>, envs: seq<CStr>): nat {
    Start(args, envs, |args| + |envs|)
  }

  /** Where the address of string k stands; the zero after the last one follows the same rule. */
  function Slot(k: nat): nat { 4 + 4 * k }

  /** The page b, at address base, holds the arguments and the environment. */
  ghost predicate Laid(b: seq<byte>, base: nat, args: seq<CStr>, envs: seq<CStr>) {
    var n := |args| + |envs|;
    && Total(args, envs) <= |b|
    && Word(b, 0) == |args|
    && (forall k | 0 <= k < n :: Word(b, Slot(k)) == base + Start(args, envs, k))
    && Word(b, Slot(n)) == 0
    && (forall k | 0 <= k < n :: IsStr(b, Start(args, envs, k), (args + envs)[k]))
  }

  method StoreWord(b: array<byte>, off: nat, w: nat)
    requires off + 4 <= b.Length && w < SPACE
    modifies b
    ensures Word(b[..], off) == w
    ensures forall x | 0 <= x < b.Length && !(off <= x < off + 4) :: b[x] == old(b[x])
  {
    b[off] := (w % 0x100) as byte;
    b[off + 1] := (w / 0x100 % 0x100) as byte;
    b[off + 2] := (w / 0x1_0000 % 0x100) as byte;
    b[off + 3] := (w / 0x100_0000) as byte;
    FourBytes(w);
  }

  lemma FourBytes(w: nat)
    ensures w == w % 0x100 + 0x100 * (w / 0x100 % 0x100) + 0x1_0000 * (w / 0x1_0000 % 0x100) + 0x100_0000 * (w / 0x100_0000)
  {
    var a := w / 0x100;
    var b := a / 0x100;
    assert w / 0x1_0000 == b;
    assert w / 0x100_0000 == b / 0x100;
  }

  method StrCpy(b: array<byte>, off: nat, s: CStr)
    requires off + |s| + 1 <= b.Length
    modifies b
    ensures IsStr(b[..], off, s)
    ensures forall x | 0 <= x < b.Length && !(off <= x < off + |s| + 1) :: b[x] == old(b[x])
  {
    for i := 0 to |s|
      invariant forall x | 0 <= x < i :: b[off + x] == s[x]
      invariant forall x | 0 <= x < b.Length && !(off <= x < off + i) :: b[x] == old(b[x])
    {
      b[off + i] := s[i];
    }
    b[off + |s|] := 0;
    assert b[off..off + |s|] == s;
  }

  /** The first k strings and their addresses are in place, and the other addresses are still zero. */
  ghost predicate LaidUpTo(b: seq<byte>, base: nat, args: seq<CStr>, envs: seq<CStr>, k: nat)
    requires k <= |args| + |envs|
  {
    && Total(args, envs) <= |b|
    && Word(b, 0) == |args|
    && (forall j | 0 <= j < k :: Word(b, Slot(j)) == base + Start(args, envs, j))
    && (forall j | 0 <= j < k :: IsStr(b, Start(args, envs, j), (args + envs)[j]))
    && (forall x | Slot(k) <= x < Header(|args|, |envs|) && x < PAGE_SIZE :: b[x] == 0)
  }

  lemma StartBounds(args: seq<CStr>, envs: seq<CStr>, k: nat)
    requires k < |args| + |envs|
    ensures Header(|args|, |envs|) <= Start(args, envs, k)
    ensures Start(args, envs, k + 1) == Start(args, envs, k) + |(args + envs)[k]| + 1 <= Total(args, envs)
  {
    OffMonotone(args + envs, 0, k);
    OffMonotone(args + envs, k + 1, |args| + |envs|);
  }

  lemma StartZero(args: seq<CStr>, envs: seq<CStr>)
    ensures Start(args, envs, 0) == Header(|args|, |envs|)
  {
  }

  lemma CountStored(b: seq<byte>, base: nat, args: seq<CStr>, envs: seq<CStr>, k: nat)
    requires k <= |args| + |envs| && LaidUpTo(b, base, args, envs, k)
    ensures |b| >= 4 && Word(b, 0) == |args|
  {
    HeaderInside(args, envs);
  }

  lemma StartOrder(args: seq<CStr>, envs: seq<CStr>, j: nat, k: nat)
    requires j < k <= |args| + |envs|
    ensures Start(args, envs, j) + |(args + envs)[j]| + 1 <= Start(args, envs, k)
  {
    OffMonotone(args + envs, j + 1, k);
  }

  /** Bytes outside two areas have kept their value. */
  ghost predicate SameOutside(b: seq<byte>, b': seq<byte>, lo: nat, hi: nat, lo': nat, hi': nat) {
    |b'| == |b| && forall x | 0 <= x < |b| && !(lo <= x < hi) && !(lo' <= x < hi') :: b'[x] == b[x]
  }

  lemma WordSame(b: seq<byte>, b': seq<byte>, off: nat)
    requires off + 4 <= |b| && off + 4 <= |b'| && forall x | off <= x < off + 4 :: b'[x] == b[x]
    ensures Word(b', off) == Word(b, off)
  {
  }

  /** String j and its address are not touched when string k is placed. */
  lemma StringKept(b: seq<byte>, b': seq<byte>, args: seq<CStr>, envs: seq<CStr>, j: nat, k: nat)
    requires j < k < |args| + |envs| && Total(args, envs) <= |b|
    requires SameOutside(b, b', Slot(k), Slot(k) + 4, Start(args, envs, k), Start(args, envs, k) + |(args + envs)[k]| + 1)
    requires IsStr(b, Start(args, envs, j), (args + envs)[j])
    ensures Slot(j) + 4 <= |b| && Word(b', Slot(j)) == Word(b, Slot(j))
    ensures IsStr(b', Start(args, envs, j), (args + envs)[j])
  {
    StartBounds(args, envs, j);
    StartBounds(args, envs, k);
    StartOrder(args, envs, j, k);
    WordSame(b, b', Slot(j));
    var at, s := Start(args, envs, j), (args + envs)[j];
    assert b'[at..at + |s|] == b[at..at + |s|];
  }

  lemma LaidStep(b: seq<byte>, b': seq<byte>, base: nat, args: seq<CStr>, envs: seq<CStr>, k: nat)
    requires k < |args| + |envs| && LaidUpTo(b, base, args, envs, k) && Slot(k) + 4 <= |b'|
    requires var at := Start(args, envs, k);
      && SameOutside(b, b', Slot(k), Slot(k) + 4, at, at + |(args + envs)[k]| + 1)
      && Word(b', Slot(k)) == base + at && IsStr(b', at, (args + envs)[k])
    ensures LaidUpTo(b', base, args, envs, k + 1)
  {
    hide Word, IsStr, Start, Total, Off, SameOutside, Slot, Header;
    CountKept(b, b', base, args, envs, k);
    StringsKept(b, b', base, args, envs, k);
    ZerosKept(b, b', base, args, envs, k);
  }

  lemma CountKept(b: seq<byte>, b': seq<byte>, base: nat, args: seq<CStr>, envs: seq<CStr>, k: nat)
    requires k < |args| + |envs| && LaidUpTo(b, base, args, envs, k)
    requires SameOutside(b, b', Slot(k), Slot(k) + 4, Start(args, envs, k), Start(args, envs, k) + |(args + envs)[k]| + 1)
    ensures 4 <= |b'| == |b| && Total(args, envs) <= |b'| && Word(b', 0) == |args|
  {
    hide Word, IsStr, Off;
    HeaderInside(args, envs);
    StartBounds(args, envs, k);
    WordSame(b, b', 0);
  }

  /** The addresses still to be stored stay zero when string k is placed. */
  lemma ZerosKept(b: seq<byte>, b': seq<byte>, base: nat, args: seq<CStr>, envs: seq<CStr>, k: nat)
    requires k < |args| + |envs| && LaidUpTo(b, base, args, envs, k)
    requires SameOutside(b, b', Slot(k), Slot(k) + 4, Start(args, envs, k), Start(args, envs, k) + |(args + envs)[k]| + 1)
    ensures |b'| == |b| && Header(|args|, |envs|) <= |b'|
    ensures forall x | Slot(k + 1) <= x < Header(|args|, |envs|) && x < PAGE_SIZE :: b'[x] == 0
  {
    HeaderInside(args, envs);
    hide Word, IsStr, Off;
    forall x | Slot(k + 1) <= x < Header(|args|, |envs|) && x < PAGE_SIZE
      ensures b'[x] == 0
    {
      Untouched(b, b', args, envs, k, x);
    }
  }

  lemma StringsKept(b: seq<byte>, b': seq<byte>, base: nat, args: seq<CStr>, envs: seq<CStr>, k: nat)
    requires k < |args| + |envs| && LaidUpTo(b, base, args, envs, k)
    requires SameOutside(b, b', Slot(k), Slot(k) + 4, Start(args, envs, k), Start(args, envs, k) + |(args + envs)[k]| + 1)
    ensures forall j | 0 <= j < k :: Slot(j) + 4 <= |b'| && Word(b', Slot(j)) == base + Start(args, envs, j)
    ensures forall j | 0 <= j < k :: IsStr(b', Start(args, envs, j), (args + envs)[j])
  {
    assert |b'| == |b| && Total(args, envs) <= |b|;
    hide Word, IsStr, Start, Total, Off, SameOutside;
    forall j | 0 <= j < k
      ensures Slot(j) + 4 <= |b'| && Word(b', Slot(j)) == base + Start(args, envs, j)
      ensures IsStr(b', Start(args, envs, j), (args + envs)[j])
    {
      StringKept(b, b', args, envs, j, k);
    }
  }

  lemma Untouched(b: seq<byte>, b': seq<byte>, args: seq<CStr>, envs: seq<CStr>, k: nat, x: nat)
    requires k < |args| + |envs| && Slot(k + 1) <= x < Header(|args|, |envs|) && x < |b|
    requires SameOutside(b, b', Slot(k), Slot(k) + 4, Start(args, envs, k), Start(args, envs, k) + |(args + envs)[k]| + 1)
    ensures |b'| == |b| && b'[x] == b[x]
  {
  }

  lemma HeaderInside(args: seq<CStr>, envs: seq<CStr>)
    ensures Slot(|args| + |envs|) + 4 == Header(|args|, |envs|) <= Total(args, envs)
  {
    OffMonotone(args + envs, 0, |args| + |envs|);
  }

  lemma LaidPrefix(b: seq<byte>, p: seq<byte>, base: nat, args: seq<CStr>, envs: seq<CStr>, j: nat)
    requires j < |args| + |envs| && LaidUpTo(b, base, args, envs, |args| + |envs|)
    requires Total(args, envs) <= |p| <= |b| && p == b[..|p|]
    ensures Word(p, Slot(j)) == base + Start(args, envs, j)
    ensures IsStr(p, Start(args, envs, j), (args + envs)[j])
  {
    hide Word, IsStr, Off;
    StartBounds(args, envs, j);
    HeaderInside(args, envs);
    WordSame(b, p, Slot(j));
    SameStr(b, p, Start(args, envs, j), (args + envs)[j]);
  }

  lemma SameStr(b: seq<byte>, p: seq<byte>, at: nat, s: CStr)
    requires IsStr(b, at, s) && at + |s| + 1 <= |p|
    requires forall x | at <= x < at + |s| + 1 :: p[x] == b[x]
    ensures IsStr(p, at, s)
  {
    assert p[at..at + |s|] == b[at..at + |s|];
  }

  /** Everything has been placed: the zero after the last address is the one from memset. */
  lemma LaidDone(b: seq<byte>, base: nat, args: seq<CStr>, envs: seq<CStr>)
    requires LaidUpTo(b, base, args, envs, |args| + |envs|) && Total(args, envs) <= PAGE_SIZE <= |b|
    ensures Laid(b[..PAGE_SIZE], base, args, envs)
  {
    hide IsStr, Start, Total;
    HeaderInside(args, envs);
    forall j | 0 <= j < |args| + |envs|
      ensures Word(b[..PAGE_SIZE], Slot(j)) == base + Start(args, envs, j)
      ensures IsStr(b[..PAGE_SIZE], Start(args, envs, j), (args + envs)[j])
    {
      LaidPrefix(b, b[..PAGE_SIZE], base, args, envs, j);
    }
  }

  /** Nothing has changed from an offset on. */
  ghost predicate SameFrom(b: seq<byte>, b': seq<byte>, from: nat) {
    |b'| == |b| && forall x | from <= x < |b| :: b'[x] == b[x]
  }

  lemma SameFromTwice(b: seq<byte>, b': seq<byte>, b'': seq<byte>, from: nat, from': nat)
    requires SameFrom(b, b', from) && SameFrom(b', b'', from')
    ensures SameFrom(b, b'', if from <= from' then from' else from)
  {
  }

  lemma SameFromSelf(b: seq<byte>, from: nat)
    ensures SameFrom(b, b, from)
  {
  }

  /** One string and its address. */
  method Place(b: array<byte>, base: nat, ghost args: seq<CStr>, ghost envs: seq<CStr>, k: nat, at: nat, s: CStr)
    requires k < |args| + |envs| && at == Start(args, envs, k) && s == (args + envs)[k]
    requires LaidUpTo(b[..], base, args, envs, k) && base + b.Length <= SPACE
    modifies b
    ensures LaidUpTo(b[..], base, args, envs, k + 1) && IsStr(b[..], at, s)
    ensures SameFrom(old(b[..]), b[..], Total(args, envs))
  {
    ghost var before := b[..];
    StartBounds(args, envs, k);
    StoreWord(b, Slot(k), base + at);
    ghost var middle := b[..];
    StrCpy(b, at, s);
    assert Word(b[..], Slot(k)) == Word(middle, Slot(k));
    LaidStep(before, b[..], base, args, envs, k);
  }

  /** The arguments the page is to hold: the name of the process when there are none. */
  function ArgList(argc: nat, argv: Option<seq<CStr>>, name: CStr): seq<CStr>
    requires argv.Some? ==> argc <= |argv.value|
  {
    if argc == 0 then [name] else if argv.Some? then argv.value[..argc] else []
  }

  function EnvList(envp: Option<seq<CStr>>): seq<CStr> {
    if envp.Some? then envp.value else []
  }

  /** The page is zeroed, the count stored, and the place of the first string found. */
  method Prepare(b: array<byte>, ghost base: nat, argc: nat, envp: Option<seq<CStr>>, ghost args: seq<CStr>)
    returns (at: nat)
    requires |args| == (if argc == 0 then 1 else argc) && PAGE_SIZE <= b.Length <= SPACE
    requires Total(args, EnvList(envp)) <= b.Length
    modifies b
    ensures LaidUpTo(b[..], base, args, EnvList(envp), 0) && at == Start(args, EnvList(envp), 0)
    ensures SameFrom(old(b[..]), b[..], if PAGE_SIZE <= Total(args, EnvList(envp)) then Total(args, EnvList(envp)) else PAGE_SIZE)
  {
    HeaderInside(args, EnvList(envp));
    for x := 0 to PAGE_SIZE
      invariant forall y | 0 <= y < x :: b[y] == 0
      invariant forall y | PAGE_SIZE <= y < b.Length :: b[y] == old(b[y])
    {
      b[x] := 0;
    }
    StoreWord(b, 0, if argc == 0 then 1 else argc);
    at := 4;
    if argc == 0 {
      at := at + 4;
    } else {
      at := at + 4 * argc;
    }
    ghost var counted := b[..];
    if envp == None {
      StoreWord(b, at, 0);
      assert Word(b[..], 0) == Word(counted, 0);
      assert forall x | at <= x < at + 4 :: b[..][x] == 0 by {
        assert Word(b[..], at) == 0;
      }
      at := at + 4;
    } else {
      var i := 0;
      while true
        invariant i <= |envp.value| && at == Slot(|args|) + 4 * i && b[..] == counted
        decreases |envp.value| - i
      {
        at := at + 4;
        if i == |envp.value| { break; }
        i := i + 1;
      }
    }
  }

  lemma StringEnds(b: seq<byte>, args: seq<CStr>, envs: seq<CStr>, k: nat)
    requires k < |args| + |envs| && IsStr(b, Start(args, envs, k), (args + envs)[k])
    requires PAGE_SIZE < Start(args, envs, k) + |(args + envs)[k]| + 1
    ensures Overrun(b, args, envs)
  {
  }

  /** Some string has been written whose final zero lies behind the page. */
  ghost predicate Overrun(b: seq<byte>, args: seq<CStr>, envs: seq<CStr>) {
    exists k | 0 <= k < |args| + |envs| ::
      IsStr(b, Start(args, envs, k), (args + envs)[k]) && PAGE_SIZE <= Start(args, envs, k) + |(args + envs)[k]| < |b|
  }

  /**
   The loop over the arguments, and the one over the environment: a string and its address are
   written, and then it is seen whether they fit.
   */
  method PlaceList(b: array<byte>, base: nat, ghost args: seq<CStr>, ghost envs: seq<CStr>, first: nat, start: nat, strs: seq<CStr>)
    returns (ok: bool, at: nat)
    requires first + |strs| <= |args| + |envs| && forall i | 0 <= i < |strs| :: strs[i] == (args + envs)[first + i]
    requires start == Start(args, envs, first) && LaidUpTo(b[..], base, args, envs, first) && base + b.Length <= SPACE
    modifies b
    ensures ok ==> LaidUpTo(b[..], base, args, envs, first + |strs|) && at == Start(args, envs, first + |strs|)
    ensures ok && strs != [] ==> at <= PAGE_SIZE
    ensures !ok ==> PAGE_SIZE < Total(args, envs) && Overrun(b[..], args, envs)
    ensures SameFrom(old(b[..]), b[..], Total(args, envs))
  {
    hide LaidUpTo, Start, Off, Word, Total, Overrun, IsStr, Slot, SameFrom;
    ghost var before := b[..];
    SameFromSelf(before, Total(args, envs));
    at := start;
    for i := 0 to |strs|
      invariant at == Start(args, envs, first + i) && LaidUpTo(b[..], base, args, envs, first + i)
      invariant 0 < i ==> at <= PAGE_SIZE
      invariant SameFrom(before, b[..], Total(args, envs))
    {
      StartBounds(args, envs, first + i);
      ghost var last := b[..];
      Place(b, base, args, envs, first + i, at, strs[i]);
      SameFromTwice(before, last, b[..], Total(args, envs), Total(args, envs));
      at := at + |strs[i]| + 1;
      if at > PAGE_SIZE {
        StringEnds(b[..], args, envs, first + i);
        return false, at;
      }
    }
    ok := true;
  }

  /**
   MAIN: the argument page is built, unless it is too small, or arguments are announced and
   missing; then the result is false.  A page that is too small is noticed after the string that
   does not fit has been written: b stands for the page and the memory that follows it.  So memory
   after the page is left alone exactly when everything fits or nothing is written; otherwise the
   zero that ends some string stands behind the page.
   */
  method PreserveArgsAndEnv(b: array<byte>, base: nat, argc: nat, argv: Option<seq<CStr>>, envp: Option<seq<CStr>>, name: CStr)
    returns (ok: bool)
    requires argv.Some? ==> argc <= |argv.value|
    requires |name| < 80 && 0 < base && base + b.Length <= SPACE && PAGE_SIZE <= b.Length
    requires Total(ArgList(argc, argv, name), EnvList(envp)) <= b.Length
    modifies b
    ensures ok <==> (argc == 0 || argv.Some?) && Total(ArgList(argc, argv, name), EnvList(envp)) <= PAGE_SIZE
    ensures ok ==> Laid(b[..PAGE_SIZE], base, ArgList(argc, argv, name), EnvList(envp))
    ensures argc > 0 && argv == None ==> b[..] == old(b[..])
    ensures Total(ArgList(argc, argv, name), EnvList(envp)) <= PAGE_SIZE ==> SameFrom(old(b[..]), b[..], PAGE_SIZE)
    ensures !ok && (argc == 0 || argv.Some?) ==> Overrun(b[..], ArgList(argc, argv, name), EnvList(envp))
    ensures ok ==>
      && Word(b[..PAGE_SIZE], 0) == (if argc == 0 then 1 else argc)
      && ReadArgv(b[..PAGE_SIZE], base, 0) == (if argc == 0 then [name] else argv.value[..argc])
      && ReadEnvp(b[..PAGE_SIZE], base, if argc == 0 then 1 else argc) == (if envp.Some? then envp.value else [])
    ensures argc > 0 && argv.Some? ==>
      (ok <==> 4 * (argc + (if envp.Some? then |envp.value| else 0) + 2)
               + Bytes(argv.value[..argc]) + Bytes(if envp.Some? then envp.value else []) <= 4096)
    ensures argc == 0 ==>
      (ok <==> 4 * (1 + (if envp.Some? then |envp.value| else 0) + 2)
               + |name| + 1 + Bytes(if envp.Some? then envp.value else []) <= 4096)
  {
    hide LaidUpTo, Laid, Start, Off, Word, Total, Overrun, IsStr, Slot, SameFrom, ReadArgv, ReadEnvp, Bytes;
    if argc > 0 && argv == None {
      SameFromSelf(b[..], PAGE_SIZE);
      return false;
    }
    ghost var args, envs := ArgList(argc, argv, name), EnvList(envp);
    ghost var total := Total(args, envs);
    TotalIsStart(args, envs);
    TotalBytes(args, envs);
    BytesOne(name);
    ghost var b0 := b[..];
    var at := Prepare(b, base, argc, envp, args);
    ghost var b1 := b[..];
    ok, at := PlaceArgs(b, base, argc, if argc == 0 then [] else argv.value[..argc], name, at, args, envs);
    ghost var b2 := b[..];
    SameFromTwice(b0, b1, b2, if PAGE_SIZE <= total then total else PAGE_SIZE, total);
    if !ok { return; }
    if envp.Some? {
      ok, at := PlaceList(b, base, args, envs, Word(b[..], 0), at, envp.value);
      SameFromTwice(b0, b2, b[..], if PAGE_SIZE <= total then total else PAGE_SIZE, total);
      if !ok { return; }
    }
    LaidDone(b[..], base, args, envs);
    ReadBack(b[..PAGE_SIZE], base, args, envs);
  }

  /** What a list of strings takes up, with their zeros. */
  function Bytes(strs: seq<CStr>): nat {
    if strs == [] then 0 else |strs[0]| + 1 + Bytes(strs[1..])
  }

  lemma BytesOne(s: CStr)
    ensures Bytes([s]) == |s| + 1
  {
  }

  lemma {:induction false} BytesConcat(a: seq<CStr>, b: seq<CStr>)
    ensures Bytes(a + b) == Bytes(a) + Bytes(b)
  {
    if a == [] {
      assert a + b == b;
    } else {
      assert (a + b)[1..] == a[1..] + b;
      BytesConcat(a[1..], b);
    }
  }

  lemma {:induction false} OffBytes(strs: seq<CStr>, k: nat)
    requires k <= |strs|
    ensures Off(strs, k) == Bytes(strs[..k])
  {
    if k > 0 {
      OffBytes(strs, k - 1);
      assert strs[..k] == strs[..k - 1] + [strs[k - 1]];
      BytesConcat(strs[..k - 1], [strs[k - 1]]);
      BytesOne(strs[k - 1]);
    }
  }

  /** The page must hold the count, an address for each string, a zero, and the strings. */
  lemma TotalBytes(args: seq<CStr>, envs: seq<CStr>)
    ensures Total(args, envs) == 4 * (|args| + |envs| + 2) + Bytes(args) + Bytes(envs)
  {
    OffBytes(args + envs, |args| + |envs|);
    assert (args + envs)[..|args| + |envs|] == args + envs;
    BytesConcat(args, envs);
  }

  lemma TotalIsStart(args: seq<CStr>, envs: seq<CStr>)
    ensures Total(args, envs) == Start(args, envs, |args| + |envs|)
  {
  }

  /** The arguments, or the name of the process when there are none; the latter is not checked for its length. */
  method PlaceArgs(b: array<byte>, base: nat, argc: nat, strs: seq<CStr>, name: CStr, start: nat,
                   ghost args: seq<CStr>, ghost envs: seq<CStr>) returns (ok: bool, at: nat)
    requires |strs| == argc && args == (if argc == 0 then [name] else strs) && |name| < 80
    requires start == Start(args, envs, 0) && LaidUpTo(b[..], base, args, envs, 0) && base + b.Length <= SPACE
    modifies b
    ensures ok ==> LaidUpTo(b[..], base, args, envs, |args|) && at == Start(args, envs, |args|) && Word(b[..], 0) == |args|
    ensures ok ==> at <= PAGE_SIZE || (argc == 0 && envs != [])
    ensures !ok ==> PAGE_SIZE < Total(args, envs) && Overrun(b[..], args, envs)
    ensures SameFrom(old(b[..]), b[..], Total(args, envs))
  {
    hide LaidUpTo, Start, Off, Word, Total, Overrun, IsStr, Slot, SameFrom;
    at := start;
    if argc == 0 {
      StartBounds(args, envs, 0);
      StartZero(args, envs);
      Place(b, base, args, envs, 0, at, name);
      at := at + |name| + 1;
      ok := true;
    } else {
      ok, at := PlaceList(b, base, args, envs, 0, at, strs);
    }
    if ok {
      CountStored(b[..], base, args, envs, |args|);
    }
  }

  /** The page src has been copied from address base to address base', and k addresses follow the move. */
  ghost predicate Moved(b: seq<byte>, src: seq<byte>, base': nat, args: seq<CStr>, envs: seq<CStr>, k: nat)
    requires k <= |args| + |envs|
  {
    && |b| == |src| && Total(args, envs) <= |b|
    && (forall j | 0 <= j < k :: Word(b, Slot(j)) == base' + Start(args, envs, j))
    && (forall x | 0 <= x < |b| && !(4 <= x < Slot(k)) :: b[x] == src[x])
  }

  lemma MovedDone(b: seq<byte>, src: seq<byte>, base: nat, base': nat, args: seq<CStr>, envs: seq<CStr>)
    requires Laid(src, base, args, envs) && Moved(b, src, base', args, envs, |args| + |envs|)
    ensures Laid(b, base', args, envs)
  {
    HeaderInside(args, envs);
    forall j | 0 <= j < |args| + |envs|
      ensures IsStr(b, Start(args, envs, j), (args + envs)[j])
    {
      StartBounds(args, envs, j);
      SameStr(src, b, Start(args, envs, j), (args + envs)[j]);
    }
  }

  /** What the relocation loop reads at slot k: an address that is not zero, or the final zero. */
  lemma MovedNext(b: seq<byte>, src: seq<byte>, base: nat, base': nat, args: seq<CStr>, envs: seq<CStr>, k: nat)
    requires k <= |args| + |envs| && Laid(src, base, args, envs) && Moved(b, src, base', args, envs, k)
    requires 0 < base && base + |src| <= SPACE && base' + |src| <= SPACE
    ensures Slot(k) + 4 <= |b|
    ensures k == |args| + |envs| <==> Word(b, Slot(k)) == 0
    ensures k < |args| + |envs| ==>
      Word(b, Slot(k)) == base + Start(args, envs, k) && base' + Start(args, envs, k) < SPACE && Start(args, envs, k) < |b|
  {
    hide Word, IsStr, Off;
    HeaderInside(args, envs);
    if k < |args| + |envs| {
      StartBounds(args, envs, k);
    }
    WordSame(src, b, Slot(k));
  }

  lemma MovedStep(b: seq<byte>, b': seq<byte>, src: seq<byte>, base': nat, args: seq<CStr>, envs: seq<CStr>, k: nat)
    requires k < |args| + |envs| && Moved(b, src, base', args, envs, k) && |b'| == |b|
    requires Slot(k) + 4 <= |b| && Word(b', Slot(k)) == base' + Start(args, envs, k)
    requires forall x | 0 <= x < |b| && !(Slot(k) <= x < Slot(k) + 4) :: b'[x] == b[x]
    ensures Moved(b', src, base', args, envs, k + 1)
  {
    HeaderInside(args, envs);
    forall j | 0 <= j < k
      ensures Word(b', Slot(j)) == Word(b, Slot(j))
    {
    }
  }

  /** One address is made to follow the move. */
  method Relocate(page: array<byte>, ghost src: seq<byte>, base: nat, base': nat, ghost args: seq<CStr>, ghost envs: seq<CStr>, k: nat)
    requires k < |args| + |envs| && Laid(src, base, args, envs) && Moved(page[..], src, base', args, envs, k)
    requires 0 < base && base + |src| <= SPACE && base' + |src| <= SPACE && page.Length == |src|
    modifies page
    ensures Moved(page[..], src, base', args, envs, k + 1)
  {
    hide Laid, Moved, Start;
    ghost var before := page[..];
    MovedNext(before, src, base, base', args, envs, k);
    StoreWord(page, Slot(k), (Word(page[..], Slot(k)) + SPACE - base + base') % SPACE);
    MovedStep(before, page[..], src, base', args, envs, k);
  }

  /**
   MAIN: the page is moved to its new address.  Exactly the addresses of arguments and environment
   strings change; the loop over the environment ends at the zero after them.
   */
  method PostSetupImage(page: array<byte>, src: seq<byte>, base: nat, base': nat, ghost args: seq<CStr>, ghost envs: seq<CStr>)
    requires page.Length == |src| && Laid(src, base, args, envs)
    requires 0 < base && base + |src| <= SPACE && base' + |src| <= SPACE
    modifies page
    ensures Laid(page[..], base', args, envs)
    ensures forall x | 0 <= x < |src| && !(4 <= x < Slot(|args| + |envs|)) :: page[x] == src[x]
  {
    hide Start, IsStr, Word;
    HeaderInside(args, envs);
    for x := 0 to page.Length
      invariant forall y | 0 <= y < x :: page[y] == src[y]
    {
      page[x] := src[x];
    }
    assert page[..] == src;
    var argc := Word(page[..], 0);
    for i := 0 to argc
      invariant Moved(page[..], src, base', args, envs, i)
    {
      Relocate(page, src, base, base', args, envs, i);
    }
    var i := 0;
    MovedNext(page[..], src, base, base', args, envs, argc);
    while Word(page[..], Slot(argc + i)) != 0
      invariant i <= |envs| && Moved(page[..], src, base', args, envs, argc + i)
      invariant Slot(argc + i) + 4 <= page.Length
      invariant i == |envs| <==> Word(page[..], Slot(argc + i)) == 0
      decreases |envs| - i
    {
      Relocate(page, src, base, base', args, envs, argc + i);
      i := i + 1;
      MovedNext(page[..], src, base, base', args, envs, argc + i);
    }
    MovedDone(page[..], src, base, base', args, envs);
  }

  // ----- what the new program reads

  /** The string at an offset: the bytes up to the first zero. */
  function ReadStr(b: seq<byte>, off: nat): CStr
    decreases if off < |b| then |b| - off else 0
  {
    if off >= |b| || b[off] == 0 then [] else [b[off]] + ReadStr(b, off + 1)
  }

  /** The string an address in the page points to. */
  function ReadAt(b: seq<byte>, base: nat, k: nat): CStr
    requires Slot(k) + 4 <= |b|
  {
    if Word(b, Slot(k)) < base then [] else ReadStr(b, Word(b, Slot(k)) - base)
  }

  /** argv: as many strings as the count says. */
  function ReadArgv(b: seq<byte>, base: nat, k: nat): seq<CStr>
    requires |b| >= 4
    decreases Word(b, 0) - k
  {
    if k >= Word(b, 0) || Slot(k) + 4 > |b| then [] else [ReadAt(b, base, k)] + ReadArgv(b, base, k + 1)
  }

  /** envp: strings up to the zero address. */
  function ReadEnvp(b: seq<byte>, base: nat, k: nat): seq<CStr>
    decreases if Slot(k) + 4 > |b| then 0 else |b| - Slot(k)
  {
    if Slot(k) + 4 > |b| || Word(b, Slot(k)) == 0 then [] else [ReadAt(b, base, k)] + ReadEnvp(b, base, k + 1)
  }

  lemma {:induction false} ReadStrBack(b: seq<byte>, off: nat, s: CStr)
    requires IsStr(b, off, s)
    ensures ReadStr(b, off) == s
    decreases |s|
  {
    if s != [] {
      assert b[off + 1..off + |s|] == b[off..off + |s|][1..] == s[1..];
      assert b[off] == b[off..off + |s|][0] == s[0];
      ReadStrBack(b, off + 1, s[1..]);
    }
  }

  lemma LaidAt(b: seq<byte>, base: nat, args: seq<CStr>, envs: seq<CStr>, k: nat)
    requires Laid(b, base, args, envs) && k <= |args| + |envs|
    ensures 4 <= Slot(k) + 4 <= |b| && Word(b, 0) == |args|
    ensures if k < |args| + |envs| then Word(b, Slot(k)) == base + Start(args, envs, k) && 0 < Start(args, envs, k)
            else Word(b, Slot(k)) == 0
    ensures k < |args| + |envs| ==> IsStr(b, Start(args, envs, k), (args + envs)[k])
  {
    HeaderInside(args, envs);
  }

  lemma ReadAtBack(b: seq<byte>, base: nat, args: seq<CStr>, envs: seq<CStr>, k: nat)
    requires Laid(b, base, args, envs) && k < |args| + |envs|
    ensures Slot(k) + 4 <= |b| && ReadAt(b, base, k) == (args + envs)[k] && 0 < Word(b, Slot(k))
  {
    hide Laid, Start, IsStr, Word, ReadStr;
    LaidAt(b, base, args, envs, k);
    ReadStrBack(b, Start(args, envs, k), (args + envs)[k]);
  }

  lemma {:induction false} ReadArgvBack(b: seq<byte>, base: nat, args: seq<CStr>, envs: seq<CStr>, k: nat)
    requires Laid(b, base, args, envs) && k <= |args|
    ensures |b| >= 4 && ReadArgv(b, base, k) == args[k..]
    decreases |args| - k
  {
    hide Laid, Start, IsStr, Word, ReadAt;
    LaidAt(b, base, args, envs, k);
    if k < |args| {
      ReadAtBack(b, base, args, envs, k);
      ReadArgvBack(b, base, args, envs, k + 1);
    }
  }

  lemma {:induction false} ReadEnvpBack(b: seq<byte>, base: nat, args: seq<CStr>, envs: seq<CStr>, k: nat)
    requires Laid(b, base, args, envs) && k <= |envs|
    ensures ReadEnvp(b, base, |args| + k) == envs[k..]
    decreases |envs| - k
  {
    hide Laid, Start, IsStr, Word, ReadAt;
    LaidAt(b, base, args, envs, |args| + k);
    if k < |envs| {
      ReadAtBack(b, base, args, envs, |args| + k);
      ReadEnvpBack(b, base, args, envs, k + 1);
    }
  }

  /** The least significant byte of a word comes first. */
  lemma WordOrder()
    ensures Word([0x78, 0x56, 0x34, 0x12], 0) == 0x1234_5678
  {
  }

  /**
   MAIN: where everything stands on the page: the count at 0, address k at 4 + 4 * k, the terminator
   after the last address, then the strings, each behind the zero of the one before.
   */
  lemma LaidBytes(b: seq<byte>, base: nat, args: seq<CStr>, envs: seq<CStr>, k: nat)
    requires Laid(b, base, args, envs) && k < |args| + |envs|
    ensures 4 * (|args| + |envs| + 2) <= |b| && Word(b, 0) == |args| && Word(b, 4 + 4 * (|args| + |envs|)) == 0
    ensures var s, at := (args + envs)[k], 4 * (|args| + |envs| + 2) + Bytes((args + envs)[..k]);
      && Word(b, 4 + 4 * k) == base + at && at + |s| < |b|
      && (forall i | 0 <= i < |s| :: b[at + i] == s[i]) && b[at + |s|] == 0
  {
    hide Word, Off, Bytes;
    HeaderInside(args, envs);
    OffBytes(args + envs, k);
    assert Slot(k) == 4 + 4 * k;
    var s, at := (args + envs)[k], Start(args, envs, k);
    assert IsStr(b, at, s);
    assert forall i | 0 <= i < |s| :: b[at..at + |s|][i] == s[i];
  }

  /** MAIN: a program reads back from the page, in order, every argument and environment string. */
  lemma ReadBack(b: seq<byte>, base: nat, args: seq<CStr>, envs: seq<CStr>)
    requires Laid(b, base, args, envs)
    ensures |b| >= 4 && Word(b, 0) == |args|
    ensures ReadArgv(b, base, 0) == args && ReadEnvp(b, base, Word(b, 0)) == envs
  {
    LaidAt(b, base, args, envs, 0);
    ReadArgvBack(b, base, args, envs, 0);
    ReadEnvpBack(b, base, args, envs, 0);
  }
}
