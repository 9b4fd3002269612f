/** Argument vectors: joined into one buffer, cut to a length, and split again. */
module ProcArgs {
  const NUL := '\0'

  /** A C string, without its terminator. */
  type CString = s: string | NUL !in s

  /** All arguments, each with its terminator. */
  function Join(argv: seq<CString>): string {
    if argv == [] then [] else argv[0] + [NUL] + Join(argv[1..])
  }

  function Nuls(n: nat): (s: string)
    ensures |s| == n && forall i :: 0 <= i < n ==> s[i] == NUL
  {
    seq(n, i => NUL)
  }

  // ----- splitting

  /** `strlen`, of the string that `t` starts with. */
  function StrLen(t: string): (n: nat)
    requires NUL in t
    ensures n < |t| && t[n] == NUL && NUL !in t[..n]
  {
    if t[0] == NUL then 0
    else
      var n := StrLen(t[1..]);
      assert t[..1 + n] == [t[0]] + t[1..][..n];
      1 + n
  }

  /** Every string that starts among the first `n` characters ends inside the buffer. */
  predicate Closed(t: string, n: int) { n <= |t| && (n > 0 ==> NUL in t[n - 1..]) }

  lemma ClosedRest(t: string, n: int, k: nat)
    requires Closed(t, n) && n > 0 && k <= |t|
    ensures NUL in t && Closed(t[k..], n - k)
  {
    if n - k > 0 { assert t[k..][n - k - 1..] == t[n - 1..]; }
  }

  /** The strings that start among the first `n` characters. */
  function Strings(t: string, n: int): seq<CString>
    requires Closed(t, n)
    decreases |t|
  {
    if n <= 0 then []
    else
      ClosedRest(t, n, 0);
      var k := StrLen(t);
      ClosedRest(t, n, k + 1);
      [t[..k]] + Strings(t[k + 1..], n - k - 1)
  }

  method MeasureString(t: string) returns (n: nat)
    requires NUL in t
    ensures n == StrLen(t)
  {
    n := 0;
    while t[n] != NUL
      invariant n < |t| && NUL in t[n..] && StrLen(t) == n + StrLen(t[n..])
      decreases |t| - n
    {
      assert t[n..][1..] == t[n + 1..];
      n := n + 1;
    }
  }

  lemma StringsNext(t: string, n: int)
    requires Closed(t, n) && n > 0
    ensures NUL in t
    ensures var k := StrLen(t);
            Closed(t[k + 1..], n - k - 1) && Strings(t, n) == [t[..k]] + Strings(t[k + 1..], n - k - 1)
  {
    ClosedRest(t, n, 0);
    ClosedRest(t, n, StrLen(t) + 1);
  }

  lemma Shift(a: seq<CString>, x: CString, b: seq<CString>)
    ensures a + ([x] + b) == (a + [x]) + b
  {
  }

  /** `split_args0`: the pointer `arg` is kept as the memory from there on, of which `left`
      characters are the caller's. */
  method SplitArgs(args0: string, size: nat) returns (argv: seq<CString>)
    requires Closed(args0, size)
    ensures argv == Strings(args0, size)
  {
    argv := [];
    var arg, left: int := args0, size;
    ghost var ahead := Strings(args0, size);
    while left > 0
      invariant Closed(arg, left) && ahead == Strings(arg, left)
      invariant Strings(args0, size) == argv + ahead
      decreases left
    {
      StringsNext(arg, left);
      var n := MeasureString(arg);
      var s := arg[..n];
      arg, left := arg[n + 1..], left - n - 1;
      ahead := Strings(arg, left);
      Shift(argv, s, ahead);
      argv := argv + [s];
    }
  }

  // ----- joining

  lemma {:induction false} JoinAppend(a: seq<CString>, s: CString)
    ensures Join(a + [s]) == Join(a) + s + [NUL]
  {
    if a == [] {
      assert [] + [s] == [s] && [s][1..] == [];
    } else {
      assert (a + [s])[1..] == a[1..] + [s];
      JoinAppend(a[1..], s);
    }
  }

  method CopyString(arg: CString, buffer: array<char>, pos: nat)
    requires pos + |arg| + 1 <= buffer.Length
    modifies buffer
    ensures buffer[..] == old(buffer[..pos]) + (arg + [NUL]) + old(buffer[pos + |arg| + 1..])
  {
    forall k | 0 <= k <= |arg| {
      buffer[pos + k] := if k < |arg| then arg[k] else NUL;
    }
  }

  lemma JoinNext(args: seq<CString>, n: nat)
    requires n < |args|
    ensures Join(args[..n + 1]) == Join(args[..n]) + (args[n] + [NUL])
  {
    assert args[..n + 1] == args[..n] + [args[n]];
    JoinAppend(args[..n], args[n]);
  }

  /** The first loop of `glibtop_get_proc_args_p`. */
  method JoinedSize(args: seq<CString>) returns (size: nat)
    ensures size == |Join(args)|
  {
    size := 0;
    for ptr := 0 to |args|
      invariant size == |Join(args[..ptr])|
    {
      JoinNext(args, ptr);
      size := size + |args[ptr]| + 1;
    }
    assert args[..|args|] == args;
  }

  /** The buffer that `glibtop_get_proc_args_p` makes, and the size it reports. */
  method JoinArgs(args: seq<CString>) returns (retval: array<char>, reported: nat)
    ensures fresh(retval) && retval[..] == Join(args) + Nuls(2)
    ensures reported == if args == [] then 0 else |Join(args)| - 1
  {
    var size := JoinedSize(args);
    retval := new char[size + 2](_ => NUL);
    var pos := 0;
    for ptr := 0 to |args|
      invariant pos == |Join(args[..ptr])| <= size
      invariant retval[..] == Join(args[..ptr]) + Nuls(size + 2 - pos)
    {
      JoinNext(args, ptr);
      JoinPrefix(args, ptr + 1);
      CopyString(args[ptr], retval, pos);
      pos := pos + |args[ptr]| + 1;
    }
    assert args[..|args|] == args;
    reported := if pos > 0 then pos - 1 else 0;
  }

  lemma {:induction false} JoinPrefix(args: seq<CString>, n: nat)
    requires n <= |args|
    ensures |Join(args[..n])| <= |Join(args)|
    decreases |args| - n
  {
    if n == |args| {
      assert args[..n] == args;
    } else {
      JoinNext(args, n);
      JoinPrefix(args, n + 1);
    }
  }

  // ----- splitting undoes joining

  lemma {:induction false} StrLenOf(s: CString, rest: string)
    ensures StrLen(s + [NUL] + rest) == |s|
  {
    if s != [] {
      assert (s + [NUL] + rest)[1..] == s[1..] + [NUL] + rest;
      StrLenOf(s[1..], rest);
    }
  }

  lemma FirstString(t: string, s: CString, rest: string, n: int)
    requires t == s + [NUL] + rest && Closed(rest, n - |s| - 1) && 0 < n <= |t|
    ensures Closed(t, n) && Strings(t, n) == [s] + Strings(rest, n - |s| - 1)
  {
    var m := n - |s| - 1;
    if m > 0 {
      assert t[n - 1..] == rest[m - 1..];
    } else {
      assert t[n - 1..][|s| - n + 1] == NUL;
    }
    StrLenOf(s, rest);
    assert t[..|s|] == s && t[|s| + 1..] == rest;
  }

  /** Among the first `n` characters of the joined vector all of its arguments start. */
  ghost predicate AllStart(argv: seq<CString>, n: int) {
    if argv == [] then n <= 0 else |Join(argv[..|argv| - 1])| < n <= |Join(argv)|
  }

  lemma AllStartTail(argv: seq<CString>, n: int)
    requires argv != [] && AllStart(argv, n)
    ensures 0 < n && AllStart(argv[1..], n - |argv[0]| - 1)
  {
    if |argv| > 1 {
      assert argv[..|argv| - 1][1..] == argv[1..][..|argv| - 2];
    }
  }

  lemma JoinFirst(argv: seq<CString>, rest: string)
    requires argv != []
    ensures Join(argv) + rest == argv[0] + [NUL] + (Join(argv[1..]) + rest)
  {
  }

  lemma HeadAndTail(argv: seq<CString>)
    requires argv != []
    ensures argv == [argv[0]] + argv[1..]
  {
  }

  /** Splitting finds the arguments of a joined vector when no others start before the limit. */
  lemma {:induction false} SplitJoinIn(t: string, argv: seq<CString>, rest: string, n: int)
    requires t == Join(argv) + rest && AllStart(argv, n)
    ensures Closed(t, n) && Strings(t, n) == argv
    decreases |argv|
  {
    if argv != [] {
      var s, tail := argv[0], argv[1..];
      var u := Join(tail) + rest;
      AllStartTail(argv, n);
      SplitJoinIn(u, tail, rest, n - |s| - 1);
      SplitFirst(t, argv, u, rest, n);
    }
  }

  lemma SplitFirst(t: string, argv: seq<CString>, u: string, rest: string, n: int)
    requires argv != [] && t == Join(argv) + rest && u == Join(argv[1..]) + rest && n > 0
    requires Closed(u, n - |argv[0]| - 1) && Strings(u, n - |argv[0]| - 1) == argv[1..]
    ensures Closed(t, n) && Strings(t, n) == argv
  {
    JoinFirst(argv, rest);
    FirstString(t, argv[0], u, n);
    HeadAndTail(argv);
  }

  lemma JoinLast(argv: seq<CString>)
    requires argv != []
    ensures Join(argv) == Join(argv[..|argv| - 1]) + argv[|argv| - 1] + [NUL]
  {
    FrontAndLast(argv);
    JoinAppend(argv[..|argv| - 1], argv[|argv| - 1]);
  }

  lemma FrontAndLast(argv: seq<CString>)
    requires argv != []
    ensures argv == argv[..|argv| - 1] + [argv[|argv| - 1]]
  {
  }

  /** A command line with all its terminators splits into the arguments that it was made of. */
  lemma SplitJoin(argv: seq<CString>)
    ensures Closed(Join(argv), |Join(argv)|) && Strings(Join(argv), |Join(argv)|) == argv
  {
    if argv != [] { JoinLast(argv); }
    assert Join(argv) + [] == Join(argv);
    SplitJoinIn(Join(argv), argv, [], |Join(argv)|);
  }

  /** What `JoinArgs` reports leaves out the last terminator: splitting gives the vector back,
      except that one empty argument at its end is lost. */
  lemma SplitReported(argv: seq<CString>)
    requires argv != []
    ensures var buf, size := Join(argv) + Nuls(2), |Join(argv)| - 1;
            && Closed(buf, size)
            && Strings(buf, size) == if argv[|argv| - 1] == [] then argv[..|argv| - 1] else argv
  {
    var init, size := argv[..|argv| - 1], |Join(argv)| - 1;
    JoinLast(argv);
    if argv[|argv| - 1] == [] {
      if init != [] { JoinLast(init); }
      EmptyEnd(Join(init));
      SplitJoinIn(Join(argv) + Nuls(2), init, [NUL] + Nuls(2), size);
    } else {
      SplitJoinIn(Join(argv) + Nuls(2), argv, Nuls(2), size);
    }
  }

  lemma EmptyEnd(j: string)
    ensures (j + [] + [NUL]) + Nuls(2) == j + ([NUL] + Nuls(2))
  {
  }

  // ----- truncation

  function Cut(args: string, maxLen: nat): string {
    if maxLen != 0 && maxLen < |args| then args[..maxLen - 1] + [NUL] else args
  }

  /** The cut of `glibtop_get_proc_args_s`, with its reallocation; 0 means no limit. */
  method Truncate(args: array<char>, maxLen: nat) returns (r: array<char>)
    ensures r[..] == Cut(args[..], maxLen)
    ensures maxLen == 0 || maxLen >= args.Length ==> r[..] == args[..]
  {
    r := args;
    if maxLen != 0 && maxLen < args.Length {
      r := new char[maxLen](i requires 0 <= i < maxLen reads args => args[i]);
      r[maxLen - 1] := NUL;
    }
  }

  /** The argument that the cut falls into. */
  ghost function CutArg(argv: seq<CString>, maxLen: nat): (k: nat)
    requires 0 < maxLen < |Join(argv)|
    ensures k < |argv| && |Join(argv[..k])| < maxLen <= |Join(argv[..k])| + |argv[k]| + 1
  {
    var n := |argv[0]| + 1;
    if maxLen <= n then 0
    else
      var k := CutArg(argv[1..], maxLen - n);
      assert argv[..k + 1][1..] == argv[1..][..k];
      k + 1
  }

  /** After the cut all arguments but the last are whole, and the last is the start of one. */
  lemma SplitCut(argv: seq<CString>, maxLen: nat)
    requires 0 < maxLen < |Join(argv)|
    ensures var cut, k := Cut(Join(argv), maxLen), CutArg(argv, maxLen);
            && |cut| == maxLen && Closed(cut, maxLen)
            && var r := Strings(cut, maxLen);
            && |r| == k + 1 && r[..k] == argv[..k] && r[k] <= argv[k]
            && |Join(r)| == maxLen
  {
    var k := CutArg(argv, maxLen);
    var p := maxLen - 1 - |Join(argv[..k])|;
    var last := argv[k][..p];
    JoinStarts(argv, k, p);
    JoinAppend(argv[..k], last);
    assert Join(argv[..k] + [last]) == Cut(Join(argv), maxLen);
    SplitJoin(argv[..k] + [last]);
  }

  /** A cut that is not reached, and no limit, leave all arguments. */
  lemma SplitUncut(argv: seq<CString>, maxLen: nat)
    requires maxLen == 0 || maxLen >= |Join(argv)|
    ensures Cut(Join(argv), maxLen) == Join(argv)
    ensures Closed(Join(argv), |Join(argv)|) && Strings(Cut(Join(argv), maxLen), |Join(argv)|) == argv
  {
    SplitJoin(argv);
  }

  lemma {:induction false} JoinStarts(argv: seq<CString>, k: nat, p: nat)
    requires k < |argv| && p <= |argv[k]|
    ensures Join(argv[..k]) + argv[k][..p] <= Join(argv)
  {
    if k > 0 {
      assert argv[..k][1..] == argv[1..][..k - 1];
      JoinStarts(argv[1..], k - 1, p);
    }
  }
}
