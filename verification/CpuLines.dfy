/** The printed `stat` file, and what the opener and the reader make of it. */
module CpuLines {
  import opened Bytes
  import opened Decimal
  import opened ProcText
  import opened ProcFile
  import opened Printed
  import opened CpuStat
  import opened Streams

  /** What stands behind a label: four counters, whatever else the kernel counts, a newline. */
  datatype Line = Line(counters: Counters, extra: seq<byte>)

  /** The line of one CPU.  CPUs that are off line have none, so the labels need not count up. */
  datatype CpuLine = CpuLine(cpu: nat, line: Line)

  ghost predicate Printable(l: Line) { EndsNumber(l.extra) && '\n' !in l.extra }

  ghost predicate AllPrintable(ls: seq<CpuLine>) { forall l :: l in ls ==> Printable(l.line) }

  function Number1(x: u64, t: seq<byte>): seq<byte> { [' '] + (DecInt(x) + t) }

  function Numbers(c: Counters, t: seq<byte>): seq<byte> {
    Number1(c.user, Number1(c.nice, Number1(c.sys, Number1(c.idle, t))))
  }

  /** The line from behind its counters on. */
  function Behind(l: Line, t: seq<byte>): seq<byte> { l.extra + (['\n'] + t) }

  function RestOfLine(l: Line, t: seq<byte>): seq<byte> { Numbers(l.counters, Behind(l, t)) }

  const ALL: seq<byte> := "cpu"

  function Label(i: nat): seq<byte> { ALL + Dec(i) }

  function LineText(l: CpuLine): seq<byte> { Label(l.cpu) + RestOfLine(l.line, []) }

  /** The lines of the CPUs, and the rest of the file. */
  function Lines(ls: seq<CpuLine>, more: seq<byte>): seq<byte> {
    if ls == [] then more else LineText(ls[0]) + Lines(ls[1..], more)
  }

  function FirstText(whole: Line): seq<byte> { ALL + ([' '] + RestOfLine(whole, [])) }

  function StatFile(whole: Line, ls: seq<CpuLine>, more: seq<byte>): seq<byte> {
    FirstText(whole) + Lines(ls, more)
  }

  lemma NumberAppend(x: u64, a: seq<byte>, b: seq<byte>)
    ensures Number1(x, a + b) == Number1(x, a) + b
  {
    Assoc(DecInt(x), a, b);
    Assoc([' '], DecInt(x) + a, b);
  }

  lemma NumbersAppend(c: Counters, a: seq<byte>, b: seq<byte>)
    ensures Numbers(c, a + b) == Numbers(c, a) + b
  {
    NumberAppend(c.idle, a, b);
    NumberAppend(c.sys, Number1(c.idle, a), b);
    NumberAppend(c.nice, Number1(c.sys, Number1(c.idle, a)), b);
    NumberAppend(c.user, Number1(c.nice, Number1(c.sys, Number1(c.idle, a))), b);
  }

  lemma RestOfLineAppend(l: Line, t: seq<byte>)
    ensures RestOfLine(l, t) == RestOfLine(l, []) + t
  {
    assert Behind(l, t) == Behind(l, []) + t;
    NumbersAppend(l.counters, Behind(l, []), t);
  }

  lemma LineForm(l: CpuLine, t: seq<byte>)
    ensures LineText(l) + t == Label(l.cpu) + RestOfLine(l.line, t)
  {
    RestOfLineAppend(l.line, t);
    Assoc(Label(l.cpu), RestOfLine(l.line, []), t);
  }

  lemma FirstForm(whole: Line, t: seq<byte>)
    ensures FirstText(whole) + t == ALL + ([' '] + RestOfLine(whole, t))
  {
    RestOfLineAppend(whole, t);
    Assoc([' '], RestOfLine(whole, []), t);
    Assoc(ALL, [' '] + RestOfLine(whole, []), t);
  }

  // ----- going over a line

  lemma {:induction false} SkipLineOver(w: seq<byte>, t: seq<byte>)
    requires '\n' !in w
    ensures SkipLine(w + t) == SkipLine(t)
  {
    if w == [] {
      assert w + t == t;
    } else {
      assert w[0] in w && (w + t)[1..] == w[1..] + t;
      SkipLineOver(w[1..], t);
    }
  }

  lemma SkipLineOverNumber(x: u64, t: seq<byte>)
    ensures SkipLine(Number1(x, t)) == SkipLine(t)
  {
    SkipLineOver([' '], DecInt(x) + t);
    SkipLineOver(DecInt(x), t);
  }

  lemma SkipRestOfLine(l: Line, t: seq<byte>)
    requires Printable(l)
    ensures SkipLine(RestOfLine(l, t)) == t
    ensures SkipLine(Behind(l, t)) == t
  {
    var e := Behind(l, t);
    var c := l.counters;
    SkipLineOverNumber(c.user, Number1(c.nice, Number1(c.sys, Number1(c.idle, e))));
    SkipLineOverNumber(c.nice, Number1(c.sys, Number1(c.idle, e)));
    SkipLineOverNumber(c.sys, Number1(c.idle, e));
    SkipLineOverNumber(c.idle, e);
    SkipLineOver(l.extra, ['\n'] + t);
    assert (['\n'] + t)[1..] == t;
  }

  lemma ReadNumber(s: seq<byte>, x: u64, t: seq<byte>)
    requires SkipSpaces(s) == SkipSpaces(Number1(x, t)) && EndsNumber(t)
    ensures Unsigned(Scan(s)) == x && Scan(s).rest == t
  {
    PrintedStarts(x, t);
    SkipOneSpace(' ', DecInt(x) + t);
    ScanPrinted(s, x, t);
  }

  lemma ReadNumbers(s: seq<byte>, c: Counters, t: seq<byte>)
    requires SkipSpaces(s) == SkipSpaces(Numbers(c, t)) && EndsNumber(t)
    ensures CountersIn(s) == (c, t)
  {
    ReadNumber(s, c.user, Number1(c.nice, Number1(c.sys, Number1(c.idle, t))));
    ReadNumber(Number1(c.nice, Number1(c.sys, Number1(c.idle, t))), c.nice, Number1(c.sys, Number1(c.idle, t)));
    ReadNumber(Number1(c.sys, Number1(c.idle, t)), c.sys, Number1(c.idle, t));
    ReadNumber(Number1(c.idle, t), c.idle, t);
  }

  /** Behind a label, the counters of its line. */
  lemma ReadLine(word: seq<byte>, gap: seq<byte>, l: Line, t: seq<byte>)
    requires word != [] && forall c :: c in word ==> !IsSpace(c)
    requires gap in {[], [' ']} && Printable(l)
    ensures CountersIn(SkipToken(word + (gap + RestOfLine(l, t)))) == (l.counters, Behind(l, t))
  {
    var r := RestOfLine(l, t);
    var s := word + (gap + r);
    assert s[0] == word[0] && word[0] in word;
    SkipPrintedWord(word, gap + r);
    if gap == [' '] {
      assert (gap + r)[1..] == r;
    } else {
      assert gap + r == r;
    }
    SpacesOnce(r);
    ReadNumbers(SkipToken(s), l.counters, Behind(l, t));
  }

  lemma LabelIsWord(i: nat)
    ensures Label(i) != [] && '\n' !in Label(i) && forall c :: c in Label(i) ==> !IsSpace(c)
  {
    assert forall k :: 3 <= k < |Label(i)| ==> Label(i)[k] in Dec(i);
  }

  // ----- which label passes for which number

  /** `i` is `c` without some of its last digits. */
  predicate Shortens(i: nat, c: nat) { i == c || (c >= 10 && Shortens(i, c / 10)) }

  lemma {:induction false} PrefixOfNumeral(i: nat, c: nat)
    ensures StartsWith(Dec(c), Dec(i)) <==> Shortens(i, c)
  {
    if Dec(i) == Dec(c) {
      DecInjective(i, c);
    } else if c >= 10 {
      PrefixOfNumeral(i, c / 10);
      LongerNumeral(Dec(c / 10), Digit(c % 10), Dec(i));
    }
  }

  lemma LongerNumeral(s: seq<byte>, d: byte, key: seq<byte>)
    requires key != s + [d]
    ensures StartsWith(s + [d], key) <==> StartsWith(s, key)
  {
    if |key| <= |s| {
      assert (s + [d])[..|key|] == s[..|key|];
    }
  }

  /** The loops take the line for CPU `i`. */
  predicate Passes(l: CpuLine, i: nat) { StartsWith(Label(l.cpu), CpuPrefix(i)) }

  lemma OwnLabelPasses(l: CpuLine)
    ensures Passes(l, l.cpu)
  {
  }

  lemma BehindPrefix(p: seq<byte>, s: seq<byte>, key: seq<byte>)
    ensures StartsWith(p + s, p + key) <==> StartsWith(s, key)
  {
    if |key| <= |s| {
      assert (p + s)[..|p + key|] == p + s[..|key|];
      assert (p + key)[|p|..] == key && (p + s[..|key|])[|p|..] == s[..|key|];
    }
  }

  /** A line passes for CPU `i`, of at most six digits, if and only if its label starts with the
      digits of `i`: CPU 10 passes for CPU 1. */
  lemma PassesIff(l: CpuLine, i: nat)
    requires |Dec(i)| <= 6
    ensures Passes(l, i) <==> Shortens(i, l.cpu)
  {
    assert CpuPrefix(i) == Label(i);
    BehindPrefix(ALL, Dec(l.cpu), Dec(i));
    PrefixOfNumeral(i, l.cpu);
  }

  lemma PrefixIsWord(i: nat)
    ensures ' ' !in CpuPrefix(i)
  {
    LabelIsWord(i);
    assert forall c :: c in CpuPrefix(i) ==> c in Label(i);
  }

  lemma WordEnds(name: seq<byte>, r: seq<byte>, key: seq<byte>)
    requires r != [] && r[0] == ' ' && ' ' !in key
    ensures StartsWith(name + r, key) <==> StartsWith(name, key)
  {
    if |key| <= |name| {
      assert (name + r)[..|key|] == name[..|key|];
    } else if |key| <= |name + r| {
      assert (name + r)[..|key|][|name|] == ' ';
    }
  }

  /** What follows the label makes no difference. */
  lemma LinePasses(l: CpuLine, i: nat, t: seq<byte>)
    ensures StartsWith(LineText(l) + t, CpuPrefix(i)) <==> Passes(l, i)
  {
    LineForm(l, t);
    PrefixIsWord(i);
    WordEnds(Label(l.cpu), RestOfLine(l.line, t), CpuPrefix(i));
  }

  /** How many lines pass in a row, the first for CPU `i`. */
  function Run(ls: seq<CpuLine>, i: nat): (n: nat)
    ensures n <= |ls|
    ensures forall k :: 0 <= k < n ==> Passes(ls[k], i + k)
    ensures n < |ls| ==> !Passes(ls[n], i + n)
  {
    if ls == [] || !Passes(ls[0], i) then 0 else 1 + Run(ls[1..], i + 1)
  }

  /** The first `n` lines belong to CPU `i` and those behind it, in turn. */
  ghost predicate InTurn(ls: seq<CpuLine>, i: nat, n: nat)
    requires n <= |ls|
  {
    forall k :: 0 <= k < n ==> ls[k].cpu == i + k
  }

  /** How many lines carry the number that is next in turn. */
  function Named(ls: seq<CpuLine>, i: nat): (n: nat)
    ensures n <= |ls| && InTurn(ls, i, n)
    ensures n < |ls| ==> ls[n].cpu != i + n
  {
    if ls == [] || ls[0].cpu != i then 0 else 1 + Named(ls[1..], i + 1)
  }

  lemma {:induction false} NamedPass(ls: seq<CpuLine>, i: nat)
    ensures Named(ls, i) <= Run(ls, i)
  {
    if ls != [] && ls[0].cpu == i {
      OwnLabelPasses(ls[0]);
      NamedPass(ls[1..], i + 1);
    }
  }

  lemma NamedIsRunIff(ls: seq<CpuLine>, i: nat, n: nat)
    requires n == Named(ls, i)
    ensures n == Run(ls, i) <==> n == |ls| || !Passes(ls[n], i + n)
  {
    NamedPass(ls, i);
  }

  lemma InTurnUpTo(ls: seq<CpuLine>, i: nat, n: nat, run: nat)
    requires n <= run <= |ls| && InTurn(ls, i, n)
    requires n < |ls| ==> ls[n].cpu != i + n
    ensures InTurn(ls, i, run) <==> n == run
  {
  }

  /** Every line is taken for the CPU that it belongs to, if and only if the first label that is not
      next in turn does not pass for the one that is. */
  lemma OwnRowsIff(ls: seq<CpuLine>, i: nat)
    ensures var n := Named(ls, i);
            InTurn(ls, i, Run(ls, i)) <==> n == |ls| || !Passes(ls[n], i + n)
  {
    NamedPass(ls, i);
    NamedIsRunIff(ls, i, Named(ls, i));
    InTurnUpTo(ls, i, Named(ls, i), Run(ls, i));
  }

  // ----- the two scans

  lemma CountStep(l: CpuLine, i: nat, t: seq<byte>)
    requires Printable(l.line)
    ensures CountCpus(LineText(l) + t, i) == if Passes(l, i) then CountCpus(t, i + 1) else i
  {
    LineForm(l, t);
    LinePasses(l, i, t);
    LabelIsWord(l.cpu);
    SkipLineOver(Label(l.cpu), RestOfLine(l.line, t));
    SkipRestOfLine(l.line, t);
  }

  /** What the opener counts from CPU `i` on: the lines that pass in a row, and what it finds behind
      them when all do. */
  ghost function Counted(ls: seq<CpuLine>, i: nat, more: seq<byte>): nat {
    if Run(ls, i) == |ls| then CountCpus(more, i + |ls|) else i + Run(ls, i)
  }

  lemma CountedStep(ls: seq<CpuLine>, i: nat, more: seq<byte>)
    requires ls != [] && Passes(ls[0], i)
    ensures Counted(ls, i, more) == Counted(ls[1..], i + 1, more)
  {
    assert i + |ls| == i + 1 + |ls[1..]|;
  }

  lemma {:induction false} LinesCounted(ls: seq<CpuLine>, i: nat, more: seq<byte>)
    requires AllPrintable(ls)
    ensures CountCpus(Lines(ls, more), i) == Counted(ls, i, more)
  {
    if ls != [] {
      CountStep(ls[0], i, Lines(ls[1..], more));
      if Passes(ls[0], i) {
        LinesCounted(ls[1..], i + 1, more);
        CountedStep(ls, i, more);
      }
    }
  }

  function CountersOf(ls: seq<CpuLine>): (cs: seq<Counters>)
    ensures |cs| == |ls| && forall k :: 0 <= k < |ls| ==> cs[k] == ls[k].line.counters
  {
    if ls == [] then [] else [ls[0].line.counters] + CountersOf(ls[1..])
  }

  /** The reader's rows from the start of a line on. */
  function RowsAt(line: seq<byte>, i: nat, last: int): seq<Counters> {
    if i > last || !StartsWith(line, CpuPrefix(i)) then []
    else
      var (c, rest) := CountersIn(SkipToken(line));
      [c] + Rows(rest, i + 1, last)
  }

  lemma RowsFromLine(s: seq<byte>, i: nat, last: int)
    ensures Rows(s, i, last) == RowsAt(SkipLine(s), i, last)
  {
  }

  lemma RowsStep(l: CpuLine, i: nat, t: seq<byte>, last: int)
    requires Printable(l.line) && i <= last
    ensures RowsAt(LineText(l) + t, i, last)
         == if Passes(l, i) then [l.line.counters] + RowsAt(t, i + 1, last) else []
  {
    LinePasses(l, i, t);
    if Passes(l, i) {
      var r := RestOfLine(l.line, t);
      LineForm(l, t);
      LabelIsWord(l.cpu);
      assert [] + r == r;
      ReadLine(Label(l.cpu), [], l.line, t);
      SkipRestOfLine(l.line, t);
      RowsFromLine(Behind(l.line, t), i + 1, last);
    }
  }

  /** Of the lines that pass in a row, those that are looked for. */
  function Wanted(ls: seq<CpuLine>, i: nat, last: int): (n: nat)
    ensures n <= |ls|
  {
    if last < i then 0 else Min(Run(ls, i), last + 1 - i)
  }

  lemma WantedStep(ls: seq<CpuLine>, i: nat, last: int)
    requires ls != [] && i <= last && Passes(ls[0], i)
    ensures Wanted(ls, i, last) == 1 + Wanted(ls[1..], i + 1, last)
  {
  }

  ghost function RowsBehind(all: bool, more: seq<byte>, i: nat, last: int): seq<Counters> {
    if all then RowsAt(more, i, last) else []
  }

  /** The rows that the reader finds in the same text: those of the lines that pass in a row, as far as
      they are looked for, and what it finds behind them when these are all. */
  ghost function Found(ls: seq<CpuLine>, i: nat, more: seq<byte>, last: int): seq<Counters> {
    var n := Wanted(ls, i, last);
    CountersOf(ls[..n]) + RowsBehind(n == |ls|, more, i + |ls|, last)
  }

  lemma CountersOfTake(ls: seq<CpuLine>, n: nat)
    requires 0 < n <= |ls|
    ensures CountersOf(ls[..n]) == [ls[0].line.counters] + CountersOf(ls[1..][..n - 1])
  {
    assert ls[..n][1..] == ls[1..][..n - 1];
  }

  lemma FoundStep(ls: seq<CpuLine>, i: nat, more: seq<byte>, last: int)
    requires ls != [] && i <= last && Passes(ls[0], i)
    ensures Found(ls, i, more, last) == [ls[0].line.counters] + Found(ls[1..], i + 1, more, last)
  {
    var n := Wanted(ls, i, last);
    WantedStep(ls, i, last);
    CountersOfTake(ls, n);
    assert i + |ls| == i + 1 + |ls[1..]|;
    ConsThen(ls[0].line.counters, CountersOf(ls[1..][..n - 1]), RowsBehind(n == |ls|, more, i + |ls|, last));
  }

  lemma ConsThen(c: Counters, a: seq<Counters>, b: seq<Counters>)
    ensures ([c] + a) + b == [c] + (a + b)
  {
  }

  lemma {:induction false} RowsRecovered(ls: seq<CpuLine>, i: nat, more: seq<byte>, last: int)
    requires AllPrintable(ls)
    ensures RowsAt(Lines(ls, more), i, last) == Found(ls, i, more, last)
  {
    if ls == [] {
      assert [] + RowsAt(more, i, last) == RowsAt(more, i, last);
    } else if i <= last {
      RowsStep(ls[0], i, Lines(ls[1..], more), last);
      if Passes(ls[0], i) {
        RowsRecovered(ls[1..], i + 1, more, last);
        FoundStep(ls, i, more, last);
      }
    }
  }

  lemma FirstLine(whole: Line, ls: seq<CpuLine>, more: seq<byte>)
    requires Printable(whole)
    ensures var text := StatFile(whole, ls, more);
            var t := Lines(ls, more);
            && SkipLine(text) == t
            && CountersIn(SkipToken(text)) == (whole.counters, Behind(whole, t))
            && SkipLine(Behind(whole, t)) == t
  {
    var t := Lines(ls, more);
    FirstForm(whole, t);
    SkipLineOver(ALL, [' '] + RestOfLine(whole, t));
    SkipLineOver([' '], RestOfLine(whole, t));
    SkipRestOfLine(whole, t);
    ReadLine(ALL, [' '], whole, t);
  }

  // ----- a text without a further line

  lemma LastLineFrom(s: seq<byte>, k: nat)
    requires SkipLine(s) == [] && k <= |s|
    ensures SkipLine(s[k..]) == []
  {
    if k > 0 {
      LastLineFrom(s[1..], k - 1);
      assert s[k..] == s[1..][k - 1..];
    } else {
      assert s[0..] == s;
    }
  }

  lemma {:induction false} LastLineSpaces(s: seq<byte>)
    requires SkipLine(s) == []
    ensures SkipLine(SkipSpaces(s)) == []
  {
    if s != [] && IsSpace(s[0]) {
      LastLineFrom(s, 1);
      LastLineSpaces(s[1..]);
    }
  }

  lemma {:induction false} LastLineWord(s: seq<byte>)
    requires SkipLine(s) == []
    ensures SkipLine(SkipWord(s)) == []
  {
    if s != [] && !IsSpace(s[0]) {
      LastLineWord(s[1..]);
    }
  }

  lemma {:induction false} LastLineDigits(s: seq<byte>, base: nat, v: nat)
    requires SkipLine(s) == [] && base in {8, 10, 16}
    ensures SkipLine(Digits(s, base, v).1) == []
  {
    if s != [] && IsDigitOf(s[0], base) {
      LastLineDigits(s[1..], base, v * base + DigitValue(s[0]));
    }
  }

  lemma LastLineScan(s: seq<byte>)
    requires SkipLine(s) == []
    ensures SkipLine(Scan(s).rest) == []
  {
    var t := SkipSpaces(s);
    LastLineSpaces(s);
    var u := if t != [] && (t[0] == '-' || t[0] == '+') then t[1..] else t;
    if t != [] { LastLineFrom(t, 1); }
    var (base, skip) := BaseOf(u);
    LastLineFrom(u, skip);
    LastLineDigits(u[skip..], base, 0);
  }

  lemma LastLineCounters(s: seq<byte>)
    requires SkipLine(s) == []
    ensures SkipLine(CountersIn(s).1) == []
  {
    LastLineScan(s);
    LastLineScan(Scan(s).rest);
    LastLineScan(Scan(Scan(s).rest).rest);
    LastLineScan(Scan(Scan(Scan(s).rest).rest).rest);
  }

  function Bit(b: bool): nat { if b then 1 else 0 }

  /** The last line counts once and makes one row, when it passes. */
  lemma LastLine(s: seq<byte>, i: nat, last: int)
    requires SkipLine(s) == []
    ensures CountCpus(s, i) == i + Bit(StartsWith(s, CpuPrefix(i)))
    ensures |RowsAt(s, i, last)| == Bit(i <= last && StartsWith(s, CpuPrefix(i)))
  {
    LastLineSpaces(s);
    LastLineWord(SkipSpaces(s));
    LastLineSpaces(SkipWord(SkipSpaces(s)));
    LastLineCounters(SkipToken(s));
    NoCpuInNothing(i + 1, last);
    RowsFromLine(CountersIn(SkipToken(s)).1, i + 1, last);
  }

  lemma NoCpuInNothing(i: nat, last: int)
    ensures CountCpus([], i) == i && RowsAt([], i, last) == []
  {
  }

  // ----- a buffer of any size

  lemma {:induction false} LinesAppend(ls: seq<CpuLine>, t: seq<byte>)
    ensures Lines(ls, t) == Lines(ls, []) + t
  {
    if ls == [] {
      assert [] + t == t;
    } else {
      LinesAppend(ls[1..], t);
      Assoc(LineText(ls[0]), Lines(ls[1..], []), t);
    }
  }

  lemma FileAppend(whole: Line, ls: seq<CpuLine>, t: seq<byte>)
    ensures StatFile(whole, ls, t) == StatFile(whole, ls, []) + t
  {
    LinesAppend(ls, t);
    Assoc(FirstText(whole), Lines(ls, []), t);
  }

  lemma {:induction false} LinesSplit(ls: seq<CpuLine>, m: nat, more: seq<byte>)
    requires m <= |ls|
    ensures Lines(ls, more) == Lines(ls[..m], Lines(ls[m..], more))
    decreases m
  {
    if m == 0 {
      assert ls[0..] == ls && ls[..0] == [];
    } else {
      LinesSplit(ls[1..], m - 1, more);
      assert ls[..m][1..] == ls[1..][..m - 1] && ls[1..][m - 1..] == ls[m..];
      assert ls[..m][0] == ls[0];
    }
  }

  /** `m` of the lines end inside a buffer of `size` bytes, one of which is for the NUL. */
  ghost predicate Inside(whole: Line, ls: seq<CpuLine>, size: nat, m: nat) {
    && m <= |ls| && |StatFile(whole, ls[..m], [])| < size
    && (m < |ls| ==> size <= |StatFile(whole, ls[..m + 1], [])|)
  }

  /** What is left of the file behind those lines. */
  ghost function Left(whole: Line, ls: seq<CpuLine>, more: seq<byte>, size: nat, m: nat): seq<byte>
    requires Inside(whole, ls, size, m)
  {
    var tail := Lines(ls[m..], more);
    tail[..Min(|tail|, size - 1 - |StatFile(whole, ls[..m], [])|)]
  }

  lemma TakeOfConcat(a: seq<byte>, b: seq<byte>, n: nat)
    requires |a| <= n
    ensures (a + b)[..Min(|a + b|, n)] == a + b[..Min(|b|, n - |a|)]
  {
  }

  lemma FileCut(whole: Line, ls: seq<CpuLine>, more: seq<byte>, size: nat, m: nat)
    requires Inside(whole, ls, size, m) && NUL !in StatFile(whole, ls, more)
    ensures Shown(StatFile(whole, ls, more), size) == StatFile(whole, ls[..m], Left(whole, ls, more, size, m))
  {
    var head, tail := StatFile(whole, ls[..m], []), Lines(ls[m..], more);
    LinesSplit(ls, m, more);
    FileAppend(whole, ls[..m], tail);
    assert StatFile(whole, ls, more) == head + tail;
    FileAppend(whole, ls[..m], Left(whole, ls, more, size, m));
    TakeOfConcat(head, tail, size - 1);
    ShownPart(head + tail, size);
  }

  lemma ShownPart(file: seq<byte>, size: nat)
    requires NUL !in file && size > 0
    ensures Shown(file, size) == file[..Min(|file|, size - 1)]
  {
    assert forall c :: c in file[..Min(|file|, size - 1)] ==> c in file;
  }

  lemma {:induction false} NoLineBehind(s: seq<byte>, k: nat)
    requires SkipLine(s) == [] && k <= |s|
    ensures SkipLine(s[..k]) == []
  {
    if k > 0 && s[0] != '\n' {
      NoLineBehind(s[1..], k - 1);
      assert s[..k][1..] == s[1..][..k - 1];
    }
  }

  lemma NextLineLength(whole: Line, ls: seq<CpuLine>, m: nat)
    requires m < |ls|
    ensures |StatFile(whole, ls[..m + 1], [])| == |StatFile(whole, ls[..m], [])| + |LineText(ls[m])|
  {
    var one := [ls[m]];
    LinesSplit(ls[..m + 1], m, []);
    assert ls[..m + 1][..m] == ls[..m] && ls[..m + 1][m..] == one && one[1..] == [];
    assert Lines(one, []) == LineText(ls[m]) + [];
    FileAppend(whole, ls[..m], Lines(one, []));
  }

  lemma NoLineInside(l: CpuLine, k: nat)
    requires Printable(l.line) && k <= |LineText(l)|
    ensures SkipLine(LineText(l)[..k]) == []
  {
    LabelIsWord(l.cpu);
    SkipLineOver(Label(l.cpu), RestOfLine(l.line, []));
    SkipRestOfLine(l.line, []);
    NoLineBehind(LineText(l), k);
  }

  /** The line that does not end inside the buffer is the last there. */
  lemma CutLine(whole: Line, ls: seq<CpuLine>, more: seq<byte>, size: nat, m: nat)
    requires m < |ls| && Printable(ls[m].line) && Inside(whole, ls, size, m)
    ensures SkipLine(Left(whole, ls, more, size, m)) == []
  {
    var line, t := LineText(ls[m]), Lines(ls[m + 1..], more);
    assert ls[m..][0] == ls[m] && ls[m..][1..] == ls[m + 1..];
    var k := size - 1 - |StatFile(whole, ls[..m], [])|;
    NextLineLength(whole, ls, m);
    assert (line + t)[..k] == line[..k];
    NoLineInside(ls[m], k);
  }

  lemma TextCut(whole: Line, ls: seq<CpuLine>, more: seq<byte>, size: nat, m: nat)
    requires Printable(whole) && NUL !in StatFile(whole, ls, more) && Inside(whole, ls, size, m)
    ensures var text := Shown(StatFile(whole, ls, more), size);
            var lines := Lines(ls[..m], Left(whole, ls, more, size, m));
            && SkipLine(text) == lines && CountersIn(SkipToken(text)).0 == whole.counters
            && SkipLine(CountersIn(SkipToken(text)).1) == lines
  {
    FileCut(whole, ls, more, size, m);
    FirstLine(whole, ls[..m], Left(whole, ls, more, size, m));
  }

  /** For every printed file, whatever its labels, and every size of the buffer: the counters of the
      whole machine are recovered; the opener counts, and the reader finds, the lines that pass in a
      row; when these are all that end inside the buffer, both go on with what is left. */
  lemma StatFileCut(whole: Line, ls: seq<CpuLine>, more: seq<byte>, size: nat, m: nat, last: int)
    requires Printable(whole) && AllPrintable(ls) && NUL !in StatFile(whole, ls, more)
    requires Inside(whole, ls, size, m)
    ensures var text := Shown(StatFile(whole, ls, more), size);
            var left := Left(whole, ls, more, size, m);
            && CountersIn(SkipToken(text)).0 == whole.counters
            && CountCpus(SkipLine(text), 0) == Counted(ls[..m], 0, left)
            && Rows(CountersIn(SkipToken(text)).1, 0, last) == Found(ls[..m], 0, left, last)
  {
    TextCut(whole, ls, more, size, m);
    LinesCounted(ls[..m], 0, Left(whole, ls, more, size, m));
    RowsRecovered(ls[..m], 0, Left(whole, ls, more, size, m), last);
    RowsFromLine(CountersIn(SkipToken(Shown(StatFile(whole, ls, more), size))).1, 0, last);
  }

  lemma LastCounted(ls: seq<CpuLine>, i: nat, left: seq<byte>, run: nat)
    requires SkipLine(left) == [] && run == Run(ls, i)
    ensures Counted(ls, i, left) == i + run + Bit(run == |ls| && StartsWith(left, CpuPrefix(i + run)))
  {
    LastLine(left, i + run, i);
  }

  lemma LastFound(ls: seq<CpuLine>, i: nat, left: seq<byte>, last: int, run: nat)
    requires SkipLine(left) == [] && last + 1 >= i && run == Run(ls, i)
    ensures |Found(ls, i, left, last)|
         == Min(last + 1 - i, run + Bit(run == |ls| && StartsWith(left, CpuPrefix(i + run))))
  {
    LastLine(left, i + run, last);
  }

  lemma LastLines(ls: seq<CpuLine>, i: nat, left: seq<byte>, last: int, count: nat)
    requires SkipLine(left) == [] && last + 1 >= i && count == Counted(ls, i, left)
    ensures var run := Run(ls, i); count == i + run + Bit(run == |ls| && StartsWith(left, CpuPrefix(i + run)))
    ensures |Found(ls, i, left, last)| == Min(last + 1, count) - i
  {
    LastCounted(ls, i, left, Run(ls, i));
    LastFound(ls, i, left, last, Run(ls, i));
  }

  /** When the buffer cuts line `m`, what is left of it is counted, and makes a row, if and only if the
      lines before pass and its remains do; nothing is found behind it. */
  lemma CutLineCounted(whole: Line, ls: seq<CpuLine>, more: seq<byte>, size: nat, m: nat, last: int)
    requires Printable(whole) && AllPrintable(ls) && NUL !in StatFile(whole, ls, more)
    requires Inside(whole, ls, size, m) && m < |ls| && last >= -1
    ensures var text := Shown(StatFile(whole, ls, more), size);
            var run, left := Run(ls[..m], 0), Left(whole, ls, more, size, m);
            && CountCpus(SkipLine(text), 0) == run + Bit(run == m && StartsWith(left, CpuPrefix(m)))
            && |Rows(CountersIn(SkipToken(text)).1, 0, last)| == Min(last + 1, CountCpus(SkipLine(text), 0))
  {
    StatFileCut(whole, ls, more, size, m, last);
    CutLine(whole, ls, more, size, m);
    var left := Left(whole, ls, more, size, m);
    LastLines(ls[..m], 0, left, last, Counted(ls[..m], 0, left));
  }

  /** All CPU lines of a file that the buffer cuts are counted, if and only if it cuts the last one
      only, behind the text that it passes by, and all before pass. */
  lemma AllCountedIff(whole: Line, ls: seq<CpuLine>, more: seq<byte>, size: nat, m: nat)
    requires Printable(whole) && AllPrintable(ls) && NUL !in StatFile(whole, ls, more)
    requires Inside(whole, ls, size, m) && m < |ls|
    ensures CountCpus(SkipLine(Shown(StatFile(whole, ls, more), size)), 0) == |ls|
       <==> m + 1 == |ls| && Run(ls[..m], 0) == m && StartsWith(Left(whole, ls, more, size, m), CpuPrefix(m))
  {
    CutLineCounted(whole, ls, more, size, m, -1);
  }

  lemma PrefixStarts(s: seq<byte>, k: nat, key: seq<byte>)
    requires k <= |s| && StartsWith(s[..k], key)
    ensures StartsWith(s, key)
  {
    assert s[..k][..|key|] == s[..|key|];
  }

  lemma TextWhole(whole: Line, ls: seq<CpuLine>, more: seq<byte>, size: nat, n: nat) returns (left: seq<byte>)
    requires Printable(whole) && NUL !in StatFile(whole, ls, more) && |StatFile(whole, ls, [])| < size
    requires !StartsWith(more, CpuPrefix(n))
    ensures var text := Shown(StatFile(whole, ls, more), size);
            && SkipLine(text) == Lines(ls, left) && CountersIn(SkipToken(text)).0 == whole.counters
            && SkipLine(CountersIn(SkipToken(text)).1) == Lines(ls, left)
    ensures !StartsWith(left, CpuPrefix(n))
  {
    assert ls[..|ls|] == ls && ls[|ls|..] == [];
    TextCut(whole, ls, more, size, |ls|);
    left := Left(whole, ls, more, size, |ls|);
    if StartsWith(left, CpuPrefix(n)) { PrefixStarts(more, |left|, CpuPrefix(n)); }
  }

  lemma FoundWhole(ls: seq<CpuLine>, i: nat, left: seq<byte>, last: int, n: nat)
    requires Run(ls, i) == |ls| && !StartsWith(left, CpuPrefix(i + |ls|))
    requires n <= |ls| && last + 1 == i + n
    ensures Counted(ls, i, left) == i + |ls| && Found(ls, i, left, last) == CountersOf(ls[..n])
  {
  }

  lemma LinesRecovered(rest: seq<byte>, ls: seq<CpuLine>, i: nat, end: nat, left: seq<byte>, last: int, n: nat)
    requires SkipLine(rest) == Lines(ls, left)
    requires AllPrintable(ls) && Run(ls, i) == |ls| && end == i + |ls| && !StartsWith(left, CpuPrefix(end))
    requires n <= |ls| && last + 1 == i + n
    ensures CountCpus(SkipLine(rest), i) == end && Rows(rest, i, last) == CountersOf(ls[..n])
  {
    LinesCounted(ls, i, left);
    RowsRecovered(ls, i, left, last);
    RowsFromLine(rest, i, last);
    FoundWhole(ls, i, left, last, n);
  }

  /** When all CPU lines are inside the buffer and pass, whatever comes behind them: the opener counts
      them, and a reader that monitors the `ncpu + 1` CPUs that the opener settles on, at most 1024,
      recovers the counters of the whole machine and of each line. */
  lemma StatFileRecovered(whole: Line, ls: seq<CpuLine>, more: seq<byte>, size: nat, ncpu: int)
    requires Printable(whole) && AllPrintable(ls) && Run(ls, 0) == |ls|
    requires !StartsWith(more, CpuPrefix(|ls|))
    requires NUL !in StatFile(whole, ls, more) && |StatFile(whole, ls, [])| < size
    requires ncpu == if |ls| < NCPU then |ls| - 1 else NCPU - 1
    ensures var text := Shown(StatFile(whole, ls, more), size);
            && CountCpus(SkipLine(text), 0) == |ls|
            && CountersIn(SkipToken(text)).0 == whole.counters
            && Rows(CountersIn(SkipToken(text)).1, 0, ncpu) == CountersOf(ls[..ncpu + 1])
  {
    var left := TextWhole(whole, ls, more, size, |ls|);
    var text := Shown(StatFile(whole, ls, more), size);
    LinesRecovered(CountersIn(SkipToken(text)).1, ls, 0, |ls|, left, ncpu, ncpu + 1);
  }

  lemma TenPassesForOne(l: CpuLine, i: nat)
    requires l.cpu == 10 && i == 1
    ensures Passes(l, i)
  {
    assert Shortens(1, 10);
    PassesIff(l, i);
  }

  lemma ZeroTenRun(ls: seq<CpuLine>, i: nat)
    requires |ls| == 2 && ls[0].cpu == i == 0 && ls[1].cpu == 10
    ensures Run(ls, i) == |ls|
  {
    OwnLabelPasses(ls[0]);
    TenPassesForOne(ls[1], i + 1);
  }

  /** With the CPUs 1 to 9 off line, the counters of CPU 10 are taken for those of CPU 1. */
  lemma TenTakenForOne(whole: Line, ls: seq<CpuLine>, size: nat, last: int)
    requires |ls| == last + 1 == 2 && ls[0].cpu == 0 && ls[1].cpu == 10
    requires Printable(whole) && AllPrintable(ls)
    requires NUL !in StatFile(whole, ls, []) && |StatFile(whole, ls, [])| < size
    ensures var text := Shown(StatFile(whole, ls, []), size);
            && CountCpus(SkipLine(text), 0) == |ls|
            && Rows(CountersIn(SkipToken(text)).1, 0, last) == CountersOf(ls)
  {
    ZeroTenRun(ls, 0);
    assert ls[..last + 1] == ls;
    StatFileRecovered(whole, ls, [], size, last);
  }

  // ----- the opener and the reader together

  ghost predicate Fits(c: Counters) { c.user + c.nice + c.sys + c.idle < TWO64 }

  /** The structure reports the printed counters of the whole machine, and their plain sum. */
  ghost predicate ReportsWhole(cpu: Cpu, c: Counters)
    reads cpu
  {
    && cpu.user == c.user && cpu.nice == c.nice && cpu.sys == c.sys && cpu.idle == c.idle
    && (Fits(c) ==> cpu.total == c.user + c.nice + c.sys + c.idle)
  }

  /** Row `j` does so for one CPU. */
  ghost predicate ReportsRow(cpu: Cpu, j: nat, c: Counters)
    requires cpu.Valid() && j < 1024
    reads cpu.Arrays()
  {
    && cpu.xUser[j] == c.user && cpu.xNice[j] == c.nice && cpu.xSys[j] == c.sys && cpu.xIdle[j] == c.idle
    && (Fits(c) ==> cpu.xTotal[j] == c.user + c.nice + c.sys + c.idle)
  }

  lemma ReportedWhole(cpu: Cpu, text: seq<byte>, ncpu: int, c: Counters)
    requires cpu.Valid() && ncpu < NCPU && cpu.Holds(text, ncpu) && CountersIn(SkipToken(text)).0 == c
    ensures ReportsWhole(cpu, c)
  {
  }

  lemma ReportedRow(cpu: Cpu, rows: seq<Counters>, j: nat)
    requires cpu.Valid() && cpu.RowsAre(rows) && j < |rows| && j < 1024
    ensures ReportsRow(cpu, j, rows[j])
  {
  }

  lemma ReportedRows(cpu: Cpu, ls: seq<CpuLine>, n: nat)
    requires cpu.Valid() && n == Min(|ls|, 1024) && cpu.RowsAre(CountersOf(ls[..n]))
    ensures forall j :: 0 <= j < |ls| && j < 1024 ==> ReportsRow(cpu, j, ls[j].line.counters)
  {
    forall j | 0 <= j < |ls| && j < 1024 ensures ReportsRow(cpu, j, ls[j].line.counters) {
      ReportedRow(cpu, CountersOf(ls[..n]), j);
    }
  }

  /** The printed file, opened: the number of its CPU lines. */
  method OpenPrinted(server: Server, file: Input, ghost whole: Line, ghost ls: seq<CpuLine>, ghost more: seq<byte>)
    returns (ok: bool)
    requires server as object != file && file.pending == StatFile(whole, ls, more)
    requires Printable(whole) && AllPrintable(ls) && Run(ls, 0) == |ls| && !StartsWith(more, CpuPrefix(|ls|))
    requires NUL !in StatFile(whole, ls, more) && |StatFile(whole, ls, [])| < BUFSIZ
    modifies server, file
    ensures ok && server.realNcpu == |ls| - 1 && server.ncpu == if |ls| < 1024 then |ls| - 1 else 1023
  {
    StatFileRecovered(whole, ls, more, BUFSIZ, if |ls| < NCPU then |ls| - 1 else NCPU - 1);
    ok := server.Open(Some(file), false);
  }

  /** The printed file, read with the number of CPUs that the opener has settled on: the counters of the
      whole machine and of the first 1024 lines, each with its total. */
  method GetPrinted(cpu: Cpu, file: Input, ncpu: int, ghost whole: Line, ghost ls: seq<CpuLine>, ghost more: seq<byte>)
    returns (ok: bool)
    requires cpu.Valid() && file as object !in cpu.Arrays() + {cpu} && file.pending == StatFile(whole, ls, more)
    requires Printable(whole) && AllPrintable(ls) && Run(ls, 0) == |ls| && !StartsWith(more, CpuPrefix(|ls|))
    requires NUL !in StatFile(whole, ls, more) && |StatFile(whole, ls, [])| < BUFSIZ
    requires ncpu == if |ls| < 1024 then |ls| - 1 else 1023
    modifies cpu, cpu.Arrays(), file
    ensures ok && ReportsWhole(cpu, whole.counters) && (cpu.smp <==> |ls| != 1)
    ensures forall j :: 0 <= j < |ls| && j < 1024 ==> ReportsRow(cpu, j, ls[j].line.counters)
  {
    ghost var text := Shown(file.pending, BUFSIZ);
    StatFileRecovered(whole, ls, more, BUFSIZ, ncpu);
    ok := cpu.GetCpu(Some(file), false, ncpu);
    ReportedWhole(cpu, text, ncpu, whole.counters);
    ReportedRows(cpu, ls, ncpu + 1);
  }
}
