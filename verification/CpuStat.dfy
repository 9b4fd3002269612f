/** The CPU lines of the system's `stat` file: the opener counts them, the reader takes them apart. */
module CpuStat {
  import opened Bytes
  import opened Decimal
  import opened ProcText
  import opened ProcFile
  import opened Streams

  const NCPU: nat := 1024
  const START_SIZE: nat := 10

  /** What `"cpu%u"` leaves in a buffer of ten bytes. */
  function CpuPrefix(i: nat): (s: seq<byte>)
    ensures s != [] && NUL !in s
  {
    var s: seq<byte> := "cpu" + Dec(i);
    assert forall k :: 0 <= k < |s| ==> s[k] != NUL by {
      assert forall k :: 3 <= k < |s| ==> s[k] in Dec(i);
    }
    s[..Min(|s|, START_SIZE - 1)]
  }

  lemma SkipLineShorter(s: seq<byte>, i: nat)
    requires StartsWith(s, CpuPrefix(i))
    ensures |SkipLine(s)| < |s|
  {
  }

  /** The lines from `s` on that are CPU `i`, CPU `i + 1` and so forth; the result is the first
      number that is missing. */
  function CountCpus(s: seq<byte>, i: nat): (n: nat)
    ensures n >= i && (n == i <==> !StartsWith(s, CpuPrefix(i)))
    decreases |s|
  {
    if !StartsWith(s, CpuPrefix(i)) then i
    else
      SkipLineShorter(s, i);
      CountCpus(SkipLine(s), i + 1)
  }

  datatype Counters = Counters(user: u64, nice: u64, sys: u64, idle: u64)

  const ZERO := Counters(0, 0, 0, 0)

  function Total(c: Counters): u64 { (c.user + c.nice + c.sys + c.idle) % TWO64 }

  /** Four numbers and the text behind them. */
  function CountersIn(s: seq<byte>): (Counters, seq<byte>) {
    var user := Scan(s);
    var nice := Scan(user.rest);
    var sys := Scan(nice.rest);
    var idle := Scan(sys.rest);
    (Counters(Unsigned(user), Unsigned(nice), Unsigned(sys), Unsigned(idle)), idle.rest)
  }

  /** The rows that the reader's loop fills, from CPU `i` up to CPU `last`. */
  function Rows(s: seq<byte>, i: nat, last: int): (rows: seq<Counters>)
    ensures i + |rows| <= last + 1 || rows == []
    decreases last - i
  {
    var line := SkipLine(s);
    if i > last || !StartsWith(line, CpuPrefix(i)) then []
    else
      var (c, rest) := CountersIn(SkipToken(line));
      [c] + Rows(rest, i + 1, last)
  }

  lemma Shift(a: seq<Counters>, x: Counters, b: seq<Counters>)
    ensures a + ([x] + b) == (a + [x]) + b
  {
  }

  // ----- the opener

  method CheckCpuLine(m: array<byte>, p: nat, i: nat) returns (b: bool)
    requires InText(m[..], p)
    ensures b == StartsWith(CStr(m[..], p), CpuPrefix(i))
  {
    var start := CpuPrefix(i);
    b := StartsWithAt(m, p, start);
  }

  class Server {
    var realNcpu: int
    var ncpu: int

    constructor () { realNcpu, ncpu := 0, 0; }

    /** `glibtop_open_s`; `ok` is false when an error message ended the program. */
    method Open(file: Option<Input>, broken: bool) returns (ok: bool)
      modifies this, if file.Some? then {file.value} else {}
      ensures ok ==> file.Some?
      ensures file.Some? && !broken ==> ok
      ensures ok ==> realNcpu == CountCpus(SkipLine(Shown(old(file.value.pending), BUFSIZ)), 0) - 1
      ensures ok ==> ncpu == (if realNcpu < NCPU - 1 then realNcpu else NCPU - 1) && -1 <= ncpu < NCPU
    {
      var buffer := new byte[BUFSIZ];
      var r := TryFileToBuffer(buffer, file, broken);
      if r != READ_OK {
        return false;
      }
      var p := SkipLineAt(buffer, 0);
      ghost var lines := CStr(buffer[..], p);
      var count := 0;
      var more := CheckCpuLine(buffer, p, count);
      while more
        invariant InText(buffer[..], p) && more == StartsWith(CStr(buffer[..], p), CpuPrefix(count))
        invariant CountCpus(CStr(buffer[..], p), count) == CountCpus(lines, 0)
        decreases |CStr(buffer[..], p)|
      {
        SkipLineShorter(CStr(buffer[..], p), count);
        p := SkipLineAt(buffer, p);
        count := count + 1;
        more := CheckCpuLine(buffer, p, count);
      }
      realNcpu := count - 1;
      ncpu := if NCPU - 1 < realNcpu then NCPU - 1 else realNcpu;
      return true;
    }
  }

  // ----- the reader

  method ReadCounters(m: array<byte>, p: nat) returns (c: Counters, q: nat)
    requires InText(m[..], p)
    ensures InText(m[..], q) && (c, CStr(m[..], q)) == CountersIn(CStr(m[..], p))
  {
    var user, nice, sys, idle;
    user, q := Strtoull(m, p);
    nice, q := Strtoull(m, q);
    sys, q := Strtoull(m, q);
    idle, q := Strtoull(m, q);
    c := Counters(user, nice, sys, idle);
  }

  /** Row `j`, where `rows` lie over an array of zeros. */
  function Entry(rows: seq<Counters>, j: nat): Counters { if j < |rows| then rows[j] else ZERO }

  /** One round of the reader's loop. */
  method ReadRow(m: array<byte>, p: nat, i: nat, ghost last: int) returns (isCpu: bool, c: Counters, q: nat)
    requires InText(m[..], p) && i <= last
    ensures InText(m[..], q)
    ensures Rows(CStr(m[..], p), i, last) == if isCpu then [c] + Rows(CStr(m[..], q), i + 1, last) else []
  {
    q := SkipLineAt(m, p);
    isCpu := CheckCpuLine(m, q, i);
    c := ZERO;
    if isCpu {
      q := SkipTokenAt(m, q);
      c, q := ReadCounters(m, q);
    }
  }

  class Cpu {
    var user: u64
    var nice: u64
    var sys: u64
    var idle: u64
    var total: u64
    var smp: bool
    const xUser: array<u64>
    const xNice: array<u64>
    const xSys: array<u64>
    const xIdle: array<u64>
    const xTotal: array<u64>

    constructor ()
      ensures Valid() && fresh(Arrays())
    {
      user, nice, sys, idle, total, smp := 0, 0, 0, 0, 0, false;
      xUser, xNice, xSys := new u64[NCPU], new u64[NCPU], new u64[NCPU];
      xIdle, xTotal := new u64[NCPU], new u64[NCPU];
    }

    ghost function Arrays(): set<object> { {xUser, xNice, xSys, xIdle, xTotal} }

    ghost predicate Valid() {
      && xUser.Length == xNice.Length == xSys.Length == xIdle.Length == xTotal.Length == NCPU
      && xUser != xNice && xUser != xSys && xUser != xIdle && xUser != xTotal && xNice != xSys
      && xNice != xIdle && xNice != xTotal && xSys != xIdle && xSys != xTotal && xIdle != xTotal
    }

    /** The per-CPU arrays hold `rows`, and zeros from there on. */
    ghost predicate RowsAre(rows: seq<Counters>)
      requires Valid()
      reads xUser, xNice, xSys, xIdle, xTotal
    {
      && (forall j :: 0 <= j < NCPU ==> xUser[j] == Entry(rows, j).user)
      && (forall j :: 0 <= j < NCPU ==> xNice[j] == Entry(rows, j).nice)
      && (forall j :: 0 <= j < NCPU ==> xSys[j] == Entry(rows, j).sys)
      && (forall j :: 0 <= j < NCPU ==> xIdle[j] == Entry(rows, j).idle)
      && (forall j :: 0 <= j < NCPU ==> xTotal[j] == Total(Entry(rows, j)))
    }

    /** Each row's total is the sum of its counters modulo 2^64. */
    ghost predicate RowsAdd()
      requires Valid()
      reads xUser, xNice, xSys, xIdle, xTotal
    {
      forall j :: 0 <= j < 1024 ==> xTotal[j] == (xUser[j] + xNice[j] + xSys[j] + xIdle[j]) % TWO64
    }

    lemma HeldRowsAdd(rows: seq<Counters>)
      requires Valid() && RowsAre(rows)
      ensures RowsAdd()
    {
    }

    method Clear()
      requires Valid()
      modifies xUser, xNice, xSys, xIdle, xTotal
      ensures RowsAre([])
    {
      forall j | 0 <= j < NCPU { xUser[j] := 0; }
      forall j | 0 <= j < NCPU { xNice[j] := 0; }
      forall j | 0 <= j < NCPU { xSys[j] := 0; }
      forall j | 0 <= j < NCPU { xIdle[j] := 0; }
      forall j | 0 <= j < NCPU { xTotal[j] := 0; }
    }

    method SetRow(i: nat, c: Counters, ghost rows: seq<Counters>)
      requires Valid() && i < NCPU && |rows| == i && RowsAre(rows)
      modifies xUser, xNice, xSys, xIdle, xTotal
      ensures RowsAre(rows + [c])
    {
      xUser[i], xNice[i], xSys[i], xIdle[i] := c.user, c.nice, c.sys, c.idle;
      xTotal[i] := Total(c);
    }

    /** The loop over the CPUs; `start` is inside the line before the first of them. */
    method ReadRows(m: array<byte>, start: nat, ncpu: int)
      requires Valid() && ncpu < NCPU && InText(m[..], start) && m as object !in Arrays()
      requires RowsAre([])
      modifies xUser, xNice, xSys, xIdle, xTotal
      ensures RowsAre(Rows(old(CStr(m[..], start)), 0, ncpu))
    {
      ghost var text := m[..];
      ghost var all := Rows(CStr(text, start), 0, ncpu);
      ghost var rows: seq<Counters> := [];
      var p, i := start, 0;
      while i <= ncpu
        invariant i <= NCPU && |rows| == i && m[..] == text && InText(text, p)
        invariant all == rows + Rows(CStr(text, p), i, ncpu)
        invariant RowsAre(rows)
        decreases ncpu - i
      {
        var isCpu, c;
        isCpu, c, p := ReadRow(m, p, i, ncpu);
        if !isCpu {
          break;
        }
        SetRow(i, c, rows);
        Shift(rows, c, Rows(CStr(text, p), i + 1, ncpu));
        rows := rows + [c];
        i := i + 1;
      }
      assert all == rows;
    }

    method SetTotals(c: Counters)
      modifies this
      ensures Counters(user, nice, sys, idle) == c && total == Total(c) && WholeAdds()
    {
      user, nice, sys, idle := c.user, c.nice, c.sys, c.idle;
      total := (user + nice + sys + idle) % TWO64;
    }

    ghost predicate Holds(text: seq<byte>, ncpu: int)
      requires Valid() && ncpu < NCPU
      reads this, Arrays()
    {
      var (c, rest) := CountersIn(SkipToken(text));
      && Counters(user, nice, sys, idle) == c && total == Total(c)
      && |Rows(rest, 0, ncpu)| <= NCPU
      && RowsAre(Rows(rest, 0, ncpu))
      && smp == (ncpu != 0)
    }

    ghost predicate WholeAdds()
      reads this`user, this`nice, this`sys, this`idle, this`total
    {
      total == (user + nice + sys + idle) % TWO64
    }

    /** Every total is the sum of its counters modulo 2^64. */
    ghost predicate Adds()
      requires Valid()
      reads this, Arrays()
    {
      WholeAdds() && RowsAdd()
    }

    lemma HeldRows(text: seq<byte>, ncpu: int)
      requires Valid() && ncpu < NCPU && Holds(text, ncpu)
      ensures RowsAdd()
    {
      HeldRowsAdd(Rows(CountersIn(SkipToken(text)).1, 0, ncpu));
    }

    method TakeApart(m: array<byte>, ncpu: int)
      requires Valid() && ncpu < NCPU && InText(m[..], 0) && m as object !in Arrays() && RowsAre([])
      modifies this, Arrays()
      ensures Holds(old(CStr(m[..], 0)), ncpu) && WholeAdds()
    {
      ghost var text := m[..];
      var p := SkipTokenAt(m, 0);
      var c;
      c, p := ReadCounters(m, p);
      SetTotals(c);
      ReadRows(m, p, ncpu);
      smp := ncpu != 0;
    }

    /** `glibtop_get_cpu_s`; `ok` is false when an error message ended the program. */
    method GetCpu(file: Option<Input>, broken: bool, ncpu: int) returns (ok: bool)
      requires Valid() && ncpu < NCPU && (file.Some? ==> file.value as object !in Arrays() + {this})
      modifies this, Arrays(), if file.Some? then {file.value} else {}
      ensures ok ==> file.Some?
      ensures file.Some? && !broken ==> ok
      ensures ok ==> Holds(Shown(old(file.value.pending), BUFSIZ), ncpu)
      ensures ok ==> Adds()
    {
      Clear();
      var buffer := new byte[BUFSIZ];
      var r := TryFileToBuffer(buffer, file, broken);
      if r != READ_OK {
        return false;
      }
      ghost var text := CStr(buffer[..], 0);
      TakeApart(buffer, ncpu);
      HeldRows(text, ncpu);
      return true;
    }
  }
}
