/** The readers of a process's `stat` and `status` records. */
module ProcStat {
  import opened Bytes
  import opened Decimal
  import opened ProcText
  import opened ProcFile
  import opened Printed

  // ----- what the readers take from a record

  /** Tokens between the name and the user time. */
  const BEFORE_TIMES: nat := 11

  /** Tokens between the waited-for times and the interval timer. */
  const BEFORE_TIMER: nat := 3

  /** Tokens between the name and the process group. */
  const BEFORE_JOB: nat := 2

  /** Tokens between the terminal's group and the priority. */
  const BEFORE_PRIORITY: nat := 9

  datatype Times = Times(utime: u64, stime: u64, rtime: u64, cutime: u64, cstime: u64, itRealValue: u64,
                         startTime: u64, frequency: u64)

  const NO_TIMES := Times(0, 0, 0, 0, 0, 0, 0, 0)

  /** The numbers as the record has them. */
  datatype Ticks = Ticks(utime: u64, stime: u64, cutime: u64, cstime: u64, timer: u64, start: u64)

  /** Run time is user and system time together; the start, in ticks since the boot, becomes a
      second of the epoch; 64-bit sums wrap round. */
  function InSeconds(t: Ticks, boot: u64): Times {
    Times(t.utime, t.stime, (t.utime + t.stime) % TWO64, t.cutime, t.cstime, t.timer,
          (boot + t.start / 100) % TWO64, 100)
  }

  /** The numbers that stand in `s`, the record behind the name. */
  function TicksIn(s: seq<byte>): Ticks {
    var u := Scan(SkipTokens(s, BEFORE_TIMES));
    var sy := Scan(u.rest);
    var cu := Scan(sy.rest);
    var cs := Scan(cu.rest);
    var it := Scan(SkipTokens(cs.rest, BEFORE_TIMER));
    var st := Scan(it.rest);
    Ticks(Unsigned(u), Unsigned(sy), Unsigned(cu), Unsigned(cs), Unsigned(it), Unsigned(st))
  }

  function TimesOf(text: seq<byte>, boot: u64): Times {
    match AfterCmd(text)
    case None => NO_TIMES
    case Some(ba) => InSeconds(TicksIn(ba.1), boot)
  }

  datatype Job = Job(pgrp: int, session: int, tty: int, tpgid: int, priority: int, nice: int)

  const NO_JOB := Job(0, 0, 0, 0, 0, 0)

  function JobIn(s: seq<byte>): Job {
    var pg := Scan(SkipTokens(s, BEFORE_JOB));
    var se := Scan(pg.rest);
    var tt := Scan(se.rest);
    var tp := Scan(tt.rest);
    var pr := Scan(SkipTokens(tp.rest, BEFORE_PRIORITY));
    var ni := Scan(pr.rest);
    var tty := ToInt32(Signed(tt));
    Job(ToInt32(Signed(pg)), ToInt32(Signed(se)), if tty == 0 then -1 else tty, ToInt32(Signed(tp)),
        ToInt32(Signed(pr)), ToInt32(Signed(ni)))
  }

  function JobOf(text: seq<byte>): Job {
    match AfterCmd(text)
    case None => NO_JOB
    case Some(ba) => JobIn(ba.1)
  }

  const CMD_SIZE: nat := 40

  function StateCode(c: byte): nat {
    match c
    case 'R' => 1
    case 'S' => 2
    case 'D' => 4
    case 'Z' => 8
    case 'T' => 16
    case 'W' => 32
    case 'X' => 64
    case _ => 0
  }

  /** What becomes of the state reader: with no `)` in the record it follows a null pointer, and
      with no `(` it gives up with an error message. */
  datatype StateOutcome = NullPointer | BadData | Known(state: nat, cmd: seq<byte>)

  function StateIn(s: seq<byte>): nat {
    var q := SkipSpaces(s);
    StateCode(if q == [] then NUL else q[0])
  }

  function StateOf(text: seq<byte>): StateOutcome {
    match AfterCmd(text)
    case None => NullPointer
    case Some(ba) =>
      var r := SkipToken(ba.0);
      if r == [] || r[0] != '(' then BadData
      else Known(StateIn(ba.1), r[1..][..Min(|r| - 1, CMD_SIZE - 1)])
  }

  const PID: seq<byte> := "\nPid:"
  const UID: seq<byte> := "\nUid:"
  const GID: seq<byte> := "\nGid:"

  datatype Ids = Ids(pid: int, ppid: int, uid: int, euid: int, gid: int, egid: int)

  function IntAt(s: seq<byte>): int { ToInt32(Signed(Scan(s))) }

  /** What the status text gives, and whether all of it was there. */
  function IdsOf(text: seq<byte>): (Ids, bool) {
    match Find(text, PID)
    case None => (Ids(0, 0, 0, 0, 0, 0), false)
    case Some(p) =>
      var pid := SkipToken(p);
      var ppid := SkipToken(Scan(pid).rest);
      match Find(Scan(ppid).rest, UID)
      case None => (Ids(IntAt(pid), IntAt(ppid), 0, 0, 0, 0), false)
      case Some(u) =>
        var uid := SkipToken(u);
        var euid := Scan(uid).rest;
        match Find(Scan(euid).rest, GID)
        case None => (Ids(IntAt(pid), IntAt(ppid), IntAt(uid), IntAt(euid), 0, 0), false)
        case Some(g) =>
          var gid := SkipToken(g);
          (Ids(IntAt(pid), IntAt(ppid), IntAt(uid), IntAt(euid), IntAt(gid), IntAt(Scan(gid).rest)), true)
  }

  // ----- the printed record

  function Fields(fs: seq<int>): (s: seq<byte>)
    ensures EndsNumber(s) && s != [] && IsSpace(s[0])
    ensures forall c :: c in s ==> IsDigit(c) || c in " -\n"
  {
    if fs == [] then ['\n'] else [' '] + (DecInt(fs[0]) + Fields(fs[1..]))
  }

  function BehindName(state: byte, fs: seq<int>): seq<byte> { [' '] + ([state] + Fields(fs)) }

  /** The record of `/proc/<pid>/stat`; `fs[k]` is its field number `k + 4`. */
  function StatText(pid: nat, cmd: seq<byte>, state: byte, fs: seq<int>): seq<byte> {
    Dec(pid) + ([' '] + (['('] + cmd)) + ([')'] + BehindName(state, fs))
  }

  lemma {:induction false} NoParen(s: seq<byte>)
    requires ')' !in s
    ensures AfterCmd(s) == None
  {
    if s != [] {
      assert s[0] in s;
      assert forall c :: c in s[1..] ==> c in s;
      NoParen(s[1..]);
    }
  }

  lemma {:induction false} LastParenSplits(b: seq<byte>, a: seq<byte>)
    requires ')' !in a
    ensures AfterCmd(b + ([')'] + a)) == Some((b, a))
  {
    var s := b + ([')'] + a);
    if b == [] {
      assert s[1..] == a;
      NoParen(a);
    } else {
      assert s[1..] == b[1..] + ([')'] + a);
      LastParenSplits(b[1..], a);
      assert [b[0]] + b[1..] == b;
    }
  }

  lemma StatSplits(pid: nat, cmd: seq<byte>, state: byte, fs: seq<int>)
    requires state != ')'
    ensures AfterCmd(StatText(pid, cmd, state, fs)) == Some((Dec(pid) + ([' '] + (['('] + cmd)), BehindName(state, fs)))
  {
    assert ')' !in BehindName(state, fs);
    LastParenSplits(Dec(pid) + ([' '] + (['('] + cmd)), BehindName(state, fs));
  }

  /** The cursor is in front of field number `k + 4`, give or take white space. */
  predicate At(s: seq<byte>, fs: seq<int>, k: nat)
    requires k <= |fs|
  {
    SkipSpaces(s) == SkipSpaces(Fields(fs[k..]))
  }

  lemma AtWord(s: seq<byte>, fs: seq<int>, k: nat)
    requires k < |fs| && At(s, fs, k)
    ensures SkipSpaces(s) == DecInt(fs[k]) + Fields(fs[k + 1..])
  {
    var r := DecInt(fs[k]) + Fields(fs[k + 1..]);
    assert fs[k..][1..] == fs[k + 1..];
    assert Fields(fs[k..]) == [' '] + r;
    SkipOneSpace(' ', r);
  }

  lemma SkipField(s: seq<byte>, fs: seq<int>, k: nat)
    requires k < |fs| && At(s, fs, k)
    ensures At(SkipToken(s), fs, k + 1)
  {
    AtWord(s, fs, k);
    SkipPrintedWord(DecInt(fs[k]), Fields(fs[k + 1..]));
    SpacesOnce(Fields(fs[k + 1..]));
  }

  lemma SkipTokensStep(s: seq<byte>, n: nat)
    requires n > 0
    ensures SkipTokens(s, n) == SkipTokens(SkipToken(s), n - 1)
  {
  }

  lemma {:induction false} SkipFields(s: seq<byte>, fs: seq<int>, k: nat, n: nat, e: nat)
    requires k + n == e <= |fs| && At(s, fs, k)
    ensures At(SkipTokens(s, n), fs, e)
    decreases n
  {
    if n > 0 {
      SkipField(s, fs, k);
      SkipTokensStep(s, n);
      SkipFields(SkipToken(s), fs, k + 1, n - 1, e);
    }
  }

  lemma ReadField(s: seq<byte>, fs: seq<int>, k: nat)
    requires k < |fs| && At(s, fs, k)
    ensures Unsigned(Scan(s)) == AsU64(fs[k]) && IntAt(s) == AsInt32(fs[k])
    ensures At(Scan(s).rest, fs, k + 1)
  {
    AtWord(s, fs, k);
    ScanPrinted(s, fs[k], Fields(fs[k + 1..]));
  }

  /** The token behind the name is the state letter. */
  lemma SkipState(state: byte, fs: seq<int>, n: nat)
    requires !IsSpace(state) && 0 < n <= |fs| + 1
    ensures At(SkipTokens(BehindName(state, fs), n), fs, n - 1)
  {
    var s := BehindName(state, fs);
    SkipOneSpace(' ', [state] + Fields(fs));
    SkipPrintedWord([state], Fields(fs));
    assert fs[0..] == fs;
    SpacesOnce(Fields(fs));
    assert At(SkipToken(s), fs, 0);
    SkipFields(SkipToken(s), fs, 0, n - 1, n - 1);
  }

  /** The time reader finds fields 14 to 17, 21 and 22, whatever the name is made of. */
  lemma TimesRecovered(pid: nat, cmd: seq<byte>, state: byte, fs: seq<int>, boot: u64)
    requires !IsSpace(state) && state != ')' && |fs| >= 19
    ensures TimesOf(StatText(pid, cmd, state, fs), boot)
         == InSeconds(Ticks(AsU64(fs[10]), AsU64(fs[11]), AsU64(fs[12]), AsU64(fs[13]), AsU64(fs[17]), AsU64(fs[18])),
                      boot)
  {
    StatSplits(pid, cmd, state, fs);
    var s := BehindName(state, fs);
    SkipState(state, fs, BEFORE_TIMES);
    var u := SkipTokens(s, BEFORE_TIMES);
    ReadField(u, fs, 10);
    var sy := Scan(u).rest;
    ReadField(sy, fs, 11);
    var cu := Scan(sy).rest;
    ReadField(cu, fs, 12);
    var cs := Scan(cu).rest;
    ReadField(cs, fs, 13);
    SkipFields(Scan(cs).rest, fs, 14, BEFORE_TIMER, 17);
    var it := SkipTokens(Scan(cs).rest, BEFORE_TIMER);
    ReadField(it, fs, 17);
    ReadField(Scan(it).rest, fs, 18);
  }

  lemma WithinRange(f: int)
    requires 0 <= f < TWO64
    ensures AsU64(f) == f
  {
  }

  lemma NoWrap(t: Ticks, boot: u64)
    requires t.utime + t.stime < TWO64 && boot + t.start / 100 < TWO64
    ensures InSeconds(t, boot)
         == Times(t.utime, t.stime, t.utime + t.stime, t.cutime, t.cstime, t.timer, boot + t.start / 100, 100)
  {
  }

  /** Without overflow these are the printed numbers themselves. */
  lemma TimesExact(pid: nat, cmd: seq<byte>, state: byte, fs: seq<int>, boot: u64)
    requires !IsSpace(state) && state != ')' && |fs| >= 19
    requires 0 <= fs[10] && 0 <= fs[11] && fs[10] + fs[11] < TWO64
    requires 0 <= fs[12] < TWO64 && 0 <= fs[13] < TWO64 && 0 <= fs[17] < TWO64
    requires 0 <= fs[18] < TWO64 && boot + fs[18] / 100 < TWO64
    ensures TimesOf(StatText(pid, cmd, state, fs), boot)
         == Times(fs[10], fs[11], fs[10] + fs[11], fs[12], fs[13], fs[17], boot + fs[18] / 100, 100)
  {
    TimesRecovered(pid, cmd, state, fs, boot);
    WithinRange(fs[10]);
    WithinRange(fs[11]);
    WithinRange(fs[12]);
    WithinRange(fs[13]);
    WithinRange(fs[17]);
    WithinRange(fs[18]);
    NoWrap(Ticks(fs[10], fs[11], fs[12], fs[13], fs[17], fs[18]), boot);
  }

  /** The id reader finds fields 5 to 8, 18 and 19; no terminal shows as -1. */
  lemma JobRecovered(pid: nat, cmd: seq<byte>, state: byte, fs: seq<int>)
    requires !IsSpace(state) && state != ')' && |fs| >= 16
    ensures JobOf(StatText(pid, cmd, state, fs))
         == Job(AsInt32(fs[1]), AsInt32(fs[2]), if AsInt32(fs[3]) == 0 then -1 else AsInt32(fs[3]), AsInt32(fs[4]),
                AsInt32(fs[14]), AsInt32(fs[15]))
  {
    StatSplits(pid, cmd, state, fs);
    var s := BehindName(state, fs);
    SkipState(state, fs, BEFORE_JOB);
    var pg := SkipTokens(s, BEFORE_JOB);
    ReadField(pg, fs, 1);
    var se := Scan(pg).rest;
    ReadField(se, fs, 2);
    var tt := Scan(se).rest;
    ReadField(tt, fs, 3);
    var tp := Scan(tt).rest;
    ReadField(tp, fs, 4);
    SkipFields(Scan(tp).rest, fs, 5, BEFORE_PRIORITY, 14);
    var pr := SkipTokens(Scan(tp).rest, BEFORE_PRIORITY);
    ReadField(pr, fs, 14);
    ReadField(Scan(pr).rest, fs, 15);
  }

  predicate Int32(f: int) { 0 - TWO31 <= f < TWO31 }

  /** Fields that fit 32 bits come back as printed. */
  lemma JobExact(pid: nat, cmd: seq<byte>, state: byte, fs: seq<int>)
    requires !IsSpace(state) && state != ')' && |fs| >= 16
    requires Int32(fs[1]) && Int32(fs[2]) && Int32(fs[3]) && Int32(fs[4]) && Int32(fs[14]) && Int32(fs[15])
    ensures JobOf(StatText(pid, cmd, state, fs))
         == Job(fs[1], fs[2], if fs[3] == 0 then -1 else fs[3], fs[4], fs[14], fs[15])
  {
    JobRecovered(pid, cmd, state, fs);
    AsInt32Exact(fs[1]);
    AsInt32Exact(fs[2]);
    AsInt32Exact(fs[3]);
    AsInt32Exact(fs[4]);
    AsInt32Exact(fs[14]);
    AsInt32Exact(fs[15]);
  }

  /** The state reader returns the code of the state and the first 39 bytes of the name. */
  lemma StateRecovered(pid: nat, cmd: seq<byte>, state: byte, fs: seq<int>)
    requires !IsSpace(state) && state != ')'
    ensures var o := StateOf(StatText(pid, cmd, state, fs));
            && o.Known? && o.cmd == cmd[..Min(|cmd|, 39)]
            && (state == 'R' ==> o.state == 1) && (state == 'S' ==> o.state == 2) && (state == 'D' ==> o.state == 4)
            && (state == 'Z' ==> o.state == 8) && (state == 'T' ==> o.state == 16) && (state == 'W' ==> o.state == 32)
            && (state == 'X' ==> o.state == 64)
            && (state !in {'R', 'S', 'D', 'Z', 'T', 'W', 'X'} ==> o.state == 0)
  {
    StatSplits(pid, cmd, state, fs);
    SkipOneSpace(' ', [state] + Fields(fs));
    var name := ['('] + cmd;
    var b := Dec(pid) + ([' '] + name);
    assert Dec(pid)[0] in Dec(pid);
    assert SkipSpaces(b) == b;
    SkipPrintedWord(Dec(pid), [' '] + name);
    SkipOneSpace(' ', name);
    assert name[1..] == cmd;
  }

  // ----- what a reader makes of any text

  lemma {:induction false} ParenFound(s: seq<byte>)
    requires ')' in s
    ensures AfterCmd(s).Some?
  {
    if ')' in s[1..] {
      ParenFound(s[1..]);
    }
  }

  /** The state reader follows a null pointer exactly when the text has no closing parenthesis. */
  lemma NullPointerIff(text: seq<byte>)
    ensures StateOf(text) == NullPointer <==> ')' !in text
  {
    if ')' in text {
      ParenFound(text);
    } else {
      NoParen(text);
    }
  }

  /** Such a text is the empty one, of a process that has just gone. */
  lemma EmptyRecord()
    ensures StateOf([]) == NullPointer
  {
  }

  // ----- the printed status

  const PPID: seq<byte> := "\nPPid:"

  function Pair(a: int, b: int, t: seq<byte>): seq<byte> {
    ['\t'] + (DecInt(a) + (['\t'] + (DecInt(b) + t)))
  }

  /** The parts of `/proc/<pid>/status` from each of the searched keys on. */
  function FromGid(ids: Ids, tail: seq<byte>): seq<byte> { GID + Pair(ids.gid, ids.egid, tail) }

  function UidLine(ids: Ids, more: seq<byte>): seq<byte> { UID + Pair(ids.uid, ids.euid, more) }

  function PidLines(ids: Ids, mid: seq<byte>): seq<byte> {
    PID + (['\t'] + (DecInt(ids.pid) + (PPID + (['\t'] + (DecInt(ids.ppid) + mid)))))
  }

  function FromUid(ids: Ids, more: seq<byte>, tail: seq<byte>): seq<byte> { UidLine(ids, more + FromGid(ids, tail)) }

  function FromPid(ids: Ids, mid: seq<byte>, more: seq<byte>, tail: seq<byte>): seq<byte> {
    PidLines(ids, mid + FromUid(ids, more, tail))
  }

  /** `key` does not occur before `r` does. */
  ghost predicate First(before: seq<byte>, r: seq<byte>, key: seq<byte>) {
    forall i :: 0 <= i < |before| ==> !StartsWith((before + r)[i..], key)
  }

  lemma SkipKey(key: seq<byte>, r: seq<byte>)
    requires key in {PID, PPID, UID, GID}
    requires r != [] && !IsSpace(r[0])
    ensures SkipToken(key + (['\t'] + r)) == r
  {
    var w, t := key[1..], ['\t'] + r;
    var s := key + t;
    assert t[1..] == r;
    assert s[1..] == w + t;
    assert SkipSpaces(s) == w + t;
    SkipPrintedWord(w, t);
    SkipOneSpace('\t', r);
  }

  lemma KeyedNumber(key: seq<byte>, f: int, t: seq<byte>)
    requires key in {PID, PPID, UID, GID} && EndsNumber(t)
    ensures var s := SkipToken(key + (['\t'] + (DecInt(f) + t)));
            IntAt(s) == AsInt32(f) && Scan(s).rest == t
  {
    PrintedStarts(f, t);
    SkipKey(key, DecInt(f) + t);
    ScanPrinted(DecInt(f) + t, f, t);
  }

  lemma KeyedPair(key: seq<byte>, a: int, b: int, t: seq<byte>)
    requires key in {UID, GID} && EndsNumber(t)
    ensures var s := SkipToken(key + Pair(a, b, t));
            IntAt(s) == AsInt32(a) && IntAt(Scan(s).rest) == AsInt32(b) && Scan(Scan(s).rest).rest == t
  {
    var r := DecInt(b) + t;
    KeyedNumber(key, a, ['\t'] + r);
    PrintedStarts(b, t);
    assert (['\t'] + r)[1..] == r;
    ScanPrinted(['\t'] + r, b, t);
  }

  /** The id reader finds all six ids of a status text, whatever stands between their lines. */
  lemma IdsRecovered(before: seq<byte>, ids: Ids, mid: seq<byte>, more: seq<byte>, tail: seq<byte>)
    requires EndsNumber(mid) && EndsNumber(more) && EndsNumber(tail)
    requires First(before, FromPid(ids, mid, more, tail), PID)
    requires First(mid, FromUid(ids, more, tail), UID)
    requires First(more, FromGid(ids, tail), GID)
    ensures IdsOf(before + FromPid(ids, mid, more, tail))
         == (Ids(AsInt32(ids.pid), AsInt32(ids.ppid), AsInt32(ids.uid), AsInt32(ids.euid), AsInt32(ids.gid),
                 AsInt32(ids.egid)), true)
  {
    var g := FromGid(ids, tail);
    var u := FromUid(ids, more, tail);
    var p := FromPid(ids, mid, more, tail);
    assert g[..|GID|] == GID && u[..|UID|] == UID && p[..|PID|] == PID;
    FindFirst(before, p, PID);
    ReadPids(ids, mid + u);
    FindFirst(mid, u, UID);
    KeyedPair(UID, ids.uid, ids.euid, more + g);
    FindFirst(more, g, GID);
    KeyedPair(GID, ids.gid, ids.egid, tail);
  }

  /** When a line is missing, the ids before it are there and the rest are not claimed. */
  lemma IdsMissing(before: seq<byte>, ids: Ids, mid: seq<byte>, more: seq<byte>)
    requires EndsNumber(mid) && EndsNumber(more)
    requires Find(before, PID) == None && Find(mid, UID) == None && Find(more, GID) == None
    ensures IdsOf(before) == (Ids(0, 0, 0, 0, 0, 0), false)
    ensures IdsOf(PidLines(ids, mid)) == (Ids(AsInt32(ids.pid), AsInt32(ids.ppid), 0, 0, 0, 0), false)
    ensures IdsOf(PidLines(ids, UidLine(ids, more)))
         == (Ids(AsInt32(ids.pid), AsInt32(ids.ppid), AsInt32(ids.uid), AsInt32(ids.euid), 0, 0), false)
  {
    ReadPids(ids, mid);
    var u := UidLine(ids, more);
    ReadPids(ids, u);
    EmptyEnds(u);
    FindFirst([], u, UID);
    KeyedPair(UID, ids.uid, ids.euid, more);
  }

  lemma ReadPids(ids: Ids, mid: seq<byte>)
    requires EndsNumber(mid)
    ensures var p := PidLines(ids, mid);
            var pid := SkipToken(p);
            var ppid := SkipToken(Scan(pid).rest);
            && Find(p, PID) == Some(p) && IntAt(pid) == AsInt32(ids.pid) && IntAt(ppid) == AsInt32(ids.ppid)
            && Scan(ppid).rest == mid
  {
    var p := PidLines(ids, mid);
    EmptyEnds(p);
    FindFirst([], p, PID);
    KeyedNumber(PID, ids.pid, PPID + (['\t'] + (DecInt(ids.ppid) + mid)));
    KeyedNumber(PPID, ids.ppid, mid);
  }
}
