/** The callers of the record scanners: each fills one structure from the files of a process. */
module ProcReaders {
  import opened Bytes
  import opened Decimal
  import opened Printed
  import opened ProcText
  import opened ProcFile
  import opened ProcStat
  import opened Streams

  /** What a read of `file` shows in a buffer. */
  ghost function TextOf(file: Input): seq<byte>
    reads file
  {
    Shown(file.pending, BUFSIZ)
  }

  function Handle(file: Option<Input>): set<object> { if file.Some? then {file.value} else {} }

  // ----- times

  method ReadTicks(m: array<byte>, p: nat) returns (t: Ticks)
    requires InText(m[..], p)
    ensures t == TicksIn(CStr(m[..], p))
  {
    var utime, stime, cutime, cstime, timer, start;
    var q := SkipMultipleToken(m, p, BEFORE_TIMES);
    utime, q := Strtoull(m, q);
    stime, q := Strtoull(m, q);
    cutime, q := Strtoull(m, q);
    cstime, q := Strtoull(m, q);
    q := SkipMultipleToken(m, q, BEFORE_TIMER);
    timer, q := Strtoull(m, q);
    start, q := Strtoull(m, q);
    t := Ticks(utime, stime, cutime, cstime, timer, start);
  }

  method Convert(t: Ticks, boot: u64) returns (r: Times)
    ensures r == InSeconds(t, boot)
  {
    r := Times(t.utime, t.stime, (t.utime + t.stime) % TWO64, t.cutime, t.cstime, t.timer,
               (boot + t.start / 100) % TWO64, 100);
  }

  class ProcTime {
    var times: Times
    var known: bool

    constructor () { times, known := NO_TIMES, false; }

    /** `glibtop_get_proc_time_s`; `boot` is the second of the epoch at which the system came up. */
    method GetProcTime(file: Option<Input>, broken: bool, boot: u64)
      modifies this, Handle(file)
      ensures file == None ==> !known && times == NO_TIMES
      ensures file.Some? && !broken ==>
                times == TimesOf(old(TextOf(file.value)), boot) && known == AfterCmd(old(TextOf(file.value))).Some?
      ensures known ==> file.Some? && times == TimesOf(old(TextOf(file.value)), boot)
      ensures !known ==> times == NO_TIMES
    {
      times, known := NO_TIMES, false;
      var buffer := new byte[BUFSIZ];
      var r := TryFileToBuffer(buffer, file, broken);
      if r != READ_OK {
        return;
      }
      var p := ProcStatAfterCmd(buffer);
      if p == None {
        return;
      }
      var t := ReadTicks(buffer, p.value);
      times := Convert(t, boot);
      known := true;
    }
  }

  // ----- state

  lemma TakeOne(s: seq<byte>, i: nat)
    requires i < |s|
    ensures s[..i + 1] == s[..i] + [s[i]] && s[i..][0] == s[i] && s[i..][1..] == s[i + 1..]
  {
  }

  /** `g_strlcpy`. */
  method Strlcpy(dst: array<byte>, m: array<byte>, p: nat)
    requires dst != m && dst.Length > 0 && InText(m[..], p)
    modifies dst
    ensures InText(dst[..], 0)
    ensures CStr(dst[..], 0) == CStr(m[..], p)[..Min(|CStr(m[..], p)|, dst.Length - 1)]
  {
    ghost var s := CStr(m[..], p);
    var i := 0;
    InTextNext(m[..], p);
    while i < dst.Length - 1 && m[p + i] != NUL
      invariant i <= dst.Length - 1 && i <= |s| && p + i < m.Length && m[..] == old(m[..])
      invariant InText(m[..], p + i) && CStr(m[..], p + i) == s[i..]
      invariant dst[..i] == s[..i] && NUL !in dst[..i]
    {
      InTextNext(m[..], p + i);
      dst[i] := m[p + i];
      TakeOne(s, i);
      assert dst[..i + 1] == dst[..i] + [s[i]];
      i := i + 1;
      InTextNext(m[..], p + i);
    }
    InTextNext(m[..], p + i);
    dst[i] := NUL;
    assert dst[..i] == s[..i] && dst[..][0..i] == dst[..i];
    CStrIs(dst[..], 0, i);
  }

  datatype Exit = Returned | Crashed | GaveUp

  class ProcState {
    const cmd: array<byte>
    var state: nat
    var uid: int
    var gid: int
    var uidKnown: bool
    var known: bool

    constructor ()
      ensures fresh(cmd) && cmd.Length == CMD_SIZE
    {
      cmd := new byte[CMD_SIZE](_ => NUL);
      state, uid, gid, uidKnown, known := 0, 0, 0, false, false;
    }

    ghost predicate Shows(o: StateOutcome, e: Exit)
      reads this, cmd
    {
      match o
      case NullPointer => e == Crashed && !known
      case BadData => e == GaveUp && !known
      case Known(st, name) => e == Returned && known && state == st && InText(cmd[..], 0) && CStr(cmd[..], 0) == name
    }

    /** The part that takes the record apart. */
    method TakeApart(buffer: array<byte>) returns (e: Exit)
      requires cmd.Length == CMD_SIZE && cmd != buffer && !known && InText(buffer[..], 0)
      modifies this, cmd, buffer
      ensures Shows(StateOf(old(CStr(buffer[..], 0))), e)
      ensures uidKnown == old(uidKnown) && uid == old(uid) && gid == old(gid)
    {
      var p := ProcStatAfterCmd(buffer);
      if p == None {
        return Crashed;
      }
      var q := NextToken(buffer, p.value);
      InTextNext(buffer[..], q);
      state := StateCode(buffer[q]);
      q := SkipTokenAt(buffer, 0);
      InTextNext(buffer[..], q);
      if buffer[q] != '(' {
        return GaveUp;
      }
      Strlcpy(cmd, buffer, q + 1);
      known := true;
      return Returned;
    }

    /** `glibtop_get_proc_state_s`; `owner` is what `stat` says of the process's directory. */
    method GetProcState(owner: Option<(int, int)>, file: Option<Input>, broken: bool) returns (e: Exit)
      requires cmd.Length == CMD_SIZE
      modifies this, cmd, Handle(file)
      ensures uidKnown == owner.Some? && (uidKnown ==> (uid, gid) == owner.value)
      ensures owner == None || file == None ==> e == Returned && !known
      ensures owner.Some? && file.Some? && !broken ==> Shows(StateOf(old(TextOf(file.value))), e)
      ensures known ==> file.Some? && Shows(StateOf(old(TextOf(file.value))), e)
    {
      state, uid, gid, uidKnown, known := 0, 0, 0, false, false;
      forall i | 0 <= i < cmd.Length { cmd[i] := NUL; }
      if owner == None {
        return Returned;
      }
      uid, gid, uidKnown := owner.value.0, owner.value.1, true;
      var buffer := new byte[BUFSIZ];
      var r := TryFileToBuffer(buffer, file, broken);
      if r != READ_OK {
        return Returned;
      }
      e := TakeApart(buffer);
    }
  }

  // ----- ids

  method ReadIds(m: array<byte>) returns (ids: Ids, complete: bool)
    requires InText(m[..], 0)
    ensures (ids, complete) == IdsOf(CStr(m[..], 0))
  {
    ids, complete := Ids(0, 0, 0, 0, 0, 0), false;
    var v, p;
    var key := Strstr(m, 0, PID);
    if key == None {
      return;
    }
    p := SkipTokenAt(m, key.value);
    v, p := Strtol(m, p);
    ids := ids.(pid := ToInt32(v));
    p := SkipTokenAt(m, p);
    v, p := Strtol(m, p);
    ids := ids.(ppid := ToInt32(v));
    key := Strstr(m, p, UID);
    if key == None {
      return;
    }
    p := SkipTokenAt(m, key.value);
    v, p := Strtol(m, p);
    ids := ids.(uid := ToInt32(v));
    v, p := Strtol(m, p);
    ids := ids.(euid := ToInt32(v));
    key := Strstr(m, p, GID);
    if key == None {
      return;
    }
    p := SkipTokenAt(m, key.value);
    v, p := Strtol(m, p);
    ids := ids.(gid := ToInt32(v));
    v, p := Strtol(m, p);
    ids := ids.(egid := ToInt32(v));
    complete := true;
  }

  method ReadJob(m: array<byte>, p: nat) returns (j: Job)
    requires InText(m[..], p)
    ensures j == JobIn(CStr(m[..], p))
  {
    var pgrp, session, tty, tpgid, priority, nice;
    var q := SkipMultipleToken(m, p, BEFORE_JOB);
    pgrp, q := Strtol(m, q);
    session, q := Strtol(m, q);
    tty, q := Strtol(m, q);
    tpgid, q := Strtol(m, q);
    q := SkipMultipleToken(m, q, BEFORE_PRIORITY);
    priority, q := Strtol(m, q);
    nice, q := Strtol(m, q);
    j := Job(ToInt32(pgrp), ToInt32(session), ToInt32(tty), ToInt32(tpgid), ToInt32(priority), ToInt32(nice));
    if j.tty == 0 {
      j := j.(tty := -1);
    }
  }

  class ProcUid {
    var ids: Ids
    var job: Job
    var idsKnown: bool
    var jobKnown: bool

    constructor () { ids, job, idsKnown, jobKnown := Ids(0, 0, 0, 0, 0, 0), NO_JOB, false, false; }

    /** `glibtop_get_proc_uid_s`. */
    method GetProcUid(status: Option<Input>, stat: Option<Input>, broken: bool)
      requires Handle(status) !! Handle(stat)
      modifies this, Handle(status), Handle(stat)
      ensures status == None ==> !idsKnown && ids == Ids(0, 0, 0, 0, 0, 0)
      ensures status.Some? && !broken ==> (ids, idsKnown) == IdsOf(old(TextOf(status.value)))
      ensures idsKnown ==> status.Some? && (ids, true) == IdsOf(old(TextOf(status.value)))
      ensures idsKnown && stat.Some? && !broken ==>
                job == JobOf(old(TextOf(stat.value))) && jobKnown == AfterCmd(old(TextOf(stat.value))).Some?
      ensures jobKnown ==> idsKnown && stat.Some? && job == JobOf(old(TextOf(stat.value)))
      ensures !jobKnown ==> job == NO_JOB
    {
      ids, job, idsKnown, jobKnown := Ids(0, 0, 0, 0, 0, 0), NO_JOB, false, false;
      var buffer := new byte[BUFSIZ];
      var r := TryFileToBuffer(buffer, status, broken);
      if r != READ_OK {
        return;
      }
      var found, complete := ReadIds(buffer);
      ids, idsKnown := found, complete;
      if !complete {
        return;
      }
      r := TryFileToBuffer(buffer, stat, broken);
      if r != READ_OK {
        return;
      }
      var p := ProcStatAfterCmd(buffer);
      if p == None {
        return;
      }
      var j := ReadJob(buffer, p.value);
      job, jobKnown := j, true;
    }
  }

  // ----- a whole record that fits the buffer

  /** Everything that the three readers take from a printed record comes back to them, when the
      record has no `NUL` and fits the buffer. */
  lemma RecordRecovered(pid: nat, name: seq<byte>, state: byte, fs: seq<int>, boot: u64)
    requires NUL !in name && state != NUL && state != ')' && !IsSpace(state) && |fs| >= 19
    requires |StatText(pid, name, state, fs)| < BUFSIZ
    ensures var text := Shown(StatText(pid, name, state, fs), BUFSIZ);
            && StateOf(text).Known? && StateOf(text).cmd == name[..Min(|name|, 39)]
            && StateOf(text).state == (match state
                 case 'R' => 1
                 case 'S' => 2
                 case 'D' => 4
                 case 'Z' => 8
                 case 'T' => 16
                 case 'W' => 32
                 case 'X' => 64
                 case _ => 0)
            && TimesOf(text, boot)
               == InSeconds(Ticks(AsU64(fs[10]), AsU64(fs[11]), AsU64(fs[12]), AsU64(fs[13]), AsU64(fs[17]),
                                  AsU64(fs[18])), boot)
            && JobOf(text)
               == Job(AsInt32(fs[1]), AsInt32(fs[2]), if AsInt32(fs[3]) == 0 then -1 else AsInt32(fs[3]),
                      AsInt32(fs[4]), AsInt32(fs[14]), AsInt32(fs[15]))
  {
    StatShown(pid, name, state, fs);
    StateRecovered(pid, name, state, fs);
    TimesRecovered(pid, name, state, fs, boot);
    JobRecovered(pid, name, state, fs);
  }

  lemma StatShown(pid: nat, name: seq<byte>, state: byte, fs: seq<int>)
    requires NUL !in name && state != NUL
    requires |StatText(pid, name, state, fs)| < BUFSIZ
    ensures Shown(StatText(pid, name, state, fs), BUFSIZ) == StatText(pid, name, state, fs)
  {
    assert NUL !in Dec(pid) && NUL !in Fields(fs);
    ShownWhole(StatText(pid, name, state, fs), BUFSIZ);
  }
}
