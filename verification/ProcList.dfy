/** Lists of process identifiers: filtered, and gathered in blocks or without repeats. */
module ProcList {
  import opened Bytes

  const BLOCK_COUNT: nat := 256

  /** `sizeof (unsigned)`. */
  const WIDTH := 4

  const KERN_PROC_MASK := 15
  const EXCLUDE_IDLE := 0x1000
  const EXCLUDE_SYSTEM := 0x2000
  const EXCLUDE_NOTTY := 0x4000

  /** The argument `which`, taken apart: its flags and its low four bits. */
  datatype Query = Query(excludeIdle: bool, excludeSystem: bool, excludeNoTty: bool, kind: nat, arg: int)

  /** Two's complement bits, so that a negative `which` means what it means in the source. */
  function ToQuery(which: int, arg: int): Query {
    Query(which / EXCLUDE_IDLE % 2 == 1, which / EXCLUDE_SYSTEM % 2 == 1, which / EXCLUDE_NOTTY % 2 == 1,
          which % (KERN_PROC_MASK + 1), arg)
  }

  /** A flag's bit, when it is set. */
  function Flag(given: bool, bit: nat): nat { if given then bit else 0 }

  lemma BitFound(which: int, low: nat, given: bool, high: int, bit: nat)
    requires low < bit && which == low + Flag(given, bit) + 2 * bit * high
    ensures which / bit % 2 == if given then 1 else 0
  {
    QuotientIs(which, 2 * high + Flag(given, 1), bit);
  }

  function FlagBits(idle: bool, system: bool, noTty: bool): nat {
    Flag(idle, 0x1000) + Flag(system, 0x2000) + Flag(noTty, 0x4000)
  }

  lemma FlagsFound(which: int, low: nat, idle: bool, system: bool, noTty: bool, high: int)
    requires low < 0x1000 && which == low + FlagBits(idle, system, noTty) + 0x8000 * high
    ensures which / 0x1000 % 2 == if idle then 1 else 0
    ensures which / 0x2000 % 2 == if system then 1 else 0
    ensures which / 0x4000 % 2 == if noTty then 1 else 0
  {
    var s, t := Flag(system, 1), Flag(noTty, 1);
    BitFound(which, low, idle, s + 2 * t + 4 * high, 0x1000);
    BitFound(which, low + Flag(idle, 0x1000), system, t + 2 * high, 0x2000);
    BitFound(which, low + Flag(idle, 0x1000) + Flag(system, 0x2000), noTty, high, 0x4000);
  }

  lemma KindFound(which: int, kind: nat, rest: int)
    requires kind < 16 && which == kind + 16 * rest
    ensures which % 16 == kind
  {
  }

  /** The flags and the kind are found in any `which`, whatever its other bits. */
  lemma QueryDecoded(idle: bool, system: bool, noTty: bool, kind: nat, middle: nat, high: int, arg: int)
    requires kind < 16 && middle < 0x100
    ensures ToQuery(kind + 0x10 * middle + FlagBits(idle, system, noTty) + 0x8000 * high, arg)
         == Query(idle, system, noTty, kind, arg)
  {
    var which := kind + 0x10 * middle + FlagBits(idle, system, noTty) + 0x8000 * high;
    FlagsFound(which, kind + 0x10 * middle, idle, system, noTty, high);
    var rest := middle + Flag(idle, 0x100) + Flag(system, 0x200) + Flag(noTty, 0x400) + 0x800 * high;
    KindFound(which, kind, rest);
  }

  /** What the documented kinds ask for, of a process with these numbers. */
  ghost predicate Matches(q: Query, pid: int, pgrp: int, session: int, tty: int, fifth: int, sixth: int) {
    && (q.kind == 1 ==> pid == q.arg) && (q.kind == 2 ==> pgrp == q.arg) && (q.kind == 3 ==> session == q.arg)
    && (q.kind == 4 ==> tty == q.arg) && (q.kind == 5 ==> fifth == q.arg) && (q.kind == 6 ==> sixth == q.arg)
  }

  /** What the callers get: nothing, or a list with its `number`, `size` and `total` fields. */
  datatype Pids = NoPids | Pids(list: seq<int>, number: nat, size: nat, total: nat)

  // ----- AIX: one process at a time, gathered in blocks

  datatype AixProc = AixProc(pid: int, idle: bool, kernel: bool, tty: bool,
                             pgrp: int, sid: int, ttyd: int, uid: int, ruid: int)

  predicate Passes(q: Query, p: AixProc) {
    && !(q.excludeIdle && p.idle)
    && !(q.excludeSystem && p.kernel)
    && !(q.excludeNoTty && !p.tty)
    && match q.kind
       case 1 => p.pid == q.arg
       case 2 => p.pgrp == q.arg
       case 3 => p.sid == q.arg
       case 4 => p.ttyd == q.arg
       case 5 => p.uid == q.arg
       case 6 => p.ruid == q.arg
       case _ => true
  }

  /** The documented kinds, and the three exclusions. */
  lemma PassesIff(q: Query, p: AixProc)
    ensures Passes(q, p) <==>
              && Matches(q, p.pid, p.pgrp, p.sid, p.ttyd, p.uid, p.ruid)
              && (q.excludeIdle ==> !p.idle) && (q.excludeSystem ==> !p.kernel) && (q.excludeNoTty ==> p.tty)
  {
  }

  /** The identifiers of the processes that pass, in order. */
  ghost function Passing(q: Query, ps: seq<AixProc>): seq<int> {
    if ps == [] then []
    else
      var p := ps[|ps| - 1];
      Passing(q, ps[..|ps| - 1]) + if Passes(q, p) then [p.pid] else []
  }

  /** Where they come from. */
  ghost function AixOrigins(q: Query, ps: seq<AixProc>): (o: seq<nat>)
    ensures |o| == |Passing(q, ps)|
    ensures forall k :: 0 <= k < |o| ==> o[k] < |ps| && Passes(q, ps[o[k]]) && Passing(q, ps)[k] == ps[o[k]].pid
    ensures forall k, l :: 0 <= k < l < |o| ==> o[k] < o[l]
  {
    if ps == [] then []
    else AixOrigins(q, ps[..|ps| - 1]) + if Passes(q, ps[|ps| - 1]) then [|ps| - 1] else []
  }

  lemma {:induction false} AixOriginsComplete(q: Query, ps: seq<AixProc>, i: nat)
    requires i < |ps| && Passes(q, ps[i])
    ensures i in AixOrigins(q, ps)
  {
    if i < |ps| - 1 { AixOriginsComplete(q, ps[..|ps| - 1], i); }
  }

  /** `g_realloc`, for a size in bytes. */
  method Realloc(chain: array<int>, newSize: nat) returns (r: array<int>)
    requires newSize % WIDTH == 0 && newSize >= WIDTH * chain.Length
    ensures fresh(r) && WIDTH * r.Length == newSize && r[..chain.Length] == chain[..]
  {
    r := new int[newSize / WIDTH](i reads chain => if 0 <= i < chain.Length then chain[i] else 0);
  }

  /** `memcpy (chain + offset, pids, n * sizeof (unsigned))`. */
  method Memcpy(chain: array<int>, offset: nat, pids: array<int>, n: nat)
    requires offset + n <= chain.Length && n <= pids.Length && chain != pids
    modifies chain
    ensures chain[..offset] == old(chain[..offset]) && chain[offset..offset + n] == pids[..n]
  {
    forall i | 0 <= i < n {
      chain[offset + i] := pids[i];
    }
  }

  /** Grow the chain by the first `n` identifiers of the block. */
  method Flush(chain: array<int>, pids: array<int>, n: nat) returns (r: array<int>)
    requires n <= pids.Length
    ensures fresh(r) && r[..] == chain[..] + pids[..n]
  {
    r := Realloc(chain, WIDTH * chain.Length + n * WIDTH);
    Memcpy(r, chain.Length, pids, n);
    assert r[..] == r[..chain.Length] + r[chain.Length..chain.Length + n];
  }

  /** `glibtop_get_proclist_s` of AIX, on the processes that `getprocs` returns. */
  method GetProclistAix(procs: seq<AixProc>, which: int, arg: int) returns (r: Pids)
    ensures var list := Passing(ToQuery(which, arg), procs);
            r == if list == [] then NoPids else Pids(list, |list|, WIDTH, WIDTH * |list|)
  {
    var q := ToQuery(which, arg);
    var count, total := 0, 0;
    var pids := new int[BLOCK_COUNT](_ => 0);
    var chain := new int[0];
    var pidsSize, pidsOffset := 0, 0;
    for i := 0 to |procs|
      invariant count <= BLOCK_COUNT && (count == 0 ==> total == 0)
      invariant pidsSize == WIDTH * pidsOffset && chain.Length == pidsOffset && pids.Length == BLOCK_COUNT
      invariant fresh(pids) && fresh(chain) && chain != pids
      invariant Passing(q, procs[..i]) == chain[..] + pids[..count] && total == |Passing(q, procs[..i])|
    {
      assert procs[..i + 1][..i] == procs[..i];
      if !Passes(q, procs[i]) {
        continue;
      }
      if count >= BLOCK_COUNT {
        chain := Flush(chain, pids, BLOCK_COUNT);
        pidsSize, pidsOffset, count := pidsSize + WIDTH * BLOCK_COUNT, pidsOffset + BLOCK_COUNT, 0;
        assert pids[..0] == [];
      }
      ghost var before := pids[..count];
      pids[count] := procs[i].pid;
      assert pids[..count + 1] == before + [procs[i].pid];
      count, total := count + 1, total + 1;
    }
    assert procs[..|procs|] == procs;
    if count == 0 {
      return NoPids;
    }
    chain := Flush(chain, pids, count);
    r := Pids(chain[..], total, WIDTH, total * WIDTH);
  }

  // ----- FreeBSD: one record per thread, the threads of a process together

  datatype Record = Record(pid: int, uid: int, ruid: int, pgid: int, sid: int, tdev: int, ppid: int, comm: string,
                           stopped: bool)   // the state is known and is not "running"

  /** Equality after both sides have been cut to `bits` bits by a cast. */
  predicate Same(a: int, b: int, modulus: nat)
    requires modulus > 0
  {
    a % modulus == b % modulus
  }

  /** The exclusions, whatever the kind of the query. */
  predicate Lets(q: Query, p: Record) {
    && !(q.excludeNoTty && Same(p.tdev, NO_DEVICE, TWO64))
    && !(q.excludeIdle && (p.stopped || (p.ppid == 0 && p.comm == "idle")))
    && !(q.excludeSystem && p.ruid == 0)
  }

  /** Both user kinds look at the real user, and every kind but these takes all records. */
  predicate Accepts(q: Query, p: Record) {
    && (match q.kind
        case 1 => Same(q.arg, p.pid, TWO32)
        case 2 => Same(q.arg, p.pgid, TWO32)
        case 3 => Same(q.arg, p.sid, TWO32)
        case 4 => Same(q.arg, p.tdev, TWO64)
        case 5 => Same(q.arg, p.ruid, TWO32)
        case 6 => Same(q.arg, p.ruid, TWO32)
        case _ => true)
    && Lets(q, p)
  }

  /** Numbers that a signed 32-bit, an unsigned 32-bit and an unsigned 64-bit field hold. */
  predicate Signed32(x: int) { 0 - TWO31 <= x < TWO31 }

  predicate Unsigned32(x: int) { 0 <= x < TWO32 }

  predicate Unsigned64(x: int) { 0 <= x < TWO64 }

  lemma SameInRange(a: int, b: int)
    ensures Signed32(a) && Signed32(b) ==> (Same(a, b, TWO32) <==> a == b)
    ensures Unsigned32(a) && Unsigned32(b) ==> (Same(a, b, TWO32) <==> a == b)
    ensures Unsigned64(a) && Unsigned64(b) ==> (Same(a, b, TWO64) <==> a == b)
  {
  }

  /** The argument is one that the field which it is compared with can hold. */
  ghost predicate ArgFits(q: Query) {
    && (q.kind in {1, 2, 3} ==> Signed32(q.arg))
    && (q.kind == 4 ==> Unsigned64(q.arg)) && (q.kind in {5, 6} ==> Unsigned32(q.arg))
  }

  /** The kinds on numbers that fit their fields, and the three exclusions: both user kinds look at the
      real user. */
  lemma AcceptsIff(q: Query, p: Record)
    requires ArgFits(q) && Signed32(p.pid) && Signed32(p.pgid) && Signed32(p.sid) && Unsigned64(p.tdev)
    requires Unsigned32(p.ruid)
    ensures Accepts(q, p) <==>
              && Matches(q, p.pid, p.pgid, p.sid, p.tdev, p.ruid, p.ruid)
              && (q.excludeIdle ==> !p.stopped && !(p.ppid == 0 && p.comm == "idle"))
              && (q.excludeSystem ==> p.ruid != 0)
              && (q.excludeNoTty ==> p.tdev != 0xffff_ffff_ffff_ffff)
  {
    SameInRange(q.arg, p.pid);
    SameInRange(q.arg, p.pgid);
    SameInRange(q.arg, p.sid);
    SameInRange(q.arg, p.tdev);
    SameInRange(q.arg, p.ruid);
    SameInRange(p.tdev, NO_DEVICE);
  }

  function Filter(q: Query): Record -> bool { (p: Record) => Accepts(q, p) }

  /** Record `i` starts a run of records of one process. */
  predicate Starts(rs: seq<Record>, i: nat)
    requires i < |rs|
  {
    i == 0 || rs[i - 1].pid != rs[i].pid
  }

  predicate Picks(accept: Record -> bool, rs: seq<Record>, i: nat)
    requires i < |rs|
  {
    Starts(rs, i) && accept(rs[i])
  }

  ghost function Listed(accept: Record -> bool, rs: seq<Record>, n: nat): seq<int>
    requires n <= |rs|
  {
    if n == 0 then []
    else Listed(accept, rs, n - 1) + if Picks(accept, rs, n - 1) then [rs[n - 1].pid] else []
  }

  /** `glibtop_get_proclist_p` of FreeBSD. */
  method GetProclistBsd(pinfo: seq<Record>, which: int, arg: int) returns (r: Pids)
    ensures var list := Listed(Filter(ToQuery(which, arg)), pinfo, |pinfo|);
            r == Pids(list, |list|, WIDTH, |list| * WIDTH)
  {
    var q := ToQuery(which, arg);
    var pids, prev := [], 0;
    for i := 0 to |pinfo|
      invariant pids == Listed(Filter(q), pinfo, i) && (i > 0 ==> prev == pinfo[i - 1].pid)
    {
      var pid := pinfo[i].pid;
      if i > 0 && pid == prev {
        continue;
      }
      prev := pid;
      if Accepts(q, pinfo[i]) {
        pids := pids + [pid];
      }
    }
    r := Pids(pids, |pids|, WIDTH, |pids| * WIDTH);
  }

  // ----- what the list means when the records of a process are together

  ghost predicate Grouped(rs: seq<Record>) {
    forall i, j, k :: 0 <= i < j < k < |rs| && rs[i].pid == rs[k].pid ==> rs[j].pid == rs[i].pid
  }

  /** The first record of process `pid`. */
  ghost function FirstOf(rs: seq<Record>, pid: int): (i: nat)
    requires exists r :: r in rs && r.pid == pid
    ensures i < |rs| && rs[i].pid == pid && forall j :: 0 <= j < i ==> rs[j].pid != pid
  {
    if rs[0].pid == pid then 0 else 1 + FirstOf(rs[1..], pid)
  }

  /** Where each listed identifier comes from. */
  ghost function Origins(accept: Record -> bool, rs: seq<Record>, n: nat): (o: seq<nat>)
    requires n <= |rs|
    ensures |o| == |Listed(accept, rs, n)|
    ensures forall k :: 0 <= k < |o| ==> o[k] < n && Picks(accept, rs, o[k]) && Listed(accept, rs, n)[k] == rs[o[k]].pid
    ensures forall k, l :: 0 <= k < l < |o| ==> o[k] < o[l]
  {
    if n == 0 then [] else Origins(accept, rs, n - 1) + if Picks(accept, rs, n - 1) then [n - 1] else []
  }

  lemma {:induction false} OriginsComplete(accept: Record -> bool, rs: seq<Record>, n: nat, i: nat)
    requires i < n <= |rs| && Picks(accept, rs, i)
    ensures i in Origins(accept, rs, n)
  {
    if i < n - 1 { OriginsComplete(accept, rs, n - 1, i); }
  }

  lemma StartIsFirst(rs: seq<Record>, i: nat)
    requires Grouped(rs) && i < |rs|
    ensures rs[i] in rs && (Starts(rs, i) <==> i == FirstOf(rs, rs[i].pid))
  {
    var f := FirstOf(rs, rs[i].pid);
    if f < i {
      assert rs[f].pid == rs[i].pid && (f < i - 1 ==> rs[i - 1].pid == rs[f].pid);
    }
  }

  lemma OriginsAreFirst(accept: Record -> bool, rs: seq<Record>, k: nat)
    requires Grouped(rs) && k < |Listed(accept, rs, |rs|)|
    ensures var pid := Listed(accept, rs, |rs|)[k];
            (exists r :: r in rs && r.pid == pid) && FirstOf(rs, pid) == Origins(accept, rs, |rs|)[k]
  {
    StartIsFirst(rs, Origins(accept, rs, |rs|)[k]);
  }

  /** Then a process is listed exactly when its first record passes ... */
  lemma ListedIff(accept: Record -> bool, rs: seq<Record>, pid: int)
    requires Grouped(rs)
    ensures pid in Listed(accept, rs, |rs|) <==> (exists r :: r in rs && r.pid == pid) && accept(rs[FirstOf(rs, pid)])
  {
    var list, o := Listed(accept, rs, |rs|), Origins(accept, rs, |rs|);
    if exists r :: r in rs && r.pid == pid {
      var f := FirstOf(rs, pid);
      StartIsFirst(rs, f);
      if accept(rs[f]) {
        OriginsComplete(accept, rs, |rs|, f);
        var k :| 0 <= k < |o| && o[k] == f;
        assert list[k] == pid;
      }
    }
    if pid in list {
      var k :| 0 <= k < |list| && list[k] == pid;
      OriginsAreFirst(accept, rs, k);
    }
  }

  /** ... and only once, in the order in which the processes first appear. */
  lemma ListedInOrder(accept: Record -> bool, rs: seq<Record>, k: nat, l: nat)
    requires Grouped(rs) && k < l < |Listed(accept, rs, |rs|)|
    ensures var list := Listed(accept, rs, |rs|);
            && list[k] != list[l]
            && (exists r :: r in rs && r.pid == list[k]) && (exists r :: r in rs && r.pid == list[l])
            && FirstOf(rs, list[k]) < FirstOf(rs, list[l])
  {
    OriginsAreFirst(accept, rs, k);
    OriginsAreFirst(accept, rs, l);
  }

  // ----- when the list has no repeats

  ghost predicate NoRepeat(list: seq<int>) { forall k, l :: 0 <= k < l < |list| ==> list[k] != list[l] }

  /** No process has two runs whose first records pass. */
  ghost predicate PickedOnce(accept: Record -> bool, rs: seq<Record>) {
    forall i, j :: 0 <= i < j < |rs| && Picks(accept, rs, i) && Picks(accept, rs, j) ==> rs[i].pid != rs[j].pid
  }

  lemma ListedFrom(accept: Record -> bool, rs: seq<Record>, i: nat) returns (k: nat)
    requires i < |rs| && Picks(accept, rs, i)
    ensures k < |Origins(accept, rs, |rs|)| && Origins(accept, rs, |rs|)[k] == i
    ensures Listed(accept, rs, |rs|)[k] == rs[i].pid
  {
    OriginsComplete(accept, rs, |rs|, i);
    k :| 0 <= k < |Origins(accept, rs, |rs|)| && Origins(accept, rs, |rs|)[k] == i;
  }

  lemma TwoRunsRepeat(accept: Record -> bool, rs: seq<Record>, i: nat, j: nat)
    requires i < j < |rs| && Picks(accept, rs, i) && Picks(accept, rs, j) && rs[i].pid == rs[j].pid
    ensures !NoRepeat(Listed(accept, rs, |rs|))
  {
    var k := ListedFrom(accept, rs, i);
    var l := ListedFrom(accept, rs, j);
    assert k != l;
  }

  /** Whatever the filter and the records: no process is listed twice exactly when none has two runs
      whose first records pass. */
  lemma NoRepeatIff(accept: Record -> bool, rs: seq<Record>)
    ensures NoRepeat(Listed(accept, rs, |rs|)) <==> PickedOnce(accept, rs)
  {
    assert |Origins(accept, rs, |rs|)| == |Listed(accept, rs, |rs|)|;
    if !PickedOnce(accept, rs) {
      var i, j :| 0 <= i < j < |rs| && Picks(accept, rs, i) && Picks(accept, rs, j) && rs[i].pid == rs[j].pid;
      TwoRunsRepeat(accept, rs, i, j);
    }
  }

  /** The run that record `i` is in. */
  lemma {:induction false} RunOf(rs: seq<Record>, i: nat) returns (s: nat)
    requires i < |rs|
    ensures s <= i && Starts(rs, s) && forall j :: s <= j <= i ==> rs[j].pid == rs[i].pid
    decreases i
  {
    s := i;
    if !Starts(rs, i) {
      s := RunOf(rs, i - 1);
    }
  }

  /** A filter that takes every record lists no process twice exactly when the records of each
      process are together. */
  lemma NoRepeatIffGrouped(accept: Record -> bool, rs: seq<Record>)
    requires forall r :: r in rs ==> accept(r)
    ensures NoRepeat(Listed(accept, rs, |rs|)) <==> Grouped(rs)
  {
    NoRepeatIff(accept, rs);
    forall i, j | Grouped(rs) && 0 <= i < j < |rs| && Picks(accept, rs, i) && Picks(accept, rs, j)
      ensures rs[i].pid != rs[j].pid
    {
      StartIsFirst(rs, i);
      StartIsFirst(rs, j);
    }
    forall i, j, k | PickedOnce(accept, rs) && 0 <= i < j < k < |rs| && rs[i].pid == rs[k].pid
      ensures rs[j].pid == rs[i].pid
    {
      var s := RunOf(rs, i);
      var t := RunOf(rs, k);
      assert rs[s] in rs && rs[t] in rs;
      assert Picks(accept, rs, s) && Picks(accept, rs, t);
    }
  }

  function Sample(pid: int, uid: int, ruid: int): Record { Record(pid, uid, ruid, 0, 0, 0, 1, "a", false) }

  /** Records that are apart, and a process that is listed twice. */
  lemma UngroupedMayRepeat()
    ensures var a, b := Sample(1, 0, 0), Sample(2, 0, 0);
            Listed(Filter(Query(false, false, false, 0, 0)), [a, b, a], 3) == [1, 2, 1]
  {
    var a, b := Sample(1, 0, 0), Sample(2, 0, 0);
    var accept := Filter(Query(false, false, false, 0, 0));
    assert Listed(accept, [a, b, a], 1) == [1];
    assert Listed(accept, [a, b, a], 2) == [1, 2];
  }

  // ----- the query for an effective user

  const BY_USER: nat := 5

  /** A query for effective user `arg` with the exclusions of `q`. */
  function ByUser(q: Query, arg: int): Query { q.(kind := BY_USER, arg := arg) }

  /** What such a query is documented to take. */
  function Documented(q: Query, arg: int): Record -> bool {
    (p: Record) => Same(arg, p.uid, TWO32) && Lets(q, p)
  }

  /** Real and effective user are the same wherever a run starts with a record that is let through. */
  ghost predicate UsersAgree(q: Query, rs: seq<Record>) {
    forall i :: 0 <= i < |rs| && Starts(rs, i) && Lets(q, rs[i]) ==> Same(rs[i].ruid, rs[i].uid, TWO32)
  }

  lemma {:induction false} SamePicks(f: Record -> bool, g: Record -> bool, rs: seq<Record>, n: nat)
    requires n <= |rs| && forall i :: 0 <= i < n ==> (Picks(f, rs, i) <==> Picks(g, rs, i))
    ensures Listed(f, rs, n) == Listed(g, rs, n) && Origins(f, rs, n) == Origins(g, rs, n)
  {
    if n > 0 { SamePicks(f, g, rs, n - 1); }
  }

  lemma AgreeingUsers(q: Query, arg: int, rs: seq<Record>)
    requires UsersAgree(q, rs)
    ensures var f, g := Filter(ByUser(q, arg)), Documented(q, arg);
            Listed(f, rs, |rs|) == Listed(g, rs, |rs|) && Origins(f, rs, |rs|) == Origins(g, rs, |rs|)
  {
    SamePicks(Filter(ByUser(q, arg)), Documented(q, arg), rs, |rs|);
  }

  /** Equal picks mean that what one filter picks the other one does. */
  lemma EqualOriginsAgree(f: Record -> bool, g: Record -> bool, rs: seq<Record>, i: nat)
    requires i < |rs| && Picks(f, rs, i) && Origins(f, rs, |rs|) == Origins(g, rs, |rs|)
    ensures g(rs[i])
  {
    var k := ListedFrom(f, rs, i);
    assert Picks(g, rs, Origins(g, rs, |rs|)[k]);
  }

  /** One user is enough to tell. */
  lemma UserPicked(q: Query, rs: seq<Record>, i: nat)
    requires i < |rs| && Starts(rs, i) && Lets(q, rs[i])
    requires Origins(Filter(ByUser(q, rs[i].ruid)), rs, |rs|) == Origins(Documented(q, rs[i].ruid), rs, |rs|)
    ensures Same(rs[i].ruid, rs[i].uid, TWO32)
  {
    EqualOriginsAgree(Filter(ByUser(q, rs[i].ruid)), Documented(q, rs[i].ruid), rs, i);
  }

  /** Equal lists mean filters that agree where a process starts. */
  lemma EqualListsAgree(f: Record -> bool, g: Record -> bool, rs: seq<Record>, i: nat)
    requires Grouped(rs) && i < |rs| && Starts(rs, i) && Listed(f, rs, |rs|) == Listed(g, rs, |rs|)
    ensures f(rs[i]) == g(rs[i])
  {
    StartIsFirst(rs, i);
    ListedIff(f, rs, rs[i].pid);
    ListedIff(g, rs, rs[i].pid);
  }

  lemma UserListed(q: Query, rs: seq<Record>, i: nat)
    requires Grouped(rs) && i < |rs| && Starts(rs, i) && Lets(q, rs[i])
    requires Listed(Filter(ByUser(q, rs[i].ruid)), rs, |rs|) == Listed(Documented(q, rs[i].ruid), rs, |rs|)
    ensures Same(rs[i].ruid, rs[i].uid, TWO32)
  {
    EqualListsAgree(Filter(ByUser(q, rs[i].ruid)), Documented(q, rs[i].ruid), rs, i);
  }

  ghost predicate PicksAgree(q: Query, rs: seq<Record>, arg: int) {
    Origins(Filter(ByUser(q, arg)), rs, |rs|) == Origins(Documented(q, arg), rs, |rs|)
  }

  ghost predicate ListsAgree(q: Query, rs: seq<Record>, arg: int) {
    Listed(Filter(ByUser(q, arg)), rs, |rs|) == Listed(Documented(q, arg), rs, |rs|)
  }

  /** For every user the records picked are the documented ones exactly when the users agree. */
  lemma EffectiveUserIff(q: Query, rs: seq<Record>)
    ensures (forall arg :: PicksAgree(q, rs, arg)) <==> UsersAgree(q, rs)
  {
    if UsersAgree(q, rs) {
      forall arg ensures PicksAgree(q, rs, arg) { AgreeingUsers(q, arg, rs); }
    } else if forall arg :: PicksAgree(q, rs, arg) {
      var i :| 0 <= i < |rs| && Starts(rs, i) && Lets(q, rs[i]) && !Same(rs[i].ruid, rs[i].uid, TWO32);
      assert PicksAgree(q, rs, rs[i].ruid);
      UserPicked(q, rs, i);
    }
  }

  /** With the records of each process together, the same holds of the lists themselves. */
  lemma EffectiveListIff(q: Query, rs: seq<Record>)
    requires Grouped(rs)
    ensures (forall arg :: ListsAgree(q, rs, arg)) <==> UsersAgree(q, rs)
  {
    if UsersAgree(q, rs) {
      forall arg ensures ListsAgree(q, rs, arg) { AgreeingUsers(q, arg, rs); }
    } else if forall arg :: ListsAgree(q, rs, arg) {
      var i :| 0 <= i < |rs| && Starts(rs, i) && Lets(q, rs[i]) && !Same(rs[i].ruid, rs[i].uid, TWO32);
      assert ListsAgree(q, rs, rs[i].ruid);
      UserListed(q, rs, i);
    }
  }

  /** A process with two users is listed under the real one. */
  lemma WrongUserListed()
    ensures var q, rs := Query(false, false, false, 0, 0), [Sample(1, 7, 8)];
            && Listed(Filter(ByUser(q, 7)), rs, 1) == [] && Listed(Documented(q, 7), rs, 1) == [1]
            && Listed(Filter(ByUser(q, 8)), rs, 1) == [1] && Listed(Documented(q, 8), rs, 1) == []
  {
  }

  /** When the records of a process are apart, the lists may agree although the users do not: each
      of two runs stands in for the other. */
  lemma ApartMayAgree(arg: int)
    ensures var q, rs := Query(false, false, false, 0, 0), [Sample(1, 7, 8), Sample(2, 9, 9), Sample(1, 8, 7)];
            !UsersAgree(q, rs) && ListsAgree(q, rs, arg)
  {
    var q, rs := Query(false, false, false, 0, 0), [Sample(1, 7, 8), Sample(2, 9, 9), Sample(1, 8, 7)];
    var f, g := Filter(ByUser(q, arg)), Documented(q, arg);
    assert Starts(rs, 0) && Lets(q, rs[0]) && !Same(rs[0].ruid, rs[0].uid, TWO32);
    assert Listed(f, rs, 1) == if Same(arg, 8, TWO32) then [1] else [];
    assert Listed(g, rs, 1) == if Same(arg, 7, TWO32) then [1] else [];
    assert Listed(f, rs, 2) == Listed(f, rs, 1) + if Same(arg, 9, TWO32) then [2] else [];
    assert Listed(g, rs, 2) == Listed(g, rs, 1) + if Same(arg, 9, TWO32) then [2] else [];
  }
}
