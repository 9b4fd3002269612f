/** The list of mounted file systems: read into a linked list, filtered against a sorted table of
    file system types, and freed while it is copied out. */
module MountList {
  import opened Bytes

  // ----- strcmp

  function Strcmp(a: string, b: string): int {
    if a == [] then (if b == [] then 0 else -1)
    else if b == [] then 1
    else if a[0] < b[0] then -1
    else if b[0] < a[0] then 1
    else Strcmp(a[1..], b[1..])
  }

  lemma {:induction false} StrcmpEqual(a: string, b: string)
    ensures Strcmp(a, b) == 0 <==> a == b
    ensures Strcmp(a, b) == -Strcmp(b, a)
  {
    if a != [] && b != [] && a[0] == b[0] {
      StrcmpEqual(a[1..], b[1..]);
      assert a == [a[0]] + a[1..] && b == [b[0]] + b[1..];
    }
  }

  lemma {:induction false} StrcmpTransitive(a: string, b: string, c: string)
    requires Strcmp(a, b) <= 0 && Strcmp(b, c) < 0
    ensures Strcmp(a, c) < 0
  {
    if a != [] && b != [] && c != [] && a[0] == b[0] == c[0] {
      StrcmpTransitive(a[1..], b[1..], c[1..]);
    }
  }

  ghost predicate Sorted(t: seq<string>) {
    forall i, j :: 0 <= i < j < |t| ==> Strcmp(t[i], t[j]) < 0
  }

  lemma {:induction false} SortedIfNeighbours(t: seq<string>)
    requires forall i :: 0 < i < |t| ==> Strcmp(t[i - 1], t[i]) < 0
    ensures Sorted(t)
    decreases |t|
  {
    if |t| > 1 {
      var init, last := t[..|t| - 1], |t| - 1;
      SortedIfNeighbours(init);
      forall i | 0 <= i < last
        ensures Strcmp(t[i], t[last]) < 0
      {
        if i < last - 1 {
          assert Strcmp(init[i], init[last - 1]) < 0;
          StrcmpTransitive(t[i], t[last - 1], t[last]);
        }
      }
      assert forall i, j :: 0 <= i < j < last ==> t[i] == init[i] && t[j] == init[j];
    }
  }

  /** `bsearch` with `strcmp`: it finds exactly the members of a sorted table. */
  method Bsearch(key: string, base: seq<string>) returns (found: bool)
    requires Sorted(base)
    ensures found <==> key in base
  {
    var lo, hi := 0, |base|;
    while lo < hi
      invariant 0 <= lo <= hi <= |base|
      invariant forall i :: 0 <= i < lo ==> base[i] != key
      invariant forall i :: hi <= i < |base| ==> base[i] != key
    {
      var mid := (lo + hi) / 2;
      var c := Strcmp(key, base[mid]);
      Narrowed(key, base, mid);
      if c == 0 {
        return true;
      } else if c < 0 {
        hi := mid;
      } else {
        lo := mid + 1;
      }
    }
    return false;
  }

  lemma Narrowed(key: string, base: seq<string>, mid: nat)
    requires Sorted(base) && mid < |base|
    ensures Strcmp(key, base[mid]) == 0 ==> key == base[mid]
    ensures Strcmp(key, base[mid]) < 0 ==> forall i :: mid <= i < |base| ==> base[i] != key
    ensures Strcmp(key, base[mid]) > 0 ==> forall i :: 0 <= i <= mid ==> base[i] != key
  {
    StrcmpEqual(key, base[mid]);
    forall i | 0 <= i < |base| && base[i] == key && i != mid
      ensures if i < mid then Strcmp(key, base[mid]) < 0 else Strcmp(key, base[mid]) > 0
    {
      StrcmpEqual(base[mid], base[i]);
    }
  }

  // ----- the table of ignored types

  const IGNORED: seq<string> := [
    "autofs", "binfmt_misc", "ctfs", "devfs", "devpts", "fusectl", "linprocfs", "mfs", "mntfs", "mqueue", "none",
    "nsfd",
    "objfs", "openpromfs", "proc", "procfs", "rpc_pipefs", "securityfs", "supermount", "sysfs", "tmpfs", "unknown",
    "usbdevfs", "usbfs"
  ]

  lemma {:induction false} CommonStart(p: string, a: string, b: string)
    ensures Strcmp(p + a, p + b) == Strcmp(a, b)
  {
    if p == [] {
      assert p + a == a && p + b == b;
    } else {
      assert (p + a)[1..] == p[1..] + a && (p + b)[1..] == p[1..] + b;
      CommonStart(p[1..], a, b);
    }
  }

  lemma IgnoredFront()
    ensures forall i :: 0 < i < 9 ==> Strcmp(IGNORED[i - 1], IGNORED[i]) < 0
  {
    CommonStart("dev", "fs", "pts");
  }

  lemma IgnoredMiddle()
    ensures forall i :: 9 <= i < 17 ==> Strcmp(IGNORED[i - 1], IGNORED[i]) < 0
  {
    CommonStart("proc", "", "fs");
  }

  lemma IgnoredBack()
    ensures forall i :: 17 <= i < |IGNORED| ==> Strcmp(IGNORED[i - 1], IGNORED[i]) < 0
  {
    CommonStart("usb", "devfs", "fs");
  }

  /** The table is in the order that the search needs. */
  lemma IgnoredIsSorted()
    ensures Sorted(IGNORED)
  {
    IgnoredFront();
    IgnoredMiddle();
    IgnoredBack();
    SortedIfNeighbours(IGNORED);
  }

  // ----- the mount table

  /** A line of the mount table; `dev` is the value of its `dev=` option. */
  datatype Mnt = Mnt(fsname: string, dir: string, fstype: string, dev: Option<nat>)

  class MountEntry {
    var devname: string
    var mountdir: string
    var fstype: string
    var dev: nat
    var next: MountEntry?
    ghost var live: bool

    constructor Dummy()
      ensures next == null && live
    {
      devname, mountdir, fstype, dev, next, live := "", "", "", 0, null, true;
    }

    constructor Of(m: Mnt)
      ensures Describes(m) && next == null && live
    {
      devname, mountdir, fstype, next, live := m.fsname, m.dir, m.fstype, null, true;
      dev := if m.dev.Some? then m.dev.value else NO_DEVICE;
    }

    ghost predicate Describes(m: Mnt)
      reads this
    {
      && devname == m.fsname && mountdir == m.dir && fstype == m.fstype
      && dev == if m.dev.Some? then m.dev.value else NO_DEVICE
    }

    /** `g_free`: never twice. */
    method Free()
      requires live
      modifies this`live
      ensures !live
    {
      live := false;
    }
  }

  /** `c` is an acyclic list of allocated entries; it ends with `null`. */
  ghost predicate List(c: seq<MountEntry>)
    reads set n | n in c
  {
    && (forall i :: 0 <= i < |c| ==> c[i].live)
    && (forall i :: 0 <= i < |c| - 1 ==> c[i].next == c[i + 1])
    && (c != [] ==> c[|c| - 1].next == null)
    && (forall i, j :: 0 <= i < j < |c| ==> c[i] != c[j])
  }

  ghost predicate Holds(c: seq<MountEntry>, table: seq<Mnt>)
    reads set n | n in c
  {
    |c| == |table| && forall i :: 0 <= i < |c| ==> c[i].Describes(table[i])
  }

  /** `read_filesystem_list`: appended at the tail behind a dummy head, so that the order stays. */
  method ReadFilesystemList(table: seq<Mnt>) returns (list: MountEntry?, ghost c: seq<MountEntry>)
    ensures fresh(set n | n in c) && List(c) && Holds(c, table)
    ensures list == if c == [] then null else c[0]
  {
    var dummy := new MountEntry.Dummy();
    var mtail := dummy;
    ghost var all := [dummy];
    for i := 0 to |table|
      invariant |all| == i + 1 && all[0] == dummy && mtail == all[i] && fresh(set n | n in all)
      invariant List(all)
      invariant forall j :: 0 <= j < i ==> all[j + 1].Describes(table[j])
    {
      var me := new MountEntry.Of(table[i]);
      mtail.next := me;
      mtail := me;
      all := all + [me];
    }
    c := all[1..];
    assert forall i :: 0 <= i < |c| ==> c[i] == all[i + 1];
    list := dummy.next;
    dummy.Free();
  }

  // ----- the filtered copy

  const MOUNTENTRY_LEN: nat := 79

  /** `sizeof (glibtop_mountentry)`: a device number and three buffers. */
  const MOUNTENTRY_SIZE: nat := 8 + 3 * (MOUNTENTRY_LEN + 1)

  datatype Entry = Entry(devname: string, mountdir: string, fstype: string, dev: nat)

  datatype Mounts = Mounts(entries: seq<Entry>, number: nat, total: nat)

  /** `g_strlcpy` into a buffer of `MOUNTENTRY_LEN + 1`. */
  function CutString(s: string): string { if |s| <= MOUNTENTRY_LEN then s else s[..MOUNTENTRY_LEN] }

  function ToEntry(m: Mnt): Entry {
    Entry(CutString(m.fsname), CutString(m.dir), CutString(m.fstype), if m.dev.Some? then m.dev.value else NO_DEVICE)
  }

  /** The text cut to a field of 79 characters. */
  ghost predicate CutTo79(field: string, s: string) { field <= s && |field| == if |s| < 79 then |s| else 79 }

  /** The fields of a shown line. */
  ghost predicate Copies(e: Entry, m: Mnt) {
    && CutTo79(e.devname, m.fsname) && CutTo79(e.mountdir, m.dir) && CutTo79(e.fstype, m.fstype)
    && (match m.dev case Some(d) => e.dev == d case None => e.dev == 0xffff_ffff_ffff_ffff)
  }

  predicate Keeps(m: Mnt, allFs: bool) { allFs || m.fstype !in IGNORED }

  ghost function Shown(table: seq<Mnt>, allFs: bool): seq<Entry> {
    if table == [] then []
    else
      var m := table[|table| - 1];
      Shown(table[..|table| - 1], allFs) + if Keeps(m, allFs) then [ToEntry(m)] else []
  }

  /** The filter of the copying loop. */
  method CopyEntry(cur: MountEntry, ghost m: Mnt, allFs: bool) returns (shown: seq<Entry>)
    requires cur.Describes(m)
    ensures shown == if Keeps(m, allFs) then [ToEntry(m)] else []
  {
    if !allFs {
      IgnoredIsSorted();
      var ignored := Bsearch(cur.fstype, IGNORED);
      if ignored {
        return [];
      }
    }
    shown := [Entry(CutString(cur.devname), CutString(cur.mountdir), CutString(cur.fstype), cur.dev)];
  }

  lemma ShownNext(table: seq<Mnt>, i: nat, allFs: bool)
    requires i < |table|
    ensures Shown(table[..i + 1], allFs)
         == Shown(table[..i], allFs) + if Keeps(table[i], allFs) then [ToEntry(table[i])] else []
  {
    assert table[..i + 1][..i] == table[..i];
  }

  /** The first `i` entries have been freed, the others are still linked. */
  ghost predicate Consumed(c: seq<MountEntry>, table: seq<Mnt>, i: nat)
    reads c
  {
    && |c| == |table| && i <= |c|
    && (forall j :: 0 <= j < |c| ==> (c[j].live <==> i <= j) && c[j].Describes(table[j]))
    && (forall j :: 0 <= j < |c| - 1 ==> c[j].next == c[j + 1])
    && (c != [] ==> c[|c| - 1].next == null)
    && (forall j, k :: 0 <= j < k < |c| ==> c[j] != c[k])
  }

  /** One round of the loop that copies the entries out and frees them. */
  method ConsumeOne(cur: MountEntry, ghost c: seq<MountEntry>, ghost table: seq<Mnt>, ghost i: nat, allFs: bool)
    returns (shown: seq<Entry>, next: MountEntry?)
    requires Consumed(c, table, i) && i < |c| && cur == c[i]
    modifies cur
    ensures Consumed(c, table, i + 1) && next == if i + 1 < |c| then c[i + 1] else null
    ensures shown == if Keeps(table[i], allFs) then [ToEntry(table[i])] else []
  {
    shown := CopyEntry(cur, table[i], allFs);
    next := cur.next;
    cur.Free();
  }

  /** The loop that copies the entries out and frees them. */
  method Consume(entries: MountEntry?, ghost c: seq<MountEntry>, ghost table: seq<Mnt>, allFs: bool)
    returns (mountArray: seq<Entry>)
    requires List(c) && Holds(c, table) && entries == if c == [] then null else c[0]
    modifies set n | n in c
    ensures mountArray == Shown(table, allFs) && forall i :: 0 <= i < |c| ==> !c[i].live
  {
    mountArray := [];
    var cur := entries;
    ghost var i := 0;
    while cur != null
      invariant Consumed(c, table, i) && cur == (if i < |c| then c[i] else null)
      invariant mountArray == Shown(table[..i], allFs)
      decreases |c| - i
    {
      ShownNext(table, i, allFs);
      var shown;
      shown, cur := ConsumeOne(cur, c, table, i, allFs);
      mountArray, i := mountArray + shown, i + 1;
    }
    assert table[..|table|] == table;
  }

  /** `glibtop_get_mountlist_s`: the mount table in its order, without the ignored types, and every
      entry of the list freed once. */
  method GetMountlist(table: seq<Mnt>, allFs: bool) returns (r: Option<Mounts>, ghost c: seq<MountEntry>)
    ensures table == [] ==> r == None
    ensures table != [] ==> r.Some? && r.value.entries == Shown(table, allFs)
                            && r.value.number == |r.value.entries| && r.value.total == MOUNTENTRY_SIZE * r.value.number
    ensures |c| == |table| && fresh(set n | n in c) && forall i :: 0 <= i < |c| ==> !c[i].live
  {
    var entries;
    entries, c := ReadFilesystemList(table);
    if entries == null {
      return None, c;
    }
    var mountArray := Consume(entries, c, table, allFs);
    r := Some(Mounts(mountArray, |mountArray|, |mountArray| * MOUNTENTRY_SIZE));
  }

  /** Every file system that is not ignored is shown, and nothing else. */
  lemma {:induction false} ShownIff(table: seq<Mnt>, allFs: bool)
    ensures forall m :: m in table && Keeps(m, allFs) ==> ToEntry(m) in Shown(table, allFs)
    ensures forall e :: e in Shown(table, allFs) ==> exists m :: m in table && Keeps(m, allFs) && e == ToEntry(m)
  {
    if table != [] {
      var init, m := table[..|table| - 1], table[|table| - 1];
      ShownIff(init, allFs);
      assert table == init + [m];
    }
  }

  /** With `allFs` the whole table is shown, line by line. */
  lemma {:induction false} ShownAll(table: seq<Mnt>)
    ensures |Shown(table, true)| == |table|
    ensures forall i :: 0 <= i < |table| ==> Shown(table, true)[i] == ToEntry(table[i])
    ensures forall i :: 0 <= i < |table| ==> Copies(Shown(table, true)[i], table[i])
  {
    if table != [] { ShownAll(table[..|table| - 1]); }
  }

  /** The lines that `keep` holds of, as entries. */
  ghost function Kept(table: seq<Mnt>, keep: Mnt -> bool): seq<Entry> {
    if table == [] then []
    else
      var m := table[|table| - 1];
      Kept(table[..|table| - 1], keep) + if keep(m) then [ToEntry(m)] else []
  }

  /** Where they come from, in their order. */
  ghost function Sources(table: seq<Mnt>, keep: Mnt -> bool): (o: seq<nat>)
    ensures |o| == |Kept(table, keep)|
    ensures forall k :: 0 <= k < |o| ==>
              o[k] < |table| && keep(table[o[k]]) && Kept(table, keep)[k] == ToEntry(table[o[k]])
    ensures forall k, l :: 0 <= k < l < |o| ==> o[k] < o[l]
  {
    if table == [] then []
    else Sources(table[..|table| - 1], keep) + if keep(table[|table| - 1]) then [|table| - 1] else []
  }

  lemma {:induction false} SourcesComplete(table: seq<Mnt>, keep: Mnt -> bool, i: nat)
    requires i < |table|
    ensures i in Sources(table, keep) <==> keep(table[i])
  {
    var n: nat := |table| - 1;
    if i < n {
      SourcesComplete(table[..n], keep, i);
    } else {
      assert forall k :: 0 <= k < |Sources(table[..n], keep)| ==> Sources(table[..n], keep)[k] < n;
    }
  }

  /** The caller sees a file system if all are asked for, or if its type is not in the table. */
  ghost function Visible(allFs: bool): Mnt -> bool { (m: Mnt) => allFs || m.fstype !in IGNORED }

  lemma {:induction false} ShownIsKept(table: seq<Mnt>, allFs: bool)
    ensures Shown(table, allFs) == Kept(table, Visible(allFs))
  {
    if table != [] {
      var m := table[|table| - 1];
      ShownIsKept(table[..|table| - 1], allFs);
      assert Visible(allFs)(m) == Keeps(m, allFs);
    }
  }

  lemma EntryCopies(m: Mnt)
    ensures Copies(ToEntry(m), m)
  {
  }

  /** What is shown are exactly the visible lines, in their order and with their fields. */
  lemma ShownInOrder(table: seq<Mnt>, allFs: bool) returns (o: seq<nat>)
    ensures |o| == |Shown(table, allFs)|
    ensures forall k :: 0 <= k < |o| ==> o[k] < |table| && Copies(Shown(table, allFs)[k], table[o[k]])
    ensures forall k, l :: 0 <= k < l < |o| ==> o[k] < o[l]
    ensures forall i: nat :: i < |table| ==> (i in o <==> Visible(allFs)(table[i]))
  {
    ShownIsKept(table, allFs);
    o := Sources(table, Visible(allFs));
    forall k | 0 <= k < |o| ensures Copies(Shown(table, allFs)[k], table[o[k]]) {
      EntryCopies(table[o[k]]);
    }
    forall i: nat | i < |table| ensures i in o <==> Visible(allFs)(table[i]) {
      SourcesComplete(table, Visible(allFs), i);
    }
  }
}
