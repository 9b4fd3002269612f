/** The memory map of a process, read off the circular list of map entries in kernel memory. */
module ProcMap {
  type Address = nat

  datatype Vnode = Vnode(bad: bool, inode: nat, device: nat)

  /** What reading an entry's object and then its vnode gives. */
  datatype Backing = NoObject | Unreadable | NotVnode | NoHandle | VnodeUnreadable | Backed(vnode: Vnode)

  datatype VmEntry = VmEntry(next: Address, subMap: bool, start: nat, end: nat, offset: nat,
                             readable: bool, writable: bool, executable: bool, backing: Backing)

  datatype MapEntry = MapEntry(start: nat, end: nat, offset: nat, device: nat, inode: nat, perm: nat)

  const PERM_READ := 1
  const PERM_WRITE := 2
  const PERM_EXECUTE := 4

  datatype Maps = Maps(entries: seq<MapEntry>, number: nat, total: nat)

  predicate Qualifies(e: VmEntry) { !e.subMap && e.backing.Backed? && !e.backing.vnode.bad }

  function ToMapEntry(e: VmEntry): MapEntry
    requires Qualifies(e)
  {
    MapEntry(e.start, e.end, e.offset, e.backing.vnode.device, e.backing.vnode.inode,
             (if e.readable then PERM_READ else 0) + (if e.writable then PERM_WRITE else 0)
           + (if e.executable then PERM_EXECUTE else 0))
  }

  // ----- the circular list

  /** The address that `k` steps from `first` lead to. */
  ghost function Step(mem: map<Address, VmEntry>, first: Address, k: nat): Address {
    if k == 0 then first
    else
      var a := Step(mem, first, k - 1);
      if a in mem then mem[a].next else 0
  }

  /** After `n` steps over readable entries the list is back at its start. */
  ghost predicate Closes(mem: map<Address, VmEntry>, first: Address, n: nat) {
    n > 0 && Step(mem, first, n) == first && forall k :: 0 <= k < n ==> Step(mem, first, k) in mem
  }

  /** The length of the circle: the least number of steps that lead back, counting from `k`. */
  ghost function Period(mem: map<Address, VmEntry>, first: Address, k: nat, n: nat): (p: nat)
    requires 0 < k <= n && Closes(mem, first, n)
    ensures k <= p <= n && Closes(mem, first, p) && forall j :: k <= j < p ==> Step(mem, first, j) != first
    decreases n - k
  {
    if Step(mem, first, k) == first then k else Period(mem, first, k + 1, n)
  }

  ghost function Visited(mem: map<Address, VmEntry>, first: Address, n: nat): seq<Address> {
    if n == 0 then [] else Visited(mem, first, n - 1) + [Step(mem, first, n - 1)]
  }

  lemma {:induction false} VisitedAt(mem: map<Address, VmEntry>, first: Address, n: nat)
    ensures |Visited(mem, first, n)| == n
    ensures forall k :: 0 <= k < n ==> Visited(mem, first, n)[k] == Step(mem, first, k)
  {
    if n > 0 { VisitedAt(mem, first, n - 1); }
  }

  lemma {:induction false} StepsAgree(mem: map<Address, VmEntry>, first: Address, i: nat, j: nat, d: nat)
    requires Step(mem, first, i) == Step(mem, first, j)
    ensures Step(mem, first, i + d) == Step(mem, first, j + d)
  {
    if d > 0 { StepsAgree(mem, first, i, j, d - 1); }
  }

  /** The nodes of the circle are all different ... */
  lemma CircleDistinct(mem: map<Address, VmEntry>, first: Address, n: nat, i: nat, j: nat)
    requires Closes(mem, first, n) && i < j < Period(mem, first, 1, n)
    ensures Step(mem, first, i) != Step(mem, first, j)
  {
    var p := Period(mem, first, 1, n);
    if Step(mem, first, i) == Step(mem, first, j) {
      StepsAgree(mem, first, i, j, p - j);
    }
  }

  /** ... and no others can be reached. */
  lemma {:induction false} CircleClosed(mem: map<Address, VmEntry>, first: Address, n: nat, k: nat)
    requires Closes(mem, first, n)
    ensures Step(mem, first, k) in Visited(mem, first, Period(mem, first, 1, n))
  {
    var p := Period(mem, first, 1, n);
    VisitedAt(mem, first, p);
    if k < p {
      assert Visited(mem, first, p)[k] == Step(mem, first, k);
    } else {
      StepsAgree(mem, first, 0, p, k - p);
      CircleClosed(mem, first, n, k - p);
    }
  }

  ghost function Qualifying(mem: map<Address, VmEntry>, at: seq<Address>): seq<MapEntry>
    requires forall a :: a in at ==> a in mem
  {
    if at == [] then []
    else
      var e := mem[at[|at| - 1]];
      Qualifying(mem, at[..|at| - 1]) + if Qualifies(e) then [ToMapEntry(e)] else []
  }

  lemma QualifyingNext(mem: map<Address, VmEntry>, at: seq<Address>, a: Address)
    requires (forall b :: b in at ==> b in mem) && a in mem
    ensures forall b :: b in at + [a] ==> b in mem
    ensures Qualifying(mem, at + [a])
         == Qualifying(mem, at) + if Qualifies(mem[a]) then [ToMapEntry(mem[a])] else []
  {
    assert (at + [a])[..|at|] == at;
  }

  /** What the report says of an entry: its addresses, its file, and its permissions as a sum of bits. */
  ghost predicate Tells(m: MapEntry, e: VmEntry) {
    && m.start == e.start && m.end == e.end && m.offset == e.offset
    && e.backing.Backed? && m.device == e.backing.vnode.device && m.inode == e.backing.vnode.inode
    && m.perm < 8
    && (m.perm % 2 == 1 <==> e.readable)
    && (m.perm / 2 % 2 == 1 <==> e.writable)
    && (m.perm / 4 % 2 == 1 <==> e.executable)
  }

  /** Where the reported entries come from: only from maps of files, in the order of the walk. */
  ghost function Sources(mem: map<Address, VmEntry>, at: seq<Address>): (o: seq<nat>)
    requires forall a :: a in at ==> a in mem
    ensures |o| == |Qualifying(mem, at)|
    ensures forall k :: 0 <= k < |o| ==>
              && o[k] < |at| && Tells(Qualifying(mem, at)[k], mem[at[o[k]]])
              && !mem[at[o[k]]].subMap && !mem[at[o[k]]].backing.vnode.bad
    ensures forall k, l :: 0 <= k < l < |o| ==> o[k] < o[l]
  {
    if at == [] then []
    else Sources(mem, at[..|at| - 1]) + if Qualifies(mem[at[|at| - 1]]) then [|at| - 1] else []
  }

  /** Every readable map of a file is reported. */
  lemma {:induction false} SourcesComplete(mem: map<Address, VmEntry>, at: seq<Address>, i: nat)
    requires (forall a :: a in at ==> a in mem) && i < |at|
    ensures var e := mem[at[i]];
            i in Sources(mem, at) <==> !e.subMap && e.backing.Backed? && !e.backing.vnode.bad
  {
    var n: nat := |at| - 1;
    if i < n {
      SourcesComplete(mem, at[..n], i);
    } else {
      assert forall k :: 0 <= k < |Sources(mem, at[..n])| ==> Sources(mem, at[..n])[k] < n;
    }
  }

  lemma {:induction false} VisitedReadable(mem: map<Address, VmEntry>, first: Address, n: nat, k: nat)
    requires Closes(mem, first, n) && k <= n
    ensures forall a :: a in Visited(mem, first, k) ==> a in mem
  {
    if k > 0 { VisitedReadable(mem, first, n, k - 1); }
  }

  /** The walk of `glibtop_get_proc_map_p`: from the first entry once round the circle.  A read of an
      entry may fail `failures` times in all; the source then goes round with the old entry, and so
      reads the same one again.  `size` is the size of one element of the result. */
  method GetProcMap(mem: map<Address, VmEntry>, first: Address, size: nat, failures: nat, ghost n: nat)
    returns (r: Maps, ghost visited: seq<Address>)
    requires Closes(mem, first, n)
    ensures visited == Visited(mem, first, Period(mem, first, 1, n))
    ensures (forall a :: a in visited ==> a in mem) && r.entries == Qualifying(mem, visited)
    ensures r.number == |r.entries| && r.total == r.number * size
  {
    assert Step(mem, first, 0) == first;
    var entry, update := mem[first], false;
    var maps := [];
    visited := [];
    var left := failures;
    ghost var k := 0;
    while !update || entry.next != first
      invariant k <= n && visited == Visited(mem, first, k) && (update <==> k > 0)
      invariant entry == mem[Step(mem, first, if k == 0 then 0 else k - 1)]
      invariant forall j :: 0 < j < k ==> Step(mem, first, j) != first
      invariant (forall a :: a in visited ==> a in mem) && maps == Qualifying(mem, visited)
      decreases n - k, left
    {
      if update {
        var fails: bool := *;
        if fails && left > 0 {
          left := left - 1;
          continue;
        }
        assert Step(mem, first, k) == entry.next;
        entry := mem[entry.next];
      } else {
        update := true;
      }
      VisitedReadable(mem, first, n, k + 1);
      QualifyingNext(mem, visited, Step(mem, first, k));
      visited, k := visited + [Step(mem, first, k)], k + 1;
      if !Qualifies(entry) {
        continue;
      }
      maps := maps + [ToMapEntry(entry)];
    }
    assert Step(mem, first, k) == first && Period(mem, first, 1, n) == k;
    r := Maps(maps, |maps|, |maps| * size);
  }
}
