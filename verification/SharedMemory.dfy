/** What a walk over a process's memory regions should count: the objects that several regions
    share are gathered in a table, and every object is counted once. */
module SharedMemory {
  // share modes of the Mach kernel
  const SM_COW := 1
  const SM_PRIVATE := 2
  const SM_EMPTY := 3
  const SM_SHARED := 4

  /** Object identifiers are 32-bit; the table ignores 0. */
  const OBJECT_IDS: nat := 0x1_0000_0000

  type ObjectId = x: nat | x < OBJECT_IDS

  datatype Top = Top(objId: ObjectId, shareMode: nat, sharedPages: nat, privatePages: nat, refCount: nat)

  datatype Region = Region(address: nat, size: nat, reserved: bool, top: Top)

  datatype Info = Info(shareMode: nat, pageCount: nat, refCount: nat, taskRefs: nat, size: nat)

  type Table = map<ObjectId, Info>

  /** Register one more region of an object: the first region fixes its attributes, the later ones
      are only counted. */
  ghost function Registered(t: Table, top: Top, size: nat): Table {
    if top.objId == 0 then t
    else if top.objId in t then t[top.objId := t[top.objId].(taskRefs := t[top.objId].taskRefs + 1)]
    else t[top.objId := Info(top.shareMode, top.sharedPages, top.refCount, 1, size)]
  }

  // ----- how one region counts

  /** The segments of the shared libraries. */
  datatype Segments = Segments(textStart: nat, dataEnd: nat)

  predicate Counted(g: Segments, r: Region) {
    !(g.textStart <= r.address < g.dataEnd) || r.top.shareMode == SM_PRIVATE
  }

  predicate Registers(g: Segments, r: Region) {
    Counted(g, r) && (r.top.shareMode == SM_SHARED || (r.top.shareMode == SM_COW && r.top.refCount != 1))
  }

  /** Pages that a region adds to the private ones on its own. */
  function DirectPages(g: Segments, r: Region): nat {
    if !Counted(g, r) then 0
    else if r.top.shareMode == SM_COW && r.top.refCount == 1 then r.top.privatePages + r.top.sharedPages
    else if r.top.shareMode == SM_PRIVATE then r.top.privatePages
    else 0
  }

  /** What a region adds to the private address space on its own, in bytes. */
  function DirectSize(g: Segments, page: nat, r: Region): nat {
    if !Counted(g, r) then 0
    else if r.top.shareMode == SM_PRIVATE || (r.top.shareMode == SM_COW && r.top.refCount == 1) then r.size
    else if r.top.shareMode == SM_COW then r.top.privatePages * page
    else 0
  }

  /** A reserved empty region inside the segments: the task has them mapped. */
  predicate Splits(g: Segments, r: Region) {
    g.textStart <= r.address < g.dataEnd && r.top.shareMode == SM_EMPTY && r.reserved
  }

  ghost predicate AnySplits(g: Segments, rs: seq<Region>) { exists r :: r in rs && Splits(g, r) }

  lemma AnySplitsNext(g: Segments, rs: seq<Region>, i: nat)
    requires i < |rs|
    ensures AnySplits(g, rs[..i + 1]) <==> AnySplits(g, rs[..i]) || Splits(g, rs[i])
  {
    assert rs[..i + 1] == rs[..i] + [rs[i]];
    assert forall r :: r in rs[..i + 1] <==> r in rs[..i] || r == rs[i];
  }

  ghost function TableOf(g: Segments, rs: seq<Region>): Table {
    if rs == [] then map[]
    else
      var r, t := rs[|rs| - 1], TableOf(g, rs[..|rs| - 1]);
      if Registers(g, r) then Registered(t, r.top, r.size) else t
  }

  // ----- sums over regions

  ghost function Tally(rs: seq<Region>, f: Region -> nat): nat {
    if rs == [] then 0 else Tally(rs[..|rs| - 1], f) + f(rs[|rs| - 1])
  }

  lemma {:induction false} TallyConcat(a: seq<Region>, b: seq<Region>, f: Region -> nat)
    ensures Tally(a + b, f) == Tally(a, f) + Tally(b, f)
  {
    if b == [] {
      assert a + b == a;
    } else {
      assert (a + b)[..|a + b| - 1] == a + b[..|b| - 1];
      TallyConcat(a, b[..|b| - 1], f);
    }
  }

  lemma TallySnoc(p: seq<Region>, x: Region, f: Region -> nat)
    ensures Tally(p + [x], f) == Tally(p, f) + f(x)
  {
    assert (p + [x])[..|p|] == p;
  }

  lemma TallyMiddle(p: seq<Region>, x: Region, q: seq<Region>, f: Region -> nat)
    ensures Tally((p + [x]) + q, f) == Tally(p + q, f) + f(x)
  {
    TallyConcat(p + [x], q, f);
    TallySnoc(p, x, f);
    TallyConcat(p, q, f);
  }

  ghost function Without(s: seq<Region>, i: nat): seq<Region>
    requires i < |s|
  {
    s[..i] + s[i + 1..]
  }

  lemma TallyWithout(s: seq<Region>, i: nat, f: Region -> nat)
    requires i < |s|
    ensures Tally(s, f) == Tally(Without(s, i), f) + f(s[i])
  {
    SplitAt(s, i);
    TallyMiddle(s[..i], s[i], s[i + 1..], f);
  }

  lemma SplitAt(s: seq<Region>, i: nat)
    requires i < |s|
    ensures s == (s[..i] + [s[i]]) + s[i + 1..]
  {
  }

  lemma WithoutIsLess(s: seq<Region>, i: nat)
    requires i < |s|
    ensures multiset(Without(s, i)) == multiset(s) - multiset{s[i]}
  {
    assert s == s[..i] + [s[i]] + s[i + 1..];
  }

  /** A sum over regions does not depend on their order. */
  lemma {:induction false} TallyPermute(a: seq<Region>, b: seq<Region>, f: Region -> nat)
    requires multiset(a) == multiset(b)
    ensures Tally(a, f) == Tally(b, f)
    decreases |a|
  {
    if a == [] {
      assert |multiset(b)| == 0;
    } else {
      var last := |a| - 1;
      assert a[last] in multiset(b);
      var i :| 0 <= i < |b| && b[i] == a[last];
      WithoutIsLess(a, last);
      WithoutIsLess(b, i);
      TallyWithout(a, last, f);
      TallyWithout(b, i, f);
      TallyPermute(Without(a, last), Without(b, i), f);
    }
  }

  ghost function CountOf(g: Segments, id: ObjectId): Region -> nat {
    (r: Region) => if Registers(g, r) && r.top.objId == id then 1 else 0
  }

  ghost function SizesOf(g: Segments, page: nat): Region -> nat { (r: Region) => DirectSize(g, page, r) }

  ghost function PagesOf(g: Segments): Region -> nat { (r: Region) => DirectPages(g, r) }

  // ----- sums over the table

  /** Pages of an object that only this task uses. */
  ghost function PrivateOf(): Info -> nat {
    (i: Info) => if i.shareMode == SM_SHARED && i.refCount == i.taskRefs then i.pageCount else 0
  }

  ghost function SharedOf(): Info -> nat {
    (i: Info) => if i.shareMode == SM_SHARED && i.refCount == i.taskRefs then 0 else i.pageCount
  }

  ghost function SizeOf(): Info -> nat {
    (i: Info) => if i.shareMode == SM_SHARED && i.refCount == i.taskRefs then i.size else 0
  }

  ghost function AllPagesOf(): Info -> nat { (i: Info) => i.pageCount }

  /** Sum of `f` over the objects whose identifier is below `n`. */
  ghost function Below(t: Table, f: Info -> nat, n: nat): nat
    requires n <= OBJECT_IDS
  {
    if n == 0 then 0 else Below(t, f, n - 1) + if n - 1 in t then f(t[n - 1]) else 0
  }

  ghost function Total(t: Table, f: Info -> nat): nat { Below(t, f, OBJECT_IDS) }

  lemma {:induction false} BelowInsert(t: Table, id: ObjectId, x: Info, f: Info -> nat, n: nat)
    requires n <= OBJECT_IDS && id !in t
    ensures Below(t[id := x], f, n) == Below(t, f, n) + if id < n then f(x) else 0
  {
    if n != 0 { BelowInsert(t, id, x, f, n - 1); }
  }

  lemma {:induction false} BelowEmpty(f: Info -> nat, n: nat)
    requires n <= OBJECT_IDS
    ensures Below(map[], f, n) == 0
  {
    if n != 0 { BelowEmpty(f, n - 1); }
  }

  lemma {:induction false} BelowSame(t: Table, u: Table, f: Info -> nat, n: nat)
    requires n <= OBJECT_IDS && t.Keys == u.Keys && forall id :: id in t ==> f(t[id]) == f(u[id])
    ensures Below(t, f, n) == Below(u, f, n)
  {
    if n != 0 { BelowSame(t, u, f, n - 1); }
  }

  lemma {:induction false} BelowAdds(t: Table, n: nat)
    requires n <= OBJECT_IDS
    ensures Below(t, PrivateOf(), n) + Below(t, SharedOf(), n) == Below(t, AllPagesOf(), n)
  {
    if n != 0 { BelowAdds(t, n - 1); }
  }

  // ----- main results

  /** Every distinct object counts once, as private or as shared. */
  lemma PagesConserved(t: Table)
    ensures Total(t, PrivateOf()) + Total(t, SharedOf()) == Total(t, AllPagesOf())
  {
    BelowAdds(t, OBJECT_IDS);
  }

  /** The registering region of object `id` that comes first. */
  ghost function First(g: Segments, rs: seq<Region>, id: ObjectId): Region
    requires exists r :: r in rs && Registers(g, r) && r.top.objId == id
  {
    if Registers(g, rs[0]) && rs[0].top.objId == id then rs[0] else First(g, rs[1..], id)
  }

  /** What the table holds after any sequence of regions: each non-zero object that was registered,
      with its number of registrations and the attributes of its first region. */
  lemma {:induction false} TableContents(g: Segments, rs: seq<Region>, id: ObjectId)
    ensures var t, n := TableOf(g, rs), Tally(rs, CountOf(g, id));
            && (id in t <==> id != 0 && n > 0)
            && (n > 0 <==> exists r :: r in rs && Registers(g, r) && r.top.objId == id)
            && (id in t ==>
                  var f := First(g, rs, id);
                  t[id] == Info(f.top.shareMode, f.top.sharedPages, f.top.refCount, n, f.size))
  {
    if rs != [] {
      var r, init := rs[|rs| - 1], rs[..|rs| - 1];
      assert rs == init + [r];
      TableContents(g, init, id);
      FirstAppend(g, init, r, id);
    }
  }

  lemma {:induction false} FirstAppend(g: Segments, rs: seq<Region>, r: Region, id: ObjectId)
    ensures (exists q :: q in rs && Registers(g, q) && q.top.objId == id) ==> First(g, rs + [r], id) == First(g, rs, id)
    ensures !(exists q :: q in rs && Registers(g, q) && q.top.objId == id) && Registers(g, r) && r.top.objId == id ==>
              First(g, rs + [r], id) == r
  {
    if rs != [] {
      assert (rs + [r])[1..] == rs[1..] + [r];
      FirstAppend(g, rs[1..], r, id);
    }
  }

  ghost function Private(g: Segments, rs: seq<Region>): nat {
    Tally(rs, PagesOf(g)) + Total(TableOf(g, rs), PrivateOf())
  }

  ghost function Shared(g: Segments, rs: seq<Region>): nat { Total(TableOf(g, rs), SharedOf()) }

  ghost function PrivateSize(g: Segments, page: nat, rs: seq<Region>): nat {
    Tally(rs, SizesOf(g, page)) + Total(TableOf(g, rs), SizeOf())
  }

  lemma FirstIsIn(g: Segments, rs: seq<Region>, id: ObjectId)
    requires exists r :: r in rs && Registers(g, r) && r.top.objId == id
    ensures var f := First(g, rs, id); f in rs && Registers(g, f) && f.top.objId == id
  {
  }

  /** The entry that region `r` leaves, when it is the first of its object's `n` registrations. */
  function EntryOf(r: Region, n: nat): Info {
    Info(r.top.shareMode, r.top.sharedPages, r.top.refCount, n, r.size)
  }

  ghost predicate IsOf(g: Segments, r: Region, id: ObjectId) { Registers(g, r) && r.top.objId == id }

  /** Whichever region of an object comes first, its entry counts the same. */
  ghost predicate Agree(g: Segments, rs: seq<Region>, f: Info -> nat) {
    forall r, q, id: ObjectId :: id != 0 && r in rs && q in rs && IsOf(g, r, id) && IsOf(g, q, id) ==>
      f(EntryOf(r, Tally(rs, CountOf(g, id)))) == f(EntryOf(q, Tally(rs, CountOf(g, id))))
  }

  /** Every order of the regions gives the same sum over the table. */
  ghost predicate OrderFree(g: Segments, rs: seq<Region>, f: Info -> nat) {
    forall b :: multiset(b) == multiset(rs) ==> Total(TableOf(g, b), f) == Total(TableOf(g, rs), f)
  }

  lemma SameEntry(g: Segments, a: seq<Region>, b: seq<Region>, f: Info -> nat, id: ObjectId)
    requires multiset(a) == multiset(b) && Agree(g, a, f)
    ensures var t, u := TableOf(g, a), TableOf(g, b);
            (id in t <==> id in u) && (id in t ==> f(t[id]) == f(u[id]))
  {
    TableContents(g, a, id);
    TableContents(g, b, id);
    TallyPermute(a, b, CountOf(g, id));
    if id in TableOf(g, a) {
      FirstIsIn(g, a, id);
      FirstIsIn(g, b, id);
      assert First(g, b, id) in multiset(b);
      var r, q := First(g, a, id), First(g, b, id);
      assert IsOf(g, r, id) && IsOf(g, q, id) && r in a && q in a;
    }
  }

  lemma AgreeIsOrderFree(g: Segments, a: seq<Region>, f: Info -> nat)
    requires Agree(g, a, f)
    ensures OrderFree(g, a, f)
  {
    forall b | multiset(b) == multiset(a) ensures Total(TableOf(g, b), f) == Total(TableOf(g, a), f) {
      forall id: ObjectId
        ensures var t, u := TableOf(g, a), TableOf(g, b);
                (id in t <==> id in u) && (id in t ==> f(t[id]) == f(u[id]))
      {
        SameEntry(g, a, b, f, id);
      }
      BelowSame(TableOf(g, a), TableOf(g, b), f, OBJECT_IDS);
    }
  }

  /** Region `i` moved to the front. */
  ghost function Fronted(s: seq<Region>, i: nat): seq<Region>
    requires i < |s|
  {
    [s[i]] + Without(s, i)
  }

  lemma FrontedPermutes(s: seq<Region>, i: nat)
    requires i < |s|
    ensures multiset(Fronted(s, i)) == multiset(s)
  {
    WithoutIsLess(s, i);
    assert s[i] in multiset(s);
  }

  lemma {:induction false} FirstWithout(g: Segments, s: seq<Region>, i: nat, id: ObjectId)
    requires i < |s| && !IsOf(g, s[i], id)
    requires exists r :: r in s && IsOf(g, r, id)
    ensures (exists r :: r in Without(s, i) && IsOf(g, r, id)) && First(g, Without(s, i), id) == First(g, s, id)
  {
    var r :| r in s && IsOf(g, r, id);
    var w := Without(s, i);
    assert r in w;
    if i == 0 {
      assert w == s[1..];
    } else if !IsOf(g, s[0], id) {
      assert w[1..] == Without(s[1..], i - 1);
      assert r in s[1..];
      FirstWithout(g, s[1..], i - 1, id);
    }
  }

  lemma FirstFronted(g: Segments, s: seq<Region>, i: nat, id: ObjectId)
    requires i < |s| && exists r :: r in s && IsOf(g, r, id)
    ensures exists r :: r in Fronted(s, i) && IsOf(g, r, id)
    ensures First(g, Fronted(s, i), id) == if IsOf(g, s[i], id) then s[i] else First(g, s, id)
  {
    var r :| r in s && IsOf(g, r, id);
    FrontedPermutes(s, i);
    assert r in multiset(Fronted(s, i));
    if !IsOf(g, s[i], id) {
      FirstWithout(g, s, i, id);
      assert Fronted(s, i)[1..] == Without(s, i);
    }
  }

  /** Moving a region to the front changes the entry of its own object only. */
  lemma FrontedTable(g: Segments, s: seq<Region>, i: nat, id: ObjectId)
    requires i < |s|
    ensures var t, u := TableOf(g, s), TableOf(g, Fronted(s, i));
            && (id in t <==> id in u)
            && (id in t ==> u[id] == if IsOf(g, s[i], id) then EntryOf(s[i], Tally(s, CountOf(g, id))) else t[id])
  {
    TableContents(g, s, id);
    TableContents(g, Fronted(s, i), id);
    FrontedPermutes(s, i);
    TallyPermute(s, Fronted(s, i), CountOf(g, id));
    if id in TableOf(g, s) {
      FirstFronted(g, s, i, id);
    }
  }

  lemma {:induction false} BelowDiffers(t: Table, u: Table, f: Info -> nat, id: ObjectId, n: nat)
    requires n <= OBJECT_IDS && t.Keys == u.Keys && id in t
    requires forall k :: k in t && k != id ==> t[k] == u[k]
    ensures Below(t, f, n) - Below(u, f, n) == if id < n then f(t[id]) - f(u[id]) else 0
  {
    if n != 0 { BelowDiffers(t, u, f, id, n - 1); }
  }

  lemma FrontsDiffer(g: Segments, s: seq<Region>, i: nat, j: nat, f: Info -> nat, id: ObjectId)
    requires i < |s| && j < |s| && id != 0 && IsOf(g, s[i], id) && IsOf(g, s[j], id)
    ensures var n := Tally(s, CountOf(g, id));
            Total(TableOf(g, Fronted(s, i)), f) - Total(TableOf(g, Fronted(s, j)), f)
            == f(EntryOf(s[i], n)) - f(EntryOf(s[j], n))
  {
    var t, u := TableOf(g, Fronted(s, i)), TableOf(g, Fronted(s, j));
    forall k: ObjectId
      ensures (k in t <==> k in u) && (k in t && k != id ==> t[k] == u[k])
    {
      FrontedTable(g, s, i, k);
      FrontedTable(g, s, j, k);
    }
    FrontedTable(g, s, i, id);
    FrontedTable(g, s, j, id);
    TableContents(g, s, id);
    assert s[i] in s;
    assert id in t;
    BelowDiffers(t, u, f, id, OBJECT_IDS);
  }

  /** A sum over the table is the same for every order of the regions exactly when, for each object,
      all of its regions would leave an entry that counts the same. */
  lemma OrderFreeIff(g: Segments, a: seq<Region>, f: Info -> nat)
    ensures OrderFree(g, a, f) <==> Agree(g, a, f)
  {
    if Agree(g, a, f) {
      AgreeIsOrderFree(g, a, f);
    }
    if OrderFree(g, a, f) {
      forall r, q, id: ObjectId | id != 0 && r in a && q in a && IsOf(g, r, id) && IsOf(g, q, id)
        ensures f(EntryOf(r, Tally(a, CountOf(g, id)))) == f(EntryOf(q, Tally(a, CountOf(g, id))))
      {
        var i :| 0 <= i < |a| && a[i] == r;
        var j :| 0 <= j < |a| && a[j] == q;
        FrontedPermutes(a, i);
        FrontedPermutes(a, j);
        FrontsDiffer(g, a, i, j, f, id);
      }
    }
  }

  ghost predicate SameInEveryOrder(rs: seq<Region>, report: seq<Region> -> nat) {
    forall b :: multiset(b) == multiset(rs) ==> report(b) == report(rs)
  }

  /** What the regions count directly never depends on their order. */
  lemma DirectPartCancels(g: Segments, a: seq<Region>, direct: Region -> nat, f: Info -> nat,
                          report: seq<Region> -> nat)
    requires forall b :: report(b) == Tally(b, direct) + Total(TableOf(g, b), f)
    ensures SameInEveryOrder(a, report) <==> OrderFree(g, a, f)
  {
    forall b | multiset(b) == multiset(a)
      ensures report(b) == report(a) <==> Total(TableOf(g, b), f) == Total(TableOf(g, a), f)
    {
      TallyPermute(b, a, direct);
    }
  }

  ghost function PrivateReport(g: Segments): seq<Region> -> nat { b => Private(g, b) }

  ghost function SharedReport(g: Segments): seq<Region> -> nat { b => Shared(g, b) }

  ghost function SizeReport(g: Segments, page: nat): seq<Region> -> nat { b => PrivateSize(g, page, b) }

  /** Field by field: when the report is the same whatever the order of the regions. */
  lemma ReportOrderFreeIff(g: Segments, page: nat, a: seq<Region>)
    ensures SameInEveryOrder(a, PrivateReport(g)) <==> Agree(g, a, PrivateOf())
    ensures SameInEveryOrder(a, SharedReport(g)) <==> Agree(g, a, SharedOf())
    ensures SameInEveryOrder(a, SizeReport(g, page)) <==> Agree(g, a, SizeOf())
  {
    OrderFreeIff(g, a, PrivateOf());
    OrderFreeIff(g, a, SharedOf());
    OrderFreeIff(g, a, SizeOf());
    DirectPartCancels(g, a, PagesOf(g), PrivateOf(), PrivateReport(g));
    DirectPartCancels(g, a, SizesOf(g, page), SizeOf(), SizeReport(g, page));
    assert forall b :: SharedReport(g)(b) == Total(TableOf(g, b), SharedOf());
  }

  /** Mode, resident pages and reference count are a matter of the object, not of the region. */
  ghost predicate Uniform(g: Segments, rs: seq<Region>) {
    forall r, q :: r in rs && q in rs && Registers(g, r) && Registers(g, q) && r.top.objId == q.top.objId ==>
      && r.top.shareMode == q.top.shareMode
      && r.top.sharedPages == q.top.sharedPages
      && r.top.refCount == q.top.refCount
  }

  /** Then the private and the shared pages do not depend on the order of the regions. */
  lemma OrderDoesNotMatter(g: Segments, a: seq<Region>, b: seq<Region>)
    requires multiset(a) == multiset(b) && Uniform(g, a)
    ensures Private(g, a) == Private(g, b) && Shared(g, a) == Shared(g, b)
  {
    AgreeIsOrderFree(g, a, PrivateOf());
    AgreeIsOrderFree(g, a, SharedOf());
    TallyPermute(a, b, PagesOf(g));
  }

  const SAMPLE := Segments(0, 0)

  function SampleRegion(pages: nat): Region { Region(1, 1, false, Top(5, SM_SHARED, pages, 0, 9)) }

  /** Two orders of the same two regions, and two different reports. */
  lemma OrderMatters()
    ensures var x, y := SampleRegion(10), SampleRegion(20);
            && multiset([x, y]) == multiset([y, x])
            && Shared(SAMPLE, [x, y]) == 10 && Shared(SAMPLE, [y, x]) == 20
  {
    FirstWins(10, 20);
    FirstWins(20, 10);
  }

  lemma FirstWins(p: nat, q: nat)
    ensures Shared(SAMPLE, [SampleRegion(p), SampleRegion(q)]) == p
  {
    var x, y := SampleRegion(p), SampleRegion(q);
    assert [x, y][..1] == [x] && [x][..0] == [];
    var entry := Info(SM_SHARED, p, 9, 2, 1);
    assert TableOf(SAMPLE, [x]) == map[5 := entry.(taskRefs := 1)];
    assert TableOf(SAMPLE, [x, y]) == map[5 := entry] == map[][5 := entry];
    BelowEmpty(SharedOf(), OBJECT_IDS);
    BelowInsert(map[], 5, entry, SharedOf(), OBJECT_IDS);
  }
}
