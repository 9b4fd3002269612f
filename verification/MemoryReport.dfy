/** What one more region adds to a process's memory report, and what the report adds up to, in the
    fields of the regions. */
module MemoryReport {
  import opened SharedMemory

  /** Inside the segments of the shared libraries only private regions are looked at. */
  ghost predicate Skipped(g: Segments, r: Region) {
    g.textStart <= r.address < g.dataEnd && r.top.shareMode != SM_PRIVATE
  }

  /** Region `r` goes into the table of objects. */
  ghost predicate Gathered(g: Segments, r: Region) {
    !Skipped(g, r) && (r.top.shareMode == SM_SHARED || (r.top.shareMode == SM_COW && r.top.refCount != 1))
  }

  /** With `n` regions in this task, the object of entry `e` is used by no other task. */
  ghost predicate Alone(e: Info, n: nat) { e.shareMode == SM_SHARED && e.refCount == n }

  function When(b: bool, n: nat): nat { if b then n else 0 }

  lemma Appends(g: Segments, page: nat, rs: seq<Region>, r: Region)
    ensures Tally(rs + [r], PagesOf(g)) == Tally(rs, PagesOf(g)) + DirectPages(g, r)
    ensures Tally(rs + [r], SizesOf(g, page)) == Tally(rs, SizesOf(g, page)) + DirectSize(g, page, r)
    ensures TableOf(g, rs + [r])
         == if Gathered(g, r) then Registered(TableOf(g, rs), r.top, r.size) else TableOf(g, rs)
  {
    TallySnoc(rs, r, PagesOf(g));
    TallySnoc(rs, r, SizesOf(g, page));
    assert (rs + [r])[..|rs|] == rs;
  }

  /** Private regions, anywhere, and copies that nobody else has, outside the segments, count at once. */
  lemma DirectAdds(g: Segments, page: nat, rs: seq<Region>, r: Region)
    requires r.top.shareMode == SM_PRIVATE || (r.top.shareMode == SM_COW && r.top.refCount == 1 && !Skipped(g, r))
    ensures Private(g, rs + [r])
         == Private(g, rs) + r.top.privatePages + When(r.top.shareMode == SM_COW, r.top.sharedPages)
    ensures Shared(g, rs + [r]) == Shared(g, rs)
    ensures PrivateSize(g, page, rs + [r]) == PrivateSize(g, page, rs) + r.size
  {
    Appends(g, page, rs, r);
  }

  /** Regions inside the segments, of other modes, and without an object count for nothing, except that
      a shared copy has private address space. */
  lemma NothingAdds(g: Segments, page: nat, rs: seq<Region>, r: Region)
    requires Skipped(g, r) || r.top.shareMode !in {SM_COW, SM_PRIVATE, SM_SHARED}
             || (Gathered(g, r) && r.top.objId == 0)
    ensures Private(g, rs + [r]) == Private(g, rs) && Shared(g, rs + [r]) == Shared(g, rs)
    ensures PrivateSize(g, page, rs + [r])
         == PrivateSize(g, page, rs)
            + When(!Skipped(g, r) && r.top.shareMode == SM_COW, r.top.privatePages * page)
  {
    Appends(g, page, rs, r);
  }

  /** The first region of an object: its shared pages are private if the task is alone with it. */
  lemma FirstAdds(g: Segments, page: nat, rs: seq<Region>, r: Region)
    requires Gathered(g, r) && r.top.objId != 0 && r.top.objId !in TableOf(g, rs)
    ensures var alone := r.top.shareMode == SM_SHARED && r.top.refCount == 1;
            && Private(g, rs + [r]) == Private(g, rs) + When(alone, r.top.sharedPages)
            && Shared(g, rs + [r]) == Shared(g, rs) + When(!alone, r.top.sharedPages)
            && PrivateSize(g, page, rs + [r])
               == PrivateSize(g, page, rs)
                  + When(alone, r.size) + When(r.top.shareMode == SM_COW, r.top.privatePages * page)
    ensures TableOf(g, rs + [r])[r.top.objId] == Info(r.top.shareMode, r.top.sharedPages, r.top.refCount, 1, r.size)
  {
    Appends(g, page, rs, r);
    var t, e := TableOf(g, rs), EntryOf(r, 1);
    BelowInsert(t, r.top.objId, e, PrivateOf(), OBJECT_IDS);
    BelowInsert(t, r.top.objId, e, SharedOf(), OBJECT_IDS);
    BelowInsert(t, r.top.objId, e, SizeOf(), OBJECT_IDS);
  }

  /** A further region of an object is only counted, which may move the object's pages from the shared
      to the private ones, or back. */
  lemma FurtherAdds(g: Segments, page: nat, rs: seq<Region>, r: Region)
    requires Gathered(g, r) && r.top.objId in TableOf(g, rs)
    ensures var e := TableOf(g, rs)[r.top.objId];
            var before, after := Alone(e, e.taskRefs), Alone(e, e.taskRefs + 1);
            && Private(g, rs + [r]) + When(before, e.pageCount) == Private(g, rs) + When(after, e.pageCount)
            && Shared(g, rs + [r]) + When(!before, e.pageCount) == Shared(g, rs) + When(!after, e.pageCount)
            && PrivateSize(g, page, rs + [r]) + When(before, e.size)
               == PrivateSize(g, page, rs)
                  + When(after, e.size) + When(r.top.shareMode == SM_COW, r.top.privatePages * page)
            && TableOf(g, rs + [r])[r.top.objId] == e.(taskRefs := e.taskRefs + 1)
  {
    Appends(g, page, rs, r);
    TableContents(g, rs, r.top.objId);
    var t, u, id := TableOf(g, rs), TableOf(g, rs + [r]), r.top.objId;
    BelowDiffers(u, t, PrivateOf(), id, OBJECT_IDS);
    BelowDiffers(u, t, SharedOf(), id, OBJECT_IDS);
    BelowDiffers(u, t, SizeOf(), id, OBJECT_IDS);
  }

  // ----- what the report adds up to

  /** Some region of `rs` has brought object `id` into the table. */
  ghost predicate Met(g: Segments, rs: seq<Region>, id: ObjectId) {
    id != 0 && exists q :: q in rs && Gathered(g, q) && q.top.objId == id
  }

  lemma MetIff(g: Segments, rs: seq<Region>, id: ObjectId)
    ensures id in TableOf(g, rs) <==> Met(g, rs, id)
  {
    TableContents(g, rs, id);
  }

  /** Pages that region `r` brings behind `rs`: those of an object come with its first region. */
  ghost function Brought(g: Segments, rs: seq<Region>, r: Region): nat {
    if Skipped(g, r) then 0
    else if r.top.shareMode == SM_PRIVATE then r.top.privatePages
    else if r.top.shareMode == SM_COW && r.top.refCount == 1 then r.top.privatePages + r.top.sharedPages
    else if r.top.shareMode !in {SM_COW, SM_SHARED} || r.top.objId == 0 || Met(g, rs, r.top.objId) then 0
    else r.top.sharedPages
  }

  ghost function AllBrought(g: Segments, rs: seq<Region>): nat {
    if rs == [] then 0
    else AllBrought(g, rs[..|rs| - 1]) + Brought(g, rs[..|rs| - 1], rs[|rs| - 1])
  }

  lemma ReportOfNone(g: Segments)
    ensures Private(g, []) == 0 && Shared(g, []) == 0
  {
    BelowEmpty(PrivateOf(), OBJECT_IDS);
    BelowEmpty(SharedOf(), OBJECT_IDS);
  }

  lemma OneMore(g: Segments, rs: seq<Region>, r: Region)
    ensures Private(g, rs + [r]) + Shared(g, rs + [r]) == Private(g, rs) + Shared(g, rs) + Brought(g, rs, r)
  {
    MetIff(g, rs, r.top.objId);
    if !Gathered(g, r) {
      if Skipped(g, r) || r.top.shareMode !in {SM_COW, SM_PRIVATE} { NothingAdds(g, 1, rs, r); }
      else { DirectAdds(g, 1, rs, r); }
    } else if r.top.objId == 0 {
      NothingAdds(g, 1, rs, r);
    } else if r.top.objId in TableOf(g, rs) {
      FurtherAdds(g, 1, rs, r);
    } else {
      FirstAdds(g, 1, rs, r);
    }
  }

  /** `rss` and `share` together, in pages: what each region brings, an object's pages once. */
  lemma {:induction false} ReportAddsUp(g: Segments, rs: seq<Region>)
    ensures Private(g, rs) + Shared(g, rs) == AllBrought(g, rs)
  {
    if rs == [] {
      ReportOfNone(g);
    } else {
      var init, r := rs[..|rs| - 1], rs[|rs| - 1];
      assert rs == init + [r];
      ReportAddsUp(g, init);
      OneMore(g, init, r);
    }
  }

  // ----- a task that shares nothing

  /** Where the regions of object `id` stand in `rs`. */
  ghost function Users(g: Segments, rs: seq<Region>, id: ObjectId): set<int> {
    set i | 0 <= i < |rs| && Gathered(g, rs[i]) && rs[i].top.objId == id
  }

  lemma UsersNext(g: Segments, rs: seq<Region>, r: Region, id: ObjectId)
    ensures Users(g, rs + [r], id)
         == Users(g, rs, id) + if Gathered(g, r) && r.top.objId == id then {|rs|} else {}
  {
    assert forall i :: 0 <= i < |rs| ==> (rs + [r])[i] == rs[i];
  }

  lemma {:induction false} UsersCounted(g: Segments, rs: seq<Region>, id: ObjectId)
    ensures |Users(g, rs, id)| == Tally(rs, CountOf(g, id))
  {
    if rs != [] {
      var init, r := rs[..|rs| - 1], rs[|rs| - 1];
      assert rs == init + [r];
      UsersCounted(g, init, id);
      UsersNext(g, init, r, id);
    }
  }

  /** No other task uses an object of this one, and every region has the pages that its mode allows. */
  ghost predicate SharesNothing(g: Segments, rs: seq<Region>) {
    forall r :: r in rs && !Skipped(g, r) ==>
      match r.top.shareMode
      case 1 => r.top.refCount == 1
      case 2 => r.top.sharedPages == 0
      case 4 => r.top.privatePages == 0 && r.top.objId != 0 && r.top.refCount == |Users(g, rs, r.top.objId)|
      case _ => r.top.privatePages == r.top.sharedPages == 0
  }

  /** All resident pages of the regions that are looked at, the shared ones of an object once. */
  ghost function Resident(g: Segments, rs: seq<Region>): nat {
    if rs == [] then 0
    else
      var init, r := rs[..|rs| - 1], rs[|rs| - 1];
      Resident(g, init)
      + if Skipped(g, r) then 0
        else r.top.privatePages + When(r.top.shareMode != SM_SHARED || !Met(g, init, r.top.objId), r.top.sharedPages)
  }

  lemma {:induction false} NothingShared(g: Segments, rs: seq<Region>, n: nat)
    requires SharesNothing(g, rs) && n <= OBJECT_IDS
    ensures Below(TableOf(g, rs), SharedOf(), n) == 0
  {
    if n > 0 {
      var id: ObjectId := n - 1;
      NothingShared(g, rs, n - 1);
      TableContents(g, rs, id);
      UsersCounted(g, rs, id);
      if id in TableOf(g, rs) {
        FirstIsIn(g, rs, id);
        var f := First(g, rs, id);
        assert f in rs && !Skipped(g, f) && Gathered(g, f);
      }
    }
  }

  lemma {:induction false} BroughtIsResident(g: Segments, rs: seq<Region>, k: nat)
    requires SharesNothing(g, rs) && k <= |rs|
    ensures AllBrought(g, rs[..k]) == Resident(g, rs[..k])
  {
    if k > 0 {
      BroughtIsResident(g, rs, k - 1);
      assert rs[..k][..k - 1] == rs[..k - 1] && rs[k - 1] in rs;
    }
  }

  /** When every object is used by this task alone, nothing is shared, and what is private are all
      resident pages, the shared ones of an object once. */
  lemma AloneIsResident(g: Segments, rs: seq<Region>)
    requires SharesNothing(g, rs)
    ensures Shared(g, rs) == 0 && Private(g, rs) == Resident(g, rs)
  {
    NothingShared(g, rs, OBJECT_IDS);
    ReportAddsUp(g, rs);
    BroughtIsResident(g, rs, |rs|);
    assert rs[..|rs|] == rs;
  }

  /** The address space that is not the task's own is taken off when a reserved empty region lies inside
      the segments. */
  lemma SplitIff(g: Segments, rs: seq<Region>)
    ensures AnySplits(g, rs) <==>
            exists i :: 0 <= i < |rs| && g.textStart <= rs[i].address < g.dataEnd && rs[i].top.shareMode == 3
                        && rs[i].reserved
  {
    forall i | 0 <= i < |rs| && Splits(g, rs[i]) ensures AnySplits(g, rs) { assert rs[i] in rs; }
  }
}
