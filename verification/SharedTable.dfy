/** The table of shared objects as it is built in memory: 137 chains, each hanging off a zeroed
    head, that together hold one finite map. */
module SharedTable {
  import opened SharedMemory

  const TABLE_SIZE: nat := 137

  function Bucket(id: ObjectId): (b: nat)
    ensures b < TABLE_SIZE
  {
    id % 137
  }

  class SharedInfo {
    var objId: ObjectId
    var shareMode: nat
    var pageCount: nat
    var refCount: nat
    var taskRefs: nat
    var size: nat
    var next: SharedInfo?
    ghost const home: nat    // the bucket whose chain the node belongs to
    ghost var live: bool     // allocated and not freed

    constructor Zeroed(ghost b: nat)
      ensures home == b
      ensures objId == 0 && shareMode == 0 && pageCount == 0 && next == null && live
    {
      objId, shareMode, pageCount, refCount, taskRefs, size, next, live := 0, 0, 0, 0, 0, 0, null, true;
      home := b;
    }

    constructor Of(top: Top, regionSize: nat)
      ensures objId == top.objId && next == null && live && home == Bucket(top.objId)
      ensures Rec() == Info(top.shareMode, top.sharedPages, top.refCount, 1, regionSize)
    {
      objId, shareMode, pageCount, refCount := top.objId, top.shareMode, top.sharedPages, top.refCount;
      taskRefs, size, next, live := 1, regionSize, null, true;
      home := Bucket(top.objId);
    }

    ghost function Rec(): Info
      reads this
    {
      Info(shareMode, pageCount, refCount, taskRefs, size)
    }

    /** `g_free`: never twice. */
    method Free()
      requires live
      modifies this`live
      ensures !live
    {
      live := false;
    }
  }

  datatype Entry = Entry(id: ObjectId, info: Info)

  /** `es` lists the part of `t` that belongs to bucket `b`, each object once. */
  ghost predicate Lists(es: seq<Entry>, b: nat, t: Table) {
    && (forall i :: 0 <= i < |es| ==>
          es[i].id != 0 && Bucket(es[i].id) == b && es[i].id in t && t[es[i].id] == es[i].info)
    && (forall i, j :: 0 <= i < j < |es| ==> es[i].id != es[j].id)
    && (forall id :: id in t && Bucket(id) == b ==> exists i :: 0 <= i < |es| && es[i].id == id)
  }

  /** A registration leaves the other buckets alone. */
  lemma ListsRegistered(es: seq<seq<Entry>>, gs: seq<seq<Entry>>, t: Table, top: Top, size: nat)
    requires |gs| == |es| && Bucket(top.objId) < |es|
    requires forall a :: 0 <= a < |es| ==> Lists(es[a], a, t)
    requires forall a :: 0 <= a < |es| ==>
               if a == Bucket(top.objId) then Lists(gs[a], a, Registered(t, top, size)) else gs[a] == es[a]
    ensures forall a :: 0 <= a < |gs| ==> Lists(gs[a], a, Registered(t, top, size))
  {
  }

  lemma ListsUpdated(es: seq<Entry>, i: nat, b: nat, t: Table, x: Info)
    requires Lists(es, b, t) && i < |es|
    ensures Lists(es[i := Entry(es[i].id, x)], b, t[es[i].id := x])
  {
    var fs, u := es[i := Entry(es[i].id, x)], t[es[i].id := x];
    forall id | id in u && Bucket(id) == b
      ensures exists j :: 0 <= j < |fs| && fs[j].id == id
    {
      assert id in t;
      var j :| 0 <= j < |es| && es[j].id == id;
      assert fs[j].id == id;
    }
  }

  lemma ListsAppended(es: seq<Entry>, b: nat, t: Table, id: ObjectId, x: Info)
    requires Lists(es, b, t) && id != 0 && Bucket(id) == b && forall i :: 0 <= i < |es| ==> es[i].id != id
    ensures id !in t && Lists(es + [Entry(id, x)], b, t[id := x])
  {
    var fs, u := es + [Entry(id, x)], t[id := x];
    assert fs[|es|].id == id;
    forall k | k in u && Bucket(k) == b
      ensures exists j :: 0 <= j < |fs| && fs[j].id == k
    {
      if k != id {
        var j :| 0 <= j < |es| && es[j].id == k;
        assert fs[j].id == k;
      }
    }
  }

  /** `c` is an acyclic list of allocated nodes, and behind its zeroed head it stores `es`. */
  ghost predicate Chain(c: seq<SharedInfo>, es: seq<Entry>, b: nat)
    reads set n | n in c
  {
    && |c| == |es| + 1
    && c[0].objId == 0 && c[0].shareMode == 0 && c[0].pageCount == 0
    && (forall i :: 0 <= i < |c| ==> c[i].home == b && c[i].live)
    && (forall i :: 0 <= i < |c| - 1 ==> c[i].next == c[i + 1]) && c[|c| - 1].next == null
    && (forall i, j :: 0 <= i < j < |c| ==> c[i] != c[j])
    && (forall i :: 1 <= i < |c| ==> c[i].objId == es[i - 1].id && c[i].Rec() == es[i - 1].info)
  }

  /** The search of `shared_table_register`: the node of the object, or the last node. */
  method Find(head: SharedInfo, objId: ObjectId, ghost c: seq<SharedInfo>, ghost es: seq<Entry>, ghost b: nat)
    returns (info: SharedInfo?, last: SharedInfo, ghost i: nat)
    requires Chain(c, es, b) && head == c[0]
    ensures i <= |c| && info == (if i < |c| then c[i] else null)
    ensures info != null ==> info.objId == objId
    ensures info == null ==> last == c[|c| - 1] && forall j :: 0 <= j < |c| ==> c[j].objId != objId
  {
    i := 0;
    info, last := head, head;
    while info != null
      invariant 0 <= i <= |c| && info == (if i < |c| then c[i] else null)
      invariant last == c[if i == 0 then 0 else i - 1]
      invariant forall j :: 0 <= j < i ==> c[j].objId != objId
      decreases |c| - i
    {
      assert info == c[i] && info.next == if i + 1 < |c| then c[i + 1] else null;
      if info.objId == objId {
        return;
      }
      last, info, i := info, info.next, i + 1;
    }
  }

  /** One more reference to the object of node `i`. */
  method Bump(info: SharedInfo, ghost c: seq<SharedInfo>, ghost es: seq<Entry>, ghost b: nat, ghost i: nat)
    returns (ghost fs: seq<Entry>)
    requires Chain(c, es, b) && i < |c| && c[i] == info
    modifies info`taskRefs
    ensures fs == if i == 0 then es
                  else es[i - 1 := Entry(es[i - 1].id, es[i - 1].info.(taskRefs := es[i - 1].info.taskRefs + 1))]
    ensures Chain(c, fs, b)
  {
    info.taskRefs := info.taskRefs + 1;
    fs := if i == 0 then es
          else es[i - 1 := Entry(es[i - 1].id, es[i - 1].info.(taskRefs := es[i - 1].info.taskRefs + 1))];
    assert forall j :: 0 <= j < |c| ==>
             && c[j].objId == old(c[j].objId) && c[j].next == old(c[j].next) && c[j].live
             && (j != i ==> c[j].Rec() == old(c[j].Rec()));
  }

  /** A new node behind `last`, the end of the chain. */
  method Append(last: SharedInfo, top: Top, size: nat, ghost c: seq<SharedInfo>, ghost es: seq<Entry>, ghost b: nat)
    returns (info: SharedInfo)
    requires Chain(c, es, b) && last == c[|c| - 1] && b == Bucket(top.objId)
    modifies last`next
    ensures fresh(info)
    ensures Chain(c + [info], es + [Entry(top.objId, Info(top.shareMode, top.sharedPages, top.refCount, 1, size))], b)
  {
    info := new SharedInfo.Of(top, size);
    last.next := info;
    ghost var d := c + [info];
    assert d[|c|] == info && d[|c| - 1].next == info;
    assert forall j :: 0 <= j < |c| ==> d[j] == c[j] && d[j] != info
                                        && c[j].objId == old(c[j].objId) && c[j].Rec() == old(c[j].Rec());
    assert forall j :: 0 <= j < |c| - 1 ==> d[j].next == old(c[j].next) == d[j + 1];
  }

  lemma NotListed(c: seq<SharedInfo>, es: seq<Entry>, b: nat, id: ObjectId)
    requires Chain(c, es, b) && forall j :: 0 <= j < |c| ==> c[j].objId != id
    ensures id != 0 && forall i :: 0 <= i < |es| ==> es[i].id != id
  {
    assert c[0].objId == 0;
    forall i | 0 <= i < |es| ensures es[i].id != id {
      assert es[i].id == c[i + 1].objId;
    }
  }

  /** `shared_table_register` within one chain.  The zeroed head of bucket 0 swallows object 0. */
  method RegisterIn(head: SharedInfo, top: Top, size: nat,
                    ghost c: seq<SharedInfo>, ghost es: seq<Entry>, ghost b: nat, ghost t: Table)
    returns (ghost d: seq<SharedInfo>, ghost fs: seq<Entry>)
    requires Chain(c, es, b) && Lists(es, b, t) && head == c[0] && b == Bucket(top.objId)
    modifies set n | n in c
    ensures Chain(d, fs, b) && Lists(fs, b, Registered(t, top, size)) && d[0] == head
    ensures d == c || (|d| == |c| + 1 && c == d[..|c|] && fresh(d[|c|]))
  {
    var info, last, i := Find(head, top.objId, c, es, b);
    if info != null {
      assert i == 0 <==> top.objId == 0;
      d := c;
      fs := Bump(info, c, es, b, i);
      if i != 0 {
        ListsUpdated(es, i - 1, b, t, fs[i - 1].info);
      }
    } else {
      var x := Info(top.shareMode, top.sharedPages, top.refCount, 1, size);
      NotListed(c, es, b, top.objId);
      ListsAppended(es, b, t, top.objId, x);
      var n := Append(last, top, size, c, es, b);
      d, fs := c + [n], es + [Entry(top.objId, x)];
    }
  }

  /** `cs` are the chains behind the heads in `table`. */
  ghost predicate Chains(table: array<SharedInfo>, cs: seq<seq<SharedInfo>>, es: seq<seq<Entry>>, repr: set<SharedInfo>)
    reads table, repr
  {
    && table.Length == |cs| == |es| == TABLE_SIZE
    && (forall b :: 0 <= b < TABLE_SIZE ==> (forall n :: n in cs[b] ==> n in repr))
    && (forall b :: 0 <= b < TABLE_SIZE ==> Chain(cs[b], es[b], b) && cs[b][0] == table[b])
  }

  /** `shared_table_init`. */
  method Heads() returns (table: array<SharedInfo>, ghost cs: seq<seq<SharedInfo>>, ghost repr: set<SharedInfo>)
    ensures fresh(table) && fresh(repr) && Chains(table, cs, seq(TABLE_SIZE, b => []), repr)
  {
    var filler := new SharedInfo.Zeroed(0);
    table := new SharedInfo[TABLE_SIZE](_ => filler);
    cs, repr := [], {};
    for b := 0 to TABLE_SIZE
      invariant |cs| == b && table.Length == TABLE_SIZE && fresh(table) && fresh(repr)
      invariant forall i :: 0 <= i < b ==> cs[i] == [table[i]] && table[i] in repr && Chain(cs[i], [], i)
    {
      var head := new SharedInfo.Zeroed(b);
      table[b] := head;
      cs, repr := cs + [[head]], repr + {head};
    }
  }

  /** `shared_table_register`: only the chain of the object's bucket is touched. */
  method RegisterAt(table: array<SharedInfo>, top: Top, size: nat,
                    ghost cs: seq<seq<SharedInfo>>, ghost es: seq<seq<Entry>>, ghost repr: set<SharedInfo>,
                    ghost t: Table)
    returns (ghost d: seq<SharedInfo>, ghost fs: seq<Entry>)
    requires Chains(table, cs, es, repr) && Lists(es[Bucket(top.objId)], Bucket(top.objId), t)
    modifies repr
    ensures var b := Bucket(top.objId);
            && Lists(fs, b, Registered(t, top, size)) && (forall n :: n in d ==> n in repr || fresh(n))
            && Chain(d, fs, b) && d[0] == table[b]
    ensures forall a :: 0 <= a < TABLE_SIZE && a != Bucket(top.objId) ==> Chain(cs[a], es[a], a)
  {
    var b := Bucket(top.objId);
    d, fs := RegisterIn(table[b], top, size, cs[b], es[b], b, t);
    forall a | 0 <= a < TABLE_SIZE && a != b
      ensures Chain(cs[a], es[a], a)
    {
      assert forall n :: n in cs[a] ==> n.home == a && n !in cs[b];
    }
  }

  lemma ChainsReplaced(table: array<SharedInfo>, cs: seq<seq<SharedInfo>>, es: seq<seq<Entry>>, repr: set<SharedInfo>,
                       b: nat, d: seq<SharedInfo>, fs: seq<Entry>)
    requires table.Length == |cs| == |es| == TABLE_SIZE && b < TABLE_SIZE
    requires forall a :: 0 <= a < TABLE_SIZE ==> (forall n :: n in cs[a] ==> n in repr)
    requires forall a :: 0 <= a < TABLE_SIZE && a != b ==> Chain(cs[a], es[a], a) && cs[a][0] == table[a]
    requires Chain(d, fs, b) && d[0] == table[b]
    ensures Chains(table, cs[b := d], es[b := fs], repr + set n | n in d)
  {
  }

  /** What a table in memory stands for. */
  datatype Model = Model(chains: seq<seq<SharedInfo>>, entries: seq<seq<Entry>>, repr: set<SharedInfo>, contents: Table)

  ghost predicate Stores(table: array<SharedInfo>, m: Model)
    reads table, m.repr
  {
    && Chains(table, m.chains, m.entries, m.repr) && 0 !in m.contents
    && (forall b :: 0 <= b < TABLE_SIZE ==> Lists(m.entries[b], b, m.contents))
  }

  /** `shared_table_register`. */
  method RegisterObject(table: array<SharedInfo>, top: Top, size: nat, ghost m: Model) returns (ghost m': Model)
    requires Stores(table, m)
    modifies m.repr
    ensures Stores(table, m') && m'.contents == Registered(m.contents, top, size)
    ensures fresh(m'.repr - m.repr)
  {
    ghost var b := Bucket(top.objId);
    ghost var d, fs := RegisterAt(table, top, size, m.chains, m.entries, m.repr, m.contents);
    m' := Model(m.chains[b := d], m.entries[b := fs], m.repr + (set n | n in d), Registered(m.contents, top, size));
    ChainsReplaced(table, m.chains, m.entries, m.repr, b, d, fs);
    ListsRegistered(m.entries, m'.entries, m.contents, top, size);
  }

  // ----- freeing

  method FreeChain(head: SharedInfo, ghost c: seq<SharedInfo>, ghost es: seq<Entry>, ghost b: nat)
    requires Chain(c, es, b) && head == c[0]
    modifies set n | n in c
    ensures c[0].live && forall i :: 1 <= i < |c| ==> !c[i].live
  {
    var info := head.next;
    ghost var i := 1;
    while info != null
      invariant 1 <= i <= |c| && info == if i < |c| then c[i] else null
      invariant forall j :: 0 <= j < |c| ==> c[j].next == old(c[j].next) && (c[j].live <==> j == 0 || i <= j)
      decreases |c| - i
    {
      assert info == c[i];
      var next := info.next;
      info.Free();
      info, i := next, i + 1;
    }
  }

  /** `shared_table_free`: every node behind a head is freed, and none of them twice. */
  method FreeTable(table: array<SharedInfo>, ghost m: Model)
    requires Stores(table, m)
    modifies m.repr
    ensures forall b, i :: 0 <= b < TABLE_SIZE && 0 <= i < |m.chains[b]| ==> (m.chains[b][i].live <==> i == 0)
  {
    ghost var cs: seq<seq<SharedInfo>> := m.chains;
    for b := 0 to TABLE_SIZE
      invariant forall a, i :: 0 <= a < b && 0 <= i < |cs[a]| ==> (cs[a][i].live <==> i == 0)
      invariant forall a :: b <= a < TABLE_SIZE ==> Chain(cs[a], m.entries[a], a)
      invariant forall a, i :: 0 <= a < TABLE_SIZE && 0 <= i < |cs[a]| ==> cs[a][i].home == a
    {
      FreeChain(table[b], cs[b], m.entries[b], b);
      forall a | b < a < TABLE_SIZE
        ensures Chain(cs[a], m.entries[a], a)
      {
        assert forall n :: n in cs[a] ==> n.home == a && n !in cs[b];
      }
    }
  }

  // ----- summing

  ghost function SumOver(es: seq<Entry>, f: Info -> nat): nat {
    if es == [] then 0 else SumOver(es[..|es| - 1], f) + f(es[|es| - 1].info)
  }

  ghost function Flat(es: seq<seq<Entry>>): seq<Entry> {
    if es == [] then [] else Flat(es[..|es| - 1]) + es[|es| - 1]
  }

  ghost function MapOf(es: seq<Entry>): Table {
    if es == [] then map[] else MapOf(es[..|es| - 1])[es[|es| - 1].id := es[|es| - 1].info]
  }

  ghost predicate Distinct(es: seq<Entry>) {
    forall i, j :: 0 <= i < j < |es| ==> es[i].id != es[j].id
  }

  lemma {:induction false} MapOfEntries(es: seq<Entry>)
    requires Distinct(es)
    ensures forall i :: 0 <= i < |es| ==> es[i].id in MapOf(es) && MapOf(es)[es[i].id] == es[i].info
    ensures forall id :: id in MapOf(es) ==> exists i :: 0 <= i < |es| && es[i].id == id
  {
    if es != [] {
      var init := es[..|es| - 1];
      MapOfEntries(init);
      forall id | id in MapOf(es)
        ensures exists i :: 0 <= i < |es| && es[i].id == id
      {
        if id != es[|es| - 1].id {
          assert id in MapOf(init);
          var i :| 0 <= i < |init| && init[i].id == id;
          assert es[i].id == id;
        }
      }
    }
  }

  lemma {:induction false} SumOfMap(es: seq<Entry>, f: Info -> nat)
    requires Distinct(es)
    ensures SumOver(es, f) == Total(MapOf(es), f)
  {
    if es == [] {
      BelowEmpty(f, OBJECT_IDS);
    } else {
      var init, e := es[..|es| - 1], es[|es| - 1];
      SumOfMap(init, f);
      MapOfEntries(init);
      assert e.id !in MapOf(init);
      BelowInsert(MapOf(init), e.id, e.info, f, OBJECT_IDS);
    }
  }

  lemma {:induction false} SumConcat(a: seq<Entry>, b: seq<Entry>, f: Info -> nat)
    ensures SumOver(a + b, f) == SumOver(a, f) + SumOver(b, f)
  {
    if b == [] {
      assert a + b == a;
    } else {
      assert (a + b)[..|a + b| - 1] == a + b[..|b| - 1];
      SumConcat(a, b[..|b| - 1], f);
    }
  }

  /** The first `k` buckets list exactly the objects that belong there. */
  ghost predicate ListsBelow(es: seq<Entry>, k: nat, t: Table) {
    && Distinct(es)
    && (forall i :: 0 <= i < |es| ==> Bucket(es[i].id) < k && es[i].id in t && t[es[i].id] == es[i].info)
    && (forall id :: id in t && Bucket(id) < k ==> exists i :: 0 <= i < |es| && es[i].id == id)
  }

  lemma ListsBelowNext(flat: seq<Entry>, es: seq<Entry>, k: nat, t: Table)
    requires ListsBelow(flat, k, t) && Lists(es, k, t)
    ensures ListsBelow(flat + es, k + 1, t)
  {
    var all := flat + es;
    assert forall i :: 0 <= i < |all| ==> all[i] == if i < |flat| then flat[i] else es[i - |flat|];
    forall id | id in t && Bucket(id) < k + 1
      ensures exists i :: 0 <= i < |all| && all[i].id == id
    {
      if Bucket(id) < k {
        var i :| 0 <= i < |flat| && flat[i].id == id;
        assert all[i].id == id;
      } else {
        var i :| 0 <= i < |es| && es[i].id == id;
        assert all[|flat| + i].id == id;
      }
    }
  }

  lemma {:induction false} FlatLists(es: seq<seq<Entry>>, t: Table)
    requires |es| <= TABLE_SIZE && forall b :: 0 <= b < |es| ==> Lists(es[b], b, t)
    ensures ListsBelow(Flat(es), |es|, t)
  {
    if es != [] {
      FlatLists(es[..|es| - 1], t);
      ListsBelowNext(Flat(es[..|es| - 1]), es[|es| - 1], |es| - 1, t);
    }
  }

  lemma FlatIsTable(flat: seq<Entry>, t: Table)
    requires ListsBelow(flat, TABLE_SIZE, t)
    ensures MapOf(flat) == t
  {
    MapOfEntries(flat);
    forall id: ObjectId ensures id in MapOf(flat) <==> id in t {
      if id in t { assert Bucket(id) < TABLE_SIZE; }
    }
    forall id | id in t ensures MapOf(flat)[id] == t[id] {
      var i :| 0 <= i < |flat| && flat[i].id == id;
    }
  }

  /** Adding up all chains adds up the table. */
  lemma SumOfTable(es: seq<seq<Entry>>, t: Table, f: Info -> nat)
    requires |es| == TABLE_SIZE && forall b :: 0 <= b < |es| ==> Lists(es[b], b, t)
    ensures SumOver(Flat(es), f) == Total(t, f)
  {
    FlatLists(es, t);
    FlatIsTable(Flat(es), t);
    SumOfMap(Flat(es), f);
  }

  lemma SumNext(es: seq<Entry>, k: nat, f: Info -> nat, page: nat)
    requires k < |es|
    ensures SumOver(es[..k + 1], f) == SumOver(es[..k], f) + f(es[k].info)
    ensures page * SumOver(es[..k + 1], f) == page * SumOver(es[..k], f) + f(es[k].info) * page
  {
    assert es[..k + 1][..k] == es[..k];
    Distribute(page, SumOver(es[..k], f), f(es[k].info));
  }

  /** What node `i` of a chain adds; the zeroed head adds nothing. */
  lemma NodeAdds(c: seq<SharedInfo>, es: seq<Entry>, b: nat, i: nat, page: nat)
    requires Chain(c, es, b) && i < |c|
    ensures c[i].next == if i + 1 < |c| then c[i + 1] else null
    ensures var done := es[..if i == 0 then 0 else i - 1];
            && page * SumOver(es[..i], PrivateOf())
               == page * SumOver(done, PrivateOf()) + PrivateOf()(c[i].Rec()) * page
            && page * SumOver(es[..i], SharedOf()) == page * SumOver(done, SharedOf()) + SharedOf()(c[i].Rec()) * page
            && SumOver(es[..i], SizeOf()) == SumOver(done, SizeOf()) + SizeOf()(c[i].Rec())
  {
    if i > 0 {
      SumNext(es, i - 1, PrivateOf(), page);
      SumNext(es, i - 1, SharedOf(), page);
      SumNext(es, i - 1, SizeOf(), page);
    }
  }

  /** The inner summing loop: `priv`, `vpriv` and `shared` in bytes. */
  method SumChain(head: SharedInfo, page: nat, p: nat, v: nat, s: nat,
                  ghost c: seq<SharedInfo>, ghost es: seq<Entry>, ghost b: nat)
    returns (priv: nat, vpriv: nat, shared: nat)
    requires Chain(c, es, b) && head == c[0]
    ensures priv == p + page * SumOver(es, PrivateOf())
    ensures vpriv == v + SumOver(es, SizeOf())
    ensures shared == s + page * SumOver(es, SharedOf())
  {
    priv, vpriv, shared := p, v, s;
    var sinfo: SharedInfo? := head;
    ghost var i := 0;
    while sinfo != null
      invariant 0 <= i <= |c| && sinfo == if i < |c| then c[i] else null
      invariant var done := es[..if i == 0 then 0 else i - 1];
                && priv == p + page * SumOver(done, PrivateOf())
                && vpriv == v + SumOver(done, SizeOf())
                && shared == s + page * SumOver(done, SharedOf())
      decreases |c| - i
    {
      NodeAdds(c, es, b, i, page);
      if sinfo.shareMode == SM_SHARED && sinfo.refCount == sinfo.taskRefs {
        priv := priv + sinfo.pageCount * page;
        vpriv := vpriv + sinfo.size;
      } else {
        shared := shared + sinfo.pageCount * page;
      }
      sinfo, i := sinfo.next, i + 1;
    }
    assert es[..|es|] == es;
  }

  lemma Distribute(p: nat, a: nat, b: nat)
    ensures p * (a + b) == p * a + p * b
    ensures p * b == b * p
  {
  }

  /** The summing loops over the whole table. */
  method SumTable(table: array<SharedInfo>, page: nat, p: nat, v: nat, ghost m: Model)
    returns (priv: nat, vpriv: nat, shared: nat)
    requires Stores(table, m)
    ensures priv == p + page * Total(m.contents, PrivateOf())
    ensures vpriv == v + Total(m.contents, SizeOf())
    ensures shared == page * Total(m.contents, SharedOf())
  {
    priv, vpriv, shared := p, v, 0;
    ghost var es: seq<seq<Entry>> := m.entries;
    for b := 0 to TABLE_SIZE
      invariant priv == p + page * SumOver(Flat(es[..b]), PrivateOf())
      invariant vpriv == v + SumOver(Flat(es[..b]), SizeOf())
      invariant shared == page * SumOver(Flat(es[..b]), SharedOf())
    {
      priv, vpriv, shared := SumChain(table[b], page, priv, vpriv, shared, m.chains[b], es[b], b);
      FlatNext(es, b, PrivateOf(), page);
      FlatNext(es, b, SizeOf(), page);
      FlatNext(es, b, SharedOf(), page);
    }
    assert es[..TABLE_SIZE] == es;
    SumOfTable(es, m.contents, PrivateOf());
    SumOfTable(es, m.contents, SizeOf());
    SumOfTable(es, m.contents, SharedOf());
  }

  lemma FlatNext(es: seq<seq<Entry>>, b: nat, f: Info -> nat, page: nat)
    requires b < |es|
    ensures SumOver(Flat(es[..b + 1]), f) == SumOver(Flat(es[..b]), f) + SumOver(es[b], f)
    ensures page * SumOver(Flat(es[..b + 1]), f) == page * SumOver(Flat(es[..b]), f) + page * SumOver(es[b], f)
  {
    assert es[..b + 1][..b] == es[..b];
    SumConcat(Flat(es[..b]), es[b], f);
    Distribute(page, SumOver(Flat(es[..b]), f), SumOver(es[b], f));
  }

  // ----- the whole query

  datatype ProcMem = ProcMem(rss: nat, share: nat, size: nat, vsize: int)

  /** One region, once the segments have been dealt with. */
  method CountRegion(stable: array<SharedInfo>, region: Region, g: Segments, page: nat, p: nat, v: nat, ghost m: Model)
    returns (priv: nat, vpriv: nat, ghost m': Model)
    requires Stores(stable, m) && Counted(g, region)
    modifies m.repr
    ensures Stores(stable, m') && fresh(m'.repr - m.repr)
    ensures m'.contents == if Registers(g, region) then Registered(m.contents, region.top, region.size) else m.contents
    ensures priv == p + page * DirectPages(g, region) && vpriv == v + DirectSize(g, page, region)
  {
    priv, vpriv, m' := p, v, m;
    Distribute(page, region.top.privatePages, region.top.sharedPages);
    Distribute(page, 0, region.top.privatePages);
    if region.top.shareMode == SM_COW {
      if region.top.refCount == 1 {
        priv := priv + region.top.privatePages * page + region.top.sharedPages * page;
        vpriv := vpriv + region.size;
      } else {
        m' := RegisterObject(stable, region.top, region.size, m);
        vpriv := vpriv + region.top.privatePages * page;
      }
    } else if region.top.shareMode == SM_PRIVATE {
      priv := priv + region.top.privatePages * page;
      vpriv := vpriv + region.size;
    } else if region.top.shareMode == SM_SHARED {
      m' := RegisterObject(stable, region.top, region.size, m);
    }
  }

  /** The body of the region loop. */
  method WalkRegion(stable: array<SharedInfo>, region: Region, g: Segments, page: nat, p: nat, v: nat, seen: bool,
                    ghost m: Model)
    returns (priv: nat, vpriv: nat, split: bool, ghost m': Model)
    requires Stores(stable, m)
    modifies m.repr
    ensures Stores(stable, m') && fresh(m'.repr - m.repr)
    ensures m'.contents == if Registers(g, region) then Registered(m.contents, region.top, region.size) else m.contents
    ensures priv == p + page * DirectPages(g, region) && vpriv == v + DirectSize(g, page, region)
    ensures split == (seen || Splits(g, region))
  {
    priv, vpriv, split, m' := p, v, seen, m;
    if g.textStart <= region.address < g.dataEnd {
      if !split && region.top.shareMode == SM_EMPTY && region.reserved {
        split := true;
      }
      if region.top.shareMode != SM_PRIVATE {
        return;
      }
    }
    priv, vpriv, m' := CountRegion(stable, region, g, page, priv, vpriv, m);
  }

  lemma RegionsNext(g: Segments, rs: seq<Region>, i: nat, page: nat)
    requires i < |rs|
    ensures TableOf(g, rs[..i + 1])
         == if Registers(g, rs[i]) then Registered(TableOf(g, rs[..i]), rs[i].top, rs[i].size)
                                       else TableOf(g, rs[..i])
    ensures page * Tally(rs[..i + 1], PagesOf(g)) == page * Tally(rs[..i], PagesOf(g)) + page * DirectPages(g, rs[i])
    ensures Tally(rs[..i + 1], SizesOf(g, page)) == Tally(rs[..i], SizesOf(g, page)) + DirectSize(g, page, rs[i])
    ensures AnySplits(g, rs[..i + 1]) <==> AnySplits(g, rs[..i]) || Splits(g, rs[i])
  {
    assert rs[..i + 1][..i] == rs[..i];
    AnySplitsNext(g, rs, i);
    Distribute(page, Tally(rs[..i], PagesOf(g)), DirectPages(g, rs[i]));
  }

  /** The region loop of `glibtop_get_proc_mem_p`. */
  method WalkRegions(regions: seq<Region>, g: Segments, page: nat)
    returns (stable: array<SharedInfo>, priv: nat, vpriv: nat, split: bool, ghost m: Model)
    ensures Stores(stable, m) && fresh(m.repr) && m.contents == TableOf(g, regions)
    ensures priv == page * Tally(regions, PagesOf(g)) && vpriv == Tally(regions, SizesOf(g, page))
    ensures split == AnySplits(g, regions)
  {
    ghost var chains, repr;
    stable, chains, repr := Heads();
    m := Model(chains, seq(TABLE_SIZE, b => []), repr, map[]);
    priv, vpriv, split := 0, 0, false;
    for i := 0 to |regions|
      invariant Stores(stable, m) && fresh(m.repr) && m.contents == TableOf(g, regions[..i])
      invariant priv == page * Tally(regions[..i], PagesOf(g))
      invariant vpriv == Tally(regions[..i], SizesOf(g, page))
      invariant split == AnySplits(g, regions[..i])
    {
      RegionsNext(g, regions, i, page);
      priv, vpriv, split, m := WalkRegion(stable, regions[i], g, page, priv, vpriv, split, m);
    }
    assert regions[..|regions|] == regions;
  }

  /** What the query reports, in terms of the regions alone. */
  method GetProcMem(regions: seq<Region>, g: Segments, page: nat, virtualSize: int) returns (r: ProcMem)
    ensures r.rss == page * Private(g, regions)
    ensures r.share == page * Shared(g, regions)
    ensures r.size == PrivateSize(g, page, regions)
    ensures r.vsize == virtualSize - if AnySplits(g, regions) then g.dataEnd - g.textStart else 0
  {
    var stable, priv, vpriv, split, m := WalkRegions(regions, g, page);
    var shared;
    Distribute(page, Tally(regions, PagesOf(g)), Total(m.contents, PrivateOf()));
    priv, vpriv, shared := SumTable(stable, page, priv, vpriv, m);
    FreeTable(stable, m);
    r := ProcMem(priv, shared, vpriv, if split then virtualSize - (g.dataEnd - g.textStart) else virtualSize);
  }

  /** Resident and shared pages together: the pages counted directly, and each distinct object once. */
  lemma ReportConserves(g: Segments, regions: seq<Region>)
    ensures Private(g, regions) + Shared(g, regions)
         == Tally(regions, PagesOf(g)) + Total(TableOf(g, regions), AllPagesOf())
  {
    PagesConserved(TableOf(g, regions));
  }
}

