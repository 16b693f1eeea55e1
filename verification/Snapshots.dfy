/** NewIterator: the internal iterator over memtables and tables, and what a walk at a snapshot sees. */
module Snapshots {
  import opened DbFormat
  import opened Versions
  import opened Overlaps
  import opened Steps
  import opened Compactions
  import opened Iterators
  import opened DbState
  import DbIter

  // ---------- The children of the internal iterator ----------

  /** The entries of one level below level 0: its tables one after the other. */
  lemma {:induction false} FlatSorted(files: seq<File>, n: nat)
    requires SortedFiles(files) && DisjointFiles(files) && n <= |files|
    ensures Sorted(Flat(files[..n])) && Elements(Flat(files[..n])) == FileEntries(files[..n])
  {
    if n > 0 {
      var init, f := files[..n - 1], files[n - 1];
      FlatSorted(files, n - 1);
      assert files[..n] == init + [f] && files[..n][..n - 1] == init;
      assert Elements(Flat(init) + f.entries) == Elements(Flat(init)) + Elements(f.entries);
      assert FileEntries(init + [f]) == FileEntries(init) + Elements(f.entries);
      forall a, b | a in Flat(init) && b in f.entries ensures Ordered(a, b) {
        BeforeLast(files, n, a, b);
      }
      SortedJoin(Flat(init), f.entries);
    }
  }

  lemma BeforeLast(files: seq<File>, n: nat, a: Entry, b: Entry)
    requires SortedFiles(files) && DisjointFiles(files) && 0 < n <= |files|
    requires a in FileEntries(files[..n - 1]) && b in files[n - 1].entries
    ensures Ordered(a, b)
  {
    var g :| g in files[..n - 1] && a in g.entries;
    var i :| 0 <= i < n - 1 && files[i] == g;
    ListOrderIsFileOrder(files, i, n - 1);
    PrecedesEntries(g, files[n - 1], a, b);
  }

  lemma SortedJoin(a: seq<Entry>, b: seq<Entry>)
    requires Sorted(a) && Sorted(b) && forall x, y :: x in a && y in b ==> Ordered(x, y)
    ensures Sorted(a + b)
  {
    forall i, j | 0 <= i < j < |a + b| ensures Ordered((a + b)[i], (a + b)[j]) {
      assert i < |a| <= j ==> a[i] in a && b[j - |a|] in b;
    }
  }

  /** AddIterators: level 0 table by table, each deeper level as one run. */
  function TableLists(v: Version): (r: seq<seq<Entry>>)
    requires |v.levels| == NUM_LEVELS
    ensures |r| == |v.levels[0]| + NUM_LEVELS - 1
  {
    var n := |v.levels[0]|;
    seq(n + NUM_LEVELS - 1, i requires 0 <= i < n + NUM_LEVELS - 1 =>
      if i < n then v.levels[0][i].entries else Flat(v.levels[i - n + 1]))
  }

  /** NewInternalIterator: the memtable, the immutable one, then the tables. */
  function InternalLists(db: Db): (r: seq<seq<Entry>>)
    requires |db.version.levels| == NUM_LEVELS
  {
    [db.mem, db.ImmEntries()] + TableLists(db.version)
  }

  ghost function LevelOf(v: Version, i: nat): (l: nat)
    requires |v.levels| == NUM_LEVELS && i < |v.levels[0]| + NUM_LEVELS - 1
    ensures l < NUM_LEVELS && (l == 0 <==> i < |v.levels[0]|)
  {
    if i < |v.levels[0]| then 0 else i - |v.levels[0]| + 1
  }

  lemma TableListIs(v: Version, i: nat)
    requires Inv(v) && i < |TableLists(v)|
    ensures Sorted(TableLists(v)[i])
    ensures LevelOf(v, i) == 0 ==> TableLists(v)[i] == v.levels[0][i].entries
    ensures forall e :: e in TableLists(v)[i] ==> e in FileEntries(v.levels[LevelOf(v, i)])
    ensures LevelOf(v, i) > 0 ==> Elements(TableLists(v)[i]) == FileEntries(v.levels[LevelOf(v, i)])
  {
    var l := LevelOf(v, i);
    if l > 0 {
      var files := v.levels[l];
      assert files[..|files|] == files;
      FlatSorted(files, |files|);
      assert forall e :: e in TableLists(v)[i] <==> e in Elements(TableLists(v)[i]);
    } else {
      assert v.levels[0][i] in v.levels[0];
    }
  }

  lemma DifferentTables(v: Version, i: nat, j: nat, a: Entry, b: Entry)
    requires Inv(v) && i < j < |TableLists(v)| && a in TableLists(v)[i] && b in TableLists(v)[j]
    ensures !(a.user == b.user && a.sn == b.sn)
  {
    TableListIs(v, i);
    TableListIs(v, j);
    var l, m := LevelOf(v, i), LevelOf(v, j);
    if l == m {
      var f, g := v.levels[0][i], v.levels[0][j];
      SortedNoDup(v.levels[0]);
      assert f.number != g.number;
      if a.user == b.user {
        if f.number > g.number { OlderFileOlder(v.levels[0], f, g, a, b); }
        else { OlderFileOlder(v.levels[0], g, f, b, a); }
      }
    } else {
      assert MoreRecent(FileEntries(v.levels[l]), FileEntries(v.levels[m]));
    }
  }

  lemma InTables(v: Version, i: nat, e: Entry)
    requires Inv(v) && i < |TableLists(v)| && e in TableLists(v)[i]
    ensures e in Contents(v)
  {
    TableListIs(v, i);
  }

  /** No entry of one list is in another. */
  ghost predicate Separate(lists: seq<seq<Entry>>) {
    forall i, j, a, b :: 0 <= i < j < |lists| && a in lists[i] && b in lists[j] ==> !(a.user == b.user && a.sn == b.sn)
  }

  ghost predicate AllSorted(lists: seq<seq<Entry>>) { forall i :: 0 <= i < |lists| ==> Sorted(lists[i]) }

  ghost predicate Within(lists: seq<seq<Entry>>, all: set<Entry>) {
    forall i, e :: 0 <= i < |lists| && e in lists[i] ==> e in all
  }

  lemma TablesAre(v: Version)
    requires Inv(v)
    ensures AllSorted(TableLists(v)) && Separate(TableLists(v)) && Within(TableLists(v), Contents(v))
  {
    var lists := TableLists(v);
    forall i | 0 <= i < |lists| ensures Sorted(lists[i]) { TableListIs(v, i); }
    forall i, e | 0 <= i < |lists| && e in lists[i] ensures e in Contents(v) { InTables(v, i, e); }
    forall i, j, a: Entry, b: Entry | 0 <= i < j < |lists| && a in lists[i] && b in lists[j]
      ensures !(a.user == b.user && a.sn == b.sn)
    {
      DifferentTables(v, i, j, a, b);
    }
  }

  /** A list of newer entries in front keeps the lists separate. */
  lemma SeparateInFront(first: seq<Entry>, lists: seq<seq<Entry>>, all: set<Entry>)
    requires Sorted(first) && AllSorted(lists) && Separate(lists) && Within(lists, all)
    requires MoreRecent(Elements(first), all)
    ensures AllSorted([first] + lists) && Separate([first] + lists) && Within([first] + lists, Elements(first) + all)
  {
    var more := [first] + lists;
    forall i, j, a: Entry, b: Entry | 0 <= i < j < |more| && a in more[i] && b in more[j]
      ensures !(a.user == b.user && a.sn == b.sn)
    {
      assert more[j] == lists[j - 1];
      if i > 0 { assert more[i] == lists[i - 1]; } else { assert a in Elements(first) && b in all; }
    }
  }

  lemma SameListSame(es: seq<Entry>, a: Entry, b: Entry)
    requires Sorted(es) && a in es && b in es && a.user == b.user && a.sn == b.sn
    ensures a == b
  {}

  lemma SeparateMergeable(lists: seq<seq<Entry>>)
    requires AllSorted(lists) && Separate(lists)
    ensures Mergeable(lists)
  {
    forall i, j, a: Entry, b: Entry | 0 <= i < |lists| && 0 <= j < |lists| && a in lists[i] && b in lists[j]
      && a.user == b.user && a.sn == b.sn
      ensures i == j && a == b
    {
      if i == j { SameListSame(lists[i], a, b); }
    }
  }

  lemma ListsMergeable(db: Db)
    requires MemoryOk(db)
    ensures Mergeable(InternalLists(db))
    ensures Within(InternalLists(db), Elements(db.mem) + (Elements(db.ImmEntries()) + Contents(db.version)))
  {
    var tables, imm := TableLists(db.version), db.ImmEntries();
    TablesAre(db.version);
    SeparateInFront(imm, tables, Contents(db.version));
    SeparateInFront(db.mem, [imm] + tables, Elements(imm) + Contents(db.version));
    assert [db.mem] + ([imm] + tables) == InternalLists(db);
    SeparateMergeable(InternalLists(db));
  }

  lemma ListOfTable(v: Version, e: Entry) returns (i: nat)
    requires Inv(v) && e in Contents(v)
    ensures i < |TableLists(v)| && e in TableLists(v)[i]
  {
    var l :| 0 <= l < NUM_LEVELS && e in FileEntries(v.levels[l]);
    if l == 0 {
      var f :| f in v.levels[0] && e in f.entries;
      i :| 0 <= i < |v.levels[0]| && v.levels[0][i] == f;
    } else {
      i := |v.levels[0]| + l - 1;
      TableListIs(v, i);
      assert e in Elements(TableLists(v)[i]);
    }
  }

  lemma HeldBySome(mem: seq<Entry>, imm: seq<Entry>, tables: seq<seq<Entry>>, e: Entry)
    requires e in mem || e in imm || InSome(tables, e)
    ensures InSome([mem, imm] + tables, e)
  {
    var lists := [mem, imm] + tables;
    assert lists[0] == mem && lists[1] == imm;
    if InSome(tables, e) {
      var i :| 0 <= i < |tables| && e in tables[i];
      assert lists[i + 2] == tables[i];
    }
  }

  // ---------- Walking a map ----------

  lemma SomeKey(m: map<UserKey, Value>)
    ensures m == map[] || exists k :: k in m
  {
    if forall k :: k !in m { assert m == map[]; }
  }

  lemma LeastKey(m: map<UserKey, Value>) returns (k: UserKey)
    requires m != map[]
    ensures k in m && forall j :: j in m ==> k <= j
  {
    var rest := m.Keys;
    SomeKey(m);
    k :| k in m;
    while exists j :: j in rest && j < k
      invariant rest <= m.Keys && k in m && forall j :: j in m && j !in rest ==> k <= j
      decreases |rest|
    {
      var j :| j in rest && j < k;
      k, rest := j, rest - {j};
    }
  }

  /** The map's keys in order, with their values. */
  ghost function Listing(m: map<UserKey, Value>): seq<Entry>
    decreases |m|
  {
    if m == map[] then []
    else
      assert exists k :: k in m && forall j :: j in m ==> k <= j by { var k := LeastKey(m); }
      var k :| k in m && forall j :: j in m ==> k <= j;
      [Entry(k, 0, Put, m[k])] + Listing(m - {k})
  }

  ghost predicate Ascends(es: seq<Entry>) { forall i, j :: 0 <= i < j < |es| ==> es[i].user < es[j].user }

  /** A listing of exactly the map. */
  ghost predicate Lists(es: seq<Entry>, m: map<UserKey, Value>) {
    && Ascends(es) && (forall e :: e in es ==> e.user in m && m[e.user] == e.value)
    && (forall k :: k in m ==> exists e :: e in es && e.user == k)
  }

  lemma {:induction false} ListingLists(m: map<UserKey, Value>)
    ensures Lists(Listing(m), m)
    decreases |m|
  {
    if m != map[] {
      var es := Listing(m);
      var k, rest := es[0].user, es[1..];
      assert rest == Listing(m - {k});
      ListingLists(m - {k});
      ListsMore(m, k, rest, es);
    }
  }

  lemma ListsMore(m: map<UserKey, Value>, k: UserKey, rest: seq<Entry>, es: seq<Entry>)
    requires k in m && (forall j :: j in m ==> k <= j) && Lists(rest, m - {k}) && es == [Entry(k, 0, Put, m[k])] + rest
    ensures Lists(es, m)
  {
    forall i, j | 0 <= i < j < |es| ensures es[i].user < es[j].user {
      assert rest[j - 1] in rest;
    }
    forall j | j in m ensures exists e :: e in es && e.user == j {
      if j == k {
        assert es[0] in es;
      } else {
        assert j in m - {k};
        var e :| e in rest && e.user == j;
        assert e in es;
      }
    }
  }

  /** Same keys and values at the same places. */
  ghost predicate Alike(a: seq<Entry>, b: seq<Entry>) {
    |a| == |b| && forall i :: 0 <= i < |a| ==> a[i].user == b[i].user && a[i].value == b[i].value
  }

  lemma FirstIsLeast(es: seq<Entry>, m: map<UserKey, Value>)
    requires Lists(es, m)
    ensures es == [] <==> m == map[]
    ensures es != [] ==> es[0].user in m && m[es[0].user] == es[0].value && forall k :: k in m ==> es[0].user <= k
  {
    if es != [] {
      assert es[0] in es;
      forall k | k in m ensures es[0].user <= k {
        var e :| e in es && e.user == k;
      }
    } else {
      SomeKey(m);
    }
  }

  lemma RestIs(es: seq<Entry>, e: Entry)
    requires Ascends(es) && es != []
    ensures e in es[1..] <==> e in es && e.user != es[0].user
  {
    assert es == [es[0]] + es[1..];
    if e in es[1..] {
      var i :| 0 <= i < |es[1..]| && es[1..][i] == e;
      assert es[i + 1] == e;
    }
  }

  lemma RestLists(es: seq<Entry>, m: map<UserKey, Value>, k: UserKey, rest: seq<Entry>)
    requires Lists(es, m) && es != [] && k == es[0].user && rest == es[1..]
    ensures Lists(rest, m - {k})
  {
    forall e | e in rest ensures e in es && e.user != k { RestIs(es, e); }
    forall j | j in m - {k} ensures exists e :: e in rest && e.user == j {
      var e :| e in es && e.user == j;
      RestIs(es, e);
    }
  }

  /** A map has one listing. */
  lemma {:induction false} OneListing(a: seq<Entry>, b: seq<Entry>, m: map<UserKey, Value>)
    requires Lists(a, m) && Lists(b, m)
    ensures Alike(a, b)
    decreases |m|
  {
    FirstIsLeast(a, m);
    FirstIsLeast(b, m);
    if a != [] {
      var k := a[0].user;
      SameLeast(m, k, b[0].user);
      RestLists(a, m, k, a[1..]);
      RestLists(b, m, k, b[1..]);
      OneListing(a[1..], b[1..], m - {k});
      AlikeMore(a, b);
    }
  }

  lemma SameLeast(m: map<UserKey, Value>, i: UserKey, j: UserKey)
    requires i in m && j in m && (forall k :: k in m ==> i <= k) && forall k :: k in m ==> j <= k
    ensures i == j
  {}

  lemma AlikeMore(a: seq<Entry>, b: seq<Entry>)
    requires a != [] && b != [] && a[0].user == b[0].user && a[0].value == b[0].value && Alike(a[1..], b[1..])
    ensures Alike(a, b)
  {
    assert a == [a[0]] + a[1..] && b == [b[0]] + b[1..];
  }

  lemma {:induction false} SameSeek(a: seq<Entry>, b: seq<Entry>, target: UserKey)
    requires Alike(a, b)
    ensures DbIter.SeekUser(a, target) == DbIter.SeekUser(b, target)
  {
    if a != [] { SameSeek(a[1..], b[1..], target); }
  }

  /** Walks only see keys and values. */
  lemma {:induction false} SameTrace(a: Cursor, b: Cursor, ops: seq<DbIter.Op>)
    requires Alike(a.entries, b.entries) && a.pos == b.pos
    ensures DbIter.Trace(a, ops) == DbIter.Trace(b, ops)
    decreases |ops|
  {
    if ops != [] {
      if ops[0].To? { SameSeek(a.entries, b.entries, ops[0].target); }
      SameTrace(DbIter.Do(a, ops[0]), DbIter.Do(b, ops[0]), ops[1..]);
    }
  }

  /** What a walk over the map observes. */
  ghost function WalkMap(m: map<UserKey, Value>, ops: seq<DbIter.Op>): seq<Option<(UserKey, Value)>> {
    DbIter.Trace(Cursor(Listing(m), |Listing(m)|), ops)
  }

  ghost predicate ReadsAs(db: set<Entry>, s: SequenceNumber, m: map<UserKey, Value>) {
    forall k :: Read(db, k, s) == if k in m then Some(m[k]) else None
  }

  lemma ViewLists(es: seq<Entry>, s: SequenceNumber, m: map<UserKey, Value>)
    requires Sorted(es) && ReadsAs(Elements(es), s, m)
    ensures Lists(DbIter.View(es, s, |es|), m)
  {
    var view := DbIter.View(es, s, |es|);
    DbIter.ViewIsRead(es, s, 0);
    forall e | e in view ensures e.user in m && m[e.user] == e.value {
      assert Read(Elements(es), e.user, s) == Some(e.value);
    }
    forall k | k in m ensures exists e :: e in view && e.user == k {
      DbIter.ViewIsRead(es, s, k);
    }
  }

  lemma WalkIsMapWalk(es: seq<Entry>, s: SequenceNumber, m: map<UserKey, Value>, ops: seq<DbIter.Op>)
    requires Sorted(es) && ReadsAs(Elements(es), s, m)
    ensures DbIter.Trace(DbIter.AtEnd(es, s), ops) == WalkMap(m, ops)
  {
    ViewLists(es, s, m);
    ListingLists(m);
    OneListing(DbIter.View(es, s, |es|), Listing(m), m);
    SameTrace(DbIter.AtEnd(es, s), Cursor(Listing(m), |Listing(m)|), ops);
  }

  /** The merged lists hold what the memtables and the tables hold. */
  lemma MergedIsAll(db: Db, es: seq<Entry>)
    requires MemoryOk(db) && db.pending == [] && IsMerge(es, InternalLists(db))
    ensures Elements(es) == db.All()
  {
    ListsMergeable(db);
    forall e | e in Elements(es) ensures e in db.All() {
      var i :| 0 <= i < |InternalLists(db)| && e in InternalLists(db)[i];
    }
    forall e | e in db.All() ensures e in es {
      if e in Contents(db.version) { var i := ListOfTable(db.version, e); }
      HeldBySome(db.mem, db.ImmEntries(), TableLists(db.version), e);
    }
  }

  /** NewIterator at a snapshot and any program of calls on it: DBIter over the merging iterator over the
      memtables and tables sees exactly what a walk over the snapshot's map sees. */
  method Walk(db: Db, s: SequenceNumber, ops: seq<DbIter.Op>, ghost m: map<UserKey, Value>)
    returns (seen: seq<Option<(UserKey, Value)>>)
    requires MemoryOk(db) && db.pending == [] && ReadsAs(db.All(), s, m)
    ensures seen == WalkMap(m, ops)
  {
    ListsMergeable(db);
    var lists := InternalLists(db);
    seen := DbIter.RunProgram(lists, s, ops);
    MergedIsAll(db, MergeAll(lists));
    WalkIsMapWalk(MergeAll(lists), s, m, ops);
  }
}
