/** Versions: the files of each level, the invariant that makes level-by-level search correct,
    and the searches that rely on it. */
module Versions {
  import opened DbFormat

  const NUM_LEVELS: nat := 7
  const MAX_MEM_COMPACT_LEVEL: nat := 2

  /** What TableBuilder accepts: at least one entry, in strictly increasing order. */
  type Run = es: seq<Entry> | |es| > 0 && Sorted(es) witness [Entry(0, 0, Put, "")]

  /** A table file: its metadata and the entries stored in it. */
  datatype File = File(number: nat, size: nat, entries: Run) {
    function First(): Entry { entries[0] }
    function Last(): Entry { entries[|entries| - 1] }
    /** meta.smallest and meta.largest, as BuildTable and DoCompactionWork record them. */
    function Smallest(): InternalKey { First().Key() }
    function Largest(): InternalKey { Last().Key() }
  }

  datatype Version = Version(levels: seq<seq<File>>)

  /** The whole of `f` comes before the whole of `g` in internal key order. */
  predicate Precedes(f: File, g: File) {
    Ordered(f.Last(), g.First())
  }

  /** Builder::BySmallestKey. */
  predicate BySmallest(f: File, g: File) {
    || Less(f.Smallest(), g.Smallest())
    || (!Less(g.Smallest(), f.Smallest()) && f.number < g.number)
  }

  ghost predicate SortedFiles(files: seq<File>) {
    forall i, j :: 0 <= i < j < |files| ==> BySmallest(files[i], files[j])
  }

  ghost predicate NoDup(files: seq<File>) { forall i, j :: 0 <= i < j < |files| ==> files[i] != files[j] }

  ghost predicate DisjointFiles(files: seq<File>) {
    forall f, g :: f in files && g in files && f != g ==> Precedes(f, g) || Precedes(g, f)
  }

  function FileEntries(files: seq<File>): set<Entry> {
    set f, e | f in files && e in f.entries :: e
  }

  function Contents(v: Version): set<Entry> {
    set l, e | 0 <= l < |v.levels| && e in FileEntries(v.levels[l]) :: e
  }

  /** For every user key, all of `newer` is more recent than all of `older`. */
  predicate MoreRecent(newer: set<Entry>, older: set<Entry>) {
    forall a, b :: a in newer && b in older && a.user == b.user ==> a.sn > b.sn
  }

  /** Newer entries on top of two sets that read alike leave them reading alike. */
  lemma SameUnderMemory(mem: set<Entry>, a: set<Entry>, b: set<Entry>, k: UserKey, s: SequenceNumber)
    requires a <= b && MoreRecent(mem, b) && SeqUnique(mem + b) && Read(a, k, s) == Read(b, k, s)
    ensures Read(mem + a, k, s) == Read(mem + b, k, s)
  {
    if NoneVisible(mem, k, s) {
      assert mem + a == a + mem && mem + b == b + mem;
      ReadIgnoresInvisible(a, mem, k, s);
      ReadIgnoresInvisible(b, mem, k, s);
    } else {
      NewestExists(mem, k, s);
      var e :| Newest(mem, k, s, e);
      assert Newest(mem + a, k, s, e) && Newest(mem + b, k, s, e);
      ReadIs(mem + a, k, s, e);
      ReadIs(mem + b, k, s, e);
    }
  }

  /** Level-0 files may overlap; the higher-numbered file holds the newer entries. */
  ghost predicate LevelZeroRecency(files: seq<File>) {
    forall f, g :: f in files && g in files && f.number > g.number
      ==> MoreRecent(Elements(f.entries), Elements(g.entries))
  }

  /** "Entries never hop across levels": a key's newer entries sit at shallower levels. */
  ghost predicate Recency(v: Version) {
    forall l, m :: 0 <= l < m < |v.levels|
      ==> MoreRecent(FileEntries(v.levels[l]), FileEntries(v.levels[m]))
  }

  ghost predicate UniqueNumbers(v: Version) {
    forall l, m, f, g ::
      0 <= l < |v.levels| && 0 <= m < |v.levels| && f in v.levels[l] && g in v.levels[m] && f.number == g.number
      ==> l == m && f == g
  }

  ghost predicate Shaped(v: Version) {
    && |v.levels| == NUM_LEVELS
    && (forall l :: 0 <= l < NUM_LEVELS ==> SortedFiles(v.levels[l]))
    && UniqueNumbers(v)
  }

  /** Each single level can be searched: files below level 0 are disjoint. */
  ghost predicate Searchable(v: Version) {
    && Shaped(v)
    && (forall l :: 1 <= l < NUM_LEVELS ==> DisjointFiles(v.levels[l]))
    && LevelZeroRecency(v.levels[0])
  }

  ghost predicate Inv(v: Version) { Searchable(v) && Recency(v) }

  // ---------- Basic consequences of the invariant ----------

  /** Every level is listed in BySmallest order. */
  ghost predicate Listed(v: Version) {
    |v.levels| == NUM_LEVELS && forall l :: 0 <= l < NUM_LEVELS ==> SortedFiles(v.levels[l])
  }

  lemma SortedNoDup(files: seq<File>)
    requires SortedFiles(files)
    ensures NoDup(files)
  {
    forall i, j | 0 <= i < j < |files| ensures files[i] != files[j] {
      assert BySmallest(files[i], files[j]);
    }
  }

  lemma HeadIsSmallest(a: seq<File>, j: nat)
    requires SortedFiles(a) && j < |a|
    ensures j == 0 || BySmallest(a[0], a[j])
  {}

  /** A strictly ordered list is determined by the set of its files. */
  lemma {:induction false} SameFilesSameList(a: seq<File>, b: seq<File>)
    requires SortedFiles(a) && SortedFiles(b) && forall f :: f in a <==> f in b
    ensures a == b
  {
    assert |b| > 0 ==> b[0] in a;
    if a != [] {
      assert a[0] in b && b[0] in a;
      var i :| 0 <= i < |b| && b[i] == a[0];
      var j :| 0 <= j < |a| && a[j] == b[0];
      HeadIsSmallest(a, j);
      HeadIsSmallest(b, i);
      assert a[0] == b[0];
      forall f ensures f in a[1..] <==> f in b[1..] {
        TailMember(a, f);
        TailMember(b, f);
      }
      SameFilesSameList(a[1..], b[1..]);
      assert a == [a[0]] + a[1..] && b == [b[0]] + b[1..];
    }
  }

  lemma TailMember(a: seq<File>, f: File)
    requires SortedFiles(a) && a != []
    ensures f in a[1..] <==> f in a && f != a[0]
  {
    if f in a[1..] {
      var i :| 0 <= i < |a| - 1 && a[1..][i] == f;
      assert BySmallest(a[0], a[i + 1]);
    }
  }

  lemma SortedEnds(f: File, i: nat)
    requires i < |f.entries|
    ensures f.entries[i] == f.First() || Ordered(f.First(), f.entries[i])
    ensures f.entries[i] == f.Last() || Ordered(f.entries[i], f.Last())
  {}

  /** In a disjoint level the list order is the order of whole files. */
  lemma ListOrderIsFileOrder(files: seq<File>, i: nat, j: nat)
    requires SortedFiles(files) && DisjointFiles(files)
    requires i < j < |files|
    ensures Precedes(files[i], files[j])
  {
    assert BySmallest(files[i], files[j]);
    var f, g := files[i], files[j];
    SortedEnds(f, 0); SortedEnds(g, 0);
    SortedEnds(f, |f.entries| - 1); SortedEnds(g, |g.entries| - 1);
  }

  lemma PrecedesEntries(f: File, g: File, a: Entry, b: Entry)
    requires Precedes(f, g)
    requires a in f.entries && b in g.entries
    ensures Ordered(a, b)
  {
    var i :| 0 <= i < |f.entries| && f.entries[i] == a;
    var j :| 0 <= j < |g.entries| && g.entries[j] == b;
    SortedEnds(f, i); SortedEnds(g, j);
  }

  lemma SameFileUnique(f: File, a: Entry, b: Entry)
    requires a in f.entries && b in f.entries && a.user == b.user && a.sn == b.sn
    ensures a == b
  {
    var i :| 0 <= i < |f.entries| && f.entries[i] == a;
    var j :| 0 <= j < |f.entries| && f.entries[j] == b;
  }

  lemma SortedLevelUnique(files: seq<File>, a: Entry, b: Entry)
    requires DisjointFiles(files)
    requires a in FileEntries(files) && b in FileEntries(files) && a.user == b.user && a.sn == b.sn
    ensures a == b
  {
    var f :| f in files && a in f.entries;
    var g :| g in files && b in g.entries;
    if f == g {
      SameFileUnique(f, a, b);
    } else if Precedes(f, g) {
      PrecedesEntries(f, g, a, b);
    } else {
      PrecedesEntries(g, f, b, a);
    }
  }

  lemma {:induction false} LevelZeroUnique(files: seq<File>, a: Entry, b: Entry)
    requires LevelZeroRecency(files)
    requires forall f, g :: f in files && g in files && f.number == g.number ==> f == g
    requires a in FileEntries(files) && b in FileEntries(files) && a.user == b.user && a.sn == b.sn
    ensures a == b
  {
    var f :| f in files && a in f.entries;
    var g :| g in files && b in g.entries;
    if f == g {
      SameFileUnique(f, a, b);
    } else if f.number > g.number {
      OlderFileOlder(files, f, g, a, b);
    } else {
      OlderFileOlder(files, g, f, b, a);
    }
  }

  lemma PairUnique(v: Version, l: nat, m: nat, a: Entry, b: Entry)
    requires Inv(v) && l < NUM_LEVELS && m < NUM_LEVELS
    requires a in FileEntries(v.levels[l]) && b in FileEntries(v.levels[m]) && a.user == b.user && a.sn == b.sn
    ensures a == b
  {
    if l == m {
      if l == 0 { LevelZeroUnique(v.levels[0], a, b); } else { SortedLevelUnique(v.levels[l], a, b); }
    }
  }

  /** The recency order leaves no sequence number repeated for a user key. */
  lemma InvSeqUnique(v: Version)
    requires Inv(v)
    ensures SeqUnique(Contents(v))
  {
    forall a, b | a in Contents(v) && b in Contents(v) && a.user == b.user && a.sn == b.sn
      ensures a == b
    {
      var l :| 0 <= l < NUM_LEVELS && a in FileEntries(v.levels[l]);
      var m :| 0 <= m < NUM_LEVELS && b in FileEntries(v.levels[m]);
      PairUnique(v, l, m, a, b);
    }
  }

  // ---------- Searching one table, one level, a version ----------

  /** Position of the first entry at or after `key` (Table::InternalGet, MemTable::Get). */
  function SeekIndex(es: seq<Entry>, key: InternalKey): (r: nat)
    ensures r <= |es|
    ensures forall i :: 0 <= i < r ==> Less(es[i].Key(), key)
    ensures r < |es| ==> !Less(es[r].Key(), key)
  {
    if es == [] || !Less(es[0].Key(), key) then 0 else 1 + SeekIndex(es[1..], key)
  }

  /** The saver callback's result: the entry found, if it is of the sought user key. */
  function TableGet(es: seq<Entry>, k: UserKey, s: SequenceNumber): Option<Entry> {
    var i := SeekIndex(es, LookupKey(k, s));
    if i < |es| && es[i].user == k then Some(es[i]) else None
  }

  ghost predicate Finds(db: set<Entry>, k: UserKey, s: SequenceNumber, r: Option<Entry>) {
    match r
    case Some(e) => Newest(db, k, s, e)
    case None => NoneVisible(db, k, s)
  }

  lemma TableGetFinds(es: seq<Entry>, k: UserKey, s: SequenceNumber)
    requires Sorted(es)
    ensures Finds(Elements(es), k, s, TableGet(es, k, s))
  {
    var i := SeekIndex(es, LookupKey(k, s));
    forall j | 0 <= j < |es| && Visible(es[j], k, s)
      ensures i <= j && es[i].user == k && es[j].sn <= es[i].sn
    {
      LookupKeySplits(es[j], k, s);
      LookupKeySplits(es[i], k, s);
    }
    if i < |es| { LookupKeySplits(es[i], k, s); }
  }

  /** Where the binary search of a list for `key` ends, whatever order the list is in. */
  ghost function SearchBetween(files: seq<File>, key: InternalKey, left: nat, right: nat): (r: nat)
    requires left <= right <= |files|
    ensures left <= r <= right
    decreases right - left
  {
    if left == right then right
    else
      var mid := (left + right) / 2;
      if Less(files[mid].Largest(), key) then SearchBetween(files, key, mid + 1, right)
      else SearchBetween(files, key, left, mid)
  }

  /** In an ordered level the search ends at the first file whose largest key is at or after `key`. */
  lemma {:induction false} SearchIsFirst(files: seq<File>, key: InternalKey, left: nat, right: nat)
    requires SortedFiles(files) && DisjointFiles(files) && left <= right <= |files|
    requires forall i :: 0 <= i < left ==> Less(files[i].Largest(), key)
    requires forall i :: right <= i < |files| ==> !Less(files[i].Largest(), key)
    ensures forall i :: 0 <= i < SearchBetween(files, key, left, right) ==> Less(files[i].Largest(), key)
    ensures forall i :: SearchBetween(files, key, left, right) <= i < |files| ==> !Less(files[i].Largest(), key)
    decreases right - left
  {
    if left < right {
      var mid := (left + right) / 2;
      LargestMonotone(files, mid);
      if Less(files[mid].Largest(), key) {
        SearchIsFirst(files, key, mid + 1, right);
      } else {
        SearchIsFirst(files, key, left, mid);
      }
    }
  }

  /** Binary search for the first file whose largest key is at or after `key`. */
  method FindFile(files: seq<File>, key: InternalKey) returns (r: nat)
    ensures r <= |files| && r == SearchBetween(files, key, 0, |files|)
    ensures SortedFiles(files) && DisjointFiles(files) ==>
      forall i :: 0 <= i < r ==> Less(files[i].Largest(), key)
    ensures SortedFiles(files) && DisjointFiles(files) ==>
      forall i :: r <= i < |files| ==> !Less(files[i].Largest(), key)
  {
    var left, right := 0, |files|;
    while left < right
      invariant 0 <= left <= right <= |files|
      invariant SearchBetween(files, key, left, right) == SearchBetween(files, key, 0, |files|)
    {
      var mid := (left + right) / 2;
      if Less(files[mid].Largest(), key) {
        left := mid + 1;
      } else {
        right := mid;
      }
    }
    r := right;
    if SortedFiles(files) && DisjointFiles(files) { SearchIsFirst(files, key, 0, |files|); }
  }

  lemma LargestMonotone(files: seq<File>, mid: nat)
    requires SortedFiles(files) && DisjointFiles(files) && mid < |files|
    ensures forall i :: 0 <= i < mid ==> Less(files[i].Largest(), files[mid].Largest())
    ensures forall i :: mid < i < |files| ==> Less(files[mid].Largest(), files[i].Largest())
  {
    forall i | 0 <= i < mid ensures Less(files[i].Largest(), files[mid].Largest()) {
      ListOrderIsFileOrder(files, i, mid);
      SortedEnds(files[mid], |files[mid].entries| - 1);
    }
    forall i | mid < i < |files| ensures Less(files[mid].Largest(), files[i].Largest()) {
      ListOrderIsFileOrder(files, mid, i);
      SortedEnds(files[i], |files[i].entries| - 1);
    }
  }

  /** What the search of one level below level 0 gives: the file the binary search ends at, if it covers the key. */
  ghost function InOneFile(files: seq<File>, k: UserKey, s: SequenceNumber): Option<Entry> {
    var index := SearchBetween(files, LookupKey(k, s), 0, |files|);
    if index >= |files| || k < files[index].Smallest().user then None else TableGet(files[index].entries, k, s)
  }

  /** One level below level 0: in an ordered level at most one file can hold the answer. */
  method SearchSortedLevel(files: seq<File>, k: UserKey, s: SequenceNumber) returns (r: Option<Entry>)
    ensures r == InOneFile(files, k, s)
    ensures SortedFiles(files) && DisjointFiles(files) ==> Finds(FileEntries(files), k, s, r)
  {
    var ikey := LookupKey(k, s);
    var index := FindFile(files, ikey);
    if index >= |files| {
      r := None;
    } else if k < files[index].Smallest().user {
      r := None;
    } else {
      r := TableGet(files[index].entries, k, s);
    }
    if SortedFiles(files) && DisjointFiles(files) {
      SearchIsFirst(files, ikey, 0, |files|);
      OnlyFileMatters(files, index, k, s);
      if index < |files| { OneFileFinds(files[index], k, s); }
    }
  }

  lemma OneFileFinds(f: File, k: UserKey, s: SequenceNumber)
    ensures Finds(Elements(f.entries), k, s, if k < f.Smallest().user then None else TableGet(f.entries, k, s))
  {
    TableGetFinds(f.entries, k, s);
    if k < f.Smallest().user {
      forall x | x in f.entries ensures !Visible(x, k, s) {
        var i :| 0 <= i < |f.entries| && f.entries[i] == x;
        SortedEnds(f, i);
      }
    }
  }

  /** With `index` from FindFile, the newest visible entry of `k` can only be in that file. */
  lemma OnlyFileMatters(files: seq<File>, index: nat, k: UserKey, s: SequenceNumber)
    requires SortedFiles(files) && DisjointFiles(files) && index <= |files|
    requires forall i :: 0 <= i < index ==> Less(files[i].Largest(), LookupKey(k, s))
    requires forall i :: index <= i < |files| ==> !Less(files[i].Largest(), LookupKey(k, s))
    ensures index == |files| ==> NoneVisible(FileEntries(files), k, s)
    ensures index < |files| ==>
      forall r :: Finds(Elements(files[index].entries), k, s, r) ==> Finds(FileEntries(files), k, s, r)
  {
    // Files before `index` end before the lookup key.
    forall i, x | 0 <= i < index && x in files[i].entries ensures !Visible(x, k, s) {
      var j :| 0 <= j < |files[i].entries| && files[i].entries[j] == x;
      SortedEnds(files[i], j);
      LookupKeySplits(files[i].Last(), k, s);
    }
    if index < |files| {
      var f := files[index];
      LookupKeySplits(f.Last(), k, s);
      // A visible entry further on means the file's last entry is of `k` and visible, and newer.
      forall i, x | index < i < |files| && x in files[i].entries && Visible(x, k, s)
        ensures Visible(f.Last(), k, s) && x.sn <= f.Last().sn
      {
        ListOrderIsFileOrder(files, index, i);
        PrecedesEntries(f, files[i], f.Last(), x);
      }
      forall r | Finds(Elements(f.entries), k, s, r) ensures Finds(FileEntries(files), k, s, r) {
        assert f.Last() in Elements(f.entries);
        forall x | x in FileEntries(files) && Visible(x, k, s)
          ensures r.Some? && x.sn <= r.value.sn
        {
          var g :| g in files && x in g.entries;
          var i :| 0 <= i < |files| && files[i] == g;
          if i == index { assert x in Elements(f.entries); }
        }
      }
    }
  }

  ghost predicate NewestFirst(fs: seq<File>) {
    forall i, j :: 0 <= i < j < |fs| ==> fs[i].number >= fs[j].number
  }

  function InsertNewestFirst(f: File, fs: seq<File>): (r: seq<File>)
    requires NewestFirst(fs)
    ensures NewestFirst(r)
    ensures forall x :: x in r <==> x == f || x in fs
  {
    if fs == [] || f.number >= fs[0].number then [f] + fs
    else
      var rest := InsertNewestFirst(f, fs[1..]);
      assert forall i :: 0 <= i < |rest| ==> rest[i] in rest;
      [fs[0]] + rest
  }

  /** std::sort with NewestFirst. */
  function SortNewestFirst(fs: seq<File>): (r: seq<File>)
    ensures NewestFirst(r)
    ensures forall x :: x in r <==> x in fs
  {
    if fs == [] then [] else InsertNewestFirst(fs[0], SortNewestFirst(fs[1..]))
  }

  /** The level-0 files whose user key range covers `k`. */
  method CollectCovering(files: seq<File>, k: UserKey) returns (tmp: seq<File>)
    ensures forall f :: f in tmp ==> f in files
    ensures forall f, x :: f in files && x in f.entries && x.user == k ==> f in tmp
  {
    tmp := [];
    for i := 0 to |files|
      invariant forall f :: f in tmp ==> f in files
      invariant forall j :: 0 <= j < i && Covering(files[j], k) ==> files[j] in tmp
    {
      if Covering(files[i], k) {
        tmp := tmp + [files[i]];
      }
    }
    forall f, x | f in files && x in f.entries && x.user == k ensures f in tmp {
      var j :| 0 <= j < |f.entries| && f.entries[j] == x;
      SortedEnds(f, j);
    }
  }

  predicate Covering(f: File, k: UserKey) { k >= f.Smallest().user && k <= f.Largest().user }

  /** Level 0: search the covering files from newest to oldest. */
  method SearchLevelZero(files: seq<File>, k: UserKey, s: SequenceNumber) returns (r: Option<Entry>)
    requires LevelZeroRecency(files)
    requires forall f, g :: f in files && g in files && f.number == g.number ==> f == g
    ensures Finds(FileEntries(files), k, s, r)
  {
    var tmp := CollectCovering(files, k);
    tmp := SortNewestFirst(tmp);
    assert Candidates(files, tmp, k, s);
    for i := 0 to |tmp|
      invariant NoneUpTo(tmp, i, k, s)
    {
      TableGetFinds(tmp[i].entries, k, s);
      r := TableGet(tmp[i].entries, k, s);
      if r.Some? {
        NewestFileWins(files, tmp, i, k, s, r.value);
        return;
      }
      OneMoreWithout(tmp, i, i + 1, k, s);
    }
    NowhereVisible(files, tmp, k, s);
    r := None;
  }

  ghost predicate Candidates(files: seq<File>, tmp: seq<File>, k: UserKey, s: SequenceNumber) {
    && (forall f :: f in tmp ==> f in files) && NewestFirst(tmp)
    && (forall f, x :: f in files && x in f.entries && Visible(x, k, s) ==> f in tmp)
  }

  ghost predicate NoneUpTo(tmp: seq<File>, i: nat, k: UserKey, s: SequenceNumber) {
    forall j, x :: 0 <= j < i && j < |tmp| && x in tmp[j].entries ==> !Visible(x, k, s)
  }

  lemma OneMoreWithout(tmp: seq<File>, i: nat, n: nat, k: UserKey, s: SequenceNumber)
    requires i < |tmp| && n == i + 1 && NoneUpTo(tmp, i, k, s) && NoneVisible(Elements(tmp[i].entries), k, s)
    ensures NoneUpTo(tmp, n, k, s)
  {
    assert forall x :: x in tmp[i].entries ==> x in Elements(tmp[i].entries);
  }

  lemma NowhereVisible(files: seq<File>, tmp: seq<File>, k: UserKey, s: SequenceNumber)
    requires Candidates(files, tmp, k, s) && NoneUpTo(tmp, |tmp|, k, s)
    ensures NoneVisible(FileEntries(files), k, s)
  {}

  lemma {:induction false} NewestFileWins(files: seq<File>, tmp: seq<File>, i: nat, k: UserKey, s: SequenceNumber,
                                          e: Entry)
    requires LevelZeroRecency(files) && i < |tmp| && Candidates(files, tmp, k, s) && NoneUpTo(tmp, i, k, s)
    requires forall f, g :: f in files && g in files && f.number == g.number ==> f == g
    requires Newest(Elements(tmp[i].entries), k, s, e)
    ensures Newest(FileEntries(files), k, s, e)
  {
    forall x | x in FileEntries(files) && Visible(x, k, s) ensures x.sn <= e.sn {
      var j := HolderAmong(files, tmp, k, s, x);
      LaterFileOlder(files, tmp, i, j, k, s, e, x);
    }
    assert tmp[i] in files;
  }

  lemma {:induction false} HolderAmong(files: seq<File>, tmp: seq<File>, k: UserKey, s: SequenceNumber, x: Entry)
    returns (j: nat)
    requires Candidates(files, tmp, k, s) && x in FileEntries(files) && Visible(x, k, s)
    ensures j < |tmp| && x in tmp[j].entries
  {
    var f :| f in files && x in f.entries;
    j :| 0 <= j < |tmp| && tmp[j] == f;
  }

  lemma {:induction false} LaterFileOlder(files: seq<File>, tmp: seq<File>, i: nat, j: nat, k: UserKey,
                                          s: SequenceNumber, e: Entry, x: Entry)
    requires LevelZeroRecency(files) && i < |tmp| && j < |tmp| && Candidates(files, tmp, k, s) && NoneUpTo(tmp, i, k, s)
    requires tmp[i].number == tmp[j].number ==> tmp[i] == tmp[j]
    requires Newest(Elements(tmp[i].entries), k, s, e) && x in tmp[j].entries && Visible(x, k, s)
    ensures x.sn <= e.sn
  {
    assert i <= j;
    if tmp[i] == tmp[j] { assert x in Elements(tmp[i].entries); } else { OlderFileOlder(files, tmp[i], tmp[j], e, x); }
  }

  lemma OlderFileOlder(files: seq<File>, f: File, g: File, e: Entry, x: Entry)
    requires LevelZeroRecency(files) && f in files && g in files && f.number > g.number
    requires e in f.entries && x in g.entries && e.user == x.user
    ensures x.sn < e.sn
  {
    assert e in Elements(f.entries) && x in Elements(g.entries);
  }

  /** What a search that stops at the first level with a visible entry returns. */
  ghost function LevelByLevel(v: Version, k: UserKey, s: SequenceNumber, level: nat): Option<Value>
    decreases |v.levels| - level
  {
    if level >= |v.levels| then None
    else if NoneVisible(FileEntries(v.levels[level]), k, s) then LevelByLevel(v, k, s, level + 1)
    else Read(FileEntries(v.levels[level]), k, s)
  }

  lemma LevelUnique(v: Version, l: nat)
    requires Searchable(v) && l < NUM_LEVELS
    ensures SeqUnique(FileEntries(v.levels[l]))
  {
    forall a, b | a in FileEntries(v.levels[l]) && b in FileEntries(v.levels[l]) && a.user == b.user && a.sn == b.sn
      ensures a == b
    {
      if l == 0 { LevelZeroUnique(v.levels[0], a, b); } else { SortedLevelUnique(v.levels[l], a, b); }
    }
  }

  /** Version::Get: level 0 newest file first, then one file per deeper level. */
  method Get(v: Version, k: UserKey, s: SequenceNumber) returns (r: Option<Value>)
    requires Searchable(v)
    ensures r == LevelByLevel(v, k, s, 0)
    ensures Recency(v) ==> r == Read(Contents(v), k, s)
  {
    if Recency(v) { SearchIsRead(v, k, s, 0); }
    for level := 0 to NUM_LEVELS
      invariant LevelByLevel(v, k, s, 0) == LevelByLevel(v, k, s, level)
    {
      var e := SearchLevel(v, level, k, s);
      LevelAnswers(v, level, level + 1, k, s, e);
      if e.Some? {
        return Answer(e.value);
      }
    }
    r := None;
  }

  method SearchLevel(v: Version, level: nat, k: UserKey, s: SequenceNumber) returns (e: Option<Entry>)
    requires Searchable(v) && level < NUM_LEVELS
    ensures Finds(FileEntries(v.levels[level]), k, s, e)
  {
    if level == 0 {
      e := SearchLevelZero(v.levels[0], k, s);
    } else {
      e := SearchSortedLevel(v.levels[level], k, s);
    }
  }

  lemma {:induction false} LevelAnswers(v: Version, level: nat, below: nat, k: UserKey, s: SequenceNumber,
                                        e: Option<Entry>)
    requires Searchable(v) && level < NUM_LEVELS && below == level + 1 && Finds(FileEntries(v.levels[level]), k, s, e)
    ensures LevelByLevel(v, k, s, level) == if e.Some? then Answer(e.value) else LevelByLevel(v, k, s, below)
  {
    LevelUnique(v, level);
    if e.Some? { ReadIs(FileEntries(v.levels[level]), k, s, e.value); }
  }

  lemma ShallowestWins(v: Version, level: nat, k: UserKey, s: SequenceNumber, e: Entry)
    requires Recency(v) && level < |v.levels| && Newest(FileEntries(v.levels[level]), k, s, e)
    requires forall l :: 0 <= l < level ==> NoneVisible(FileEntries(v.levels[l]), k, s)
    ensures Newest(Contents(v), k, s, e)
  {
    forall x | x in Contents(v) && Visible(x, k, s) ensures x.sn <= e.sn {
      var l :| 0 <= l < |v.levels| && x in FileEntries(v.levels[l]);
      if level < l { assert MoreRecent(FileEntries(v.levels[level]), FileEntries(v.levels[l])); }
    }
  }

  /** Recency makes the level-by-level search return the newest visible entry of all files. */
  lemma {:induction false} SearchIsRead(v: Version, k: UserKey, s: SequenceNumber, level: nat)
    requires Inv(v) && level <= NUM_LEVELS
    requires forall l :: 0 <= l < level ==> NoneVisible(FileEntries(v.levels[l]), k, s)
    ensures LevelByLevel(v, k, s, level) == Read(Contents(v), k, s)
    decreases NUM_LEVELS - level
  {
    if level == NUM_LEVELS {
      assert NoneVisible(Contents(v), k, s);
    } else if NoneVisible(FileEntries(v.levels[level]), k, s) {
      SearchIsRead(v, k, s, level + 1);
    } else {
      NewestExists(FileEntries(v.levels[level]), k, s);
      var e :| Newest(FileEntries(v.levels[level]), k, s, e);
      InvSeqUnique(v);
      LevelUnique(v, level);
      ShallowestWins(v, level, k, s, e);
      ReadIs(Contents(v), k, s, e);
      ReadIs(FileEntries(v.levels[level]), k, s, e);
    }
  }
}
