/** A compaction or move below level 0 may part the entries of one user key between a file it takes and the file
    after it. When that breaks the recency order of the levels, and when a search of the files notices. */
module SplitKeys {
  import opened DbFormat
  import opened Versions
  import opened Overlaps
  import opened Steps
  import opened Compactions

  // ---------- The boundary between a taken file and its neighbour ----------

  /** Once the loop drops an entry it drops the older ones of its user key. */
  lemma DropsOlder(v: Version, level: nat, input: seq<Entry>, snapshot: SequenceNumber, i: nat, j: nat)
    requires Sorted(input) && snapshot < MAX_SEQUENCE && i < j < |input| && input[i].user == input[j].user
    requires Dropped(v, level, input, i, snapshot)
    ensures Dropped(v, level, input, j, snapshot)
  {
    if i > 0 { assert Ordered(input[i - 1], input[i]); }
    if i < j - 1 { assert Ordered(input[i], input[j - 1]); }
    assert Ordered(input[j - 1], input[j]);
  }

  /** So an entry is kept when an older one of its user key is. */
  lemma KeptWithOlder(v: Version, level: nat, input: seq<Entry>, snapshot: SequenceNumber, e: Entry, older: Entry)
    requires Sorted(input) && snapshot < MAX_SEQUENCE && e in input && older.user == e.user && older.sn < e.sn
    requires older in Survivors(v, level, input, |input|, snapshot)
    ensures e in Survivors(v, level, input, |input|, snapshot)
  {
    SurvivorsAre(v, level, input, |input|, snapshot);
    var i :| 0 <= i < |input| && input[i] == e;
    var j :| 0 <= j < |input| && input[j] == older && !Dropped(v, level, input, j, snapshot);
    if Dropped(v, level, input, i, snapshot) { DropsOlder(v, level, input, snapshot, i, j); }
  }

  predicate HoldsKey(es: seq<Entry>, k: UserKey) { exists e :: e in es && e.user == k }

  /** A taken file and one left behind it part the entries of a user key. */
  predicate Parts(f: File, g: File) { Precedes(f, g) && Start(g) == Limit(f) }

  /** Of a user key that is parted this way, nothing moves down. */
  predicate NoneMovesPast(v: Version, level: nat, inputs0: seq<File>, input: seq<Entry>, snapshot: SequenceNumber)
    requires level < |v.levels|
  {
    forall f, g :: f in inputs0 && g in v.levels[level] && g !in inputs0 && Parts(f, g) ==>
      !HoldsKey(Survivors(v, level, input, |input|, snapshot), Limit(f))
  }

  lemma PartedStays(v: Version, level: nat, inputs0: seq<File>, input: seq<Entry>, snapshot: SequenceNumber, f: File,
                    g: File)
    requires |v.levels| == NUM_LEVELS && level < NUM_LEVELS && snapshot < MAX_SEQUENCE && Sorted(input)
    requires FileEntries(inputs0) <= Elements(input)
    requires NothingOlderLeft(v, level, inputs0, input, snapshot)
    requires f in inputs0 && g in v.levels[level] && g !in inputs0 && Parts(f, g)
    ensures !HoldsKey(Survivors(v, level, input, |input|, snapshot), Limit(f))
  {
    var es, a, b := Survivors(v, level, input, |input|, snapshot), g.First(), f.Last();
    assert a in g.entries && b in f.entries;
    assert a in Unchosen(v.levels[level], inputs0) && b in FileEntries(inputs0) && b in Elements(input);
    if HoldsKey(es, Limit(f)) {
      var e :| e in es && e.user == Limit(f);
      if e.sn < b.sn { KeptWithOlder(v, level, input, snapshot, b, e); }
    }
  }

  lemma OlderIsParted(v: Version, level: nat, inputs0: seq<File>, inputs1: seq<File>, a: Entry, b: Entry)
    returns (f: File, g: File)
    requires Inv(v) && 0 < level && Selected(v, level, inputs0, inputs1)
    requires a in Unchosen(v.levels[level], inputs0) && b in FileEntries(inputs0) + FileEntries(inputs1)
    requires a.user == b.user && a.sn <= b.sn
    ensures f in inputs0 && g in v.levels[level] && g !in inputs0 && Parts(f, g) && b.user == Limit(f)
  {
    assert FileEntries(inputs1) <= FileEntries(v.levels[level + 1]);
    assert MoreRecent(FileEntries(v.levels[level]), FileEntries(v.levels[level + 1]));
    g :| g in v.levels[level] && g !in inputs0 && a in g.entries;
    assert a in FileEntries(v.levels[level]);
    f :| f in inputs0 && b in f.entries;
    assert DisjointFiles(v.levels[level]);
    if Precedes(g, f) { PrecedesEntries(g, f, a, b); }
    UserRange(f, b);
    UserRange(g, a);
  }

  /** Below level 0 a compaction keeps the invariant if and only if no entry moves down of a user key with
      which a taken file ends and one left behind it starts. */
  lemma KeepsInvIffNoneMovesPast(v: Version, v': Version, level: nat, inputs0: seq<File>, inputs1: seq<File>,
                                 input: seq<Entry>, snapshot: SequenceNumber, first: nat, outputs: seq<File>)
    requires Compacted(v, v', level, inputs0, inputs1, input, snapshot, first, outputs) && 0 < level
    ensures Inv(v') <==> NoneMovesPast(v, level, inputs0, input, snapshot)
  {
    var es := Survivors(v, level, input, |input|, snapshot);
    CompactionKeepsInv(v, v', level, inputs0, inputs1, input, snapshot, first, outputs);
    if NothingOlderLeft(v, level, inputs0, input, snapshot) {
      forall f, g | f in inputs0 && g in v.levels[level] && g !in inputs0 && Parts(f, g)
        ensures !HoldsKey(es, Limit(f))
      {
        PartedStays(v, level, inputs0, input, snapshot, f, g);
      }
    }
    if NoneMovesPast(v, level, inputs0, input, snapshot) {
      SurvivorsAre(v, level, input, |input|, snapshot);
      forall a, b | a in Unchosen(v.levels[level], inputs0) && b in Elements(es) && a.user == b.user ensures a.sn > b.sn
      {
        assert b in Elements(input);
        if a.sn <= b.sn {
          var f, g := OlderIsParted(v, level, inputs0, inputs1, a, b);
          assert HoldsKey(es, Limit(f));
        }
      }
    }
  }

  // ---------- What the search of the files returns ----------

  /** `x` is the newest entry in `db` of the user key of `n` that is older than `n`. */
  predicate NextOlder(db: set<Entry>, n: Entry, x: Entry) {
    && x in db && x.user == n.user && x.sn < n.sn
    && forall y :: y in db && y.user == n.user && y.sn < n.sn ==> y.sn <= x.sn
  }

  predicate NoneOlder(db: set<Entry>, n: Entry) { forall y :: y in db && y.user == n.user ==> y.sn >= n.sn }

  predicate AnswersAlike(db: set<Entry>, n: Entry) {
    forall x :: x in db && NextOlder(db, n, x) ==> Answer(x) == Answer(n)
  }

  /** A reader for whom `n` is the newest entry still gets its answer: from what is left at the level, if that holds
      an older entry of the key, and if `n` is dropped from what is left one level down. */
  predicate StillAnswered(v: Version, level: nat, inputs0: seq<File>, inputs1: seq<File>, n: Entry,
                          snapshot: SequenceNumber)
    requires level + 1 < |v.levels|
  {
    var left, below := Unchosen(v.levels[level], inputs0), Unchosen(v.levels[level + 1], inputs1);
    AnswersAlike(left, n) && (NoneOlder(left, n) && Obsolete(v, level, n, snapshot) ==> AnswersAlike(below, n))
  }

  /** So for every entry taken in that some live snapshot reads. */
  predicate AllStillAnswered(v: Version, level: nat, inputs0: seq<File>, inputs1: seq<File>, input: seq<Entry>,
                             snapshot: SequenceNumber)
    requires level + 1 < |v.levels|
  {
    forall n :: n in Elements(input) && Unshadowed(Contents(v), n, snapshot) ==>
      StillAnswered(v, level, inputs0, inputs1, n, snapshot)
  }

  ghost predicate SameGet(v: Version, v': Version, k: UserKey, s: SequenceNumber) {
    LevelByLevel(v', k, s, 0) == LevelByLevel(v, k, s, 0)
  }

  ghost predicate SameGets(v: Version, v': Version, from: SequenceNumber) {
    forall k, s: SequenceNumber :: s >= from ==> SameGet(v, v', k, s)
  }

  lemma {:induction false} SearchSkips(v: Version, k: UserKey, s: SequenceNumber, from: nat, to: nat)
    requires from <= to <= |v.levels| && forall l :: from <= l < to ==> NoneVisible(FileEntries(v.levels[l]), k, s)
    ensures LevelByLevel(v, k, s, from) == LevelByLevel(v, k, s, to)
    decreases |v.levels| - from
  {
    if from < to { SearchSkips(v, k, s, from + 1, to); }
  }

  lemma {:induction false} SearchStops(v: Version, k: UserKey, s: SequenceNumber, l: nat, e: Entry)
    requires Searchable(v) && l < NUM_LEVELS && Newest(FileEntries(v.levels[l]), k, s, e)
    requires forall m :: 0 <= m < l ==> NoneVisible(FileEntries(v.levels[m]), k, s)
    ensures LevelByLevel(v, k, s, 0) == Answer(e)
  {
    SearchSkips(v, k, s, 0, l);
    LevelUnique(v, l);
    ReadIs(FileEntries(v.levels[l]), k, s, e);
  }

  lemma {:induction false} SearchEnds(v: Version, k: UserKey, s: SequenceNumber)
    requires forall m :: 0 <= m < |v.levels| ==> NoneVisible(FileEntries(v.levels[m]), k, s)
    ensures LevelByLevel(v, k, s, 0) == None
  {
    SearchSkips(v, k, s, 0, |v.levels|);
  }

  /** The levels after a compaction. */
  lemma LevelsAfter(v: Version, v': Version, level: nat, inputs0: seq<File>, inputs1: seq<File>, outputs: seq<File>)
    requires Replaced(v, v', level, inputs0, inputs1, outputs)
    ensures forall l :: 0 <= l < NUM_LEVELS && l != level && l != level + 1 ==>
      FileEntries(v'.levels[l]) == FileEntries(v.levels[l])
    ensures FileEntries(v'.levels[level]) == Unchosen(v.levels[level], inputs0)
    ensures FileEntries(v'.levels[level + 1]) == Unchosen(v.levels[level + 1], inputs1) + FileEntries(outputs)
  {}

  /** What is left is of other entries than what is taken in. */
  lemma LeftIsApart(v: Version, level: nat, inputs0: seq<File>, inputs1: seq<File>, n: Entry, x: Entry)
    requires Inv(v) && Selected(v, level, inputs0, inputs1)
    requires n in FileEntries(inputs0) + FileEntries(inputs1) && x in Left(v, level, inputs0, inputs1)
    ensures x.user == n.user ==> x.sn != n.sn
  {
    var l := if n in FileEntries(inputs0) then level else level + 1;
    var m := if x in Unchosen(v.levels[level], inputs0) then level else level + 1;
    var f :| f in (if l == level then inputs0 else inputs1) && n in f.entries;
    var g :| g in v.levels[m] && g !in (if m == level then inputs0 else inputs1) && x in g.entries;
    assert f in v.levels[l];
    assert n in FileEntries(v.levels[l]) && x in FileEntries(v.levels[m]);
    assert MoreRecent(FileEntries(v.levels[level]), FileEntries(v.levels[level + 1]));
    if l == m { FilesApart(v, l, f, g, n, x); }
  }

  lemma FilesApart(v: Version, l: nat, f: File, g: File, n: Entry, x: Entry)
    requires Inv(v) && l < NUM_LEVELS && f in v.levels[l] && g in v.levels[l] && f != g && n in f.entries
      && x in g.entries
    ensures x.user == n.user ==> x.sn != n.sn
  {
    if l == 0 {
      if f.number > g.number { OlderFileOlderOrOther(v.levels[0], f, g, n, x); }
      else { OlderFileOlderOrOther(v.levels[0], g, f, x, n); }
    } else if Precedes(f, g) {
      PrecedesEntries(f, g, n, x);
    } else {
      PrecedesEntries(g, f, x, n);
    }
  }

  lemma OlderFileOlderOrOther(files: seq<File>, f: File, g: File, e: Entry, x: Entry)
    requires LevelZeroRecency(files) && f in files && g in files && f.number > g.number && e in f.entries
      && x in g.entries
    ensures e.user == x.user ==> x.sn < e.sn
  {
    if e.user == x.user { OlderFileOlder(files, f, g, e, x); }
  }

  // ---------- A reader of an entry that was not taken in ----------

  /** Where an entry of the old version is in the new one, if no input file holds it. */
  lemma NotTaken(v: Version, v': Version, level: nat, inputs0: seq<File>, inputs1: seq<File>, outputs: seq<File>,
                 l: nat, n: Entry)
    requires Replaced(v, v', level, inputs0, inputs1, outputs) && l < NUM_LEVELS && n in FileEntries(v.levels[l])
    requires n !in FileEntries(inputs0) + FileEntries(inputs1)
    ensures n in FileEntries(v'.levels[l])
  {
    var f :| f in v.levels[l] && n in f.entries;
    assert f !in inputs0 && f !in inputs1;
  }

  /** Above the level of the newest visible entry the new version shows nothing. */
  lemma NothingAbove(v: Version, v': Version, level: nat, inputs0: seq<File>, inputs1: seq<File>, outputs: seq<File>,
                     l: nat, m: nat, n: Entry, s: SequenceNumber)
    requires Recency(v) && Selected(v, level, inputs0, inputs1)
    requires Replaced(v, v', level, inputs0, inputs1, outputs)
    requires FileEntries(outputs) <= FileEntries(inputs0) + FileEntries(inputs1)
    requires m < l < NUM_LEVELS && n in FileEntries(v.levels[l]) && Newest(Contents(v), n.user, s, n)
    ensures NoneVisible(FileEntries(v'.levels[m]), n.user, s)
  {
    forall x | x in FileEntries(v'.levels[m]) ensures !Visible(x, n.user, s) {
      var was := CameFrom(v, v', level, inputs0, inputs1, outputs, m, x);
      assert MoreRecent(FileEntries(v.levels[was]), FileEntries(v.levels[l]));
      assert x in Contents(v);
    }
  }

  lemma SameForOthers(v: Version, v': Version, level: nat, inputs0: seq<File>, inputs1: seq<File>, outputs: seq<File>,
                      n: Entry, s: SequenceNumber)
    requires Recency(v) && Searchable(v') && Selected(v, level, inputs0, inputs1) && Contents(v') <= Contents(v)
    requires Replaced(v, v', level, inputs0, inputs1, outputs)
    requires FileEntries(outputs) <= FileEntries(inputs0) + FileEntries(inputs1)
    requires Newest(Contents(v), n.user, s, n) && n !in FileEntries(inputs0) + FileEntries(inputs1)
    ensures LevelByLevel(v', n.user, s, 0) == Answer(n)
  {
    var l :| 0 <= l < NUM_LEVELS && n in FileEntries(v.levels[l]);
    NotTaken(v, v', level, inputs0, inputs1, outputs, l, n);
    forall m | 0 <= m < l ensures NoneVisible(FileEntries(v'.levels[m]), n.user, s) {
      NothingAbove(v, v', level, inputs0, inputs1, outputs, l, m, n, s);
    }
    forall x | x in FileEntries(v'.levels[l]) ensures x in Contents(v) { assert x in Contents(v'); }
    SearchStops(v', n.user, s, l, n);
  }

  // ---------- A reader of an entry that was ----------

  /** What such a reader sees in a part of what is left is what is older than the entry. */
  lemma SeesOlder(db: set<Entry>, all: set<Entry>, n: Entry, s: SequenceNumber)
    requires db <= all && Newest(all, n.user, s, n) && forall x :: x in db && x.user == n.user ==> x.sn != n.sn
    ensures NoneVisible(db, n.user, s) <==> NoneOlder(db, n)
    ensures forall x :: Newest(db, n.user, s, x) <==> NextOlder(db, n, x)
  {}

  lemma AlikeIff(db: set<Entry>, n: Entry, x: Entry)
    requires SeqUnique(db) && NextOlder(db, n, x)
    ensures AnswersAlike(db, n) <==> Answer(x) == Answer(n)
  {}

  lemma NoneOlderAlike(db: set<Entry>, n: Entry)
    requires NoneOlder(db, n)
    ensures AnswersAlike(db, n)
  {}

  lemma InputLevel(v: Version, level: nat, inputs0: seq<File>, inputs1: seq<File>, n: Entry) returns (l: nat)
    requires Selected(v, level, inputs0, inputs1) && n in FileEntries(inputs0) + FileEntries(inputs1)
    ensures level <= l <= level + 1 && n in FileEntries(v.levels[l])
  {
    if n in FileEntries(inputs0) { l := level; } else { l := level + 1; }
  }

  /** The search comes to the level without having found anything. */
  lemma ReachesLevel(v: Version, v': Version, level: nat, inputs0: seq<File>, inputs1: seq<File>, outputs: seq<File>,
                     n: Entry, s: SequenceNumber)
    requires Recency(v) && Selected(v, level, inputs0, inputs1)
    requires Replaced(v, v', level, inputs0, inputs1, outputs)
    requires FileEntries(outputs) <= FileEntries(inputs0) + FileEntries(inputs1)
    requires Newest(Contents(v), n.user, s, n) && n in FileEntries(inputs0) + FileEntries(inputs1)
    ensures forall m :: 0 <= m < level ==> NoneVisible(FileEntries(v'.levels[m]), n.user, s)
  {
    var l := InputLevel(v, level, inputs0, inputs1, n);
    forall m | 0 <= m < level ensures NoneVisible(FileEntries(v'.levels[m]), n.user, s) {
      NothingAbove(v, v', level, inputs0, inputs1, outputs, l, m, n, s);
    }
  }

  /** Something older is left at the level: the search stops there. */
  lemma StopsAtLevel(v': Version, level: nat, left: set<Entry>, all: set<Entry>, n: Entry, s: SequenceNumber)
    requires Searchable(v') && level < NUM_LEVELS && FileEntries(v'.levels[level]) == left && left <= all
    requires forall m :: 0 <= m < level ==> NoneVisible(FileEntries(v'.levels[m]), n.user, s)
    requires Newest(all, n.user, s, n) && (forall x :: x in left && x.user == n.user ==> x.sn != n.sn)
    requires !NoneOlder(left, n)
    ensures LevelByLevel(v', n.user, s, 0) == Answer(n) <==> AnswersAlike(left, n)
  {
    SeesOlder(left, all, n, s);
    NewestExists(left, n.user, s);
    var u :| Newest(left, n.user, s, u);
    LevelUnique(v', level);
    AlikeIff(left, n, u);
    SearchStops(v', n.user, s, level, u);
  }

  /** An entry that a live snapshot reads is kept unless it is an obsolete tombstone. */
  lemma KeptUnlessObsolete(v: Version, level: nat, inputs0: seq<File>, inputs1: seq<File>, input: seq<Entry>,
                           snapshot: SequenceNumber, n: Entry)
    requires Selected(v, level, inputs0, inputs1) && snapshot < MAX_SEQUENCE
    requires Sorted(input) && Elements(input) == FileEntries(inputs0) + FileEntries(inputs1)
    requires n in Elements(input) && Unshadowed(Contents(v), n, snapshot)
    ensures n in Survivors(v, level, input, |input|, snapshot) <==> !Obsolete(v, level, n, snapshot)
  {
    SurvivorsAre(v, level, input, |input|, snapshot);
    forall i | 0 <= i < |input| && input[i] == n ensures !Hidden(input, i, snapshot) {
      if Hidden(input, i, snapshot) { HidingEntry(v, level, inputs0, inputs1, input, i, snapshot); }
    }
  }

  /** An entry that is kept is found one level down when nothing is seen above. */
  lemma FoundBelow(v': Version, below: nat, here: set<Entry>, n: Entry, s: SequenceNumber)
    requires Searchable(v') && below < NUM_LEVELS && FileEntries(v'.levels[below]) == here
    requires forall m :: 0 <= m < below ==> NoneVisible(FileEntries(v'.levels[m]), n.user, s)
    requires n in here && here <= Contents(v')
    requires n.sn <= s && forall x :: x in Contents(v') && Visible(x, n.user, s) ==> x.sn <= n.sn
    ensures LevelByLevel(v', n.user, s, 0) == Answer(n)
  {
    SearchStops(v', n.user, s, below, n);
  }

  /** Below the next level nothing is known of an obsolete tombstone's key. */
  lemma NothingDeeper(v: Version, v': Version, level: nat, inputs0: seq<File>, inputs1: seq<File>, outputs: seq<File>,
                      d: Entry, snapshot: SequenceNumber, s: SequenceNumber)
    requires Replaced(v, v', level, inputs0, inputs1, outputs) && Obsolete(v, level, d, snapshot)
    ensures forall m :: level + 1 < m < NUM_LEVELS ==> NoneVisible(FileEntries(v'.levels[m]), d.user, s)
  {
    forall m, x | level + 1 < m < NUM_LEVELS && x in FileEntries(v'.levels[m]) ensures !Visible(x, d.user, s) {
      var f :| f in v'.levels[m] && x in f.entries;
      UserRange(f, x);
    }
  }

  /** Without the tombstone the search goes on to what is left one level down. */
  lemma GoesBelow(v': Version, level: nat, next: nat, below: set<Entry>, moved: set<Entry>, all: set<Entry>, n: Entry,
                  s: SequenceNumber)
    requires Searchable(v') && next == level + 1 < NUM_LEVELS && FileEntries(v'.levels[next]) == below + moved
    requires below <= all && Newest(all, n.user, s, n) && n.kind.Deletion?
    requires forall x :: x in below && x.user == n.user ==> x.sn != n.sn
    requires NoneVisible(moved, n.user, s)
    requires forall m :: 0 <= m < NUM_LEVELS && m != next ==> NoneVisible(FileEntries(v'.levels[m]), n.user, s)
    ensures LevelByLevel(v', n.user, s, 0) == Answer(n) <==> AnswersAlike(below, n)
  {
    SeesOlder(below, all, n, s);
    if NoneOlder(below, n) {
      NoneOlderAlike(below, n);
      SearchEnds(v', n.user, s);
    } else {
      NewestExists(below, n.user, s);
      var u :| Newest(below, n.user, s, u);
      LevelUnique(v', next);
      AlikeIff(below, n, u);
      SearchStops(v', n.user, s, next, u);
    }
  }

  /** What moved down of an obsolete tombstone's key no reader of the tombstone sees. */
  lemma MovedIsNewer(v: Version, level: nat, input: seq<Entry>, snapshot: SequenceNumber, all: set<Entry>, n: Entry,
                     s: SequenceNumber)
    requires Sorted(input) && n in input && Obsolete(v, level, n, snapshot) && Newest(all, n.user, s, n)
    requires Elements(Survivors(v, level, input, |input|, snapshot)) <= all
    ensures NoneVisible(Elements(Survivors(v, level, input, |input|, snapshot)), n.user, s)
  {
    forall x | x in Elements(Survivors(v, level, input, |input|, snapshot)) ensures !Visible(x, n.user, s) {
      if x.user == n.user { SurvivorIsNewer(v, level, input, snapshot, n, x); }
    }
  }

  /** A reader of an entry that was taken in gets its answer if and only if what is left says the same. */
  lemma AnsweredIff(v: Version, v': Version, level: nat, inputs0: seq<File>, inputs1: seq<File>, input: seq<Entry>,
                    snapshot: SequenceNumber, first: nat, outputs: seq<File>, n: Entry, s: SequenceNumber)
    requires Compacted(v, v', level, inputs0, inputs1, input, snapshot, first, outputs) && Searchable(v')
    requires n in Elements(input) && Newest(Contents(v), n.user, s, n) && snapshot <= s
    ensures LevelByLevel(v', n.user, s, 0) == Answer(n) <==>
      StillAnswered(v, level, inputs0, inputs1, n, snapshot)
  {
    OutputEntries(v, v', level, inputs0, inputs1, input, snapshot, first, outputs);
    LevelsAfter(v, v', level, inputs0, inputs1, outputs);
    ReachesLevel(v, v', level, inputs0, inputs1, outputs, n, s);
    forall x | x in Left(v, level, inputs0, inputs1) ensures x in Contents(v) && (x.user == n.user ==> x.sn != n.sn) {
      LeftIsApart(v, level, inputs0, inputs1, n, x);
      LeftIsOld(v, level, inputs0, inputs1, x);
    }
    var left := Unchosen(v.levels[level], inputs0);
    if !NoneOlder(left, n) {
      StopsAtLevel(v', level, left, Contents(v), n, s);
    } else {
      NoneOlderAlike(left, n);
      SeesOlder(left, Contents(v), n, s);
      NewContents(v, v', level, inputs0, inputs1, input, snapshot, first, outputs);
      AnsweredBelow(v, v', level, inputs0, inputs1, input, snapshot, outputs, n, s);
    }
  }

  lemma LeftIsOld(v: Version, level: nat, inputs0: seq<File>, inputs1: seq<File>, x: Entry)
    requires level + 1 < |v.levels| && x in Left(v, level, inputs0, inputs1)
    ensures x in Contents(v)
  {
    if x in Unchosen(v.levels[level], inputs0) {
      assert x in FileEntries(v.levels[level]);
    } else {
      assert x in FileEntries(v.levels[level + 1]);
    }
  }

  lemma AnsweredBelow(v: Version, v': Version, level: nat, inputs0: seq<File>, inputs1: seq<File>, input: seq<Entry>,
                      snapshot: SequenceNumber, outputs: seq<File>, n: Entry, s: SequenceNumber)
    requires Selected(v, level, inputs0, inputs1) && snapshot < MAX_SEQUENCE && Searchable(v') && snapshot <= s
    requires Sorted(input) && Elements(input) == FileEntries(inputs0) + FileEntries(inputs1)
    requires Replaced(v, v', level, inputs0, inputs1, outputs) && Contents(v') <= Contents(v)
    requires FileEntries(outputs) == Elements(Survivors(v, level, input, |input|, snapshot))
    requires FileEntries(v'.levels[level + 1]) == Unchosen(v.levels[level + 1], inputs1) + FileEntries(outputs)
    requires n in Elements(input) && Newest(Contents(v), n.user, s, n)
    requires forall x :: x in Left(v, level, inputs0, inputs1) ==>
      x in Contents(v) && (x.user == n.user ==> x.sn != n.sn)
    requires forall m :: 0 <= m < level + 1 ==> NoneVisible(FileEntries(v'.levels[m]), n.user, s)
    ensures LevelByLevel(v', n.user, s, 0) == Answer(n) <==>
      (Obsolete(v, level, n, snapshot) ==> AnswersAlike(Unchosen(v.levels[level + 1], inputs1), n))
  {
    var below, moved := Unchosen(v.levels[level + 1], inputs1), FileEntries(outputs);
    KeptUnlessObsolete(v, level, inputs0, inputs1, input, snapshot, n);
    if Obsolete(v, level, n, snapshot) {
      MovedIsNewer(v, level, input, snapshot, Contents(v), n, s);
      NothingDeeper(v, v', level, inputs0, inputs1, outputs, n, snapshot, s);
      GoesBelow(v', level, level + 1, below, moved, Contents(v), n, s);
    } else {
      FoundBelow(v', level + 1, below + moved, n, s);
    }
  }

  // ---------- Every reader ----------

  lemma GetIs(v: Version, n: Entry, s: SequenceNumber)
    requires Inv(v) && Newest(Contents(v), n.user, s, n)
    ensures LevelByLevel(v, n.user, s, 0) == Answer(n)
  {
    SearchIsRead(v, n.user, s, 0);
    InvSeqUnique(v);
    ReadIs(Contents(v), n.user, s, n);
  }

  /** Some live snapshot reads an entry that nothing newer hides from the smallest one. */
  lemma ReadBySome(all: set<Entry>, n: Entry, snapshot: SequenceNumber, s: SequenceNumber)
    requires n in all && Unshadowed(all, n, snapshot) && s == if n.sn <= snapshot then snapshot else n.sn
    ensures Newest(all, n.user, s, n)
  {}

  lemma SameGetFor(v: Version, v': Version, level: nat, inputs0: seq<File>, inputs1: seq<File>, input: seq<Entry>,
                   snapshot: SequenceNumber, first: nat, outputs: seq<File>, k: UserKey, s: SequenceNumber)
    requires Compacted(v, v', level, inputs0, inputs1, input, snapshot, first, outputs) && Searchable(v')
    requires AllStillAnswered(v, level, inputs0, inputs1, input, snapshot) && snapshot <= s
    ensures SameGet(v, v', k, s)
  {
    NewContents(v, v', level, inputs0, inputs1, input, snapshot, first, outputs);
    if NoneVisible(Contents(v), k, s) {
      NothingSeen(v, k, s);
      NothingSeen(v', k, s);
    } else {
      NewestExists(Contents(v), k, s);
      var n :| Newest(Contents(v), k, s, n);
      GetIs(v, n, s);
      if n in Elements(input) {
        AnsweredIff(v, v', level, inputs0, inputs1, input, snapshot, first, outputs, n, s);
      } else {
        OutputEntries(v, v', level, inputs0, inputs1, input, snapshot, first, outputs);
        SameForOthers(v, v', level, inputs0, inputs1, outputs, n, s);
      }
    }
  }

  lemma NothingSeen(v: Version, k: UserKey, s: SequenceNumber)
    requires NoneVisible(Contents(v), k, s)
    ensures LevelByLevel(v, k, s, 0) == None
  {
    forall m | 0 <= m < |v.levels| ensures NoneVisible(FileEntries(v.levels[m]), k, s) {
      forall x | x in FileEntries(v.levels[m]) ensures x in Contents(v) {}
    }
    SearchEnds(v, k, s);
  }

  /** After a compaction, whether or not it keeps the recency order, Get returns what it returned before at every
      snapshot from the smallest live one on if and only if every entry taken in that one of them reads is
      still answered for by what the search comes to first. */
  lemma SameGetsIff(v: Version, v': Version, level: nat, inputs0: seq<File>, inputs1: seq<File>, input: seq<Entry>,
                    snapshot: SequenceNumber, first: nat, outputs: seq<File>)
    requires Compacted(v, v', level, inputs0, inputs1, input, snapshot, first, outputs)
    ensures Searchable(v')
    ensures SameGets(v, v', snapshot) <==> AllStillAnswered(v, level, inputs0, inputs1, input, snapshot)
  {
    StaysSearchable(v, v', level, inputs0, inputs1, input, snapshot, first, outputs);
    if AllStillAnswered(v, level, inputs0, inputs1, input, snapshot) {
      forall k, s: SequenceNumber | s >= snapshot ensures SameGet(v, v', k, s) {
        SameGetFor(v, v', level, inputs0, inputs1, input, snapshot, first, outputs, k, s);
      }
    }
    if SameGets(v, v', snapshot) {
      forall n | n in Elements(input) && Unshadowed(Contents(v), n, snapshot)
        ensures StillAnswered(v, level, inputs0, inputs1, n, snapshot)
      {
        var s: SequenceNumber := if n.sn <= snapshot then snapshot else n.sn;
        InputIsOld(v, level, inputs0, inputs1, input, n);
        ReadBySome(Contents(v), n, snapshot, s);
        GetIs(v, n, s);
        assert SameGet(v, v', n.user, s);
        AnsweredIff(v, v', level, inputs0, inputs1, input, snapshot, first, outputs, n, s);
      }
    }
  }

  /** Every level can still be searched by itself. */
  lemma StaysSearchable(v: Version, v': Version, level: nat, inputs0: seq<File>, inputs1: seq<File>, input: seq<Entry>,
                        snapshot: SequenceNumber, first: nat, outputs: seq<File>)
    requires Compacted(v, v', level, inputs0, inputs1, input, snapshot, first, outputs)
    ensures Searchable(v')
  {
    OutputEntries(v, v', level, inputs0, inputs1, input, snapshot, first, outputs);
    ReplacedNumbers(v, v', level, inputs0, inputs1, outputs, first);
    LevelsStaySearchable(v, v', level, inputs0, inputs1, outputs);
  }

  // ---------- A trivial move ----------

  lemma MovedAnsweredIff(v: Version, v': Version, level: nat, f: File, n: Entry, s: SequenceNumber)
    requires Inv(v) && Selected(v, level, [f], []) && Replaced(v, v', level, [f], [], [f]) && Searchable(v')
    requires Contents(v') == Contents(v) && n in f.entries && Newest(Contents(v), n.user, s, n)
    ensures LevelByLevel(v', n.user, s, 0) == Answer(n) <==> AnswersAlike(Unchosen(v.levels[level], [f]), n)
  {
    var left := Unchosen(v.levels[level], [f]);
    OneFile(f);
    LevelsAfter(v, v', level, [f], [], [f]);
    ReachesLevel(v, v', level, [f], [], [f], n, s);
    LeftOfOne(v, level, f, n);
    if !NoneOlder(left, n) {
      StopsAtLevel(v', level, left, Contents(v), n, s);
    } else {
      NoneOlderAlike(left, n);
      SeesOlder(left, Contents(v), n, s);
      InContents(v', level + 1);
      FoundBelow(v', level + 1, FileEntries(v'.levels[level + 1]), n, s);
    }
  }

  lemma LeftOfOne(v: Version, level: nat, f: File, n: Entry)
    requires Inv(v) && Selected(v, level, [f], []) && n in f.entries
    ensures forall x :: x in Unchosen(v.levels[level], [f]) ==>
      x in Contents(v) && (x.user == n.user ==> x.sn != n.sn)
  {
    OneFile(f);
    forall x | x in Unchosen(v.levels[level], [f]) ensures x in Contents(v) && (x.user == n.user ==> x.sn != n.sn) {
      LeftIsApart(v, level, [f], [], n, x);
      LeftIsOld(v, level, [f], [], x);
    }
  }

  lemma OneFile(f: File)
    ensures FileEntries([f]) == Elements(f.entries) && FileEntries([]) == {}
  {
    assert f in [f];
  }

  lemma InContents(v: Version, l: nat)
    requires l < |v.levels|
    ensures FileEntries(v.levels[l]) <= Contents(v)
  {}

  /** After a trivial move, whether or not it keeps the recency order, Get returns what it returned before at every
      snapshot if and only if no entry of the moved file is answered differently by what is left of its key. */
  lemma SameGetsAfterMoveIff(v: Version, v': Version, level: nat, f: File)
    requires Inv(v) && Selected(v, level, [f], []) && Replaced(v, v', level, [f], [], [f])
    ensures Searchable(v')
    ensures SameGets(v, v', 0) <==> AllAlike(v, level, f)
  {
    MoveStaysSearchable(v, v', level, f);
    MoveKeepsContents(v, v', level, f);
    if AllAlike(v, level, f) {
      forall k, s: SequenceNumber | s >= 0 ensures SameGet(v, v', k, s) { SameGetForMove(v, v', level, f, k, s); }
    }
    if SameGets(v, v', 0) {
      forall n | n in f.entries ensures AnswersAlike(Unchosen(v.levels[level], [f]), n) {
        MoveNeedsAlike(v, v', level, f, n);
      }
    }
  }

  /** What is left of its key answers like every entry of the file. */
  predicate AllAlike(v: Version, level: nat, f: File)
    requires level < |v.levels|
  {
    forall n :: n in f.entries ==> AnswersAlike(Unchosen(v.levels[level], [f]), n)
  }

  lemma MoveNeedsAlike(v: Version, v': Version, level: nat, f: File, n: Entry)
    requires Inv(v) && Selected(v, level, [f], []) && Replaced(v, v', level, [f], [], [f]) && Searchable(v')
    requires Contents(v') == Contents(v) && n in f.entries && SameGet(v, v', n.user, n.sn)
    ensures AnswersAlike(Unchosen(v.levels[level], [f]), n)
  {
    OneFile(f);
    InputIsOld(v, level, [f], [], f.entries, n);
    NewestAtOwn(v, n);
    GetIs(v, n, n.sn);
    MovedAnsweredIff(v, v', level, f, n, n.sn);
  }

  lemma NewestAtOwn(v: Version, n: Entry)
    requires n in Contents(v)
    ensures Newest(Contents(v), n.user, n.sn, n)
  {}

  lemma MoveStaysSearchable(v: Version, v': Version, level: nat, f: File)
    requires Inv(v) && Selected(v, level, [f], []) && Replaced(v, v', level, [f], [], [f])
    ensures Searchable(v')
  {
    MoveKeepsNumbers(v, v', level, f);
    OneFile(f);
    LevelsStaySearchable(v, v', level, [f], [], [f]);
  }

  lemma LevelsStaySearchable(v: Version, v': Version, level: nat, inputs0: seq<File>, inputs1: seq<File>,
                             outputs: seq<File>)
    requires Inv(v) && Selected(v, level, inputs0, inputs1) && UniqueNumbers(v')
    requires Replaced(v, v', level, inputs0, inputs1, outputs)
    requires FileEntries(outputs) <= FileEntries(inputs0) + FileEntries(inputs1)
    requires forall f, g :: f in outputs && g in outputs && f != g ==> Precedes(f, g) || Precedes(g, f)
    ensures Searchable(v')
  {
    OutputsFit(v, v', level, inputs0, inputs1, outputs);
    forall l | 1 <= l < NUM_LEVELS && l != level + 1 ensures DisjointFiles(v'.levels[l]) {
      FewerStayDisjoint(v.levels[l], v'.levels[l]);
    }
  }

  lemma SameGetForMove(v: Version, v': Version, level: nat, f: File, k: UserKey, s: SequenceNumber)
    requires Inv(v) && Selected(v, level, [f], []) && Replaced(v, v', level, [f], [], [f]) && Searchable(v')
    requires Contents(v') == Contents(v)
    requires AllAlike(v, level, f)
    ensures SameGet(v, v', k, s)
  {
    if NoneVisible(Contents(v), k, s) {
      NothingSeen(v, k, s);
      NothingSeen(v', k, s);
    } else {
      NewestExists(Contents(v), k, s);
      var n :| Newest(Contents(v), k, s, n);
      GetIs(v, n, s);
      FoundAfterMove(v, v', level, f, n, s);
    }
  }

  lemma FoundAfterMove(v: Version, v': Version, level: nat, f: File, n: Entry, s: SequenceNumber)
    requires Inv(v) && Selected(v, level, [f], []) && Replaced(v, v', level, [f], [], [f]) && Searchable(v')
    requires Contents(v') == Contents(v) && AllAlike(v, level, f) && Newest(Contents(v), n.user, s, n)
    ensures LevelByLevel(v', n.user, s, 0) == Answer(n)
  {
    if n in f.entries {
      MovedAnsweredIff(v, v', level, f, n, s);
    } else {
      OneFile(f);
      SameForOthers(v, v', level, [f], [], [f], n, s);
    }
  }
}
