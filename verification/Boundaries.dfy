/** Runs of the compaction code on small versions. The input selection compares file ranges by user key, and
    below level 0 one user key can end a file and start the next: a move then leaves an older value above a
    newer one, and a dropped tombstone lets a value return. And inputs chosen by key range may have a gap
    between them, into which a memtable can be flushed while the compaction runs. */
module Boundaries {
  import opened DbFormat
  import opened Versions
  import opened Overlaps
  import opened Steps
  import opened Compactions
  import opened Interleaving
  import opened Manifest
  import opened TableSteps
  import opened DbState
  import opened DbImpl

  /** A version with files at two levels. */
  function At(l: nat, fs: seq<File>, m: nat, gs: seq<File>): (v: Version)
    ensures |v.levels| == NUM_LEVELS
    ensures forall i :: 0 <= i < NUM_LEVELS ==> v.levels[i] == if i == l then fs else if i == m then gs else []
  {
    Version(seq(NUM_LEVELS, i => if i == l then fs else if i == m then gs else []))
  }

  ghost predicate NumbersApart(fs: seq<File>, gs: seq<File>) {
    && (forall f, g :: f in fs && g in fs && f.number == g.number ==> f == g)
    && (forall f, g :: f in gs && g in gs && f.number == g.number ==> f == g)
    && (forall f, g :: f in fs && g in gs ==> f.number != g.number)
  }

  ghost predicate LevelOk(l: nat, fs: seq<File>) {
    SortedFiles(fs) && (if l == 0 then LevelZeroRecency(fs) else DisjointFiles(fs))
  }

  lemma AtIsSearchable(l: nat, fs: seq<File>, m: nat, gs: seq<File>)
    requires l < m < NUM_LEVELS && LevelOk(l, fs) && LevelOk(m, gs) && NumbersApart(fs, gs)
    ensures Searchable(At(l, fs, m, gs))
  {
    var v := At(l, fs, m, gs);
    forall i | 0 <= i < NUM_LEVELS ensures LevelOk(i, v.levels[i]) {}
    forall i, f | 0 <= i < NUM_LEVELS && f in v.levels[i] ensures (i == l && f in fs) || (i == m && f in gs) {}
  }

  lemma AtIsRecent(l: nat, fs: seq<File>, m: nat, gs: seq<File>)
    requires l < m < NUM_LEVELS && MoreRecent(FileEntries(fs), FileEntries(gs))
    ensures Recency(At(l, fs, m, gs))
  {
    var v := At(l, fs, m, gs);
    forall i, j | 0 <= i < j < NUM_LEVELS ensures MoreRecent(FileEntries(v.levels[i]), FileEntries(v.levels[j])) {
      assert (i == l && j == m) || v.levels[i] == [] || v.levels[j] == [];
    }
  }

  lemma AtContents(l: nat, fs: seq<File>, m: nat, gs: seq<File>)
    requires l < m < NUM_LEVELS
    ensures Contents(At(l, fs, m, gs)) == FileEntries(fs) + FileEntries(gs)
  {
    var v := At(l, fs, m, gs);
    assert v.levels[l] == fs && v.levels[m] == gs;
  }

  lemma EntriesOfOne(f: File)
    ensures FileEntries([f]) == Elements(f.entries)
  {
    assert f in [f];
  }

  lemma EntriesOfTwo(f: File, g: File)
    ensures FileEntries([f, g]) == Elements(f.entries) + Elements(g.entries)
  {
    assert f in [f, g] && g in [f, g];
  }

  lemma TwoInOrder(l: nat, f: File, g: File)
    requires l > 0 && BySmallest(f, g) && Precedes(f, g)
    ensures LevelOk(l, [f, g])
  {}

  // ---------- A key split between two files ----------

  const NEW: Entry := Entry(1, 2, Put, "new")
  const OLD: Entry := Entry(1, 1, Put, "old")

  /** Key 1 written twice, with a snapshot in between, and each memtable written as a level-0 table. */
  const NEW_TABLE: File := File(4, TARGET_FILE_SIZE, [NEW])
  const OLD_TABLE: File := File(3, TARGET_FILE_SIZE, [OLD])
  const START: Version := At(0, [NEW_TABLE, OLD_TABLE], 1, [])

  const NEW_FILE: File := File(5, TARGET_FILE_SIZE, [NEW])
  const OLD_FILE: File := File(6, TARGET_FILE_SIZE, [OLD])
  const SPLIT: Version := At(0, [], 1, [NEW_FILE, OLD_FILE])
  const MOVED: Version := At(1, [OLD_FILE], 2, [NEW_FILE])

  lemma StartInv()
    ensures Inv(START)
  {
    assert BySmallest(NEW_TABLE, OLD_TABLE);
    assert MoreRecent(Elements(NEW_TABLE.entries), Elements(OLD_TABLE.entries));
    AtIsSearchable(0, [NEW_TABLE, OLD_TABLE], 1, []);
    AtIsRecent(0, [NEW_TABLE, OLD_TABLE], 1, []);
  }

  lemma NoMembers(files: seq<File>)
    ensures files == [] || exists f :: f in files
  {
    assert files == [] || files[0] in files;
  }

  /** The two tables meet, so both are taken. */
  lemma StartInputs(inputs0: seq<File>, inputs1: seq<File>)
    requires Selected(START, 0, inputs0, inputs1)
    ensures NEW_TABLE in inputs0 && OLD_TABLE in inputs0 && inputs1 == []
    ensures FileEntries(inputs0) + FileEntries(inputs1) == {NEW, OLD}
  {
    var f := inputs0[0];
    assert f in START.levels[0] && f in Elements(inputs0);
    assert Meet(NEW_TABLE, OLD_TABLE) && Meet(OLD_TABLE, NEW_TABLE);
    assert NEW_TABLE in START.levels[0] && OLD_TABLE in START.levels[0];
    assert NEW_TABLE in Elements(inputs0) && OLD_TABLE in Elements(inputs0);
    assert forall g :: g in inputs0 ==> g == NEW_TABLE || g == OLD_TABLE;
    assert START.levels[1] == [];
    NoMembers(inputs1);
    assert NEW in NEW_TABLE.entries && OLD in OLD_TABLE.entries;
  }

  lemma SortedPlace(input: seq<Entry>, i: nat, k: nat)
    requires Sorted(input) && i < |input| && k < |input|
    ensures input[i] == input[k] ==> i == k
  {}

  lemma MergedTwo(input: seq<Entry>)
    requires Sorted(input) && Elements(input) == {NEW, OLD}
    ensures input == [NEW, OLD]
  {
    assert NEW in input && OLD in input;
    forall i | 0 <= i < |input| ensures input[i] == NEW || input[i] == OLD {
      assert input[i] in Elements(input);
    }
    var i :| 0 <= i < |input| && input[i] == NEW;
    var j :| 0 <= j < |input| && input[j] == OLD;
    SortedPlace(input, i, 0); SortedPlace(input, j, 0);
    SortedPlace(input, i, 1); SortedPlace(input, j, 1);
    SortedPlace(input, i, |input| - 1); SortedPlace(input, j, |input| - 1);
  }

  /** A snapshot at 1 still needs the old value, so both entries survive. */
  lemma BothSurvive(input: seq<Entry>)
    requires input == [NEW, OLD]
    ensures Survivors(START, 0, input, 2, 1) == [NEW, OLD]
    ensures Kept(START, 0, input, 1) == [true, true]
  {
    assert !Dropped(START, 0, input, 0, 1) && !Dropped(START, 0, input, 1, 1);
    assert Survivors(START, 0, input, 1, 1) == [NEW];
  }

  lemma {:induction false} FlatTwo(files: seq<File>)
    requires Flat(files) == [NEW, OLD] && EndsAt(files, NEW) && EndsAt(files, OLD)
    ensures |files| == 2 && files[0].entries == [NEW] && files[1].entries == [OLD]
  {
    var n := |files| - 1;
    var init, last := files[..n], files[n];
    assert files == init + [last] && Flat(init) + last.entries == [NEW, OLD];
    FlatSize(init);
    NotAlone(last);
    assert |Flat(init)| == 0 ==> Flat(init) + last.entries == last.entries && init == [];
    assert |Flat(init)| == 1;
    SplitInTwo(Flat(init), last.entries);
    FlatOne(init);
  }

  lemma NotAlone(f: File)
    ensures f.entries == [NEW, OLD] ==> !EndsAt([f], NEW)
  {}

  lemma SplitInTwo(a: seq<Entry>, b: seq<Entry>)
    requires a + b == [NEW, OLD] && |a| == 1 && |b| == 1
    ensures a == [NEW] && b == [OLD]
  {
    assert (a + b)[0] == a[0] && (a + b)[1] == b[0];
  }

  lemma {:induction false} FlatSize(files: seq<File>)
    ensures |Flat(files)| >= |files|
  {
    if files != [] { FlatSize(files[..|files| - 1]); }
  }

  lemma {:induction false} FlatOne(files: seq<File>)
    requires Flat(files) == [NEW]
    ensures |files| == 1 && files[0].entries == [NEW]
  {
    FlatSize(files[..|files| - 1]);
  }

  /** Files of 2 MB are closed after each entry: the user key is split. */
  lemma SplitOutputs(outputs: seq<File>, input: seq<Entry>, stop: nat -> bool, fileSize: nat -> nat)
    requires input == [NEW, OLD] && Outputs(outputs, 5, [NEW, OLD])
    requires CutAsTold(outputs, input, [true, true], stop, fileSize) && forall i :: fileSize(i) == TARGET_FILE_SIZE
    ensures outputs == [NEW_FILE, OLD_FILE]
  {
    assert EndsAt(outputs, input[0]) && EndsAt(outputs, input[1]);
    FlatTwo(outputs);
    assert outputs[0] in outputs && outputs[1] in outputs;
  }

  lemma {:induction false} SameVersion(v: Version, w: Version)
    requires Listed(v) && Listed(w) && forall l, f :: 0 <= l < NUM_LEVELS ==> (f in v.levels[l] <==> f in w.levels[l])
    ensures v == w
  {
    forall l | 0 <= l < NUM_LEVELS ensures v.levels[l] == w.levels[l] {
      SameFilesSameList(v.levels[l], w.levels[l]);
    }
    assert v.levels == w.levels;
  }

  lemma SplitInv()
    ensures Inv(SPLIT)
  {
    TwoInOrder(1, NEW_FILE, OLD_FILE);
    AtIsSearchable(0, [], 1, [NEW_FILE, OLD_FILE]);
    AtIsRecent(0, [], 1, [NEW_FILE, OLD_FILE]);
  }

  lemma MovedIsSearchable()
    ensures Searchable(MOVED)
  {
    AtIsSearchable(1, [OLD_FILE], 2, [NEW_FILE]);
  }

  /** InstallCompactionResults: the inputs go, the outputs come one level down. */
  function Replacing(level: nat, inputs0: seq<File>, inputs1: seq<File>, outputs: seq<File>): VersionEdit {
    VersionEdit(NumbersAt(level, inputs0) + NumbersAt(level + 1, inputs1), Tagged(level + 1, outputs), None, None, None)
  }

  lemma SplitEdited(v: Version, inputs0: seq<File>, edit: VersionEdit)
    requires NEW_TABLE in inputs0 && OLD_TABLE in inputs0
    requires edit == Replacing(0, inputs0, [], [NEW_FILE, OLD_FILE]) && Edited(START, v, edit)
    ensures v == SPLIT
  {
    SplitInv();
    forall l, f | 0 <= l < NUM_LEVELS ensures f in v.levels[l] <==> f in SPLIT.levels[l] {
      assert (0, NEW_TABLE.number) in edit.deleted && (0, OLD_TABLE.number) in edit.deleted;
      assert (l, f) in edit.added <==> l == 1 && f in [NEW_FILE, OLD_FILE];
    }
    SameVersion(v, SPLIT);
  }

  method StartOutputs(input: seq<Entry>) returns (outputs: seq<File>)
    requires input == [NEW, OLD]
    ensures outputs == [NEW_FILE, OLD_FILE]
  {
    StartInv();
    var c := new Compaction(0, START);
    var stop, fileSize := (i: nat) => false, (i: nat) => TARGET_FILE_SIZE;
    var next;
    outputs, next := DoCompactionWork(c, input, 1, 5, stop, fileSize);
    BothSurvive(input);
    SplitOutputs(outputs, input, stop, fileSize);
  }

  lemma SplitEditFits(inputs0: seq<File>, edit: VersionEdit)
    requires edit == Replacing(0, inputs0, [], [NEW_FILE, OLD_FILE])
    ensures LevelsOk(edit) && SelfConsistent(edit)
    ensures forall i :: 0 <= i < |edit.added| ==> NumberFree(edit.added[i].1.number, START.levels[edit.added[i].0])
  {
    assert START.levels[1] == [];
  }

  /** With a snapshot between the two writes, the compaction of level 0 makes the split version. */
  method SplitByCompaction() returns (v: Version)
    ensures v == SPLIT
  {
    StartInv();
    var inputs0, inputs1 := PickCompaction(START, 0, None);
    StartInputs(inputs0, inputs1);
    var input := CompactionInput(START, 0, inputs0, inputs1);
    MergedTwo(input);
    var outputs := StartOutputs(input);
    var edit := Replacing(0, inputs0, inputs1, outputs);
    SplitEditFits(inputs0, edit);
    v := ApplyEdit(START, edit);
    SplitEdited(v, inputs0, edit);
  }

  lemma OnlyFile(inputs0: seq<File>, inputs1: seq<File>)
    requires Selected(SPLIT, 1, inputs0, inputs1)
    requires TakesNext(SPLIT, 1, None, inputs0, inputs1)
    ensures inputs0 == [NEW_FILE] && inputs1 == []
  {
    assert SPLIT.levels[2] == [];
    NoMembers(inputs1);
  }

  lemma SplitReads()
    ensures Read(Contents(MOVED), 1, 2) == Some("new") && LevelByLevel(MOVED, 1, 2, 0) == Some("old")
  {
    EntriesOfOne(NEW_FILE);
    EntriesOfOne(OLD_FILE);
    AtContents(1, [OLD_FILE], 2, [NEW_FILE]);
    assert NEW in NEW_FILE.entries && OLD in OLD_FILE.entries;
    assert Newest({OLD}, 1, 2, OLD);
    ReadIs({OLD}, 1, 2, OLD);
    assert FileEntries(MOVED.levels[0]) == {} && FileEntries(MOVED.levels[1]) == {OLD};
    assert LevelByLevel(MOVED, 1, 2, 0) == LevelByLevel(MOVED, 1, 2, 1);
    assert Contents(MOVED) == {OLD, NEW};
    assert Newest(Contents(MOVED), 1, 2, NEW);
    ReadIs(Contents(MOVED), 1, 2, NEW);
  }

  lemma MoveEdited(v: Version, edit: VersionEdit)
    requires edit == Replacing(1, [NEW_FILE], [], [NEW_FILE]) && Edited(SPLIT, v, edit)
    ensures v == MOVED
  {
    MovedIsSearchable();
    forall l, f | 0 <= l < NUM_LEVELS ensures f in v.levels[l] <==> f in MOVED.levels[l] {
      assert NEW_FILE in [NEW_FILE];
      assert (l, f.number) in edit.deleted <==> l == 1 && f.number == NEW_FILE.number;
      assert (l, f) in edit.added <==> l == 2 && f in [NEW_FILE];
    }
    SameVersion(v, MOVED);
  }

  lemma MoveEditApplies(edit: VersionEdit)
    requires edit == Replacing(1, [NEW_FILE], [], [NEW_FILE])
    ensures LevelsOk(edit) && SelfConsistent(edit)
    ensures forall i :: 0 <= i < |edit.added| ==> NumberFree(edit.added[i].1.number, SPLIT.levels[edit.added[i].0])
  {
    assert SPLIT.levels[2] == [];
  }

  /** From the split version, the selection takes the first file alone, finds the move trivial, and
      carries it out. A read then returns the overwritten value. */
  method SplitKeyGoesStale() returns (trivial: bool, v: Version, answer: Option<Value>)
    ensures trivial && v == MOVED && Contents(v) == Contents(SPLIT)
    ensures answer == Some("old") && Read(Contents(v), 1, 2) == Some("new")
  {
    SplitInv();
    var inputs0, inputs1 := PickCompaction(SPLIT, 1, None);
    OnlyFile(inputs0, inputs1);
    trivial := IsTrivialMove(SPLIT, 1, inputs0, inputs1);
    NoGrandparents(inputs0 + inputs1, trivial);
    var edit := Replacing(1, inputs0, inputs1, inputs0);
    MoveEditApplies(edit);
    v := ApplyEdit(SPLIT, edit);
    MoveEdited(v, edit);
    MovedIsSearchable();
    answer := Versions.Get(v, 1, 2);
    SplitReads();
    SameContents();
  }

  lemma NoGrandparents(inputs: seq<File>, trivial: bool)
    requires inputs == [NEW_FILE]
    requires exists gs :: Grandparents(SPLIT, 1, inputs, gs) && (trivial <==> MayMove([NEW_FILE], [], gs))
    ensures trivial
  {
    var gs :| Grandparents(SPLIT, 1, inputs, gs) && (trivial <==> MayMove([NEW_FILE], [], gs));
    assert SPLIT.levels[3] == [];
    NoMembers(gs);
  }

  lemma SameContents()
    ensures Contents(MOVED) == Contents(SPLIT)
  {
    AtContents(1, [OLD_FILE], 2, [NEW_FILE]);
    AtContents(0, [], 1, [NEW_FILE, OLD_FILE]);
    EntriesOfOne(NEW_FILE);
    EntriesOfOne(OLD_FILE);
    EntriesOfTwo(NEW_FILE, OLD_FILE);
  }

  // ---------- A tombstone dropped above the value it hides ----------

  /** Key 6 was written and then deleted; the deletion ends one file and the value starts the next. */
  const ABOVE: File := File(7, TARGET_FILE_SIZE, [Entry(5, 4, Put, "five")])
  const GONE: Entry := Entry(6, 3, Deletion, "")
  const BACK: Entry := Entry(6, 2, Put, "six")
  const TAKEN: File := File(8, TARGET_FILE_SIZE, [Entry(5, 1, Put, "four"), GONE])
  const STAYS: File := File(9, TARGET_FILE_SIZE, [BACK])
  const HIDING: Version := At(1, [ABOVE], 2, [TAKEN, STAYS])

  lemma HidingInv()
    ensures Inv(HIDING)
  {
    TwoInOrder(2, TAKEN, STAYS);
    AtIsSearchable(1, [ABOVE], 2, [TAKEN, STAYS]);
    EntriesOfOne(ABOVE);
    EntriesOfTwo(TAKEN, STAYS);
    AtIsRecent(1, [ABOVE], 2, [TAKEN, STAYS]);
  }

  lemma HidingInputs(inputs0: seq<File>, inputs1: seq<File>)
    requires Selected(HIDING, 1, inputs0, inputs1)
    ensures forall f :: f in inputs0 <==> f == ABOVE
    ensures forall f :: f in inputs1 <==> f == TAKEN
  {
    assert inputs0[0] in inputs0;
    assert HIDING.levels[1] == [ABOVE] && HIDING.levels[2] == [TAKEN, STAYS];
    assert InHull(TAKEN, inputs0);
    assert !InHull(STAYS, inputs0);
  }

  /** The compaction drops the tombstone as the last of its key and leaves the value. */
  lemma ValueWillReturn(inputs0: seq<File>, inputs1: seq<File>, input: seq<Entry>)
    requires Selected(HIDING, 1, inputs0, inputs1)
    requires Elements(input) == FileEntries(inputs0) + FileEntries(inputs1)
    ensures GONE in Elements(input) && Obsolete(HIDING, 1, GONE, 4) && Unshadowed(Contents(HIDING), GONE, 4)
    ensures !NoPutOnTop(Left(HIDING, 1, inputs0, inputs1), 6, 3)
  {
    HidingInputs(inputs0, inputs1);
    assert TAKEN in inputs1 && GONE in TAKEN.entries;
    AtContents(1, [ABOVE], 2, [TAKEN, STAYS]);
    EntriesOfOne(ABOVE);
    EntriesOfTwo(TAKEN, STAYS);
    assert STAYS in HIDING.levels[2] && STAYS !in inputs1 && BACK in STAYS.entries;
    assert BACK in Left(HIDING, 1, inputs0, inputs1);
    assert forall y :: y in Left(HIDING, 1, inputs0, inputs1) ==> y == BACK;
  }

  lemma HidingCompacted(v: Version, inputs0: seq<File>, inputs1: seq<File>, input: seq<Entry>, outputs: seq<File>)
    requires Compacted(HIDING, v, 1, inputs0, inputs1, input, 4, 10, outputs)
    ensures Inv(v) && Read(Contents(HIDING), 6, 4) == None && Read(Contents(v), 6, 4) == Some("six")
  {
    HidingInv();
    ValueWillReturn(inputs0, inputs1, input);
    HidingInputs(inputs0, inputs1);
    assert HIDING.levels[1] == [ABOVE];
    assert Unchosen(HIDING.levels[1], inputs0) == {};
    CompactionKeepsInv(HIDING, v, 1, inputs0, inputs1, input, 4, 10, outputs);
    InvSeqUnique(HIDING);
    NewContents(HIDING, v, 1, inputs0, inputs1, input, 4, 10, outputs);
    OutputEntries(HIDING, v, 1, inputs0, inputs1, input, 4, 10, outputs);
    InputIsOld(HIDING, 1, inputs0, inputs1, input, GONE);
    TombstoneMissed(HIDING, v, 1, inputs0, inputs1, input, 4, outputs, GONE);
    OnlySix(v);
  }

  lemma OnlySix(v: Version)
    requires Contents(v) <= Contents(HIDING) && Read(Contents(v), 6, 4).Some?
    ensures Read(Contents(v), 6, 4) == Some("six")
  {
    AtContents(1, [ABOVE], 2, [TAKEN, STAYS]);
    EntriesOfOne(ABOVE);
    EntriesOfTwo(TAKEN, STAYS);
    var e :| Newest(Contents(v), 6, 4, e) && Read(Contents(v), 6, 4) == Answer(e);
  }

  /** No snapshot is live, the compaction takes the file with the tombstone and not its neighbour, and
      the deleted key can be read again. Where the outputs are cut makes no difference. */
  method DeletedKeyReturns(stop: nat -> bool, fileSize: nat -> nat)
    returns (before: Option<Value>, after: Option<Value>)
    ensures before == None && after == Some("six")
  {
    HidingInv();
    before := Versions.Get(HIDING, 6, 4);
    var inputs0, inputs1 := PickCompaction(HIDING, 1, None);
    var input := CompactionInput(HIDING, 1, inputs0, inputs1);
    var v := CompactHiding(inputs0, inputs1, input, stop, fileSize);
    HidingReads(v);
    after := Versions.Get(v, 6, 4);
  }

  /** What the compaction leaves: the deleted key reads as a value. */
  ghost predicate Returned(v: Version) {
    Inv(v) && Read(Contents(HIDING), 6, 4) == None && Read(Contents(v), 6, 4) == Some("six")
  }

  lemma HidingReads(v: Version)
    requires Returned(v)
    ensures Searchable(v) && Recency(v) && Recency(HIDING)
  {
    HidingInv();
  }

  method CompactHiding(inputs0: seq<File>, inputs1: seq<File>, input: seq<Entry>, stop: nat -> bool,
                       fileSize: nat -> nat) returns (v: Version)
    requires Selected(HIDING, 1, inputs0, inputs1)
    requires Sorted(input) && Elements(input) == FileEntries(inputs0) + FileEntries(inputs1)
    ensures Returned(v)
  {
    HidingInv();
    HidingNumbers(inputs0, inputs1);
    var db := Db([], None, [], HIDING, 0, 0, 10, 4, [], Disk([], []));
    var outputs, next := CompactEntries(db, 1, input, stop, fileSize);
    v := BuildCompacted(db, 1, inputs0, inputs1, outputs, 10, next);
    CompactEditReplaces(db, v, 1, inputs0, inputs1, outputs, next);
    HidingCompacted(v, inputs0, inputs1, input, outputs);
  }

  lemma HidingNumbers(inputs0: seq<File>, inputs1: seq<File>)
    requires Selected(HIDING, 1, inputs0, inputs1)
    ensures NumbersBelow(HIDING, 10) && Present(HIDING, 1, inputs0, inputs1)
    ensures forall f :: f in inputs1 ==> f.number < 10
  {}

  // ---------- A table flushed into the gap of a manual compaction ----------

  /** Two tables with a gap between them, and a write that comes while they are compacted by key range. */
  const LOW: Entry := Entry(1, 1, Put, "low")
  const HIGH: Entry := Entry(9, 2, Put, "high")
  const AMID: Entry := Entry(5, 3, Put, "amid")
  const LOW_FILE: File := File(3, 1, [LOW])
  const HIGH_FILE: File := File(4, 1, [HIGH])
  const BOTH: File := File(5, 1, [LOW, HIGH])
  const AMID_FILE: File := File(6, 1, [AMID])
  const GAP: Version := At(1, [LOW_FILE, HIGH_FILE], 2, [])
  const FILLED: Version := At(1, [LOW_FILE, HIGH_FILE], 2, [AMID_FILE])
  const CROSSED: Version := At(1, [], 2, [BOTH, AMID_FILE])

  lemma GapInv()
    ensures Inv(GAP)
  {
    TwoInOrder(1, LOW_FILE, HIGH_FILE);
    AtIsSearchable(1, [LOW_FILE, HIGH_FILE], 2, []);
    AtIsRecent(1, [LOW_FILE, HIGH_FILE], 2, []);
  }

  lemma FilledIsSearchable()
    ensures Searchable(FILLED)
  {
    TwoInOrder(1, LOW_FILE, HIGH_FILE);
    AtIsSearchable(1, [LOW_FILE, HIGH_FILE], 2, [AMID_FILE]);
  }

  /** All of the level is in the range and is not too much, so both files are taken, and nothing below. */
  lemma RangeTakesBoth(inputs0: seq<File>, inputs1: seq<File>)
    requires Selected(GAP, 1, inputs0, inputs1) && TakesRange(GAP, 1, None, None, inputs0, inputs1)
    ensures inputs0 == [LOW_FILE, HIGH_FILE] && inputs1 == []
    ensures FileEntries(inputs0) + FileEntries(inputs1) == {LOW, HIGH}
  {
    assert GAP.levels[1] == [LOW_FILE, HIGH_FILE] && GAP.levels[2] == [];
    NoMembers(inputs1);
    var all, n: nat :| IsRange(GAP.levels[1], None, None, all) && ShortestEnough(all, n) && inputs0 == all[..n];
    GapInv();
    SameFilesSameList(all, GAP.levels[1]);
    SmallFiles(all[..n]);
    assert all[..2] == all;
    EntriesOfTwo(LOW_FILE, HIGH_FILE);
  }

  lemma {:induction false} SmallFiles(files: seq<File>)
    requires forall f :: f in files ==> f.size == 1
    ensures TotalFileSize(files) == |files|
  {
    if files != [] { SmallFiles(files[1..]); }
  }

  lemma MergedGap(input: seq<Entry>)
    requires Sorted(input) && Elements(input) == {LOW, HIGH}
    ensures input == [LOW, HIGH]
  {
    assert LOW in input && HIGH in input;
    forall i | 0 <= i < |input| ensures input[i] == LOW || input[i] == HIGH {
      assert input[i] in Elements(input);
    }
    var i :| 0 <= i < |input| && input[i] == LOW;
    var j :| 0 <= j < |input| && input[j] == HIGH;
    SortedPlace(input, i, 0); SortedPlace(input, j, 0);
    SortedPlace(input, i, 1); SortedPlace(input, j, 1);
    SortedPlace(input, i, |input| - 1); SortedPlace(input, j, |input| - 1);
  }

  lemma GapSurvives(input: seq<Entry>)
    requires input == [LOW, HIGH]
    ensures Survivors(GAP, 1, input, 2, 2) == [LOW, HIGH]
    ensures Kept(GAP, 1, input, 2) == [true, true]
  {
    assert !Dropped(GAP, 1, input, 0, 2) && !Dropped(GAP, 1, input, 1, 2);
    assert Survivors(GAP, 1, input, 1, 2) == [LOW];
  }

  /** Small files are not cut: one output spans the gap. */
  lemma GapOutput(outputs: seq<File>, input: seq<Entry>, stop: nat -> bool, fileSize: nat -> nat)
    requires input == [LOW, HIGH] && Outputs(outputs, 5, [LOW, HIGH])
    requires CutAsTold(outputs, input, [true, true], stop, fileSize)
    requires (forall i: nat :: fileSize(i) == 1) && forall i: nat :: !stop(i)
    ensures outputs == [BOTH]
  {
    NotCut([true, true], stop, fileSize);
    assert !EndsAt(outputs, input[0]);
    FlatUncut(outputs);
    assert outputs[0] in outputs;
  }

  lemma NotCut(kept: seq<bool>, stop: nat -> bool, fileSize: nat -> nat)
    requires kept == [true, true] && fileSize(0) == 1 && forall i: nat :: !stop(i)
    ensures !CutBy(kept, 0, 2, stop, fileSize) && !NoneBetween(kept, 0, 2)
  {
    assert kept[1];
  }

  lemma {:induction false} FlatUncut(files: seq<File>)
    requires Flat(files) == [LOW, HIGH] && !EndsAt(files, LOW)
    ensures |files| == 1 && files[0].entries == [LOW, HIGH]
  {
    var n := |files| - 1;
    var init, last := files[..n], files[n];
    assert files == init + [last] && Flat(init) + last.entries == [LOW, HIGH];
    FlatSize(init);
    assert |Flat(init)| <= 1;
    if |Flat(init)| == 1 {
      assert Flat(init)[0] == (Flat(init) + last.entries)[0];
      LastOf(init, LOW);
      EndsToo(init, last, LOW);
    }
  }

  lemma EndsToo(files: seq<File>, last: File, e: Entry)
    requires EndsAt(files, e)
    ensures EndsAt(files + [last], e)
  {}

  lemma {:induction false} LastOf(files: seq<File>, e: Entry)
    requires Flat(files) == [e]
    ensures EndsAt(files, e)
  {
    var n := |files| - 1;
    FlatSize(files[..n]);
    assert |Flat(files[..n])| + |files[n].entries| == 1;
    assert files[n].entries == [e] && files[n] in files;
  }

  /** Nothing is in the way of the new table down to level 2. */
  lemma FlushGoesDown(level: nat)
    requires level < MAX_MEM_COMPACT_LEVEL
    ensures !StopsAt(GAP, level, 5, 5)
  {
    assert forall l, f :: 0 <= l < NUM_LEVELS && f in GAP.levels[l] ==> f == LOW_FILE || f == HIGH_FILE;
    assert !Touches(LOW_FILE, Some(5), Some(5)) && !Touches(HIGH_FILE, Some(5), Some(5));
    forall overlaps: seq<File> | forall f :: f in overlaps <==>
      f in GAP.levels[level + 2] && Touches(f, Some(5), Some(5))
      ensures TotalFileSize(overlaps) == 0
    {
      NoMembers(overlaps);
    }
  }

  /** The binary search, misled by files that overlap, ends at the one that does not hold the key. */
  lemma SearchMisses()
    ensures InOneFile([BOTH, AMID_FILE], 5, 3) == None
  {
    var files, key := [BOTH, AMID_FILE], LookupKey(5, 3);
    assert !Less(files[1].Largest(), key) && !Less(files[0].Largest(), key);
    assert SearchBetween(files, key, 0, 2) == SearchBetween(files, key, 0, 1) == SearchBetween(files, key, 0, 0) == 0;
    assert SeekIndex([LOW, HIGH], key) == 1 + SeekIndex([LOW, HIGH][1..], key);
    assert SeekIndex([LOW, HIGH][1..], key) == 0;
  }

  method CompactGap(input: seq<Entry>) returns (outputs: seq<File>)
    requires input == [LOW, HIGH]
    ensures outputs == [BOTH]
  {
    GapInv();
    var c := new Compaction(1, GAP);
    var stop, fileSize := (i: nat) => false, (i: nat) => 1;
    var next;
    outputs, next := DoCompactionWork(c, input, 2, 5, stop, fileSize);
    GapSurvives(input);
    GapOutput(outputs, input, stop, fileSize);
  }

  lemma FilledEdited(v: Version, edit: VersionEdit)
    requires edit == VersionEdit({}, [(2, AMID_FILE)], None, None, None) && Edited(GAP, v, edit)
    ensures v == FILLED
  {
    FilledIsSearchable();
    forall l, f | 0 <= l < NUM_LEVELS ensures f in v.levels[l] <==> f in FILLED.levels[l] {
      assert (l, f) in edit.added <==> l == 2 && f == AMID_FILE;
      assert FILLED.levels[2] == [AMID_FILE] && GAP.levels[2] == [];
    }
    SameVersion(v, FILLED);
  }

  lemma CrossingEditFits(inputs0: seq<File>, edit: VersionEdit)
    requires edit == Replacing(1, inputs0, [], [BOTH])
    ensures LevelsOk(edit) && SelfConsistent(edit)
    ensures forall i :: 0 <= i < |edit.added| ==> NumberFree(edit.added[i].1.number, FILLED.levels[edit.added[i].0])
  {
    assert FILLED.levels[2] == [AMID_FILE];
  }

  lemma CrossedEdited(v: Version, inputs0: seq<File>, edit: VersionEdit)
    requires LOW_FILE in inputs0 && HIGH_FILE in inputs0
    requires edit == Replacing(1, inputs0, [], [BOTH]) && Edited(FILLED, v, edit)
    ensures v == CROSSED
  {
    assert BySmallest(BOTH, AMID_FILE);
    forall l | 0 <= l < NUM_LEVELS ensures SortedFiles(CROSSED.levels[l]) {}
    forall l, f | 0 <= l < NUM_LEVELS ensures f in v.levels[l] <==> f in CROSSED.levels[l] {
      assert (1, LOW_FILE.number) in edit.deleted && (1, HIGH_FILE.number) in edit.deleted;
      assert (l, f) in edit.added <==> l == 2 && f in [BOTH];
      assert FILLED.levels[1] == [LOW_FILE, HIGH_FILE] && FILLED.levels[2] == [AMID_FILE];
      assert CROSSED.levels[1] == [] && CROSSED.levels[2] == [BOTH, AMID_FILE];
    }
    SameVersion(v, CROSSED);
  }

  lemma CrossedReads()
    ensures Read(Contents(CROSSED), 5, 3) == Some("amid")
    ensures forall l :: 0 <= l < NUM_LEVELS && l != 2 ==> CROSSED.levels[l] == []
  {
    AtContents(1, [], 2, [BOTH, AMID_FILE]);
    EntriesOfTwo(BOTH, AMID_FILE);
    assert AMID in AMID_FILE.entries && LOW in BOTH.entries && HIGH in BOTH.entries;
    assert Contents(CROSSED) == {LOW, HIGH, AMID};
    AmidIsRead({LOW, HIGH, AMID});
  }

  lemma AmidIsRead(db: set<Entry>)
    requires db == {LOW, HIGH, AMID}
    ensures Read(db, 5, 3) == Some("amid")
  {
    assert Newest(db, 5, 3, AMID);
    ReadIs(db, 5, 3, AMID);
  }

  /** A manual compaction takes two files with a gap between them. While it runs, a memtable with a key in the
      gap is flushed, and nothing stops it from going to the level the outputs go to. Then the outputs are
      installed, the level's files overlap, and the search of that level, the only one with files, misses the
      key that was written. */
  method GapLosesWrite() returns (level: nat, v: Version, found: Option<Entry>)
    ensures level == 2 && v == CROSSED && found == None && Read(Contents(v), 5, 3) == Some("amid")
    ensures forall l :: 0 <= l < NUM_LEVELS && l != 2 ==> v.levels[l] == []
  {
    GapInv();
    var inputs0, outputs := StartGap();
    level, v := FlushIntoGap();
    v := EndGap(v, inputs0, outputs);
    found := SearchSortedLevel(v.levels[2], 5, 3);
    SearchMisses();
    CrossedReads();
  }

  /** The manual compaction of the whole of level 1 takes both files and makes one of them. */
  method StartGap() returns (inputs0: seq<File>, outputs: seq<File>)
    ensures LOW_FILE in inputs0 && HIGH_FILE in inputs0 && outputs == [BOTH]
  {
    GapInv();
    var inputs1;
    inputs0, inputs1 := CompactRange(GAP, 1, None, None);
    assert GAP.levels[1] == [LOW_FILE, HIGH_FILE] && LOW_FILE in GAP.levels[1] && Touches(LOW_FILE, None, None);
    RangeTakesBoth(inputs0, inputs1);
    var input := CompactionInput(GAP, 1, inputs0, inputs1);
    MergedGap(input);
    outputs := CompactGap(input);
  }

  method FlushIntoGap() returns (level: nat, v: Version)
    ensures level == 2 && v == FILLED
  {
    GapInv();
    level := PickLevelForMemTableOutput(GAP, 5, 5);
    if level < MAX_MEM_COMPACT_LEVEL { FlushGoesDown(level); }
    var edit := VersionEdit({}, [(level, AMID_FILE)], None, None, None);
    v := ApplyEdit(GAP, edit);
    FilledEdited(v, edit);
  }

  method EndGap(w: Version, inputs0: seq<File>, outputs: seq<File>) returns (v: Version)
    requires w == FILLED && LOW_FILE in inputs0 && HIGH_FILE in inputs0 && outputs == [BOTH]
    ensures v == CROSSED
  {
    FilledIsSearchable();
    var edit := Replacing(1, inputs0, [], outputs);
    CrossingEditFits(inputs0, edit);
    v := ApplyEdit(w, edit);
    CrossedEdited(v, inputs0, edit);
  }
}
