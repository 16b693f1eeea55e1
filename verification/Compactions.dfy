/** The compaction loop: which entries it drops, how it cuts outputs, and why no reader notices. */
module Compactions {
  import opened DbFormat
  import opened Versions
  import opened Overlaps
  import opened Steps

  /** No file two or more levels down has `k` in its user key range. */
  predicate BaseLevel(v: Version, level: nat, k: UserKey) {
    forall lvl, f :: level + 2 <= lvl < |v.levels| && f in v.levels[lvl] ==> !(Start(f) <= k <= Limit(f))
  }

  class Compaction {
    const level: nat
    const inputVersion: Version
    /** Per level, how many files the keys seen so far have already passed. */
    var levelPtrs: seq<nat>

    constructor (level: nat, v: Version)
      requires |v.levels| == NUM_LEVELS
      ensures this.level == level && inputVersion == v
      ensures forall k :: Behind(k)
    {
      this.level, inputVersion := level, v;
      levelPtrs := [0, 0, 0, 0, 0, 0, 0];
    }

    /** The pointers have skipped only files that end before `k`. */
    ghost predicate Behind(k: UserKey)
      reads this
    {
      && |levelPtrs| == |inputVersion.levels| == NUM_LEVELS
      && forall lvl :: 0 <= lvl < NUM_LEVELS ==>
        && levelPtrs[lvl] <= |inputVersion.levels[lvl]|
        && forall i :: 0 <= i < levelPtrs[lvl] ==> Limit(inputVersion.levels[lvl][i]) < k
    }

    lemma BehindMonotone(k: UserKey, k': UserKey)
      requires Behind(k) && k <= k'
      ensures Behind(k')
    {}

    /** Advance one level's pointer up to `k`; is `k` inside the file it stops at? */
    method AdvanceLevel(lvl: nat, k: UserKey) returns (inside: bool)
      requires Behind(k) && lvl < NUM_LEVELS && SortedFiles(inputVersion.levels[lvl])
      modifies this
      ensures Behind(k)
      ensures inside <==> exists f :: f in inputVersion.levels[lvl] && Start(f) <= k <= Limit(f)
    {
      var files := inputVersion.levels[lvl];
      while levelPtrs[lvl] < |files|
        invariant Behind(k)
        decreases |files| - levelPtrs[lvl]
      {
        var p := levelPtrs[lvl];
        if k <= Limit(files[p]) {
          LaterFilesStartLater(files, p);
          return k >= Start(files[p]);
        }
        levelPtrs := levelPtrs[lvl := p + 1];
      }
      inside := false;
    }

    /** On non-decreasing keys the moving pointers give the answer of a full scan. */
    method IsBaseLevelForKey(k: UserKey) returns (b: bool)
      requires Listed(inputVersion) && Behind(k)
      modifies this
      ensures Behind(k)
      ensures b <==> BaseLevel(inputVersion, level, k)
    {
      var lvl := level + 2;
      while lvl < NUM_LEVELS
        invariant Behind(k)
        invariant forall l, f :: level + 2 <= l < lvl && l < NUM_LEVELS && f in inputVersion.levels[l]
                    ==> !(Start(f) <= k <= Limit(f))
      {
        var inside := AdvanceLevel(lvl, k);
        if inside {
          return false;
        }
        lvl := lvl + 1;
      }
      b := true;
    }
  }

  lemma LaterFilesStartLater(files: seq<File>, p: nat)
    requires SortedFiles(files) && p < |files|
    ensures forall i :: p < i < |files| ==> Start(files[p]) <= Start(files[i])
  {
    forall i | p < i < |files| ensures Start(files[p]) <= Start(files[i]) {
      assert BySmallest(files[p], files[i]);
    }
  }

  // ---------- Which entries survive ----------

  /** last_sequence_for_key: that of the entry before, or the greatest number for a new user key. */
  function LastSequence(input: seq<Entry>, i: nat): SequenceNumber
    requires i < |input|
  {
    if i > 0 && input[i - 1].user == input[i].user then input[i - 1].sn else MAX_SEQUENCE
  }

  /** Rule (A): the previous entry of this user key is already old enough for every snapshot. */
  predicate Hidden(input: seq<Entry>, i: nat, snapshot: SequenceNumber)
    requires i < |input|
  {
    LastSequence(input, i) <= snapshot
  }

  /** Rule (B): a tombstone every snapshot can see, with nothing below it to hide. */
  predicate Obsolete(v: Version, level: nat, e: Entry, snapshot: SequenceNumber) {
    e.kind.Deletion? && e.sn <= snapshot && BaseLevel(v, level, e.user)
  }

  predicate Dropped(v: Version, level: nat, input: seq<Entry>, i: nat, snapshot: SequenceNumber)
    requires i < |input|
  {
    Hidden(input, i, snapshot) || Obsolete(v, level, input[i], snapshot)
  }

  function Survivors(v: Version, level: nat, input: seq<Entry>, n: nat, snapshot: SequenceNumber): seq<Entry>
    requires n <= |input|
  {
    if n == 0 then []
    else Survivors(v, level, input, n - 1, snapshot) +
         (if Dropped(v, level, input, n - 1, snapshot) then [] else [input[n - 1]])
  }

  lemma {:induction false} SurvivorsAre(v: Version, level: nat, input: seq<Entry>, n: nat, snapshot: SequenceNumber)
    requires n <= |input|
    ensures forall e :: e in Survivors(v, level, input, n, snapshot) <==>
      exists i :: 0 <= i < n && input[i] == e && !Dropped(v, level, input, i, snapshot)
  {
    if n > 0 { SurvivorsAre(v, level, input, n - 1, snapshot); }
  }

  lemma {:induction false} SurvivorsSorted(v: Version, level: nat, input: seq<Entry>, n: nat, snapshot: SequenceNumber)
    requires n <= |input| && Sorted(input)
    ensures Sorted(Survivors(v, level, input, n, snapshot))
  {
    if n > 0 {
      SurvivorsSorted(v, level, input, n - 1, snapshot);
      SurvivorsAre(v, level, input, n - 1, snapshot);
      var s := Survivors(v, level, input, n - 1, snapshot);
      forall i | 0 <= i < |s| ensures Ordered(s[i], input[n - 1]) {
        assert s[i] in s;
      }
    }
  }

  // ---------- The loop ----------

  function Flat(files: seq<File>): seq<Entry> {
    if files == [] then [] else Flat(files[..|files| - 1]) + files[|files| - 1].entries
  }

  lemma FlatSnoc(files: seq<File>, f: File)
    ensures Flat(files + [f]) == Flat(files) + f.entries
  {
    assert (files + [f])[..|files|] == files;
  }

  /** Outputs of one compaction, numbered from `first`, whose entries are `es` in order. */
  ghost predicate Outputs(files: seq<File>, first: nat, es: seq<Entry>) {
    Flat(files) == es && forall i :: 0 <= i < |files| ==> files[i].number == first + i
  }

  /** CompactionState: the finished outputs and the entries of the output being built. */
  datatype State = State(outputs: seq<File>, builder: seq<Entry>) {
    ghost function All(): seq<Entry> { Flat(outputs) + builder }
    ghost predicate Numbered(first: nat) { forall i :: 0 <= i < |outputs| ==> outputs[i].number == first + i }
  }

  /** FinishCompactionOutputFile: the entries collected so far become one more table. */
  function FinishOutput(st: State, first: nat, size: nat): (st': State)
    requires Sorted(st.All()) && st.Numbered(first)
    ensures st'.All() == st.All() && st'.Numbered(first) && st'.builder == []
  {
    if st.builder == [] then st
    else
      SortedTail(Flat(st.outputs), st.builder);
      var f := File(first + |st.outputs|, size, st.builder);
      FlatSnoc(st.outputs, f);
      State(st.outputs + [f], [])
  }

  /** Add one surviving entry, and close the output when it is big enough. */
  function AddEntry(st: State, first: nat, e: Entry, size: nat): (st': State)
    requires Sorted(st.All() + [e]) && st.Numbered(first)
    ensures st'.All() == st.All() + [e] && st'.Numbered(first)
  {
    var grown := State(st.outputs, st.builder + [e]);
    assert grown.All() == st.All() + [e];
    if size >= TARGET_FILE_SIZE then FinishOutput(grown, first, size) else grown
  }

  // ---------- Where the outputs are cut ----------

  ghost predicate EndsAt(files: seq<File>, e: Entry) { exists f :: f in files && f.Last() == e }

  ghost function Kept(v: Version, level: nat, input: seq<Entry>, snapshot: SequenceNumber): (kept: seq<bool>)
    ensures |kept| == |input|
  {
    seq(|input|, i requires 0 <= i < |input| => !Dropped(v, level, input, i, snapshot))
  }

  /** No entry between `i` and `j` is kept. */
  ghost predicate NoneBetween(kept: seq<bool>, i: nat, j: nat) { forall m :: i < m < j && m < |kept| ==> !kept[m] }

  /** By the time the loop has handled `n` entries, the output that got entry `i` was closed after it: it
      was big enough, or the next entry was one to stop before. */
  ghost predicate CutBy(kept: seq<bool>, i: nat, n: nat, stop: nat -> bool, fileSize: nat -> nat) {
    fileSize(i) >= TARGET_FILE_SIZE || exists j :: i < j < n && stop(j) && NoneBetween(kept, i, j)
  }

  /** Outputs end exactly at the kept entries they were closed after, and after the last of all. */
  ghost predicate CutAsTold(files: seq<File>, input: seq<Entry>, kept: seq<bool>, stop: nat -> bool,
                            fileSize: nat -> nat) {
    && |kept| == |input|
    && (forall i :: 0 <= i < |input| && kept[i] ==>
          (EndsAt(files, input[i]) <==> CutBy(kept, i, |input|, stop, fileSize) || NoneBetween(kept, i, |input|)))
    && SizesFrom(files, fileSize)
  }

  ghost predicate SizesFrom(files: seq<File>, fileSize: nat -> nat) {
    forall f :: f in files ==> exists j: nat :: f.size == fileSize(j)
  }

  ghost predicate OpenAt(builder: seq<Entry>, input: seq<Entry>, kept: seq<bool>, n: nat, last: nat)
    requires |kept| == |input|
  {
    last < n <= |input| && kept[last] && NoneBetween(kept, last, n) && builder != []
    && builder[|builder| - 1] == input[last]
  }

  /** The state after `n` entries: which outputs have ended, and where the open one stands. */
  ghost predicate CutUpTo(st: State, input: seq<Entry>, kept: seq<bool>, n: nat, stop: nat -> bool,
                          fileSize: nat -> nat) {
    && n <= |input| == |kept|
    && (forall i :: 0 <= i < n && kept[i] ==> (EndsAt(st.outputs, input[i]) <==> CutBy(kept, i, n, stop, fileSize)))
    && (st.builder != [] ==> exists last: nat :: OpenAt(st.builder, input, kept, n, last))
    && (st.builder == [] ==> forall i :: 0 <= i < n && kept[i] && NoneBetween(kept, i, n) ==>
      EndsAt(st.outputs, input[i]))
    && SizesFrom(st.outputs, fileSize)
  }

  lemma EndsAfter(files: seq<File>, f: File, e: Entry)
    ensures EndsAt(files + [f], e) <==> EndsAt(files, e) || f.Last() == e
  {
    assert f in files + [f];
  }

  /** Closing the open output ends it at the last kept entry. */
  lemma FinishEnds(st: State, first: nat, size: nat, input: seq<Entry>, kept: seq<bool>, n: nat, i: nat)
    requires Sorted(st.All()) && st.Numbered(first) && Sorted(input) && |kept| == |input| && i < n <= |input| && kept[i]
    requires st.builder != [] ==> exists last: nat :: OpenAt(st.builder, input, kept, n, last)
    requires st.builder == [] && NoneBetween(kept, i, n) ==> EndsAt(st.outputs, input[i])
    ensures EndsAt(FinishOutput(st, first, size).outputs, input[i]) <==>
      EndsAt(st.outputs, input[i]) || NoneBetween(kept, i, n)
  {
    if st.builder != [] {
      var last: nat :| OpenAt(st.builder, input, kept, n, last);
      SortedTail(Flat(st.outputs), st.builder);
      var f := File(first + |st.outputs|, size, st.builder);
      EndsAfter(st.outputs, f, input[i]);
      assert f.Last() == input[last];
      if i < last { assert !NoneBetween(kept, i, n); }
    }
  }

  lemma FinishSizes(st: State, first: nat, size: nat, fileSize: nat -> nat, j: nat)
    requires Sorted(st.All()) && st.Numbered(first) && SizesFrom(st.outputs, fileSize) && size == fileSize(j)
    ensures SizesFrom(FinishOutput(st, first, size).outputs, fileSize)
  {}

  lemma CutByNext(kept: seq<bool>, i: nat, n: nat, n': nat, stop: nat -> bool, fileSize: nat -> nat)
    requires i < n && n' == n + 1
    ensures CutBy(kept, i, n', stop, fileSize) <==>
      CutBy(kept, i, n, stop, fileSize) || (stop(n) && NoneBetween(kept, i, n))
  {}

  /** Stopping before entry n. */
  ghost predicate CutBefore(st: State, input: seq<Entry>, kept: seq<bool>, n: nat, n': nat, stop: nat -> bool,
                            fileSize: nat -> nat) {
    && n < n' <= |input| == |kept|
    && (forall i :: 0 <= i < n && kept[i] ==> (EndsAt(st.outputs, input[i]) <==> CutBy(kept, i, n', stop, fileSize)))
    && (st.builder != [] ==> exists last: nat :: OpenAt(st.builder, input, kept, n, last))
    && (st.builder == [] ==> forall i :: 0 <= i < n && kept[i] && NoneBetween(kept, i, n) ==>
      EndsAt(st.outputs, input[i]))
    && SizesFrom(st.outputs, fileSize)
  }

  lemma StopStep(st: State, first: nat, input: seq<Entry>, kept: seq<bool>, n: nat, n': nat, stop: nat -> bool,
                 fileSize: nat -> nat, st': State)
    requires Sorted(st.All()) && st.Numbered(first) && Sorted(input) && n' == n + 1 <= |input|
    requires CutUpTo(st, input, kept, n, stop, fileSize)
    requires st' == if stop(n) then FinishOutput(st, first, fileSize(n)) else st
    ensures CutBefore(st', input, kept, n, n', stop, fileSize)
  {
    forall i | 0 <= i < n && kept[i] ensures EndsAt(st'.outputs, input[i]) <==> CutBy(kept, i, n', stop, fileSize) {
      CutByNext(kept, i, n, n', stop, fileSize);
      FinishEnds(st, first, fileSize(n), input, kept, n, i);
    }
    forall i | 0 <= i < n && kept[i] && NoneBetween(kept, i, n) && st'.builder == []
      ensures EndsAt(st'.outputs, input[i]) {
      FinishEnds(st, first, fileSize(n), input, kept, n, i);
    }
    FinishSizes(st, first, fileSize(n), fileSize, n);
  }

  lemma DropStep(st: State, input: seq<Entry>, kept: seq<bool>, n: nat, n': nat, stop: nat -> bool,
                 fileSize: nat -> nat)
    requires n' == n + 1 && CutBefore(st, input, kept, n, n', stop, fileSize) && !kept[n]
    ensures CutUpTo(st, input, kept, n', stop, fileSize)
  {
    if st.builder != [] {
      var last: nat :| OpenAt(st.builder, input, kept, n, last);
      assert OpenAt(st.builder, input, kept, n', last);
    }
    forall i | 0 <= i < n' && kept[i] && NoneBetween(kept, i, n') && st.builder == []
      ensures EndsAt(st.outputs, input[i]) {
      assert NoneBetween(kept, i, n);
    }
  }

  lemma {:induction false} EndsInside(files: seq<File>, e: Entry)
    requires EndsAt(files, e)
    ensures e in Flat(files)
  {
    var n := |files| - 1;
    if files[n].Last() != e { EndsInside(files[..n], e); }
  }

  lemma AddStep(st: State, first: nat, input: seq<Entry>, kept: seq<bool>, n: nat, n': nat, stop: nat -> bool,
                fileSize: nat -> nat)
    requires n' == n + 1 && CutBefore(st, input, kept, n, n', stop, fileSize) && kept[n]
    requires Sorted(st.All() + [input[n]]) && st.Numbered(first) && Sorted(input)
    ensures CutUpTo(AddEntry(st, first, input[n], fileSize(n)), input, kept, n', stop, fileSize)
  {
    var grown := State(st.outputs, st.builder + [input[n]]);
    assert grown.All() == st.All() + [input[n]];
    assert OpenAt(grown.builder, input, kept, n', n);
    NotEndedYet(st, input[n]);
    forall i | 0 <= i < n && kept[i] ensures !NoneBetween(kept, i, n') { assert i < n < n'; }
    if fileSize(n) >= TARGET_FILE_SIZE {
      forall i | 0 <= i < n' && kept[i]
        ensures EndsAt(FinishOutput(grown, first, fileSize(n)).outputs, input[i]) <==>
          EndsAt(st.outputs, input[i]) || i == n
      {
        FinishEnds(grown, first, fileSize(n), input, kept, n', i);
      }
      FinishSizes(grown, first, fileSize(n), fileSize, n);
    }
  }

  lemma NotEndedYet(st: State, e: Entry)
    requires Sorted(st.All() + [e])
    ensures !EndsAt(st.outputs, e)
  {
    var es := st.All() + [e];
    forall i | 0 <= i < |Flat(st.outputs)| ensures Flat(st.outputs)[i] != e {
      assert es[i] == Flat(st.outputs)[i] && Ordered(es[i], es[|es| - 1]);
    }
    if EndsAt(st.outputs, e) { EndsInside(st.outputs, e); }
  }

  lemma LastStep(st: State, first: nat, input: seq<Entry>, kept: seq<bool>, n: nat, stop: nat -> bool,
                 fileSize: nat -> nat)
    requires Sorted(st.All()) && st.Numbered(first) && Sorted(input) && n == |input|
    requires CutUpTo(st, input, kept, n, stop, fileSize)
    ensures CutAsTold(FinishOutput(st, first, fileSize(n)).outputs, input, kept, stop, fileSize)
  {
    forall i | 0 <= i < n && kept[i]
      ensures EndsAt(FinishOutput(st, first, fileSize(n)).outputs, input[i]) <==>
        CutBy(kept, i, n, stop, fileSize) || NoneBetween(kept, i, n)
    {
      FinishEnds(st, first, fileSize(n), input, kept, n, i);
    }
    FinishSizes(st, first, fileSize(n), fileSize, n);
  }

  lemma SortedTail(a: seq<Entry>, b: seq<Entry>)
    requires Sorted(a + b)
    ensures Sorted(b)
  {
    assert forall i :: 0 <= i < |b| ==> (a + b)[|a| + i] == b[i];
  }

  /** One decision of the loop, from the state it carries about the previous entry. */
  method ShouldDrop(c: Compaction, ghost input: seq<Entry>, ghost i: nat, e: Entry, snapshot: SequenceNumber,
                    currentUserKey: Option<UserKey>, lastSequenceForKey: SequenceNumber) returns (drop: bool)
    requires Listed(c.inputVersion) && i < |input| && input[i] == e && c.Behind(e.user)
    requires Previous(input, i, currentUserKey, lastSequenceForKey)
    modifies c
    ensures c.Behind(e.user)
    ensures drop == Dropped(c.inputVersion, c.level, input, i, snapshot)
  {
    var last := lastSequenceForKey;
    if currentUserKey != Some(e.user) {
      last := MAX_SEQUENCE;
    }
    if last <= snapshot {
      drop := true;
    } else if e.kind.Deletion? && e.sn <= snapshot {
      drop := c.IsBaseLevelForKey(e.user);
    } else {
      drop := false;
    }
  }

  /** An entry stays unless a newer one of its user key is old enough for every live snapshot, or it is a tombstone
      that old and no table two or more levels down has its user key in range. */
  ghost predicate Stays(v: Version, level: nat, all: set<Entry>, e: Entry, snapshot: SequenceNumber) {
    && !(exists b :: b in all && b.user == e.user && e.sn < b.sn <= snapshot)
    && (e.kind.Deletion? && e.sn <= snapshot ==>
          exists lvl, f :: level + 2 <= lvl < |v.levels| && f in v.levels[lvl] && Start(f) <= e.user <= Limit(f))
  }

  lemma {:induction false} StaysUnlessDropped(v: Version, level: nat, input: seq<Entry>, i: nat,
                                              snapshot: SequenceNumber)
    requires Sorted(input) && i < |input| && snapshot < MAX_SEQUENCE
    ensures Stays(v, level, Elements(input), input[i], snapshot) <==> !Dropped(v, level, input, i, snapshot)
  {
    if Hidden(input, i, snapshot) {
      assert Ordered(input[i - 1], input[i]) && input[i - 1] in Elements(input);
    } else {
      NotHidden(input, i, snapshot);
    }
  }

  lemma {:induction false} NotHidden(input: seq<Entry>, i: nat, snapshot: SequenceNumber)
    requires Sorted(input) && i < |input| && !Hidden(input, i, snapshot)
    ensures forall b :: b in input && b.user == input[i].user && b.sn > input[i].sn ==> b.sn > snapshot
  {
    forall b | b in input && b.user == input[i].user && b.sn > input[i].sn ensures b.sn > snapshot {
      var j :| 0 <= j < |input| && input[j] == b;
      if i < j { assert Ordered(input[i], input[j]); }
      assert Ordered(input[j], input[i]);
      if j < i - 1 { assert Ordered(input[j], input[i - 1]) && Ordered(input[i - 1], input[i]); }
    }
  }

  /** What comes out is what stays. */
  lemma {:induction false} OutputsAreWhatStays(v: Version, level: nat, input: seq<Entry>, snapshot: SequenceNumber,
                                               first: nat, outputs: seq<File>)
    requires Sorted(input) && snapshot < MAX_SEQUENCE
    requires Outputs(outputs, first, Survivors(v, level, input, |input|, snapshot))
    ensures forall e :: e in FileEntries(outputs) <==>
      e in Elements(input) && Stays(v, level, Elements(input), e, snapshot)
  {
    var es := Survivors(v, level, input, |input|, snapshot);
    SurvivorsSorted(v, level, input, |input|, snapshot);
    OutputsShape(outputs, es);
    SurvivorsAre(v, level, input, |input|, snapshot);
    forall i | 0 <= i < |input|
      ensures Stays(v, level, Elements(input), input[i], snapshot) <==> !Dropped(v, level, input, i, snapshot)
    {
      StaysUnlessDropped(v, level, input, i, snapshot);
    }
    forall e ensures e in es <==> e in Elements(input) && Stays(v, level, Elements(input), e, snapshot) {
      StaysIs(v, level, input, snapshot, e, es);
    }
  }

  lemma {:induction false} StaysIs(v: Version, level: nat, input: seq<Entry>, snapshot: SequenceNumber, e: Entry,
                                   es: seq<Entry>)
    requires forall x :: x in es <==>
      exists i :: 0 <= i < |input| && input[i] == x && !Dropped(v, level, input, i, snapshot)
    requires forall i :: 0 <= i < |input| ==>
      (Stays(v, level, Elements(input), input[i], snapshot) <==> !Dropped(v, level, input, i, snapshot))
    ensures e in es <==> e in Elements(input) && Stays(v, level, Elements(input), e, snapshot)
  {}

  /** In the terms of a reader: an entry stays exactly when some snapshot from the smallest live one on would find
      it newest in what is compacted, unless it is a tombstone that all of them see and that hides nothing below. */
  lemma {:induction false} StaysIffRead(v: Version, level: nat, all: set<Entry>, e: Entry, snapshot: SequenceNumber)
    requires e in all && SeqUnique(all)
    ensures Stays(v, level, all, e, snapshot) <==>
      && (exists s: SequenceNumber :: s >= snapshot && Newest(all, e.user, s, e))
      && !(e.kind.Deletion? && e.sn <= snapshot && BaseLevel(v, level, e.user))
  {
    var s: SequenceNumber := if e.sn <= snapshot then snapshot else e.sn;
    if !(exists b :: b in all && b.user == e.user && e.sn < b.sn <= snapshot) {
      assert Newest(all, e.user, s, e);
    }
  }

  /** DoCompactionWork. `stop` and `fileSize` stand for ShouldStopBefore and the builder's size,
      which only decide where outputs are cut. The outputs hold exactly the surviving entries. */
  method DoCompactionWork(c: Compaction, input: seq<Entry>, snapshot: SequenceNumber, nextFile: nat, stop: nat -> bool,
                          fileSize: nat -> nat) returns (outputs: seq<File>, nextFile': nat)
    requires Listed(c.inputVersion) && (input != [] ==> c.Behind(input[0].user))
    requires Sorted(input)
    modifies c
    ensures Outputs(outputs, nextFile, Survivors(c.inputVersion, c.level, input, |input|, snapshot))
    ensures CutAsTold(outputs, input, Kept(c.inputVersion, c.level, input, snapshot), stop, fileSize)
    ensures nextFile' == nextFile + |outputs|
    ensures snapshot < MAX_SEQUENCE ==> forall e :: e in FileEntries(outputs) <==>
      e in Elements(input) && Stays(c.inputVersion, c.level, Elements(input), e, snapshot)
  {
    outputs, nextFile' := MergeInput(c, input, snapshot, nextFile, stop, fileSize);
    if snapshot < MAX_SEQUENCE {
      OutputsAreWhatStays(c.inputVersion, c.level, input, snapshot, nextFile, outputs);
    }
  }

  /** The loop over the merged input. */
  method MergeInput(c: Compaction, input: seq<Entry>, snapshot: SequenceNumber, nextFile: nat, stop: nat -> bool,
                    fileSize: nat -> nat) returns (outputs: seq<File>, nextFile': nat)
    requires Listed(c.inputVersion) && (input != [] ==> c.Behind(input[0].user)) && Sorted(input)
    modifies c
    ensures Outputs(outputs, nextFile, Survivors(c.inputVersion, c.level, input, |input|, snapshot))
    ensures CutAsTold(outputs, input, Kept(c.inputVersion, c.level, input, snapshot), stop, fileSize)
    ensures nextFile' == nextFile + |outputs|
  {
    var st := State([], []);
    var currentUserKey: Option<UserKey> := None;
    var lastSequenceForKey: SequenceNumber := MAX_SEQUENCE;
    for i := 0 to |input|
      invariant i < |input| ==> c.Behind(input[i].user)
      invariant Previous(input, i, currentUserKey, lastSequenceForKey)
      invariant Progress(c.inputVersion, c.level, input, snapshot, i, st, nextFile, stop, fileSize)
    {
      var drop := ShouldDrop(c, input, i, input[i], snapshot, currentUserKey, lastSequenceForKey);
      currentUserKey, lastSequenceForKey := Some(input[i].user), input[i].sn;
      if i + 1 < |input| { c.BehindMonotone(input[i].user, input[i + 1].user); }
      st := Handle(c.inputVersion, c.level, input, snapshot, i, i + 1, st, nextFile, drop, stop, fileSize);
    }
    outputs := Finish(c.inputVersion, c.level, input, snapshot, st, nextFile, stop, fileSize);
    nextFile' := nextFile + |outputs|;
  }

  /** What the loop remembers of the entry before `i`. */
  ghost predicate Previous(input: seq<Entry>, i: nat, currentUserKey: Option<UserKey>,
                           lastSequenceForKey: SequenceNumber)
    requires i <= |input|
  {
    if i == 0 then currentUserKey == None
    else currentUserKey == Some(input[i - 1].user) && lastSequenceForKey == input[i - 1].sn
  }

  /** The first `n` entries are dealt with. */
  ghost predicate Progress(v: Version, level: nat, input: seq<Entry>, snapshot: SequenceNumber, n: nat, st: State,
                           first: nat, stop: nat -> bool, fileSize: nat -> nat)
  {
    && n <= |input| && st.All() == Survivors(v, level, input, n, snapshot) && st.Numbered(first)
    && CutUpTo(st, input, Kept(v, level, input, snapshot), n, stop, fileSize)
  }

  method Finish(ghost v: Version, ghost level: nat, input: seq<Entry>, ghost snapshot: SequenceNumber, st: State,
                first: nat, ghost stop: nat -> bool, fileSize: nat -> nat) returns (outputs: seq<File>)
    requires Sorted(input) && Progress(v, level, input, snapshot, |input|, st, first, stop, fileSize)
    ensures Outputs(outputs, first, Survivors(v, level, input, |input|, snapshot))
    ensures CutAsTold(outputs, input, Kept(v, level, input, snapshot), stop, fileSize)
  {
    SurvivorsSorted(v, level, input, |input|, snapshot);
    LastStep(st, first, input, Kept(v, level, input, snapshot), |input|, stop, fileSize);
    var last := FinishOutput(st, first, fileSize(|input|));
    assert last.All() == Flat(last.outputs);
    outputs := last.outputs;
  }

  /** One entry of the input: stop before it, then add it unless it is dropped. */
  method Handle(ghost v: Version, ghost level: nat, input: seq<Entry>, ghost snapshot: SequenceNumber, i: nat,
                ghost n: nat, st: State, first: nat, drop: bool, stop: nat -> bool, fileSize: nat -> nat)
    returns (st': State)
    requires n == i + 1 <= |input| && Sorted(input) && drop == Dropped(v, level, input, i, snapshot)
    requires Progress(v, level, input, snapshot, i, st, first, stop, fileSize)
    ensures Progress(v, level, input, snapshot, n, st', first, stop, fileSize)
  {
    ghost var kept := Kept(v, level, input, snapshot);
    SurvivorsSorted(v, level, input, i, snapshot);
    SurvivorsSorted(v, level, input, n, snapshot);
    st' := if stop(i) then FinishOutput(st, first, fileSize(i)) else st;
    StopStep(st, first, input, kept, i, n, stop, fileSize, st');
    if drop {
      DropStep(st', input, kept, i, n, stop, fileSize);
    } else {
      AddStep(st', first, input, kept, i, n, stop, fileSize);
      st' := AddEntry(st', first, input[i], fileSize(i));
    }
  }

  // ---------- No reader notices ----------

  /** The entries of the two levels that stay where they are. */
  function Left(v: Version, level: nat, inputs0: seq<File>, inputs1: seq<File>): set<Entry>
    requires level + 1 < |v.levels|
  {
    Unchosen(v.levels[level], inputs0) + Unchosen(v.levels[level + 1], inputs1)
  }

  /** The files left at the level hold nothing older of a user key that moves down. The input
      selection compares file ranges and does not establish this at level 1 and below. */
  predicate NothingOlderLeft(v: Version, level: nat, inputs0: seq<File>, input: seq<Entry>, snapshot: SequenceNumber)
    requires level < |v.levels|
  {
    MoreRecent(Unchosen(v.levels[level], inputs0), Elements(Survivors(v, level, input, |input|, snapshot)))
  }

  /** `d` is the newest entry of its user key that the snapshot sees. */
  predicate Unshadowed(db: set<Entry>, d: Entry, snapshot: SequenceNumber) {
    forall x :: x in db && x.user == d.user && x.sn > d.sn ==> x.sn > snapshot
  }

  /** No value stands at the top of what `db` holds of `k` up to `s`. */
  predicate NoPutOnTop(db: set<Entry>, k: UserKey, s: SequenceNumber) {
    forall x :: x in db && x.user == k && x.sn <= s && x.kind.Put? ==>
      exists y :: y in db && y.user == k && x.sn < y.sn <= s
  }

  /** No tombstone that rule (B) drops was the only thing hiding a value that stays behind. */
  predicate NothingReturns(v: Version, level: nat, inputs0: seq<File>, inputs1: seq<File>, input: seq<Entry>,
                           snapshot: SequenceNumber)
    requires level + 1 < |v.levels|
  {
    forall d :: d in Elements(input) && Obsolete(v, level, d, snapshot) && Unshadowed(Contents(v), d, snapshot) ==>
      NoPutOnTop(Left(v, level, inputs0, inputs1), d.user, d.sn)
  }

  /** The exact condition for a compaction to go unnoticed. */
  predicate Harmless(v: Version, level: nat, inputs0: seq<File>, inputs1: seq<File>, input: seq<Entry>,
                     snapshot: SequenceNumber)
    requires level + 1 < |v.levels|
  {
    && NothingOlderLeft(v, level, inputs0, input, snapshot)
    && NothingReturns(v, level, inputs0, inputs1, input, snapshot)
  }

  lemma {:induction false} OutputsShape(outputs: seq<File>, es: seq<Entry>)
    requires Flat(outputs) == es && Sorted(es)
    ensures FileEntries(outputs) == Elements(es)
    ensures forall f, g :: f in outputs && g in outputs && f != g ==> Precedes(f, g) || Precedes(g, f)
  {
    if outputs != [] {
      var n := |outputs| - 1;
      var init, last := outputs[..n], outputs[n];
      var p := Flat(init);
      assert es == p + last.entries && es[..|p|] == p;
      OutputsShape(init, p);
      assert outputs == init + [last];
      assert FileEntries(outputs) == FileEntries(init) + Elements(last.entries);
      forall f | f in init ensures Precedes(f, last) {
        assert f.Last() in f.entries;
        assert f.Last() in FileEntries(init);
        var i :| 0 <= i < |p| && p[i] == f.Last();
        assert es[i] == f.Last() && es[|p|] == last.First();
      }
    }
  }

  /** The facts about one compaction, from the chosen inputs to the installed version. */
  ghost predicate Compacted(v: Version, v': Version, level: nat, inputs0: seq<File>, inputs1: seq<File>,
                            input: seq<Entry>, snapshot: SequenceNumber, first: nat, outputs: seq<File>) {
    && Inv(v) && Selected(v, level, inputs0, inputs1) && snapshot < MAX_SEQUENCE
    && Sorted(input) && Elements(input) == FileEntries(inputs0) + FileEntries(inputs1)
    && Outputs(outputs, first, Survivors(v, level, input, |input|, snapshot))
    && NumbersBelow(v, first)
    && Replaced(v, v', level, inputs0, inputs1, outputs)
  }

  lemma OutputEntries(v: Version, v': Version, level: nat, inputs0: seq<File>, inputs1: seq<File>, input: seq<Entry>,
                      snapshot: SequenceNumber, first: nat, outputs: seq<File>)
    requires Compacted(v, v', level, inputs0, inputs1, input, snapshot, first, outputs)
    ensures FileEntries(outputs) == Elements(Survivors(v, level, input, |input|, snapshot))
    ensures FileEntries(outputs) <= FileEntries(inputs0) + FileEntries(inputs1)
    ensures forall f, g :: f in outputs && g in outputs && f != g ==> Precedes(f, g) || Precedes(g, f)
  {
    var es := Survivors(v, level, input, |input|, snapshot);
    SurvivorsSorted(v, level, input, |input|, snapshot);
    SurvivorsAre(v, level, input, |input|, snapshot);
    OutputsShape(outputs, es);
    forall e | e in FileEntries(outputs) ensures e in FileEntries(inputs0) + FileEntries(inputs1) {
      assert e in es && e in Elements(input);
    }
  }

  lemma ReplacedNumbers(v: Version, v': Version, level: nat, inputs0: seq<File>, inputs1: seq<File>, outputs: seq<File>,
                        first: nat)
    requires UniqueNumbers(v) && NumbersBelow(v, first) && Replaced(v, v', level, inputs0, inputs1, outputs)
    requires forall i :: 0 <= i < |outputs| ==> outputs[i].number == first + i
    ensures UniqueNumbers(v')
  {
    forall l, m, f, g | 0 <= l < NUM_LEVELS && 0 <= m < NUM_LEVELS && f in v'.levels[l] && g in v'.levels[m]
      && f.number == g.number
      ensures l == m && f == g
    {
      assert f in v.levels[l] || (l == level + 1 && f in outputs);
      assert g in v.levels[m] || (m == level + 1 && g in outputs);
    }
  }

  /** A compaction keeps the version invariant exactly when it leaves nothing older behind. */
  lemma CompactionKeepsInv(v: Version, v': Version, level: nat, inputs0: seq<File>, inputs1: seq<File>,
                           input: seq<Entry>, snapshot: SequenceNumber, first: nat, outputs: seq<File>)
    requires Compacted(v, v', level, inputs0, inputs1, input, snapshot, first, outputs)
    ensures Inv(v') <==> NothingOlderLeft(v, level, inputs0, input, snapshot)
  {
    OutputEntries(v, v', level, inputs0, inputs1, input, snapshot, first, outputs);
    ReplacedNumbers(v, v', level, inputs0, inputs1, outputs, first);
    ReplaceKeepsInv(v, v', level, inputs0, inputs1, outputs);
  }

  /** What the new version still holds of a dropped tombstone's key, and is not newer, stayed behind. */
  lemma OlderWasLeft(v: Version, v': Version, level: nat, inputs0: seq<File>, inputs1: seq<File>, input: seq<Entry>,
                     snapshot: SequenceNumber, outputs: seq<File>, d: Entry, x: Entry)
    requires Recency(v) && Selected(v, level, inputs0, inputs1)
    requires Sorted(input) && Elements(input) == FileEntries(inputs0) + FileEntries(inputs1)
    requires Replaced(v, v', level, inputs0, inputs1, outputs)
    requires FileEntries(outputs) == Elements(Survivors(v, level, input, |input|, snapshot))
    requires d in Elements(input) && Obsolete(v, level, d, snapshot)
    requires x in Contents(v') && x.user == d.user && x.sn <= d.sn
    ensures x in Left(v, level, inputs0, inputs1)
  {
    var l, f := WhereIs(v, v', level, inputs0, inputs1, outputs, x);
    if l == level + 1 && f in outputs {
      assert x in FileEntries(outputs);
      SurvivorIsNewer(v, level, input, snapshot, d, x);
    } else if l < level {
      AboveIsNewer(v, level, inputs0, inputs1, l, f, x, d);
    } else if l > level + 1 {
      UserRange(f, x);
    }
  }

  lemma AboveIsNewer(v: Version, level: nat, inputs0: seq<File>, inputs1: seq<File>, l: nat, f: File, x: Entry,
                     d: Entry)
    requires Recency(v) && Selected(v, level, inputs0, inputs1) && l < level && f in v.levels[l] && x in f.entries
    requires d in FileEntries(inputs0) + FileEntries(inputs1) && x.user == d.user
    ensures x.sn > d.sn
  {
    assert x in FileEntries(v.levels[l]);
    var m := if d in FileEntries(inputs1) then level + 1 else level;
    assert d in FileEntries(v.levels[m]);
    assert MoreRecent(FileEntries(v.levels[l]), FileEntries(v.levels[m]));
  }

  lemma WhereIs(v: Version, v': Version, level: nat, inputs0: seq<File>, inputs1: seq<File>, outputs: seq<File>,
                x: Entry) returns (l: nat, f: File)
    requires Replaced(v, v', level, inputs0, inputs1, outputs) && x in Contents(v')
    ensures l < NUM_LEVELS && x in f.entries
    ensures (l == level + 1 && f in outputs)
         || (f in v.levels[l] && (l == level ==> f !in inputs0) && (l == level + 1 ==> f !in inputs1))
  {
    l :| 0 <= l < NUM_LEVELS && x in FileEntries(v'.levels[l]);
    f :| f in v'.levels[l] && x in f.entries;
  }

  /** Rule (A) removes everything after a tombstone that every snapshot can see. */
  lemma SurvivorIsNewer(v: Version, level: nat, input: seq<Entry>, snapshot: SequenceNumber, d: Entry, x: Entry)
    requires Sorted(input) && d in input && Obsolete(v, level, d, snapshot)
    requires x in Survivors(v, level, input, |input|, snapshot) && x.user == d.user
    ensures x.sn > d.sn
  {
    var i :| 0 <= i < |input| && input[i] == d;
    forall j | i < j < |input| ensures input[j].user == input[i].user ==> Hidden(input, j, snapshot) {
      assert i < j - 1 ==> Ordered(input[i], input[j - 1]);
      assert Ordered(input[j - 1], input[j]);
    }
    SurvivorsAre(v, level, input, |input|, snapshot);
    var j :| 0 <= j < |input| && input[j] == x && !Dropped(v, level, input, j, snapshot);
  }

  /** Every entry the new version lacks was an input that the loop dropped. */
  lemma MissingWasDropped(v: Version, v': Version, level: nat, inputs0: seq<File>, inputs1: seq<File>,
                          input: seq<Entry>, snapshot: SequenceNumber, outputs: seq<File>, d: Entry)
    returns (i: nat)
    requires Elements(input) == FileEntries(inputs0) + FileEntries(inputs1)
    requires Replaced(v, v', level, inputs0, inputs1, outputs)
    requires FileEntries(outputs) == Elements(Survivors(v, level, input, |input|, snapshot))
    requires d in Contents(v) && d !in Contents(v')
    ensures i < |input| && input[i] == d && Dropped(v, level, input, i, snapshot)
  {
    var l :| 0 <= l < NUM_LEVELS && d in FileEntries(v.levels[l]);
    var f :| f in v.levels[l] && d in f.entries;
    assert f in v'.levels[l] ==> d in FileEntries(v'.levels[l]);
    assert f in inputs0 || f in inputs1;
    assert d in FileEntries(inputs0) + FileEntries(inputs1);
    i :| 0 <= i < |input| && input[i] == d;
    assert d in FileEntries(outputs) ==> d in FileEntries(v'.levels[level + 1]);
    SurvivorsAre(v, level, input, |input|, snapshot);
  }

  lemma NewContents(v: Version, v': Version, level: nat, inputs0: seq<File>, inputs1: seq<File>, input: seq<Entry>,
                    snapshot: SequenceNumber, first: nat, outputs: seq<File>)
    requires Compacted(v, v', level, inputs0, inputs1, input, snapshot, first, outputs)
    ensures Contents(v') <= Contents(v)
  {
    OutputEntries(v, v', level, inputs0, inputs1, input, snapshot, first, outputs);
    forall e | e in Contents(v') ensures e in Contents(v) {
      var l :| 0 <= l < NUM_LEVELS && e in FileEntries(v'.levels[l]);
      var was := CameFrom(v, v', level, inputs0, inputs1, outputs, l, e);
    }
  }

  lemma HidingEntry(v: Version, level: nat, inputs0: seq<File>, inputs1: seq<File>, input: seq<Entry>, i: nat,
                    snapshot: SequenceNumber)
    requires Selected(v, level, inputs0, inputs1) && i < |input| && snapshot < MAX_SEQUENCE
    requires Sorted(input) && Elements(input) == FileEntries(inputs0) + FileEntries(inputs1)
    requires Hidden(input, i, snapshot)
    ensures !Unshadowed(Contents(v), input[i], snapshot)
  {
    assert input[i - 1] in Elements(input);
    InputIsOld(v, level, inputs0, inputs1, input, input[i - 1]);
    assert Ordered(input[i - 1], input[i]);
  }

  ghost predicate SameReads(a: set<Entry>, b: set<Entry>, from: SequenceNumber) {
    forall k, s: SequenceNumber :: s >= from ==> Read(a, k, s) == Read(b, k, s)
  }

  lemma LeftIsKept(v: Version, v': Version, level: nat, inputs0: seq<File>, inputs1: seq<File>, outputs: seq<File>,
                   x: Entry)
    requires Replaced(v, v', level, inputs0, inputs1, outputs) && x in Left(v, level, inputs0, inputs1)
    ensures x in Contents(v')
  {
    if x in Unchosen(v.levels[level], inputs0) {
      assert x in FileEntries(v'.levels[level]);
    } else {
      assert x in FileEntries(v'.levels[level + 1]);
    }
  }

  /** Where nothing returns, dropping entries changes no read of a live snapshot. */
  lemma NothingReturnsKeepsRead(v: Version, v': Version, level: nat, inputs0: seq<File>, inputs1: seq<File>,
                                input: seq<Entry>, snapshot: SequenceNumber, first: nat, outputs: seq<File>, k: UserKey,
                                s: SequenceNumber)
    requires Compacted(v, v', level, inputs0, inputs1, input, snapshot, first, outputs)
    requires NothingReturns(v, level, inputs0, inputs1, input, snapshot) && s >= snapshot
    ensures Read(Contents(v'), k, s) == Read(Contents(v), k, s)
  {
    InvSeqUnique(v);
    NewContents(v, v', level, inputs0, inputs1, input, snapshot, first, outputs);
    OutputEntries(v, v', level, inputs0, inputs1, input, snapshot, first, outputs);
    var lost := NewestLost(Contents(v), Contents(v'), k, s);
    if lost.Some? {
      LostReadsNone(v, v', level, inputs0, inputs1, input, snapshot, outputs, lost.value, s);
    }
  }

  /** Fewer entries read the same unless they lack the newest one. */
  lemma NewestLost(before: set<Entry>, after: set<Entry>, k: UserKey, s: SequenceNumber) returns (lost: Option<Entry>)
    requires SeqUnique(before) && after <= before
    ensures lost == None ==> Read(after, k, s) == Read(before, k, s)
    ensures lost.Some? ==>
      && Newest(before, k, s, lost.value) && lost.value !in after
      && Read(before, k, s) == Answer(lost.value)
  {
    lost := None;
    if !NoneVisible(before, k, s) {
      NewestExists(before, k, s);
      var n :| Newest(before, k, s, n);
      ReadIs(before, k, s, n);
      if n in after {
        assert Newest(after, k, s, n);
        ReadIs(after, k, s, n);
      } else {
        lost := Some(n);
      }
    }
  }

  lemma LostReadsNone(v: Version, v': Version, level: nat, inputs0: seq<File>, inputs1: seq<File>, input: seq<Entry>,
                      snapshot: SequenceNumber, outputs: seq<File>, n: Entry, s: SequenceNumber)
    requires Recency(v) && Selected(v, level, inputs0, inputs1) && snapshot < MAX_SEQUENCE && s >= snapshot
    requires Sorted(input) && Elements(input) == FileEntries(inputs0) + FileEntries(inputs1)
    requires Replaced(v, v', level, inputs0, inputs1, outputs)
    requires FileEntries(outputs) == Elements(Survivors(v, level, input, |input|, snapshot))
    requires Newest(Contents(v), n.user, s, n) && n !in Contents(v')
    requires Contents(v') <= Contents(v) && SeqUnique(Contents(v))
    requires NothingReturns(v, level, inputs0, inputs1, input, snapshot)
    ensures Answer(n) == None && Read(Contents(v'), n.user, s) == None
  {
    LostIsObsolete(v, v', level, inputs0, inputs1, input, snapshot, outputs, n, s);
    TombstoneReadsNone(v, v', level, inputs0, inputs1, input, snapshot, outputs, n, s);
  }

  /** A newest entry that is lost was an obsolete tombstone. */
  lemma LostIsObsolete(v: Version, v': Version, level: nat, inputs0: seq<File>, inputs1: seq<File>, input: seq<Entry>,
                       snapshot: SequenceNumber, outputs: seq<File>, n: Entry, s: SequenceNumber)
    requires Selected(v, level, inputs0, inputs1) && snapshot < MAX_SEQUENCE && s >= snapshot
    requires Sorted(input) && Elements(input) == FileEntries(inputs0) + FileEntries(inputs1)
    requires Replaced(v, v', level, inputs0, inputs1, outputs)
    requires FileEntries(outputs) == Elements(Survivors(v, level, input, |input|, snapshot))
    requires Newest(Contents(v), n.user, s, n) && n !in Contents(v')
    ensures n in Elements(input) && Obsolete(v, level, n, snapshot) && Unshadowed(Contents(v), n, snapshot)
  {
    var i := MissingWasDropped(v, v', level, inputs0, inputs1, input, snapshot, outputs, n);
    if Hidden(input, i, snapshot) { HidingEntry(v, level, inputs0, inputs1, input, i, snapshot); }
  }

  /** With its tombstone gone, the key still reads as deleted. */
  lemma TombstoneReadsNone(v: Version, v': Version, level: nat, inputs0: seq<File>, inputs1: seq<File>,
                           input: seq<Entry>, snapshot: SequenceNumber, outputs: seq<File>, d: Entry, s: SequenceNumber)
    requires Recency(v) && Selected(v, level, inputs0, inputs1)
    requires Sorted(input) && Elements(input) == FileEntries(inputs0) + FileEntries(inputs1)
    requires Replaced(v, v', level, inputs0, inputs1, outputs)
    requires FileEntries(outputs) == Elements(Survivors(v, level, input, |input|, snapshot))
    requires d in Elements(input) && Obsolete(v, level, d, snapshot)
    requires Newest(Contents(v), d.user, s, d) && Contents(v') <= Contents(v) && SeqUnique(Contents(v))
    requires NoPutOnTop(Left(v, level, inputs0, inputs1), d.user, d.sn)
    ensures Read(Contents(v'), d.user, s) == None
  {
    var k := d.user;
    if !NoneVisible(Contents(v'), k, s) {
      NewestExists(Contents(v'), k, s);
      var m :| Newest(Contents(v'), k, s, m);
      ReadIs(Contents(v'), k, s, m);
      OlderWasLeft(v, v', level, inputs0, inputs1, input, snapshot, outputs, d, m);
      if m.kind.Put? {
        var y :| y in Left(v, level, inputs0, inputs1) && y.user == k && m.sn < y.sn <= d.sn;
        LeftIsKept(v, v', level, inputs0, inputs1, outputs, y);
      }
    }
  }

  /** A tombstone dropped from above a value that stays behind brings that value back. */
  lemma TombstoneMissed(v: Version, v': Version, level: nat, inputs0: seq<File>, inputs1: seq<File>, input: seq<Entry>,
                        snapshot: SequenceNumber, outputs: seq<File>, d: Entry)
    requires Recency(v) && Selected(v, level, inputs0, inputs1)
    requires Sorted(input) && Elements(input) == FileEntries(inputs0) + FileEntries(inputs1)
    requires Replaced(v, v', level, inputs0, inputs1, outputs)
    requires FileEntries(outputs) == Elements(Survivors(v, level, input, |input|, snapshot))
    requires d in Contents(v) && Contents(v') <= Contents(v) && SeqUnique(Contents(v))
    requires d in Elements(input) && Obsolete(v, level, d, snapshot) && Unshadowed(Contents(v), d, snapshot)
    requires !NoPutOnTop(Left(v, level, inputs0, inputs1), d.user, d.sn)
    ensures Read(Contents(v), d.user, snapshot) == None && Read(Contents(v'), d.user, snapshot).Some?
  {
    var k, left := d.user, Left(v, level, inputs0, inputs1);
    var x :| x in left && x.user == k && x.sn <= d.sn && x.kind.Put?
      && forall y :: y in left && y.user == k ==> !(x.sn < y.sn <= d.sn);
    LeftIsKept(v, v', level, inputs0, inputs1, outputs, x);
    forall z | z in Contents(v') && z.user == k && z.sn <= d.sn ensures z in left {
      OlderWasLeft(v, v', level, inputs0, inputs1, input, snapshot, outputs, d, z);
    }
    ValueReturns(Contents(v), Contents(v'), left, d, x, snapshot);
  }

  lemma ValueReturns(before: set<Entry>, after: set<Entry>, left: set<Entry>, d: Entry, x: Entry, s: SequenceNumber)
    requires SeqUnique(before) && after <= before && d in before && Unshadowed(before, d, s) && d.sn <= s
    requires x in after && x.user == d.user && x.sn <= d.sn && x.kind.Put? && d.kind.Deletion?
    requires forall z :: z in after && z.user == d.user && z.sn <= d.sn ==> z in left
    requires forall y :: y in left && y.user == d.user ==> !(x.sn < y.sn <= d.sn)
    ensures Read(before, d.user, s) == None && Read(after, d.user, s).Some?
  {
    assert Newest(before, d.user, s, d);
    ReadIs(before, d.user, s, d);
    assert Newest(after, d.user, s, x);
    ReadIs(after, d.user, s, x);
  }

  /** Compaction drops entries. The tables read the same at every snapshot from the smallest live one
      on if and only if no dropped tombstone was the only thing hiding a value that stays behind. */
  lemma CompactionKeepsReadsIff(v: Version, v': Version, level: nat, inputs0: seq<File>, inputs1: seq<File>,
                                input: seq<Entry>, snapshot: SequenceNumber, first: nat, outputs: seq<File>)
    requires Compacted(v, v', level, inputs0, inputs1, input, snapshot, first, outputs)
    ensures SameReads(Contents(v'), Contents(v), snapshot)
       <==> NothingReturns(v, level, inputs0, inputs1, input, snapshot)
  {
    if NothingReturns(v, level, inputs0, inputs1, input, snapshot) {
      forall k, s: SequenceNumber | s >= snapshot ensures Read(Contents(v'), k, s) == Read(Contents(v), k, s) {
        NothingReturnsKeepsRead(v, v', level, inputs0, inputs1, input, snapshot, first, outputs, k, s);
      }
    } else {
      var d :| d in Elements(input) && Obsolete(v, level, d, snapshot) && Unshadowed(Contents(v), d, snapshot)
        && !NoPutOnTop(Left(v, level, inputs0, inputs1), d.user, d.sn);
      InvSeqUnique(v);
      NewContents(v, v', level, inputs0, inputs1, input, snapshot, first, outputs);
      OutputEntries(v, v', level, inputs0, inputs1, input, snapshot, first, outputs);
      InputIsOld(v, level, inputs0, inputs1, input, d);
      TombstoneMissed(v, v', level, inputs0, inputs1, input, snapshot, outputs, d);
      assert Read(Contents(v'), d.user, snapshot) != Read(Contents(v), d.user, snapshot);
    }
  }

  /** The new version keeps the invariant, and every live snapshot's reads, if and only if the inputs
      leave nothing older behind and no dropped tombstone brings a value back. */
  lemma CompactionHarmlessIff(v: Version, v': Version, level: nat, inputs0: seq<File>, inputs1: seq<File>,
                              input: seq<Entry>, snapshot: SequenceNumber, first: nat, outputs: seq<File>)
    requires Compacted(v, v', level, inputs0, inputs1, input, snapshot, first, outputs)
    ensures Inv(v') && SameReads(Contents(v'), Contents(v), snapshot)
       <==> Harmless(v, level, inputs0, inputs1, input, snapshot)
  {
    CompactionKeepsInv(v, v', level, inputs0, inputs1, input, snapshot, first, outputs);
    CompactionKeepsReadsIff(v, v', level, inputs0, inputs1, input, snapshot, first, outputs);
  }

  /** From level 0 a compaction always keeps the invariant: the selection takes all overlapping files. */
  lemma LevelZeroKeepsInv(v: Version, inputs0: seq<File>, inputs1: seq<File>, input: seq<Entry>,
                          snapshot: SequenceNumber)
    requires Inv(v) && Selected(v, 0, inputs0, inputs1)
      && Elements(input) == FileEntries(inputs0) + FileEntries(inputs1)
    ensures NothingOlderLeft(v, 0, inputs0, input, snapshot)
  {
    var es := Survivors(v, 0, input, |input|, snapshot);
    SurvivorsAre(v, 0, input, |input|, snapshot);
    LevelZeroLeavesNothing(v, inputs0, inputs1);
    forall a, b | a in Unchosen(v.levels[0], inputs0) && b in Elements(es) && a.user == b.user ensures a.sn > b.sn {
      assert b in Elements(input);
      if b in FileEntries(inputs1) {
        assert a in FileEntries(v.levels[0]) && b in FileEntries(v.levels[1]);
        assert MoreRecent(FileEntries(v.levels[0]), FileEntries(v.levels[1]));
      }
    }
  }

  /** No snapshot at or above the smallest live one reads anything different, whatever newer entries
      the memtables hold. */
  lemma CompactionKeepsReads(v: Version, v': Version, level: nat, inputs0: seq<File>, inputs1: seq<File>,
                             input: seq<Entry>, snapshot: SequenceNumber, first: nat, outputs: seq<File>,
                             mem: set<Entry>, k: UserKey, s: SequenceNumber)
    requires Compacted(v, v', level, inputs0, inputs1, input, snapshot, first, outputs)
    requires NothingReturns(v, level, inputs0, inputs1, input, snapshot)
    requires MoreRecent(mem, Contents(v)) && SeqUnique(mem + Contents(v))
    requires s >= snapshot
    ensures Read(mem + Contents(v'), k, s) == Read(mem + Contents(v), k, s)
  {
    NewContents(v, v', level, inputs0, inputs1, input, snapshot, first, outputs);
    NothingReturnsKeepsRead(v, v', level, inputs0, inputs1, input, snapshot, first, outputs, k, s);
    SameUnderMemory(mem, Contents(v'), Contents(v), k, s);
  }

  lemma InputIsOld(v: Version, level: nat, inputs0: seq<File>, inputs1: seq<File>, input: seq<Entry>, e: Entry)
    requires Selected(v, level, inputs0, inputs1) && e in Elements(input)
    requires Elements(input) == FileEntries(inputs0) + FileEntries(inputs1)
    ensures e in Contents(v)
  {
    if e in FileEntries(inputs0) {
      assert e in FileEntries(v.levels[level]);
    } else {
      assert e in FileEntries(v.levels[level + 1]);
    }
  }
}
