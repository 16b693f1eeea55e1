/** Opening a database: the manifest gives the tables, the live logs are replayed into level 0. */
module Recovery {
  import opened DbFormat
  import opened Versions
  import opened Overlaps
  import opened Steps
  import opened Manifest
  import opened DbState
  import opened WriteSteps
  import opened TableSteps

  // ---------- Replaying logs into tables ----------

  /** Recovered tables: numbered upwards, each entirely newer than the ones before. */
  ghost predicate TablesInOrder(files: seq<File>, first: nat, next: nat) {
    && (forall i :: 0 <= i < |files| ==> first <= files[i].number < next)
    && (forall i, j :: 0 <= i < j < |files| ==> files[i].number < files[j].number)
    && (forall i, j :: 0 <= i < j < |files| ==> AllOlder(Elements(files[i].entries), Elements(files[j].entries)))
  }

  /** The entries replayed so far are in the finished tables and the memtable being filled. */
  ghost predicate Replayed(files: seq<File>, mem: seq<Entry>, first: nat, next: nat, done: seq<Entry>) {
    && Sorted(mem) && first <= next && TablesInOrder(files, first, next)
    && FileEntries(files) + Elements(mem) == Elements(done)
    && AllOlder(FileEntries(files), Elements(mem))
  }

  lemma AddTable(files: seq<File>, f: File)
    ensures FileEntries(files + [f]) == FileEntries(files) + Elements(f.entries)
  {
    assert f in files + [f];
    forall g ensures g in files + [f] <==> g in files || g == f {}
  }

  /** WriteLevel0Table during recovery: the memtable, if it holds anything, becomes a table. */
  method FlushRecovered(files: seq<File>, mem: seq<Entry>, ghost first: nat, next: nat, size: nat,
                        ghost done: seq<Entry>) returns (files': seq<File>, next': nat)
    requires Replayed(files, mem, first, next, done)
    ensures Replayed(files', [], first, next', done) && next <= next'
  {
    next' := next + 1;
    if mem == [] {
      return files, next';
    }
    var f := File(next, size, mem);
    files' := files + [f];
    AddTable(files, f);
    forall i | 0 <= i < |files| ensures AllOlder(Elements(files[i].entries), Elements(f.entries)) {
      forall a | a in files[i].entries ensures a in FileEntries(files) {}
    }
  }

  lemma {:induction false} ReplayOneBatch(files: seq<File>, mem: seq<Entry>, first: nat, next: nat, done: seq<Entry>,
                                          batch: seq<Entry>)
    requires Replayed(files, mem, first, next, done) && Ascending(done + batch)
    ensures Ascending(batch) && forall x, y :: x in mem && y in batch ==> x.sn < y.sn
    ensures Replayed(files, InsertAll(mem, batch), first, next, done + batch)
  {
    AscendingSplit(done, batch);
    forall x | x in mem ensures x in Elements(done) { assert x in Elements(mem); }
    forall x, y | x in mem && y in batch ensures x.sn < y.sn { assert x in Elements(done) && y in Elements(batch); }
    forall x | x in FileEntries(files) ensures x in Elements(done) {}
    ElementsConcat(done, batch);
  }

  lemma {:induction false} AscendingSplit(done: seq<Entry>, batch: seq<Entry>)
    requires Ascending(done + batch)
    ensures Ascending(batch) && AllOlder(Elements(done), Elements(batch))
  {
    var all := done + batch;
    forall i, j | 0 <= i < j < |batch| ensures batch[i].sn < batch[j].sn {
      assert all[|done| + i] == batch[i] && all[|done| + j] == batch[j];
    }
    forall x, y | x in Elements(done) && y in Elements(batch) ensures x.sn < y.sn {
      var i :| 0 <= i < |done| && done[i] == x;
      var j :| 0 <= j < |batch| && batch[j] == y;
      assert all[i] == x && all[|done| + j] == y;
    }
  }

  ghost predicate MaxOf(m: nat, floor: nat, es: seq<Entry>) {
    floor <= m && (forall e :: e in es ==> e.sn <= m) && (m == floor || exists e :: e in es && e.sn == m)
  }

  /** One record of the log: into the memtable, which is written out when it is full. */
  method RecoverBatch(batch: seq<Entry>, files0: seq<File>, mem0: seq<Entry>, next0: nat, max0: nat,
                      full: seq<Entry> -> bool, size: nat, ghost first: nat, ghost sofar: seq<Entry>, ghost floor: nat)
    returns (files: seq<File>, mem: seq<Entry>, next: nat, maxSequence: nat, open: bool)
    requires Replayed(files0, mem0, first, next0, sofar) && Ascending(sofar + batch) && MaxOf(max0, floor, sofar)
    ensures Replayed(files, mem, first, next, sofar + batch) && next0 <= next
      && MaxOf(maxSequence, floor, sofar + batch)
    ensures !open ==> mem == []
  {
    files, next, maxSequence := files0, next0, max0;
    ReplayOneBatch(files, mem0, first, next, sofar, batch);
    mem, open := InsertAll(mem0, batch), true;
    MaxGrows(maxSequence, floor, sofar, batch);
    if batch != [] {
      var lastSeq := batch[|batch| - 1].sn;
      if lastSeq > maxSequence {
        maxSequence := lastSeq;
      }
    }
    if full(mem) {
      files, next := FlushRecovered(files, mem, first, next, size, sofar + batch);
      mem, open := [], false;
    }
  }

  /** RecoverLogFile. `full` says when the memtable has outgrown the write buffer. */
  method RecoverLogFile(batches: seq<seq<Entry>>, files0: seq<File>, next0: nat, max0: nat, full: seq<Entry> -> bool,
                        size: nat, ghost first: nat, ghost done: seq<Entry>, ghost floor: nat)
    returns (files: seq<File>, next: nat, maxSequence: nat)
    requires Replayed(files0, [], first, next0, done) && Ascending(done + Concat(batches))
    requires MaxOf(max0, floor, done)
    ensures Replayed(files, [], first, next, done + Concat(batches)) && next0 <= next
    ensures MaxOf(maxSequence, floor, done + Concat(batches))
  {
    files, next, maxSequence := files0, next0, max0;
    var mem, open := [], false;
    assert done + Concat(batches[..0]) == done;
    for i := 0 to |batches|
      invariant next0 <= next && Replayed(files, mem, first, next, done + Concat(batches[..i]))
      invariant MaxOf(maxSequence, floor, done + Concat(batches[..i]))
      invariant !open ==> mem == []
    {
      ghost var sofar := done + Concat(batches[..i]);
      assert batches[..i + 1][..i] == batches[..i];
      assert done + Concat(batches[..i + 1]) == sofar + batches[i];
      ConcatPrefix(batches, i + 1);
      PrefixAscending(done, Concat(batches), Concat(batches[..i + 1]));
      files, mem, next, maxSequence, open :=
        RecoverBatch(batches[i], files, mem, next, maxSequence, full, size, first, sofar, floor);
    }
    assert batches[..|batches|] == batches;
    if open {
      files, next := FlushRecovered(files, mem, first, next, size, done + Concat(batches));
    }
  }

  lemma MaxGrows(m: nat, floor: nat, es: seq<Entry>, batch: seq<Entry>)
    requires MaxOf(m, floor, es) && Ascending(batch)
    ensures batch == [] ==> MaxOf(m, floor, es + batch)
    ensures batch != [] ==>
      MaxOf(if batch[|batch| - 1].sn > m then batch[|batch| - 1].sn else m, floor, es + batch)
  {
    if batch == [] {
      assert es + batch == es;
    } else {
      var last := batch[|batch| - 1];
      forall e | e in batch ensures e.sn <= last.sn {
        var i :| 0 <= i < |batch| && batch[i] == e;
      }
      assert last in es + batch;
    }
  }

  lemma {:induction false} ConcatPrefix(batches: seq<seq<Entry>>, n: nat)
    requires n <= |batches|
    ensures Concat(batches[..n]) <= Concat(batches)
    decreases |batches| - n
  {
    if n < |batches| {
      ConcatPrefix(batches, n + 1);
      assert batches[..n + 1][..n] == batches[..n];
    } else {
      assert batches[..n] == batches;
    }
  }

  lemma PrefixAscending(done: seq<Entry>, all: seq<Entry>, prefix: seq<Entry>)
    requires Ascending(done + all) && prefix <= all
    ensures Ascending(done + prefix)
  {
    forall i | 0 <= i < |done + prefix| ensures (done + prefix)[i] == (done + all)[i] {}
  }

  /** Recover's loop over the log files, in number order, skipping those the manifest no longer
      needs and marking the numbers of the others as used. */
  method RecoverLogs(logs: seq<LogFile>, minLog: nat, next0: nat, lastSequence: nat, full: seq<Entry> -> bool,
                     size: nat) returns (files: seq<File>, next: nat, maxSequence: nat)
    requires LogsOk(logs, minLog) && minLog < next0
    ensures TablesInOrder(files, next0, next) && next0 <= next
    ensures FileEntries(files) == Elements(Live(logs, minLog))
    ensures forall i :: 0 <= i < |logs| ==> logs[i].number < next
    ensures MaxOf(maxSequence, lastSequence, Live(logs, minLog))
  {
    files, next, maxSequence := [], next0, lastSequence;
    for i := 0 to |logs|
      invariant next0 <= next && Replayed(files, [], next0, next, Live(logs[..i], minLog))
      invariant MaxOf(maxSequence, lastSequence, Live(logs[..i], minLog))
      invariant forall j :: 0 <= j < i ==> logs[j].number < next
    {
      ghost var done, n := Live(logs[..i], minLog), i + 1;
      LiveStep(logs, minLog, i, n);
      if logs[i].number >= minLog {
        files, next, maxSequence :=
          RecoverOneLog(logs[i], files, next, maxSequence, full, size, next0, done, lastSequence);
      }
    }
    assert logs[..|logs|] == logs;
  }

  /** RecoverLogFile, then MarkFileNumberUsed. */
  method RecoverOneLog(log: LogFile, files0: seq<File>, next0: nat, max0: nat, full: seq<Entry> -> bool, size: nat,
                       ghost first: nat, ghost done: seq<Entry>, ghost floor: nat)
    returns (files: seq<File>, next: nat, maxSequence: nat)
    requires Replayed(files0, [], first, next0, done) && Ascending(done + Concat(log.batches))
      && MaxOf(max0, floor, done)
    ensures Replayed(files, [], first, next, done + Concat(log.batches)) && next0 <= next && log.number < next
    ensures MaxOf(maxSequence, floor, done + Concat(log.batches))
  {
    files, next, maxSequence := RecoverLogFile(log.batches, files0, next0, max0, full, size, first, done, floor);
    if next <= log.number {
      next := log.number + 1;
    }
  }

  lemma {:induction false} LiveStep(logs: seq<LogFile>, from: nat, i: nat, n: nat)
    requires LogsOk(logs, from) && i < |logs| && n == i + 1
    ensures Live(logs[..n], from) == Live(logs[..i],
        from) + (if logs[i].number >= from then Concat(logs[i].batches) else [])
    ensures logs[i].number < from ==> Live(logs[..n], from) == Live(logs[..i], from)
    ensures Ascending(Live(logs[..n], from))
  {
    assert logs[..n][..i] == logs[..i];
    LivePrefix(logs, from, n);
    var all, prefix := Live(logs, from), Live(logs[..n], from);
    PrefixAscending([], all, prefix);
    assert [] + prefix == prefix && [] + all == all;
  }

  lemma {:induction false} LivePrefix(logs: seq<LogFile>, from: nat, n: nat)
    requires n <= |logs|
    ensures Live(logs[..n], from) <= Live(logs, from)
    decreases |logs| - n
  {
    if n < |logs| {
      LivePrefix(logs, from, n + 1);
      assert logs[..n + 1][..n] == logs[..n];
    } else {
      assert logs[..n] == logs;
    }
  }

  // ---------- The recovered version ----------

  function RecoveryEdit(files: seq<File>, newLog: nat, next: nat, last: nat): VersionEdit {
    VersionEdit({}, Tagged(0, files), Some(newLog), Some(next), Some(last))
  }

  lemma RecoveredNumbers(v: Version, v': Version, files: seq<File>, first: nat, next: nat, edit: VersionEdit)
    requires UniqueNumbers(v) && NumbersBelow(v, first) && TablesInOrder(files, first, next) && first <= next
    requires Edited(v, v', edit) && edit.deleted == {} && edit.added == Tagged(0, files)
    ensures UniqueNumbers(v') && NumbersBelow(v', next)
  {
    forall l, m, f, g | 0 <= l < NUM_LEVELS && 0 <= m < NUM_LEVELS && f in v'.levels[l] && g in v'.levels[m]
      && f.number == g.number
      ensures l == m && f == g
    {
      RecoveredFile(v, v', files, first, next, edit, l, f);
      RecoveredFile(v, v', files, first, next, edit, m, g);
      if f !in v.levels[l] && g !in v.levels[m] {
        var i :| 0 <= i < |files| && files[i] == f;
        var j :| 0 <= j < |files| && files[j] == g;
      }
    }
    forall l, f | 0 <= l < NUM_LEVELS && f in v'.levels[l] ensures f.number < next {
      RecoveredFile(v, v', files, first, next, edit, l, f);
    }
  }

  lemma RecoveredFile(v: Version, v': Version, files: seq<File>, first: nat, next: nat, edit: VersionEdit, l: nat,
                      f: File)
    requires NumbersBelow(v, first) && TablesInOrder(files, first, next) && first <= next
    requires Edited(v, v', edit) && edit.added == Tagged(0, files) && l < NUM_LEVELS && f in v'.levels[l]
    ensures (f in v.levels[l] && f.number < first) || (l == 0 && f in files && first <= f.number < next)
  {
    if f !in v.levels[l] { assert (l, f) in edit.added; }
  }

  lemma RecoveredEntries(v: Version, v': Version, files: seq<File>, edit: VersionEdit)
    requires Edited(v, v', edit) && edit.deleted == {} && edit.added == Tagged(0, files)
    ensures forall l :: 0 <= l < NUM_LEVELS ==>
      FileEntries(v'.levels[l]) == FileEntries(v.levels[l]) + (if l == 0 then FileEntries(files) else {})
    ensures Contents(v') == Contents(v) + FileEntries(files)
  {
    forall l | 0 <= l < NUM_LEVELS
      ensures FileEntries(v'.levels[l]) == FileEntries(v.levels[l]) + (if l == 0 then FileEntries(files) else {})
    {
      forall f ensures f in v'.levels[l] <==> f in v.levels[l] || (l == 0 && f in files) {
        assert (l, f) in edit.added <==> l == 0 && f in files;
      }
    }
    forall e | e in FileEntries(files) ensures e in Contents(v') { assert e in FileEntries(v'.levels[0]); }
    forall e | e in Contents(v) ensures e in Contents(v') {
      var l :| 0 <= l < NUM_LEVELS && e in FileEntries(v.levels[l]);
      assert e in FileEntries(v'.levels[l]);
    }
  }

  lemma RecoveredLevelZero(v: Version, v': Version, files: seq<File>, first: nat, next: nat, edit: VersionEdit)
    requires Inv(v) && NumbersBelow(v, first) && TablesInOrder(files, first, next)
    requires MoreRecent(FileEntries(files), Contents(v))
    requires Edited(v, v', edit) && edit.deleted == {} && edit.added == Tagged(0, files)
    ensures LevelZeroRecency(v'.levels[0])
  {
    forall f, g | f in v'.levels[0] && g in v'.levels[0] && f.number > g.number
      ensures MoreRecent(Elements(f.entries), Elements(g.entries))
    {
      assert f in v.levels[0] || f in files;
      assert g in v.levels[0] || g in files;
      if f in files && g in files {
        RecoveredInOrder(files, first, next, f, g);
      } else if f in files {
        RecoveredOverOld(v, files, f, g);
      }
    }
  }

  lemma RecoveredInOrder(files: seq<File>, first: nat, next: nat, f: File, g: File)
    requires TablesInOrder(files, first, next) && f in files && g in files && f.number > g.number
    ensures MoreRecent(Elements(f.entries), Elements(g.entries))
  {
    var i :| 0 <= i < |files| && files[i] == f;
    var j :| 0 <= j < |files| && files[j] == g;
    assert j < i;
    assert AllOlder(Elements(files[j].entries), Elements(files[i].entries));
  }

  lemma RecoveredOverOld(v: Version, files: seq<File>, f: File, g: File)
    requires |v.levels| == NUM_LEVELS && MoreRecent(FileEntries(files), Contents(v)) && f in files && g in v.levels[0]
    ensures MoreRecent(Elements(f.entries), Elements(g.entries))
  {
    forall b | b in g.entries ensures b in Contents(v) { assert b in FileEntries(v.levels[0]); }
  }

  lemma RecoveredInv(v: Version, v': Version, files: seq<File>, first: nat, next: nat, edit: VersionEdit)
    requires Inv(v) && NumbersBelow(v, first) && TablesInOrder(files, first, next) && first <= next
    requires MoreRecent(FileEntries(files), Contents(v))
    requires Edited(v, v', edit) && edit.deleted == {} && edit.added == Tagged(0, files)
    ensures Inv(v')
  {
    RecoveredNumbers(v, v', files, first, next, edit);
    RecoveredLevelZero(v, v', files, first, next, edit);
    RecoveredRecency(v, v', files, edit);
    forall l | 1 <= l < NUM_LEVELS ensures DisjointFiles(v'.levels[l]) {
      RecoveredDeeper(v, v', files, edit, l);
    }
  }

  lemma RecoveredDeeper(v: Version, v': Version, files: seq<File>, edit: VersionEdit, l: nat)
    requires Edited(v, v', edit) && edit.added == Tagged(0, files) && 1 <= l < NUM_LEVELS
    requires DisjointFiles(v.levels[l])
    ensures DisjointFiles(v'.levels[l])
  {
    forall f | f in v'.levels[l] ensures f in v.levels[l] { assert (l, f) !in edit.added; }
    FewerStayDisjoint(v.levels[l], v'.levels[l]);
  }

  lemma RecoveredRecency(v: Version, v': Version, files: seq<File>, edit: VersionEdit)
    requires Recency(v) && MoreRecent(FileEntries(files), Contents(v))
    requires Edited(v, v', edit) && edit.deleted == {} && edit.added == Tagged(0, files)
    ensures Recency(v')
  {
    RecoveredEntries(v, v', files, edit);
    forall l, m, a, b | 0 <= l < m < NUM_LEVELS && a in FileEntries(v'.levels[l]) && b in FileEntries(v'.levels[m])
      && a.user == b.user
      ensures a.sn > b.sn
    {
      RecoveredPair(v, files, l, m, a, b);
    }
  }

  lemma RecoveredPair(v: Version, files: seq<File>, l: nat, m: nat, a: Entry, b: Entry)
    requires |v.levels| == NUM_LEVELS && Recency(v) && MoreRecent(FileEntries(files), Contents(v))
    requires l < m < NUM_LEVELS && a.user == b.user
    requires a in FileEntries(v.levels[l]) || a in FileEntries(files)
    requires b in FileEntries(v.levels[m])
    ensures a.sn > b.sn
  {
    if a in FileEntries(v.levels[l]) {
      assert MoreRecent(FileEntries(v.levels[l]), FileEntries(v.levels[m]));
    } else {
      assert b in Contents(v);
    }
  }

  // ---------- The manifest written on opening ----------

  function AllTagged(v: Version, n: nat): seq<(nat, File)>
    requires n <= |v.levels|
  {
    if n == 0 then [] else AllTagged(v, n - 1) + Tagged(n - 1, v.levels[n - 1])
  }

  /** WriteSnapshot: one edit that adds every file of the version. */
  function SnapshotEdit(v: Version): VersionEdit {
    VersionEdit({}, AllTagged(v, |v.levels|), None, None, None)
  }

  lemma {:induction false} AllTaggedAre(v: Version, n: nat)
    requires n <= |v.levels|
    ensures forall i :: 0 <= i < |AllTagged(v, n)| ==>
      AllTagged(v, n)[i].0 < n && AllTagged(v, n)[i].1 in v.levels[AllTagged(v, n)[i].0]
    ensures forall l, f :: 0 <= l < n && f in v.levels[l] ==> (l, f) in AllTagged(v, n)
  {
    if n > 0 {
      AllTaggedAre(v, n - 1);
    }
  }

  ghost predicate DistinctPerLevel(added: seq<(nat, File)>) {
    forall i, j ::
      0 <= i < j < |added| && added[i].0 == added[j].0 ==> added[i].1.number != added[j].1.number
  }

  ghost predicate DistinctNumbers(files: seq<File>) {
    forall i, j :: 0 <= i < j < |files| ==> files[i].number != files[j].number
  }

  lemma {:induction false} LevelDistinct(v: Version, l: nat)
    requires l < |v.levels| && UniqueNumbers(v) && SortedFiles(v.levels[l])
    ensures DistinctNumbers(v.levels[l])
  {
    var files := v.levels[l];
    forall i, j | 0 <= i < j < |files| ensures files[i].number != files[j].number {
      assert BySmallest(files[i], files[j]);
      assert files[i] in files && files[j] in files;
    }
  }

  lemma {:induction false} AllTaggedBelow(v: Version, n: nat)
    requires n <= |v.levels|
    ensures forall i :: 0 <= i < |AllTagged(v, n)| ==> AllTagged(v, n)[i].0 < n
  {
    if n > 0 { AllTaggedBelow(v, n - 1); }
  }

  lemma {:induction false} ConcatDistinct(above: seq<(nat, File)>, l: nat, files: seq<File>)
    requires DistinctPerLevel(above) && DistinctNumbers(files) && forall i :: 0 <= i < |above| ==> above[i].0 < l
    ensures DistinctPerLevel(above + Tagged(l, files))
  {}

  lemma {:induction false} AllTaggedDistinct(v: Version, n: nat)
    requires n <= |v.levels| && forall l :: 0 <= l < |v.levels| ==> DistinctNumbers(v.levels[l])
    ensures DistinctPerLevel(AllTagged(v, n))
  {
    if n > 0 {
      AllTaggedDistinct(v, n - 1);
      AllTaggedBelow(v, n - 1);
      ConcatDistinct(AllTagged(v, n - 1), n - 1, v.levels[n - 1]);
    }
  }

  lemma SnapshotReplays(v: Version)
    requires Shaped(v)
    ensures Replays([SnapshotEdit(v)], v)
  {
    var edit := SnapshotEdit(v);
    AllTaggedAre(v, NUM_LEVELS);
    forall l | 0 <= l < NUM_LEVELS ensures DistinctNumbers(v.levels[l]) { LevelDistinct(v, l); }
    AllTaggedDistinct(v, NUM_LEVELS);
    EmptyIsListed();
    forall l, f | 0 <= l < NUM_LEVELS ensures f in v.levels[l] <==> (l, f) in edit.added {}
    assert Edited(EMPTY, v, edit);
    ReplaysOneMore([], EMPTY, v, edit);
    assert [] + [edit] == [edit];
  }

  lemma NewManifestMentions(v: Version, v': Version, files: seq<File>, edit: VersionEdit)
    requires |v.levels| == NUM_LEVELS && UniqueNumbers(v')
    requires Edited(v, v', edit) && edit.deleted == {} && edit.added == Tagged(0, files)
    ensures MentionsAbove([SnapshotEdit(v), edit], v')
    ensures forall n :: NumbersBelow(v', n) ==> MentionsBelow([SnapshotEdit(v), edit], n)
  {
    var edits := [SnapshotEdit(v), edit];
    AllTaggedAre(v, NUM_LEVELS);
    forall i, j | 0 <= i < |edits| && 0 <= j < |edits[i].added|
      ensures edits[i].added[j].0 < NUM_LEVELS && edits[i].added[j].1 in v'.levels[edits[i].added[j].0]
    {
      assert edits[i].added[j] in edits[i].added;
    }
  }

  lemma {:induction false} RecoveryAddsNew(v: Version, files: seq<File>, first: nat, next: nat, edit: VersionEdit)
    requires |v.levels| == NUM_LEVELS && NumbersBelow(v, first) && TablesInOrder(files, first, next)
      && edit.added == Tagged(0, files)
    ensures AddsNew([SnapshotEdit(v)], edit)
  {
    AllTaggedAre(v, NUM_LEVELS);
    forall j, k | 0 <= j < |SnapshotEdit(v).added| && 0 <= k < |edit.added|
      ensures SnapshotEdit(v).added[j].1.number != edit.added[k].1.number
    {
      assert SnapshotEdit(v).added[j] in SnapshotEdit(v).added;
    }
  }

  /** The new manifest, a snapshot of the old version followed by the recovery edit, is in order. */
  lemma {:induction false} NewManifestOk(v: Version, v': Version, files: seq<File>, first: nat, newLog: nat, next: nat,
                                         last: nat)
    requires Shaped(v) && UniqueNumbers(v') && NumbersBelow(v, first) && NumbersBelow(v', next)
    requires TablesInOrder(files, first, next) && newLog < next && AtMost(Contents(v'), last)
    requires Edited(v, v', RecoveryEdit(files, newLog, next, last))
    ensures ManifestOk([SnapshotEdit(v), RecoveryEdit(files, newLog, next, last)], v', newLog)
    ensures ManifestNext([SnapshotEdit(v), RecoveryEdit(files, newLog, next, last)]) == Some(next)
    ensures ManifestLast([SnapshotEdit(v), RecoveryEdit(files, newLog, next, last)]) == Some(last)
  {
    var edit := RecoveryEdit(files, newLog, next, last);
    SnapshotReplays(v);
    RecoveryAddsNew(v, files, first, next, edit);
    ReplaysOneMore([SnapshotEdit(v)], v, v', edit);
    assert [SnapshotEdit(v)] + [edit] == [SnapshotEdit(v), edit];
    NewManifestMentions(v, v', files, edit);
  }

  // ---------- The opened database ----------

  function Opened(logs: seq<LogFile>, v: Version, v': Version, files: seq<File>, newLog: nat, next: nat,
                  last: SequenceNumber): Db {
    Db([], None, [], v', newLog, newLog, next, last, [],
       Disk(logs + [LogFile(newLog, [])], [SnapshotEdit(v), RecoveryEdit(files, newLog, next, last)]))
  }

  /** Nothing is in memory, and the newest log is empty. */
  lemma OpenedAfresh(logs: seq<LogFile>, v: Version, v': Version, files: seq<File>, newLog: nat, next: nat,
                     last: SequenceNumber)
    ensures StartsAfresh(Opened(logs, v, v', files, newLog, next, last))
  {}

  lemma OpenedLogs(disk: Disk, v: Version, v': Version, files: seq<File>, newLog: nat, next: nat, last: SequenceNumber)
    requires InNumberOrder(disk.logs) && newLog < next
    requires forall i :: 0 <= i < |disk.logs| ==> disk.logs[i].number < newLog
    ensures LogsHold(Opened(disk.logs, v, v', files, newLog, next, last))
  {
    var db := Opened(disk.logs, v, v', files, newLog, next, last);
    LiveNewLog(disk.logs, newLog, newLog);
    NothingLive(disk.logs, newLog);
    assert db.Young() == {};
  }

  lemma RecoveredLast(disk: Disk, v: Version, v': Version, logNumber: nat, history: set<Entry>, horizon: nat,
                      bound: nat, last: nat)
    requires RecoverableAs(disk, v, logNumber, history, horizon, bound)
    requires MaxOf(last, ManifestLast(disk.manifest).value, Live(disk.logs, logNumber))
    requires Contents(v') == Contents(v) + Elements(Live(disk.logs, logNumber))
    ensures horizon <= last <= bound
    ensures AtMost(Contents(v'), last) && Accounted(history, last, {})
  {
    var live := Live(disk.logs, logNumber);
    forall e | e in Elements(live) ensures e.sn <= last {}
  }

  /** Recovery after a crash at any step: the reopened database agrees with the same history. */
  lemma OpenedValid(disk: Disk, v: Version, v': Version, logNumber: nat, history: set<Entry>, horizon: nat, bound: nat,
                    files: seq<File>, first: nat, newLog: nat, next: nat, last: nat)
    requires RecoverableAs(disk, v, logNumber, history, horizon, bound)
    requires first == ManifestNext(disk.manifest).value + 1
    requires first <= newLog && next == newLog + 1 && TablesInOrder(files, first, newLog)
    requires FileEntries(files) == Elements(Live(disk.logs, logNumber))
    requires forall i :: 0 <= i < |disk.logs| ==> disk.logs[i].number < newLog
    requires MaxOf(last, ManifestLast(disk.manifest).value, Live(disk.logs, logNumber))
    requires Edited(v, v', RecoveryEdit(files, newLog, next, last))
    ensures last <= bound
    ensures Valid(Opened(disk.logs, v, v', files, newLog, next, last), history, horizon)
  {
    var edit := RecoveryEdit(files, newLog, next, last);
    RecoveredInv(v, v', files, first, newLog, edit);
    RecoveredNumbers(v, v', files, first, newLog, edit);
    RecoveredEntries(v, v', files, edit);
    RecoveredLast(disk, v, v', logNumber, history, horizon, bound, last);
    NewManifestOk(v, v', files, first, newLog, next, last);
    OpenedLogs(disk, v, v', files, newLog, next, last);
    AllInTables(Contents(v), Elements(Live(disk.logs, logNumber)), history, horizon, Contents(v'));
    OpenedMemory(disk, v, v', files, newLog, next, last);
  }

  /** Once everything that was in the logs is in tables, nothing is left in memory. */
  lemma AllInTables(tables: set<Entry>, live: set<Entry>, history: set<Entry>, horizon: nat, tables': set<Entry>)
    requires Settled(tables, live, history, horizon) && tables' == tables + live
    ensures Settled(tables', {}, history, horizon)
  {
    SettledMoved(tables, live, history, horizon, live, {});
  }

  lemma OpenedMemory(disk: Disk, v: Version, v': Version, files: seq<File>, newLog: nat, next: nat,
                     last: SequenceNumber)
    requires Inv(v') && NumbersBelow(v', newLog) && newLog <= next && AtMost(Contents(v'), last)
    ensures MemoryOk(Opened(disk.logs, v, v', files, newLog, next, last))
    ensures Opened(disk.logs, v, v', files, newLog, next, last).Young() == {}
    ensures Opened(disk.logs, v, v', files, newLog, next, last).All() == Contents(v')
  {
    var db := Opened(disk.logs, v, v', files, newLog, next, last);
    assert db.Young() == {};
  }

  const NEW_DB: VersionEdit := VersionEdit({}, [], Some(0), Some(2), Some(0))

  lemma {:induction false} NoFilesInv(v: Version)
    requires |v.levels| == NUM_LEVELS && forall l :: 0 <= l < NUM_LEVELS ==> v.levels[l] == []
    ensures Inv(v) && Contents(v) == {}
  {
    forall l | 0 <= l < NUM_LEVELS ensures FileEntries(v.levels[l]) == {} {}
    assert forall l, f :: 0 <= l < NUM_LEVELS ==> f !in v.levels[l];
    assert Recency(v);
    assert Searchable(v);
  }

  lemma NewManifestReplays()
    ensures Replays([NEW_DB], EMPTY)
  {
    EmptyIsListed();
    assert Edited(EMPTY, EMPTY, NEW_DB);
    ReplaysOneMore([], EMPTY, EMPTY, NEW_DB);
    assert [] + [NEW_DB] == [NEW_DB];
  }

  lemma {:induction false} NothingMentioned(v: Version)
    requires forall l :: 0 <= l < |v.levels| ==> v.levels[l] == []
    ensures NumbersBelow(v, 2) && MentionsBelow([NEW_DB], 2) && MentionsAbove([NEW_DB], v)
  {}

  lemma {:induction false} NewDbManifest()
    ensures ManifestOk([NEW_DB], EMPTY, 0)
  {
    EmptyIsListed();
    NoFilesInv(EMPTY);
    NothingMentioned(EMPTY);
    NewManifestReplays();
    assert ManifestLog([NEW_DB]) == Some(0) && ManifestNext([NEW_DB]) == Some(2) && ManifestLast([NEW_DB]) == Some(0);
  }

  /** A database just created by NewDB recovers to the empty history. */
  lemma {:induction false} NewDbRecoverable()
    ensures RecoverableAs(Disk([], [NEW_DB]), EMPTY, 0, {}, 0, 0)
  {
    EmptyIsListed();
    NoFilesInv(EMPTY);
    NewDbManifest();
    assert Live([], 0) == [];
    assert Contents(EMPTY) + Elements([]) == {};
  }
}
