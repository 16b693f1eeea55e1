/** DBImpl: the open database as an object. Every method keeps `Valid()`, so every run of methods,
    with crashes and reopenings anywhere between them, keeps agreeing with the write history. */
module DbImpl {
  import opened DbFormat
  import opened Versions
  import opened Overlaps
  import opened Steps
  import opened Compactions
  import opened Interleaving
  import opened Manifest
  import opened Iterators
  import opened DbState
  import opened WriteSteps
  import opened TableSteps
  import opened Recovery

  /** A deletion stores no value. */
  function Stored(op: Update): Value { if op.kind.Put? then op.value else "" }

  /** The entries of a batch whose first operation gets sequence number `first`. */
  ghost predicate Assigned(ops: seq<Update>, first: nat, batch: seq<Entry>) {
    && |batch| == |ops| && Numbered(batch, first)
    && forall i :: 0 <= i < |ops| ==>
      batch[i].user == ops[i].user && batch[i].kind == ops[i].kind && batch[i].value == Stored(ops[i])
  }

  /** MemTableInserter: consecutive sequence numbers in batch order. */
  method AssignSequence(ops: seq<Update>, first: nat) returns (batch: seq<Entry>)
    requires first + |ops| <= MAX_SEQUENCE + 1
    ensures Assigned(ops, first, batch)
  {
    batch := [];
    var sequence := first;
    for i := 0 to |ops|
      invariant sequence == first + i && Assigned(ops[..i], first, batch)
    {
      batch := batch + [Entry(ops[i].user, sequence, ops[i].kind, Stored(ops[i]))];
      sequence := sequence + 1;
    }
    assert ops[..|ops|] == ops;
  }

  // ---------- The steps that do real work, on the state as a value ----------

  /** DB::Open on whatever a crash left behind: the same history is there again. */
  method OpenDisk(disk: Disk, full: seq<Entry> -> bool, size: nat, ghost v: Version, ghost n: nat,
                  ghost history: set<Entry>, ghost horizon: nat, ghost bound: nat) returns (db: Db)
    requires RecoverableAs(disk, v, n, history, horizon, bound)
    ensures DbState.Valid(db, history, horizon) && db.lastSequence <= bound
    ensures StartsAfresh(db)
  {
    var base := RecoverVersion(disk.manifest, v);
    db := OpenWith(disk.logs, disk.manifest, base, ManifestLog(disk.manifest).value, ManifestNext(disk.manifest).value,
                   ManifestLast(disk.manifest).value, full, size, history, horizon, bound);
  }

  /** DB::Open once the manifest has been read: the logs it still needs are replayed. */
  method OpenWith(logs: seq<LogFile>, ghost manifest: seq<VersionEdit>, base: Version, minLog: nat, manifestNext: nat,
                  manifestLast: nat, full: seq<Entry> -> bool, size: nat, ghost history: set<Entry>, ghost horizon: nat,
                  ghost bound: nat) returns (db: Db)
    requires RecoverableAs(Disk(logs, manifest), base, minLog, history, horizon, bound)
    requires ManifestNext(manifest) == Some(manifestNext) && ManifestLast(manifest) == Some(manifestLast)
    ensures DbState.Valid(db, history, horizon) && db.lastSequence <= bound
    ensures StartsAfresh(db)
  {
    var first := manifestNext + 1;
    var files, next, last := RecoverLogs(logs, minLog, first, manifestLast, full, size);
    db := InstallRecovered(logs, manifest, base, minLog, files, first, next, last, history, horizon, bound);
  }

  ghost predicate Logged(db: Db, ops: seq<Update>, db': Db, batch: seq<Entry>) {
    Assigned(ops, db.lastSequence + 1, batch) && db.disk.logs != [] && db' == LogWrite(db, batch)
  }

  /** Number a batch and append it to the log. */
  method LogUpdates(db: Db, ops: seq<Update>, ghost history: set<Entry>, ghost horizon: nat)
    returns (db': Db, ghost batch: seq<Entry>)
    requires DbState.Valid(db, history, horizon) && db.pending == [] && db.lastSequence + |ops| < MAX_SEQUENCE
    ensures Logged(db, ops, db', batch)
    ensures DbState.Valid(db', history + Elements(batch), horizon)
  {
    var entries := AssignSequence(ops, db.lastSequence + 1);
    LogWriteValid(db, history, horizon, entries);
    db', batch := LogWrite(db, entries), entries;
  }

  method InstallRecovered(logs: seq<LogFile>, ghost manifest: seq<VersionEdit>, base: Version, minLog: nat,
                          files: seq<File>, first: nat, newLog: nat, last: nat, ghost history: set<Entry>,
                          ghost horizon: nat, ghost bound: nat) returns (db: Db)
    requires RecoverableAs(Disk(logs, manifest), base, minLog, history, horizon, bound)
    requires first == ManifestNext(manifest).value + 1
    requires first <= newLog && TablesInOrder(files, first, newLog)
    requires FileEntries(files) == Elements(Live(logs, minLog))
    requires forall i :: 0 <= i < |logs| ==> logs[i].number < newLog
    requires MaxOf(last, ManifestLast(manifest).value, Live(logs, minLog))
    ensures DbState.Valid(db, history, horizon) && db.lastSequence <= bound
    ensures StartsAfresh(db)
  {
    var next := newLog + 1;
    var edit := RecoveryEdit(files, newLog, next, last);
    RecoveredFilesFree(base, files, first, newLog);
    var v' := ApplyEdit(base, edit);
    ghost var disk := Disk(logs, manifest);
    OpenedValid(disk, base, v', minLog, history, horizon, bound, files, first, newLog, next, last);
    db := Opened(logs, base, v', files, newLog, next, last);
    OpenedAfresh(logs, base, v', files, newLog, next, last);
  }

  /** The level of a flushed memtable: as deep as nothing stands in its way. */
  ghost predicate FlushLevel(db: Db, level: nat)
    requires db.imm.Some? && |db.version.levels| == NUM_LEVELS
  {
    && LevelIsClear(db, level) && level <= MAX_MEM_COMPACT_LEVEL
    && (db.imm.value != [] && level < MAX_MEM_COMPACT_LEVEL ==>
          StopsAt(db.version, level, db.imm.value[0].user, db.imm.value[|db.imm.value| - 1].user))
    && (db.imm.value != [] ==>
          LittleThrough(db.version, level, db.imm.value[0].user, db.imm.value[|db.imm.value| - 1].user))
  }

  /** The new version is the old one with the memtable's table at such a level. */
  ghost predicate FlushedInto(db: Db, v': Version, size: nat) {
    && db.imm.Some? && Sorted(db.imm.value) && |db.version.levels| == NUM_LEVELS
    && exists level: nat :: FlushLevel(db, level) && Edited(db.version, v', FlushEdit(db, level, size))
  }

  /** CompactMemTable: write the immutable memtable as a table at the picked level. */
  method FlushMemTable(db: Db, size: nat, ghost history: set<Entry>, ghost horizon: nat, ghost running: Option<Running>,
                       ghost planned: Version) returns (db': Db)
    requires DbState.Valid(db, history, horizon) && db.imm.Some? && CompactionOk(running, planned, db, horizon)
    ensures DbState.Valid(db', history, horizon) && CompactionOk(running, planned, db', horizon)
    ensures db'.imm == None && db'.mem == db.mem && db'.pending == db.pending
    ensures db'.lastSequence == db.lastSequence && db'.snapshots == db.snapshots && db'.disk.logs == db.disk.logs
    ensures FlushedInto(db, db'.version, size) && db'.logNumber == db'.logfileNumber == db.logfileNumber
  {
    var level := PickLevel(db);
    ghost var v';
    db', v' := FlushTo(db, level, size, history, horizon, running, planned);
  }

  method PickLevel(db: Db) returns (level: nat)
    requires MemoryOk(db) && db.imm.Some?
    ensures FlushLevel(db, level)
  {
    level := 0;
    if db.imm.value != [] {
      level := PickLevelForMemTableOutput(db.version, db.imm.value[0].user, db.imm.value[|db.imm.value| - 1].user);
    }
  }

  method FlushTo(db: Db, level: nat, size: nat, ghost history: set<Entry>, ghost horizon: nat,
                 ghost running: Option<Running>, ghost planned: Version) returns (db': Db, ghost v': Version)
    requires DbState.Valid(db, history, horizon) && db.imm.Some? && LevelIsClear(db, level)
    requires CompactionOk(running, planned, db, horizon)
    ensures db' == Flushed(db, v', FlushEdit(db, level, size)) && Edited(db.version, v', FlushEdit(db, level, size))
    ensures DbState.Valid(db', history, horizon) && CompactionOk(running, planned, db', horizon)
  {
    var flushed := ApplyFlush(db, level, size);
    v' := flushed;
    FlushValid(db, history, horizon, v', level, size);
    CompactionThroughFlush(running, planned, db, horizon, v', level, size);
    db' := Flushed(db, flushed, FlushEdit(db, level, size));
  }

  method ApplyFlush(db: Db, level: nat, size: nat) returns (v': Version)
    requires Listed(db.version) && NumbersBelow(db.version, db.nextFile) && db.imm.Some? && Sorted(db.imm.value)
    requires level < NUM_LEVELS
    ensures Edited(db.version, v', FlushEdit(db, level, size))
  {
    var edit := FlushEdit(db, level, size);
    FlushFilesFree(db.version, edit, db.nextFile);
    v' := ApplyEdit(db.version, edit);
  }

  /** The compaction of these inputs, now, will not be noticed by any reader. */
  predicate SafeToCompact(db: Db, level: nat, inputs0: seq<File>, inputs1: seq<File>)
    requires Inv(db.version) && Selected(db.version, level, inputs0, inputs1)
  {
    var input := CompactionInput(db.version, level, inputs0, inputs1);
    Harmless(db.version, level, inputs0, inputs1, input, SmallestSnapshot(db))
  }

  /** `r` is the compaction of these inputs as it starts from this state. */
  ghost predicate Starts(db: Db, level: nat, inputs0: seq<File>, inputs1: seq<File>, manual: bool, stop: nat -> bool,
                         fileSize: nat -> nat, r: Running) {
    && r.base == db.version && r.level == level && r.inputs0 == inputs0 && r.inputs1 == inputs1
    && r.manual == manual && r.snapshot == SmallestSnapshot(db) && OldestRead(db, r.snapshot) && r.first == db.nextFile
    && Sorted(r.input) && Elements(r.input) == FileEntries(inputs0) + FileEntries(inputs1)
    && Compacts(db, level, r.input, stop, fileSize, r.outputs)
  }

  /** The outputs are what the compaction loop makes of the input. */
  ghost predicate Compacts(db: Db, level: nat, input: seq<Entry>, stop: nat -> bool, fileSize: nat -> nat,
                           outputs: seq<File>) {
    && Outputs(outputs, db.nextFile, Survivors(db.version, level, input, |input|, SmallestSnapshot(db)))
    && CutAsTold(outputs, input, Kept(db.version, level, input, SmallestSnapshot(db)), stop, fileSize)
    && SmallestSnapshot(db) < MAX_SEQUENCE
    && forall e :: e in FileEntries(outputs) <==>
      e in Elements(input) && Stays(db.version, level, Elements(input), e, SmallestSnapshot(db))
  }

  /** The first half of a background compaction: merge, drop and cut, under file numbers of its own. */
  method StartCompaction(db: Db, level: nat, inputs0: seq<File>, inputs1: seq<File>, stop: nat -> bool,
                         fileSize: nat -> nat, manual: bool, ghost history: set<Entry>, ghost horizon: nat)
    returns (r: Running, ghost planned: Version)
    requires DbState.Valid(db, history, horizon) && Selected(db.version, level, inputs0, inputs1)
    requires !manual ==> Solid(inputs0 + inputs1)
    requires SafeToCompact(db, level, inputs0, inputs1)
    ensures CompactionOk(Some(r), planned, db.(nextFile := r.From()), horizon) && db.nextFile <= r.From()
    ensures Starts(db, level, inputs0, inputs1, manual, stop, fileSize, r)
  {
    var input := CompactionInput(db.version, level, inputs0, inputs1);
    SnapshotBounds(db, horizon);
    var outputs, next := CompactEntries(db, level, input, stop, fileSize);
    r := Running(db.version, level, inputs0, inputs1, input, SmallestSnapshot(db), db.nextFile, outputs,
                 manual);
    planned := PlanExists(db.version, level, inputs0, inputs1, db.nextFile, outputs);
    RunningStarts(r, planned, db, history, horizon);
  }

  method CompactEntries(db: Db, level: nat, input: seq<Entry>, stop: nat -> bool, fileSize: nat -> nat)
    returns (outputs: seq<File>, next: nat)
    requires Listed(db.version) && Sorted(input) && SmallestSnapshot(db) < MAX_SEQUENCE
    ensures Compacts(db, level, input, stop, fileSize, outputs) && next == db.nextFile + |outputs|
  {
    var c := new Compaction(level, db.version);
    outputs, next := DoCompactionWork(c, input, SmallestSnapshot(db), db.nextFile, stop, fileSize);
  }

  method BuildCompacted(db: Db, level: nat, inputs0: seq<File>, inputs1: seq<File>, outputs: seq<File>, first: nat,
                        next: nat)
    returns (v': Version)
    requires Listed(db.version) && Present(db.version, level, inputs0, inputs1)
    requires NewOutputs(db.version, inputs1, outputs, first)
    ensures Edited(db.version, v', CompactEdit(db, level, inputs0, inputs1, outputs, next))
  {
    var edit := CompactEdit(db, level, inputs0, inputs1, outputs, next);
    CompactFilesFree(db.version, level, inputs1, outputs, first, edit);
    CompactEditOk(db, level, inputs0, inputs1, outputs, first, next);
    v' := ApplyEdit(db.version, edit);
  }

  /** Only the tables, the file numbers and the manifest may differ. */
  ghost predicate SameMemory(db: Db, db': Db) {
    && db'.mem == db.mem && db'.imm == db.imm && db'.pending == db.pending && db'.snapshots == db.snapshots
    && db'.lastSequence == db.lastSequence && db'.disk.logs == db.disk.logs
  }

  /** The new version is the old one with the inputs replaced by the outputs. */
  ghost predicate HasInstalled(db: Db, r: Running, v': Version) {
    Edited(db.version, v', CompactEdit(db, r.level, r.inputs0, r.inputs1, r.outputs, db.nextFile))
  }

  /** The second half: InstallCompactionResults, on whatever the version has grown to. */
  method FinishCompaction(db: Db, r: Running, ghost planned: Version, ghost history: set<Entry>, ghost horizon: nat)
    returns (db': Db)
    requires DbState.Valid(db, history, horizon) && RunningOk(r, planned, db, horizon)
    requires ClearOfFlushed(r.base, db.version, r.level, r.outputs)
    ensures DbState.Valid(db', history, r.snapshot)
    ensures SameMemory(db, db')
    ensures HasInstalled(db, r, db'.version)
  {
    RunningPresent(r, planned, db, horizon);
    var edit := CompactEdit(db, r.level, r.inputs0, r.inputs1, r.outputs, db.nextFile);
    var v' := BuildCompacted(db, r.level, r.inputs0, r.inputs1, r.outputs, r.first, db.nextFile);
    FinishValid(r, planned, db, history, horizon, v');
    db' := Installed(db, v', edit, db.nextFile);
  }

  /** A trivial move of one selected file to the next level. */
  method MoveFile(db: Db, level: nat, f: File, ghost history: set<Entry>, ghost horizon: nat) returns (db': Db)
    requires DbState.Valid(db, history, horizon) && Selected(db.version, level, [f], [])
    requires MoreRecent(Unchosen(db.version.levels[level], [f]), FileEntries([f]))
    ensures DbState.Valid(db', history, horizon)
    ensures SameMemory(db, db')
    ensures Edited(db.version, db'.version, MoveEdit(db, level, f))
  {
    var edit := MoveEdit(db, level, f);
    MoveEditFits(db, level, f);
    MoveFileFree(db.version, level, f);
    var v' := ApplyEdit(db.version, edit);
    MoveValid(db, history, horizon, v', level, f);
    db' := Installed(db, v', edit, db.nextFile);
  }

  lemma MoveFileFree(v: Version, level: nat, f: File)
    requires UniqueNumbers(v) && |v.levels| == NUM_LEVELS && level + 1 < NUM_LEVELS && f in v.levels[level]
    ensures NumberFree(f.number, v.levels[level + 1])
  {}

  /** DBImpl::Get: memtable, immutable memtable, then the tables. */
  method Lookup(db: Db, k: UserKey, s: SequenceNumber, ghost history: set<Entry>) returns (r: Option<Value>)
    requires MemoryOk(db) && db.All() <= history && SeqUnique(history) && s <= db.lastSequence
    ensures r == Read(db.All(), k, s)
  {
    TableGetFinds(db.mem, k, s);
    var e := TableGet(db.mem, k, s);
    if e.Some? {
      FoundInMem(db, k, s, e.value, history);
      return Answer(e.value);
    }
    TableGetFinds(db.ImmEntries(), k, s);
    if db.imm.Some? {
      e := TableGet(db.imm.value, k, s);
      if e.Some? {
        FoundInImm(db, k, s, e.value, history);
        return Answer(e.value);
      }
    }
    r := Versions.Get(db.version, k, s);
    NotInMemory(db, k, s, history);
  }

  // ---------- The open database ----------

  class DBImpl {
    var db: Db
    /** Every entry ever logged, and the snapshot below which nobody may read any more. */
    ghost var history: set<Entry>
    ghost var horizon: nat
    /** The compaction under way, and the version it would have made at once. */
    var running: Option<Running>
    ghost var planned: Version

    ghost predicate Valid()
      reads this
    {
      DbState.Valid(db, history, horizon) && CompactionOk(running, planned, db, horizon)
    }

    constructor Open(disk: Disk, full: seq<Entry> -> bool, size: nat, ghost history0: set<Entry>, ghost horizon0: nat,
                     ghost bound: nat)
      requires Recoverable(disk, history0, horizon0, bound)
      ensures Valid() && history == history0 && horizon == horizon0 && db.lastSequence <= bound
      ensures StartsAfresh(db) && running == None
    {
      ghost var v, n :| RecoverableAs(disk, v, n, history0, horizon0, bound);
      var recovered := OpenDisk(disk, full, size, v, n, history0, horizon0, bound);
      db, history, horizon := recovered, history0, horizon0;
      running, planned := None, EMPTY;
    }

    /** Whatever state the process dies in, Open's precondition holds of its disk. */
    lemma CrashSafe(bound: nat)
      requires Valid() && bound == db.lastSequence + |db.pending|
      ensures Recoverable(db.disk, history, horizon, bound)
    {
      ValidIsRecoverable(db, history, horizon, bound);
    }

    /** Write, first half: the group's updates get the next sequence numbers and go to the log. */
    method LogBatch(ops: seq<Update>) returns (ghost batch: seq<Entry>)
      requires Valid() && db.pending == [] && db.lastSequence + |ops| < MAX_SEQUENCE
      modifies this`db, this`history
      ensures Valid() && Logged(old(db), ops, db, batch) && history == old(history) + Elements(batch)
    {
      var next;
      next, batch := LogUpdates(db, ops, history, horizon);
      CompactionStays(running, planned, db, next, horizon);
      Logs(next, history + Elements(batch));
    }

    method Logs(next: Db, ghost history': set<Entry>)
      requires DbState.Valid(next, history', horizon) && CompactionOk(running, planned, next, horizon)
      modifies this`db, this`history
      ensures Valid() && db == next && history == history'
    {
      db, history := next, history';
    }

    /** Write, second half: insert into the memtable and publish the new last sequence. */
    method PublishBatch()
      requires Valid()
      modifies this`db
      ensures Valid() && CanApply(old(db)) && db == Publish(old(db))
    {
      PublishValid(db, history, horizon);
      CompactionStays(running, planned, db, Publish(db), horizon);
      db := Publish(db);
    }

    /** MakeRoomForWrite's last branch: a new log, and the memtable becomes immutable. */
    method MakeRoom()
      requires Valid() && db.imm == None && db.pending == []
      modifies this`db
      ensures Valid() && db == SwitchMemTable(old(db))
    {
      SwitchValid(db, history, horizon);
      CompactionStays(running, planned, db, SwitchMemTable(db), horizon);
      db := SwitchMemTable(db);
    }

    /** The flush may come while a compaction is under way. */
    method CompactMemTable(size: nat)
      requires Valid() && db.imm.Some?
      modifies this`db
      ensures Valid() && db.imm == None && db.mem == old(db).mem && db.pending == old(db).pending
      ensures db.lastSequence == old(db).lastSequence && db.snapshots == old(db).snapshots
      ensures db.disk.logs == old(db).disk.logs && FlushedInto(old(db), db.version, size)
      ensures db.logNumber == db.logfileNumber == old(db).logfileNumber
    {
      db := FlushMemTable(db, size, history, horizon, running, planned);
    }

    method DeleteObsoleteFiles()
      requires Valid()
      modifies this`db
      ensures Valid() && db == DeleteObsolete(old(db))
    {
      DeleteObsoleteValid(db, history, horizon);
      CompactionStays(running, planned, db, DeleteObsolete(db), horizon);
      db := DeleteObsolete(db);
    }

    method GetSnapshot() returns (s: SequenceNumber)
      requires Valid()
      modifies this`db
      ensures Valid() && s == db.lastSequence && db == TakeSnapshot(old(db))
    {
      TakeSnapshotValid(db, history, horizon);
      CompactionStays(running, planned, db, TakeSnapshot(db), horizon);
      s := db.lastSequence;
      db := TakeSnapshot(db);
    }

    method ReleaseSnapshot(i: nat)
      requires Valid() && i < |db.snapshots|
      modifies this`db
      ensures Valid() && db == DropSnapshot(old(db), i)
    {
      DropSnapshotValid(db, i, history, horizon);
      CompactionStays(running, planned, db, DropSnapshot(db, i), horizon);
      db := DropSnapshot(db, i);
    }

    /** A compaction goes under way: everything but its file numbers stays as it is. */
    method BeginCompaction(r: Running, ghost plan: Version)
      requires Valid() && running == None && db.nextFile <= r.From()
      requires CompactionOk(Some(r), plan, db.(nextFile := r.From()), horizon)
      modifies this`db, this`running, this`planned
      ensures Valid() && db == old(db).(nextFile := r.From()) && running == Some(r)
    {
      Reserve(r.From());
      Launch(r, plan);
    }

    method Launch(r: Running, ghost plan: Version)
      requires Valid() && CompactionOk(Some(r), plan, db, horizon)
      modifies this`running, this`planned
      ensures Valid() && running == Some(r)
    {
      running, planned := Some(r), plan;
    }

    method Reserve(next: nat)
      requires Valid() && running == None && db.nextFile <= next
      modifies this`db
      ensures Valid() && db == old(db).(nextFile := next)
    {
      ReserveValid(db, history, horizon, next);
      db := db.(nextFile := next);
    }

    /** Its outputs are installed, on top of whatever was flushed in the meantime. */
    method EndCompaction()
      requires Valid() && running.Some?
      requires ClearOfFlushed(running.value.base, db.version, running.value.level, running.value.outputs)
      modifies this`db, this`horizon, this`running
      ensures Valid() && running == None && old(horizon) <= horizon == old(running).value.snapshot
      ensures SameMemory(old(db), db) && HasInstalled(old(db), old(running).value, db.version)
    {
      var next := FinishCompaction(db, running.value, planned, history, horizon);
      Install(next, running.value.snapshot);
    }

    /** A new version, with everything in memory as it was. */
    method Install(next: Db, ghost horizon': nat)
      requires DbState.Valid(next, history, horizon')
      modifies this`db, this`horizon, this`running
      ensures Valid() && db == next && horizon == horizon' && running == None
    {
      db, horizon, running := next, horizon', None;
    }

    /** CleanupCompaction without installing. */
    method Abandon()
      requires Valid()
      modifies this`running
      ensures Valid() && running == None
    {
      running := None;
    }

    method TrivialMove(level: nat, f: File)
      requires Valid() && Selected(db.version, level, [f], []) && running == None
      requires MoreRecent(Unchosen(db.version.levels[level], [f]), FileEntries([f]))
      modifies this`db, this`horizon, this`running
      ensures Valid() && horizon == old(horizon) && running == None
      ensures SameMemory(old(db), db)
      ensures Edited(old(db).version, db.version, MoveEdit(old(db), level, f))
    {
      var next := MoveFile(db, level, f, history, horizon);
      Install(next, horizon);
    }

    /** Every live snapshot, and the latest state, reads the newest entry of the whole history. */
    method Get(k: UserKey, s: SequenceNumber) returns (r: Option<Value>)
      requires Valid() && (s == db.lastSequence || s in db.snapshots)
      ensures r == Read(history, k, s)
    {
      assert horizon <= s <= db.lastSequence;
      ValidReads(db, history, horizon);
      r := Lookup(db, k, s, history);
    }
  }

  // ---------- Reading through the layers ----------

  lemma MemoryReads(db: Db, k: UserKey, s: SequenceNumber)
    requires MemoryOk(db) && s <= db.lastSequence
    ensures NoneVisible(Elements(db.pending), k, s)
  {}

  lemma FoundInMem(db: Db, k: UserKey, s: SequenceNumber, e: Entry, history: set<Entry>)
    requires MemoryOk(db) && db.All() <= history && SeqUnique(history) && s <= db.lastSequence
    requires Newest(Elements(db.mem), k, s, e)
    ensures Read(db.All(), k, s) == Answer(e)
  {
    MemoryReads(db, k, s);
    assert Newest(db.All(), k, s, e);
    ReadIs(db.All(), k, s, e);
  }

  lemma FoundInImm(db: Db, k: UserKey, s: SequenceNumber, e: Entry, history: set<Entry>)
    requires MemoryOk(db) && db.All() <= history && SeqUnique(history) && s <= db.lastSequence
    requires NoneVisible(Elements(db.mem), k, s) && Newest(Elements(db.ImmEntries()), k, s, e)
    ensures Read(db.All(), k, s) == Answer(e)
  {
    MemoryReads(db, k, s);
    assert Newest(db.All(), k, s, e);
    ReadIs(db.All(), k, s, e);
  }

  lemma NotInMemory(db: Db, k: UserKey, s: SequenceNumber, history: set<Entry>)
    requires MemoryOk(db) && db.All() <= history && SeqUnique(history) && s <= db.lastSequence
    requires NoneVisible(Elements(db.mem), k, s) && NoneVisible(Elements(db.ImmEntries()), k, s)
    ensures Read(db.All(), k, s) == Read(Contents(db.version), k, s)
  {
    MemoryReads(db, k, s);
    assert db.All() == Contents(db.version) + db.Young();
    ReadIgnoresInvisible(Contents(db.version), db.Young(), k, s);
  }

  // ---------- The merged input of a compaction ----------

  function Runs(files: seq<File>): seq<seq<Entry>> {
    seq(|files|, i requires 0 <= i < |files| => files[i].entries)
  }

  /** MakeInputIterator: the sorted union of the input files. */
  function CompactionInput(v: Version, level: nat, inputs0: seq<File>, inputs1: seq<File>): (r: seq<Entry>)
    requires Inv(v) && Selected(v, level, inputs0, inputs1)
    ensures Sorted(r) && Elements(r) == FileEntries(inputs0) + FileEntries(inputs1)
  {
    InputsMergeable(v, level, inputs0, inputs1);
    var r := MergeAll(Runs(inputs0 + inputs1));
    MergedElements(inputs0, inputs1, r);
    r
  }

  lemma MergedElements(inputs0: seq<File>, inputs1: seq<File>, r: seq<Entry>)
    requires IsMerge(r, Runs(inputs0 + inputs1))
    ensures Elements(r) == FileEntries(inputs0) + FileEntries(inputs1)
  {
    var files := inputs0 + inputs1;
    var runs := Runs(files);
    forall e | e in Elements(r) ensures e in FileEntries(inputs0) + FileEntries(inputs1) {
      var j :| 0 <= j < |runs| && e in runs[j];
      assert files[j] in files;
    }
    forall e | e in FileEntries(inputs0) + FileEntries(inputs1) ensures e in r {
      var f :| (f in inputs0 || f in inputs1) && e in f.entries;
      assert f in files;
      var j :| 0 <= j < |files| && files[j] == f;
      assert e in runs[j];
    }
  }

  lemma InputsMergeable(v: Version, level: nat, inputs0: seq<File>, inputs1: seq<File>)
    requires Inv(v) && Selected(v, level, inputs0, inputs1)
    ensures Mergeable(Runs(inputs0 + inputs1))
  {
    var files := inputs0 + inputs1;
    var runs := Runs(files);
    forall i, j, a: Entry, b: Entry | 0 <= i < |runs| && 0 <= j < |runs| && a in runs[i] && b in runs[j]
      && a.user == b.user && a.sn == b.sn
      ensures i == j && a == b
    {
      var li, lj := LevelOf(v, level, inputs0, inputs1, i), LevelOf(v, level, inputs0, inputs1, j);
      assert a in FileEntries(v.levels[li]) && b in FileEntries(v.levels[lj]);
      PairUnique(v, li, lj, a, b);
      assert MoreRecent(FileEntries(v.levels[level]), FileEntries(v.levels[level + 1]));
      if li == lj {
        OneHolder(v, li, files[i], files[j], a);
        SameFileSamePlace(v, level, inputs0, inputs1, i, j);
      }
    }
  }

  ghost function LevelOf(v: Version, level: nat, inputs0: seq<File>, inputs1: seq<File>, i: nat): (l: nat)
    requires Selected(v, level, inputs0, inputs1) && i < |inputs0 + inputs1|
    ensures l < NUM_LEVELS && (inputs0 + inputs1)[i] in v.levels[l]
    ensures l == if i < |inputs0| then level else level + 1
  {
    if i < |inputs0| then
      assert inputs0[i] in inputs0;
      level
    else
      assert inputs1[i - |inputs0|] in inputs1;
      level + 1
  }

  lemma OneHolder(v: Version, l: nat, f: File, g: File, e: Entry)
    requires Inv(v) && l < NUM_LEVELS && f in v.levels[l] && g in v.levels[l] && e in f.entries && e in g.entries
    ensures f == g
  {
    if f != g {
      if l == 0 {
        if f.number > g.number { OlderFileOlder(v.levels[0], f, g, e, e); }
        else { OlderFileOlder(v.levels[0], g, f, e, e); }
      } else if Precedes(f, g) {
        PrecedesEntries(f, g, e, e);
      } else {
        PrecedesEntries(g, f, e, e);
      }
    }
  }

  lemma SameFileSamePlace(v: Version, level: nat, inputs0: seq<File>, inputs1: seq<File>, i: nat, j: nat)
    requires Selected(v, level, inputs0, inputs1) && i < |inputs0 + inputs1| && j < |inputs0 + inputs1|
    requires (inputs0 + inputs1)[i] == (inputs0 + inputs1)[j] && (i < |inputs0| <==> j < |inputs0|)
    ensures i == j
  {
    if i < |inputs0| {
      assert inputs0[i] == inputs0[j];
    } else {
      assert inputs1[i - |inputs0|] == inputs1[j - |inputs0|];
    }
  }

  // ---------- New file numbers are free ----------

  lemma RecoveredFilesFree(v: Version, files: seq<File>, first: nat, next: nat)
    requires |v.levels| == NUM_LEVELS && NumbersBelow(v, first) && TablesInOrder(files, first, next)
    ensures forall i :: 0 <= i < |files| ==> NumberFree(files[i].number, v.levels[0])
  {}

  lemma FlushFilesFree(v: Version, edit: VersionEdit, next: nat)
    requires |v.levels| == NUM_LEVELS && NumbersBelow(v, next) && LevelsOk(edit)
    requires forall i :: 0 <= i < |edit.added| ==> edit.added[i].1.number == next
    ensures forall i :: 0 <= i < |edit.added| ==> NumberFree(edit.added[i].1.number, v.levels[edit.added[i].0])
  {}

  lemma CompactFilesFree(v: Version, level: nat, inputs1: seq<File>, outputs: seq<File>, first: nat, edit: VersionEdit)
    requires |v.levels| == NUM_LEVELS && NewOutputs(v, inputs1, outputs, first) && level + 1 < NUM_LEVELS
    requires edit.added == Tagged(level + 1, outputs)
    ensures forall i :: 0 <= i < |edit.added| ==> NumberFree(edit.added[i].1.number, v.levels[edit.added[i].0])
  {}
}
