/** Writing: log first, then the memtable, then publication; switching memtables; snapshots. */
module WriteSteps {
  import opened DbFormat
  import opened Versions
  import opened Steps
  import opened DbState

  // ---------- Memtable insertion ----------

  ghost predicate Absent(es: seq<Entry>, e: Entry) {
    forall x :: x in es ==> !(x.user == e.user && x.sn == e.sn)
  }

  /** MemTable::Add: the skip list keeps entries in internal key order. */
  function Insert(es: seq<Entry>, e: Entry): (r: seq<Entry>)
    requires Sorted(es) && Absent(es, e)
    ensures Sorted(r) && Elements(r) == Elements(es) + {e}
  {
    if es == [] || Ordered(e, es[0]) then
      assert forall x :: x in [e] + es <==> x == e || x in es;
      [e] + es
    else
      assert es[0] in es;
      var rest := Insert(es[1..], e);
      assert forall i :: 0 <= i < |rest| ==> rest[i] in Elements(rest);
      assert es == [es[0]] + es[1..];
      [es[0]] + rest
  }

  lemma InsertOneOfBatch(es: seq<Entry>, batch: seq<Entry>, r: seq<Entry>)
    requires batch != [] && Ascending(batch)
    requires forall x, y :: x in es && y in batch ==> x.sn < y.sn
    requires Elements(r) == Elements(es) + {batch[0]}
    ensures forall x, y :: x in r && y in batch[1..] ==> x.sn < y.sn
    ensures Elements(batch) == {batch[0]} + Elements(batch[1..])
  {
    assert batch == [batch[0]] + batch[1..];
    forall x, y | x in r && y in batch[1..] ensures x.sn < y.sn {
      assert x in Elements(r);
      assert y in batch;
    }
  }

  /** InsertInto: add the operations of a batch one by one. */
  function InsertAll(es: seq<Entry>, batch: seq<Entry>): (r: seq<Entry>)
    requires Sorted(es) && Ascending(batch)
    requires forall x, y :: x in es && y in batch ==> x.sn < y.sn
    ensures Sorted(r) && Elements(r) == Elements(es) + Elements(batch)
    decreases |batch|
  {
    if batch == [] then es
    else
      assert batch[0] in batch;
      var r := Insert(es, batch[0]);
      InsertOneOfBatch(es, batch, r);
      InsertAll(r, batch[1..])
  }

  // ---------- A batch reaches the log ----------

  function LogWrite(db: Db, batch: seq<Entry>): Db
    requires db.disk.logs != []
  {
    db.(pending := batch, disk := db.disk.(logs := Appended(db.disk.logs, batch)))
  }

  lemma NumberedBatch(batch: seq<Entry>, first: nat)
    requires Numbered(batch, first)
    ensures Ascending(batch) && SeqUnique(Elements(batch))
    ensures forall e :: e in batch ==> first <= e.sn < first + |batch|
  {}

  lemma ConcatAscending(a: seq<Entry>, b: seq<Entry>)
    requires Ascending(a) && Ascending(b) && forall x, y :: x in a && y in b ==> x.sn < y.sn
    ensures Ascending(a + b)
  {
    forall i, j | 0 <= i < j < |a + b| ensures (a + b)[i].sn < (a + b)[j].sn {
      if i < |a| <= j { assert a[i] in a && b[j - |a|] in b; }
    }
  }

  lemma HistoryBound(db: Db, history: set<Entry>, horizon: nat, e: Entry)
    requires MemoryOk(db) && DiskOk(db, history, horizon) && e in history
    ensures e.sn <= db.lastSequence + |db.pending|
  {
    if e in db.Young() { YoungBound(db, e); }
  }

  lemma {:induction false} LogWriteLogs(db: Db, batch: seq<Entry>)
    requires LogsHold(db) && db.pending == [] && AtMost(db.Young(), db.lastSequence)
    requires Numbered(batch, db.lastSequence + 1)
    ensures LogsHold(LogWrite(db, batch))
  {
    var db' := LogWrite(db, batch);
    var logs, bound: nat := db.disk.logs, db.lastSequence;
    NumberedBatch(batch, bound + 1);
    LiveWithin(logs, db.logNumber, db.Young(), bound);
    AppendedOk(logs, batch, db.logNumber, bound);
    LiveAppended(logs, batch, db.logfileNumber);
    ElementsConcat(Live(logs, db.logfileNumber), batch);
    assert db'.Young() == db.Young() + Elements(batch);
  }

  lemma {:induction false} LiveWithin(logs: seq<LogFile>, from: nat, young: set<Entry>, bound: nat)
    requires Elements(Live(logs, from)) == young && AtMost(young, bound)
    ensures forall x :: x in Live(logs, from) ==> x.sn <= bound
  {
    forall x | x in Live(logs, from) ensures x.sn <= bound { assert x in Elements(Live(logs, from)); }
  }

  lemma {:induction false} AppendedOk(logs: seq<LogFile>, batch: seq<Entry>, from: nat, bound: nat)
    requires logs != [] && from <= logs[|logs| - 1].number && LogsOk(logs, from) && Ascending(batch)
    requires (forall x :: x in Live(logs, from) ==> x.sn <= bound) && forall y :: y in batch ==> bound < y.sn
    ensures LogsOk(Appended(logs, batch), from)
    ensures Elements(Live(Appended(logs, batch), from)) == Elements(Live(logs, from)) + Elements(batch)
  {
    LiveAppended(logs, batch, from);
    ConcatAscending(Live(logs, from), batch);
    ElementsConcat(Live(logs, from), batch);
  }

  lemma ElementsConcat(a: seq<Entry>, b: seq<Entry>)
    ensures Elements(a + b) == Elements(a) + Elements(b)
  {}

  /** From the moment a batch is in the log it is part of the history, though still invisible. */
  lemma {:induction false} LogWriteValid(db: Db, history: set<Entry>, horizon: nat, batch: seq<Entry>)
    requires Valid(db, history, horizon) && db.pending == []
    requires Numbered(batch, db.lastSequence + 1) && db.lastSequence + |batch| < MAX_SEQUENCE
    ensures Valid(LogWrite(db, batch), history + Elements(batch), horizon)
  {
    var db' := LogWrite(db, batch);
    NumberedBatch(batch, db.lastSequence + 1);
    forall e | e in db.Young() ensures e.sn <= db.lastSequence { YoungBound(db, e); }
    LogWriteLogs(db, batch);
    forall a, b | a in history && b in Elements(batch) ensures a.sn < b.sn {
      HistoryBound(db, history, horizon, a);
    }
    SettledMore(Contents(db.version), db.Young(), history, horizon, Elements(batch));
    assert db'.Young() == db.Young() + Elements(batch);
    assert DiskOk(db', history + Elements(batch), horizon);
  }

  // ---------- The batch is applied and published ----------

  ghost predicate CanApply(db: Db) {
    && Sorted(db.mem) && Numbered(db.pending, db.lastSequence + 1)
    && (forall e :: e in db.mem ==> e.sn <= db.lastSequence) && db.lastSequence + |db.pending| < MAX_SEQUENCE
  }

  function Publish(db: Db): Db
    requires CanApply(db)
  {
    NumberedBatch(db.pending, db.lastSequence + 1);
    db.(mem := InsertAll(db.mem, db.pending), pending := [], lastSequence := db.lastSequence + |db.pending|)
  }

  lemma ValidCanApply(db: Db, history: set<Entry>, horizon: nat)
    requires MemoryOk(db) && SnapshotsOk(db, horizon)
    ensures CanApply(db)
  {
    forall e | e in db.mem ensures e.sn <= db.lastSequence { assert e in Elements(db.mem); }
  }

  lemma {:induction false} PublishMemory(db: Db)
    requires MemoryOk(db) && CanApply(db)
    ensures MemoryOk(Publish(db))
    ensures Publish(db).Young() == db.Young()
    ensures Elements(Publish(db).mem) == Elements(db.mem) + Elements(db.pending)
  {
    var db' := Publish(db);
    NumberedBatch(db.pending, db.lastSequence + 1);
    forall a, b | a in Elements(db'.mem) && b in Elements(db.ImmEntries()) + Contents(db.version) && a.user == b.user
      ensures a.sn > b.sn
    {
      if a in Elements(db.pending) { assert b.sn <= db.lastSequence; }
    }
  }

  /** Publication changes what new readers may see, and nothing that is stored. */
  lemma PublishValid(db: Db, history: set<Entry>, horizon: nat)
    requires Valid(db, history, horizon)
    ensures CanApply(db) && Valid(Publish(db), history, horizon)
  {
    ValidCanApply(db, history, horizon);
    PublishMemory(db);
    var db' := Publish(db);
    assert LogsHold(db');
    assert DiskOk(db', history, horizon);
    assert db'.All() == db.All();
  }

  // ---------- MakeRoomForWrite switches to a new memtable and log ----------

  function SwitchMemTable(db: Db): Db {
    db.(mem := [], imm := Some(db.mem), logfileNumber := db.nextFile, nextFile := db.nextFile + 1,
        disk := db.disk.(logs := db.disk.logs + [LogFile(db.nextFile, [])]))
  }

  lemma {:induction false} SwitchLogs(db: Db)
    requires LogsHold(db) && db.imm == None && db.pending == []
    ensures LogsHold(SwitchMemTable(db))
  {
    var db' := SwitchMemTable(db);
    NewLogOk(db.disk.logs, db.nextFile, db.logNumber, db'.disk.logs);
    assert db'.Young() == db.Young();
  }

  lemma {:induction false} NewLogOk(logs: seq<LogFile>, number: nat, from: nat, logs': seq<LogFile>)
    requires LogsOk(logs, from) && logs != [] && logs[|logs| - 1].number < number
      && logs' == logs + [LogFile(number, [])]
    ensures LogsOk(logs', from) && Live(logs', from) == Live(logs, from) && Live(logs', number) == []
  {
    LiveNewLog(logs, number, from);
    LiveNewLog(logs, number, number);
    forall i | 0 <= i < |logs| ensures logs[i].number < number {}
    NothingLive(logs, number);
  }

  lemma SwitchValid(db: Db, history: set<Entry>, horizon: nat)
    requires Valid(db, history, horizon) && db.imm == None && db.pending == []
    ensures Valid(SwitchMemTable(db), history, horizon)
  {
    SwitchLogs(db);
    var db' := SwitchMemTable(db);
    assert db'.Young() == db.Young();
    assert db'.All() == db.All();
    assert MemoryOk(db');
    assert DiskOk(db', history, horizon);
  }

  // ---------- DeleteObsoleteFiles ----------

  function DeleteObsolete(db: Db): Db {
    db.(disk := db.disk.(logs := Keep(db.disk.logs, db.logNumber)))
  }

  lemma {:induction false} DeleteObsoleteValid(db: Db, history: set<Entry>, horizon: nat)
    requires Valid(db, history, horizon)
    ensures Valid(DeleteObsolete(db), history, horizon)
  {
    DeleteObsoleteLogs(db);
    var db' := DeleteObsolete(db);
    assert MemoryOk(db') && DiskOk(db', history, horizon);
  }

  lemma DeleteObsoleteLogs(db: Db)
    requires LogsHold(db)
    ensures LogsHold(DeleteObsolete(db))
  {
    KeepIsLive(db.disk.logs, db.logNumber, db.logNumber);
    KeepIsLive(db.disk.logs, db.logNumber, db.logfileNumber);
    KeepIsOrdered(db.disk.logs, db.logNumber);
    KeepsNewest(db.disk.logs, db.logNumber);
    assert DeleteObsolete(db).Young() == db.Young();
  }

  // ---------- Snapshots ----------

  /** SnapshotList::New at the newest end. */
  function TakeSnapshot(db: Db): Db { db.(snapshots := db.snapshots + [db.lastSequence]) }

  function DropSnapshot(db: Db, i: nat): Db
    requires i < |db.snapshots|
  {
    db.(snapshots := db.snapshots[..i] + db.snapshots[i + 1..])
  }

  /** Only the snapshot bounds depend on the snapshot list. */
  lemma SnapshotChangeValid(db: Db, snapshots: seq<SequenceNumber>, history: set<Entry>, horizon: nat)
    requires Valid(db, history, horizon) && SnapshotsIn(snapshots, horizon, db.lastSequence)
    ensures Valid(db.(snapshots := snapshots), history, horizon)
  {
    var db' := db.(snapshots := snapshots);
    assert db'.Young() == db.Young();
    assert MemoryOk(db') && LogsHold(db');
  }

  lemma TakeSnapshotValid(db: Db, history: set<Entry>, horizon: nat)
    requires Valid(db, history, horizon)
    ensures Valid(TakeSnapshot(db), history, horizon)
  {
    SnapshotChangeValid(db, db.snapshots + [db.lastSequence], history, horizon);
  }

  lemma DropSnapshotValid(db: Db, i: nat, history: set<Entry>, horizon: nat)
    requires Valid(db, history, horizon) && i < |db.snapshots|
    ensures Valid(DropSnapshot(db, i), history, horizon)
  {
    SnapshotChangeValid(db, db.snapshots[..i] + db.snapshots[i + 1..], history, horizon);
  }
}
