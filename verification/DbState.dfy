/** The state of an open database, in memory and on disk, and what every step keeps true of it. */
module DbState {
  import opened DbFormat
  import opened Versions
  import opened Overlaps
  import opened Steps
  import opened Manifest

  /** A write-ahead log: one record per write batch, in the order they were appended. */
  datatype LogFile = LogFile(number: nat, batches: seq<seq<Entry>>)

  /** What survives a crash: the log files, listed by number, and the current manifest. */
  datatype Disk = Disk(logs: seq<LogFile>, manifest: seq<VersionEdit>)

  /** DBImpl and its VersionSet. `pending` is a batch already logged but not yet published. */
  datatype Db = Db(mem: seq<Entry>, imm: Option<seq<Entry>>, pending: seq<Entry>, version: Version,
                   logfileNumber: nat, logNumber: nat, nextFile: nat, lastSequence: SequenceNumber,
                   snapshots: seq<SequenceNumber>, disk: Disk)
  {
    function ImmEntries(): seq<Entry> { if imm.Some? then imm.value else [] }
    /** The entries not yet in any table. */
    ghost function Young(): set<Entry> { Elements(mem) + Elements(ImmEntries()) + Elements(pending) }
    ghost function All(): set<Entry> { Young() + Contents(version) }
  }

  // ---------- Logs ----------

  function Concat(batches: seq<seq<Entry>>): seq<Entry> {
    if batches == [] then [] else Concat(batches[..|batches| - 1]) + batches[|batches| - 1]
  }

  /** Everything in the logs numbered `from` and above, in replay order. */
  function Live(logs: seq<LogFile>, from: nat): seq<Entry> {
    if logs == [] then []
    else
      var n := |logs| - 1;
      Live(logs[..n], from) + (if logs[n].number >= from then Concat(logs[n].batches) else [])
  }

  ghost predicate Ascending(es: seq<Entry>) { forall i, j :: 0 <= i < j < |es| ==> es[i].sn < es[j].sn }

  ghost predicate Numbered(es: seq<Entry>, first: nat) { forall i :: 0 <= i < |es| ==> es[i].sn == first + i }

  ghost predicate InNumberOrder(logs: seq<LogFile>) {
    forall i, j :: 0 <= i < j < |logs| ==> logs[i].number < logs[j].number
  }

  ghost predicate LogsOk(logs: seq<LogFile>, from: nat) {
    InNumberOrder(logs) && Ascending(Live(logs, from))
  }

  /** Appending one record to the newest log. */
  function Appended(logs: seq<LogFile>, batch: seq<Entry>): seq<LogFile>
    requires logs != []
  {
    var n := |logs| - 1;
    logs[..n] + [LogFile(logs[n].number, logs[n].batches + [batch])]
  }

  lemma LiveAppended(logs: seq<LogFile>, batch: seq<Entry>, from: nat)
    requires logs != [] && from <= logs[|logs| - 1].number
    ensures Live(Appended(logs, batch), from) == Live(logs, from) + batch
  {
    var n := |logs| - 1;
    var logs' := Appended(logs, batch);
    assert logs'[..n] == logs[..n];
    var bs := logs[n].batches;
    assert (bs + [batch])[..|bs|] == bs;
    assert Concat(bs + [batch]) == Concat(bs) + batch;
  }

  lemma LiveNewLog(logs: seq<LogFile>, number: nat, from: nat)
    ensures Live(logs + [LogFile(number, [])], from) == Live(logs, from)
  {
    assert (logs + [LogFile(number, [])])[..|logs|] == logs;
  }

  lemma {:induction false} NothingLive(logs: seq<LogFile>, from: nat)
    requires forall i :: 0 <= i < |logs| ==> logs[i].number < from
    ensures Live(logs, from) == []
  {
    if logs != [] { NothingLive(logs[..|logs| - 1], from); }
  }

  /** DeleteObsoleteFiles: logs below the log number go. */
  function Keep(logs: seq<LogFile>, from: nat): (r: seq<LogFile>)
    ensures forall f :: f in r <==> f in logs && f.number >= from
  {
    if logs == [] then []
    else
      var n := |logs| - 1;
      Keep(logs[..n], from) + (if logs[n].number >= from then [logs[n]] else [])
  }

  lemma {:induction false} KeepIsLive(logs: seq<LogFile>, from: nat, atLeast: nat)
    requires from <= atLeast
    ensures Live(Keep(logs, from), atLeast) == Live(logs, atLeast)
  {
    if logs != [] {
      var n := |logs| - 1;
      var init, f := logs[..n], logs[n];
      var k := Keep(init, from);
      KeepIsLive(init, from, atLeast);
      assert logs == init + [f];
      LiveSnoc(init, f, atLeast);
      LiveSnoc(k, f, atLeast);
      assert Keep(logs, from) == if f.number >= from then k + [f] else k + [];
      assert k + [] == k;
    }
  }

  lemma {:induction false} LiveSnoc(init: seq<LogFile>, f: LogFile, from: nat)
    ensures Live(init + [f], from) == Live(init, from) + if f.number >= from then Concat(f.batches) else []
  {
    assert (init + [f])[..|init|] == init;
  }

  lemma {:induction false} KeepIsOrdered(logs: seq<LogFile>, from: nat)
    requires InNumberOrder(logs)
    ensures InNumberOrder(Keep(logs, from))
  {
    if logs != [] {
      var n := |logs| - 1;
      var k := Keep(logs[..n], from);
      KeepIsOrdered(logs[..n], from);
      forall i | 0 <= i < |k| ensures k[i].number < logs[n].number {
        assert k[i] in k && k[i] in logs[..n];
      }
    }
  }

  lemma {:induction false} KeepsNewest(logs: seq<LogFile>, from: nat)
    requires logs != [] && logs[|logs| - 1].number >= from
    ensures Keep(logs, from) != [] && Keep(logs, from)[|Keep(logs, from)| - 1] == logs[|logs| - 1]
  {}

  // ---------- Manifest scalars ----------

  function ManifestLog(edits: seq<VersionEdit>): Option<nat> {
    if edits == [] then None
    else if edits[|edits| - 1].logNumber.Some? then edits[|edits| - 1].logNumber
    else ManifestLog(edits[..|edits| - 1])
  }

  function ManifestNext(edits: seq<VersionEdit>): Option<nat> {
    if edits == [] then None
    else if edits[|edits| - 1].nextFile.Some? then edits[|edits| - 1].nextFile
    else ManifestNext(edits[..|edits| - 1])
  }

  function ManifestLast(edits: seq<VersionEdit>): Option<nat> {
    if edits == [] then None
    else if edits[|edits| - 1].lastSequence.Some? then edits[|edits| - 1].lastSequence
    else ManifestLast(edits[..|edits| - 1])
  }

  ghost predicate MentionsBelow(edits: seq<VersionEdit>, n: nat) {
    forall i, j :: 0 <= i < |edits| && 0 <= j < |edits[i].added| ==> edits[i].added[j].1.number < n
  }

  /** Files only ever move down: no live file was once recorded at a deeper level. */
  ghost predicate MentionsAbove(edits: seq<VersionEdit>, v: Version) {
    forall i, j, l, f ::
      0 <= i < |edits| && 0 <= j < |edits[i].added| && 0 <= l < |v.levels| && f in v.levels[l]
      ==> edits[i].added[j].1.number == f.number ==> edits[i].added[j].0 <= l
  }

  ghost predicate ManifestOk(edits: seq<VersionEdit>, v: Version, logNumber: nat) {
    && Replays(edits, v)
    && ManifestLog(edits) == Some(logNumber) && ManifestNext(edits).Some? && ManifestLast(edits).Some?
    && logNumber < ManifestNext(edits).value
    && NumbersBelow(v, ManifestNext(edits).value) && MentionsBelow(edits, ManifestNext(edits).value)
    && MentionsAbove(edits, v)
    && AtMost(Contents(v), ManifestLast(edits).value)
  }

  // ---------- Agreement with the history of all writes ----------

  /** At every snapshot from `horizon` on, the stored entries read like the full history. */
  ghost predicate ReadsAgree(all: set<Entry>, history: set<Entry>, horizon: nat) {
    && all <= history && SeqUnique(history)
    && forall k, s: SequenceNumber :: s >= horizon ==> Read(all, k, s) == Read(history, k, s)
  }

  ghost predicate AllOlder(older: set<Entry>, newer: set<Entry>) {
    forall a, b :: a in older && b in newer ==> a.sn < b.sn
  }

  /** The tables read like the part of the history that has left memory, and what is still in memory is
      newer, key by key. */
  ghost predicate Settled(tables: set<Entry>, young: set<Entry>, history: set<Entry>, horizon: nat) {
    && SeqUnique(history) && young <= history && MoreRecent(young, history - young)
    && ReadsAgree(tables, history - young, horizon)
  }

  /** Tables and memory together read like the whole history. */
  lemma SettledReads(tables: set<Entry>, young: set<Entry>, history: set<Entry>, horizon: nat)
    requires Settled(tables, young, history, horizon)
    ensures ReadsAgree(young + tables, history, horizon)
  {
    var before := history - young;
    assert young + before == history;
    forall k, s: SequenceNumber | s >= horizon ensures Read(young + tables, k, s) == Read(history, k, s) {
      assert Read(tables, k, s) == Read(before, k, s);
      SameUnderMemory(young, tables, before, k, s);
    }
  }

  /** Whatever part of what was in memory survives, the tables go with the history that keeps that part. */
  lemma SettledFewer(tables: set<Entry>, young: set<Entry>, history: set<Entry>, horizon: nat, fewer: set<Entry>)
    requires Settled(tables, young, history, horizon) && fewer <= young
    ensures Settled(tables, fewer, (history - young) + fewer, horizon)
  {
    assert ((history - young) + fewer) - fewer == history - young;
  }

  lemma SettledMore(tables: set<Entry>, young: set<Entry>, history: set<Entry>, horizon: nat, more: set<Entry>)
    requires Settled(tables, young, history, horizon) && AllOlder(history, more) && SeqUnique(more)
    ensures Settled(tables, young + more, history + more, horizon)
  {
    assert (history + more) - (young + more) == history - young;
  }

  /** Entries move from memory into tables, the older ones first. */
  lemma SettledMoved(tables: set<Entry>, young: set<Entry>, history: set<Entry>, horizon: nat, moved: set<Entry>,
                     rest: set<Entry>)
    requires Settled(tables, young, history, horizon) && young == moved + rest && MoreRecent(rest, moved)
    ensures Settled(tables + moved, rest, history, horizon)
  {
    var before := history - young;
    assert history - rest == moved + before;
    assert moved + tables == tables + moved;
    forall k, s: SequenceNumber | s >= horizon ensures Read(tables + moved, k, s) == Read(history - rest, k, s) {
      assert Read(tables, k, s) == Read(before, k, s);
      SameUnderMemory(moved, tables, before, k, s);
    }
  }

  lemma SettledTables(tables: set<Entry>, young: set<Entry>, history: set<Entry>, horizon: nat, tables': set<Entry>,
                      horizon': nat)
    requires Settled(tables, young, history, horizon) && tables' <= tables && horizon <= horizon'
    requires forall k, s: SequenceNumber :: s >= horizon' ==> Read(tables', k, s) == Read(tables, k, s)
    ensures Settled(tables', young, history, horizon')
  {}

  // ---------- The invariant ----------

  ghost predicate AtMost(es: set<Entry>, n: nat) { forall e :: e in es ==> e.sn <= n }

  /** Every write is either covered by the manifest's sequence number or still in a live log. */
  ghost predicate Accounted(history: set<Entry>, last: nat, young: set<Entry>) {
    forall e :: e in history ==> e.sn <= last || e in young
  }

  ghost predicate SnapshotsIn(snapshots: seq<SequenceNumber>, horizon: nat, last: nat) {
    && (forall i :: 0 <= i < |snapshots| ==> horizon <= snapshots[i] <= last)
    && (forall i, j :: 0 <= i < j < |snapshots| ==> snapshots[i] <= snapshots[j])
  }

  ghost predicate MemoryOk(db: Db) {
    && Inv(db.version) && NumbersBelow(db.version, db.nextFile)
    && Sorted(db.mem) && Sorted(db.ImmEntries())
    && MoreRecent(Elements(db.mem), Elements(db.ImmEntries()) + Contents(db.version))
    && MoreRecent(Elements(db.ImmEntries()), Contents(db.version))
    && Numbered(db.pending, db.lastSequence + 1)
    && AtMost(Elements(db.mem) + Elements(db.ImmEntries()) + Contents(db.version), db.lastSequence)
  }

  ghost predicate SnapshotsOk(db: Db, horizon: nat) {
    && horizon <= db.lastSequence && db.lastSequence + |db.pending| < MAX_SEQUENCE
    && SnapshotsIn(db.snapshots, horizon, db.lastSequence)
  }

  ghost predicate LogsHold(db: Db) {
    && LogsOk(db.disk.logs, db.logNumber)
    && db.disk.logs != [] && db.disk.logs[|db.disk.logs| - 1].number == db.logfileNumber
    && db.logNumber <= db.logfileNumber < db.nextFile
    && Elements(Live(db.disk.logs, db.logNumber)) == db.Young()
    && Elements(Live(db.disk.logs, db.logfileNumber)) == Elements(db.mem) + Elements(db.pending)
  }

  ghost predicate DiskOk(db: Db, history: set<Entry>, horizon: nat) {
    && LogsHold(db)
    && ManifestOk(db.disk.manifest, db.version, db.logNumber)
    && ManifestNext(db.disk.manifest).value <= db.nextFile
    && horizon <= ManifestLast(db.disk.manifest).value <= db.lastSequence
    && Accounted(history, ManifestLast(db.disk.manifest).value, db.Young())
  }

  ghost predicate Valid(db: Db, history: set<Entry>, horizon: nat) {
    && MemoryOk(db) && SnapshotsOk(db, horizon)
    && Settled(Contents(db.version), db.Young(), history, horizon)
    && DiskOk(db, history, horizon)
  }

  /** A database just opened: nothing in memory, no snapshots, and an empty newest log. */
  ghost predicate StartsAfresh(db: Db) {
    && db.mem == [] && db.imm == None && db.pending == [] && db.snapshots == []
    && db.disk.logs != [] && db.disk.logs[|db.disk.logs| - 1].batches == []
  }

  // ---------- What a crash leaves behind ----------

  ghost predicate RecoverableAs(disk: Disk, v: Version, logNumber: nat, history: set<Entry>, horizon: nat, bound: nat) {
    var live := Live(disk.logs, logNumber);
    && ManifestOk(disk.manifest, v, logNumber) && Inv(v) && LogsOk(disk.logs, logNumber)
    && MoreRecent(Elements(live), Contents(v))
    && Settled(Contents(v), Elements(live), history, horizon)
    && horizon <= ManifestLast(disk.manifest).value <= bound < MAX_SEQUENCE
    && AtMost(Elements(live), bound)
    && Accounted(history, ManifestLast(disk.manifest).value, Elements(live))
  }

  /** The manifest's tables and the logs it still needs hold everything that was written, under
      sequence numbers up to `bound`. */
  ghost predicate Recoverable(disk: Disk, history: set<Entry>, horizon: nat, bound: nat) {
    exists v, logNumber :: RecoverableAs(disk, v, logNumber, history, horizon, bound)
  }

  /** Crash safety: whatever valid state the process dies in, its disk is recoverable. */
  lemma ValidIsRecoverable(db: Db, history: set<Entry>, horizon: nat, bound: nat)
    requires Valid(db, history, horizon) && bound == db.lastSequence + |db.pending|
    ensures RecoverableAs(db.disk, db.version, db.logNumber, history, horizon, bound)
    ensures Elements(Live(db.disk.logs, db.logNumber)) + Contents(db.version) == db.All()
  {
    var live := Live(db.disk.logs, db.logNumber);
    YoungIsMoreRecent(db);
    assert db.All() == Contents(db.version) + Elements(live);
    forall e | e in Elements(live) ensures e.sn <= bound {
      YoungBound(db, e);
    }
  }

  /** What a valid state stores reads like the whole history. */
  lemma ValidReads(db: Db, history: set<Entry>, horizon: nat)
    requires Valid(db, history, horizon)
    ensures ReadsAgree(db.All(), history, horizon)
  {
    SettledReads(Contents(db.version), db.Young(), history, horizon);
  }

  lemma YoungIsMoreRecent(db: Db)
    requires MemoryOk(db)
    ensures MoreRecent(db.Young(), Contents(db.version))
  {
    forall a, b | a in db.Young() && b in Contents(db.version) && a.user == b.user ensures a.sn > b.sn {
      if a in Elements(db.pending) {
        assert b.sn <= db.lastSequence;
      }
    }
  }

  lemma YoungBound(db: Db, e: Entry)
    requires MemoryOk(db) && e in db.Young()
    ensures e.sn <= db.lastSequence + |db.pending|
  {}
}
