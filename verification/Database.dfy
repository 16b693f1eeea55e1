/** Whole runs: the database, driven by any list of commands and crashing anywhere, with the newest log
    cut off after any byte, answers every read like a plain map with saved copies for snapshots. */
module Database {
  import opened DbFormat
  import opened Versions
  import opened Overlaps
  import opened Steps
  import opened Compactions
  import opened Interleaving
  import opened Manifest
  import opened DbState
  import opened WriteSteps
  import opened TableSteps
  import opened Recovery
  import opened DbImpl
  import opened Crashes
  import opened TornLogs
  import Coding
  import WriteBatches
  import LogFormat
  import LogReader
  import opened Snapshots
  import DbIter

  // ---------- The specification: a map, and copies of it ----------

  type Store = map<UserKey, Value>

  function ApplyOps(m: Store, ops: seq<Update>): Store {
    if ops == [] then m
    else
      var n := |ops| - 1;
      var m' := ApplyOps(m, ops[..n]);
      if ops[n].kind.Put? then m'[ops[n].user := ops[n].value] else m' - {ops[n].user}
  }

  function Find(m: Store, k: UserKey): Option<Value> { if k in m then Some(m[k]) else None }

  function ApplyAll(m: Store, writes: seq<seq<Update>>): Store {
    if writes == [] then m
    else
      var n := |writes| - 1;
      ApplyOps(ApplyAll(m, writes[..n]), writes[n])
  }

  /** What a client and the background thread may do. A crash loses all memory, and of the newest log all
      but its first `kept` bytes; `WriteThenCrash` dies after the batch went to the log and before it was
      applied. */
  datatype Command =
    | Write(ops: seq<Update>)
    | WriteThenCrash(ops: seq<Update>, kept: nat, env: Env)
    | Crash(kept: nat, env: Env)
    | SwitchMemTable
    | Flush(size: nat)
    | DeleteFiles
    | BeginCompaction(level: nat, choice: Choice, env: Env)
    | EndCompaction
    | Snapshot
    | Release(i: nat)
    | Get(k: UserKey)
    | GetAt(i: nat, k: UserKey)
    | Iterate(at: Option<nat>, calls: seq<DbIter.Op>)

  /** The inputs of a compaction: the file after the compaction pointer, or the files of a key range. */
  datatype Choice = Next(pointer: Option<InternalKey>) | Range(begin: Option<UserKey>, end: Option<UserKey>)

  /** What the environment decides: when buffers and output files are full, and file sizes. */
  datatype Env = Env(full: seq<Entry> -> bool, size: nat, stop: nat -> bool, fileSize: nat -> nat)

  datatype Reply = Found(value: Option<Value>) | Walked(seen: seq<Option<(UserKey, Value)>>)

  /** How keys, values and checksums look in the log. */
  datatype Format = Format(names: Names, crc: LogFormat.Checksum)

  /** The map, the saved copies, the map when the newest log was started and the writes since, and whether
      a memtable waits to be flushed. */
  datatype Spec = Spec(store: Store, saved: seq<Store>, base: Store, recent: seq<seq<Update>>, busy: bool)

  function Fresh(m: Store): Spec { Spec(m, [], m, [], false) }

  function OpsOf(names: Names, ops: seq<Update>): seq<WriteBatches.Op> {
    seq(|ops|, i requires 0 <= i < |ops| =>
      if ops[i].kind.Put? then WriteBatches.PutOp(names.key(ops[i].user), names.value(ops[i].value))
      else WriteBatches.DeleteOp(names.key(ops[i].user)))
  }

  predicate Writable(names: Names, ops: seq<Update>) {
    |ops| < 0x1_0000_0000 && forall i :: 0 <= i < |ops| ==> Named(names, ops[i].user, ops[i].kind, Stored(ops[i]))
  }

  /** The record of a write; its length does not depend on the sequence number. */
  function RecordOf(names: Names, ops: seq<Update>): seq<Coding.Byte> {
    if |ops| < 0x1_0000_0000 then WriteBatches.EncodeBatch(0, OpsOf(names, ops)) else []
  }

  function RecordsOf(names: Names, writes: seq<seq<Update>>): (rs: seq<seq<Coding.Byte>>)
    ensures |rs| == |writes|
  {
    seq(|writes|, i requires 0 <= i < |writes| => RecordOf(names, writes[i]))
  }

  /** How many of the writes are still there when the log is cut. */
  function Surviving(fmt: Format, writes: seq<seq<Update>>, kept: nat): (n: nat)
    ensures n <= |writes|
  {
    LogReader.Whole(fmt.crc, 0, RecordsOf(fmt.names, writes), kept)
  }

  function SpecCrash(fmt: Format, sp: Spec, kept: nat): Spec {
    Fresh(ApplyAll(sp.base, sp.recent[..Surviving(fmt, sp.recent, kept)]))
  }

  function SpecWrite(sp: Spec, ops: seq<Update>): Spec {
    sp.(store := ApplyOps(sp.store, ops), recent := sp.recent + [ops])
  }

  function SpecNext(fmt: Format, sp: Spec, c: Command): Spec {
    match c
    case Write(ops) => SpecWrite(sp, ops)
    case WriteThenCrash(ops, kept, _) => SpecCrash(fmt, SpecWrite(sp, ops), kept)
    case Crash(kept, _) => SpecCrash(fmt, sp, kept)
    case SwitchMemTable => if sp.busy then sp else sp.(base := sp.store, recent := [], busy := true)
    case Flush(_) => sp.(busy := false)
    case Snapshot => sp.(saved := sp.saved + [sp.store])
    case Release(i) => if i < |sp.saved| then sp.(saved := sp.saved[..i] + sp.saved[i + 1..]) else sp
    case _ => sp
  }

  ghost function SpecAnswer(sp: Spec, c: Command): Reply {
    match c
    case Get(k) => Found(Find(sp.store, k))
    case GetAt(i, k) => Found(if i < |sp.saved| then Find(sp.saved[i], k) else None)
    case Iterate(at, calls) =>
      if at.None? then Walked(WalkMap(sp.store, calls))
      else Walked(if at.value < |sp.saved| then WalkMap(sp.saved[at.value], calls) else [])
    case _ => Found(None)
  }

  ghost function SpecRun(fmt: Format, sp: Spec, cmds: seq<Command>): seq<Reply>
    decreases |cmds|
  {
    if cmds == [] then [] else [SpecAnswer(sp, cmds[0])] + SpecRun(fmt, SpecNext(fmt, sp, cmds[0]), cmds[1..])
  }

  predicate CanWrite(fmt: Format, c: Command) {
    c.Write? || c.WriteThenCrash? ==> Writable(fmt.names, c.ops)
  }

  function Updates(c: Command): nat {
    match c
    case Write(ops) => |ops|
    case WriteThenCrash(ops, _, _) => |ops|
    case _ => 0
  }

  function TotalUpdates(cmds: seq<Command>): nat {
    if cmds == [] then 0 else Updates(cmds[0]) + TotalUpdates(cmds[1..])
  }

  // ---------- Reading a history as a map ----------

  ghost predicate Shows(history: set<Entry>, s: SequenceNumber, m: Store) {
    forall k :: Read(history, k, s) == Find(m, k)
  }

  lemma ReadAbove(db: set<Entry>, k: UserKey, s: SequenceNumber, t: SequenceNumber)
    requires SeqUnique(db) && AtMost(db, s) && AtMost(db, t)
    ensures Read(db, k, s) == Read(db, k, t)
  {
    if !NoneVisible(db, k, s) {
      NewestExists(db, k, s);
      var e :| Newest(db, k, s, e);
      assert Newest(db, k, t, e);
      ReadIs(db, k, s, e);
      ReadIs(db, k, t, e);
    }
  }

  lemma ShowsAbove(history: set<Entry>, s: SequenceNumber, t: SequenceNumber, m: Store)
    requires SeqUnique(history) && AtMost(history, s) && AtMost(history, t) && Shows(history, s, m)
    ensures Shows(history, t, m)
  {
    forall k ensures Read(history, k, t) == Find(m, k) { ReadAbove(history, k, s, t); }
  }

  /** A snapshot does not see batches written after it. */
  lemma ShowsBelow(history: set<Entry>, s: SequenceNumber, m: Store, more: set<Entry>)
    requires SeqUnique(history + more) && Shows(history, s, m) && forall e :: e in more ==> e.sn > s
    ensures Shows(history + more, s, m)
  {
    forall k ensures Read(history + more, k, s) == Find(m, k) {
      ReadIgnoresInvisible(history, more, k, s);
    }
  }

  lemma OneMoreShows(history: set<Entry>, s: SequenceNumber, m: Store, e: Entry)
    requires SeqUnique(history) && AtMost(history, s) && Shows(history, s, m) && e.sn == s + 1
    ensures Shows(history + {e}, e.sn, if e.kind.Put? then m[e.user := e.value] else m - {e.user})
  {
    ShowsAbove(history, s, e.sn, m);
    forall k ensures Read(history + {e}, k, e.sn) ==
      Find(if e.kind.Put? then m[e.user := e.value] else m - {e.user}, k)
    {
      if k == e.user {
        assert Newest(history + {e}, k, e.sn, e);
        ReadIs(history + {e}, k, e.sn, e);
      } else {
        ReadIgnoresInvisible(history, {e}, k, e.sn);
      }
    }
  }

  lemma AssignedPrefix(ops: seq<Update>, first: nat, batch: seq<Entry>, n: nat)
    requires Assigned(ops, first, batch) && n + 1 == |ops|
    ensures Assigned(ops[..n], first, batch[..n]) && batch[n].sn == first + n
    ensures batch[n].user == ops[n].user && batch[n].kind == ops[n].kind && batch[n].value == Stored(ops[n])
    ensures Elements(batch) == Elements(batch[..n]) + {batch[n]}
  {
    assert batch == batch[..n] + [batch[n]];
  }

  lemma WriteUnique(history: set<Entry>, s: SequenceNumber, first: nat, t: nat, batch: seq<Entry>)
    requires SeqUnique(history) && AtMost(history, s) && Numbered(batch, first) && first == s + 1 && t == s + |batch|
    ensures SeqUnique(history + Elements(batch)) && AtMost(history + Elements(batch), t)
  {
    NumberedBatch(batch, first);
  }

  /** Writing a batch updates the map by its operations, in order. */
  lemma {:induction false} WriteShows(history: set<Entry>, s: SequenceNumber, first: nat, t: SequenceNumber, m: Store,
                                      ops: seq<Update>, batch: seq<Entry>)
    requires SeqUnique(history) && AtMost(history, s) && Shows(history, s, m)
    requires Assigned(ops, first, batch) && first == s + 1 && t == s + |ops|
    ensures Shows(history + Elements(batch), t, ApplyOps(m, ops))
    decreases |ops|
  {
    if ops == [] {
      assert history + Elements(batch) == history;
    } else {
      var n, t0 := |ops| - 1, t - 1;
      AssignedPrefix(ops, first, batch, n);
      WriteShows(history, s, first, t0, m, ops[..n], batch[..n]);
      WriteUnique(history, s, first, t0, batch[..n]);
      LastOpShows(history, t0, t, m, ops, batch, n);
    }
  }

  lemma LastOpShows(history: set<Entry>, t0: SequenceNumber, t: SequenceNumber, m: Store, ops: seq<Update>,
                    batch: seq<Entry>, n: nat)
    requires n + 1 == |ops| == |batch| && Elements(batch) == Elements(batch[..n]) + {batch[n]}
    requires batch[n].user == ops[n].user && batch[n].kind == ops[n].kind && batch[n].value == Stored(ops[n])
    requires batch[n].sn == t == t0 + 1
    requires SeqUnique(history + Elements(batch[..n])) && AtMost(history + Elements(batch[..n]), t0)
    requires Shows(history + Elements(batch[..n]), t0, ApplyOps(m, ops[..n]))
    ensures Shows(history + Elements(batch), t, ApplyOps(m, ops))
  {
    OneMoreShows(history + Elements(batch[..n]), t0, ApplyOps(m, ops[..n]), batch[n]);
    assert history + Elements(batch) == history + Elements(batch[..n]) + {batch[n]};
  }

  // ---------- Running commands ----------

  ghost predicate SavedShow(history: set<Entry>, snapshots: seq<SequenceNumber>, saved: seq<Store>, last: nat) {
    && |saved| == |snapshots|
    && forall i :: 0 <= i < |saved| ==> snapshots[i] <= last && Shows(history, snapshots[i], saved[i])
  }

  // ---------- The newest log and the writes since it was started ----------

  ghost predicate SameOps(batch: seq<Entry>, ops: seq<Update>) {
    && |batch| == |ops|
    && forall i :: 0 <= i < |ops| ==>
      batch[i].user == ops[i].user && batch[i].kind == ops[i].kind && batch[i].value == Stored(ops[i])
  }

  /** The newest log holds the batches of the recent writes, numbered on from `since`; without them the
      history shows the map the log was started with. */
  ghost predicate LogFrom(newest: seq<seq<Entry>>, since: SequenceNumber, history: set<Entry>, base: Store,
                          recent: seq<seq<Update>>) {
    && |newest| == |recent| && (forall i :: 0 <= i < |newest| ==> SameOps(newest[i], recent[i]))
    && Numbered(Concat(newest), since + 1)
    && AtMost(history - Elements(Concat(newest)), since) && Shows(history - Elements(Concat(newest)), since, base)
  }

  ghost predicate LogOk(newest: seq<seq<Entry>>, last: SequenceNumber, history: set<Entry>, base: Store,
                        recent: seq<seq<Update>>) {
    |Concat(newest)| <= last && LogFrom(newest, last - |Concat(newest)|, history, base, recent)
  }

  lemma EmptyLog(last: SequenceNumber, history: set<Entry>, m: Store)
    requires AtMost(history, last) && Shows(history, last, m)
    ensures LogOk([], last, history, m, [])
  {
    assert history - Elements(Concat([])) == history;
  }

  lemma {:induction false} LogGrows(newest: seq<seq<Entry>>, last: SequenceNumber, history: set<Entry>, base: Store,
                                    recent: seq<seq<Update>>, ops: seq<Update>, batch: seq<Entry>, first: nat,
                                    last': SequenceNumber)
    requires LogOk(newest, last, history, base, recent) && AtMost(history, last)
    requires first == last + 1 && last' == last + |ops| && Assigned(ops, first, batch)
    ensures LogOk(newest + [batch], last', history + Elements(batch), base, recent + [ops])
  {
    var newest' := newest + [batch];
    assert newest'[..|newest|] == newest;
    assert Concat(newest') == Concat(newest) + batch;
    NumberedBatch(batch, first);
    ElementsConcat(Concat(newest), batch);
    assert (history + Elements(batch)) - Elements(Concat(newest')) == history - Elements(Concat(newest));
  }

  lemma {:induction false} BatchPlace(newest: seq<seq<Entry>>, since: nat, n: nat, from: nat)
    requires 0 < n <= |newest| && Numbered(Concat(newest), since + 1) && from == since + 1 + |Concat(newest[..n - 1])|
    ensures Numbered(newest[n - 1], from) && Concat(newest[..n]) == Concat(newest[..n - 1]) + newest[n - 1]
  {
    ConcatSplit(newest, n);
    assert newest[..n][..n - 1] == newest[..n - 1];
    var all, a, b := Concat(newest), Concat(newest[..n - 1]), newest[n - 1];
    forall i | 0 <= i < |b| ensures b[i].sn == from + i {
      assert all[|a| + i] == b[i];
    }
  }

  /** The history with the first `n` recent writes shows the map after them. */
  lemma {:induction false} LogShows(newest: seq<seq<Entry>>, since: SequenceNumber, history: set<Entry>, base: Store,
                                    recent: seq<seq<Update>>, before: set<Entry>, n: nat, t: SequenceNumber)
    requires LogFrom(newest, since, history, base, recent) && n <= |newest| && SeqUnique(before)
    requires before == history - Elements(Concat(newest)) && t == since + |Concat(newest[..n])|
    ensures SeqUnique(before + Elements(Concat(newest[..n]))) && AtMost(before + Elements(Concat(newest[..n])), t)
    ensures Shows(before + Elements(Concat(newest[..n])), t, ApplyAll(base, recent[..n]))
    decreases n
  {
    if n == 0 {
      assert before + Elements(Concat(newest[..0])) == before;
    } else {
      var m := n - 1;
      var first := since + 1 + |Concat(newest[..m])|;
      BatchPlace(newest, since, n, first);
      var t0 := first - 1;
      LogShows(newest, since, history, base, recent, before, m, t0);
      LogShowsNext(newest, before, base, recent, m, n, t0, first, t);
    }
  }

  lemma {:induction false} LogShowsNext(newest: seq<seq<Entry>>, before: set<Entry>, base: Store,
                                        recent: seq<seq<Update>>, m: nat, n: nat, t0: SequenceNumber, first: nat,
                                        t: SequenceNumber)
    requires n == m + 1 <= |newest| == |recent| && SameOps(newest[m], recent[m]) && Numbered(newest[m], first)
    requires first == t0 + 1 && t == t0 + |newest[m]| && Concat(newest[..n]) == Concat(newest[..m]) + newest[m]
    requires SeqUnique(before + Elements(Concat(newest[..m]))) && AtMost(before + Elements(Concat(newest[..m])), t0)
    requires Shows(before + Elements(Concat(newest[..m])), t0, ApplyAll(base, recent[..m]))
    ensures SeqUnique(before + Elements(Concat(newest[..n]))) && AtMost(before + Elements(Concat(newest[..n])), t)
    ensures Shows(before + Elements(Concat(newest[..n])), t, ApplyAll(base, recent[..n]))
  {
    var h, batch := before + Elements(Concat(newest[..m])), newest[m];
    ElementsConcat(Concat(newest[..m]), batch);
    assert before + Elements(Concat(newest[..n])) == h + Elements(batch);
    assert recent[..n][..m] == recent[..m];
    assert Assigned(recent[m], first, batch);
    WriteShows(h, t0, first, t, ApplyAll(base, recent[..m]), recent[m], batch);
    WriteUnique(h, t0, first, t, batch);
  }

  // ---------- What a command does to the tables ----------

  /** The database between two commands, and the compaction under way. */
  datatype Moment = Moment(db: Db, running: Option<Running>)

  function Now(d: DBImpl): Moment
    reads d
  {
    Moment(d.db, d.running)
  }

  ghost predicate SameTables(m: Moment, m': Moment) { m'.db.version == m.db.version && m'.running == m.running }

  /** The inputs are those of PickCompaction, or of CompactRange. */
  ghost predicate Chosen(v: Version, level: nat, choice: Choice, inputs0: seq<File>, inputs1: seq<File>) {
    && Selected(v, level, inputs0, inputs1)
    && (choice.Next? ==> TakesNext(v, level, choice.pointer, inputs0, inputs1))
    && (choice.Range? ==> TakesRange(v, level, choice.begin, choice.end, inputs0, inputs1))
  }

  /** There is nothing to compact. */
  ghost predicate NoneToCompact(v: Version, level: nat, choice: Choice)
    requires level < |v.levels|
  {
    v.levels[level] == []
    || (choice.Range? && forall f :: f in v.levels[level] ==> !Touches(f, choice.begin, choice.end))
  }

  /** A trivial move happens exactly when it keeps the recency order of the levels. */
  ghost predicate Moved(m: Moment, level: nat, f: File, m': Moment)
    requires level < |m.db.version.levels|
  {
    && m'.running == None
    && (if MoreRecent(Unchosen(m.db.version.levels[level], [f]), FileEntries([f]))
        then Edited(m.db.version, m'.db.version, MoveEdit(m.db, level, f))
        else m'.db.version == m.db.version)
  }

  /** A compaction of these inputs starts exactly when it will do no harm. */
  ghost predicate Launched(m: Moment, level: nat, inputs0: seq<File>, inputs1: seq<File>, manual: bool, env: Env,
                           m': Moment)
    requires Inv(m.db.version) && Selected(m.db.version, level, inputs0, inputs1)
  {
    && m'.db.version == m.db.version
    && (m'.running.Some? <==> Harmless(m.db.version, level, inputs0, inputs1,
                                       CompactionInput(m.db.version, level, inputs0, inputs1), SmallestSnapshot(m.db)))
    && (m'.running.Some? ==>
          Starts(m.db, level, inputs0, inputs1, manual, env.stop, env.fileSize, m'.running.value))
  }

  ghost predicate MovedOrLaunched(m: Moment, level: nat, choice: Choice, env: Env, m': Moment, inputs0: seq<File>,
                                  inputs1: seq<File>, gs: seq<File>)
    requires Inv(m.db.version) && Chosen(m.db.version, level, choice, inputs0, inputs1)
  {
    && Grandparents(m.db.version, level, inputs0 + inputs1, gs)
    && (if choice.Next? && MayMove(inputs0, inputs1, gs) then Moved(m, level, inputs0[0], m')
        else Launched(m, level, inputs0, inputs1, choice.Range?, env, m'))
  }

  /** BeginCompaction: nothing while a compaction is under way or without a file to take; otherwise the
      chosen file is moved or the chosen files are compacted. */
  ghost predicate Begun(m: Moment, level: nat, choice: Choice, env: Env, m': Moment) {
    && Inv(m.db.version)
    && (if level + 1 >= NUM_LEVELS || m.running.Some? || NoneToCompact(m.db.version, level, choice)
        then m' == m
        else exists inputs0, inputs1, gs ::
          Chosen(m.db.version, level, choice, inputs0, inputs1)
          && MovedOrLaunched(m, level, choice, env, m', inputs0, inputs1, gs))
  }

  /** EndCompaction: the outputs replace the inputs always when PickCompaction chose the inputs, and for a key
      range unless an output would overlap a table flushed in the meantime. */
  ghost predicate Ended(m: Moment, m': Moment) {
    && m'.running == None && (m.running.Some? ==> Fitting(m.running.value, m.db.version))
    && (if m.running.Some? && (!m.running.value.manual || StandsClear(m.running.value, m.db.version))
        then HasInstalled(m.db, m.running.value, m'.db.version)
        else m'.db.version == m.db.version)
  }

  predicate Fitting(r: Running, w: Version) {
    |r.base.levels| == |w.levels| == NUM_LEVELS && r.level + 1 < NUM_LEVELS
  }

  predicate StandsClear(r: Running, w: Version)
    requires Fitting(r, w)
  {
    ClearOfFlushed(r.base, w, r.level, r.outputs)
  }

  /** A write: the batch gets the next sequence numbers, goes to the log, into the memtable and becomes visible. */
  ghost predicate WriteDone(db: Db, ops: seq<Update>, db': Db) {
    exists mid, batch :: Logged(db, ops, mid, batch) && CanApply(mid) && db' == Publish(mid)
  }

  /** A new log and a new memtable; the old one is to be flushed. */
  ghost predicate Switched(db: Db, db': Db) {
    && db'.mem == [] && db'.imm == Some(db.mem) && db'.disk.manifest == db.disk.manifest && db'.version == db.version
    && db'.logfileNumber == db.nextFile < db'.nextFile && db'.logNumber == db.logNumber
    && db'.disk.logs == db.disk.logs + [LogFile(db.nextFile, [])]
  }

  /** A flush: the table is in the version, and only the log of the memtable is needed from now on. */
  ghost predicate FlushDone(db: Db, size: nat, db': Db) {
    && FlushedInto(db, db'.version, size) && db'.imm == None && db'.mem == db.mem && db'.disk.logs == db.disk.logs
    && db'.logNumber == db'.logfileNumber == db.logfileNumber
  }

  /** Exactly the logs that are needed are left, and nothing else has changed. */
  ghost predicate OldLogsGone(db: Db, db': Db) {
    && db' == db.(disk := db.disk.(logs := db'.disk.logs)) && InNumberOrder(db'.disk.logs)
    && forall l :: l in db'.disk.logs <==> l in db.disk.logs && l.number >= db.logNumber
  }

  ghost predicate Freed(db: Db, i: nat, db': Db) {
    db' == if i < |db.snapshots| then db.(snapshots := db.snapshots[..i] + db.snapshots[i + 1..]) else db
  }

  /** What every command does to the tables, the logs and the compaction under way. */
  ghost predicate Stepped(m: Moment, c: Command, m': Moment) {
    match c
    case BeginCompaction(level, choice, env) => Begun(m, level, choice, env, m')
    case EndCompaction => Ended(m, m')
    case Flush(size) =>
      m'.running == m.running && if m.db.imm.Some? then FlushDone(m.db, size, m'.db) else m'.db == m.db
    case Write(ops) => SameTables(m, m') && WriteDone(m.db, ops, m'.db)
    case Crash(_, _) => m'.running == None
    case WriteThenCrash(_, _, _) => m'.running == None
    case SwitchMemTable =>
      m'.running == m.running && if m.db.imm.None? then Switched(m.db, m'.db) else m'.db == m.db
    case DeleteFiles => m'.running == m.running && OldLogsGone(m.db, m'.db)
    case Snapshot => m'.running == m.running && m'.db == m.db.(snapshots := m.db.snapshots + [m.db.lastSequence])
    case Release(i) => m'.running == m.running && Freed(m.db, i, m'.db)
    case _ => m' == m
  }

  // ---------- Standing for a specification state ----------

  ghost predicate Matches(db: Db, history: set<Entry>, sp: Spec) {
    && db.pending == [] && SeqUnique(history) && AtMost(history, db.lastSequence)
    && Shows(history, db.lastSequence, sp.store)
    && SavedShow(history, db.snapshots, sp.saved, db.lastSequence)
  }

  ghost predicate LogMatches(fmt: Format, db: Db, history: set<Entry>, sp: Spec) {
    && db.disk.logs != [] && db.imm.Some? == sp.busy
    && LogOk(NewestLog(db.disk.logs), db.lastSequence, history, sp.base, sp.recent)
    && forall i :: 0 <= i < |sp.recent| ==> Writable(fmt.names, sp.recent[i])
  }

  /** The database stands for the specification state. */
  ghost predicate StandsFor(fmt: Format, d: DBImpl, sp: Spec)
    reads d
  {
    d.Valid() && Matches(d.db, d.history, sp) && LogMatches(fmt, d.db, d.history, sp)
  }

  lemma WriteMatches(db: Db, db': Db, history: set<Entry>, sp: Spec, ops: seq<Update>, batch: seq<Entry>, first: nat)
    requires Matches(db, history, sp) && Assigned(ops, first, batch) && first == db.lastSequence + 1
    requires db'.pending == [] && db'.lastSequence == db.lastSequence + |ops| && db'.snapshots == db.snapshots
    ensures Matches(db', history + Elements(batch), SpecWrite(sp, ops))
  {
    var s, t := db.lastSequence, db'.lastSequence;
    WriteShows(history, s, first, t, sp.store, ops, batch);
    WriteUnique(history, s, first, t, batch);
    NumberedBatch(batch, first);
    forall i | 0 <= i < |sp.saved| ensures Shows(history + Elements(batch), db.snapshots[i], sp.saved[i]) {
      ShowsBelow(history, db.snapshots[i], sp.saved[i], Elements(batch));
    }
  }

  lemma WriteLogMatches(fmt: Format, db: Db, db': Db, history: set<Entry>, sp: Spec, ops: seq<Update>,
                        batch: seq<Entry>, first: nat)
    requires LogMatches(fmt, db, history, sp) && AtMost(history, db.lastSequence) && Writable(fmt.names, ops)
    requires Assigned(ops, first, batch) && first == db.lastSequence + 1
    requires db'.lastSequence == db.lastSequence + |ops| && db'.disk.logs == Appended(db.disk.logs, batch)
      && db'.imm == db.imm
    ensures LogMatches(fmt, db', history + Elements(batch), SpecWrite(sp, ops))
  {
    LogGrows(NewestLog(db.disk.logs), db.lastSequence, history, sp.base, sp.recent, ops, batch, first,
        db'.lastSequence);
  }

  /** The database after a write, with its batch in the newest log. */
  ghost predicate Published(db: Db, ops: seq<Update>, batch: seq<Entry>, db': Db) {
    && db'.pending == [] && db'.lastSequence == db.lastSequence + |ops| && db'.snapshots == db.snapshots
    && db.disk.logs != [] && db'.disk.logs == Appended(db.disk.logs, batch) && db'.imm == db.imm
    && db'.version == db.version
  }

  method LogAndPublish(d: DBImpl, ops: seq<Update>, ghost first: nat) returns (ghost batch: seq<Entry>)
    requires d.Valid() && d.db.pending == [] && d.db.lastSequence + |ops| < MAX_SEQUENCE
    requires first == d.db.lastSequence + 1
    modifies d`db, d`history
    ensures d.Valid() && d.history == old(d.history) + Elements(batch)
    ensures Assigned(ops, first, batch) && Published(old(d.db), ops, batch, d.db)
    ensures WriteDone(old(d.db), ops, d.db)
  {
    batch := d.LogBatch(ops);
    d.PublishBatch();
  }

  method DoWrite(fmt: Format, d: DBImpl, ops: seq<Update>, ghost sp: Spec)
    requires StandsFor(fmt, d, sp) && d.db.lastSequence + |ops| < MAX_SEQUENCE && Writable(fmt.names, ops)
    modifies d
    ensures StandsFor(fmt, d, SpecWrite(sp, ops)) && d.db.lastSequence == old(d.db).lastSequence + |ops|
    ensures SameTables(old(Now(d)), Now(d)) && WriteDone(old(d.db), ops, d.db)
  {
    ghost var db, h, first := d.db, d.history, d.db.lastSequence + 1;
    ghost var batch := LogAndPublish(d, ops, first);
    WriteMatches(db, d.db, h, sp, ops, batch, first);
    WriteLogMatches(fmt, db, d.db, h, sp, ops, batch, first);
  }

  /** After reopening, nothing is pending, no snapshot is held, and the map is what it was. */
  lemma ReopenMatches(fmt: Format, db: Db, history: set<Entry>, horizon: nat, s: SequenceNumber, m: Store)
    requires DbState.Valid(db, history, horizon) && StartsAfresh(db)
    requires AtMost(history, s) && Shows(history, s, m)
    ensures Matches(db, history, Fresh(m)) && LogMatches(fmt, db, history, Fresh(m))
  {
    assert db.Young() == {};
    forall e | e in history ensures e.sn <= db.lastSequence {
      HistoryBound(db, history, horizon, e);
    }
    ShowsAbove(history, s, db.lastSequence, m);
    EmptyLog(db.lastSequence, history, m);
  }

  // ---------- Crashes ----------

  lemma {:induction false} NewestNumbered(newest: seq<seq<Entry>>, since: nat, i: nat)
    requires i < |newest| && Numbered(Concat(newest), since + 1)
    ensures Consecutive(newest[i])
  {
    BatchPlace(newest, since, i + 1, since + 1 + |Concat(newest[..i])|);
  }

  /** What is in the newest log can be written as bytes and read back, and the cut finds as many whole
      records as the specification does. */
  lemma NewestLoggable(fmt: Format, newest: seq<seq<Entry>>, last: SequenceNumber, history: set<Entry>, base: Store,
                       recent: seq<seq<Update>>, kept: nat)
    requires LogOk(newest, last, history, base, recent)
    requires forall i :: 0 <= i < |recent| ==> Writable(fmt.names, recent[i])
    ensures Loggable(fmt.names, newest) && AllConsecutive(newest)
    ensures WholeBatches(fmt.names, fmt.crc, newest, kept) == Surviving(fmt, recent, kept)
  {
    forall i | 0 <= i < |newest| ensures AllNamed(fmt.names, newest[i]) && Consecutive(newest[i]) {
      NewestNumbered(newest, last - |Concat(newest)|, i);
      SameOpsNamed(fmt.names, newest[i], recent[i]);
    }
    forall i | 0 <= i < |newest| ensures |Records(fmt.names, newest)[i]| == |RecordsOf(fmt.names, recent)[i]| {
      SameOpsLength(fmt.names, newest[i], recent[i]);
    }
    SameWhole(fmt.crc, 0, Records(fmt.names, newest), RecordsOf(fmt.names, recent), kept);
  }

  lemma SameOpsNamed(names: Names, batch: seq<Entry>, ops: seq<Update>)
    requires SameOps(batch, ops) && Writable(names, ops)
    ensures AllNamed(names, batch)
  {}

  lemma SameOpsLength(names: Names, batch: seq<Entry>, ops: seq<Update>)
    requires SameOps(batch, ops) && |ops| < 0x1_0000_0000
    ensures |Record(names, batch)| == |RecordOf(names, ops)|
  {
    assert ToOps(names, batch) == OpsOf(names, ops);
    WriteBatches.BatchLength(FirstOf(batch), 0, OpsOf(names, ops));
  }

  /** The newest log's entries are in memory only. */
  lemma NewestIsYoung(db: Db, history: set<Entry>, horizon: nat)
    requires DbState.Valid(db, history, horizon)
    ensures db.disk.logs != [] && Elements(Concat(NewestLog(db.disk.logs))) <= history
  {
    var logs := db.disk.logs;
    assert NewestLog(logs)[0..] == NewestLog(logs);
    TornLive(logs, 0, db.logNumber, Concat(NewestLog(logs)));
    ElementsConcat(Live(Torn(logs, 0), db.logNumber), Concat(NewestLog(logs)));
  }

  /** The history that is left when the newest log keeps `n` batches. */
  lemma LeftShows(newest: seq<seq<Entry>>, last: SequenceNumber, history: set<Entry>, base: Store,
                  recent: seq<seq<Update>>, n: nat, lost: seq<Entry>, t: nat)
    requires LogOk(newest, last, history, base, recent) && SeqUnique(history) && Elements(Concat(newest)) <= history
    requires n <= |newest| && lost == Concat(newest[n..]) && t == last - |lost|
    ensures 0 <= t <= last && AtMost(history - Elements(lost), t)
    ensures Shows(history - Elements(lost), t, ApplyAll(base, recent[..n]))
  {
    var before, since := history - Elements(Concat(newest)), last - |Concat(newest)|;
    ConcatSplit(newest, n);
    NumberedBatch(Concat(newest), since + 1);
    AscendingApart(Concat(newest[..n]), lost);
    LogShows(newest, since, history, base, recent, before, n, t);
    assert history - Elements(lost) == before + Elements(Concat(newest[..n]));
  }

  /** The process dies, the newest log keeps its first `kept` bytes, and the database is opened again. */
  method CrashAndOpen(fmt: Format, d: DBImpl, kept: nat, env: Env, ghost sp: Spec, ghost last: SequenceNumber)
    returns (d': DBImpl)
    requires d.Valid() && SeqUnique(d.history) && last == d.db.lastSequence + |d.db.pending| && d.db.disk.logs != []
    requires LogOk(NewestLog(d.db.disk.logs), last, d.history, sp.base, sp.recent)
    requires forall i :: 0 <= i < |sp.recent| ==> Writable(fmt.names, sp.recent[i])
    ensures fresh(d') && StandsFor(fmt, d', SpecCrash(fmt, sp, kept)) && d'.db.lastSequence <= last
    ensures d'.running == None
  {
    var newest := NewestLog(d.db.disk.logs);
    NewestLoggable(fmt, newest, last, d.history, sp.base, sp.recent, kept);
    var survived := CutAndRead(fmt.names, fmt.crc, newest, kept);
    d' := OpenTorn(fmt, d, survived, env, sp, last, |survived|);
  }

  method OpenTorn(fmt: Format, d: DBImpl, survived: seq<seq<Entry>>, env: Env, ghost sp: Spec,
                  ghost last: SequenceNumber, ghost n: nat)
    returns (d': DBImpl)
    requires d.Valid() && SeqUnique(d.history) && last == d.db.lastSequence + |d.db.pending| && d.db.disk.logs != []
    requires LogOk(NewestLog(d.db.disk.logs), last, d.history, sp.base, sp.recent)
    requires n <= |NewestLog(d.db.disk.logs)| && survived == NewestLog(d.db.disk.logs)[..n]
    ensures fresh(d') && StandsFor(fmt, d', Fresh(ApplyAll(sp.base, sp.recent[..n]))) && d'.db.lastSequence <= last
    ensures d'.running == None
  {
    var logs := d.db.disk.logs;
    var end := |logs| - 1;
    ghost var lost := Concat(NewestLog(logs)[n..]);
    ConcatSplit(NewestLog(logs), n);
    ghost var history, t := d.history - Elements(lost), last - |lost|;
    NewestIsYoung(d.db, d.history, d.horizon);
    LeftShows(NewestLog(logs), last, d.history, sp.base, sp.recent, n, lost, t);
    TornRecoverable(d.db, d.history, d.horizon, last, n, lost);
    var disk := d.db.disk.(logs := logs[..end] + [LogFile(logs[end].number, survived)]);
    d' := new DBImpl.Open(disk, env.full, env.size, history, d.horizon, last);
    ReopenMatches(fmt, d'.db, d'.history, d'.horizon, t, ApplyAll(sp.base, sp.recent[..n]));
  }

  lemma LoggedMatches(fmt: Format, db: Db, db': Db, history: set<Entry>, sp: Spec, ops: seq<Update>, batch: seq<Entry>,
                      first: nat, t: SequenceNumber)
    requires LogMatches(fmt, db, history, sp) && AtMost(history, db.lastSequence) && Writable(fmt.names, ops)
    requires Assigned(ops, first, batch) && first == db.lastSequence + 1 && t == db.lastSequence + |ops|
    requires db'.disk.logs == Appended(db.disk.logs, batch)
    ensures LogOk(NewestLog(db'.disk.logs), t, history + Elements(batch), sp.base, sp.recent + [ops])
    ensures forall i :: 0 <= i < |sp.recent + [ops]| ==> Writable(fmt.names, (sp.recent + [ops])[i])
  {
    LogGrows(NewestLog(db.disk.logs), db.lastSequence, history, sp.base, sp.recent, ops, batch, first, t);
  }

  /** A crash after the log write and before anything was applied: the write is lost only if the cut is
      before its end. */
  method DoWriteThenCrash(fmt: Format, d: DBImpl, ops: seq<Update>, kept: nat, env: Env, ghost sp: Spec)
    returns (d': DBImpl)
    requires StandsFor(fmt, d, sp) && d.db.lastSequence + |ops| < MAX_SEQUENCE && Writable(fmt.names, ops)
    modifies d
    ensures fresh(d') && StandsFor(fmt, d', SpecCrash(fmt, SpecWrite(sp, ops), kept))
    ensures d'.db.lastSequence <= old(d.db).lastSequence + |ops| && d'.running == None
  {
    ghost var db, h, first, t := d.db, d.history, d.db.lastSequence + 1, d.db.lastSequence + |ops|;
    ghost var batch := d.LogBatch(ops);
    WriteUnique(h, db.lastSequence, first, t, batch);
    LoggedMatches(fmt, db, d.db, h, sp, ops, batch, first, t);
    d' := CrashAndOpen(fmt, d, kept, env, SpecWrite(sp, ops), t);
  }

  /** A crash that cuts nothing off loses nothing. */
  lemma AllReached(fmt: Format, sp: Spec, kept: nat)
    requires |LogFormat.EncodeAll(fmt.crc, 0, RecordsOf(fmt.names, sp.recent))| <= kept
    ensures SpecCrash(fmt, sp, kept) == Fresh(ApplyAll(sp.base, sp.recent))
  {
    LogReader.WholeIsAll(fmt.crc, 0, RecordsOf(fmt.names, sp.recent), kept);
    assert sp.recent[..|sp.recent|] == sp.recent;
  }

  /** A compaction begins unless one is under way: pick the inputs, and move or compact them, unless that
      would break the recency order of the levels or change what a live snapshot reads. */
  method DoBegin(fmt: Format, d: DBImpl, level: nat, choice: Choice, env: Env, ghost sp: Spec)
    requires StandsFor(fmt, d, sp)
    modifies d
    ensures StandsFor(fmt, d, sp) && d.db.lastSequence == old(d.db).lastSequence
    ensures Begun(old(Now(d)), level, choice, env, Now(d))
  {
    if level + 1 >= NUM_LEVELS || d.db.version.levels[level] == [] || d.running.Some? {
      return;
    }
    var inputs0, inputs1 := Choose(d.db.version, level, choice);
    if inputs0 == [] {
      return;
    }
    ghost var gs := MoveOrLaunch(fmt, d, level, choice, inputs0, inputs1, env, sp);
  }

  method MoveOrLaunch(fmt: Format, d: DBImpl, level: nat, choice: Choice, inputs0: seq<File>, inputs1: seq<File>,
                      env: Env, ghost sp: Spec)
    returns (ghost gs: seq<File>)
    requires StandsFor(fmt, d, sp) && d.running == None && Chosen(d.db.version, level, choice, inputs0, inputs1)
    requires choice.Next? ==> Solid(inputs0 + inputs1)
    modifies d
    ensures StandsFor(fmt, d, sp) && d.db.lastSequence == old(d.db).lastSequence
    ensures MovedOrLaunched(old(Now(d)), level, choice, env, Now(d), inputs0, inputs1, gs)
  {
    var trivial := IsTrivialMove(d.db.version, level, inputs0, inputs1);
    gs :| Grandparents(d.db.version, level, inputs0 + inputs1, gs) && (trivial <==> MayMove(inputs0, inputs1, gs));
    if choice.Next? && trivial {
      DoMove(fmt, d, level, inputs0[0], sp);
    } else {
      DoStart(fmt, d, level, inputs0, inputs1, choice.Range?, env, sp);
    }
  }

  method Choose(v: Version, level: nat, choice: Choice) returns (inputs0: seq<File>, inputs1: seq<File>)
    requires Listed(v) && level + 1 < NUM_LEVELS && v.levels[level] != []
    ensures inputs0 == [] <==> NoneToCompact(v, level, choice)
    ensures inputs0 != [] ==> Chosen(v, level, choice, inputs0, inputs1)
    ensures choice.Next? ==> Solid(inputs0 + inputs1)
  {
    match choice
    case Next(pointer) => inputs0, inputs1 := PickCompaction(v, level, pointer);
    case Range(begin, end) => inputs0, inputs1 := CompactRange(v, level, begin, end);
  }

  /** What readers and recovery see of the database is as it was. */
  ghost predicate SameView(db: Db, db': Db) {
    && db'.pending == db.pending && db'.imm == db.imm && db'.lastSequence == db.lastSequence
    && db'.snapshots == db.snapshots && db'.disk.logs == db.disk.logs
  }

  lemma SameViewMatches(fmt: Format, db: Db, db': Db, history: set<Entry>, sp: Spec)
    requires SameView(db, db') && Matches(db, history, sp) && LogMatches(fmt, db, history, sp)
    ensures Matches(db', history, sp) && LogMatches(fmt, db', history, sp)
  {}

  method DoMove(fmt: Format, d: DBImpl, level: nat, f: File, ghost sp: Spec)
    requires StandsFor(fmt, d, sp) && d.running == None && Selected(d.db.version, level, [f], [])
    modifies d
    ensures StandsFor(fmt, d, sp) && d.db.lastSequence == old(d.db).lastSequence
    ensures Moved(old(Now(d)), level, f, Now(d))
  {
    if MoreRecent(Unchosen(d.db.version.levels[level], [f]), FileEntries([f])) {
      ghost var db := d.db;
      d.TrivialMove(level, f);
      SameViewMatches(fmt, db, d.db, d.history, sp);
    }
  }

  method DoStart(fmt: Format, d: DBImpl, level: nat, inputs0: seq<File>, inputs1: seq<File>, manual: bool, env: Env,
                 ghost sp: Spec)
    requires StandsFor(fmt, d, sp) && d.running == None && Selected(d.db.version, level, inputs0, inputs1)
    requires !manual ==> Solid(inputs0 + inputs1)
    modifies d
    ensures StandsFor(fmt, d, sp) && d.db.lastSequence == old(d.db).lastSequence
    ensures Launched(old(Now(d)), level, inputs0, inputs1, manual, env, Now(d))
  {
    if SafeToCompact(d.db, level, inputs0, inputs1) {
      var r;
      ghost var plan;
      r, plan := StartCompaction(d.db, level, inputs0, inputs1, env.stop, env.fileSize, manual, d.history, d.horizon);
      DoLaunch(fmt, d, r, plan, sp);
    }
  }

  method DoLaunch(fmt: Format, d: DBImpl, r: Running, ghost plan: Version, ghost sp: Spec)
    requires StandsFor(fmt, d, sp) && d.running == None && d.db.nextFile <= r.From()
    requires CompactionOk(Some(r), plan, d.db.(nextFile := r.From()), d.horizon)
    modifies d
    ensures StandsFor(fmt, d, sp) && d.db.lastSequence == old(d.db).lastSequence
    ensures d.db.version == old(d.db).version && d.running == Some(r)
  {
    ghost var db := d.db;
    d.BeginCompaction(r, plan);
    SameViewMatches(fmt, db, d.db, d.history, sp);
  }

  lemma RunningFits(r: Running, planned: Version, db: Db, horizon: nat)
    requires RunningOk(r, planned, db, horizon)
    ensures Fitting(r, db.version)
  {}

  /** The compaction under way ends: always by installing its outputs when PickCompaction chose its inputs, and
      for a key range unless an output would overlap a table flushed in the meantime. */
  method DoEnd(fmt: Format, d: DBImpl, ghost sp: Spec)
    requires StandsFor(fmt, d, sp)
    modifies d
    ensures StandsFor(fmt, d, sp) && d.db.lastSequence == old(d.db).lastSequence
    ensures Ended(old(Now(d)), Now(d))
  {
    if d.running.Some? {
      var clear := IsClear(d);
      if clear {
        DoInstall(fmt, d, sp);
      } else {
        DoAbandon(fmt, d, sp);
      }
    }
  }

  method IsClear(d: DBImpl) returns (clear: bool)
    requires d.Valid() && d.running.Some?
    ensures Clear(Now(d), clear)
  {
    var r := d.running.value;
    RunningFits(r, d.planned, d.db, d.horizon);
    if !r.manual {
      PickedIsClear(r, d.planned, d.db, d.horizon);
      clear := true;
    } else {
      clear := ClearOfFlushed(r.base, d.db.version, r.level, r.outputs);
    }
  }

  /** The answer to whether the outputs may be installed; if they may, they meet no flushed table. */
  ghost predicate Clear(m: Moment, clear: bool)
    requires m.running.Some?
  {
    && Fitting(m.running.value, m.db.version)
    && clear == (!m.running.value.manual || StandsClear(m.running.value, m.db.version))
    && (clear ==> StandsClear(m.running.value, m.db.version))
  }

  method DoInstall(fmt: Format, d: DBImpl, ghost sp: Spec)
    requires StandsFor(fmt, d, sp) && d.running.Some? && Clear(Now(d), true)
    modifies d
    ensures StandsFor(fmt, d, sp) && d.db.lastSequence == old(d.db).lastSequence
    ensures d.running == None && HasInstalled(old(d.db), old(d.running).value, d.db.version)
  {
    ghost var db := d.db;
    d.EndCompaction();
    SameViewMatches(fmt, db, d.db, d.history, sp);
  }

  method DoAbandon(fmt: Format, d: DBImpl, ghost sp: Spec)
    requires StandsFor(fmt, d, sp)
    modifies d
    ensures StandsFor(fmt, d, sp) && d.db == old(d.db) && d.running == None
  {
    d.Abandon();
  }

  method DoSwitch(fmt: Format, d: DBImpl, ghost sp: Spec)
    requires StandsFor(fmt, d, sp)
    modifies d
    ensures StandsFor(fmt, d, SpecNext(fmt, sp, SwitchMemTable)) && d.db.lastSequence == old(d.db).lastSequence
    ensures Stepped(old(Now(d)), SwitchMemTable, Now(d))
  {
    if d.db.imm == None {
      DoMakeRoom(fmt, d, sp);
    }
  }

  method DoMakeRoom(fmt: Format, d: DBImpl, ghost sp: Spec)
    requires StandsFor(fmt, d, sp) && d.db.imm == None
    modifies d`db
    ensures StandsFor(fmt, d, SpecNext(fmt, sp, SwitchMemTable)) && d.db == WriteSteps.SwitchMemTable(old(d.db))
  {
    SwitchMatches(fmt, d.db, d.history, sp);
    d.MakeRoom();
  }

  lemma SwitchMatches(fmt: Format, db: Db, history: set<Entry>, sp: Spec)
    requires Matches(db, history, sp) && LogMatches(fmt, db, history, sp) && db.imm == None
    ensures Matches(WriteSteps.SwitchMemTable(db), history, SpecNext(fmt, sp, SwitchMemTable))
    ensures LogMatches(fmt, WriteSteps.SwitchMemTable(db), history, SpecNext(fmt, sp, SwitchMemTable))
  {
    EmptyLog(db.lastSequence, history, sp.store);
  }

  method DoFlush(fmt: Format, d: DBImpl, size: nat, ghost sp: Spec)
    requires StandsFor(fmt, d, sp)
    modifies d
    ensures StandsFor(fmt, d, SpecNext(fmt, sp, Flush(size))) && d.db.lastSequence == old(d.db).lastSequence
    ensures Stepped(old(Now(d)), Flush(size), Now(d))
  {
    if d.db.imm.Some? {
      d.CompactMemTable(size);
    }
  }

  method DoDelete(fmt: Format, d: DBImpl, ghost sp: Spec)
    requires StandsFor(fmt, d, sp)
    modifies d
    ensures StandsFor(fmt, d, sp) && d.db.lastSequence == old(d.db).lastSequence
    ensures Stepped(old(Now(d)), DeleteFiles, Now(d))
  {
    KeepIsOrdered(d.db.disk.logs, d.db.logNumber);
    KeepsNewest(d.db.disk.logs, d.db.logNumber);
    d.DeleteObsoleteFiles();
  }

  /** Background steps that readers must not notice. */
  method DoBackground(fmt: Format, d: DBImpl, c: Command, ghost sp: Spec)
    requires StandsFor(fmt, d, sp)
    requires c.SwitchMemTable? || c.Flush? || c.DeleteFiles? || c.BeginCompaction? || c.EndCompaction?
    modifies d
    ensures StandsFor(fmt, d, SpecNext(fmt, sp, c)) && d.db.lastSequence == old(d.db).lastSequence
    ensures Stepped(old(Now(d)), c, Now(d))
  {
    match c {
      case SwitchMemTable => DoSwitch(fmt, d, sp);
      case Flush(size) => DoFlush(fmt, d, size, sp);
      case DeleteFiles => DoDelete(fmt, d, sp);
      case BeginCompaction(level, choice, env) => DoBegin(fmt, d, level, choice, env, sp);
      case EndCompaction => DoEnd(fmt, d, sp);
    }
  }

  method DoSnapshot(fmt: Format, d: DBImpl, ghost sp: Spec)
    requires StandsFor(fmt, d, sp)
    modifies d
    ensures StandsFor(fmt, d, SpecNext(fmt, sp, Snapshot)) && d.db.lastSequence == old(d.db).lastSequence
    ensures Stepped(old(Now(d)), Snapshot, Now(d))
  {
    ghost var db := d.db;
    var s := d.GetSnapshot();
    SnapshotMatches(fmt, db, d.history, sp);
  }

  method DoRelease(fmt: Format, d: DBImpl, i: nat, ghost sp: Spec)
    requires StandsFor(fmt, d, sp)
    modifies d
    ensures StandsFor(fmt, d, SpecNext(fmt, sp, Release(i))) && d.db.lastSequence == old(d.db).lastSequence
    ensures Stepped(old(Now(d)), Release(i), Now(d))
  {
    if i < |d.db.snapshots| {
      DoDrop(fmt, d, i, sp);
    }
  }

  method DoDrop(fmt: Format, d: DBImpl, i: nat, ghost sp: Spec)
    requires StandsFor(fmt, d, sp) && i < |d.db.snapshots|
    modifies d`db
    ensures StandsFor(fmt, d, SpecNext(fmt, sp, Release(i))) && d.db == DropSnapshot(old(d.db), i)
  {
    ReleaseMatches(fmt, d.db, d.history, sp, i);
    d.ReleaseSnapshot(i);
  }

  lemma SnapshotMatches(fmt: Format, db: Db, history: set<Entry>, sp: Spec)
    requires Matches(db, history, sp) && LogMatches(fmt, db, history, sp)
    ensures Matches(TakeSnapshot(db), history, SpecNext(fmt, sp, Snapshot))
    ensures LogMatches(fmt, TakeSnapshot(db), history, SpecNext(fmt, sp, Snapshot))
  {}

  lemma ReleaseMatches(fmt: Format, db: Db, history: set<Entry>, sp: Spec, i: nat)
    requires Matches(db, history, sp) && LogMatches(fmt, db, history, sp) && i < |db.snapshots|
    ensures Matches(DropSnapshot(db, i), history, SpecNext(fmt, sp, Release(i)))
    ensures LogMatches(fmt, DropSnapshot(db, i), history, SpecNext(fmt, sp, Release(i)))
  {
    SavedWithout(history, db.snapshots, sp.saved, db.lastSequence, i, i + 1);
  }

  lemma SavedWithout(history: set<Entry>, snapshots: seq<SequenceNumber>, saved: seq<Store>, last: nat, i: nat, j: nat)
    requires SavedShow(history, snapshots, saved, last) && i < |saved| && j == i + 1
    ensures SavedShow(history, snapshots[..i] + snapshots[j..], saved[..i] + saved[j..], last)
  {}

  method DoGet(fmt: Format, d: DBImpl, c: Command, ghost sp: Spec) returns (r: Option<Value>)
    requires StandsFor(fmt, d, sp) && (c.Get? || c.GetAt?)
    ensures Found(r) == SpecAnswer(sp, c)
  {
    if c.Get? {
      r := d.Get(c.k, d.db.lastSequence);
    } else if c.i < |d.db.snapshots| {
      r := d.Get(c.k, d.db.snapshots[c.i]);
    } else {
      r := None;
    }
  }

  /** An iterator over the latest state or over a snapshot, and any program of calls on it. */
  method DoIterate(fmt: Format, d: DBImpl, at: Option<nat>, calls: seq<DbIter.Op>, ghost sp: Spec)
    returns (seen: seq<Option<(UserKey, Value)>>)
    requires StandsFor(fmt, d, sp)
    ensures Walked(seen) == SpecAnswer(sp, Iterate(at, calls))
  {
    if at.None? {
      AgreesAt(d.db, d.history, d.horizon, d.db.lastSequence, sp.store);
      seen := Walk(d.db, d.db.lastSequence, calls, sp.store);
    } else if at.value < |d.db.snapshots| {
      ghost var m := sp.saved[at.value];
      AgreesAt(d.db, d.history, d.horizon, d.db.snapshots[at.value], m);
      seen := Walk(d.db, d.db.snapshots[at.value], calls, m);
    } else {
      seen := [];
    }
  }

  lemma AgreesAt(db: Db, history: set<Entry>, horizon: nat, s: SequenceNumber, m: Store)
    requires DbState.Valid(db, history, horizon) && horizon <= s && Shows(history, s, m)
    ensures ReadsAs(db.All(), s, m)
  {
    ValidReads(db, history, horizon);
    forall k ensures Read(db.All(), k, s) == if k in m then Some(m[k]) else None {
      assert Read(history, k, s) == Find(m, k);
    }
  }

  method DoCommand(fmt: Format, d: DBImpl, c: Command, ghost sp: Spec)
    returns (d': DBImpl, r: Reply)
    requires StandsFor(fmt, d, sp) && d.db.lastSequence + Updates(c) < MAX_SEQUENCE && CanWrite(fmt, c)
    modifies d
    ensures StandsFor(fmt, d', SpecNext(fmt, sp, c)) && r == SpecAnswer(sp, c) && (d' == d || fresh(d'))
    ensures d'.db.lastSequence <= old(d.db).lastSequence + Updates(c)
    ensures Stepped(old(Now(d)), c, Now(d'))
  {
    d', r := d, Found(None);
    if c.Crash? || c.WriteThenCrash? {
      d' := DoCrash(fmt, d, c, sp);
    } else if c.Get? || c.GetAt? || c.Iterate? {
      r := DoRead(fmt, d, c, sp);
    } else if c.Write? || c.Snapshot? || c.Release? {
      DoClient(fmt, d, c, sp);
    } else {
      DoBackground(fmt, d, c, sp);
    }
  }

  method DoCrash(fmt: Format, d: DBImpl, c: Command, ghost sp: Spec) returns (d': DBImpl)
    requires StandsFor(fmt, d, sp) && d.db.lastSequence + Updates(c) < MAX_SEQUENCE && CanWrite(fmt, c)
    requires c.Crash? || c.WriteThenCrash?
    modifies d
    ensures fresh(d') && StandsFor(fmt, d', SpecNext(fmt, sp, c)) && d'.running == None
    ensures d'.db.lastSequence <= old(d.db).lastSequence + Updates(c)
  {
    if c.Crash? {
      d' := CrashAndOpen(fmt, d, c.kept, c.env, sp, d.db.lastSequence);
    } else {
      d' := DoWriteThenCrash(fmt, d, c.ops, c.kept, c.env, sp);
    }
  }

  method DoClient(fmt: Format, d: DBImpl, c: Command, ghost sp: Spec)
    requires StandsFor(fmt, d, sp) && d.db.lastSequence + Updates(c) < MAX_SEQUENCE && CanWrite(fmt, c)
    requires c.Write? || c.Snapshot? || c.Release?
    modifies d
    ensures StandsFor(fmt, d, SpecNext(fmt, sp, c)) && Stepped(old(Now(d)), c, Now(d))
    ensures d.db.lastSequence == old(d.db).lastSequence + Updates(c)
  {
    match c {
      case Write(ops) => DoWrite(fmt, d, ops, sp);
      case Snapshot => DoSnapshot(fmt, d, sp);
      case Release(i) => DoRelease(fmt, d, i, sp);
    }
  }

  method DoRead(fmt: Format, d: DBImpl, c: Command, ghost sp: Spec) returns (r: Reply)
    requires StandsFor(fmt, d, sp) && (c.Get? || c.GetAt? || c.Iterate?)
    ensures r == SpecAnswer(sp, c)
  {
    if c.Iterate? {
      var seen := DoIterate(fmt, d, c.at, c.calls, sp);
      r := Walked(seen);
    } else {
      var value := DoGet(fmt, d, c, sp);
      r := Found(value);
    }
  }

  method NewDatabase(fmt: Format, env: Env) returns (d: DBImpl)
    ensures fresh(d) && StandsFor(fmt, d, Fresh(map[])) && d.db.lastSequence == 0
    ensures Now(d).running == None && Contents(Now(d).db.version) == {}
  {
    NewDbRecoverable();
    d := new DBImpl.Open(Disk([], [NEW_DB]), env.full, env.size, {}, 0, 0);
    ReopenMatches(fmt, d.db, {}, 0, 0, map[]);
  }

  lemma RunStep(fmt: Format, sp: Spec, cmds: seq<Command>, i: nat, answers: seq<Reply>)
    requires i < |cmds|
    ensures TotalUpdates(cmds[i..]) == Updates(cmds[i]) + TotalUpdates(cmds[i + 1..])
    ensures answers + SpecRun(fmt, sp, cmds[i..]) ==
      answers + [SpecAnswer(sp, cmds[i])] + SpecRun(fmt, SpecNext(fmt, sp, cmds[i]), cmds[i + 1..])
  {
    assert cmds[i..][0] == cmds[i] && cmds[i..][1..] == cmds[i + 1..];
  }

  /** The sequence numbers left are enough for the commands left. */
  ghost predicate Enough(cmds: seq<Command>, i: nat, last: nat) {
    i <= |cmds| && last + TotalUpdates(cmds[i..]) < MAX_SEQUENCE
  }

  method DoNext(fmt: Format, d: DBImpl, cmds: seq<Command>, i: nat, ghost n: nat, ghost sp: Spec)
    returns (d': DBImpl, r: Reply)
    requires n == i + 1 <= |cmds| && StandsFor(fmt, d, sp) && Enough(cmds, i, d.db.lastSequence)
      && CanWrite(fmt, cmds[i])
    modifies d
    ensures StandsFor(fmt, d', SpecNext(fmt, sp, cmds[i])) && r == SpecAnswer(sp, cmds[i]) && (d' == d || fresh(d'))
    ensures Enough(cmds, n, d'.db.lastSequence)
    ensures Stepped(old(Now(d)), cmds[i], Now(d'))
  {
    RunStep(fmt, sp, cmds, i, []);
    d', r := DoCommand(fmt, d, cmds[i], sp);
  }

  /** The first `i` commands led to `sp` with these answers. */
  ghost predicate Ran(fmt: Format, cmds: seq<Command>, i: nat, sp: Spec, answers: seq<Reply>) {
    i <= |cmds| && SpecRun(fmt, Fresh(map[]), cmds) == answers + SpecRun(fmt, sp, cmds[i..])
  }

  lemma {:induction false} RanStart(fmt: Format, cmds: seq<Command>)
    ensures Ran(fmt, cmds, 0, Fresh(map[]), [])
  {
    assert cmds[0..] == cmds;
  }

  lemma {:induction false} RanNext(fmt: Format, cmds: seq<Command>, i: nat, n: nat, sp: Spec, answers: seq<Reply>)
    requires n == i + 1 <= |cmds| && Ran(fmt, cmds, i, sp, answers)
    ensures Ran(fmt, cmds, n, SpecNext(fmt, sp, cmds[i]), answers + [SpecAnswer(sp, cmds[i])])
  {
    RunStep(fmt, sp, cmds, i, answers);
  }

  lemma {:induction false} RanEnd(fmt: Format, cmds: seq<Command>, i: nat, sp: Spec, answers: seq<Reply>)
    requires Ran(fmt, cmds, i, sp, answers) && i == |cmds|
    ensures answers == SpecRun(fmt, Fresh(map[]), cmds)
  {
    assert cmds[i..] == [];
  }

  /** The moments between the first `i` commands: every command did to the tables what it should. */
  ghost predicate Traced(cmds: seq<Command>, i: nat, trace: seq<Moment>) {
    && |trace| == i + 1 && i <= |cmds|
    && trace[0].running == None && Contents(trace[0].db.version) == {}
    && forall j :: 0 <= j < i ==> Stepped(trace[j], cmds[j], trace[j + 1])
  }

  lemma TracedNext(cmds: seq<Command>, i: nat, n: nat, trace: seq<Moment>, m: Moment)
    requires n == i + 1 <= |cmds| && Traced(cmds, i, trace) && Stepped(trace[i], cmds[i], m)
    ensures Traced(cmds, n, trace + [m])
  {
    var all := trace + [m];
    forall j | 0 <= j < n ensures Stepped(all[j], cmds[j], all[j + 1]) {
      if j < i { assert all[j] == trace[j] && all[j + 1] == trace[j + 1]; }
    }
  }

  /** From a new database, every list of commands is answered exactly as by the specification, while files
      move and compactions start, end and install their outputs whenever they should. */
  method Execute(fmt: Format, cmds: seq<Command>, env: Env) returns (answers: seq<Reply>, trace: seq<Moment>)
    requires TotalUpdates(cmds) < MAX_SEQUENCE && forall i :: 0 <= i < |cmds| ==> CanWrite(fmt, cmds[i])
    ensures answers == SpecRun(fmt, Fresh(map[]), cmds)
    ensures Traced(cmds, |cmds|, trace)
  {
    var d := NewDatabase(fmt, env);
    ghost var sp := Fresh(map[]);
    answers, trace := [], [Now(d)];
    assert cmds[0..] == cmds;
    RanStart(fmt, cmds);
    for i := 0 to |cmds|
      invariant StandsFor(fmt, d, sp) && fresh(d) && Enough(cmds, i, d.db.lastSequence)
      invariant Ran(fmt, cmds, i, sp, answers)
      invariant Traced(cmds, i, trace) && trace[i] == Now(d)
    {
      RanNext(fmt, cmds, i, i + 1, sp, answers);
      var r;
      d, r := DoNext(fmt, d, cmds, i, i + 1, sp);
      TracedNext(cmds, i, i + 1, trace, Now(d));
      answers, trace, sp := answers + [r], trace + [Now(d)], SpecNext(fmt, sp, cmds[i]);
    }
    RanEnd(fmt, cmds, |cmds|, sp, answers);
  }
}
