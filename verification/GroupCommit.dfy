/** Concurrent writers and the database: a run of the write queue in which no write fails does to the database
    what one write after another does, a write for each group. */
module GroupCommit {
  import opened DbFormat
  import opened Versions
  import opened DbState
  import opened WriteSteps
  import opened DbImpl
  import opened Crashes
  import opened Database
  import Queue = WriteQueue

  /** No group failed, except for want of room, before anything was logged. */
  ghost predicate Smooth(groups: seq<Queue.Group>) {
    forall i :: 0 <= i < |groups| ==> groups[i].ok || (groups[i].updates == [] && !groups[i].logged)
  }

  /** The writes: one for each group that came to the log. */
  function Writes(groups: seq<Queue.Group>): seq<seq<Update>> {
    if groups == [] then []
    else
      var n := |groups| - 1;
      Writes(groups[..n]) + if groups[n].logged then [groups[n].updates] else []
  }

  /** One write after another leads from the first state to the second. */
  ghost predicate Performed(db0: Db, writes: seq<seq<Update>>, db: Db) {
    if writes == [] then db == db0
    else
      var n := |writes| - 1;
      exists mid :: Performed(db0, writes[..n], mid) && WriteDone(mid, writes[n], db)
  }

  /** A valid database between two writes, showing the map. */
  ghost predicate Serves(db: Db, history: set<Entry>, horizon: nat, m: Store) {
    && DbState.Valid(db, history, horizon) && db.pending == []
    && SeqUnique(history) && AtMost(history, db.lastSequence) && Shows(history, db.lastSequence, m)
  }

  // ---------- One write ----------

  function Batch(ops: seq<Update>, first: nat): (batch: seq<Entry>)
    requires first + |ops| <= MAX_SEQUENCE + 1
    ensures Assigned(ops, first, batch)
  {
    seq(|ops|, i requires 0 <= i < |ops| => Entry(ops[i].user, first + i, ops[i].kind, Stored(ops[i])))
  }

  /** What a write adds to log and memtable. */
  ghost predicate Adds(db: Db, batch: seq<Entry>, db': Db) {
    && db.disk.logs != [] && db'.disk.logs == Appended(db.disk.logs, batch)
    && Elements(db'.mem) == Elements(db.mem) + Elements(batch)
  }

  lemma WriteStaysValid(db: Db, history: set<Entry>, horizon: nat, ops: seq<Update>, first: nat, t: nat,
                        batch: seq<Entry>)
    returns (db': Db)
    requires DbState.Valid(db, history, horizon) && db.pending == [] && first == db.lastSequence + 1
    requires t == db.lastSequence + |ops| < MAX_SEQUENCE && Assigned(ops, first, batch)
    ensures DbState.Valid(db', history + Elements(batch), horizon) && db'.pending == [] && db'.lastSequence == t
    ensures WriteDone(db, ops, db') && Adds(db, batch, db')
  {
    LogWriteValid(db, history, horizon, batch);
    var mid := LogWrite(db, batch);
    PublishValid(mid, history + Elements(batch), horizon);
    db' := Publish(mid);
    assert Logged(db, ops, mid, batch);
  }

  lemma OneWrite(db: Db, history: set<Entry>, horizon: nat, m: Store, ops: seq<Update>, first: nat, t: nat)
    returns (db': Db, batch: seq<Entry>)
    requires Serves(db, history, horizon, m) && first == db.lastSequence + 1
    requires t == db.lastSequence + |ops| < MAX_SEQUENCE
    ensures WriteDone(db, ops, db') && db'.lastSequence == t && Assigned(ops, first, batch) && Adds(db, batch, db')
    ensures Serves(db', history + Elements(batch), horizon, ApplyOps(m, ops))
  {
    batch := Batch(ops, first);
    WriteShows(history, db.lastSequence, first, t, m, ops, batch);
    WriteUnique(history, db.lastSequence, first, t, batch);
    db' := WriteStaysValid(db, history, horizon, ops, first, t, batch);
  }

  // ---------- All groups ----------

  /** An operation of the queue's memtable as an entry, while the sequence numbers last. */
  function AsEntry(x: Queue.Numbered): Entry {
    Entry(x.update.user, if x.sn <= MAX_SEQUENCE then x.sn else MAX_SEQUENCE, x.update.kind, Stored(x.update))
  }

  function AsEntries(xs: seq<Queue.Numbered>): (es: seq<Entry>)
    ensures |es| == |xs|
  {
    seq(|xs|, i requires 0 <= i < |xs| => AsEntry(xs[i]))
  }

  /** The batch of a log record. */
  function AsBatch(r: Queue.Record): seq<Entry> { AsEntries(Queue.Numbers(r.updates, r.first)) }

  function AsBatches(rs: seq<Queue.Record>): (bs: seq<seq<Entry>>)
    ensures |bs| == |rs|
  {
    seq(|rs|, i requires 0 <= i < |rs| => AsBatch(rs[i]))
  }

  lemma {:induction false} BatchIs(ops: seq<Update>, first: nat, batch: seq<Entry>, r: Queue.Record)
    requires Assigned(ops, first, batch) && r.first == first && r.updates == ops
    ensures AsBatch(r) == batch && AsEntries(Queue.Numbers(ops, first)) == batch
  {
    forall i | 0 <= i < |ops| ensures AsBatch(r)[i] == batch[i] {
      assert batch[i].sn == first + i;
    }
  }

  lemma {:induction false} Together(xs: seq<Queue.Numbered>, ys: seq<Queue.Numbered>)
    ensures Elements(AsEntries(xs + ys)) == Elements(AsEntries(xs)) + Elements(AsEntries(ys))
  {
    assert AsEntries(xs + ys) == AsEntries(xs) + AsEntries(ys);
  }

  /** A group's record and operations are in log and memtable behind those of the groups before. */
  ghost predicate TakenTo(db0: Db, groups: seq<Queue.Group>, db: Db) {
    && db0.disk.logs != [] && db.disk.logs != []
    && NewestLog(db.disk.logs) == NewestLog(db0.disk.logs) + AsBatches(Queue.Logged(groups))
    && Elements(db.mem) == Elements(db0.mem) + Elements(AsEntries(Queue.Applied(groups)))
  }

  lemma {:induction false} NoGroups(db: Db)
    requires db.disk.logs != []
    ensures TakenTo(db, [], db)
  {
    assert NewestLog(db.disk.logs) + [] == NewestLog(db.disk.logs);
  }

  lemma {:induction false} LogAdds(db: Db, batch: seq<Entry>, db': Db)
    requires Adds(db, batch, db')
    ensures NewestLog(db'.disk.logs) == NewestLog(db.disk.logs) + [batch]
  {}

  lemma {:induction false} OneMoreRecord(rs: seq<Queue.Record>, r: Queue.Record, newest: seq<seq<Entry>>)
    ensures newest + AsBatches(rs + [r]) == newest + AsBatches(rs) + [AsBatch(r)]
  {}

  /** What one more group means for log and memtable. */
  lemma {:induction false} OneMoreKept(init: seq<Queue.Group>, g: Queue.Group, groups: seq<Queue.Group>)
    requires groups == init + [g] && g.logged && g.ok
    ensures Queue.Logged(groups) == Queue.Logged(init) + [Queue.Record(g.first, g.updates, g.sync)]
    ensures Queue.Applied(groups) == Queue.Applied(init) + Queue.Numbers(g.updates, g.first)
    ensures Writes(groups) == Writes(init) + [g.updates]
  {
    assert groups[..|init|] == init;
  }

  lemma {:induction false} OneMoreGroup(db0: Db, init: seq<Queue.Group>, g: Queue.Group, groups: seq<Queue.Group>,
                                        mid: Db, db: Db, batch: seq<Entry>)
    requires TakenTo(db0, init, mid) && groups == init + [g] && g.logged && g.ok
    requires Assigned(g.updates, g.first, batch) && Adds(mid, batch, db)
    ensures TakenTo(db0, groups, db)
  {
    var r := Queue.Record(g.first, g.updates, g.sync);
    OneMoreKept(init, g, groups);
    LogAdds(mid, batch, db);
    OneMoreRecord(Queue.Logged(init), r, NewestLog(db0.disk.logs));
    BatchIs(g.updates, g.first, batch, r);
    Together(Queue.Applied(init), Queue.Numbers(g.updates, g.first));
  }

  lemma {:induction false} OneMorePerformed(db0: Db, writes: seq<seq<Update>>, mid: Db, ops: seq<Update>, db: Db)
    requires Performed(db0, writes, mid) && WriteDone(mid, ops, db)
    ensures Performed(db0, writes + [ops], db)
  {
    assert (writes + [ops])[..|writes|] == writes;
  }

  /** A group that never came to the log. */
  lemma {:induction false} OneIdleGroup(init: seq<Queue.Group>, g: Queue.Group, groups: seq<Queue.Group>)
    requires groups == init + [g] && !g.logged && g.updates == []
    ensures Writes(groups) == Writes(init) && Queue.Logged(groups) == Queue.Logged(init)
    ensures Queue.Applied(groups) == Queue.Applied(init)
  {
    assert groups[..|init|] == init;
    assert Queue.Numbers([], g.first) == [];
  }

  lemma {:induction false} LastGroup(calls: seq<Queue.Call>, groups: seq<Queue.Group>, c: nat, base: nat, last: nat)
    returns (init: seq<Queue.Group>, g: Queue.Group)
    requires Queue.GroupsOk(calls, groups) && Queue.Tiled(groups, c, base, last) && Smooth(groups) && groups != []
    ensures groups == init + [g] && g.first >= 1 && g.first + |g.updates| == last + 1
    ensures Queue.GroupsOk(calls, init) && Queue.Tiled(init, g.from, base, g.first - 1) && Smooth(init)
    ensures if g.logged then g.ok else g.updates == []
  {
    var n := |groups| - 1;
    init, g := groups[..n], groups[n];
    assert Queue.GroupOk(calls, g);
    forall i | 0 <= i < n ensures Queue.GroupOk(calls, init[i]) { assert init[i] == groups[i]; }
  }

  /** The groups of a run, in order, performed as writes. */
  lemma {:induction false} PerformGroups(calls: seq<Queue.Call>, groups: seq<Queue.Group>, c: nat, base: nat, last: nat,
                                         db0: Db, history: set<Entry>, horizon: nat, m: Store)
    returns (db: Db, history': set<Entry>)
    requires Queue.GroupsOk(calls, groups) && Queue.Tiled(groups, c, base, last) && Smooth(groups)
    requires Serves(db0, history, horizon, m) && base == db0.lastSequence && last < MAX_SEQUENCE
    ensures TakenTo(db0, groups, db) && Performed(db0, Writes(groups), db) && db.lastSequence == last
    ensures Serves(db, history', horizon, ApplyAll(m, Writes(groups)))
    decreases |groups|
  {
    if groups == [] {
      NewestIsYoung(db0, history, horizon);
      NoGroups(db0);
      return db0, history;
    }
    var init, g := LastGroup(calls, groups, c, base, last);
    var mid, h := PerformGroups(calls, init, g.from, base, g.first - 1, db0, history, horizon, m);
    db, history' := PerformGroup(db0, init, g, groups, mid, h, horizon, m, last);
  }

  lemma {:induction false} PerformGroup(db0: Db, init: seq<Queue.Group>, g: Queue.Group, groups: seq<Queue.Group>,
                                        mid: Db, h: set<Entry>, horizon: nat, m: Store, last: nat)
    returns (db: Db, history': set<Entry>)
    requires groups == init + [g] && (if g.logged then g.ok else g.updates == [])
    requires TakenTo(db0, init, mid) && Performed(db0, Writes(init), mid)
    requires Serves(mid, h, horizon, ApplyAll(m, Writes(init)))
    requires g.first == mid.lastSequence + 1 && last == mid.lastSequence + |g.updates| < MAX_SEQUENCE
    ensures TakenTo(db0, groups, db) && Performed(db0, Writes(groups), db) && db.lastSequence == last
    ensures Serves(db, history', horizon, ApplyAll(m, Writes(groups)))
  {
    if g.logged {
      var batch;
      db, batch := OneWrite(mid, h, horizon, ApplyAll(m, Writes(init)), g.updates, g.first, last);
      OneMoreKept(init, g, groups);
      OneMoreGroup(db0, init, g, groups, mid, db, batch);
      OneMorePerformed(db0, Writes(init), mid, g.updates, db);
      OneMoreApplied(m, Writes(init), g.updates);
      history' := h + Elements(batch);
    } else {
      OneIdleGroup(init, g, groups);
      db, history' := mid, h;
    }
  }

  lemma {:induction false} OneMoreApplied(m: Store, writes: seq<seq<Update>>, ops: seq<Update>)
    ensures ApplyAll(m, writes + [ops]) == ApplyOps(ApplyAll(m, writes), ops)
  {
    assert (writes + [ops])[..|writes|] == writes;
  }

  /** Whatever the threads do and however their steps are interleaved, as long as no write fails: between two groups
      the state of the queue's log, memtable and last sequence number is that of a database that has done one
      write after another, a write for each group, and shows the map after them. */
  lemma {:induction false} RunIsWrites(base: nat, events: seq<Queue.Event>, s: Queue.State, db0: Db,
                                       history: set<Entry>, horizon: nat, m: Store)
    returns (db: Db, history': set<Entry>)
    requires Queue.Possible(Queue.Init(base), events) && s == Queue.Run(Queue.Init(base), events)
    requires s.stage.Idle? && Smooth(s.groups) && s.lastSequence < MAX_SEQUENCE
    requires Serves(db0, history, horizon, m) && base == db0.lastSequence
    ensures Performed(db0, Writes(s.groups), db) && db.lastSequence == s.lastSequence
    ensures Serves(db, history', horizon, ApplyAll(m, Writes(s.groups)))
    ensures db0.disk.logs != [] && db.disk.logs != []
    ensures NewestLog(db.disk.logs) == NewestLog(db0.disk.logs) + AsBatches(s.log)
    ensures Elements(db.mem) == Elements(db0.mem) + Elements(AsEntries(s.mem))
  {
    IdleIs(base, events, s);
    db, history' := PerformGroups(s.calls, s.groups, |s.finished|, base, s.lastSequence, db0, history, horizon, m);
  }

  lemma {:induction false} IdleIs(base: nat, events: seq<Queue.Event>, s: Queue.State)
    requires Queue.Possible(Queue.Init(base), events) && s == Queue.Run(Queue.Init(base), events) && s.stage.Idle?
    ensures Queue.GroupsOk(s.calls, s.groups) && Queue.Tiled(s.groups, |s.finished|, base, s.lastSequence)
    ensures s.log == Queue.Logged(s.groups) && s.mem == Queue.Applied(s.groups)
  {
    Queue.EveryRun(base, events);
  }

  // ---------- Arrival order ----------

  lemma {:induction false} OpsTogether(m: Store, a: seq<Update>, b: seq<Update>)
    ensures ApplyOps(m, a + b) == ApplyOps(ApplyOps(m, a), b)
    decreases |b|
  {
    if b == [] {
      assert a + b == a;
    } else {
      var n := |b| - 1;
      OpsTogether(m, a, b[..n]);
      assert (a + b)[..|a + b| - 1] == a + b[..n];
    }
  }

  lemma {:induction false} WritesInOrder(calls: seq<Queue.Call>, groups: seq<Queue.Group>, c: nat, base: nat, last: nat,
                                         m: Store)
    requires Queue.GroupsOk(calls, groups) && Queue.Tiled(groups, c, base, last) && c <= |calls|
    requires forall i :: 0 <= i < |groups| ==> groups[i].ok
    ensures ApplyAll(m, Writes(groups)) == ApplyOps(m, Queue.Concat(calls[..c]))
    decreases |groups|
  {
    if groups == [] {
      assert calls[..c] == [];
    } else {
      var n := |groups| - 1;
      var init, g := groups[..n], groups[n];
      assert groups == init + [g] && Queue.GroupOk(calls, g) && g.to == c;
      assert forall i :: 0 <= i < n ==> init[i] == groups[i];
      var before := Queue.Concat(calls[..g.from]);
      WritesInOrder(calls, init, g.from, base, g.first - 1, m);
      Queue.ConcatSplit(calls, g.from, c);
      LastWrite(groups, init, g, m, before);
      assert g.updates == Queue.Concat(calls[g.from..c]);
    }
  }

  lemma {:induction false} LastWrite(groups: seq<Queue.Group>, init: seq<Queue.Group>, g: Queue.Group, m: Store,
                                     before: seq<Update>)
    requires groups == init + [g] && g.ok && (g.updates != [] ==> g.logged)
    requires ApplyAll(m, Writes(init)) == ApplyOps(m, before)
    ensures ApplyAll(m, Writes(groups)) == ApplyOps(m, before + g.updates)
  {
    OpsTogether(m, before, g.updates);
    if g.logged {
      OneMoreKept(init, g, groups);
      OneMoreApplied(m, Writes(init), g.updates);
    } else {
      OneIdleGroup(init, g, groups);
    }
  }

  /** When no call has failed, the map is the one after the batches of all finished calls in order of arrival. */
  lemma {:induction false} ArrivalOrder(base: nat, events: seq<Queue.Event>, s: Queue.State, m: Store)
    requires Queue.Possible(Queue.Init(base), events) && s == Queue.Run(Queue.Init(base), events)
    requires forall i :: 0 <= i < |s.groups| ==> s.groups[i].ok
    ensures |s.finished| <= |s.calls|
    ensures ApplyAll(m, Writes(s.groups)) == ApplyOps(m, Queue.Concat(s.calls[..|s.finished|]))
  {
    Queue.EveryRun(base, events);
    WritesInOrder(s.calls, s.groups, |s.finished|, base, s.lastSequence, m);
  }
}
