/** Steps that install a new version: flushing a memtable, moving a file, compacting. */
module TableSteps {
  import opened DbFormat
  import opened Versions
  import opened Overlaps
  import opened Steps
  import opened Compactions
  import opened Interleaving
  import opened Manifest
  import opened DbState

  // ---------- The manifest keeps describing the version ----------

  /** No file was ever recorded under this number. */
  ghost predicate NotMentioned(edits: seq<VersionEdit>, n: nat) {
    forall i, j :: 0 <= i < |edits| && 0 <= j < |edits[i].added| ==> edits[i].added[j].1.number != n
  }

  ghost predicate NoneMentioned(edits: seq<VersionEdit>, files: seq<File>) {
    forall i :: 0 <= i < |files| ==> NotMentioned(edits, files[i].number)
  }

  /** New files carry new numbers; a file added under an old number comes from a shallower level. */
  ghost predicate FreshOrMovedDown(edit: VersionEdit, v: Version, edits: seq<VersionEdit>) {
    forall i :: 0 <= i < |edit.added| ==>
      NotMentioned(edits, edit.added[i].1.number) || WasAbove(v, edit.added[i].0, edit.added[i].1)
  }

  lemma NewNumberNotMentioned(edits: seq<VersionEdit>, next: nat, n: nat)
    requires MentionsBelow(edits, next) && next <= n
    ensures NotMentioned(edits, n)
  {}

  ghost predicate WasAbove(v: Version, level: nat, f: File) {
    exists m :: 0 <= m < level && m < |v.levels| && f in v.levels[m]
  }

  lemma AddsNewFiles(edits: seq<VersionEdit>, v: Version, edit: VersionEdit)
    requires MentionsAbove(edits, v) && FreshOrMovedDown(edit, v, edits)
    ensures AddsNew(edits, edit)
  {
    forall i, j, k | 0 <= i < |edits| && 0 <= j < |edits[i].added| && 0 <= k < |edit.added|
      && edits[i].added[j].0 == edit.added[k].0
      ensures edits[i].added[j].1.number != edit.added[k].1.number
    {
      if !NotMentioned(edits, edit.added[k].1.number) {
        assert WasAbove(v, edit.added[k].0, edit.added[k].1);
      }
    }
  }

  lemma MentionsStayAbove(edits: seq<VersionEdit>, v: Version, v': Version, edit: VersionEdit)
    requires MentionsAbove(edits, v) && FreshOrMovedDown(edit, v, edits)
    requires Edited(v, v', edit) && LevelsOk(edit) && UniqueNumbers(v')
    ensures MentionsAbove(edits + [edit], v')
  {
    var edits' := edits + [edit];
    forall i, j, l, f | 0 <= i < |edits'| && 0 <= j < |edits'[i].added| && 0 <= l < NUM_LEVELS && f in v'.levels[l]
      && edits'[i].added[j].1.number == f.number
      ensures edits'[i].added[j].0 <= l
    {
      if i == |edits| {
        EditMention(v, v', edit, j, l, f);
      } else {
        assert edits'[i] == edits[i];
        OldMention(edits, v, v', edit, i, j, l, f);
      }
    }
  }

  lemma EditMention(v: Version, v': Version, edit: VersionEdit, j: nat, l: nat, f: File)
    requires Edited(v, v', edit) && LevelsOk(edit) && UniqueNumbers(v')
    requires j < |edit.added| && l < NUM_LEVELS && f in v'.levels[l] && edit.added[j].1.number == f.number
    ensures edit.added[j].0 == l
  {
    var lm, g := edit.added[j].0, edit.added[j].1;
    assert (lm, g) in edit.added;
    assert g in v'.levels[lm];
  }

  lemma OldMention(edits: seq<VersionEdit>, v: Version, v': Version, edit: VersionEdit, i: nat, j: nat, l: nat, f: File)
    requires MentionsAbove(edits, v) && FreshOrMovedDown(edit, v, edits)
    requires Edited(v, v', edit) && i < |edits| && j < |edits[i].added| && l < NUM_LEVELS && f in v'.levels[l]
    requires edits[i].added[j].1.number == f.number
    ensures edits[i].added[j].0 <= l
  {
    if (l, f) in edit.added {
      var k :| 0 <= k < |edit.added| && edit.added[k] == (l, f);
      assert !NotMentioned(edits, edit.added[k].1.number);
      assert WasAbove(v, edit.added[k].0, edit.added[k].1);
    }
  }

  /** LogAndApply: a manifest extended by the edit describes the new version. */
  lemma ManifestExtends(edits: seq<VersionEdit>, v: Version, v': Version, logNumber: nat, edit: VersionEdit,
                        logNumber': nat, next': nat, last': nat)
    requires ManifestOk(edits, v, logNumber) && Edited(v, v', edit) && LevelsOk(edit) && SelfConsistent(edit)
    requires edit.logNumber == Some(logNumber') && edit.nextFile == Some(next') && edit.lastSequence == Some(last')
    requires FreshOrMovedDown(edit, v, edits) && ManifestNext(edits).value <= next'
    requires forall i :: 0 <= i < |edit.added| ==> edit.added[i].1.number < next'
    requires logNumber' < next' && UniqueNumbers(v') && NumbersBelow(v', next') && AtMost(Contents(v'), last')
    ensures ManifestOk(edits + [edit], v', logNumber')
    ensures ManifestNext(edits + [edit]) == Some(next') && ManifestLast(edits + [edit]) == Some(last')
  {
    AddsNewFiles(edits, v, edit);
    ReplaysOneMore(edits, v, v', edit);
    MentionsStayAbove(edits, v, v', edit);
    assert MentionsBelow(edits + [edit], next');
  }

  // ---------- CompactMemTable ----------

  function FlushEdit(db: Db, level: nat, size: nat): VersionEdit
    requires db.imm.Some? && Sorted(db.imm.value)
  {
    VersionEdit({}, if db.imm.value == [] then [] else [(level, File(db.nextFile, size, db.imm.value))],
                Some(db.logfileNumber), Some(db.nextFile + 1), Some(db.lastSequence))
  }

  function Flushed(db: Db, v': Version, edit: VersionEdit): Db {
    db.(imm := None, version := v', logNumber := db.logfileNumber, nextFile := db.nextFile + 1,
        disk := db.disk.(manifest := db.disk.manifest + [edit]))
  }

  /** The picked level is clear of the memtable's user keys, as PickLevelForMemTableOutput ensures. */
  ghost predicate LevelIsClear(db: Db, level: nat)
    requires db.imm.Some? && |db.version.levels| == NUM_LEVELS
  {
    && level < NUM_LEVELS
    && (level > 0 && db.imm.value != [] ==>
          ClearThrough(db.version, level, db.imm.value[0].user, db.imm.value[|db.imm.value| - 1].user))
  }

  lemma {:induction false} LiveSuffix(logs: seq<LogFile>, a: nat, b: nat) returns (p: seq<Entry>)
    requires InNumberOrder(logs) && a <= b
    ensures Live(logs, a) == p + Live(logs, b)
  {
    if logs == [] {
      p := [];
    } else {
      var n := |logs| - 1;
      if logs[n].number >= b {
        p := LiveSuffix(logs[..n], a, b);
        assert p + (Live(logs[..n], b) + Concat(logs[n].batches)) == p + Live(logs[..n], b) + Concat(logs[n].batches);
      } else {
        NothingLive(logs, b);
        p := Live(logs, a);
      }
    }
  }

  lemma SuffixAscending(logs: seq<LogFile>, a: nat, b: nat)
    requires LogsOk(logs, a) && a <= b
    ensures LogsOk(logs, b)
  {
    var p := LiveSuffix(logs, a, b);
    var live, tail := Live(logs, a), Live(logs, b);
    forall i, j | 0 <= i < j < |tail| ensures tail[i].sn < tail[j].sn {
      assert live[|p| + i] == tail[i] && live[|p| + j] == tail[j];
    }
  }

  lemma EmptyEditKeeps(v: Version, v': Version, edit: VersionEdit)
    requires |v.levels| == NUM_LEVELS && forall l :: 0 <= l < NUM_LEVELS ==> SortedFiles(v.levels[l])
    requires Edited(v, v', edit) && edit.deleted == {} && edit.added == []
    ensures v' == v
  {
    forall l | 0 <= l < NUM_LEVELS ensures v'.levels[l] == v.levels[l] {
      forall f ensures f in v'.levels[l] <==> f in v.levels[l] {
        assert (l, f) !in edit.added;
      }
      SameFilesSameList(v'.levels[l], v.levels[l]);
    }
    assert v'.levels == v.levels;
  }

  lemma OneFileAdded(v: Version, v': Version, level: nat, f: File, edit: VersionEdit)
    requires Edited(v, v', edit) && edit.deleted == {} && edit.added == [(level, f)] && level < NUM_LEVELS
    ensures Added(v, v', level, f)
  {
    forall l, g | 0 <= l < NUM_LEVELS ensures g in v'.levels[l] <==> g in v.levels[l] || (l == level && g == f) {
      assert (l, g) in edit.added <==> (l, g) == (level, f);
    }
  }

  lemma FlushVersion(db: Db, v': Version, level: nat, size: nat)
    requires MemoryOk(db) && db.imm.Some? && LevelIsClear(db, level)
    requires Edited(db.version, v', FlushEdit(db, level, size))
    ensures Inv(v') && NumbersBelow(v', db.nextFile + 1)
    ensures Contents(v') == Contents(db.version) + Elements(db.imm.value)
  {
    if db.imm.value == [] {
      EmptyEditKeeps(db.version, v', FlushEdit(db, level, size));
    } else {
      var f := File(db.nextFile, size, db.imm.value);
      OneFileAdded(db.version, v', level, f, FlushEdit(db, level, size));
      FlushKeepsInv(db.version, v', level, f);
    }
  }

  lemma FlushIsFresh(db: Db, level: nat, size: nat, next: nat)
    requires db.imm.Some? && Sorted(db.imm.value) && MentionsBelow(db.disk.manifest, next) && next <= db.nextFile
    ensures FreshOrMovedDown(FlushEdit(db, level, size), db.version, db.disk.manifest)
  {
    NewNumberNotMentioned(db.disk.manifest, next, db.nextFile);
  }

  lemma {:induction false} FlushManifest(db: Db, v': Version, level: nat, size: nat)
    requires MemoryOk(db) && db.imm.Some? && level < NUM_LEVELS && db.logfileNumber < db.nextFile
    requires ManifestOk(db.disk.manifest, db.version, db.logNumber)
    requires ManifestNext(db.disk.manifest).value <= db.nextFile
    requires Edited(db.version, v', FlushEdit(db, level, size))
    requires UniqueNumbers(v') && NumbersBelow(v', db.nextFile + 1)
    requires Contents(v') == Contents(db.version) + Elements(db.imm.value)
    ensures ManifestOk(db.disk.manifest + [FlushEdit(db, level, size)], v', db.logfileNumber)
    ensures ManifestNext(db.disk.manifest + [FlushEdit(db, level, size)]) == Some(db.nextFile + 1)
    ensures ManifestLast(db.disk.manifest + [FlushEdit(db, level, size)]) == Some(db.lastSequence)
  {
    var edit := FlushEdit(db, level, size);
    FlushIsFresh(db, level, size, ManifestNext(db.disk.manifest).value);
    ManifestExtends(db.disk.manifest, db.version, v', db.logNumber, edit,
                    db.logfileNumber, db.nextFile + 1, db.lastSequence);
  }

  lemma FlushLogs(db: Db, v': Version, edit: VersionEdit)
    requires LogsHold(db)
    ensures LogsHold(Flushed(db, v', edit))
  {
    SuffixAscending(db.disk.logs, db.logNumber, db.logfileNumber);
  }

  /** Writing the immutable memtable as a table and dropping its log loses and changes nothing. */
  lemma FlushValid(db: Db, history: set<Entry>, horizon: nat, v': Version, level: nat, size: nat)
    requires Valid(db, history, horizon) && db.imm.Some? && LevelIsClear(db, level)
    requires Edited(db.version, v', FlushEdit(db, level, size))
    ensures Valid(Flushed(db, v', FlushEdit(db, level, size)), history, horizon)
  {
    var edit := FlushEdit(db, level, size);
    var db' := Flushed(db, v', edit);
    FlushVersion(db, v', level, size);
    FlushManifest(db, v', level, size);
    FlushLogs(db, v', edit);
    FlushMemory(db, v', edit);
    FlushAccounts(db, history, ManifestLast(db.disk.manifest).value, v', edit);
    FlushSettled(db, history, horizon, v', edit);
  }

  lemma FlushSettled(db: Db, history: set<Entry>, horizon: nat, v': Version, edit: VersionEdit)
    requires MemoryOk(db) && db.imm.Some? && Settled(Contents(db.version), db.Young(), history, horizon)
    requires Contents(v') == Contents(db.version) + Elements(db.imm.value)
    ensures Settled(Contents(v'), Flushed(db, v', edit).Young(), history, horizon)
  {
    var moved, rest := Elements(db.imm.value), Elements(db.mem) + Elements(db.pending);
    assert db.Young() == moved + rest;
    assert Flushed(db, v', edit).Young() == rest;
    forall a, b | a in rest && b in moved && a.user == b.user ensures a.sn > b.sn {
      if a in Elements(db.pending) { assert b.sn <= db.lastSequence; }
    }
    SettledMoved(Contents(db.version), db.Young(), history, horizon, moved, rest);
  }

  lemma FlushAccounts(db: Db, history: set<Entry>, last: nat, v': Version, edit: VersionEdit)
    requires MemoryOk(db) && Accounted(history, last, db.Young()) && last <= db.lastSequence
    ensures Accounted(history, db.lastSequence, Flushed(db, v', edit).Young())
  {}

  lemma FlushMemory(db: Db, v': Version, edit: VersionEdit)
    requires MemoryOk(db) && db.imm.Some? && Inv(v') && NumbersBelow(v', db.nextFile + 1)
    requires Contents(v') == Contents(db.version) + Elements(db.imm.value)
    ensures MemoryOk(Flushed(db, v', edit))
  {
    var db' := Flushed(db, v', edit);
    assert Elements(db'.ImmEntries()) == {};
  }

  // ---------- Installing a compaction or a trivial move ----------

  function Installed(db: Db, v': Version, edit: VersionEdit, next': nat): Db {
    db.(version := v', nextFile := next', disk := db.disk.(manifest := db.disk.manifest + [edit]))
  }

  /** The edit names the current log, the next file number and the published sequence. */
  ghost predicate EditFor(db: Db, edit: VersionEdit, next': nat) {
    && LevelsOk(edit) && SelfConsistent(edit)
    && edit.logNumber == Some(db.logNumber) && edit.nextFile == Some(next')
    && edit.lastSequence == Some(db.lastSequence)
    && db.nextFile <= next'
    && FreshOrMovedDown(edit, db.version, db.disk.manifest)
    && forall i :: 0 <= i < |edit.added| ==> edit.added[i].1.number < next'
  }

  lemma InstallMemory(db: Db, v': Version, edit: VersionEdit, next': nat)
    requires MemoryOk(db) && Inv(v') && NumbersBelow(v', next') && Contents(v') <= Contents(db.version)
    ensures MemoryOk(Installed(db, v', edit, next'))
  {}

  /** Everything the new version has to satisfy before it may replace the current one. */
  ghost predicate Installable(db: Db, history: set<Entry>, horizon': nat, v': Version, edit: VersionEdit, next': nat) {
    && EditFor(db, edit, next') && Edited(db.version, v', edit)
    && Inv(v') && NumbersBelow(v', next') && Contents(v') <= Contents(db.version)
    && horizon' <= db.lastSequence && SnapshotsIn(db.snapshots, horizon', db.lastSequence)
    && Settled(Contents(v'), db.Young(), history, horizon')
  }

  lemma {:induction false} InstallValid(db: Db, history: set<Entry>, horizon: nat, horizon': nat, v': Version,
                                        edit: VersionEdit, next': nat)
    requires Valid(db, history, horizon) && Installable(db, history, horizon', v', edit, next')
    ensures Valid(Installed(db, v', edit, next'), history, horizon')
  {
    var db' := Installed(db, v', edit, next');
    InstallMemory(db, v', edit, next');
    InstallManifest(db, history, horizon, v', edit, next');
    InstallDisk(db, db', history, horizon, horizon', next');
    assert db'.All() == db.Young() + Contents(v');
  }

  lemma {:induction false} InstallManifest(db: Db, history: set<Entry>, horizon: nat, v': Version, edit: VersionEdit,
                                           next': nat)
    requires DiskOk(db, history, horizon) && EditFor(db, edit, next') && Edited(db.version, v', edit)
    requires Inv(v') && NumbersBelow(v', next') && Contents(v') <= Contents(db.version)
    requires AtMost(Contents(db.version), db.lastSequence)
    ensures ManifestOk(db.disk.manifest + [edit], v', db.logNumber)
    ensures ManifestNext(db.disk.manifest + [edit]) == Some(next')
      && ManifestLast(db.disk.manifest + [edit]) == Some(db.lastSequence)
  {
    ManifestExtends(db.disk.manifest, db.version, v', db.logNumber, edit, db.logNumber, next', db.lastSequence);
  }

  lemma {:induction false} InstallDisk(db: Db, db': Db, history: set<Entry>, horizon: nat, horizon': nat, next': nat)
    requires DiskOk(db, history, horizon) && db.nextFile <= next' && horizon' <= db.lastSequence
    requires db' == db.(version := db'.version, nextFile := next', disk := db.disk.(manifest := db'.disk.manifest))
    requires ManifestOk(db'.disk.manifest, db'.version, db.logNumber)
    requires ManifestNext(db'.disk.manifest) == Some(next') && ManifestLast(db'.disk.manifest) == Some(db.lastSequence)
    ensures DiskOk(db', history, horizon')
  {
    assert db'.Young() == db.Young();
  }

  function MoveEdit(db: Db, level: nat, f: File): VersionEdit {
    VersionEdit({(level, f.number)}, [(level + 1, f)], Some(db.logNumber), Some(db.nextFile), Some(db.lastSequence))
  }

  lemma MoveEditReplaces(db: Db, v': Version, level: nat, f: File)
    requires UniqueNumbers(db.version) && level + 1 < NUM_LEVELS && |db.version.levels| == NUM_LEVELS
    requires f in db.version.levels[level]
    requires Edited(db.version, v', MoveEdit(db, level, f))
    ensures Replaced(db.version, v', level, [f], [], [f])
  {
    var v, edit := db.version, MoveEdit(db, level, f);
    forall l, g | 0 <= l < NUM_LEVELS
      ensures g in v'.levels[l] <==> (g in v.levels[l] && !(l == level && g == f)) || (l == level + 1 && g == f)
    {
      assert (l, g) in edit.added <==> (l, g) == (level + 1, f);
      assert (l, g.number) in edit.deleted <==> l == level && g.number == f.number;
    }
    forall g ensures g in [f] <==> g == f {}
  }

  /** BackgroundCompaction's trivial move. */
  lemma MoveValid(db: Db, history: set<Entry>, horizon: nat, v': Version, level: nat, f: File)
    requires Valid(db, history, horizon) && Selected(db.version, level, [f], [])
    requires MoreRecent(Unchosen(db.version.levels[level], [f]), FileEntries([f]))
    requires Edited(db.version, v', MoveEdit(db, level, f))
    ensures Valid(Installed(db, v', MoveEdit(db, level, f), db.nextFile), history, horizon)
  {
    var edit := MoveEdit(db, level, f);
    MoveEditFits(db, level, f);
    MoveEditReplaces(db, v', level, f);
    MoveKeepsNumbers(db.version, v', level, f);
    ReplaceKeepsInv(db.version, v', level, [f], [], [f]);
    MoveKeepsContents(db.version, v', level, f);
    MovedNumbers(db.version, v', level, f, db.nextFile);
    InstallValid(db, history, horizon, horizon, v', edit, db.nextFile);
  }

  lemma MoveEditFits(db: Db, level: nat, f: File)
    requires Selected(db.version, level, [f], []) && NumbersBelow(db.version, db.nextFile)
    ensures f in db.version.levels[level]
    ensures EditFor(db, MoveEdit(db, level, f), db.nextFile)
  {
    assert f in [f];
    assert WasAbove(db.version, level + 1, f);
  }

  lemma MovedNumbers(v: Version, v': Version, level: nat, f: File, next: nat)
    requires NumbersBelow(v, next) && Selected(v, level, [f], []) && Replaced(v, v', level, [f], [], [f])
    ensures NumbersBelow(v', next)
  {
    assert f in [f];
    forall l, g | 0 <= l < NUM_LEVELS && g in v'.levels[l] ensures g.number < next {
      StillThere(v, v', level, f, l, g);
    }
  }

  function Tagged(level: nat, files: seq<File>): (r: seq<(nat, File)>)
    ensures |r| == |files| && forall i :: 0 <= i < |files| ==> r[i] == (level, files[i])
    ensures forall l, f :: (l, f) in r <==> l == level && f in files
  {
    seq(|files|, i requires 0 <= i < |files| => (level, files[i]))
  }

  function NumbersAt(level: nat, files: seq<File>): (r: set<(nat, nat)>)
    ensures forall l, n :: (l, n) in r <==> l == level && exists f :: f in files && f.number == n
  {
    set f | f in files :: (level, f.number)
  }

  /** InstallCompactionResults: delete the inputs, add the outputs one level down. */
  function CompactEdit(db: Db, level: nat, inputs0: seq<File>, inputs1: seq<File>, outputs: seq<File>, next': nat)
    : VersionEdit {
    VersionEdit(NumbersAt(level, inputs0) + NumbersAt(level + 1, inputs1), Tagged(level + 1, outputs),
                Some(db.logNumber), Some(next'), Some(db.lastSequence))
  }

  /** The inputs are where the compaction found them. */
  ghost predicate Present(v: Version, level: nat, inputs0: seq<File>, inputs1: seq<File>) {
    && |v.levels| == NUM_LEVELS && level + 1 < NUM_LEVELS
    && (forall f :: f in inputs0 ==> f in v.levels[level]) && (forall f :: f in inputs1 ==> f in v.levels[level + 1])
  }

  lemma CompactEditReplaces(db: Db, v': Version, level: nat, inputs0: seq<File>, inputs1: seq<File>, outputs: seq<File>,
                            next': nat)
    requires UniqueNumbers(db.version) && Present(db.version, level, inputs0, inputs1)
    requires Edited(db.version, v', CompactEdit(db, level, inputs0, inputs1, outputs, next'))
    ensures Replaced(db.version, v', level, inputs0, inputs1, outputs)
  {
    var v := db.version;
    forall l, g | 0 <= l < NUM_LEVELS && l != level && l != level + 1 ensures g in v'.levels[l] <==> g in v.levels[l] {
      CompactEditMember(db, v', level, inputs0, inputs1, outputs, next', l, g);
    }
    forall g ensures g in v'.levels[level] <==> g in v.levels[level] && g !in inputs0 {
      CompactEditMember(db, v', level, inputs0, inputs1, outputs, next', level, g);
    }
    forall g ensures g in v'.levels[level + 1] <==> (g in v.levels[level + 1] && g !in inputs1) || g in outputs {
      CompactEditMember(db, v', level, inputs0, inputs1, outputs, next', level + 1, g);
    }
  }

  lemma CompactEditMember(db: Db, v': Version, level: nat, inputs0: seq<File>, inputs1: seq<File>, outputs: seq<File>,
                          next': nat, l: nat, g: File)
    requires UniqueNumbers(db.version) && Present(db.version, level, inputs0, inputs1) && l < NUM_LEVELS
    requires Edited(db.version, v', CompactEdit(db, level, inputs0, inputs1, outputs, next'))
    ensures g in v'.levels[l] <==>
      (g in db.version.levels[l] && !(l == level && g in inputs0) && !(l == level + 1 && g in inputs1))
      || (l == level + 1 && g in outputs)
  {
    var edit := CompactEdit(db, level, inputs0, inputs1, outputs, next');
    assert (l, g) in edit.added <==> l == level + 1 && g in outputs;
    if g in db.version.levels[l] { InputByNumber(db.version, level, inputs0, inputs1, l, g); }
  }

  lemma InputByNumber(v: Version, level: nat, inputs0: seq<File>, inputs1: seq<File>, l: nat, g: File)
    requires UniqueNumbers(v) && Present(v, level, inputs0, inputs1) && l < NUM_LEVELS && g in v.levels[l]
    ensures (l, g.number) in NumbersAt(level, inputs0) + NumbersAt(level + 1, inputs1)
      <==> (l == level && g in inputs0) || (l == level + 1 && g in inputs1)
  {}

  /** smallest_snapshot: what the oldest live reader may still look at. */
  function SmallestSnapshot(db: Db): SequenceNumber {
    if db.snapshots == [] then db.lastSequence else db.snapshots[0]
  }

  /** The oldest sequence number at which anybody reads: the least of the snapshots, and the latest if there is none. */
  ghost predicate OldestRead(db: Db, s: SequenceNumber) {
    && (if db.snapshots == [] then s == db.lastSequence else s in db.snapshots)
    && forall i :: 0 <= i < |db.snapshots| ==> s <= db.snapshots[i]
  }

  /** The outputs are numbered from `first`, and no table of the version has one of their numbers. */
  ghost predicate NewOutputs(v: Version, inputs1: seq<File>, outputs: seq<File>, first: nat) {
    && (forall i :: 0 <= i < |outputs| ==> outputs[i].number == first + i)
    && (forall l, f :: 0 <= l < |v.levels| && f in v.levels[l] ==> f.number < first || f.number >= first + |outputs|)
    && (forall f :: f in inputs1 ==> f.number < first)
  }

  lemma CompactEditOk(db: Db, level: nat, inputs0: seq<File>, inputs1: seq<File>, outputs: seq<File>, first: nat,
                      next': nat)
    requires Present(db.version, level, inputs0, inputs1) && NewOutputs(db.version, inputs1, outputs, first)
    ensures LevelsOk(CompactEdit(db, level, inputs0, inputs1, outputs, next'))
    ensures SelfConsistent(CompactEdit(db, level, inputs0, inputs1, outputs, next'))
  {
    var edit := CompactEdit(db, level, inputs0, inputs1, outputs, next');
    forall i | 0 <= i < |edit.added| ensures (edit.added[i].0, edit.added[i].1.number) !in edit.deleted {}
  }

  // ---------- A compaction that takes its time ----------

  /** A compaction under way: the version it holds, its inputs, and what it has made of them. The inputs of
      a manual one are those of a key range. */
  datatype Running = Running(base: Version, level: nat, inputs0: seq<File>, inputs1: seq<File>, input: seq<Entry>,
                             snapshot: SequenceNumber, first: nat, outputs: seq<File>, manual: bool)
  {
    function From(): nat { first + |outputs| }
  }

  /** While it runs, the current version is the one it holds with tables flushed since, nobody has got
      hold of an older snapshot, and nobody has used its file numbers. */
  ghost predicate RunningOk(r: Running, planned: Version, db: Db, horizon: nat) {
    && Compacted(r.base, planned, r.level, r.inputs0, r.inputs1, r.input, r.snapshot, r.first, r.outputs)
    && Harmless(r.base, r.level, r.inputs0, r.inputs1, r.input, r.snapshot)
    && Grown(r.base, db.version, r.From()) && r.From() <= db.nextFile
    && horizon <= r.snapshot <= db.lastSequence
    && (forall i :: 0 <= i < |db.snapshots| ==> r.snapshot <= db.snapshots[i])
    && NoneMentioned(db.disk.manifest, r.outputs)
    && (!r.manual ==> Solid(r.inputs0 + r.inputs1))
  }

  /** The compaction under way, if there is one. */
  ghost predicate CompactionOk(running: Option<Running>, planned: Version, db: Db, horizon: nat) {
    running.Some? ==> RunningOk(running.value, planned, db, horizon)
  }

  lemma CompactionStays(running: Option<Running>, planned: Version, db: Db, db': Db, horizon: nat)
    requires CompactionOk(running, planned, db, horizon)
    requires db'.version == db.version && db'.disk.manifest == db.disk.manifest && db.nextFile <= db'.nextFile
    requires db.lastSequence <= db'.lastSequence
    requires forall i :: 0 <= i < |db'.snapshots| ==>
      db'.snapshots[i] in db.snapshots || db'.snapshots[i] >= db.lastSequence
    ensures CompactionOk(running, planned, db', horizon)
  {
    if running.Some? { RunningStays(running.value, planned, db, db', horizon); }
  }

  /** The inputs that PickCompaction chooses leave no gap, so nothing flushed meanwhile is in the way. */
  lemma PickedIsClear(r: Running, planned: Version, db: Db, horizon: nat)
    requires RunningOk(r, planned, db, horizon) && !r.manual
    ensures ClearOfFlushed(r.base, db.version, r.level, r.outputs)
  {
    SolidIsClear(r.base, planned, db.version, r.level, r.inputs0, r.inputs1, r.input, r.snapshot, r.first, r.outputs,
                 r.From());
  }

  /** Steps that leave version and manifest alone do not disturb it. */
  lemma RunningStays(r: Running, planned: Version, db: Db, db': Db, horizon: nat)
    requires RunningOk(r, planned, db, horizon)
    requires db'.version == db.version && db'.disk.manifest == db.disk.manifest && db.nextFile <= db'.nextFile
    requires db.lastSequence <= db'.lastSequence
    requires forall i :: 0 <= i < |db'.snapshots| ==>
      db'.snapshots[i] in db.snapshots || db'.snapshots[i] >= db.lastSequence
    ensures RunningOk(r, planned, db', horizon)
  {}

  /** Nor does a flush. */
  lemma RunningThroughFlush(r: Running, planned: Version, db: Db, horizon: nat, v': Version, level: nat, size: nat)
    requires RunningOk(r, planned, db, horizon) && MemoryOk(db) && db.imm.Some? && LevelIsClear(db, level)
    requires Edited(db.version, v', FlushEdit(db, level, size))
    ensures RunningOk(r, planned, Flushed(db, v', FlushEdit(db, level, size)), horizon)
  {
    var edit := FlushEdit(db, level, size);
    FlushGrowsBase(r.base, db, r.From(), v', level, size);
    forall i | 0 <= i < |r.outputs| ensures NotMentioned(db.disk.manifest + [edit], r.outputs[i].number) {
      assert r.outputs[i].number == r.first + i;
      StillNotMentioned(db.disk.manifest, edit, r.outputs[i].number);
    }
  }

  lemma CompactionThroughFlush(running: Option<Running>, planned: Version, db: Db, horizon: nat, v': Version,
                               level: nat, size: nat)
    requires CompactionOk(running, planned, db, horizon) && MemoryOk(db) && db.imm.Some? && LevelIsClear(db, level)
    requires Edited(db.version, v', FlushEdit(db, level, size))
    ensures CompactionOk(running, planned, Flushed(db, v', FlushEdit(db, level, size)), horizon)
  {
    if running.Some? { RunningThroughFlush(running.value, planned, db, horizon, v', level, size); }
  }

  lemma StillNotMentioned(edits: seq<VersionEdit>, edit: VersionEdit, n: nat)
    requires NotMentioned(edits, n) && forall j :: 0 <= j < |edit.added| ==> edit.added[j].1.number != n
    ensures NotMentioned(edits + [edit], n)
  {}

  lemma FlushGrowsBase(base: Version, db: Db, from: nat, v': Version, level: nat, size: nat)
    requires Grown(base, db.version, from) && MemoryOk(db) && db.imm.Some? && LevelIsClear(db, level)
    requires from <= db.nextFile && Edited(db.version, v', FlushEdit(db, level, size))
    ensures Grown(base, v', from)
  {
    if db.imm.value == [] {
      EmptyEditKeeps(db.version, v', FlushEdit(db, level, size));
    } else {
      var f := File(db.nextFile, size, db.imm.value);
      OneFileAdded(db.version, v', level, f, FlushEdit(db, level, size));
      FlushGrows(base, db.version, v', from, level, f);
    }
  }

  /** Taking file numbers ahead of time. */
  lemma ReserveValid(db: Db, history: set<Entry>, horizon: nat, next: nat)
    requires Valid(db, history, horizon) && db.nextFile <= next
    ensures Valid(db.(nextFile := next), history, horizon)
  {
    var db' := db.(nextFile := next);
    assert db'.Young() == db.Young();
    assert MemoryOk(db') && LogsHold(db');
  }

  /** A compaction starts from the current version. */
  lemma RunningStarts(r: Running, planned: Version, db: Db, history: set<Entry>, horizon: nat)
    requires Valid(db, history, horizon) && r.base == db.version && r.first == db.nextFile
    requires r.snapshot == SmallestSnapshot(db)
    requires Compacted(r.base, planned, r.level, r.inputs0, r.inputs1, r.input, r.snapshot, r.first, r.outputs)
    requires Harmless(r.base, r.level, r.inputs0, r.inputs1, r.input, r.snapshot)
    requires !r.manual ==> Solid(r.inputs0 + r.inputs1)
    ensures RunningOk(r, planned, db.(nextFile := r.From()), horizon)
  {
    SnapshotBounds(db, horizon);
    GrownSelf(db.version, r.From());
    forall i | 0 <= i < |r.outputs| ensures NotMentioned(db.disk.manifest, r.outputs[i].number) {
      NewNumberNotMentioned(db.disk.manifest, ManifestNext(db.disk.manifest).value, r.outputs[i].number);
    }
  }

  lemma RunningPresent(r: Running, planned: Version, db: Db, horizon: nat)
    requires RunningOk(r, planned, db, horizon)
    ensures Present(db.version, r.level, r.inputs0, r.inputs1)
    ensures NewOutputs(db.version, r.inputs1, r.outputs, r.first)
  {
    forall l, f | 0 <= l < NUM_LEVELS && f in db.version.levels[l]
      ensures f.number < r.first || f.number >= r.first + |r.outputs|
    {
      if f !in r.base.levels[l] { assert FlushedSince(r.base, l, f, r.From()); }
    }
  }

  /** Installing its outputs keeps the database valid, however many memtables were flushed meanwhile, when
      they are clear of the flushed tables. The horizon rises to the snapshot that was smallest when it began. */
  lemma FinishValid(r: Running, planned: Version, db: Db, history: set<Entry>, horizon: nat, v': Version)
    requires Valid(db, history, horizon) && RunningOk(r, planned, db, horizon)
    requires ClearOfFlushed(r.base, db.version, r.level, r.outputs)
    requires Edited(db.version, v', CompactEdit(db, r.level, r.inputs0, r.inputs1, r.outputs, db.nextFile))
    ensures Valid(Installed(db, v', CompactEdit(db, r.level, r.inputs0, r.inputs1, r.outputs, db.nextFile),
        db.nextFile),
                  history, r.snapshot)
  {
    var edit := CompactEdit(db, r.level, r.inputs0, r.inputs1, r.outputs, db.nextFile);
    FinishInstallable(r, planned, db, history, horizon, v', edit);
    InstallValid(db, history, horizon, r.snapshot, v', edit, db.nextFile);
  }

  lemma FinishInstallable(r: Running, planned: Version, db: Db, history: set<Entry>, horizon: nat, v': Version,
                          edit: VersionEdit)
    requires MemoryOk(db) && SnapshotsOk(db, horizon) && Settled(Contents(db.version), db.Young(), history, horizon)
    requires RunningOk(r, planned, db, horizon) && ClearOfFlushed(r.base, db.version, r.level, r.outputs)
    requires edit == CompactEdit(db, r.level, r.inputs0, r.inputs1, r.outputs, db.nextFile)
    requires Edited(db.version, v', edit)
    ensures Installable(db, history, r.snapshot, v', edit, db.nextFile)
  {
    RunningPresent(r, planned, db, horizon);
    FinishEditFor(r, db, edit);
    CompactEditReplaces(db, v', r.level, r.inputs0, r.inputs1, r.outputs, db.nextFile);
    InstalledInv(r.base, planned, db.version, v', r.level, r.inputs0, r.inputs1, r.input, r.snapshot, r.first,
                 r.outputs, r.From());
    FinishNumbers(r, db.version, v', db.nextFile);
    FinishSettled(r, planned, db, history, horizon, v');
  }

  lemma FinishEditFor(r: Running, db: Db, edit: VersionEdit)
    requires Present(db.version, r.level, r.inputs0, r.inputs1)
    requires NewOutputs(db.version, r.inputs1, r.outputs, r.first) && r.From() <= db.nextFile
    requires NoneMentioned(db.disk.manifest, r.outputs)
    requires edit == CompactEdit(db, r.level, r.inputs0, r.inputs1, r.outputs, db.nextFile)
    ensures EditFor(db, edit, db.nextFile)
  {
    CompactEditOk(db, r.level, r.inputs0, r.inputs1, r.outputs, r.first, db.nextFile);
    forall i | 0 <= i < |edit.added| ensures NotMentioned(db.disk.manifest, edit.added[i].1.number) {
      assert edit.added[i].1 == r.outputs[i];
    }
  }

  lemma FinishNumbers(r: Running, w: Version, v': Version, next: nat)
    requires NumbersBelow(w, next) && r.From() <= next
    requires Replaced(w, v', r.level, r.inputs0, r.inputs1, r.outputs)
    requires forall i :: 0 <= i < |r.outputs| ==> r.outputs[i].number == r.first + i
    ensures NumbersBelow(v', next)
  {
    forall l, g | 0 <= l < NUM_LEVELS && g in v'.levels[l] ensures g.number < next {
      assert g in w.levels[l] || g in r.outputs;
    }
  }

  lemma FinishSettled(r: Running, planned: Version, db: Db, history: set<Entry>, horizon: nat, v': Version)
    requires Inv(db.version) && Settled(Contents(db.version), db.Young(), history, horizon)
    requires RunningOk(r, planned, db, horizon)
    requires Replaced(db.version, v', r.level, r.inputs0, r.inputs1, r.outputs)
    ensures Contents(v') <= Contents(db.version) && Settled(Contents(v'), db.Young(), history, r.snapshot)
  {
    forall k, s: SequenceNumber | s >= r.snapshot
      ensures Contents(v') <= Contents(db.version) && Read(Contents(v'), k, s) == Read(Contents(db.version), k, s)
    {
      InstalledReads(r.base, planned, db.version, v', r.level, r.inputs0, r.inputs1, r.input, r.snapshot, r.first,
                     r.outputs, r.From(), k, s);
    }
    InstalledReads(r.base, planned, db.version, v', r.level, r.inputs0, r.inputs1, r.input, r.snapshot, r.first,
                   r.outputs, r.From(), 0, r.snapshot);
    SettledTables(Contents(db.version), db.Young(), history, horizon, Contents(v'), r.snapshot);
  }

  lemma SnapshotBounds(db: Db, horizon: nat)
    requires SnapshotsOk(db, horizon)
    ensures horizon <= SmallestSnapshot(db) <= db.lastSequence < MAX_SEQUENCE
    ensures SnapshotsIn(db.snapshots, SmallestSnapshot(db), db.lastSequence) && OldestRead(db, SmallestSnapshot(db))
  {}
}
