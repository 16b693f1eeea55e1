/** Which table files are on disk: flushes and compactions writing them, versions naming them by number,
    readers holding old versions, deletion of what nobody needs, and crashes between any two steps. */
module TableFiles {
  import opened DbFormat
  import opened Versions

  datatype OnDisk = Partial | Whole(table: Run)

  /** The tables a version is made of, by number, and what a reader expects in each. */
  type Tables = map<nat, Run>

  /** A manifest record: numbers deleted, tables added, and the next file number. */
  datatype Edit = Edit(deleted: set<nat>, added: Tables, next: nat)

  /** WriteLevel0Table: the number is pending while the table is written, and no longer once it is. */
  datatype FlushJob = NoFlush | Writing(number: nat, table: Run) | Written(number: nat, table: Run)

  /** A compaction, with the version it holds, its finished outputs and the one being written. */
  datatype Compaction = Compaction(base: Tables, inputs: set<nat>, outputs: Tables, open: Option<nat>, done: bool)

  datatype State = State(disk: map<nat, OnDisk>, next: nat, pending: set<nat>, current: Tables, held: seq<Tables>,
                         manifest: seq<Edit>, flush: FlushJob, compaction: Option<Compaction>, installing: Option<Edit>)

  function Apply(v: Tables, edit: Edit): Tables { (v - edit.deleted) + edit.added }

  function Replay(manifest: seq<Edit>): Tables {
    if manifest == [] then map[]
    else
      var n := |manifest| - 1;
      Apply(Replay(manifest[..n]), manifest[n])
  }

  function RecordedNext(manifest: seq<Edit>): nat { if manifest == [] then 2 else manifest[|manifest| - 1].next }

  const START: State := State(map[], 2, {}, map[], [], [], NoFlush, None, None)

  // ---------- Steps ----------

  datatype Action =
    | Acquire | Release(i: nat)
    | StartFlush(table: Run) | FinishFlush | LogFlush
    | StartCompaction(inputs: set<nat>) | OpenOutput | FinishOutput(table: Run) | LogCompaction | CleanUp
    | LogMove(n: nat)
    | Install
    | DeleteObsolete
    | Crash

  /** The background thread is between two jobs, or inside a compaction at a point where it may flush. */
  predicate Quiet(s: State) { s.flush == NoFlush && s.installing == None }

  predicate Enabled(s: State, a: Action) {
    match a
    case Acquire => true
    case Release(i) => i < |s.held|
    case StartFlush(_) => Quiet(s)
    case FinishFlush => s.flush.Writing?
    case LogFlush => s.flush.Written? && s.installing == None
    case StartCompaction(inputs) => Quiet(s) && s.compaction == None && inputs <= s.current.Keys
    case OpenOutput => Quiet(s) && s.compaction.Some? && s.compaction.value.open == None && !s.compaction.value.done
    case FinishOutput(_) => Quiet(s) && s.compaction.Some? && s.compaction.value.open.Some?
    case LogCompaction => Quiet(s) && s.compaction.Some? && s.compaction.value.open == None && !s.compaction.value.done
    case CleanUp => Quiet(s) && s.compaction.Some?
    case LogMove(n) => Quiet(s) && s.compaction == None && n in s.current
    case Install => s.installing.Some?
    case DeleteObsolete => Quiet(s)
    case Crash => true
  }

  /** AddLiveFiles: the files of every version still referenced. */
  function Live(s: State): set<nat> {
    s.current.Keys + (set i, n | 0 <= i < |s.held| && n in s.held[i] :: n)
    + (if s.compaction.Some? then s.compaction.value.base.Keys else {})
  }

  /** The outputs of the compaction under way, with the one being written. */
  function CompactionFiles(s: State): set<nat> {
    if s.compaction.Some? then
      s.compaction.value.outputs.Keys + (if s.compaction.value.open.Some? then {s.compaction.value.open.value} else {})
    else {}
  }

  /** DeleteObsoleteFiles: what is neither live nor pending goes. */
  function Deleted(s: State): State {
    s.(disk := map n | n in s.disk && (n in Live(s) || n in s.pending) :: s.disk[n])
  }

  /** The process dies: what is left is the disk, and the manifest says what it means. */
  function Recovered(s: State): State {
    var v := Replay(s.manifest);
    State(s.disk, RecordedNext(s.manifest), {}, v, [], [Edit({}, v, RecordedNext(s.manifest))], NoFlush, None, None)
  }

  function NewNumber(s: State): State {
    s.(next := s.next + 1, pending := s.pending + {s.next}, disk := s.disk[s.next := Partial])
  }

  function Log(s: State, edit: Edit): State { s.(manifest := s.manifest + [edit], installing := Some(edit)) }

  function Do(s: State, a: Action): State
    requires Enabled(s, a)
  {
    match a
    case Acquire => s.(held := s.held + [s.current])
    case Release(i) => s.(held := s.held[..i] + s.held[i + 1..])
    case StartFlush(t) => NewNumber(s).(flush := Writing(s.next, t))
    case FinishFlush =>
      s.(disk := s.disk[s.flush.number := Whole(s.flush.table)], pending := s.pending - {s.flush.number},
         flush := Written(s.flush.number, s.flush.table))
    case LogFlush => Log(s, Edit({}, map[s.flush.number := s.flush.table], s.next))
    case StartCompaction(inputs) => s.(compaction := Some(Compaction(s.current, inputs, map[], None, false)))
    case OpenOutput => NewNumber(s).(compaction := Some(s.compaction.value.(open := Some(s.next))))
    case FinishOutput(t) =>
      var c := s.compaction.value;
      s.(disk := s.disk[c.open.value := Whole(t)],
         compaction := Some(c.(outputs := c.outputs[c.open.value := t], open := None)))
    case LogCompaction => Log(s, Edit(s.compaction.value.inputs, s.compaction.value.outputs, s.next))
    case LogMove(n) => Log(s, Edit({n}, map[n := s.current[n]], s.next))
    case CleanUp => s.(pending := s.pending - CompactionFiles(s), compaction := None)
    case Install =>
      var v := Apply(s.current, s.installing.value);
      if s.flush.Written? then s.(current := v, installing := None, flush := NoFlush)
      else if s.compaction.Some? then
        s.(current := v, installing := None, compaction := Some(s.compaction.value.(done := true)))
      else s.(current := v, installing := None)
    case DeleteObsolete => Deleted(s)
    case Crash => Recovered(s)
  }

  // ---------- The invariant ----------

  /** Every table of the version is on disk, whole, and is the one expected. */
  ghost predicate Backed(v: Tables, disk: map<nat, OnDisk>) {
    forall n :: n in v ==> n in disk && disk[n] == Whole(v[n])
  }

  ghost predicate Below(v: Tables, next: nat) { forall n :: n in v ==> n < next }

  ghost predicate Good(v: Tables, disk: map<nat, OnDisk>, next: nat) { Backed(v, disk) && Below(v, next) }

  ghost predicate AllHeld(s: State) { forall i :: 0 <= i < |s.held| ==> Good(s.held[i], s.disk, s.next) }

  /** No version names this number. */
  ghost predicate Unnamed(s: State, n: nat) {
    && n !in s.current && (forall i :: 0 <= i < |s.held| ==> n !in s.held[i])
    && (s.compaction.Some? ==> n !in s.compaction.value.base && n !in s.compaction.value.outputs)
  }

  ghost predicate FlushOk(s: State) {
    && (s.flush.Writing? ==> s.flush.number in s.pending && s.flush.number < s.next && Unnamed(s, s.flush.number))
    && (s.flush.Writing? && s.compaction.Some? ==> s.compaction.value.open != Some(s.flush.number))
    && (s.flush.Written? ==> Good(map[s.flush.number := s.flush.table], s.disk, s.next))
    && (s.flush.Written? ==> s.flush.number !in s.pending && Unnamed(s, s.flush.number))
  }

  ghost predicate OutputsReady(s: State, edit: Edit) {
    s.compaction.Some? && s.compaction.value.open == None && edit.added == s.compaction.value.outputs
  }

  /** A trivial move deletes a number and adds it again, at another level. */
  ghost predicate MovesOne(s: State, edit: Edit) {
    s.compaction == None && forall n :: n in edit.added ==> n in s.current && edit.added[n] == s.current[n]
  }

  /** What is being installed is the flushed table, the finished outputs of the compaction, or a moved table. */
  ghost predicate InstallOk(s: State) {
    && (s.installing.Some? ==> !s.flush.Writing? && Good(s.installing.value.added, s.disk, s.next))
    && (s.installing.Some? && s.flush.Written? ==> s.installing.value.added == map[s.flush.number := s.flush.table])
    && (s.installing.Some? && s.flush.NoFlush? ==>
          OutputsReady(s, s.installing.value) || MovesOne(s, s.installing.value))
  }

  ghost predicate CompactionOk(s: State) {
    s.compaction.Some? ==>
      var c := s.compaction.value;
      && Good(c.base, s.disk, s.next) && Good(c.outputs, s.disk, s.next) && c.outputs.Keys <= s.pending
      && (c.open.Some? ==> c.open.value in s.pending && c.open.value < s.next && Unnamed(s, c.open.value))
      && (c.open.Some? && s.flush.Written? ==> s.flush.number != c.open.value)
  }

  /** Pending are the table being flushed and the outputs of the compaction. */
  ghost predicate PendingOk(s: State) {
    s.pending == (if s.flush.Writing? then {s.flush.number} else {}) + CompactionFiles(s)
  }

  /** The manifest means the current version, or the one being installed. */
  ghost predicate ManifestOk(s: State) {
    && Replay(s.manifest) == (if s.installing.Some? then Apply(s.current, s.installing.value) else s.current)
    && Below(Replay(s.manifest), RecordedNext(s.manifest)) && RecordedNext(s.manifest) <= s.next
  }

  ghost predicate Inv(s: State) {
    && Good(s.current, s.disk, s.next) && AllHeld(s) && FlushOk(s) && CompactionOk(s) && PendingOk(s)
    && ManifestOk(s) && InstallOk(s)
  }

  lemma {:induction false} ReplaySnoc(manifest: seq<Edit>, edit: Edit)
    ensures Replay(manifest + [edit]) == Apply(Replay(manifest), edit)
  {
    assert (manifest + [edit])[..|manifest|] == manifest;
  }

  lemma ApplyGood(v: Tables, edit: Edit, disk: map<nat, OnDisk>, next: nat)
    requires Good(v, disk, next) && Good(edit.added, disk, next)
    ensures Good(Apply(v, edit), disk, next)
  {}

  lemma NewNumberKeeps(s: State, a: Action)
    requires Inv(s) && Enabled(s, a) && (a.StartFlush? || a.OpenOutput?)
    ensures Inv(Do(s, a))
  {
    assert Unnamed(s, s.next) && s.next !in s.pending;
  }

  lemma {:induction false} LogKeeps(s: State, edit: Edit)
    requires Inv(s) && s.installing == None && !s.flush.Writing? && Good(edit.added, s.disk, s.next)
      && edit.next == s.next
    requires s.flush.Written? ==> edit.added == map[s.flush.number := s.flush.table]
    requires s.flush.NoFlush? ==> OutputsReady(s, edit) || MovesOne(s, edit)
    ensures Inv(Log(s, edit))
  {
    ReplaySnoc(s.manifest, edit);
    ApplyGood(s.current, edit, s.disk, s.next);
  }

  lemma {:induction false} CrashKeeps(s: State)
    requires Inv(s)
    ensures Inv(Recovered(s))
  {
    var v, next := Replay(s.manifest), RecordedNext(s.manifest);
    if s.installing.Some? { ApplyGood(s.current, s.installing.value, s.disk, s.next); }
    ReplaySnoc([], Edit({}, v, next));
    assert [] + [Edit({}, v, next)] == [Edit({}, v, next)];
    assert Apply(map[], Edit({}, v, next)) == v;
  }

  lemma {:induction false} DeleteSparesInstalling(s: State)
    requires Inv(s) && !s.flush.Written? && s.installing.Some?
    ensures Good(s.installing.value.added, Deleted(s).disk, s.next)
  {}

  lemma {:induction false} DeleteKeeps(s: State)
    requires Inv(s) && !s.flush.Written?
    ensures Inv(Deleted(s))
  {
    var s' := Deleted(s);
    if s.installing.Some? { DeleteSparesInstalling(s); }
    forall n | n in s.disk && (n in Live(s) || n in s.pending) ensures n in s'.disk && s'.disk[n] == s.disk[n] {}
    forall i | 0 <= i < |s.held| ensures Good(s.held[i], s'.disk, s.next) {
      assert Good(s.held[i], s.disk, s.next);
      forall n | n in s.held[i] ensures n in Live(s) {}
    }
  }

  lemma {:induction false} InstallKeeps(s: State)
    requires Inv(s) && s.installing.Some?
    ensures Inv(Do(s, Install))
  {
    ApplyGood(s.current, s.installing.value, s.disk, s.next);
  }

  lemma {:induction false} FinishKeeps(s: State, a: Action)
    requires Inv(s) && Enabled(s, a) && (a.FinishFlush? || a.FinishOutput?)
    ensures Inv(Do(s, a))
  {}

  lemma {:induction false} ReaderKeeps(s: State, a: Action)
    requires Inv(s) && Enabled(s, a) && (a.Acquire? || a.Release?)
    ensures Inv(Do(s, a))
  {}

  /** No step loses a table that the current version, a reader, a running compaction or the manifest needs. */
  lemma {:induction false} StepKeepsInv(s: State, a: Action)
    requires Inv(s) && Enabled(s, a)
    ensures Inv(Do(s, a))
  {
    match a
    case Acquire => ReaderKeeps(s, a);
    case Release(_) => ReaderKeeps(s, a);
    case StartFlush(_) => NewNumberKeeps(s, a);
    case OpenOutput => NewNumberKeeps(s, a);
    case FinishFlush => FinishKeeps(s, a);
    case FinishOutput(_) => FinishKeeps(s, a);
    case LogFlush => LogKeeps(s, Edit({}, map[s.flush.number := s.flush.table], s.next));
    case LogCompaction => LogKeeps(s, Edit(s.compaction.value.inputs, s.compaction.value.outputs, s.next));
    case LogMove(n) => LogKeeps(s, Edit({n}, map[n := s.current[n]], s.next));
    case Install => InstallKeeps(s);
    case DeleteObsolete => DeleteKeeps(s);
    case Crash => CrashKeeps(s);
    case StartCompaction(_) =>
    case CleanUp =>
  }

  // ---------- Every run ----------

  ghost predicate IsRun(states: seq<State>, actions: seq<Action>) {
    && |states| == |actions| + 1 && states[0] == START
    && forall i :: 0 <= i < |actions| ==> Enabled(states[i], actions[i]) && states[i + 1] == Do(states[i], actions[i])
  }

  lemma {:induction false} RunKeepsInv(states: seq<State>, actions: seq<Action>, i: nat)
    requires IsRun(states, actions) && i <= |actions|
    ensures Inv(states[i])
  {
    if i > 0 {
      RunKeepsInv(states, actions, i - 1);
      StepKeepsInv(states[i - 1], actions[i - 1]);
    }
  }

  /** In every run, at every moment, the tables of the current version and of every version a reader or the
      compaction still holds are all on disk, whole. */
  lemma NothingMissing(states: seq<State>, actions: seq<Action>, i: nat)
    requires IsRun(states, actions) && i <= |actions|
    ensures Backed(states[i].current, states[i].disk)
    ensures forall j :: 0 <= j < |states[i].held| ==> Backed(states[i].held[j], states[i].disk)
    ensures states[i].compaction.Some? ==> Backed(states[i].compaction.value.base, states[i].disk)
  {
    RunKeepsInv(states, actions, i);
    forall j | 0 <= j < |states[i].held| ensures Backed(states[i].held[j], states[i].disk) {
      assert Good(states[i].held[j], states[i].disk, states[i].next);
    }
  }

  /** Whenever the process dies, the manifest means the version that was current, or the one whose record had
      just been written, and every table of it is there. */
  lemma NothingLostInCrash(states: seq<State>, actions: seq<Action>, i: nat)
    requires IsRun(states, actions) && i <= |actions|
    ensures Backed(Recovered(states[i]).current, states[i].disk)
    ensures Recovered(states[i]).current == states[i].current
      || (states[i].installing.Some? && Recovered(states[i]).current == Apply(states[i].current,
          states[i].installing.value))
  {
    RunKeepsInv(states, actions, i);
    CrashKeeps(states[i]);
  }

  lemma LiveOnDisk(s: State)
    requires Inv(s)
    ensures Live(s) <= s.disk.Keys
  {
    forall i | 0 <= i < |s.held| ensures s.held[i].Keys <= s.disk.Keys {
      assert Good(s.held[i], s.disk, s.next);
    }
  }

  /** Right after a deletion, in any run, the files on disk are exactly those of the current version, of the
      versions still held and of the compaction under way: none is missing and none is left over. */
  lemma ExactlyNeededLeft(states: seq<State>, actions: seq<Action>, i: nat)
    requires IsRun(states, actions) && i < |actions| && actions[i] == DeleteObsolete
    ensures Live(states[i + 1]) <= states[i + 1].disk.Keys
    ensures states[i + 1].disk.Keys <= Live(states[i + 1]) + CompactionFiles(states[i + 1])
    ensures states[i + 1].compaction == None ==> states[i + 1].disk.Keys == Live(states[i + 1])
  {
    RunKeepsInv(states, actions, i);
    RunKeepsInv(states, actions, i + 1);
    LiveOnDisk(states[i + 1]);
  }

  /** A deletion by another thread, at whatever moment it comes, is harmless if and only if no flushed table
      has stopped being pending without being installed. If one has, it is gone when it gets installed. */
  lemma DeletingHarmlessIff(s: State)
    requires Inv(s)
    ensures Inv(Deleted(s)) <==> !s.flush.Written?
    ensures s.flush.Written? ==>
      var t := if s.installing.Some? then Deleted(s) else Do(Deleted(s), LogFlush);
      Enabled(t, Install) && !Backed(Do(t, Install).current, t.disk)
  {
    if s.flush.Written? {
      var n := s.flush.number;
      assert n !in Live(s) && n !in Deleted(s).disk;
      assert n in map[n := s.flush.table];
      var t := if s.installing.Some? then Deleted(s) else Do(Deleted(s), LogFlush);
      assert n in Do(t, Install).current;
    } else {
      DeleteKeeps(s);
    }
  }
}
