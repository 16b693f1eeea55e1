/** Group commit: many threads in DBImpl::Write, one queue, one leader at a time.

    The protocol is a state machine whose steps are the stretches of Write that run under the mutex,
    and the single log append and memtable insertions the leader makes without it. */
module WriteQueue {
  import opened DbFormat

  /** A write batch, with the size of its encoding. */
  datatype Batch = Batch(updates: seq<Update>, bytes: nat)

  /** The arguments of one call of Write; a compaction request carries no batch. */
  datatype Call = Call(batch: Option<Batch>, sync: bool)

  // ---------- Building a group ----------

  function Updates(c: Call): seq<Update> { if c.batch.Some? then c.batch.value.updates else [] }

  function Bytes(c: Call): nat { if c.batch.Some? then c.batch.value.bytes else 0 }

  function Concat(q: seq<Call>): seq<Update> { if q == [] then [] else Concat(q[..|q| - 1]) + Updates(q[|q| - 1]) }

  function Size(q: seq<Call>): nat { if q == [] then 0 else Size(q[..|q| - 1]) + Bytes(q[|q| - 1]) }

  const MAX_GROUP: nat := 0x10_0000
  const SMALL_GROUP: nat := 0x2_0000

  function MaxSize(first: Call): nat {
    if Bytes(first) <= SMALL_GROUP then Bytes(first) + SMALL_GROUP else MAX_GROUP
  }

  /** The i-th waiting writer may ride along, given that those before it do. */
  predicate Admits(q: seq<Call>, i: nat)
    requires i < |q|
  {
    && (q[i].sync ==> q[0].sync)
    && (q[i].batch.Some? ==> Size(q[..i + 1]) <= MaxSize(q[0]))
  }

  /** The group is the leader and every writer up to the first that may not ride along. */
  predicate IsGroup(q: seq<Call>, n: nat) {
    && 1 <= n <= |q|
    && (forall i :: 1 <= i < n ==> Admits(q, i))
    && (n < |q| ==> !Admits(q, n))
  }

  lemma GroupUnique(q: seq<Call>, m: nat, n: nat)
    requires IsGroup(q, m) && IsGroup(q, n)
    ensures m == n
  {}

  /** Writers that arrive later can only make the group longer. */
  lemma GroupGrows(q: seq<Call>, late: seq<Call>, m: nat, n: nat)
    requires IsGroup(q, m) && IsGroup(q + late, n)
    ensures m <= n && (m < |q| ==> m == n)
  {
    forall i | 0 <= i < |q| ensures Admits(q, i) == Admits(q + late, i) {
      assert (q + late)[..i + 1] == q[..i + 1];
    }
  }

  /** The bytes of all calls that carry a batch. */
  ghost function AllBytes(q: seq<Call>): nat {
    if q == [] then 0 else (if q[0].batch.Some? then q[0].batch.value.bytes else 0) + AllBytes(q[1..])
  }

  lemma {:induction false} AllBytesSnoc(q: seq<Call>, c: Call)
    ensures AllBytes(q + [c]) == AllBytes(q) + Bytes(c)
  {
    if q != [] {
      assert (q + [c])[1..] == q[1..] + [c];
      AllBytesSnoc(q[1..], c);
    } else {
      assert [c][1..] == [];
    }
  }

  lemma {:induction false} SizeIsBytes(q: seq<Call>)
    ensures Size(q) == AllBytes(q)
  {
    if q != [] {
      var n := |q| - 1;
      SizeIsBytes(q[..n]);
      AllBytesSnoc(q[..n], q[n]);
      assert q == q[..n] + [q[n]];
    }
  }

  /** A group never has more bytes than 1 MB, 128 KB more than a small leader, or the leader alone; it has no sync
      call behind a leader without sync; and it stops only where the next call would break one of these. */
  lemma {:induction false} GroupLimits(q: seq<Call>, n: nat, limit: nat)
    requires IsGroup(q, n) && q[0].batch.Some?
    requires limit == if q[0].batch.value.bytes <= 131072 then q[0].batch.value.bytes + 131072 else 1048576
    ensures AllBytes(q[..n]) <= limit || AllBytes(q[..n]) == q[0].batch.value.bytes
    ensures forall i :: 0 <= i < n && q[i].sync ==> q[0].sync
    ensures n < |q| ==> (q[n].sync && !q[0].sync) || (q[n].batch.Some? && AllBytes(q[..n + 1]) > limit)
  {
    SizeIsBytes(q[..n]);
    if n < |q| { SizeIsBytes(q[..n + 1]); }
    SizeWithin(q, n, limit);
    forall i | 0 <= i < n && q[i].sync ensures q[0].sync { assert i > 0 ==> Admits(q, i); }
  }

  lemma {:induction false} SizeWithin(q: seq<Call>, n: nat, limit: nat)
    requires 1 <= n <= |q| && (forall i :: 1 <= i < n ==> Admits(q, i)) && limit == MaxSize(q[0])
    ensures Size(q[..n]) <= limit || Size(q[..n]) == Bytes(q[0])
    decreases n
  {
    if n == 1 {
      assert q[..1][..0] == [] && q[..1] == [q[0]];
    } else {
      SizeWithin(q, n - 1, limit);
      assert Admits(q, n - 1);
      OneMore(q, n - 1, n);
    }
  }

  lemma {:induction false} OneMore(q: seq<Call>, n: nat, n': nat)
    requires n' == n + 1 <= |q|
    ensures Concat(q[..n']) == Concat(q[..n]) + Updates(q[n]) && Size(q[..n']) == Size(q[..n]) + Bytes(q[n])
  {
    assert q[..n'][..n] == q[..n];
  }

  method BuildBatchGroup(writers: seq<Call>) returns (result: seq<Update>, n: nat)
    requires writers != [] && writers[0].batch.Some?
    ensures IsGroup(writers, n) && result == Concat(writers[..n])
  {
    var first := writers[0];
    result := first.batch.value.updates;
    var size := first.batch.value.bytes;
    var maxSize := MAX_GROUP;
    if size <= SMALL_GROUP {
      maxSize := size + SMALL_GROUP;
    }
    n := 1;
    assert writers[..1][..0] == [];
    while n < |writers|
      invariant 1 <= n <= |writers| && (forall i :: 1 <= i < n ==> Admits(writers, i))
      invariant result == Concat(writers[..n]) && size == Size(writers[..n])
    {
      var w := writers[n];
      OneMore(writers, n, n + 1);
      if w.sync && !first.sync {
        break;
      }
      if w.batch.Some? {
        size := size + w.batch.value.bytes;
        if size > maxSize {
          break;
        }
        result := result + w.batch.value.updates;
      }
      n := n + 1;
    }
  }

  // ---------- Threads ----------

  /** Where a thread stands inside Write. A sleeping thread has its own condition variable. */
  datatype Pc = Asleep(signalled: bool) | Leading | Returned(ok: bool)

  datatype Thread = Thread(done: bool, status: bool, pc: Pc)

  function Signal(t: Thread): Thread { if t.pc.Asleep? then t.(pc := Asleep(true)) else t }

  /** What became of the threads popped by one leader. */
  function Released(t: Thread, isLeader: bool, ok: bool): Thread {
    if isLeader then t.(pc := Returned(ok)) else Signal(t.(done := true, status := ok))
  }

  ghost predicate Distinct(q: seq<nat>) { forall i, j :: 0 <= i < j < |q| ==> q[i] != q[j] }

  ghost predicate Popped(before: seq<Thread>, after: seq<Thread>, popped: seq<nat>, leader: nat, ok: bool) {
    && |after| == |before|
    && forall i :: 0 <= i < |before| ==>
      after[i] == if i in popped then Released(before[i], i == leader, ok) else before[i]
  }

  /** The loop at the end of Write: pop and release until the last writer of the group is gone. */
  method ReleaseGroup(threads: seq<Thread>, writers: seq<nat>, n: nat, ok: bool)
    returns (after: seq<Thread>, rest: seq<nat>)
    requires 1 <= n <= |writers| && Distinct(writers) && forall i :: i in writers ==> i < |threads|
    ensures rest == writers[n..] && Popped(threads, after, writers[..n], writers[0], ok)
  {
    var leader, last := writers[0], writers[n - 1];
    after, rest := threads, writers;
    ghost var k := 0;
    while true
      invariant 0 <= k < n && rest == writers[k..] && Popped(threads, after, writers[..k], leader, ok)
      decreases n - k
    {
      var ready := rest[0];
      assert ready == writers[k] && ready in writers && ready !in writers[..k];
      after := after[ready := Released(after[ready], ready == leader, ok)];
      rest := rest[1..];
      k := k + 1;
      assert writers[..k] == writers[..k - 1] + [ready];
      if ready == last { break; }
    }
  }

  // ---------- The protocol ----------

  datatype Record = Record(first: nat, updates: seq<Update>, synced: bool)

  datatype Numbered = Numbered(sn: nat, update: Update)

  /** What the leader is doing. `first` of the group in hand is always lastSequence + 1. */
  datatype Stage =
    | Idle
    | MakingRoom
    | Writing(n: nat, updates: seq<Update>)
    | Inserting(n: nat, updates: seq<Update>, k: nat, logged: bool, ok: bool)

  /** A group whose leader has returned: the calls [from..to), in order of arrival. */
  datatype Group = Group(from: nat, to: nat, sync: bool, first: nat, updates: seq<Update>, logged: bool, ok: bool)

  /** Calls are numbered by arrival. `finished` and `groups` record the past and are read by no step. */
  datatype State = State(
    calls: seq<Call>, threads: seq<Thread>, queue: seq<nat>, stage: Stage, bgError: bool,
    lastSequence: nat, log: seq<Record>, mem: seq<Numbered>, snapshots: seq<nat>,
    finished: seq<nat>, groups: seq<Group>)

  datatype Event =
    | Arrive(call: Call)
    | Wake(id: nat)
    | RoomMade(ok: bool, n: nat)
    | AddRecord(added: bool, flushed: bool)
    | InsertOne
    | Publish
    | Snapshot

  function Init(base: nat): State {
    State([], [], [], Idle, false, base, [], [], [], [], [])
  }

  /** The condition at the top of Write: return if done, lead if first, sleep otherwise. */
  function Loop(s: State, id: nat): State
    requires id < |s.threads|
  {
    var t := s.threads[id];
    if t.done then s.(threads := s.threads[id := t.(pc := Returned(t.status))])
    else if s.queue != [] && s.queue[0] == id then s.(threads := s.threads[id := t.(pc := Leading)],
        stage := MakingRoom)
    else s.(threads := s.threads[id := t.(pc := Asleep(false))])
  }

  function Enqueue(s: State, call: Call): State {
    s.(calls := s.calls + [call], threads := s.threads + [Thread(false, false, Asleep(false))],
        queue := s.queue + [|s.threads|])
  }

  function SignalHead(threads: seq<Thread>, queue: seq<nat>): (r: seq<Thread>)
    ensures |r| == |threads|
  {
    if queue != [] && queue[0] < |threads| then threads[queue[0] := Signal(threads[queue[0]])] else threads
  }

  function ReleaseAll(threads: seq<Thread>, popped: seq<nat>, leader: nat, ok: bool): (r: seq<Thread>)
    ensures Popped(threads, r, popped, leader, ok)
  {
    seq(|threads|, i requires 0 <= i < |threads| =>
      if i in popped then Released(threads[i], i == leader, ok) else threads[i])
  }

  predicate Tickets(s: State) { forall i :: 0 <= i < |s.queue| ==> s.queue[i] < |s.calls| }

  /** The end of Write, for a leader whose group is the first `n` writers. */
  function Complete(s: State, n: nat, updates: seq<Update>, logged: bool, ok: bool): State
    requires 1 <= n <= |s.queue| && Tickets(s)
  {
    var popped, rest := s.queue[..n], s.queue[n..];
    var c := |s.finished|;
    s.(queue := rest, stage := Idle, threads := SignalHead(ReleaseAll(s.threads, popped, s.queue[0], ok), rest),
       lastSequence := s.lastSequence + |updates|, finished := s.finished + popped,
       groups := s.groups + [Group(c, c + n, s.calls[s.queue[0]].sync, s.lastSequence + 1, updates, logged, ok)])
  }

  function Waiting(s: State): seq<Call>
    requires Tickets(s)
  {
    seq(|s.queue|, i requires 0 <= i < |s.queue| => s.calls[s.queue[i]])
  }

  /** The leader's log record; a failed sync leaves it there and stops all later writes. */
  function Append(s: State, sync: bool, added: bool, flushed: bool): State
    requires s.stage.Writing?
  {
    var ok := added && (sync ==> flushed);
    s.(stage := Inserting(s.stage.n, s.stage.updates, 0, added, ok), bgError := s.bgError || (added && !ok),
       log := if added then s.log + [Record(s.lastSequence + 1, s.stage.updates, sync && ok)] else s.log)
  }

  predicate Enabled(s: State, e: Event) {
    && |s.threads| == |s.calls| && Tickets(s)
    && match e
      case Arrive(_) => true
      case Wake(id) => id < |s.threads| && s.threads[id].pc.Asleep?
      case RoomMade(ok, n) =>
        && s.stage.MakingRoom? && s.queue != [] && (s.bgError ==> !ok)
        && (if ok && s.calls[s.queue[0]].batch.Some? then IsGroup(Waiting(s), n) else n == 1)
      case AddRecord(added, flushed) => s.stage.Writing? && 1 <= s.stage.n <= |s.queue| && (flushed ==> added)
      case InsertOne => s.stage.Inserting? && s.stage.ok && s.stage.k < |s.stage.updates|
      case Publish =>
        s.stage.Inserting? && 1 <= s.stage.n <= |s.queue| && (s.stage.ok ==> s.stage.k == |s.stage.updates|)
      case Snapshot => true
  }

  function Step(s: State, e: Event): State
    requires Enabled(s, e)
  {
    match e
    case Arrive(call) => Loop(Enqueue(s, call), |s.threads|)
    case Wake(id) => Loop(s, id)
    case RoomMade(ok, n) =>
      if ok && s.calls[s.queue[0]].batch.Some? then s.(stage := Writing(n, Concat(Waiting(s)[..n])))
      else Complete(s, 1, [], false, ok)
    case AddRecord(added, flushed) => Append(s, s.calls[s.queue[0]].sync, added, flushed)
    case InsertOne =>
      s.(mem := s.mem + [Numbered(s.lastSequence + 1 + s.stage.k, s.stage.updates[s.stage.k])],
         stage := s.stage.(k := s.stage.k + 1))
    case Publish => Complete(s, s.stage.n, s.stage.updates, s.stage.logged, s.stage.ok)
    case Snapshot => s.(snapshots := s.snapshots + [s.lastSequence])
  }

  ghost predicate Possible(s: State, events: seq<Event>)
    decreases |events|
  {
    events == [] || (Enabled(s, events[0]) && Possible(Step(s, events[0]), events[1..]))
  }

  /** The state after a whole run. */
  ghost function Run(s: State, events: seq<Event>): State
    requires Possible(s, events)
    decreases |events|
  {
    if events == [] then s else Run(Step(s, events[0]), events[1..])
  }

  // ---------- First invariant: the queue and the threads ----------

  function Range(a: nat, b: nat): (r: seq<nat>)
    requires a <= b
    ensures |r| == b - a && forall i :: 0 <= i < |r| ==> r[i] == a + i
  {
    seq(b - a, i => a + i)
  }

  ghost predicate Over(t: Thread) { t.pc.Returned? || (t.done && t.pc == Asleep(true)) }

  /** A thread that has not finished, in a state whose next call to finish is `c`. */
  ghost predicate Pending(t: Thread, i: nat, c: nat, idle: bool) {
    && !t.done
    && (if i == c then (if idle then t.pc == Asleep(true) else t.pc == Leading) else t.pc.Asleep?)
  }

  ghost predicate ThreadsOk(threads: seq<Thread>, c: nat, idle: bool) {
    forall i :: 0 <= i < |threads| ==> if i < c then Over(threads[i]) else Pending(threads[i], i, c, idle)
  }

  ghost predicate QueueInv(s: State) {
    var c := |s.finished|;
    && |s.threads| == |s.calls| && c <= |s.calls|
    && s.finished == Range(0, c) && s.queue == Range(c, |s.calls|)
    && ThreadsOk(s.threads, c, s.stage.Idle?)
    && (!s.stage.Idle? ==> c < |s.calls|)
    && (s.stage.Writing? || s.stage.Inserting? ==> 1 <= s.stage.n <= |s.queue|)
  }

  lemma LoopKeepsQueue(s: State, id: nat)
    requires QueueInv(s) && id < |s.threads| && s.threads[id].pc.Asleep?
    ensures QueueInv(Loop(s, id))
  {}

  lemma ArriveKeepsQueue(s: State, call: Call)
    requires QueueInv(s)
    ensures QueueInv(Loop(Enqueue(s, call), |s.threads|))
  {
    var t := Enqueue(s, call);
    var c := |s.finished|;
    assert t.queue == Range(c, |t.calls|);
  }

  lemma CompleteKeepsQueue(s: State, n: nat, updates: seq<Update>, logged: bool, ok: bool, c: nat, d: nat)
    requires QueueInv(s) && !s.stage.Idle? && 1 <= n <= |s.queue| && c == |s.finished| && d == c + n
    ensures QueueInv(Complete(s, n, updates, logged, ok))
  {
    var t := Complete(s, n, updates, logged, ok);
    CompleteIs(s, n, updates, logged, ok, t, c, d, Group(c, d, s.calls[c].sync, s.lastSequence + 1, updates, logged,
        ok));
    RangeSplit(c, d, |s.calls|, n);
    ReleasedThreads(s.threads, t.threads, c, d, s.queue[..n], t.queue, ok);
  }

  lemma RangeSplit(c: nat, d: nat, e: nat, n: nat)
    requires c <= d <= e && n == d - c
    ensures Range(c, e)[..n] == Range(c, d) && Range(c, e)[n..] == Range(d, e)
      && Range(0, c) + Range(c, d) == Range(0, d)
  {}

  lemma ReleasedThreads(threads: seq<Thread>, after: seq<Thread>, c: nat, d: nat, popped: seq<nat>, rest: seq<nat>,
                        ok: bool)
    requires c < d <= |threads| && popped == Range(c, d) && rest == Range(d, |threads|) && ThreadsOk(threads, c, false)
    requires after == SignalHead(ReleaseAll(threads, popped, c, ok), rest)
    ensures ThreadsOk(after, d, true)
  {
    forall i | 0 <= i < |after|
      ensures if i < d then Over(after[i]) else Pending(after[i], i, d, true)
    {
      if c <= i < d { assert popped[i - c] == i; }
    }
  }

  lemma StepKeepsQueue(s: State, e: Event)
    requires QueueInv(s) && Enabled(s, e)
    ensures QueueInv(Step(s, e))
  {
    match e
    case Arrive(call) => ArriveKeepsQueue(s, call);
    case Wake(id) => LoopKeepsQueue(s, id);
    case RoomMade(ok, n) =>
      if !(ok && s.calls[s.queue[0]].batch.Some?) { CompleteKeepsQueue(s, 1, [], false, ok, |s.finished|,
          |s.finished| + 1); }
    case AddRecord(_, _) =>
    case InsertOne =>
    case Publish => CompleteKeepsQueue(s, s.stage.n, s.stage.updates, s.stage.logged, s.stage.ok, |s.finished|,
        |s.finished| + s.stage.n);
    case Snapshot =>
  }

  // ---------- Second invariant: groups, log, memtable, snapshots ----------

  ghost predicate GroupOk(calls: seq<Call>, g: Group) {
    && g.from < g.to <= |calls| && g.sync == calls[g.from].sync
    && (forall i :: g.from <= i < g.to && calls[i].sync ==> g.sync)
    && (g.updates == Concat(calls[g.from..g.to]) || (!g.ok && g.updates == []))
    && (g.ok && g.updates != [] ==> g.logged)
  }

  ghost predicate GroupsOk(calls: seq<Call>, groups: seq<Group>) {
    forall i :: 0 <= i < |groups| ==> GroupOk(calls, groups[i])
  }

  /** The groups follow one another without gap, in calls and in sequence numbers. */
  ghost predicate Tiled(groups: seq<Group>, c: nat, base: nat, last: nat) {
    if groups == [] then c == 0 && last == base
    else
      var g := groups[|groups| - 1];
      g.from < g.to == c && g.first >= 1 && g.first + |g.updates| == last + 1
        && Tiled(groups[..|groups| - 1], g.from, base, g.first - 1)
  }

  function Numbers(updates: seq<Update>, first: nat): (r: seq<Numbered>)
    ensures |r| == |updates|
  {
    seq(|updates|, i requires 0 <= i < |updates| => Numbered(first + i, updates[i]))
  }

  /** What the groups put into the memtable, and into the log. */
  function Applied(groups: seq<Group>): seq<Numbered> {
    if groups == [] then []
    else
      var g := groups[|groups| - 1];
      Applied(groups[..|groups| - 1]) + if g.ok then Numbers(g.updates, g.first) else []
  }

  function Logged(groups: seq<Group>): seq<Record> {
    if groups == [] then []
    else
      var g := groups[|groups| - 1];
      Logged(groups[..|groups| - 1]) + if g.logged then [Record(g.first, g.updates, g.sync && g.ok)] else []
  }

  ghost predicate StageInv(calls: seq<Call>, c: nat, stage: Stage) {
    stage.Writing? || stage.Inserting? ==>
      && c < c + stage.n <= |calls| && stage.updates == Concat(calls[c..c + stage.n])
      && (forall i :: c <= i < c + stage.n && calls[i].sync ==> calls[c].sync)
      && (stage.Inserting? ==> stage.k <= |stage.updates| && (if stage.ok then stage.logged else stage.k == 0))
  }

  /** The part of the group in hand that has reached the memtable, and the log. */
  function InMem(stage: Stage, first: nat): seq<Numbered> {
    if stage.Inserting? && stage.k <= |stage.updates| then Numbers(stage.updates[..stage.k], first) else []
  }

  function InLog(stage: Stage, first: nat, calls: seq<Call>, c: nat): seq<Record> {
    if stage.Inserting? && stage.logged && c < |calls| then [Record(first, stage.updates, calls[c].sync && stage.ok)]
    else []
  }

  ghost predicate MemOk(mem: seq<Numbered>, groups: seq<Group>, stage: Stage, last: nat) {
    mem == Applied(groups) + InMem(stage, last + 1)
  }

  ghost predicate LogOk(log: seq<Record>, groups: seq<Group>, stage: Stage, last: nat, calls: seq<Call>, c: nat) {
    log == Logged(groups) + InLog(stage, last + 1, calls, c)
  }

  function Outcome(t: Thread): bool { if t.pc.Returned? then t.pc.ok else t.status }

  ghost predicate Told(threads: seq<Thread>, g: Group) {
    forall i :: g.from <= i < g.to && i < |threads| ==> Outcome(threads[i]) == g.ok
  }

  ghost predicate AllTold(threads: seq<Thread>, groups: seq<Group>) {
    forall j :: 0 <= j < |groups| ==> Told(threads, groups[j])
  }

  /** A snapshot stands wholly before or wholly after a group. */
  ghost predicate Whole(t: nat, g: Group) { t < g.first || g.first + |g.updates| <= t + 1 }

  ghost predicate SnapshotsOk(snapshots: seq<nat>, groups: seq<Group>, last: nat) {
    forall i :: 0 <= i < |snapshots| ==>
      snapshots[i] <= last && forall j :: 0 <= j < |groups| ==> Whole(snapshots[i], groups[j])
  }

  ghost predicate DataInv(s: State, base: nat) {
    && GroupsOk(s.calls, s.groups) && Tiled(s.groups, |s.finished|, base, s.lastSequence)
    && StageInv(s.calls, |s.finished|, s.stage)
    && MemOk(s.mem, s.groups, s.stage, s.lastSequence)
      && LogOk(s.log, s.groups, s.stage, s.lastSequence, s.calls, |s.finished|)
    && AllTold(s.threads, s.groups) && SnapshotsOk(s.snapshots, s.groups, s.lastSequence)
  }

  lemma {:induction false} TiledBounds(groups: seq<Group>, c: nat, base: nat, last: nat)
    requires Tiled(groups, c, base, last)
    ensures base <= last
    ensures forall i :: 0 <= i < |groups| ==> groups[i].to <= c && groups[i].first + |groups[i].updates| <= last + 1
  {
    if groups != [] {
      var g, init := groups[|groups| - 1], groups[..|groups| - 1];
      TiledBounds(init, g.from, base, g.first - 1);
      assert forall i :: 0 <= i < |init| ==> init[i] == groups[i];
    }
  }

  lemma CallsGrow(calls: seq<Call>, call: Call, groups: seq<Group>, c: nat, stage: Stage)
    requires GroupsOk(calls, groups) && StageInv(calls, c, stage)
    ensures GroupsOk(calls + [call], groups) && StageInv(calls + [call], c, stage)
  {
    var more := calls + [call];
    forall i | 0 <= i < |groups| ensures GroupOk(more, groups[i]) {
      var g := groups[i];
      assert GroupOk(calls, g);
      assert more[g.from..g.to] == calls[g.from..g.to];
    }
    if stage.Writing? || stage.Inserting? {
      assert more[c..c + stage.n] == calls[c..c + stage.n];
    }
  }

  lemma {:induction false} TellOne(threads: seq<Thread>, groups: seq<Group>, id: nat, t: Thread, c: nat)
    requires AllTold(threads, groups) && id < |threads| && forall j :: 0 <= j < |groups| ==> groups[j].to <= c
    requires id >= c || Outcome(t) == Outcome(threads[id])
    ensures AllTold(threads[id := t], groups)
  {
    forall j | 0 <= j < |groups| ensures Told(threads[id := t], groups[j]) {
      assert Told(threads, groups[j]);
    }
  }

  lemma {:induction false} OnlyThreads(s: State, s': State, base: nat)
    requires DataInv(s, base) && AllTold(s'.threads, s.groups)
    requires s' == s.(threads := s'.threads, stage := s'.stage)
    requires s'.stage == s.stage || (s.stage.Idle? && s'.stage.MakingRoom?)
    ensures DataInv(s', base)
  {
    assert StageInv(s'.calls, |s'.finished|, s'.stage);
  }

  lemma {:induction false} LoopKeepsData(s: State, id: nat, base: nat)
    requires DataInv(s, base) && id < |s.threads| && s.threads[id].pc.Asleep?
    requires if s.threads[id].done then true
             else |s.finished| <= id && (s.queue != [] && s.queue[0] == id ==> s.stage.Idle?)
    ensures DataInv(Loop(s, id), base)
  {
    var t := Loop(s, id).threads[id];
    assert Loop(s, id).threads == s.threads[id := t];
    TiledBounds(s.groups, |s.finished|, base, s.lastSequence);
    TellOne(s.threads, s.groups, id, t, |s.finished|);
    OnlyThreads(s, Loop(s, id), base);
  }

  lemma {:induction false} MoreThreads(threads: seq<Thread>, t: Thread, groups: seq<Group>, c: nat)
    requires AllTold(threads, groups) && c <= |threads| && forall j :: 0 <= j < |groups| ==> groups[j].to <= c
    ensures AllTold(threads + [t], groups)
  {
    forall j | 0 <= j < |groups| ensures Told(threads + [t], groups[j]) {
      assert Told(threads, groups[j]);
    }
  }

  lemma {:induction false} LogGrow(log: seq<Record>, groups: seq<Group>, stage: Stage, last: nat, calls: seq<Call>,
                                   call: Call, c: nat)
    requires LogOk(log, groups, stage, last, calls, c) && (stage.Inserting? ==> c < |calls|)
    ensures LogOk(log, groups, stage, last, calls + [call], c)
  {
    assert InLog(stage, last + 1, calls + [call], c) == InLog(stage, last + 1, calls, c);
  }

  lemma {:induction false} EnqueueKeepsData(s: State, call: Call, base: nat)
    requires DataInv(s, base) && |s.finished| <= |s.calls| == |s.threads| && (s.stage.Inserting? ==>
      |s.finished| < |s.calls|)
    ensures DataInv(Enqueue(s, call), base)
  {
    var s' := Enqueue(s, call);
    var c, t := |s.finished|, Thread(false, false, Asleep(false));
    TiledBounds(s.groups, c, base, s.lastSequence);
    CallsGrow(s.calls, call, s.groups, c, s.stage);
    MoreThreads(s.threads, t, s.groups, c);
    assert s'.calls == s.calls + [call] && s'.threads == s.threads + [t];
    LogGrow(s.log, s.groups, s.stage, s.lastSequence, s.calls, call, c);
  }

  lemma {:induction false} BuiltGroup(calls: seq<Call>, c: nat, q: seq<Call>, n: nat, stage: Stage)
    requires c <= |calls| && q == calls[c..] && IsGroup(q, n) && stage == Writing(n, Concat(q[..n]))
    ensures StageInv(calls, c, stage)
  {
    assert q[..n] == calls[c..c + n];
    forall i | c <= i < c + n && calls[i].sync ensures calls[c].sync {
      if c < i { assert Admits(q, i - c); }
    }
  }

  lemma {:induction false} RoomKeepsData(s: State, n: nat, q: seq<Call>, base: nat)
    requires DataInv(s, base) && s.stage.MakingRoom? && |s.finished| <= |s.calls| && q == s.calls[|s.finished|..]
      && IsGroup(q, n)
    ensures DataInv(s.(stage := Writing(n, Concat(q[..n]))), base)
  {
    var stage := Writing(n, Concat(q[..n]));
    BuiltGroup(s.calls, |s.finished|, q, n, stage);
    assert InMem(stage, s.lastSequence + 1) == InMem(s.stage, s.lastSequence + 1);
    assert InLog(stage, s.lastSequence + 1, s.calls, |s.finished|)
        == InLog(s.stage, s.lastSequence + 1, s.calls, |s.finished|);
    assert MemOk(s.mem, s.groups, stage, s.lastSequence);
  }

  lemma {:induction false} WaitingIs(s: State)
    requires QueueInv(s)
    ensures Tickets(s) && Waiting(s) == s.calls[|s.finished|..]
  {}

  lemma {:induction false} RecordAdded(s: State, s': State, sync: bool, added: bool, ok: bool)
    requires MemOk(s.mem, s.groups, s.stage, s.lastSequence)
    requires LogOk(s.log, s.groups, s.stage, s.lastSequence, s.calls, |s.finished|)
    requires s.stage.Writing? && |s.finished| < |s.calls| && sync == s.calls[|s.finished|].sync
    requires s'.stage == Inserting(s.stage.n, s.stage.updates, 0, added, ok)
    requires s'.log == if added then s.log + [Record(s.lastSequence + 1, s.stage.updates, sync && ok)] else s.log
    ensures MemOk(s.mem, s.groups, s'.stage, s.lastSequence)
    ensures LogOk(s'.log, s.groups, s'.stage, s.lastSequence, s.calls, |s.finished|)
  {
    assert s'.stage.updates[..0] == [] && Numbers([], s.lastSequence + 1) == [];
  }

  lemma {:induction false} NewStage(s: State, s': State, base: nat)
    requires DataInv(s, base) && s' == s.(stage := s'.stage, mem := s'.mem, log := s'.log, bgError := s'.bgError)
    requires StageInv(s.calls, |s.finished|, s'.stage)
    requires MemOk(s'.mem, s.groups, s'.stage, s.lastSequence)
    requires LogOk(s'.log, s.groups, s'.stage, s.lastSequence, s.calls, |s.finished|)
    ensures DataInv(s', base)
  {}

  /** A group that goes on from one stage to the next is still the same group. */
  lemma {:induction false} StageMoves(calls: seq<Call>, c: nat, stage: Stage, stage': Stage)
    requires StageInv(calls, c, stage) && (stage.Writing? || stage.Inserting?) && stage'.Inserting?
    requires stage'.n == stage.n && stage'.updates == stage.updates && stage'.k <= |stage.updates|
    requires if stage'.ok then stage'.logged else stage'.k == 0
    ensures StageInv(calls, c, stage')
  {}

  lemma {:induction false} SameLogged(log: seq<Record>, groups: seq<Group>, stage: Stage, stage': Stage, last: nat,
                                      calls: seq<Call>, c: nat)
    requires LogOk(log, groups, stage, last, calls, c) && stage.Inserting? && stage'.Inserting?
    requires stage'.updates == stage.updates && stage'.logged == stage.logged && stage'.ok == stage.ok
    ensures LogOk(log, groups, stage', last, calls, c)
  {
    assert InLog(stage', last + 1, calls, c) == InLog(stage, last + 1, calls, c);
  }

  lemma {:induction false} AddKeepsData(s: State, s': State, sync: bool, added: bool, ok: bool, base: nat)
    requires DataInv(s, base) && s.stage.Writing? && |s.finished| < |s.calls| && sync == s.calls[|s.finished|].sync
    requires s' == s.(stage := s'.stage, log := s'.log, bgError := s'.bgError) && (ok ==> added)
    requires s'.stage == Inserting(s.stage.n, s.stage.updates, 0, added, ok)
    requires s'.log == if added then s.log + [Record(s.lastSequence + 1, s.stage.updates, sync && ok)] else s.log
    ensures DataInv(s', base)
  {
    RecordAdded(s, s', sync, added, ok);
    StageMoves(s.calls, |s.finished|, s.stage, s'.stage);
    NewStage(s, s', base);
  }

  lemma {:induction false} NumbersSnoc(updates: seq<Update>, k: nat, first: nat, sn: nat)
    requires k < |updates| && sn == first + k
    ensures Numbers(updates[..k + 1], first) == Numbers(updates[..k], first) + [Numbered(sn, updates[k])]
  {}

  lemma {:induction false} OneInserted(mem: seq<Numbered>, groups: seq<Group>, stage: Stage, stage': Stage, last: nat,
                                       x: Numbered)
    requires MemOk(mem, groups, stage, last) && stage.Inserting? && stage.k < |stage.updates|
    requires stage' == stage.(k := stage.k + 1) && x == Numbered(last + 1 + stage.k, stage.updates[stage.k])
    ensures MemOk(mem + [x], groups, stage', last)
  {
    NumbersSnoc(stage.updates, stage.k, last + 1, last + 1 + stage.k);
  }

  lemma {:induction false} InsertKeepsData(s: State, s': State, x: Numbered, base: nat)
    requires DataInv(s, base) && s.stage.Inserting? && s.stage.ok && s.stage.k < |s.stage.updates|
    requires x == Numbered(s.lastSequence + 1 + s.stage.k, s.stage.updates[s.stage.k])
    requires s' == s.(mem := s.mem + [x], stage := s.stage.(k := s.stage.k + 1))
    ensures DataInv(s', base)
  {
    OneInserted(s.mem, s.groups, s.stage, s'.stage, s.lastSequence, x);
    SameLogged(s.log, s.groups, s.stage, s'.stage, s.lastSequence, s.calls, |s.finished|);
    StageMoves(s.calls, |s.finished|, s.stage, s'.stage);
    NewStage(s, s', base);
  }

  /** What a leader carries to the end of Write. */
  ghost predicate Carries(s: State, n: nat, updates: seq<Update>, logged: bool, ok: bool) {
    var c := |s.finished|;
    && c < c + n <= |s.calls|
    && if s.stage.MakingRoom? then n == 1 && updates == [] && !logged && (ok ==> s.calls[c].batch == None)
       else s.stage.Inserting? && s.stage == Inserting(n, updates, if ok then |updates| else 0, logged, ok)
  }

  lemma {:induction false} NewGroupOk(s: State, n: nat, updates: seq<Update>, logged: bool, ok: bool, g: Group)
    requires StageInv(s.calls, |s.finished|, s.stage) && Carries(s, n, updates, logged, ok)
    requires g == Group(|s.finished|, |s.finished| + n, s.calls[|s.finished|].sync, s.lastSequence + 1, updates,
        logged, ok)
    ensures GroupOk(s.calls, g)
  {
    if s.stage.MakingRoom? && ok {
      var q := s.calls[g.from..g.to];
      assert q[..|q| - 1] == [] && q[|q| - 1] == s.calls[g.from];
    }
  }

  lemma {:induction false} NewGroupStored(s: State, n: nat, updates: seq<Update>, logged: bool, ok: bool, g: Group,
                                          groups: seq<Group>, last: nat)
    requires MemOk(s.mem, s.groups, s.stage, s.lastSequence)
    requires LogOk(s.log, s.groups, s.stage, s.lastSequence, s.calls, |s.finished|)
    requires Carries(s, n, updates, logged, ok) && groups == s.groups + [g]
    requires g == Group(|s.finished|, |s.finished| + n, s.calls[|s.finished|].sync, s.lastSequence + 1, updates,
        logged, ok)
    ensures MemOk(s.mem, groups, Idle, last) && LogOk(s.log, groups, Idle, last, s.calls, g.to)
  {
    assert groups[..|groups| - 1] == s.groups;
    if s.stage.Inserting? {
      assert updates[..|updates|] == updates && updates[..0] == [] && Numbers([], g.first) == [];
    }
  }

  lemma {:induction false} NewGroupTold(threads: seq<Thread>, after: seq<Thread>, groups: seq<Group>, g: Group,
                                        popped: seq<nat>, rest: seq<nat>)
    requires AllTold(threads, groups) && (forall j :: 0 <= j < |groups| ==>
      groups[j].to <= g.from) && g.from <= g.to <= |threads|
    requires popped == Range(g.from, g.to) && rest == Range(g.to, |threads|)
    requires forall i :: g.from < i < g.to ==> threads[i].pc.Asleep?
    requires after == SignalHead(ReleaseAll(threads, popped, g.from, g.ok), rest)
    ensures AllTold(after, groups + [g])
  {
    forall i | g.from <= i < g.to ensures Outcome(after[i]) == g.ok {
      assert popped[i - g.from] == i;
    }
    forall j | 0 <= j < |groups| ensures Told(after, groups[j]) {
      assert Told(threads, groups[j]);
    }
  }

  lemma {:induction false} NewGroupSnapshots(snapshots: seq<nat>, groups: seq<Group>, g: Group, last: nat, last': nat)
    requires SnapshotsOk(snapshots, groups, last) && g.first == last + 1 && last' == last + |g.updates|
    ensures SnapshotsOk(snapshots, groups + [g], last')
  {}

  lemma {:induction false} GroupsSnoc(calls: seq<Call>, groups: seq<Group>, g: Group, all: seq<Group>, base: nat,
                                      last: nat, last': nat)
    requires GroupsOk(calls, groups) && GroupOk(calls, g) && Tiled(groups, g.from, base, last)
    requires all == groups + [g] && g.first == last + 1 && last' == last + |g.updates|
    ensures GroupsOk(calls, all) && Tiled(all, g.to, base, last')
  {
    assert all[..|all| - 1] == groups;
  }

  lemma {:induction false} CompleteIs(s: State, n: nat, updates: seq<Update>, logged: bool, ok: bool, s': State, c: nat,
                                      d: nat, g: Group)
    requires 1 <= n <= |s.queue| && Tickets(s) && s' == Complete(s, n, updates, logged, ok)
    requires c == |s.finished| && d == c + n && s.queue[0] == c
    requires g == Group(c, d, s.calls[c].sync, s.lastSequence + 1, updates, logged, ok)
    ensures s'.groups == s.groups + [g] && |s'.finished| == d && s'.lastSequence == s.lastSequence + |updates|
      && s'.stage == Idle
    ensures s'.threads == SignalHead(ReleaseAll(s.threads, s.queue[..n], c, ok), s.queue[n..])
    ensures s'.calls == s.calls && s'.mem == s.mem && s'.log == s.log && s'.snapshots == s.snapshots
  {}

  lemma {:induction false} CompleteKeepsData(s: State, n: nat, updates: seq<Update>, logged: bool, ok: bool, base: nat,
                                             c: nat)
    requires DataInv(s, base) && 1 <= n <= |s.queue| && Carries(s, n, updates, logged, ok) && c == |s.finished|
    requires |s.threads| == |s.calls| && s.queue == Range(c, |s.calls|)
    requires forall i :: c < i < |s.threads| ==> s.threads[i].pc.Asleep?
    ensures DataInv(Complete(s, n, updates, logged, ok), base)
  {
    var s', d := Complete(s, n, updates, logged, ok), c + n;
    var g := Group(c, d, s.calls[c].sync, s.lastSequence + 1, updates, logged, ok);
    CompleteIs(s, n, updates, logged, ok, s', c, d, g);
    TiledBounds(s.groups, c, base, s.lastSequence);
    NewGroupOk(s, n, updates, logged, ok, g);
    GroupsSnoc(s.calls, s.groups, g, s'.groups, base, s.lastSequence, s'.lastSequence);
    NewGroupStored(s, n, updates, logged, ok, g, s'.groups, s'.lastSequence);
    RangeSplit(c, d, |s.calls|, n);
    NewGroupTold(s.threads, s'.threads, s.groups, g, s.queue[..n], s.queue[n..]);
    NewGroupSnapshots(s.snapshots, s.groups, g, s.lastSequence, s'.lastSequence);
    assert StageInv(s'.calls, d, s'.stage);
  }

  lemma {:induction false} AddStep(s: State, sync: bool, added: bool, flushed: bool, base: nat)
    requires DataInv(s, base) && s.stage.Writing? && |s.finished| < |s.calls| && sync == s.calls[|s.finished|].sync
    ensures DataInv(Append(s, sync, added, flushed), base)
  {
    AddKeepsData(s, Append(s, sync, added, flushed), sync, added, added && (sync ==> flushed), base);
  }

  lemma {:induction false} InsertStep(s: State, base: nat)
    requires DataInv(s, base) && Enabled(s, InsertOne)
    ensures DataInv(Step(s, InsertOne), base)
  {
    var s' := Step(s, InsertOne);
    InsertKeepsData(s, s', Numbered(s.lastSequence + 1 + s.stage.k, s.stage.updates[s.stage.k]), base);
  }

  lemma {:induction false} StepKeepsData(s: State, e: Event, base: nat)
    requires QueueInv(s) && DataInv(s, base) && Enabled(s, e)
    ensures DataInv(Step(s, e), base)
  {
    match e
    case Arrive(call) =>
      EnqueueKeepsData(s, call, base);
      LoopKeepsData(Enqueue(s, call), |s.threads|, base);
    case Wake(id) => LoopKeepsData(s, id, base);
    case RoomMade(ok, n) =>
      WaitingIs(s);
      if ok && s.calls[s.queue[0]].batch.Some? {
        RoomKeepsData(s, n, Waiting(s), base);
      } else {
        CompleteKeepsData(s, 1, [], false, ok, base, |s.finished|);
      }
    case AddRecord(added, flushed) => AddStep(s, s.calls[s.queue[0]].sync, added, flushed, base);
    case InsertOne => InsertStep(s, base);
    case Publish => CompleteKeepsData(s, s.stage.n, s.stage.updates, s.stage.logged, s.stage.ok, base, |s.finished|);
    case Snapshot => TiledBounds(s.groups, |s.finished|, base, s.lastSequence);
  }

  // ---------- Every run ----------

  lemma {:induction false} RunKeepsInv(s: State, events: seq<Event>, base: nat)
    requires QueueInv(s) && DataInv(s, base) && Possible(s, events)
    ensures QueueInv(Run(s, events)) && DataInv(Run(s, events), base)
    decreases |events|
  {
    if events != [] {
      StepKeepsQueue(s, events[0]);
      StepKeepsData(s, events[0], base);
      RunKeepsInv(Step(s, events[0]), events[1..], base);
    }
  }

  lemma {:induction false} EveryRun(base: nat, events: seq<Event>)
    requires Possible(Init(base), events)
    ensures QueueInv(Run(Init(base), events)) && DataInv(Run(Init(base), events), base)
  {
    RunKeepsInv(Init(base), events, base);
  }

  lemma {:induction false} ConcatSplit(calls: seq<Call>, m: nat, n: nat)
    requires m <= n <= |calls|
    ensures Concat(calls[..n]) == Concat(calls[..m]) + Concat(calls[m..n])
    decreases n
  {
    if m < n {
      ConcatSplit(calls, m, n - 1);
      assert calls[..n][..n - 1] == calls[..n - 1] && calls[m..n][..n - m - 1] == calls[m..n - 1];
    }
  }

  lemma {:induction false} NumbersSplit(a: seq<Update>, b: seq<Update>, first: nat, mid: nat)
    requires mid == first + |a|
    ensures Numbers(a + b, first) == Numbers(a, first) + Numbers(b, mid)
  {}

  lemma {:induction false} OneMoreNumbered(calls: seq<Call>, g: Group, c: nat, base: nat, first: nat, done: seq<Update>,
                                           all: seq<Update>)
    requires GroupOk(calls, g) && g.ok && g.to == c && first == base + 1 && g.first == first + |done|
    requires done == Concat(calls[..g.from]) && all == Concat(calls[..c])
    ensures all == done + g.updates && Numbers(all, first) == Numbers(done, first) + Numbers(g.updates, g.first)
  {
    ConcatSplit(calls, g.from, c);
    NumbersSplit(done, g.updates, first, g.first);
  }

  lemma {:induction false} AllNumbered(calls: seq<Call>, groups: seq<Group>, c: nat, base: nat, last: nat, first: nat,
                                       all: seq<Update>)
    requires GroupsOk(calls, groups) && Tiled(groups, c, base, last) && c <= |calls| && first == base + 1
      && all == Concat(calls[..c])
    requires forall i :: 0 <= i < |groups| ==> groups[i].ok
    ensures last == base + |all| && Applied(groups) == Numbers(all, first)
    decreases |groups|
  {
    if groups != [] {
      var g, init := groups[|groups| - 1], groups[..|groups| - 1];
      assert GroupOk(calls, g);
      assert forall i :: 0 <= i < |init| ==> init[i] == groups[i];
      var done := Concat(calls[..g.from]);
      AllNumbered(calls, init, g.from, base, g.first - 1, first, done);
      OneMoreNumbered(calls, g, c, base, first, done, all);
    }
  }

  /** When no call has failed, the operations of the finished calls carry the next sequence numbers,
      one after another, in order of arrival. */
  lemma {:induction false} ConsecutiveNumbers(base: nat, events: seq<Event>, s: State)
    requires Possible(Init(base), events) && s == Run(Init(base), events)
    requires forall i :: 0 <= i < |s.groups| ==> s.groups[i].ok
    ensures s.finished == Range(0, |s.finished|) && |s.finished| <= |s.calls|
    ensures Numbers(Concat(s.calls[..|s.finished|]), base + 1) <= s.mem
    ensures s.lastSequence == base + |Concat(s.calls[..|s.finished|])|
    ensures s.stage.Idle? ==> s.mem == Numbers(Concat(s.calls[..|s.finished|]), base + 1)
  {
    EveryRun(base, events);
    AllNumbered(s.calls, s.groups, |s.finished|, base, s.lastSequence, base + 1, Concat(s.calls[..|s.finished|]));
  }

  lemma {:induction false} DurableGroup(calls: seq<Call>, groups: seq<Group>, j: nat, g: Group, i: nat)
    requires j < |groups| && g == groups[j] && GroupOk(calls, g) && g.from <= i < g.to && g.ok
    ensures calls[i].sync && Updates(calls[i]) != [] ==>
      Record(g.first, Concat(calls[g.from..g.to]), true) in Logged(groups)
  {
    if calls[i].sync && Updates(calls[i]) != [] {
      ConcatHas(calls[g.from..g.to], i - g.from);
      LoggedHas(groups, j);
    }
  }

  /** A call that asked for sync and was told it succeeded is in the log, behind a sync. */
  lemma {:induction false} SyncIsDurable(base: nat, events: seq<Event>, s: State, j: nat, g: Group, i: nat)
    requires Possible(Init(base), events) && s == Run(Init(base), events) && j < |s.groups| && g == s.groups[j]
    requires g.from <= i < g.to
    ensures g.to <= |s.finished| <= |s.calls| == |s.threads| && Outcome(s.threads[i]) == g.ok
    ensures s.calls[i].sync && g.ok && Updates(s.calls[i]) != [] ==>
      Record(g.first, Concat(s.calls[g.from..g.to]), true) in s.log
  {
    EveryRun(base, events);
    TiledBounds(s.groups, |s.finished|, base, s.lastSequence);
    assert GroupOk(s.calls, g) && Told(s.threads, g);
    if g.ok { DurableGroup(s.calls, s.groups, j, g, i); }
  }

  lemma {:induction false} ConcatHas(q: seq<Call>, i: nat)
    requires i < |q|
    ensures |Updates(q[i])| <= |Concat(q)|
  {
    if i < |q| - 1 { ConcatHas(q[..|q| - 1], i); }
  }

  lemma {:induction false} LoggedHas(groups: seq<Group>, j: nat)
    requires j < |groups| && groups[j].logged
    ensures Record(groups[j].first, groups[j].updates, groups[j].sync && groups[j].ok) in Logged(groups)
  {
    if j < |groups| - 1 { LoggedHas(groups[..|groups| - 1], j); }
  }

  // ---------- Snapshots ----------

  lemma {:induction false} AppliedBound(groups: seq<Group>, c: nat, base: nat, last: nat)
    requires Tiled(groups, c, base, last)
    ensures forall x :: x in Applied(groups) ==> base < x.sn <= last
  {
    if groups != [] {
      var g, init := groups[|groups| - 1], groups[..|groups| - 1];
      AppliedBound(init, g.from, base, g.first - 1);
      TiledBounds(init, g.from, base, g.first - 1);
    }
  }

  /** Memory beyond what is already there carries numbers above `t`. */
  ghost predicate Beyond(seen: seq<Numbered>, mem: seq<Numbered>, t: nat) {
    seen <= mem && forall i :: |seen| <= i < |mem| ==> mem[i].sn > t
  }

  lemma {:induction false} StepBeyond(s: State, e: Event, seen: seq<Numbered>, t: nat)
    requires Enabled(s, e) && Beyond(seen, s.mem, t) && t <= s.lastSequence
    ensures Beyond(seen, Step(s, e).mem, t) && t <= Step(s, e).lastSequence
  {}

  lemma {:induction false} RunBeyond(s: State, events: seq<Event>, seen: seq<Numbered>, t: nat)
    requires Possible(s, events) && Beyond(seen, s.mem, t) && t <= s.lastSequence
    ensures Beyond(seen, Run(s, events).mem, t) && t <= Run(s, events).lastSequence
    decreases |events|
  {
    if events != [] {
      StepBeyond(s, events[0], seen, t);
      RunBeyond(Step(s, events[0]), events[1..], seen, t);
    }
  }

  /** A snapshot taken at any moment of any run sees exactly the groups published before it, and
      nothing of any other group, however the run goes on. */
  lemma {:induction false} SnapshotSeesWholeGroups(base: nat, before: seq<Event>, after: seq<Event>, s: State,
                                                   s': State)
    requires Possible(Init(base), before) && s == Run(Init(base), before)
    requires Possible(s, after) && s' == Run(s, after)
    ensures forall x :: x in Applied(s.groups) ==> x.sn <= s.lastSequence
    ensures Beyond(Applied(s.groups), s'.mem, s.lastSequence)
  {
    EveryRun(base, before);
    AppliedBound(s.groups, |s.finished|, base, s.lastSequence);
    RunBeyond(s, after, Applied(s.groups), s.lastSequence);
  }

  // ---------- Nobody waits for ever, nobody returns twice ----------

  /** The step that brings the queue forward. */
  function Forward(s: State): Event
    requires s.queue != []
  {
    match s.stage
    case Idle => Wake(s.queue[0])
    case MakingRoom => RoomMade(false, 1)
    case Writing(_, _) => AddRecord(false, false)
    case Inserting(_, updates, k, _, ok) => if ok && k < |updates| then InsertOne else Publish
  }

  /** While a call waits, some thread can move; an idle queue's head has been signalled, and a
      finished call that has not returned has been signalled too. */
  lemma {:induction false} NoLostWakeup(base: nat, events: seq<Event>, s: State)
    requires Possible(Init(base), events) && s == Run(Init(base), events)
    ensures s.queue != [] ==> Enabled(s, Forward(s))
    ensures |s.threads| == |s.calls| && Tickets(s) && |s.finished| <= |s.calls|
    ensures s.queue != [] && s.stage.Idle? ==> s.threads[s.queue[0]].pc == Asleep(true)
    ensures forall i :: 0 <= i < |s.finished| ==> s.threads[i].pc.Returned? || s.threads[i].pc == Asleep(true)
  {
    EveryRun(base, events);
  }

  lemma {:induction false} ReleaseSpares(s: State, n: nat, updates: seq<Update>, logged: bool, ok: bool, i: nat)
    requires QueueInv(s) && 1 <= n <= |s.queue| && i < |s.finished|
    ensures Complete(s, n, updates, logged, ok).threads[i] == s.threads[i]
  {
    RangeSplit(|s.finished|, |s.finished| + n, |s.calls|, n);
  }

  /** A call that has returned has returned for good. */
  lemma {:induction false} ReturnsOnce(s: State, e: Event, i: nat)
    requires QueueInv(s) && Enabled(s, e) && i < |s.threads| && s.threads[i].pc.Returned?
    ensures i < |Step(s, e).threads| && Step(s, e).threads[i].pc == s.threads[i].pc
  {
    assert i < |s.finished|;
    match e
    case RoomMade(ok, n) => ReleaseSpares(s, 1, [], false, ok, i);
    case Publish => ReleaseSpares(s, s.stage.n, s.stage.updates, s.stage.logged, s.stage.ok, i);
    case _ =>
  }

  // ---------- After a failed sync ----------

  /** Its record is in the log, and it was told that it failed. */
  predicate LeftBehind(g: Group) { g.logged && !g.ok }

  /** Once a group has left a record behind, those after it neither succeed nor reach the log. */
  ghost predicate NothingAfter(groups: seq<Group>) {
    forall i, j :: 0 <= i < j < |groups| && LeftBehind(groups[i]) ==> !groups[j].ok && !groups[j].logged
  }

  predicate LeavesBehind(stage: Stage) { stage.Inserting? && stage.logged && !stage.ok }

  /** The background error stands for a record left behind, by a group that is over or by the one in hand. */
  ghost predicate ErrorInv(s: State) {
    && NothingAfter(s.groups)
    && (s.bgError <==> SomeLeft(s.groups) || LeavesBehind(s.stage))
    && (SomeLeft(s.groups) ==> s.stage.Idle? || s.stage.MakingRoom?)
    && (s.bgError ==> !s.stage.Writing? && (s.stage.Inserting? ==> LeavesBehind(s.stage)))
  }

  ghost predicate SomeLeft(groups: seq<Group>) { exists i :: 0 <= i < |groups| && LeftBehind(groups[i]) }

  lemma OneMoreLeft(groups: seq<Group>, g: Group)
    ensures SomeLeft(groups + [g]) <==> SomeLeft(groups) || LeftBehind(g)
  {
    var all := groups + [g];
    if SomeLeft(groups) {
      var i :| 0 <= i < |groups| && LeftBehind(groups[i]);
      assert all[i] == groups[i];
    }
    assert all[|groups|] == g;
  }

  lemma CompleteKeepsError(s: State, n: nat, updates: seq<Update>, logged: bool, ok: bool)
    requires ErrorInv(s) && 1 <= n <= |s.queue| && Tickets(s)
    requires (s.bgError ==> !ok) && (SomeLeft(s.groups) ==> !logged) && (logged && !ok <==> LeavesBehind(s.stage))
    ensures ErrorInv(Complete(s, n, updates, logged, ok))
  {
    var groups := Complete(s, n, updates, logged, ok).groups;
    var g := groups[|s.groups|];
    assert groups == s.groups + [g];
    OneMoreLeft(s.groups, g);
  }

  lemma StepKeepsError(s: State, e: Event)
    requires ErrorInv(s) && QueueInv(s) && Enabled(s, e)
    ensures ErrorInv(Step(s, e))
  {
    match e
    case RoomMade(ok, n) =>
      if !(ok && s.calls[s.queue[0]].batch.Some?) { CompleteKeepsError(s, 1, [], false, ok); }
    case Publish => CompleteKeepsError(s, s.stage.n, s.stage.updates, s.stage.logged, s.stage.ok);
    case _ =>
  }

  lemma {:induction false} RunKeepsError(s: State, events: seq<Event>)
    requires ErrorInv(s) && QueueInv(s) && Possible(s, events)
    ensures ErrorInv(Run(s, events))
    decreases |events|
  {
    if events != [] {
      StepKeepsError(s, events[0]);
      StepKeepsQueue(s, events[0]);
      RunKeepsError(Step(s, events[0]), events[1..]);
    }
  }

  /** In every run: after a group whose record was logged and whose sync failed, no group succeeds and none reaches the
      log, because nobody knows what is on disk. */
  lemma {:induction false} FailedSyncIsFinal(base: nat, events: seq<Event>, s: State, i: nat, j: nat)
    requires Possible(Init(base), events) && s == Run(Init(base), events) && i < j < |s.groups|
    ensures s.groups[i].logged && !s.groups[i].ok ==> !s.groups[j].ok && !s.groups[j].logged
  {
    RunKeepsError(Init(base), events);
    assert LeftBehind(s.groups[i]) <==> s.groups[i].logged && !s.groups[i].ok;
  }

  /** And only that makes the error: a record that could not be appended does not. */
  lemma {:induction false} ErrorIff(base: nat, events: seq<Event>, s: State)
    requires Possible(Init(base), events) && s == Run(Init(base), events)
    ensures s.bgError <==>
      || (s.stage.Inserting? && s.stage.logged && !s.stage.ok)
      || (exists i :: 0 <= i < |s.groups| && s.groups[i].logged && !s.groups[i].ok)
  {
    RunKeepsError(Init(base), events);
    assert forall i :: 0 <= i < |s.groups| ==> (LeftBehind(s.groups[i]) <==> s.groups[i].logged && !s.groups[i].ok);
  }

  /** Nothing is written or inserted any more. */
  lemma {:induction false} StaysStopped(s: State, events: seq<Event>)
    requires Possible(s, events) && s.bgError && !s.stage.Writing? && (s.stage.Inserting? ==> !s.stage.ok)
    ensures Run(s, events).log == s.log && Run(s, events).mem == s.mem
    decreases |events|
  {
    if events != [] { StaysStopped(Step(s, events[0]), events[1..]); }
  }

  /** At the moment itself: the record whose sync fails is the last that log and memtable ever get. */
  lemma {:induction false} LastRecord(s: State, after: seq<Event>, s1: State)
    requires s.stage.Writing? && Enabled(s, AddRecord(true, false)) && s.calls[s.queue[0]].sync
    requires s1 == Step(s, AddRecord(true, false)) && Possible(s1, after)
    ensures |s1.log| == |s.log| + 1 && Run(s1, after).log == s1.log && Run(s1, after).mem == s.mem
  {
    StaysStopped(s1, after);
  }
}
