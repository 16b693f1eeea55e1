/** A crash that tears the newest log: the disk with a shorter newest log is recoverable, for the history
    without the batches that were lost. */
module Crashes {
  import opened DbFormat
  import opened Versions
  import opened Manifest
  import opened DbState

  function NewestLog(logs: seq<LogFile>): seq<seq<Entry>>
    requires logs != []
  {
    logs[|logs| - 1].batches
  }

  /** The newest log keeps its first `n` batches. */
  function Torn(logs: seq<LogFile>, n: nat): seq<LogFile>
    requires logs != [] && n <= |NewestLog(logs)|
  {
    var last := |logs| - 1;
    logs[..last] + [LogFile(logs[last].number, logs[last].batches[..n])]
  }

  lemma {:induction false} ConcatSplit(batches: seq<seq<Entry>>, n: nat)
    requires n <= |batches|
    ensures Concat(batches) == Concat(batches[..n]) + Concat(batches[n..])
    decreases |batches|
  {
    if n < |batches| {
      var m := |batches| - 1;
      ConcatSplit(batches[..m], n);
      assert batches[..m][..n] == batches[..n];
      assert batches[n..][..m - n] == batches[..m][n..];
    } else {
      assert batches[..n] == batches && batches[n..] == [];
    }
  }

  /** What the torn logs hold is a prefix of what they held. */
  lemma {:induction false} TornLive(logs: seq<LogFile>, n: nat, from: nat, lost: seq<Entry>)
    requires logs != [] && n <= |NewestLog(logs)| && lost == Concat(NewestLog(logs)[n..])
    requires from <= logs[|logs| - 1].number
    ensures Live(logs, from) == Live(Torn(logs, n), from) + lost
  {
    var last := |logs| - 1;
    var init := logs[..last];
    ConcatSplit(NewestLog(logs), n);
    assert logs == init + [logs[last]];
    LiveSnoc(init, logs[last], from);
    LiveSnoc(init, LogFile(logs[last].number, NewestLog(logs)[..n]), from);
  }

  lemma TornOrder(logs: seq<LogFile>, n: nat)
    requires logs != [] && n <= |NewestLog(logs)| && InNumberOrder(logs)
    ensures InNumberOrder(Torn(logs, n))
  {}

  lemma AscendingApart(a: seq<Entry>, b: seq<Entry>)
    requires Ascending(a + b)
    ensures Ascending(a) && Elements(a) !! Elements(b) && Elements(a + b) == Elements(a) + Elements(b)
  {
    forall i, j | 0 <= i < j < |a| ensures a[i].sn < a[j].sn {
      assert (a + b)[i] == a[i] && (a + b)[j] == a[j];
    }
    forall i, j | 0 <= i < |a| && 0 <= j < |b| ensures a[i] != b[j] {
      assert (a + b)[i] == a[i] && (a + b)[|a| + j] == b[j];
    }
  }

  lemma FewerSettled(tables: set<Entry>, young: set<Entry>, history: set<Entry>, horizon: nat, last: nat,
                     kept: set<Entry>, lost: set<Entry>)
    requires Settled(tables, young, history, horizon) && Accounted(history, last, young)
    requires young == kept + lost && kept !! lost
    ensures Settled(tables, kept, history - lost, horizon) && Accounted(history - lost, last, kept)
  {
    SettledFewer(tables, young, history, horizon, kept);
    assert history - lost == (history - young) + kept;
  }

  /** Losing the end of the newest log loses those batches and nothing else. */
  lemma TornRecoverable(db: Db, history: set<Entry>, horizon: nat, bound: nat, n: nat, lost: seq<Entry>)
    requires DbState.Valid(db, history, horizon) && bound == db.lastSequence + |db.pending|
    requires n <= |NewestLog(db.disk.logs)| && lost == Concat(NewestLog(db.disk.logs)[n..])
    ensures RecoverableAs(db.disk.(logs := Torn(db.disk.logs, n)), db.version, db.logNumber,
                          history - Elements(lost), horizon, bound)
  {
    var logs, v := db.disk.logs, db.version;
    var live, kept := Live(logs, db.logNumber), Live(Torn(logs, n), db.logNumber);
    TornLive(logs, n, db.logNumber, lost);
    TornOrder(logs, n);
    AscendingApart(kept, lost);
    ValidIsRecoverable(db, history, horizon, bound);
    FewerSettled(Contents(v), Elements(live), history, horizon, ManifestLast(db.disk.manifest).value,
                 Elements(kept), Elements(lost));
  }
}
