/** The write-ahead log as bytes: batches of entries written as log records, cut off by a crash after any
    byte, and read back. */
module TornLogs {
  import opened DbFormat
  import opened Coding
  import opened LogFormat
  import opened LogReader
  import WriteBatches

  /** User keys and values as the bytes a client passes. */
  datatype Names = Names(key: UserKey -> seq<Byte>, unkey: seq<Byte> -> UserKey,
                         value: Value -> seq<Byte>, unvalue: seq<Byte> -> Value)

  /** The key and value of one operation have bytes of their own, less than 4 GB of them. */
  predicate Named(names: Names, user: UserKey, kind: ValueType, value: Value) {
    && Short(names.key(user)) && names.unkey(names.key(user)) == user
    && (if kind.Put? then Short(names.value(value)) && names.unvalue(names.value(value)) == value
        else value == "")
  }

  predicate AllNamed(names: Names, es: seq<Entry>) {
    |es| < 0x1_0000_0000 && forall i :: 0 <= i < |es| ==> Named(names, es[i].user, es[i].kind, es[i].value)
  }

  ghost predicate Consecutive(es: seq<Entry>) { forall i :: 0 <= i < |es| ==> es[i].sn == es[0].sn + i }

  // ---------- One batch ----------

  function ToOp(names: Names, e: Entry): WriteBatches.Op {
    if e.kind.Put? then WriteBatches.PutOp(names.key(e.user), names.value(e.value))
    else WriteBatches.DeleteOp(names.key(e.user))
  }

  function ToOps(names: Names, es: seq<Entry>): (ops: seq<WriteBatches.Op>)
    ensures |ops| == |es|
  {
    seq(|es|, i requires 0 <= i < |es| => ToOp(names, es[i]))
  }

  /** The sequence number in the header; an empty batch's does not matter to anyone. */
  function FirstOf(es: seq<Entry>): SequenceNumber { if es == [] then 0 else es[0].sn }

  function Record(names: Names, es: seq<Entry>): (r: seq<Byte>)
    requires |es| < 0x1_0000_0000
  {
    WriteBatches.EncodeBatch(FirstOf(es), ToOps(names, es))
  }

  method BuildRecord(names: Names, es: seq<Entry>) returns (r: seq<Byte>)
    requires |es| < 0x1_0000_0000
    ensures r == Record(names, es)
  {
    var batch := new WriteBatches.WriteBatch();
    for i := 0 to |es|
      invariant batch.rep == WriteBatches.EncodeBatch(0, ToOps(names, es[..i]))
    {
      var ops, more := ToOps(names, es[..i]), ToOps(names, es[..i + 1]);
      assert more == ops + [ToOp(names, es[i])];
      if es[i].kind.Put? {
        batch.Put(names.key(es[i].user), names.value(es[i].value), 0, ops);
      } else {
        batch.Delete(names.key(es[i].user), 0, ops);
      }
    }
    assert es[..|es|] == es;
    batch.SetSequence(FirstOf(es), 0, ToOps(names, es));
    r := batch.rep;
  }

  /** MemTableInserter: consecutive numbers from the header's. */
  function FromOps(names: Names, sn: nat, ops: seq<WriteBatches.Op>): seq<Entry>
    decreases |ops|
  {
    if ops == [] || sn > MAX_SEQUENCE then []
    else
      var e := if ops[0].PutOp? then Entry(names.unkey(ops[0].key), sn, Put, names.unvalue(ops[0].value))
               else Entry(names.unkey(ops[0].key), sn, Deletion, "");
      [e] + FromOps(names, sn + 1, ops[1..])
  }

  lemma {:induction false} EntriesRoundTrip(names: Names, sn: nat, es: seq<Entry>)
    requires AllNamed(names, es) && forall i :: 0 <= i < |es| ==> es[i].sn == sn + i
    ensures FromOps(names, sn, ToOps(names, es)) == es
    decreases |es|
  {
    if es != [] {
      var ops := ToOps(names, es);
      assert ops[1..] == ToOps(names, es[1..]);
      assert es[0].sn == sn;
      EntriesRoundTrip(names, sn + 1, es[1..]);
      assert es == [es[0]] + es[1..];
    }
  }

  /** InsertInto without paranoid checks: what the handler got before any fault is inserted. */
  function Inserted(names: Names, record: seq<Byte>): seq<Entry>
    requires |record| >= WriteBatches.HEADER
  {
    FromOps(names, DecodeFixed64(record[..8]), WriteBatches.ParseBatch(record).ops)
  }

  lemma RecordRoundTrips(names: Names, es: seq<Entry>)
    requires AllNamed(names, es) && Consecutive(es)
    ensures Inserted(names, Record(names, es)) == es
  {
    WriteBatches.BatchRoundTrip(FirstOf(es), ToOps(names, es));
    EntriesRoundTrip(names, FirstOf(es), es);
  }

  // ---------- A whole log ----------

  predicate Loggable(names: Names, batches: seq<seq<Entry>>) {
    forall i :: 0 <= i < |batches| ==> AllNamed(names, batches[i])
  }

  ghost predicate AllConsecutive(batches: seq<seq<Entry>>) {
    forall i :: 0 <= i < |batches| ==> Consecutive(batches[i])
  }

  function Records(names: Names, batches: seq<seq<Entry>>): (rs: seq<seq<Byte>>)
    requires Loggable(names, batches)
    ensures |rs| == |batches|
  {
    seq(|batches|, i requires 0 <= i < |batches| => Record(names, batches[i]))
  }

  /** RecoverLogFile: records too small for a header are skipped. */
  function Decoded(names: Names, records: seq<seq<Byte>>): seq<seq<Entry>> {
    if records == [] then []
    else (if |records[0]| < WriteBatches.HEADER then [] else [Inserted(names, records[0])]) + Decoded(names,
        records[1..])
  }

  lemma {:induction false} LogRoundTrips(names: Names, batches: seq<seq<Entry>>)
    requires Loggable(names, batches) && AllConsecutive(batches)
    ensures Decoded(names, Records(names, batches)) == batches
    decreases |batches|
  {
    if batches != [] {
      var records := Records(names, batches);
      RecordsTail(names, batches);
      RecordRoundTrips(names, batches[0]);
      LogRoundTrips(names, batches[1..]);
      DecodedFirst(names, records, batches[0], batches[1..]);
      assert batches == [batches[0]] + batches[1..];
    }
  }

  lemma {:induction false} RecordsTail(names: Names, batches: seq<seq<Entry>>)
    requires Loggable(names, batches) && batches != []
    ensures Records(names, batches)[1..] == Records(names, batches[1..])
    ensures Records(names, batches)[0] == Record(names, batches[0])
  {
    var all, rest := Records(names, batches), Records(names, batches[1..]);
    forall i | 0 <= i < |rest| ensures all[i + 1] == rest[i] { assert batches[1..][i] == batches[i + 1]; }
  }

  lemma {:induction false} DecodedFirst(names: Names, records: seq<seq<Byte>>, es: seq<Entry>, rest: seq<seq<Entry>>)
    requires records != [] && |records[0]| >= WriteBatches.HEADER && Inserted(names, records[0]) == es
    requires Decoded(names, records[1..]) == rest
    ensures Decoded(names, records) == [es] + rest
  {}

  lemma {:induction false} DecodedSnoc(names: Names, records: seq<seq<Byte>>, r: seq<Byte>)
    ensures Decoded(names, records + [r]) ==
      Decoded(names, records) + if |r| < WriteBatches.HEADER then [] else [Inserted(names, r)]
    decreases |records|
  {
    if records != [] {
      assert (records + [r])[1..] == records[1..] + [r];
      DecodedSnoc(names, records[1..], r);
    } else {
      assert [r][1..] == [];
    }
  }

  method DecodeRecords(names: Names, records: seq<seq<Byte>>) returns (batches: seq<seq<Entry>>)
    ensures batches == Decoded(names, records)
  {
    batches := [];
    for i := 0 to |records|
      invariant batches == Decoded(names, records[..i])
    {
      var record := records[i];
      assert records[..i + 1] == records[..i] + [record];
      DecodedSnoc(names, records[..i], record);
      if |record| >= WriteBatches.HEADER {
        var ops, fault := WriteBatches.Iterate(record);
        batches := batches + [FromOps(names, DecodeFixed64(record[..8]), ops)];
      }
    }
    assert records[..|records|] == records;
  }

  method BuildRecords(names: Names, batches: seq<seq<Entry>>) returns (records: seq<seq<Byte>>)
    requires Loggable(names, batches)
    ensures records == Records(names, batches)
  {
    records := [];
    for i := 0 to |batches|
      invariant |records| == i && forall j :: 0 <= j < i ==> records[j] == Record(names, batches[j])
    {
      var r := BuildRecord(names, batches[i]);
      records := records + [r];
    }
  }

  /** The batches whose records lie wholly within the first `kept` bytes of the log. */
  function WholeBatches(names: Names, crc: Checksum, batches: seq<seq<Entry>>, kept: nat): (n: nat)
    requires Loggable(names, batches)
    ensures n <= |batches|
  {
    Whole(crc, 0, Records(names, batches), kept)
  }

  /** A log of which only `kept` bytes reached the disk is read back as exactly the batches whose
      records are whole. */
  method CutAndRead(names: Names, crc: Checksum, batches: seq<seq<Entry>>, kept: nat)
    returns (survived: seq<seq<Entry>>)
    requires Loggable(names, batches) && AllConsecutive(batches)
    ensures survived == batches[..WholeBatches(names, crc, batches, kept)]
  {
    var records := BuildRecords(names, batches);
    var got, reports := WriteCutRead(crc, true, records, kept);
    survived := DecodeRecords(names, got);
    var n := WholeBatches(names, crc, batches, kept);
    assert got == Records(names, batches[..n]);
    LogRoundTrips(names, batches[..n]);
  }

  // ---------- Only lengths decide what is whole ----------

  lemma {:induction false} SameLength(crc: Checksum, p: nat, a: seq<Byte>, b: seq<Byte>, begin: bool)
    requires |a| == |b|
    ensures |Encode(crc, p, a, begin)| == |Encode(crc, p, b, begin)|
    decreases |a|, NoRoom(p)
  {
    var n := Take(p, a);
    if n < |a| {
      FragmentsProgress(p, a);
      SameLength(crc, After(p, a), a[n..], b[n..], false);
    }
  }

  lemma {:induction false} SameWhole(crc: Checksum, p: nat, a: seq<seq<Byte>>, b: seq<seq<Byte>>, end: nat)
    requires |a| == |b| && forall i :: 0 <= i < |a| ==> |a[i]| == |b[i]|
    ensures Whole(crc, p, a, end) == Whole(crc, p, b, end)
    decreases |a|
  {
    if a != [] {
      var q := p + |Encode(crc, p, a[0], true)|;
      SameLength(crc, p, a[0], b[0], true);
      SameWhole(crc, q, a[1..], b[1..], end);
      WholeFirst(crc, p, a, end, q);
      WholeFirst(crc, p, b, end, q);
    }
  }

  lemma {:induction false} WholeFirst(crc: Checksum, p: nat, records: seq<seq<Byte>>, end: nat, q: nat)
    requires records != [] && q == p + |Encode(crc, p, records[0], true)|
    ensures Whole(crc, p, records, end) == if q <= end then 1 + Whole(crc, q, records[1..], end) else 0
  {}
}
