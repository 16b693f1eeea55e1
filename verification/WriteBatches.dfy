/** Write batches as the bytes of a log record, and reading them back. */
module WriteBatches {
  import opened Coding
  import opened DbFormat

  const HEADER: nat := 12
  const DELETION: Byte := 0
  const VALUE: Byte := 1

  /** One call of the handler. */
  datatype Op = PutOp(key: seq<Byte>, value: seq<Byte>) | DeleteOp(key: seq<Byte>)

  datatype Fault = TooSmall | BadPut | BadDelete | UnknownTag | WrongCount

  // ---------- Encoding ----------

  function EncodeOp(op: Op): (r: seq<Byte>)
    ensures |r| > 0
  {
    match op
    case PutOp(key, value) => [VALUE] + (PutSlice(key) + PutSlice(value))
    case DeleteOp(key) => [DELETION] + PutSlice(key)
  }

  function EncodeOps(ops: seq<Op>): seq<Byte> {
    if ops == [] then [] else EncodeOp(ops[0]) + EncodeOps(ops[1..])
  }

  predicate Encodable(ops: seq<Op>) {
    && |ops| < 0x1_0000_0000
    && forall i :: 0 <= i < |ops| ==> Short(ops[i].key) && (ops[i].PutOp? ==> Short(ops[i].value))
  }

  /** rep_ after SetSequence and the calls of Put and Delete. */
  function EncodeBatch(sn: Word64, ops: seq<Op>): (r: seq<Byte>)
    requires |ops| < 0x1_0000_0000
    ensures |r| >= HEADER
  {
    EncodeFixed64(sn) + EncodeFixed32(|ops|) + EncodeOps(ops)
  }

  class WriteBatch {
    var rep: seq<Byte>

    /** Clear: a header of zeros. */
    constructor ()
      ensures rep == EncodeBatch(0, [])
    {
      rep := [0, 0, 0, 0, 0, 0, 0, 0, 0, 0, 0, 0];
    }

    /** SetSequence. */
    method SetSequence(sn: Word64, ghost was: Word64, ghost ops: seq<Op>)
      requires |ops| < 0x1_0000_0000 && rep == EncodeBatch(was, ops)
      modifies this
      ensures rep == EncodeBatch(sn, ops)
    {
      rep := EncodeFixed64(sn) + rep[8..];
    }

    /** SetCount(Count() + 1). */
    method IncrementCount(ghost sn: Word64, ghost n: nat, ghost tail: seq<Byte>)
      requires n + 1 < 0x1_0000_0000 && rep == EncodeFixed64(sn) + EncodeFixed32(n) + tail
      modifies this
      ensures rep == EncodeFixed64(sn) + EncodeFixed32(n + 1) + tail
    {
      Fixed32RoundTrip(n);
      assert rep[8..12] == EncodeFixed32(n);
      var count := DecodeFixed32(rep[8..12]);
      rep := rep[..8] + EncodeFixed32(count + 1) + rep[12..];
    }

    method Put(key: seq<Byte>, value: seq<Byte>, ghost sn: Word64, ghost ops: seq<Op>)
      requires |ops| + 1 < 0x1_0000_0000 && rep == EncodeBatch(sn, ops)
      modifies this
      ensures rep == EncodeBatch(sn, ops + [PutOp(key, value)])
    {
      IncrementCount(sn, |ops|, EncodeOps(ops));
      rep := rep + [VALUE];
      rep := rep + PutSlice(key);
      rep := rep + PutSlice(value);
      EncodeOpsSnoc(ops, PutOp(key, value));
    }

    method Delete(key: seq<Byte>, ghost sn: Word64, ghost ops: seq<Op>)
      requires |ops| + 1 < 0x1_0000_0000 && rep == EncodeBatch(sn, ops)
      modifies this
      ensures rep == EncodeBatch(sn, ops + [DeleteOp(key)])
    {
      IncrementCount(sn, |ops|, EncodeOps(ops));
      rep := rep + [DELETION];
      rep := rep + PutSlice(key);
      EncodeOpsSnoc(ops, DeleteOp(key));
    }
  }

  lemma {:induction false} EncodeOpsSnoc(ops: seq<Op>, op: Op)
    ensures EncodeOps(ops + [op]) == EncodeOps(ops) + EncodeOp(op)
  {
    if ops != [] {
      assert (ops + [op])[0] == ops[0] && (ops + [op])[1..] == ops[1..] + [op];
      EncodeOpsSnoc(ops[1..], op);
      assert EncodeOps(ops) == EncodeOp(ops[0]) + EncodeOps(ops[1..]);
    } else {
      assert [op][1..] == [];
    }
  }

  // ---------- Decoding ----------

  /** What the handler is called with, and how iteration ends. */
  datatype Parse = Parse(ops: seq<Op>, fault: Option<Fault>)

  /** One record: its tag, then one or two strings. */
  datatype Step = Step(op: Op, next: nat) | Stop(fault: Fault)

  function ParseOp(b: seq<Byte>, p: nat): (r: Step)
    requires p < |b|
    ensures r.Step? ==> p < r.next <= |b|
  {
    if b[p] == VALUE then
      var key := GetSlice(b, p + 1);
      if key.NoSlice? then Stop(BadPut)
      else
        var value := GetSlice(b, key.next);
        if value.NoSlice? then Stop(BadPut) else Step(PutOp(key.bytes, value.bytes), value.next)
    else if b[p] == DELETION then
      var key := GetSlice(b, p + 1);
      if key.NoSlice? then Stop(BadDelete) else Step(DeleteOp(key.bytes), key.next)
    else Stop(UnknownTag)
  }

  function ParseOps(b: seq<Byte>, p: nat): Parse
    requires p <= |b|
    decreases |b| - p
  {
    if p == |b| then Parse([], None)
    else
      match ParseOp(b, p)
      case Stop(fault) => Parse([], Some(fault))
      case Step(op, next) => var rest := ParseOps(b, next); Parse([op] + rest.ops, rest.fault)
  }

  /** WriteBatch::Iterate as a definition. */
  function ParseBatch(b: seq<Byte>): Parse {
    if |b| < HEADER then Parse([], Some(TooSmall))
    else
      var r := ParseOps(b, HEADER);
      if r.fault == None && |r.ops| != DecodeFixed32(b[8..12]) then Parse(r.ops, Some(WrongCount)) else r
  }

  /** WriteBatch::Iterate: the loop hands each record to the handler as it finds it. */
  method Iterate(rep: seq<Byte>) returns (handled: seq<Op>, fault: Option<Fault>)
    ensures Parse(handled, fault) == ParseBatch(rep)
  {
    handled, fault := [], None;
    if |rep| < HEADER {
      return [], Some(TooSmall);
    }
    var p := HEADER;
    assert [] + ParseOps(rep, HEADER).ops == ParseOps(rep, HEADER).ops;
    while p < |rep|
      invariant HEADER <= p <= |rep| && fault == None
      invariant ParseOps(rep, HEADER) == Parse(handled + ParseOps(rep, p).ops, ParseOps(rep, p).fault)
      decreases |rep| - p
    {
      ghost var rest := ParseOps(rep, p);
      var step := ParseOp(rep, p);
      if step.Stop? {
        return handled, Some(step.fault);
      }
      assert handled + ([step.op] + ParseOps(rep, step.next).ops)
          == (handled + [step.op]) + ParseOps(rep, step.next).ops;
      handled, p := handled + [step.op], step.next;
    }
    assert handled + [] == handled;
    if |handled| != DecodeFixed32(rep[8..12]) {
      fault := Some(WrongCount);
    }
  }

  lemma OpRoundTrip(b: seq<Byte>, p: nat, op: Op, q: nat)
    requires At(b, p, EncodeOp(op)) && q == p + |EncodeOp(op)| && Short(op.key) && (op.PutOp? ==> Short(op.value))
    ensures p < |b| && ParseOp(b, p) == Step(op, q)
  {
    assert b[p] == b[p..p + |EncodeOp(op)|][0] == EncodeOp(op)[0];
    match op
    case PutOp(key, value) =>
      var mid := p + 1 + |PutSlice(key)|;
      AtSplit(b, p, [VALUE], PutSlice(key) + PutSlice(value), p + 1);
      AtSplit(b, p + 1, PutSlice(key), PutSlice(value), mid);
      SliceRoundTrip(b, p + 1, key, mid);
      SliceRoundTrip(b, mid, value, q);
    case DeleteOp(key) =>
      AtSplit(b, p, [DELETION], PutSlice(key), p + 1);
      SliceRoundTrip(b, p + 1, key, q);
  }

  lemma {:induction false} OpsRoundTrip(b: seq<Byte>, p: nat, ops: seq<Op>)
    requires Encodable(ops) && At(b, p, EncodeOps(ops)) && p + |EncodeOps(ops)| == |b|
    ensures ParseOps(b, p) == Parse(ops, None)
    decreases |ops|
  {
    if ops != [] {
      var q := p + |EncodeOp(ops[0])|;
      AtSplit(b, p, EncodeOp(ops[0]), EncodeOps(ops[1..]), q);
      OpRoundTrip(b, p, ops[0], q);
      OpsRoundTrip(b, q, ops[1..]);
      assert ops == [ops[0]] + ops[1..];
    }
  }

  /** A batch comes back whole: its operations in order, its sequence number, and no fault. */
  lemma BatchRoundTrip(sn: Word64, ops: seq<Op>)
    requires Encodable(ops)
    ensures ParseBatch(EncodeBatch(sn, ops)) == Parse(ops, None)
    ensures DecodeFixed64(EncodeBatch(sn, ops)[..8]) == sn
  {
    var b := EncodeBatch(sn, ops);
    assert b[..8] == EncodeFixed64(sn) && b[8..12] == EncodeFixed32(|ops|) && b[HEADER..] == EncodeOps(ops);
    Fixed64RoundTrip(sn);
    Fixed32RoundTrip(|ops|);
    assert At(b, HEADER, EncodeOps(ops));
    OpsRoundTrip(b, HEADER, ops);
  }

  /** How long a batch's bytes are does not depend on its sequence number. */
  lemma BatchLength(sn: Word64, sn': Word64, ops: seq<Op>)
    requires |ops| < 0x1_0000_0000
    ensures |EncodeBatch(sn, ops)| == |EncodeBatch(sn', ops)|
  {}
}
