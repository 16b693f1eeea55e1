/** Table blocks: keys compressed against their predecessors, with restart points to search from. */
module Blocks {
  import opened Coding

  type Text = seq<Byte>

  datatype Pair = Pair(key: Text, value: Text)

  // ---------- One entry ----------

  /** Shared prefix length, rest of the key, and value, as BlockBuilder::Add writes them. */
  function Head(shared: nat, e: Pair): seq<Byte>
    requires shared <= |e.key|
  {
    PutVarint(shared) + (PutVarint(|e.key| - shared) + PutVarint(|e.value|))
  }

  function EncodeEntry(shared: nat, e: Pair): seq<Byte>
    requires shared <= |e.key|
  {
    Head(shared, e) + (e.key[shared..] + e.value)
  }

  predicate Small(e: Pair) { |e.key| + |e.value| < 0x1_0000_0000 }

  datatype Header = Header(shared: nat, nonShared: nat, valueLength: nat, p: nat) | NoEntry

  /** The three lengths: one byte each if all are below 128, varints otherwise. */
  function DecodeLengths(b: seq<Byte>, p: nat, limit: nat): (h: Header)
    requires limit <= |b|
    ensures h.Header? ==> p < h.p <= limit
  {
    if limit < p + 3 then NoEntry
    else if b[p] < 128 && b[p + 1] < 128 && b[p + 2] < 128 then Header(b[p], b[p + 1], b[p + 2], p + 3)
    else
      var s := GetVarint(b, p, limit);
      if s.Bad? then NoEntry
      else
        var n := GetVarint(b, s.next, limit);
        if n.Bad? then NoEntry
        else
          var v := GetVarint(b, n.next, limit);
          if v.Bad? then NoEntry else Header(s.value, n.value, v.value, v.next)
  }

  /** DecodeEntry; the sum of the lengths is taken in 32 bits. */
  function DecodeEntry(b: seq<Byte>, p: nat, limit: nat): (h: Header)
    requires limit <= |b|
    ensures h.Header? ==> p < h.p <= limit
  {
    var h := DecodeLengths(b, p, limit);
    if h.NoEntry? || (limit - h.p) % 0x1_0000_0000 < (h.nonShared + h.valueLength) % 0x1_0000_0000 then NoEntry else h
  }

  lemma HeadDecodes(b: seq<Byte>, p: nat, limit: nat, shared: nat, e: Pair, q: nat)
    requires Small(e) && shared <= |e.key| && limit <= |b| && q == p + |Head(shared, e)| <= limit
      && At(b, p, Head(shared, e))
    ensures DecodeLengths(b, p, limit) == Header(shared, |e.key| - shared, |e.value|, q)
  {
    var s, n, v := PutVarint(shared), PutVarint(|e.key| - shared), PutVarint(|e.value|);
    var p1, p2 := p + |s|, p + |s| + |n|;
    AtSplit(b, p, s, n + v, p1);
    AtSplit(b, p1, n, v, p2);
    VarintRoundTrip(b, p, limit, shared);
    VarintRoundTrip(b, p1, limit, |e.key| - shared);
    VarintRoundTrip(b, p2, limit, |e.value|);
    FastPath(b, p, limit, shared, |e.key| - shared, |e.value|, p1, p2, q);
  }

  /** The one-byte path reads what the varint path would. */
  lemma FastPath(b: seq<Byte>, p: nat, limit: nat, s: nat, n: nat, v: nat, p1: nat, p2: nat, q: nat)
    requires limit <= |b| && p < p1 < p2 < q <= limit
    requires GetVarint(b, p, limit) == Parsed(s, p1) && GetVarint(b, p1, limit) == Parsed(n, p2)
      && GetVarint(b, p2, limit) == Parsed(v, q)
    ensures DecodeLengths(b, p, limit) == Header(s, n, v, q)
  {}

  lemma EntryDecodes(b: seq<Byte>, p: nat, limit: nat, shared: nat, e: Pair, q: nat, end: nat)
    requires Small(e) && shared <= |e.key| && limit <= |b| && limit < 0x1_0000_0000 && end <= limit
    requires At(b, p, EncodeEntry(shared, e)) && q == p + |Head(shared, e)| && end == p + |EncodeEntry(shared, e)|
    ensures DecodeEntry(b, p, limit) == Header(shared, |e.key| - shared, |e.value|, q)
    ensures q + (|e.key| - shared) + |e.value| == end
    ensures b[q..q + (|e.key| - shared)] == e.key[shared..] && b[q + (|e.key| - shared)..end] == e.value
  {
    var k := q + (|e.key| - shared);
    AtSplit(b, p, Head(shared, e), e.key[shared..] + e.value, q);
    AtSplit(b, q, e.key[shared..], e.value, k);
    HeadDecodes(b, p, limit, shared, e, q);
  }

  // ---------- A whole block ----------

  /** Where the entries start, how much of each key is shared, and which entries are restart points. */
  datatype Shape = Shape(offs: seq<nat>, shares: seq<nat>, rs: seq<nat>)

  /** The first `n` bytes of a key are those of the key before it. */
  ghost predicate Shares(es: seq<Pair>, i: nat, n: nat)
    requires i < |es|
  {
    n <= |es[i].key| && (n > 0 ==> i > 0 && n <= |es[i - 1].key| && es[i].key[..n] == es[i - 1].key[..n])
  }

  ghost predicate EntryAt(data: seq<Byte>, limit: nat, es: seq<Pair>, sh: Shape, i: nat)
    requires i < |es| && |sh.offs| == |es| + 1 && |sh.shares| == |es|
  {
    && Small(es[i]) && Shares(es, i, sh.shares[i])
    && sh.offs[i] + |EncodeEntry(sh.shares[i], es[i])| == sh.offs[i + 1] <= limit
    && At(data, sh.offs[i], EncodeEntry(sh.shares[i], es[i]))
  }

  ghost predicate EntriesOk(data: seq<Byte>, limit: nat, es: seq<Pair>, sh: Shape) {
    && |sh.offs| == |es| + 1 && |sh.shares| == |es| && sh.offs[0] == 0 && sh.offs[|es|] == limit <= |data|
      && limit < 0x1_0000_0000
    && forall i :: 0 <= i < |es| ==> EntryAt(data, limit, es, sh, i)
  }

  /** Restart points are entries that share nothing; an empty block has one at its end. */
  ghost predicate RestartsOk(es: seq<Pair>, sh: Shape)
    requires |sh.shares| == |es|
  {
    && |sh.rs| > 0 && sh.rs[0] == 0 && (es == [] ==> sh.rs == [0])
    && (forall j, k :: 0 <= j < k < |sh.rs| ==> sh.rs[j] < sh.rs[k])
    && (es != [] ==> forall j :: 0 <= j < |sh.rs| ==> sh.rs[j] < |es| && sh.shares[sh.rs[j]] == 0)
  }

  ghost predicate RestartAt(data: seq<Byte>, at: nat, offset: nat) {
    offset < 0x1_0000_0000 && At(data, at, EncodeFixed32(offset))
  }

  /** The restart array after the entries. */
  ghost predicate ArrayOk(data: seq<Byte>, limit: nat, sh: Shape) {
    forall j :: 0 <= j < |sh.rs| ==> sh.rs[j] < |sh.offs| && RestartAt(data, limit + 4 * j, sh.offs[sh.rs[j]])
  }

  ghost predicate IsBlock(data: seq<Byte>, limit: nat, es: seq<Pair>, sh: Shape) {
    EntriesOk(data, limit, es, sh) && RestartsOk(es, sh) && ArrayOk(data, limit, sh)
  }

  lemma {:induction false} OffsetsGrow(data: seq<Byte>, limit: nat, es: seq<Pair>, sh: Shape, i: nat, j: nat)
    requires EntriesOk(data, limit, es, sh) && i <= j <= |es|
    ensures sh.offs[i] <= sh.offs[j] && (i < j ==> sh.offs[i] < sh.offs[j])
    decreases j - i
  {
    if i < j {
      OffsetsGrow(data, limit, es, sh, i, j - 1);
      assert EntryAt(data, limit, es, sh, j - 1);
    }
  }

  /** No longer prefix of the one key is one of the other. */
  ghost predicate Longest(a: Text, b: Text, n: nat) {
    n <= |a| && n <= |b| && a[..n] == b[..n] && (n == |a| || n == |b| || a[n] != b[n])
  }

  ghost predicate StepOf(rs: seq<nat>, j: nat, interval: nat)
    requires j + 1 < |rs|
  {
    rs[j + 1] == rs[j] + interval
  }

  /** Every `interval`-th entry is a restart point; every other one shares as much as it can with the one before. */
  ghost predicate Packed(interval: nat, es: seq<Pair>, sh: Shape)
    requires |sh.shares| == |es|
  {
    && |sh.rs| > 0 && sh.rs[0] == 0 && sh.rs[|sh.rs| - 1] <= |es| <= sh.rs[|sh.rs| - 1] + interval
    && (forall j: nat :: j + 1 < |sh.rs| ==> StepOf(sh.rs, j, interval))
    && (forall i :: 0 < i < |es| ==> PackedAt(es, sh, i))
  }

  ghost predicate PackedAt(es: seq<Pair>, sh: Shape, i: nat)
    requires 0 < i < |es| == |sh.shares|
  {
    i !in sh.rs ==> Longest(es[i - 1].key, es[i].key, sh.shares[i])
  }

  // ---------- Building ----------

  /** The longest common prefix, as Add's loop finds it. */
  method CommonPrefix(a: Text, b: Text) returns (n: nat)
    ensures Longest(a, b, n)
  {
    n := 0;
    while n < |a| && n < |b| && a[n] == b[n]
      invariant n <= |a| && n <= |b| && a[..n] == b[..n]
    {
      n := n + 1;
    }
  }

  /** Adding an entry leaves those before it as they were. */
  lemma EntriesGrow(data: seq<Byte>, es: seq<Pair>, sh: Shape, e: Pair, shared: nat, enc: seq<Byte>, data': seq<Byte>,
                    sh': Shape)
    requires EntriesOk(data, |data|, es, sh) && Small(e) && shared <= |e.key| && enc == EncodeEntry(shared, e)
    requires |data| + |enc| < 0x1_0000_0000 && data' == data + enc && Shares(es + [e], |es|, shared)
    requires sh'.offs == sh.offs + [|data'|] && sh'.shares == sh.shares + [shared]
    ensures EntriesOk(data', |data'|, es + [e], sh')
  {
    var es' := es + [e];
    forall i | 0 <= i < |es'| ensures EntryAt(data', |data'|, es', sh', i) {
      if i < |es| {
        assert EntryAt(data, |data|, es, sh, i);
        AtPrefix(data, enc, sh.offs[i], EncodeEntry(sh.shares[i], es[i]));
      }
    }
  }

  lemma PackedGrows(interval: nat, es: seq<Pair>, sh: Shape, e: Pair, shared: nat, sh': Shape)
    requires interval >= 1 && |sh.shares| == |es| && Packed(interval, es, sh) && sh'.shares == sh.shares + [shared]
    requires (sh'.rs == sh.rs && |es| < sh.rs[|sh.rs| - 1] + interval && Longest(LastKey(es), e.key, shared))
          || (sh'.rs == sh.rs + [|es|] && |es| == sh.rs[|sh.rs| - 1] + interval)
    ensures Packed(interval, es + [e], sh')
  {
    forall j: nat | j + 1 < |sh'.rs| ensures StepOf(sh'.rs, j, interval) {
      if j + 1 < |sh.rs| { assert StepOf(sh.rs, j, interval); }
    }
    forall i | 0 < i < |es + [e]| ensures PackedAt(es + [e], sh', i) {
      if i < |es| { assert PackedAt(es, sh, i); }
    }
  }

  ghost predicate Points(restarts: seq<nat>, sh: Shape) {
    |restarts| == |sh.rs| && forall j :: 0 <= j < |restarts| ==>
      sh.rs[j] < |sh.offs| && restarts[j] == sh.offs[sh.rs[j]]
  }

  lemma RestartsGrow(es: seq<Pair>, sh: Shape, restarts: seq<nat>, e: Pair, shared: nat, end: nat, sh': Shape)
    requires |sh.shares| == |es| && |sh.offs| == |es| + 1 && RestartsOk(es, sh)
    requires sh'.offs == sh.offs + [end] && sh'.shares == sh.shares + [shared] && (es == [] ==> shared == 0)
    requires (sh'.rs == sh.rs && Points(restarts, sh))
          || (shared == 0 && es != [] && sh'.rs == sh.rs + [|es|] && Points(restarts, sh.(rs := sh'.rs)))
    ensures RestartsOk(es + [e], sh') && Points(restarts, sh')
  {}

  function LastKey(es: seq<Pair>): Text { if es == [] then [] else es[|es| - 1].key }

  class BlockBuilder {
    const interval: nat
    var buffer: seq<Byte>
    var restarts: seq<nat>
    var counter: nat
    var lastKey: Text
    ghost var es: seq<Pair>
    ghost var sh: Shape

    constructor (interval: nat)
      requires interval >= 1
      ensures Valid() && es == [] && buffer == [] && this.interval == interval
    {
      this.interval, buffer, restarts, counter, lastKey := interval, [], [0], 0, [];
      es, sh := [], Shape([0], [], [0]);
    }

    ghost predicate Valid()
      reads this
    {
      && EntriesOk(buffer, |buffer|, es, sh) && RestartsOk(es, sh) && Points(restarts, sh)
      && lastKey == LastKey(es) && counter <= interval && interval >= 1 && (es == [] ==> counter == 0)
      && Packed(interval, es, sh) && counter == |es| - sh.rs[|sh.rs| - 1]
    }

    /** Add: share what the key has in common with the last one, or start afresh. */
    method Add(e: Pair)
      requires Valid() && |buffer| + |e.key| + |e.value| + 15 < 0x1_0000_0000
      modifies this
      ensures Valid() && es == old(es) + [e]
      ensures |restarts| <= |old(restarts)| + 1 && |buffer| <= |old(buffer)| + |e.key| + |e.value| + 15
    {
      var shared := 0;
      ghost var rs := sh.rs;
      if counter < interval {
        shared := CommonPrefix(lastKey, e.key);
      } else {
        restarts := restarts + [|buffer|];
        rs := rs + [|es|];
        counter := 0;
      }
      EncodingBounded(shared, e);
      Append(e, shared, rs);
    }

    /** Write the entry and remember its key. */
    method Append(e: Pair, shared: nat, ghost rs: seq<nat>)
      requires EntriesOk(buffer, |buffer|, es, sh) && RestartsOk(es, sh) && lastKey == LastKey(es) && counter < interval
      requires Small(e) && shared <= |e.key| && shared <= |lastKey| && e.key[..shared] == lastKey[..shared]
      requires |buffer| + |EncodeEntry(shared, e)| < 0x1_0000_0000
      requires (rs == sh.rs && Points(restarts, sh))
            || (shared == 0 && es != [] && rs == sh.rs + [|es|] && Points(restarts, sh.(rs := rs)))
      requires Packed(interval, es, sh) && counter == |es| - rs[|rs| - 1]
      requires rs == sh.rs ==> Longest(lastKey, e.key, shared)
      requires rs != sh.rs ==> |es| == sh.rs[|sh.rs| - 1] + interval
      modifies this
      ensures Valid() && es == old(es) + [e] && restarts == old(restarts)
        && |buffer| == |old(buffer)| + |EncodeEntry(shared, e)|
    {
      ghost var enc := EncodeEntry(shared, e);
      ghost var sh' := Shape(sh.offs + [|buffer| + |enc|], sh.shares + [shared], rs);
      EntriesGrow(buffer, es, sh, e, shared, enc, buffer + enc, sh');
      RestartsGrow(es, sh, restarts, e, shared, |buffer| + |enc|, sh');
      PackedGrows(interval, es, sh, e, shared, sh');
      Regroup(buffer, shared, e);
      buffer := buffer + PutVarint(shared) + PutVarint(|e.key| - shared) + PutVarint(|e.value|);
      buffer := buffer + e.key[shared..] + e.value;
      lastKey := lastKey[..shared] + e.key[shared..];
      counter := counter + 1;
      es, sh := es + [e], sh';
    }

    /** Finish: the restart array and its length. */
    method Finish() returns (data: seq<Byte>)
      requires Valid() && |restarts| < 0x1_0000_0000
      ensures IsBlock(data, |buffer|, es, sh) && |data| == |buffer| + 4 * |sh.rs| + 4
      ensures DecodeFixed32(data[|data| - 4..]) == |sh.rs|
    {
      data := buffer;
      for i := 0 to |restarts|
        invariant |data| == |buffer| + 4 * i && buffer <= data && AllRestarts(data, |buffer|, restarts, i)
      {
        OffsetBounded(buffer, es, sh, i);
        RestartsStep(data, restarts, |buffer|, i, i + 1, EncodeFixed32(restarts[i]));
        data := data + EncodeFixed32(restarts[i]);
      }
      var word := EncodeFixed32(|restarts|);
      RestartsStay(data, word, restarts, |buffer|, |restarts|);
      data := data + word;
      EntriesStay(buffer, data, es, sh);
      Fixed32RoundTrip(|restarts|);
      assert data[|data| - 4..] == word;
    }
  }

  ghost predicate AllRestarts(data: seq<Byte>, base: nat, restarts: seq<nat>, n: nat) {
    n <= |restarts| && forall j :: 0 <= j < n ==> RestartAt(data, base + 4 * j, restarts[j])
  }

  lemma OffsetBounded(data: seq<Byte>, es: seq<Pair>, sh: Shape, j: nat)
    requires EntriesOk(data, |data|, es, sh) && RestartsOk(es, sh) && j < |sh.rs|
    ensures sh.rs[j] <= |es| && sh.offs[sh.rs[j]] < 0x1_0000_0000
  {
    OffsetsGrow(data, |data|, es, sh, sh.rs[j], |es|);
  }

  lemma RestartsStay(data: seq<Byte>, more: seq<Byte>, restarts: seq<nat>, base: nat, n: nat)
    requires AllRestarts(data, base, restarts, n)
    ensures AllRestarts(data + more, base, restarts, n)
  {
    forall j | 0 <= j < n ensures RestartAt(data + more, base + 4 * j, restarts[j]) {
      AtPrefix(data, more, base + 4 * j, EncodeFixed32(restarts[j]));
    }
  }

  lemma RestartsStep(data: seq<Byte>, restarts: seq<nat>, base: nat, n: nat, n': nat, word: seq<Byte>)
    requires AllRestarts(data, base, restarts, n) && n' == n + 1 <= |restarts| && |data| == base + 4 * n
    requires restarts[n] < 0x1_0000_0000 && word == EncodeFixed32(restarts[n])
    ensures AllRestarts(data + word, base, restarts, n')
  {
    RestartsStay(data, word, restarts, base, n);
    assert (data + word)[|data|..|data| + 4] == word;
    assert RestartAt(data + word, base + 4 * n, restarts[n]);
  }

  lemma EntriesStay(data: seq<Byte>, data': seq<Byte>, es: seq<Pair>, sh: Shape)
    requires EntriesOk(data, |data|, es, sh) && data <= data'
    ensures EntriesOk(data', |data|, es, sh)
  {
    var more := data'[|data|..];
    assert data' == data + more;
    forall i | 0 <= i < |es| ensures EntryAt(data', |data|, es, sh, i) {
      assert EntryAt(data, |data|, es, sh, i);
      AtPrefix(data, more, sh.offs[i], EncodeEntry(sh.shares[i], es[i]));
    }
  }

  lemma Regroup(b: seq<Byte>, shared: nat, e: Pair)
    requires shared <= |e.key|
    ensures b + PutVarint(shared) + PutVarint(|e.key| - shared) + PutVarint(|e.value|) + e.key[shared..] + e.value
        == b + EncodeEntry(shared, e)
  {}

  lemma {:induction false} VarintLength(v: nat, k: nat)
    requires k >= 1 && v < Pow128(k)
    ensures |PutVarint(v)| <= k
    decreases k
  {
    if v >= 128 {
      assert Pow128(1) == 128;
      VarintLength(v / 128, k - 1);
    }
  }

  /** An entry takes at most fifteen bytes beyond its key and value. */
  lemma EncodingBounded(shared: nat, e: Pair)
    requires Small(e) && shared <= |e.key|
    ensures |EncodeEntry(shared, e)| <= |e.key| + |e.value| + 15
  {
    assert Pow128(1) == 128 && Pow128(2) == 16384 && Pow128(3) == 2097152 && Pow128(4) == 268435456
      && Pow128(5) == 34359738368;
    VarintLength(shared, 5);
    VarintLength(|e.key| - shared, 5);
    VarintLength(|e.value|, 5);
  }

  // ---------- Iterating ----------

  type Order = (Text, Text) -> bool

  ghost predicate Transitive(less: Order) { forall a, b, c :: less(a, b) && less(b, c) ==> less(a, c) }

  ghost predicate Increasing(less: Order, es: seq<Pair>) {
    Transitive(less) && forall i, j :: 0 <= i < j < |es| ==> less(es[i].key, es[j].key)
  }

  /** Restart j is at or before position i, and the next one is not before it. */
  ghost predicate NearestRestart(rs: seq<nat>, j: nat, i: nat) {
    j < |rs| && rs[j] <= i && (j + 1 < |rs| ==> i <= rs[j + 1])
  }

  lemma PointIs(data: seq<Byte>, limit: nat, es: seq<Pair>, sh: Shape, j: nat, at: nat)
    requires IsBlock(data, limit, es, sh) && j < |sh.rs| && at == limit + 4 * j
    ensures at + 4 <= |data| && sh.rs[j] <= |es| && (es != [] ==> sh.rs[j] < |es|)
    ensures DecodeFixed32(data[at..at + 4]) == sh.offs[sh.rs[j]]
  {
    assert RestartAt(data, limit + 4 * j, sh.offs[sh.rs[j]]);
    Fixed32RoundTrip(sh.offs[sh.rs[j]]);
  }

  lemma OffsetOrder(data: seq<Byte>, limit: nat, es: seq<Pair>, sh: Shape, i: nat, j: nat)
    requires EntriesOk(data, limit, es, sh) && i <= |es| && j <= |es|
    ensures sh.offs[i] < sh.offs[j] <==> i < j
  {
    if i <= j { OffsetsGrow(data, limit, es, sh, i, j); } else { OffsetsGrow(data, limit, es, sh, j, i); }
  }

  /** What DecodeEntry finds at the start of entry i. */
  lemma EntryIs(data: seq<Byte>, limit: nat, es: seq<Pair>, sh: Shape, i: nat, at: nat, end: nat, h: Header)
    requires EntriesOk(data, limit, es, sh) && i < |es| && at == sh.offs[i] && end == sh.offs[i + 1]
      && h == DecodeEntry(data, at, limit)
    ensures h.Header? && h.shared == sh.shares[i] <= |es[i].key| && h.p + h.nonShared + h.valueLength == end <= limit
    ensures data[h.p..h.p + h.nonShared] == es[i].key[h.shared..] && data[h.p + h.nonShared..end] == es[i].value
  {
    assert EntryAt(data, limit, es, sh, i);
    var shared := sh.shares[i];
    EntryDecodes(data, at, limit, shared, es[i], at + |Head(shared, es[i])|, end);
  }

  lemma KeyRebuilt(was: Text, key: Text, n: nat)
    requires n <= |was| && n <= |key| && was[..n] == key[..n]
    ensures was[..n] + key[n..] == key
  {}

  /** `i` is the first position whose key does not come before the target. */
  ghost predicate SeekPos(less: Order, es: seq<Pair>, target: Text, i: nat) {
    && i <= |es| && (forall j :: 0 <= j < i ==> less(es[j].key, target))
    && (i < |es| ==> !less(es[i].key, target))
  }

  lemma BeforeToo(less: Order, es: seq<Pair>, target: Text, i: nat)
    requires Increasing(less, es) && i < |es| && less(es[i].key, target)
    ensures forall j :: 0 <= j <= i ==> less(es[j].key, target)
  {}

  class Iter {
    const less: Order
    const data: seq<Byte>
    const limit: nat
    const num: nat
    var current: nat
    var restartIndex: nat
    /** NextEntryOffset: just past the current value. */
    var next: nat
    var key: Text
    var value: Text
    ghost const es: seq<Pair>
    ghost const sh: Shape
    ghost var pos: nat

    /** Block::NewIterator on a block of `es`. */
    constructor (less: Order, data: seq<Byte>, ghost limit: nat, ghost es: seq<Pair>, ghost sh: Shape)
      requires IsBlock(data, limit, es, sh) && |data| == limit + 4 * |sh.rs| + 4
        && DecodeFixed32(data[|data| - 4..]) == |sh.rs|
      ensures Valid() && pos == |es| && this.less == less && this.es == es
    {
      var n: nat := DecodeFixed32(data[|data| - 4..]);
      this.less, this.data, num := less, data, n;
      this.limit := |data| - (1 + n) * 4;
      current, restartIndex, next, key, value := |data| - (1 + n) * 4, n, 0, [], [];
      this.es, this.sh, pos := es, sh, |es|;
    }

    ghost predicate Base()
      reads this
    {
      IsBlock(data, limit, es, sh) && num == |sh.rs|
    }

    ghost predicate Valid()
      reads this
    {
      && Base() && pos <= |es| && current == sh.offs[pos]
      && (pos < |es| ==>
            && key == es[pos].key && value == es[pos].value && next == sh.offs[pos + 1]
            && NearestRestart(sh.rs, restartIndex, pos))
    }

    predicate IsValid()
      reads this
    {
      current < limit
    }

    lemma ValidIsInside()
      requires Valid()
      ensures IsValid() <==> pos < |es|
    {
      OffsetOrder(data, limit, es, sh, pos, |es|);
    }

    /** ParseNextKey may read entry i. */
    ghost predicate Ready(i: nat)
      reads this
    {
      && Base() && i <= |es| && next == sh.offs[i] && restartIndex < num && sh.rs[restartIndex] <= i
      && (i < |es| ==>
            && sh.shares[i] <= |key| && sh.shares[i] <= |es[i].key|
            && key[..sh.shares[i]] == es[i].key[..sh.shares[i]])
    }

    method GetRestartPoint(j: nat) returns (offset: nat)
      requires Base() && j < num
      ensures sh.rs[j] <= |es| && offset == sh.offs[sh.rs[j]] && (es != [] ==> sh.rs[j] < |es|)
    {
      PointIs(data, limit, es, sh, j, limit + 4 * j);
      offset := DecodeFixed32(data[limit + 4 * j..limit + 4 * j + 4]);
    }

    method SeekToRestartPoint(j: nat)
      requires Base() && j < num
      modifies this
      ensures sh.rs[j] <= |es| && Ready(sh.rs[j]) && restartIndex == j && value == []
    {
      var offset := GetRestartPoint(j);
      key, restartIndex, next, value := [], j, offset, [];
    }

    /** ParseNextKey: on a well-formed block it never meets a corrupt entry. */
    method ParseNextKey(ghost i: nat) returns (more: bool)
      requires Ready(i)
      modifies this
      ensures Valid() && pos == i && more == (i < |es|)
    {
      current := next;
      pos := i;
      OffsetOrder(data, limit, es, sh, i, |es|);
      if next >= limit {
        current, restartIndex := limit, num;
        return false;
      }
      TakeEntry(i);
      AdvanceRestart(i);
      more := true;
    }

    /** The shared part of the last key and the rest from the data, and the value behind it. */
    method TakeEntry(ghost i: nat)
      requires Ready(i) && i < |es|
      modifies this`key, this`value, this`next
      ensures key == es[i].key && value == es[i].value && next == sh.offs[i + 1]
    {
      var h := DecodeEntry(data, next, limit);
      EntryIs(data, limit, es, sh, i, next, sh.offs[i + 1], h);
      KeyRebuilt(key, es[i].key, h.shared);
      key := key[..h.shared] + data[h.p..h.p + h.nonShared];
      value := data[h.p + h.nonShared..h.p + h.nonShared + h.valueLength];
      next := h.p + h.nonShared + h.valueLength;
    }

    /** The restart index catches up with the current entry. */
    method AdvanceRestart(ghost i: nat)
      requires Base() && i < |es| && current == sh.offs[i] && restartIndex < num && sh.rs[restartIndex] <= i
      modifies this`restartIndex
      ensures NearestRestart(sh.rs, restartIndex, i)
    {
      while restartIndex + 1 < num
        invariant restartIndex < num && sh.rs[restartIndex] <= i
        decreases num - restartIndex
      {
        var point := GetRestartPoint(restartIndex + 1);
        OffsetOrder(data, limit, es, sh, sh.rs[restartIndex + 1], i);
        if point >= current { break; }
        restartIndex := restartIndex + 1;
      }
    }

    method Next()
      requires Valid() && pos < |es|
      modifies this
      ensures Valid() && pos == old(pos) + 1
    {
      ghost var i := pos + 1;
      if i < |es| { assert EntryAt(data, limit, es, sh, i) && Shares(es, i, sh.shares[i]); }
      var more := ParseNextKey(i);
    }

    /** After a successful ParseNextKey the entry that follows can be read. */
    lemma ReadyForNext(i: nat)
      requires Valid() && pos < |es| && i == pos + 1
      ensures Ready(i)
    {
      if i < |es| { assert EntryAt(data, limit, es, sh, i) && Shares(es, i, sh.shares[i]); }
    }

    method SeekToFirst()
      requires Valid()
      modifies this
      ensures Valid() && pos == 0
    {
      SeekToRestartPoint(0);
      var more := ParseNextKey(0);
    }

    method SeekToLast()
      requires Valid()
      modifies this
      ensures Valid() && pos == if es == [] then 0 else |es| - 1
    {
      SeekToRestartPoint(num - 1);
      ScanUpTo(limit, sh.rs[num - 1], |es|);
    }

    /** Parse on until the entry that ends at or after `stop`, which is where entry n begins. */
    method ScanUpTo(stop: nat, ghost from: nat, ghost n: nat)
      requires Ready(from) && n <= |es| && stop == sh.offs[n] && (from < n || es == [])
      modifies this
      ensures Valid() && pos == if es == [] then 0 else n - 1
    {
      ghost var i := from;
      var more := ParseNextKey(i);
      if more { OffsetOrder(data, limit, es, sh, i + 1, n); }
      while more && next < stop
        invariant Valid() && pos == i && more == (i < |es|) && (es != [] ==> i < n && (next < stop <==> i + 1 < n))
        decreases n - i
      {
        i := i + 1;
        ReadyForNext(i);
        more := ParseNextKey(i);
        OffsetOrder(data, limit, es, sh, i + 1, n);
      }
    }

    /** Prev: back to a restart point before the current entry, then forward to its predecessor. */
    method Prev()
      requires Valid() && pos < |es|
      modifies this
      ensures Valid() && pos == if old(pos) == 0 then |es| else old(pos) - 1
    {
      var original := current;
      ghost var n := pos;
      var found := BackToRestart(original, n);
      if found {
        ghost var from := sh.rs[restartIndex];
        SeekToRestartPoint(restartIndex);
        ScanUpTo(original, from, n);
      }
    }

    method BackToRestart(original: nat, ghost n: nat) returns (found: bool)
      requires Base() && n < |es| && original == sh.offs[n] && NearestRestart(sh.rs, restartIndex, n)
      modifies this
      ensures found ==> Base() && restartIndex < num && sh.rs[restartIndex] < n
      ensures !found ==> n == 0 && Valid() && pos == |es|
    {
      while true
        invariant Base() && restartIndex < num && sh.rs[restartIndex] <= n
        decreases restartIndex
      {
        var point := GetRestartPoint(restartIndex);
        OffsetOrder(data, limit, es, sh, sh.rs[restartIndex], n);
        if point < original {
          return true;
        }
        if restartIndex == 0 {
          current, restartIndex, pos := limit, num, |es|;
          return false;
        }
        restartIndex := restartIndex - 1;
      }
    }

    /** Seek: binary search over the restart points, then a linear scan. */
    method Seek(target: Text)
      requires Valid() && Increasing(less, es)
      modifies this
      ensures Valid() && SeekPos(less, es, target, pos)
    {
      var left := FindRestart(target);
      SeekToRestartPoint(left);
      ghost var i := sh.rs[left];
      var more := ParseNextKey(i);
      while more && less(key, target)
        invariant Valid() && pos == i && more == (i < |es|) && forall j :: 0 <= j < i ==> less(es[j].key, target)
        decreases |es| - i
      {
        i := i + 1;
        ReadyForNext(i);
        more := ParseNextKey(i);
      }
    }

    /** The last restart point with a key before the target, or the first one. */
    method FindRestart(target: Text) returns (left: nat)
      requires Base() && Increasing(less, es)
      ensures left < num && sh.rs[left] <= |es| && forall j :: 0 <= j < sh.rs[left] ==> less(es[j].key, target)
    {
      left := 0;
      var right := num - 1;
      while left < right
        invariant 0 <= left <= right < num && sh.rs[left] <= |es|
        invariant left > 0 ==> sh.rs[left] < |es| && less(es[sh.rs[left]].key, target)
      {
        var mid := (left + right + 1) / 2;
        var midKey := KeyAtRestart(mid);
        if less(midKey, target) {
          left := mid;
        } else {
          right := mid - 1;
        }
      }
      if left > 0 { BeforeToo(less, es, target, sh.rs[left]); }
    }

    method KeyAtRestart(j: nat) returns (k: Text)
      requires Base() && 0 < j < num
      ensures sh.rs[j] < |es| && k == es[sh.rs[j]].key
    {
      var offset := GetRestartPoint(j);
      var h := DecodeEntry(data, offset, limit);
      ghost var i := sh.rs[j];
      EntryIs(data, limit, es, sh, i, offset, sh.offs[i + 1], h);
      k := data[h.p..h.p + h.nonShared];
    }
  }

  // ---------- Every block, every program ----------

  datatype Op = ToFirst | ToLast | To(target: Text) | Forth | Back

  /** A position in the entry list, |es| meaning invalid. */
  ghost predicate Moves(less: Order, es: seq<Pair>, op: Op, i: nat, i': nat) {
    match op
    case ToFirst => i' == 0
    case ToLast => i' == if es == [] then 0 else |es| - 1
    case To(target) => SeekPos(less, es, target, i')
    case Forth => i' == if i < |es| then i + 1 else i
    case Back => i' == if i >= |es| then i else if i == 0 then |es| else i - 1
  }

  datatype Seen = Nothing | Entry(e: Pair)

  ghost function Observed(es: seq<Pair>, i: nat): Seen { if i < |es| then Entry(es[i]) else Nothing }

  ghost function Bytes(es: seq<Pair>): nat {
    if es == [] then 0 else Bytes(es[..|es| - 1]) + |es[|es| - 1].key| + |es[|es| - 1].value| + 15
  }

  method Build(interval: nat, es: seq<Pair>) returns (b: BlockBuilder)
    requires interval >= 1 && Bytes(es) < 0x1_0000_0000
    ensures fresh(b) && b.Valid() && b.es == es && |b.restarts| <= |es| + 1
  {
    b := new BlockBuilder(interval);
    for i := 0 to |es|
      invariant fresh(b) && b.Valid() && b.es == es[..i] && |b.restarts| <= i + 1 && |b.buffer| <= Bytes(es[..i])
    {
      assert es[..i + 1][..i] == es[..i] && es[..i] + [es[i]] == es[..i + 1] && es[..|es|] == es;
      BytesGrow(es, i + 1, |es|);
      b.Add(es[i]);
    }
    assert es[..|es|] == es;
  }

  lemma {:induction false} BytesGrow(es: seq<Pair>, i: nat, n: nat)
    requires i <= n <= |es|
    ensures Bytes(es[..i]) <= Bytes(es[..n])
    decreases n - i
  {
    if i < n {
      BytesGrow(es, i, n - 1);
      assert es[..n][..n - 1] == es[..n - 1];
    }
  }

  /** The first n calls each move the position as they should and show the entry there. */
  ghost predicate Follows(less: Order, es: seq<Pair>, ops: seq<Op>, n: nat, seen: seq<Seen>, at: seq<nat>) {
    && |seen| == n <= |ops| && |at| == n + 1 && at[0] == |es|
    && forall i :: 0 <= i < n ==>
         Moves(less, es, ops[i], at[i], at[i + 1]) && seen[i] == Observed(es, at[i + 1])
  }

  lemma FollowsOne(less: Order, es: seq<Pair>, ops: seq<Op>, i: nat, n: nat, seen: seq<Seen>, at: seq<nat>, now: Seen,
                   pos: nat)
    requires n == i + 1 <= |ops| && Follows(less, es, ops, i, seen, at)
    requires Moves(less, es, ops[i], at[i], pos) && now == Observed(es, pos)
    ensures Follows(less, es, ops, n, seen + [now], at + [pos])
  {}

  /** For every increasing list and every restart interval, a block built from the list and iterated by
      any program of calls shows what a position in the list shows. */
  method RunProgram(less: Order, interval: nat, es: seq<Pair>, ops: seq<Op>)
    returns (seen: seq<Seen>, ghost at: seq<nat>)
    requires Increasing(less, es) && interval >= 1 && Bytes(es) < 0x1_0000_0000 && |es| < 0xFFFF_FFFF
    ensures |seen| == |ops| && Follows(less, es, ops, |ops|, seen, at)
  {
    var b := Build(interval, es);
    var data := b.Finish();
    var it := new Iter(less, data, |b.buffer|, b.es, b.sh);
    seen, at := [], [|es|];
    for i := 0 to |ops|
      invariant fresh(it) && it.Valid() && it.less == less && it.es == es
      invariant Follows(less, es, ops, i, seen, at) && at[i] == it.pos
    {
      var now := RunOne(it, ops[i]);
      FollowsOne(less, es, ops, i, i + 1, seen, at, now, it.pos);
      seen, at := seen + [now], at + [it.pos];
    }
  }

  method RunOne(it: Iter, op: Op) returns (now: Seen)
    requires it.Valid() && Increasing(it.less, it.es)
    modifies it
    ensures it.Valid() && Moves(it.less, it.es, op, old(it.pos), it.pos) && now == Observed(it.es, it.pos)
  {
    it.ValidIsInside();
    match op {
      case ToFirst => it.SeekToFirst();
      case ToLast => it.SeekToLast();
      case To(target) => it.Seek(target);
      case Forth => if it.IsValid() { it.Next(); }
      case Back => if it.IsValid() { it.Prev(); }
    }
    it.ValidIsInside();
    now := if it.IsValid() then Entry(Pair(it.key, it.value)) else Nothing;
  }
}
