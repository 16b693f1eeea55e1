/** Bloom filters, and the filter block that keeps one for every 2 KB of table. */
module Filters {
  import opened Coding

  type Text = seq<Byte>

  // ---------- Bloom filters ----------

  type Hash = Text -> Word

  /** Rotate right by 17 bits. */
  function Rotate(h: Word): Word { h / 0x2_0000 + (h % 0x2_0000) * 0x8000 }

  function Step(h: Word, d: Word): Word { (h + d) % 0x1_0000_0000 }

  predicate IsSet(a: seq<Byte>, i: nat)
    requires i < 8 * |a|
  {
    Bit(a[i / 8], i % 8)
  }

  function Mark(a: seq<Byte>, i: nat): (r: seq<Byte>)
    requires i < 8 * |a|
    ensures |r| == |a|
  {
    a[i / 8 := SetBit(a[i / 8], i % 8)]
  }

  lemma MarkSets(a: seq<Byte>, i: nat, j: nat)
    requires i < 8 * |a| && j < 8 * |a|
    ensures IsSet(Mark(a, i), j) == (i == j || IsSet(a, j))
  {
    assert i == 8 * (i / 8) + i % 8 && j == 8 * (j / 8) + j % 8;
    if i / 8 == j / 8 { BitAfterSet(a[i / 8], i % 8, j % 8); }
  }

  /** The inner loop of CreateFilter: k probes by double hashing. */
  function MarkProbes(a: seq<Byte>, h: Word, d: Word, k: nat): (r: seq<Byte>)
    requires |a| > 0
    ensures |r| == |a|
    decreases k
  {
    if k == 0 then a else MarkProbes(Mark(a, h % (8 * |a|)), Step(h, d), d, k - 1)
  }

  /** The loop of KeyMayMatch. */
  predicate AllProbesSet(a: seq<Byte>, h: Word, d: Word, k: nat)
    requires |a| > 0
    decreases k
  {
    k == 0 || (IsSet(a, h % (8 * |a|)) && AllProbesSet(a, Step(h, d), d, k - 1))
  }

  function MarkKeys(hash: Hash, a: seq<Byte>, keys: seq<Text>, k: nat): (r: seq<Byte>)
    requires |a| > 0
    ensures |r| == |a|
  {
    if keys == [] then a
    else
      var h := hash(keys[|keys| - 1]);
      MarkProbes(MarkKeys(hash, a, keys[..|keys| - 1], k), h, Rotate(h), k)
  }

  /** Bytes of a filter for n keys: at least 64 bits. */
  function FilterBytes(n: nat, bitsPerKey: nat): (r: nat)
    ensures r >= 8
  {
    var bits := n * bitsPerKey;
    ((if bits < 64 then 64 else bits) + 7) / 8
  }

  function Bloom(hash: Hash, bitsPerKey: nat, k: nat, keys: seq<Text>): seq<Byte>
    requires 1 <= k <= 30
  {
    MarkKeys(hash, seq(FilterBytes(|keys|, bitsPerKey), _ => 0), keys, k) + [k]
  }

  /** CreateFilter, appended to `dst`. */
  method CreateFilter(hash: Hash, bitsPerKey: nat, k: nat, keys: seq<Text>, dst: seq<Byte>) returns (r: seq<Byte>)
    requires 1 <= k <= 30
    ensures r == dst + Bloom(hash, bitsPerKey, k, keys)
  {
    var bytes := FilterBytes(|keys|, bitsPerKey);
    var a := new Byte[bytes](_ => 0);
    ghost var zero: seq<Byte> := seq(bytes, _ => 0);
    assert a[..] == zero;
    for i := 0 to |keys|
      invariant a.Length == bytes && a[..] == MarkKeys(hash, zero, keys[..i], k)
    {
      assert keys[..i + 1][..i] == keys[..i];
      var h := hash(keys[i]);
      MarkInPlace(a, h, Rotate(h), k);
    }
    assert keys[..|keys|] == keys;
    r := dst + (a[..] + [k]);
  }

  method MarkInPlace(a: array<Byte>, h0: Word, delta: Word, k: nat)
    requires a.Length > 0
    modifies a
    ensures a[..] == MarkProbes(old(a[..]), h0, delta, k)
  {
    var h: Word := h0;
    ghost var was := a[..];
    for j := 0 to k
      invariant MarkProbes(was, h0, delta, k) == MarkProbes(a[..], h, delta, k - j)
    {
      var bitpos := h % (8 * a.Length);
      ghost var before := a[..];
      a[bitpos / 8] := SetBit(a[bitpos / 8], bitpos % 8);
      assert a[..] == Mark(before, bitpos);
      h := Step(h, delta);
    }
  }

  /** KeyMayMatch: too short is no filter, and an unknown probe count always matches; any other filter matches a key
      exactly when all its probes are set. */
  method KeyMayMatch(hash: Hash, key: Text, filter: seq<Byte>) returns (r: bool)
    ensures r == Matches(hash, key, filter)
    ensures r <==> |filter| >= 2 && (filter[|filter| - 1] > 30 || ProbesSet(hash, key, filter))
  {
    MatchesIff(hash, key, filter);
    if |filter| < 2 {
      return false;
    }
    var a, k := filter[..|filter| - 1], filter[|filter| - 1];
    if k > 30 {
      return true;
    }
    var h: Word := hash(key);
    var delta := Rotate(h);
    for j := 0 to k
      invariant AllProbesSet(a, hash(key), delta, k) == AllProbesSet(a, h, delta, k - j)
    {
      var bitpos := h % (8 * |a|);
      if !IsSet(a, bitpos) {
        return false;
      }
      h := Step(h, delta);
    }
    r := true;
  }

  predicate Matches(hash: Hash, key: Text, filter: seq<Byte>) {
    && |filter| >= 2
    && (filter[|filter| - 1] > 30
        || AllProbesSet(filter[..|filter| - 1], hash(key), Rotate(hash(key)), filter[|filter| - 1]))
  }

  ghost predicate Covers(more: seq<Byte>, a: seq<Byte>) {
    |more| == |a| && forall i :: 0 <= i < 8 * |a| && IsSet(a, i) ==> IsSet(more, i)
  }

  lemma MarkCovers(a: seq<Byte>, i: nat)
    requires i < 8 * |a|
    ensures Covers(Mark(a, i), a)
  {
    forall j | 0 <= j < 8 * |a| && IsSet(a, j) ensures IsSet(Mark(a, i), j) { MarkSets(a, i, j); }
  }

  lemma {:induction false} ProbesCover(a: seq<Byte>, h: Word, d: Word, k: nat)
    requires |a| > 0
    ensures Covers(MarkProbes(a, h, d, k), a)
    decreases k
  {
    if k > 0 {
      MarkCovers(a, h % (8 * |a|));
      ProbesCover(Mark(a, h % (8 * |a|)), Step(h, d), d, k - 1);
    }
  }

  lemma {:induction false} ProbesSetAll(a: seq<Byte>, h: Word, d: Word, k: nat)
    requires |a| > 0
    ensures AllProbesSet(MarkProbes(a, h, d, k), h, d, k)
    decreases k
  {
    if k > 0 {
      var i := h % (8 * |a|);
      MarkSets(a, i, i);
      ProbesCover(Mark(a, i), Step(h, d), d, k - 1);
      ProbesSetAll(Mark(a, i), Step(h, d), d, k - 1);
    }
  }

  lemma {:induction false} CoverKeepsProbes(more: seq<Byte>, a: seq<Byte>, h: Word, d: Word, k: nat)
    requires |a| > 0 && Covers(more, a) && AllProbesSet(a, h, d, k)
    ensures AllProbesSet(more, h, d, k)
    decreases k
  {
    if k > 0 { CoverKeepsProbes(more, a, Step(h, d), d, k - 1); }
  }

  lemma {:induction false} KeysSetAll(hash: Hash, a: seq<Byte>, keys: seq<Text>, k: nat, i: nat)
    requires |a| > 0 && i < |keys|
    ensures AllProbesSet(MarkKeys(hash, a, keys, k), hash(keys[i]), Rotate(hash(keys[i])), k)
  {
    var n := |keys| - 1;
    var init, h := MarkKeys(hash, a, keys[..n], k), hash(keys[n]);
    ProbesSetAll(init, h, Rotate(h), k);
    if i < n {
      KeysSetAll(hash, a, keys[..n], k, i);
      ProbesCover(init, h, Rotate(h), k);
      CoverKeepsProbes(MarkKeys(hash, a, keys, k), init, hash(keys[i]), Rotate(hash(keys[i])), k);
    }
  }

  /** A Bloom filter matches every key it was made from. */
  lemma BloomHasNoFalseNegatives(hash: Hash, bitsPerKey: nat, k: nat, keys: seq<Text>, key: Text)
    requires 1 <= k <= 30 && key in keys
    ensures Matches(hash, key, Bloom(hash, bitsPerKey, k, keys))
  {
    var i :| 0 <= i < |keys| && keys[i] == key;
    var zero: seq<Byte> := seq(FilterBytes(|keys|, bitsPerKey), _ => 0);
    KeysSetAll(hash, zero, keys, k, i);
    var f := Bloom(hash, bitsPerKey, k, keys);
    assert f[..|f| - 1] == MarkKeys(hash, zero, keys, k);
  }

  // ---------- What the probes are ----------

  /** The j-th hash value of double hashing. */
  function NthHash(h: Word, d: Word, j: nat): nat { (h + j * d) % 0x1_0000_0000 }

  lemma NextHash(h: Word, d: Word, j: nat, n: nat)
    requires n == j + 1
    ensures NthHash(Step(h, d), d, j) == NthHash(h, d, n) && NthHash(h, d, 0) == h
  {
    assert n * d == j * d + d;
    AddThenWrap(h, d, j * d);
  }

  lemma AddThenWrap(h: Word, d: Word, p: nat)
    ensures (Step(h, d) + p) % 0x1_0000_0000 == (h + (p + d)) % 0x1_0000_0000
  {}

  /** The bit of the j-th probe for a key in a filter of this many bytes. */
  function Probe(hash: Hash, key: Text, j: nat, bytes: nat): nat
    requires bytes > 0
  {
    NthHash(hash(key), Rotate(hash(key)), j) % (8 * bytes)
  }

  /** As many probes as the last byte says are set in the bytes before it. */
  ghost predicate ProbesSet(hash: Hash, key: Text, filter: seq<Byte>)
    requires |filter| >= 2
  {
    var a := filter[..|filter| - 1];
    forall j: nat :: j < filter[|filter| - 1] ==> IsSet(a, Probe(hash, key, j, |a|))
  }

  ghost predicate SetAt(a: seq<Byte>, h: Word, d: Word, j: nat)
    requires |a| > 0
  {
    IsSet(a, NthHash(h, d, j) % (8 * |a|))
  }

  ghost predicate AllSet(a: seq<Byte>, h: Word, d: Word, k: nat)
    requires |a| > 0
  {
    forall j: nat :: j < k ==> SetAt(a, h, d, j)
  }

  lemma FirstAndRest(a: seq<Byte>, h: Word, d: Word, k: nat, m: nat)
    requires |a| > 0 && k == m + 1
    ensures AllSet(a, h, d, k) <==> IsSet(a, h % (8 * |a|)) && AllSet(a, Step(h, d), d, m)
  {
    NextHash(h, d, 0, 1);
    assert SetAt(a, h, d, 0) == IsSet(a, h % (8 * |a|));
    forall j: nat, n: nat | n == j + 1 ensures SetAt(a, Step(h, d), d, j) == SetAt(a, h, d, n) {
      NextHash(h, d, j, n);
    }
    if AllSet(a, h, d, k) {
      forall j: nat | j < m ensures SetAt(a, Step(h, d), d, j) { assert SetAt(a, h, d, j + 1); }
    }
    if IsSet(a, h % (8 * |a|)) && AllSet(a, Step(h, d), d, m) {
      forall j: nat | j < k ensures SetAt(a, h, d, j) { assert j > 0 ==> SetAt(a, Step(h, d), d, j - 1); }
    }
  }

  lemma {:induction false} AllSetIff(a: seq<Byte>, h: Word, d: Word, k: nat)
    requires |a| > 0
    ensures AllProbesSet(a, h, d, k) <==> AllSet(a, h, d, k)
    decreases k
  {
    if k > 0 {
      AllSetIff(a, Step(h, d), d, k - 1);
      FirstAndRest(a, h, d, k, k - 1);
    }
  }

  lemma MatchesIff(hash: Hash, key: Text, filter: seq<Byte>)
    ensures Matches(hash, key, filter)
      <==> |filter| >= 2 && (filter[|filter| - 1] > 30 || ProbesSet(hash, key, filter))
  {
    if |filter| >= 2 {
      var a, h, k := filter[..|filter| - 1], hash(key), filter[|filter| - 1];
      AllSetIff(a, h, Rotate(h), k);
      forall j: nat | j < k ensures SetAt(a, h, Rotate(h), j) == IsSet(a, Probe(hash, key, j, |a|)) {}
    }
  }

  /** Bit i is that of one of the first k probes. */
  ghost predicate Probed(h: Word, d: Word, k: nat, bytes: nat, i: nat)
    requires bytes > 0
  {
    exists j: nat :: j < k && NthHash(h, d, j) % (8 * bytes) == i
  }

  lemma {:induction false} ProbedIff(h: Word, d: Word, k: nat, bytes: nat, i: nat, m: nat)
    requires bytes > 0 && k == m + 1
    ensures Probed(h, d, k, bytes, i) <==> h % (8 * bytes) == i || Probed(Step(h, d), d, m, bytes, i)
  {
    NextHash(h, d, 0, 1);
    if Probed(h, d, k, bytes, i) {
      var j: nat :| j < k && NthHash(h, d, j) % (8 * bytes) == i;
      if j > 0 { NextHash(h, d, j - 1, j); }
    }
    if Probed(Step(h, d), d, m, bytes, i) {
      var j: nat :| j < m && NthHash(Step(h, d), d, j) % (8 * bytes) == i;
      NextHash(h, d, j, j + 1);
    }
    if h % (8 * bytes) == i { assert NthHash(h, d, 0) % (8 * bytes) == i; }
  }

  lemma {:induction false} MarkedIff(a: seq<Byte>, h: Word, d: Word, k: nat, i: nat)
    requires |a| > 0 && i < 8 * |a|
    ensures IsSet(MarkProbes(a, h, d, k), i) <==> IsSet(a, i) || Probed(h, d, k, |a|, i)
    decreases k
  {
    if k > 0 {
      var first := h % (8 * |a|);
      MarkSets(a, first, i);
      MarkedIff(Mark(a, first), Step(h, d), d, k - 1, i);
      ProbedIff(h, d, k, |a|, i, k - 1);
    }
  }

  ghost predicate ProbedBy(hash: Hash, key: Text, k: nat, bytes: nat, i: nat)
    requires bytes > 0
  {
    exists j: nat :: j < k && Probe(hash, key, j, bytes) == i
  }

  lemma {:induction false} KeysMarkIff(hash: Hash, a: seq<Byte>, keys: seq<Text>, k: nat, i: nat)
    requires |a| > 0 && i < 8 * |a|
    ensures IsSet(MarkKeys(hash, a, keys, k), i)
      <==> IsSet(a, i) || ProbedByOne(hash, keys, k, |a|, i)
  {
    if keys != [] {
      var n := |keys| - 1;
      var before, h := MarkKeys(hash, a, keys[..n], k), hash(keys[n]);
      KeysMarkIff(hash, a, keys[..n], k, i);
      MarkedIff(before, h, Rotate(h), k, i);
      SameProbed(hash, keys[n], k, |a|, i);
      LastKey(hash, keys, k, |a|, i, n);
    }
  }

  lemma LastKey(hash: Hash, keys: seq<Text>, k: nat, bytes: nat, i: nat, n: nat)
    requires bytes > 0 && |keys| == n + 1
    ensures ProbedByOne(hash, keys, k, bytes, i)
      <==> ProbedByOne(hash, keys[..n], k, bytes, i) || ProbedBy(hash, keys[n], k, bytes, i)
  {
    assert keys == keys[..n] + [keys[n]];
  }

  lemma SameProbed(hash: Hash, key: Text, k: nat, bytes: nat, i: nat)
    requires bytes > 0
    ensures ProbedBy(hash, key, k, bytes, i) <==> Probed(hash(key), Rotate(hash(key)), k, bytes, i)
  {
    if Probed(hash(key), Rotate(hash(key)), k, bytes, i) {
      var j: nat :| j < k && NthHash(hash(key), Rotate(hash(key)), j) % (8 * bytes) == i;
      assert Probe(hash, key, j, bytes) == i;
    }
    if ProbedBy(hash, key, k, bytes, i) {
      var j: nat :| j < k && Probe(hash, key, j, bytes) == i;
      assert NthHash(hash(key), Rotate(hash(key)), j) % (8 * bytes) == i;
    }
  }

  /** Bit i is that of a probe of one of the keys. */
  ghost predicate ProbedByOne(hash: Hash, keys: seq<Text>, k: nat, bytes: nat, i: nat)
    requires bytes > 0
  {
    exists key :: key in keys && ProbedBy(hash, key, k, bytes, i)
  }

  /** The bits of the keys' probes are set, and no others. */
  ghost predicate BitsAre(hash: Hash, keys: seq<Text>, k: nat, a: seq<Byte>)
    requires |a| > 0
  {
    forall i: nat :: i < 8 * |a| ==> (IsSet(a, i) <==> ProbedByOne(hash, keys, k, |a|, i))
  }

  lemma EnoughBytes(bits: nat, bytes: nat)
    requires bytes == ((if bits < 64 then 64 else bits) + 7) / 8
    ensures bits <= 8 * bytes && 64 <= 8 * bytes && (8 * bytes < bits + 8 || 8 * bytes == 64)
  {}

  /** A Bloom filter has as many bits as its keys are worth, 64 at least, rounded up to whole bytes, and its bits are
      those of the keys' probes. */
  lemma BloomIs(hash: Hash, bitsPerKey: nat, k: nat, keys: seq<Text>)
    requires 1 <= k <= 30
    ensures var f := Bloom(hash, bitsPerKey, k, keys);
            && |f| >= 2 && f[|f| - 1] == k && BitsAre(hash, keys, k, f[..|f| - 1])
    ensures var bits := 8 * (|Bloom(hash, bitsPerKey, k, keys)| - 1);
            |keys| * bitsPerKey <= bits && 64 <= bits && (bits < |keys| * bitsPerKey + 8 || bits == 64)
  {
    var bytes := FilterBytes(|keys|, bitsPerKey);
    EnoughBytes(|keys| * bitsPerKey, bytes);
    var zero: seq<Byte> := seq(bytes, _ => 0);
    var f := Bloom(hash, bitsPerKey, k, keys);
    var a := MarkKeys(hash, zero, keys, k);
    assert f[..|f| - 1] == a;
    forall i: nat | i < 8 * |a| ensures IsSet(a, i) <==> ProbedByOne(hash, keys, k, |a|, i) {
      KeysMarkIff(hash, zero, keys, k, i);
      ZeroBit(i % 8);
    }
  }

  lemma {:induction false} ZeroBit(j: nat)
    ensures !Bit(0, j)
  {
    if j > 0 { ZeroBit(j - 1); }
  }

  /** The j-th probe for the key hits a bit of one of the keys. */
  ghost predicate ProbeIsTaken(hash: Hash, keys: seq<Text>, k: nat, bytes: nat, key: Text, j: nat)
    requires bytes > 0
  {
    ProbedByOne(hash, keys, k, bytes, Probe(hash, key, j, bytes))
  }

  /** So it matches exactly the keys all of whose probes are probes of its keys, and denies every other. */
  lemma BloomMatchesIff(hash: Hash, bitsPerKey: nat, k: nat, keys: seq<Text>, key: Text, f: seq<Byte>,
                        bytes: nat)
    requires 1 <= k <= 30 && f == Bloom(hash, bitsPerKey, k, keys) && bytes == FilterBytes(|keys|, bitsPerKey)
    ensures Matches(hash, key, f)
      <==> forall j: nat :: j < k ==> ProbeIsTaken(hash, keys, k, bytes, key, j)
  {
    BloomIs(hash, bitsPerKey, k, keys);
    MatchesIff(hash, key, f);
    var a := f[..|f| - 1];
    forall j: nat | j < k ensures ProbeIsTaken(hash, keys, k, |a|, key, j) == IsSet(a, Probe(hash, key, j, |a|)) {}
  }

  // ---------- The filter block ----------

  datatype Policy = Policy(create: seq<Text> -> seq<Byte>, may: (Text, seq<Byte>) -> bool)

  ghost predicate NoFalseNegatives(policy: Policy) {
    forall keys, k {:trigger k in keys, policy.create(keys)} :: k in keys ==> policy.may(k, policy.create(keys))
  }

  lemma BloomPolicy(hash: Hash, bitsPerKey: nat, k: nat, policy: Policy)
    requires 1 <= k <= 30
    requires policy == Policy(keys => if 1 <= k <= 30 then Bloom(hash, bitsPerKey, k, keys) else [],
                              (key, f) => Matches(hash, key, f))
    ensures NoFalseNegatives(policy)
  {
    forall keys: seq<Text>, key: Text | key in keys ensures policy.may(key, policy.create(keys)) {
      BloomHasNoFalseNegatives(hash, bitsPerKey, k, keys, key);
    }
  }

  const FILTER_BASE: nat := 2048
  const FILTER_BASE_LG: Byte := 11

  /** No filter is written for no keys. */
  function FilterOf(policy: Policy, keys: seq<Text>): seq<Byte> { if keys == [] then [] else policy.create(keys) }

  /** The filters of the first n ranges, one after another. */
  function Joined(policy: Policy, lists: seq<seq<Text>>): seq<Byte> {
    if lists == [] then [] else Joined(policy, lists[..|lists| - 1]) + FilterOf(policy, lists[|lists| - 1])
  }

  ghost predicate OffsetsOk(policy: Policy, lists: seq<seq<Text>>, offsets: seq<nat>) {
    |offsets| == |lists| && forall i :: 0 <= i < |offsets| ==> offsets[i] == |Joined(policy, lists[..i])|
  }

  /** The keys of range i, whether its filter has been written or not. */
  ghost function KeysAt(lists: seq<seq<Text>>, keys: seq<Text>, i: nat): seq<Text> {
    if i < |lists| then lists[i] else if i == |lists| then keys else []
  }

  /** All keys, range after range. */
  ghost function InOrder(lists: seq<seq<Text>>): seq<Text> {
    if lists == [] then [] else InOrder(lists[..|lists| - 1]) + lists[|lists| - 1]
  }

  lemma {:induction false} InOrderSnoc(lists: seq<seq<Text>>, keys: seq<Text>)
    ensures InOrder(lists + [keys]) + [] == InOrder(lists) + keys
  {
    assert (lists + [keys])[..|lists|] == lists;
    assert InOrder(lists + [keys]) + [] == InOrder(lists + [keys]);
  }

  class FilterBlockBuilder {
    const policy: Policy
    var keys: seq<Text>
    var result: seq<Byte>
    var offsets: seq<nat>
    ghost var lists: seq<seq<Text>>

    constructor (policy: Policy)
      ensures Valid() && this.policy == policy && lists == [] && keys == [] && AllKeys() == []
    {
      this.policy, keys, result, offsets, lists := policy, [], [], [], [];
    }

    ghost predicate Valid()
      reads this
    {
      result == Joined(policy, lists) && OffsetsOk(policy, lists, offsets)
    }

    /** All keys added so far. */
    ghost function AllKeys(): seq<Text>
      reads this
    {
      InOrder(lists) + keys
    }

    method GenerateFilter()
      requires Valid()
      modifies this
      ensures Valid() && lists == old(lists) + [old(keys)] && keys == [] && AllKeys() == old(AllKeys())
    {
      InOrderSnoc(lists, keys);
      ListsGrow(policy, lists, keys);
      offsets := offsets + [|result|];
      if keys != [] {
        result := result + policy.create(keys);
      }
      lists, keys := lists + [keys], [];
    }

    /** StartBlock: one filter for every 2 KB up to the block. */
    method StartBlock(offset: nat)
      requires Valid() && |lists| <= offset / FILTER_BASE
      modifies this
      ensures Valid() && |lists| == offset / FILTER_BASE
      ensures forall i: nat :: KeysAt(lists, keys, i) == KeysAt(old(lists), old(keys), i)
      ensures AllKeys() == old(AllKeys())
    {
      while offset / FILTER_BASE > |offsets|
        invariant Valid() && |lists| <= offset / FILTER_BASE
        invariant forall i: nat :: KeysAt(lists, keys, i) == KeysAt(old(lists), old(keys), i)
        invariant AllKeys() == old(AllKeys())
        decreases offset / FILTER_BASE - |offsets|
      {
        GenerateFilter();
      }
    }

    /** AddKey: into the range of the block under way. */
    method AddKey(key: Text)
      requires Valid()
      modifies this
      ensures Valid() && lists == old(lists) && keys == old(keys) + [key] && AllKeys() == old(AllKeys()) + [key]
    {
      assert InOrder(lists) + (keys + [key]) == InOrder(lists) + keys + [key];
      keys := keys + [key];
    }

    /** Finish: the last filter, the array of offsets, where it starts, and the base. */
    method Finish() returns (data: seq<Byte>, ghost all: seq<seq<Text>>)
      requires Valid()
      modifies this
      ensures |Joined(policy, all)| < 0x1_0000_0000 ==> IsFilterBlock(policy, data, all)
      ensures forall i: nat :: KeysAt(all, [], i) == KeysAt(old(lists), old(keys), i)
      ensures InOrder(all) == old(AllKeys()) && |all| <= |old(lists)| + 1
    {
      if keys != [] {
        GenerateFilter();
      }
      assert InOrder(lists) + [] == InOrder(lists);
      all := lists;
      data := EncodeBlock(policy, result, offsets, lists);
    }
  }

  /** Offsets are stored in 32 bits, so the block can only be read back while the filters stay below 4 GB. */
  method EncodeBlock(policy: Policy, result: seq<Byte>, offsets: seq<nat>, ghost lists: seq<seq<Text>>)
    returns (data: seq<Byte>)
    requires result == Joined(policy, lists) && OffsetsOk(policy, lists, offsets)
    ensures |result| < 0x1_0000_0000 ==> IsFilterBlock(policy, data, lists)
  {
    data := result;
    ghost var small := |result| < 0x1_0000_0000;
    for i := 0 to |offsets|
      invariant |data| == |result| + 4 * i && result <= data && (small ==> Words(policy, data, lists, |result|, i))
    {
      var word := EncodeFixed32(offsets[i] % 0x1_0000_0000);
      NextWord(policy, data, lists, result, offsets, i, i + 1, word);
      data := data + word;
    }
    var word := EncodeFixed32(|result| % 0x1_0000_0000);
    assert lists[..|lists|] == lists;
    if small {
      AddWord(policy, data, lists, |result|, |lists|, |lists| + 1, word);
      WordsStay(policy, data + word, lists, |result|, |lists| + 1, [FILTER_BASE_LG]);
    }
    data := data + word;
    data := data + [FILTER_BASE_LG];
  }

  lemma NextWord(policy: Policy, data: seq<Byte>, lists: seq<seq<Text>>, result: seq<Byte>, offsets: seq<nat>, i: nat,
                 n: nat, word: seq<Byte>)
    requires result == Joined(policy, lists) && OffsetsOk(policy, lists, offsets) && n == i + 1 <= |lists|
      && |data| == |result| + 4 * i
    requires |result| < 0x1_0000_0000 ==> Words(policy, data, lists, |result|, i)
    requires word == EncodeFixed32(offsets[i] % 0x1_0000_0000)
    ensures |result| < 0x1_0000_0000 ==> Words(policy, data + word, lists, |result|, n)
  {
    if |result| < 0x1_0000_0000 {
      assert lists[..|lists|] == lists;
      JoinedGrow(policy, lists, i, |lists|);
      AddWord(policy, data, lists, |result|, i, n, word);
    }
  }

  lemma {:induction false} JoinedGrow(policy: Policy, lists: seq<seq<Text>>, i: nat, n: nat)
    requires i <= n <= |lists|
    ensures Joined(policy, lists[..i]) <= Joined(policy, lists[..n])
    decreases n - i
  {
    if i < n {
      JoinedGrow(policy, lists, i, n - 1);
      assert lists[..n][..n - 1] == lists[..n - 1];
    }
  }

  ghost predicate WordAt(policy: Policy, data: seq<Byte>, lists: seq<seq<Text>>, base: nat, i: nat)
    requires i <= |lists|
  {
    |Joined(policy, lists[..i])| < 0x1_0000_0000 && At(data, base + 4 * i, EncodeFixed32(|Joined(policy, lists[..i])|))
  }

  /** The first n words of the offset array; the one after the last offset is where the array starts. */
  ghost predicate Words(policy: Policy, data: seq<Byte>, lists: seq<seq<Text>>, base: nat, n: nat) {
    n <= |lists| + 1 && forall i :: 0 <= i < n ==> WordAt(policy, data, lists, base, i)
  }

  lemma WordsStay(policy: Policy, data: seq<Byte>, lists: seq<seq<Text>>, base: nat, n: nat, more: seq<Byte>)
    requires Words(policy, data, lists, base, n)
    ensures Words(policy, data + more, lists, base, n)
  {
    forall i | 0 <= i < n ensures WordAt(policy, data + more, lists, base, i) {
      assert WordAt(policy, data, lists, base, i);
      AtPrefix(data, more, base + 4 * i, EncodeFixed32(|Joined(policy, lists[..i])|));
    }
  }

  lemma AddWord(policy: Policy, data: seq<Byte>, lists: seq<seq<Text>>, base: nat, n: nat, n': nat, word: seq<Byte>)
    requires Words(policy, data, lists, base, n) && n' == n + 1 <= |lists| + 1 && |data| == base + 4 * n
    requires |Joined(policy, lists[..n])| < 0x1_0000_0000 && word == EncodeFixed32(|Joined(policy, lists[..n])|)
    ensures Words(policy, data + word, lists, base, n')
  {
    WordsStay(policy, data, lists, base, n, word);
    assert (data + word)[|data|..|data| + 4] == word;
    assert WordAt(policy, data + word, lists, base, n);
  }

  ghost predicate IsFilterBlock(policy: Policy, data: seq<Byte>, lists: seq<seq<Text>>) {
    var joined := Joined(policy, lists);
    && |data| == |joined| + 4 * |lists| + 5 && joined <= data && data[|data| - 1] == FILTER_BASE_LG
    && Words(policy, data, lists, |joined|, |lists| + 1)
  }

  lemma ReadWord(policy: Policy, data: seq<Byte>, lists: seq<seq<Text>>, base: nat, i: nat, at: nat)
    requires i <= |lists| && WordAt(policy, data, lists, base, i) && at == base + 4 * i
    ensures at + 4 <= |data| && DecodeFixed32(data[at..at + 4]) == |Joined(policy, lists[..i])|
  {
    Fixed32RoundTrip(|Joined(policy, lists[..i])|);
  }

  lemma FilterSlice(policy: Policy, lists: seq<seq<Text>>, i: nat, n: nat, start: nat, limit: nat)
    requires n == i + 1 <= |lists| && start == |Joined(policy, lists[..i])| && limit == |Joined(policy, lists[..n])|
    ensures start <= limit <= |Joined(policy, lists)|
      && Joined(policy, lists)[start..limit] == FilterOf(policy, lists[i])
  {
    assert lists[..n][..i] == lists[..i] && lists[..|lists|] == lists;
    JoinedGrow(policy, lists, n, |lists|);
    TailOf(Joined(policy, lists[..i]), FilterOf(policy, lists[i]), Joined(policy, lists[..n]), Joined(policy, lists),
        start, limit);
  }

  lemma TailOf(a: seq<Byte>, b: seq<Byte>, ab: seq<Byte>, all: seq<Byte>, start: nat, limit: nat)
    requires ab == a + b && ab <= all && start == |a| && limit == |ab|
    ensures all[start..limit] == b
  {}

  /** FilterBlockReader::KeyMayMatch on a finished filter block. */
  method BlockKeyMayMatch(policy: Policy, contents: seq<Byte>, blockOffset: nat, key: Text, ghost lists: seq<seq<Text>>)
    returns (r: bool)
    requires IsFilterBlock(policy, contents, lists)
    ensures var i := blockOffset / FILTER_BASE;
            r == (i < |lists| ==> policy.may(key, FilterOf(policy, lists[i])))
  {
    ghost var joined := Joined(policy, lists);
    var n := |contents|;
    assert lists[..|lists|] == lists;
    ReadWord(policy, contents, lists, |joined|, |lists|, n - 5);
    var lastWord := DecodeFixed32(contents[n - 5..n - 1]);
    var num := (n - 5 - lastWord) / 4;
    var index := blockOffset / FILTER_BASE;
    if index < num {
      ReadWord(policy, contents, lists, |joined|, index, lastWord + 4 * index);
      ReadWord(policy, contents, lists, |joined|, index + 1, lastWord + 4 * index + 4);
      var start := DecodeFixed32(contents[lastWord + 4 * index..lastWord + 4 * index + 4]);
      var limit := DecodeFixed32(contents[lastWord + 4 * index + 4..lastWord + 4 * index + 8]);
      FilterSlice(policy, lists, index, index + 1, start, limit);
      assert contents[start..limit] == joined[start..limit];
      r := policy.may(key, contents[start..limit]);
    } else {
      r := true;
    }
  }

  /** Whatever blocks start where, the block of a key never denies the key. */
  lemma NoKeyDenied(policy: Policy, lists: seq<seq<Text>>, i: nat, key: Text)
    requires NoFalseNegatives(policy) && key in KeysAt(lists, [], i)
    ensures i < |lists| && policy.may(key, FilterOf(policy, lists[i]))
  {
    assert key in lists[i];
  }

  lemma ListsGrow(policy: Policy, lists: seq<seq<Text>>, keys: seq<Text>)
    ensures Joined(policy, lists + [keys]) == Joined(policy, lists) + FilterOf(policy, keys)
    ensures forall i :: 0 <= i <= |lists| ==> (lists + [keys])[..i] == lists[..i]
  {
    assert (lists + [keys])[..|lists|] == lists;
  }
}
