/** Fixed and variable length integers, and byte strings inside byte strings. */
module Coding {
  type Byte = b: int | 0 <= b < 256
  type Word = w: int | 0 <= w < 0x1_0000_0000

  function EncodeFixed32(w: Word): (r: seq<Byte>)
    ensures |r| == 4
  {
    [w % 256, (w / 256) % 256, (w / 65536) % 256, w / 16777216]
  }

  function DecodeFixed32(b: seq<Byte>): Word
    requires |b| == 4
  {
    b[0] as int + 256 * (b[1] as int) + 65536 * (b[2] as int) + 16777216 * (b[3] as int)
  }

  lemma Fixed32RoundTrip(w: Word)
    ensures DecodeFixed32(EncodeFixed32(w)) == w
  {
    assert w == 256 * (w / 256) + w % 256;
    assert w / 256 == 256 * (w / 65536) + (w / 256) % 256;
    assert w / 65536 == 256 * (w / 16777216) + (w / 65536) % 256;
  }

  lemma Fixed32Decodes(b: seq<Byte>)
    requires |b| == 4
    ensures EncodeFixed32(DecodeFixed32(b)) == b
  {
    var w := DecodeFixed32(b);
    assert w / 256 == b[1] as int + 256 * (b[2] as int) + 65536 * (b[3] as int);
    assert w / 65536 == b[2] as int + 256 * (b[3] as int);
    assert w / 16777216 == b[3] as int;
  }

  ghost predicate At(file: seq<Byte>, p: nat, bytes: seq<Byte>) {
    p + |bytes| <= |file| && file[p..p + |bytes|] == bytes
  }

  lemma AtSplit(file: seq<Byte>, p: nat, a: seq<Byte>, b: seq<Byte>, q: nat)
    requires At(file, p, a + b) && q == p + |a|
    ensures At(file, p, a) && At(file, q, b)
  {
    assert (a + b)[..|a|] == a && (a + b)[|a|..] == b;
  }

  /** Bytes stay where they are when more are appended. */
  lemma AtPrefix(file: seq<Byte>, more: seq<Byte>, p: nat, bytes: seq<Byte>)
    requires At(file, p, bytes)
    ensures At(file + more, p, bytes)
  {}

  // ---------- Varints ----------

  /** EncodeVarint32: seven bits a byte, low bits first, the high bit marking that more follow. */
  function PutVarint(v: nat): (r: seq<Byte>)
    ensures |r| >= 1
  {
    if v < 128 then [v] else [v % 128 + 128] + PutVarint(v / 128)
  }

  datatype Parsed = Parsed(value: nat, next: nat) | Bad

  /** GetVarint32PtrFallback, with at most `k` bytes left to read. */
  function GetBytes(b: seq<Byte>, p: nat, limit: nat, k: nat): (r: Parsed)
    requires limit <= |b|
    ensures r.Parsed? ==> p < r.next <= limit
    decreases k
  {
    if k == 0 || p >= limit then Bad
    else if b[p] < 128 then Parsed(b[p], p + 1)
    else
      match GetBytes(b, p + 1, limit, k - 1)
      case Bad => Bad
      case Parsed(v, q) => Parsed(b[p] % 128 + 128 * v, q)
  }

  /** GetVarint32Ptr: five bytes at most, and 32 bits of them kept. */
  function GetVarint(b: seq<Byte>, p: nat, limit: nat): (r: Parsed)
    requires limit <= |b|
    ensures r.Parsed? ==> p < r.next <= limit
  {
    match GetBytes(b, p, limit, 5)
    case Bad => Bad
    case Parsed(v, q) => Parsed(v % 0x1_0000_0000, q)
  }

  function Pow128(k: nat): nat { if k == 0 then 1 else 128 * Pow128(k - 1) }

  lemma {:induction false} BytesRoundTrip(b: seq<Byte>, p: nat, limit: nat, v: nat, k: nat)
    requires At(b, p, PutVarint(v)) && p + |PutVarint(v)| <= limit <= |b| && k >= 1 && v < Pow128(k)
    ensures GetBytes(b, p, limit, k) == Parsed(v, p + |PutVarint(v)|)
    decreases v
  {
    var enc := PutVarint(v);
    assert b[p] == b[p..p + |enc|][0] == enc[0];
    if v >= 128 {
      assert Pow128(1) == 128;
      AtSplit(b, p, [v % 128 + 128], PutVarint(v / 128), p + 1);
      BytesRoundTrip(b, p + 1, limit, v / 128, k - 1);
    }
  }

  lemma VarintRoundTrip(b: seq<Byte>, p: nat, limit: nat, v: Word)
    requires At(b, p, PutVarint(v)) && p + |PutVarint(v)| <= limit <= |b|
    ensures GetVarint(b, p, limit) == Parsed(v, p + |PutVarint(v)|)
  {
    assert Pow128(1) == 128 && Pow128(2) == 16384 && Pow128(3) == 2097152 && Pow128(4) == 268435456
      && Pow128(5) == 34359738368;
    BytesRoundTrip(b, p, limit, v, 5);
  }

  // ---------- Fixed 64-bit integers and byte strings ----------

  type Word64 = w: int | 0 <= w < 0x1_0000_0000_0000_0000

  function EncodeFixed64(w: Word64): (r: seq<Byte>)
    ensures |r| == 8
  {
    EncodeFixed32(w % 0x1_0000_0000) + EncodeFixed32(w / 0x1_0000_0000)
  }

  function DecodeFixed64(b: seq<Byte>): Word64
    requires |b| == 8
  {
    DecodeFixed32(b[..4]) + 0x1_0000_0000 * DecodeFixed32(b[4..])
  }

  lemma Fixed64RoundTrip(w: Word64)
    ensures DecodeFixed64(EncodeFixed64(w)) == w
  {
    var lo, hi := w % 0x1_0000_0000, w / 0x1_0000_0000;
    Fixed32RoundTrip(lo);
    Fixed32RoundTrip(hi);
    assert EncodeFixed64(w)[..4] == EncodeFixed32(lo) && EncodeFixed64(w)[4..] == EncodeFixed32(hi);
  }

  /** GetVarint64Ptr: ten bytes at most, and 64 bits of them kept. */
  function GetVarint64(b: seq<Byte>, p: nat): (r: Parsed)
    requires p <= |b|
    ensures r.Parsed? ==> p < r.next <= |b| && r.value < 0x1_0000_0000_0000_0000
  {
    match GetBytes(b, p, |b|, 10)
    case Bad => Bad
    case Parsed(v, q) => Parsed(v % 0x1_0000_0000_0000_0000, q)
  }

  lemma TenBytes()
    ensures Pow128(10) == 0x40_0000_0000_0000_0000
  {
    assert Pow128(1) == 128 && Pow128(2) == 16384 && Pow128(3) == 2097152 && Pow128(4) == 268435456;
    assert Pow128(5) == 0x8_0000_0000 && Pow128(6) == 0x400_0000_0000 && Pow128(7) == 0x2_0000_0000_0000;
    assert Pow128(8) == 0x100_0000_0000_0000 && Pow128(9) == 0x8000_0000_0000_0000;
  }

  lemma {:induction false} Varint64RoundTrip(b: seq<Byte>, p: nat, v: Word64, q: nat)
    requires At(b, p, PutVarint(v)) && q == p + |PutVarint(v)|
    ensures p <= |b| && GetVarint64(b, p) == Parsed(v, q)
  {
    TenBytes();
    BytesRoundTrip(b, p, |b|, v, 10);
  }

  /** A string short enough for its length to be a 32-bit varint. */
  predicate Short(s: seq<Byte>) { |s| < 0x1_0000_0000 }

  function PutSlice(s: seq<Byte>): seq<Byte> { PutVarint(|s|) + s }

  datatype Slice = Slice(bytes: seq<Byte>, next: nat) | NoSlice

  /** GetLengthPrefixedSlice. */
  function GetSlice(b: seq<Byte>, p: nat): (r: Slice)
    requires p <= |b|
    ensures r.Slice? ==> p < r.next <= |b|
  {
    var n := GetVarint(b, p, |b|);
    if n.Bad? || n.next + n.value > |b| then NoSlice else Slice(b[n.next..n.next + n.value], n.next + n.value)
  }

  lemma SliceRoundTrip(b: seq<Byte>, p: nat, s: seq<Byte>, q: nat)
    requires Short(s) && At(b, p, PutSlice(s)) && q == p + |PutSlice(s)|
    ensures GetSlice(b, p) == Slice(s, q)
  {
    AtSplit(b, p, PutVarint(|s|), s, p + |PutVarint(|s|)|);
    VarintRoundTrip(b, p, |b|, |s|);
  }

  // ---------- Bits ----------

  type BitNo = k: nat | k < 8

  /** `b` after k turns of `>>= 1`. */
  function Shifted(b: Byte, k: nat): Byte { if k == 0 then b else Shifted(b / 2, k - 1) }

  predicate Bit(b: Byte, k: nat) { Shifted(b, k) % 2 == 1 }

  /** `b | (1 << k)` and `b & ~(1 << k)`, bit by bit from the lowest. */
  function WithBit(b: nat, k: nat, v: nat): nat {
    if k == 0 then b / 2 * 2 + v else WithBit(b / 2, k - 1, v) * 2 + b % 2
  }

  lemma {:induction false} WithBitBounded(b: nat, k: nat, v: nat, n: nat)
    requires v <= 1 && k < n && b < Pow2(n)
    ensures WithBit(b, k, v) < Pow2(n)
  {
    if k > 0 { WithBitBounded(b / 2, k - 1, v, n - 1); }
  }

  function Pow2(n: nat): nat { if n == 0 then 1 else 2 * Pow2(n - 1) }

  lemma ByteBounded(b: Byte, k: BitNo, v: nat)
    requires v <= 1
    ensures WithBit(b, k, v) < 256
  {
    assert Pow2(1) == 2 && Pow2(2) == 4 && Pow2(3) == 8 && Pow2(4) == 16 && Pow2(5) == 32 && Pow2(6) == 64
      && Pow2(7) == 128 && Pow2(8) == 256;
    WithBitBounded(b, k, v, 8);
  }

  function SetBit(b: Byte, k: BitNo): Byte { ByteBounded(b, k, 1); WithBit(b, k, 1) }

  function ClearBit(b: Byte, k: BitNo): Byte { ByteBounded(b, k, 0); WithBit(b, k, 0) }

  lemma {:induction false} BitOfWith(b: Byte, k: nat, v: nat, r: Byte, j: nat)
    requires v <= 1 && r == WithBit(b, k, v)
    ensures Bit(r, j) == if j == k then v == 1 else Bit(b, j)
    decreases k
  {
    if k == 0 {
      assert r / 2 == b / 2 && r % 2 == v;
    } else {
      var h := WithBit(b / 2, k - 1, v);
      assert r / 2 == h && r % 2 == b % 2;
      if j > 0 { BitOfWith(b / 2, k - 1, v, h, j - 1); }
    }
  }

  lemma BitAfterSet(b: Byte, k: BitNo, j: BitNo)
    ensures Bit(SetBit(b, k), j) == (j == k || Bit(b, j))
  {
    BitOfWith(b, k, 1, SetBit(b, k), j);
  }

  lemma BitAfterClear(b: Byte, k: BitNo, j: BitNo)
    ensures Bit(ClearBit(b, k), j) == (j != k && Bit(b, j))
  {
    BitOfWith(b, k, 0, ClearBit(b, k), j);
  }

  lemma {:induction false} NoBits(k: nat)
    ensures !Bit(0, k)
  {
    if k > 0 { NoBits(k - 1); }
  }

  lemma {:induction false} ShiftOnce(b: Byte, k: nat, n: nat)
    requires n == k + 1
    ensures Shifted(b, k) / 2 == Shifted(b, n)
  {
    if k > 0 { ShiftOnce(b / 2, k - 1, k); }
  }
}
