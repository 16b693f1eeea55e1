/** The log file format: records cut into fragments that never cross a 32 KB block. */
module LogFormat {
  import opened Coding

  const BLOCK: nat := 32768
  const HEADER: nat := 7

  const FULL: Byte := 1
  const FIRST: Byte := 2
  const MIDDLE: Byte := 3
  const LAST: Byte := 4

  // ---------- Checksums and integers ----------

  const MASK_DELTA: Word := 0xa282_ead8

  /** crc32c::Mask: rotate right by 15 bits, then add a constant, in 32 bits. */
  function Mask(crc: Word): Word {
    (crc / 0x8000 + (crc % 0x8000) * 0x2_0000 + MASK_DELTA) % 0x1_0000_0000
  }

  function Unmask(masked: Word): Word {
    var rot := (masked - MASK_DELTA) % 0x1_0000_0000;
    rot / 0x2_0000 + (rot % 0x2_0000) * 0x8000
  }

  lemma UnmaskMask(crc: Word)
    ensures Unmask(Mask(crc)) == crc
  {
    var hi, lo := crc / 0x8000, crc % 0x8000;
    var rot := hi + lo * 0x2_0000;
    assert 0 <= hi < 0x2_0000 && 0 <= rot < 0x1_0000_0000;
    assert (Mask(crc) - MASK_DELTA) % 0x1_0000_0000 == rot;
    assert rot / 0x2_0000 == lo && rot % 0x2_0000 == hi;
  }

  /** And Mask undoes Unmask. */
  lemma MaskUnmask(masked: Word)
    ensures Mask(Unmask(masked)) == masked
  {
    var rot := (masked - MASK_DELTA) % 0x1_0000_0000;
    var crc := Rotated(rot);
    assert (rot + MASK_DELTA) % 0x1_0000_0000 == masked;
    assert crc / 0x8000 + (crc % 0x8000) * 0x2_0000 == rot;
  }

  lemma Rotated(rot: Word) returns (crc: Word)
    ensures crc == rot / 0x2_0000 + (rot % 0x2_0000) * 0x8000
    ensures crc / 0x8000 == rot % 0x2_0000 && crc % 0x8000 == rot / 0x2_0000
  {
    var hi, lo := rot / 0x2_0000, rot % 0x2_0000;
    assert 0 <= hi < 0x8000 && 0 <= lo < 0x2_0000;
    crc := hi + lo * 0x8000;
  }

  /** crc32c::Value over a byte string; only its determinism matters here. */
  type Checksum = seq<Byte> -> Word

  // ---------- Writing ----------

  /** EmitPhysicalRecord: header (checksum, length, type) and payload. */
  function PhysBytes(crc: Checksum, kind: Byte, payload: seq<Byte>): (r: seq<Byte>)
    requires |payload| < 65536
    ensures |r| == HEADER + |payload|
  {
    EncodeFixed32(Mask(crc([kind] + payload))) + [|payload| % 256, |payload| / 256, kind] + payload
  }

  function Zeros(n: nat): (r: seq<Byte>)
    ensures |r| == n
  {
    seq(n, _ => 0)
  }

  /** Filler at file offset `p` when no header fits in the rest of the block. */
  function Pad(p: nat): nat { if BLOCK - p % BLOCK < HEADER then BLOCK - p % BLOCK else 0 }

  function Room(p: nat): (r: nat)
    ensures r < 65536
  {
    PadAligns(p);
    BLOCK - (p + Pad(p)) % BLOCK - HEADER
  }

  lemma PadAligns(p: nat)
    ensures (p + Pad(p)) % BLOCK + HEADER <= BLOCK
  {}

  function Kind(begin: bool, end: bool): Byte {
    if begin && end then FULL else if begin then FIRST else if end then LAST else MIDDLE
  }

  /** How much of `data` fits into the block at file offset `p`. */
  function Take(p: nat, data: seq<Byte>): (n: nat)
    ensures n <= |data| && n <= Room(p) && (n < |data| ==> n == Room(p))
  {
    if |data| < Room(p) then |data| else Room(p)
  }

  /** One fragment, with the filler before it. */
  function Piece(crc: Checksum, p: nat, data: seq<Byte>, begin: bool): (r: seq<Byte>)
    ensures |r| == Pad(p) + HEADER + Take(p, data)
  {
    var n := Take(p, data);
    Zeros(Pad(p)) + PhysBytes(crc, Kind(begin, n == |data|), data[..n])
  }

  /** The file length after that fragment. */
  function After(p: nat, data: seq<Byte>): nat { p + Pad(p) + HEADER + Take(p, data) }

  function NoRoom(p: nat): nat { if Room(p) == 0 then 1 else 0 }

  /** An empty first fragment at the end of a block is followed by a block with room. */
  lemma FragmentsProgress(p: nat, data: seq<Byte>)
    ensures Take(p, data) < |data| && Take(p, data) == 0 ==> NoRoom(After(p, data)) < NoRoom(p)
  {}

  /** What AddRecord appends when the file is `p` bytes long. */
  function Encode(crc: Checksum, p: nat, data: seq<Byte>, begin: bool): seq<Byte>
    decreases |data|, NoRoom(p)
  {
    var n := Take(p, data);
    if n == |data| then Piece(crc, p, data, begin)
    else
      FragmentsProgress(p, data);
      Piece(crc, p, data, begin) + Encode(crc, After(p, data), data[n..], false)
  }

  function EncodeAll(crc: Checksum, p: nat, records: seq<seq<Byte>>): seq<Byte>
    decreases |records|
  {
    if records == [] then []
    else
      var bytes := Encode(crc, p, records[0], true);
      bytes + EncodeAll(crc, p + |bytes|, records[1..])
  }

  /** The writer's block offset, before and after filling, against the file offset. */
  lemma PadMatches(p: nat, offset: nat, filled: nat)
    requires offset <= BLOCK && (p - offset) % BLOCK == 0
    requires filled == if BLOCK - offset < HEADER then 0 else offset
    ensures Pad(p) == if BLOCK - offset < HEADER then BLOCK - offset else 0
    ensures (p + Pad(p) - filled) % BLOCK == 0 && Room(p) == BLOCK - filled - HEADER
  {
    var k := (p - offset) / BLOCK;
    assert p == k * BLOCK + offset;
    if offset == BLOCK { assert p % BLOCK == 0; } else { assert p % BLOCK == offset; }
  }

  class Writer {
    const crc: Checksum
    var dest: seq<Byte>
    var blockOffset: nat

    constructor (crc: Checksum)
      ensures Valid() && this.crc == crc && dest == []
    {
      this.crc, dest, blockOffset := crc, [], 0;
    }

    /** A full block leaves the offset at kBlockSize until the next record is added. */
    ghost predicate Valid()
      reads this
    {
      blockOffset <= BLOCK && (|dest| - blockOffset) % BLOCK == 0
    }

    method EmitPhysicalRecord(kind: Byte, payload: seq<Byte>)
      requires Valid() && blockOffset + HEADER + |payload| <= BLOCK
      modifies this
      ensures Valid() && dest == old(dest) + PhysBytes(crc, kind, payload)
      ensures blockOffset == old(blockOffset) + HEADER + |payload|
    {
      var n := |payload|;
      var check := Mask(crc([kind] + payload));
      dest := dest + EncodeFixed32(check) + [n % 256, n / 256, kind];
      dest := dest + payload;
      blockOffset := blockOffset + HEADER + n;
    }

    /** One round of AddRecord: filler if no header fits, then as much as the block takes. */
    method AddFragment(left: seq<Byte>, begin: bool) returns (rest: seq<Byte>)
      requires Valid()
      modifies this
      ensures Valid() && dest == old(dest) + Piece(crc, |old(dest)|, left, begin)
      ensures rest == left[Take(|old(dest)|, left)..]
    {
      ghost var p := |dest|;
      var leftover := BLOCK - blockOffset;
      if leftover < HEADER {
        if leftover > 0 {
          dest := dest + Zeros(leftover);
        }
        blockOffset := 0;
      }
      PadMatches(p, old(blockOffset), blockOffset);
      assert dest == old(dest) + Zeros(Pad(p));
      var avail := BLOCK - blockOffset - HEADER;
      var fragmentLength := if |left| < avail then |left| else avail;
      var end := |left| == fragmentLength;
      EmitPhysicalRecord(Kind(begin, end), left[..fragmentLength]);
      rest := left[fragmentLength..];
    }

    /** AddRecord's do-while loop appends exactly Encode. */
    method AddRecord(slice: seq<Byte>)
      requires Valid()
      modifies this
      ensures Valid() && dest == old(dest) + Encode(crc, |old(dest)|, slice, true)
    {
      var left, begin, more := slice, true, true;
      while more
        invariant Valid()
        invariant more ==>
          old(dest) + Encode(crc, |old(dest)|, slice, true) == dest + Encode(crc, |dest|, left, begin)
        invariant !more ==> old(dest) + Encode(crc, |old(dest)|, slice, true) == dest
        decreases more, |left|, NoRoom(|dest|)
      {
        FragmentsProgress(|dest|, left);
        ghost var d, data, b := dest, left, begin;
        left := AddFragment(left, begin);
        assert |dest| == After(|d|, data);
        Regroup(d, Piece(crc, |d|, data, b), Encode(crc, |dest|, left, false));
        begin, more := false, |left| > 0;
      }
    }
  }

  lemma Regroup(a: seq<Byte>, b: seq<Byte>, c: seq<Byte>)
    ensures a + (b + c) == (a + b) + c
  {}
}
