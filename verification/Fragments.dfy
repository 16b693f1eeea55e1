/** How a record lies in a log file: as few fragments as the blocks allow, none across the end of a block. */
module Fragments {
  import opened Coding
  import opened LogFormat

  /** A physical record that starts at file offset `at`. */
  datatype Fragment = Fragment(at: nat, kind: Byte, payload: seq<Byte>)

  function End(f: Fragment): nat { f.at + 7 + |f.payload| }

  /** The fragment is in the file, whole within one block. */
  ghost predicate InBlock(crc: Checksum, file: seq<Byte>, f: Fragment) {
    && f.at % 32768 + 7 + |f.payload| <= 32768
    && At(file, f.at, PhysBytes(crc, f.kind, f.payload))
  }

  /** The first fragment comes at once, unless fewer than seven bytes of the block are left: those are zero. */
  ghost predicate StartsAt(file: seq<Byte>, p: nat, at: nat) {
    && p <= at <= |file| && (forall i :: p <= i < at ==> file[i] == 0)
    && (if p % 32768 + 7 <= 32768 then at == p else at - p < 7 && at % 32768 == 0)
  }

  /** The fragment ends where its block ends. */
  ghost predicate FillsBlock(f: Fragment) { End(f) % 32768 == 0 }

  ghost predicate KindFits(kind: Byte, first: bool, last: bool) {
    kind == if first then (if last then FULL else FIRST) else (if last then LAST else MIDDLE)
  }

  ghost predicate KindAt(fs: seq<Fragment>, i: nat, begin: bool)
    requires i < |fs|
  {
    KindFits(fs[i].kind, begin && i == 0, i == |fs| - 1)
  }

  /** The record goes on in the next block only when this one is full. */
  ghost predicate NextFollows(fs: seq<Fragment>, i: nat)
    requires i + 1 < |fs|
  {
    fs[i + 1].at == End(fs[i]) && FillsBlock(fs[i])
  }

  function Payloads(fs: seq<Fragment>): seq<Byte> { if fs == [] then [] else fs[0].payload + Payloads(fs[1..]) }

  /** The record lies in these fragments, from file offset `p` to `end`. */
  ghost predicate LiesIn(crc: Checksum, file: seq<Byte>, p: nat, data: seq<Byte>, begin: bool, fs: seq<Fragment>,
                         end: nat) {
    && fs != [] && Payloads(fs) == data && StartsAt(file, p, fs[0].at) && End(fs[|fs| - 1]) == end
    && (forall i :: 0 <= i < |fs| ==> InBlock(crc, file, fs[i]))
    && (forall i: nat :: i < |fs| ==> KindAt(fs, i, begin)) && (forall i: nat :: i + 1 < |fs| ==> NextFollows(fs, i))
  }

  lemma PieceIs(crc: Checksum, file: seq<Byte>, p: nat, data: seq<Byte>, begin: bool, more: seq<Byte>)
    returns (f: Fragment)
    requires At(file, p, Piece(crc, p, data, begin) + more)
    ensures InBlock(crc, file, f) && StartsAt(file, p, f.at) && End(f) == After(p, data) && At(file, End(f), more)
    ensures f.payload == data[..Take(p, data)] && KindFits(f.kind, begin, Take(p, data) == |data|)
    ensures Take(p, data) < |data| ==> FillsBlock(f)
  {
    var n := Take(p, data);
    var kind := Kind(begin, n == |data|);
    f := Fragment(p + Pad(p), kind, data[..n]);
    var phys := PhysBytes(crc, kind, data[..n]);
    AtSplit(file, p, Piece(crc, p, data, begin), more, End(f));
    AtSplit(file, p, Zeros(Pad(p)), phys, f.at);
    assert forall i :: p <= i < f.at ==> file[i] == file[p..p + Pad(p)][i - p];
    Padded(p, f.at, n, data);
  }

  lemma Padded(p: nat, at: nat, n: nat, data: seq<Byte>)
    requires at == p + Pad(p) && n == Take(p, data)
    ensures at % 32768 + 7 + n <= 32768 && (n < |data| ==> (at + 7 + n) % 32768 == 0)
    ensures if p % 32768 + 7 <= 32768 then at == p else at - p < 7 && at % 32768 == 0
  {
    PadAligns(p);
  }

  /** What AddRecord appends is the record in such fragments. */
  lemma {:induction false} RecordLies(crc: Checksum, file: seq<Byte>, p: nat, data: seq<Byte>, begin: bool)
    returns (fs: seq<Fragment>)
    requires At(file, p, Encode(crc, p, data, begin))
    ensures LiesIn(crc, file, p, data, begin, fs, p + |Encode(crc, p, data, begin)|)
    decreases |data|, NoRoom(p)
  {
    var n := Take(p, data);
    var piece := Piece(crc, p, data, begin);
    if n == |data| {
      assert piece + [] == piece;
      var f := PieceIs(crc, file, p, data, begin, []);
      fs := [f];
      assert data[..n] == data && Payloads(fs) == f.payload + Payloads([]);
    } else {
      FragmentsProgress(p, data);
      var q := After(p, data);
      var f := PieceIs(crc, file, p, data, begin, Encode(crc, q, data[n..], false));
      var rest := RecordLies(crc, file, q, data[n..], false);
      fs := Before(crc, file, p, data, begin, f, rest, n, p + |Encode(crc, p, data, begin)|);
    }
  }

  lemma {:induction false} Before(crc: Checksum, file: seq<Byte>, p: nat, data: seq<Byte>, begin: bool, f: Fragment,
                                  rest: seq<Fragment>, n: nat, end: nat)
    returns (fs: seq<Fragment>)
    requires InBlock(crc, file, f) && StartsAt(file, p, f.at) && FillsBlock(f) && n <= |data| && f.payload == data[..n]
    requires KindFits(f.kind, begin, false) && LiesIn(crc, file, End(f), data[n..], false, rest, end)
    ensures LiesIn(crc, file, p, data, begin, fs, end)
  {
    fs := [f] + rest;
    assert fs[0] == f && fs[1..] == rest && data[..n] + data[n..] == data;
    StartsHere(file, f, rest[0].at);
    forall i: nat | i + 1 < |fs| ensures NextFollows(fs, i) {
      assert i > 0 ==> NextFollows(rest, i - 1);
    }
    forall i: nat | i < |fs| ensures KindAt(fs, i, begin) {
      assert i > 0 ==> KindAt(rest, i - 1, false);
    }
  }

  lemma StartsHere(file: seq<Byte>, f: Fragment, at: nat)
    requires FillsBlock(f) && StartsAt(file, End(f), at)
    ensures at == End(f)
  {}
}
