/** What the log reader reports of a log that was cut off while its last record was being written. */
module TornTails {
  import opened Coding
  import opened LogFormat
  import opened LogReader

  /** The cut leaves nothing of the next record, or only the filler before it and all of that. */
  predicate CleanCut(p: nat, end: nat) { end == p || (Pad(p) > 0 && end == p + Pad(p)) }

  /** Where the whole records end. */
  function WholeEnd(crc: Checksum, p: nat, records: seq<seq<Byte>>, end: nat): nat
    decreases |records|
  {
    if records == [] then p
    else
      var q := p + |Encode(crc, p, records[0], true)|;
      if q <= end then WholeEnd(crc, q, records[1..], end) else p
  }

  lemma {:induction false} WholeEndStep(crc: Checksum, p: nat, records: seq<seq<Byte>>, left: seq<seq<Byte>>, end: nat,
                                        q: nat)
    requires records != [] && left == records[1..] && q == p + |Encode(crc, p, records[0], true)|
    ensures WholeEnd(crc, p, records, end) == if q <= end then WholeEnd(crc, q, left, end) else p
  {}

  /** Fewer bytes than a header: the file has ended, cleanly if there are none. */
  lemma {:induction false} ShortTail(file: seq<Byte>, st: RState, at: RState)
    requires Ok(file, st) && at == Aligned(file, st) && at.e - at.p < HEADER
    ensures at.eof && (at.e == at.p <==> CleanCut(st.p, |file|))
  {}

  lemma {:induction false} LongTail(file: seq<Byte>, st: RState, at: RState)
    requires Ok(file, st) && at == Aligned(file, st) && at.e - at.p >= HEADER
    ensures !CleanCut(st.p, |file|)
  {}

  /** The end of the file, where part of a fragment may stand. */
  lemma {:induction false} CutTail(crc: Checksum, mode: Mode, file: seq<Byte>, st: RState, data: seq<Byte>, begin: bool,
                                   out: Out)
    requires Ok(file, st) && CutShort(file, st.p, Piece(crc, st.p, data, begin))
    requires out == ReadPhysical(crc, mode, file, st)
    ensures out.kind == EOF || (out.kind == BAD && out.drops == 1 && out.st.p == |file| && Ok(file, out.st))
    ensures (out.kind == EOF && out.drops == 0) <==> CleanCut(st.p, |file|)
  {
    var at, n := Aligned(file, st), Take(st.p, data);
    AlignedOk(crc, mode, file, st);
    if at.e - at.p >= HEADER {
      LongTail(file, st, at);
      CutHeader(crc, file, st.p, data, begin, at.p);
      PadAligns(st.p);
      LastBlock(file, at, HEADER + n);
      ParseCut(crc, mode, file, at, n);
    } else {
      ShortTail(file, st, at);
    }
  }

  lemma {:induction false} CutPieceReports(crc: Checksum, mode: Mode, file: seq<Byte>, st: RState, data: seq<Byte>,
                                           begin: bool, acc: Acc)
    requires Ok(file, st) && CutShort(file, st.p, Piece(crc, st.p, data, begin))
    ensures ReadRecord(crc, mode, file, st, acc).End?
    ensures ReadRecord(crc, mode, file, st, acc).drops == 0 <==> !acc.inFragment && CleanCut(st.p, |file|)
  {
    var out := ReadPhysical(crc, mode, file, st);
    CutTail(crc, mode, file, st, data, begin, out);
    ReadRecordStep(crc, mode, file, st, acc, out);
    if out.kind == BAD {
      AtEnd(crc, mode, file, out.st, Switch(acc, BAD, out.payload).acc);
    }
  }

  /** Inside a record the cut is always reported. */
  lemma {:induction false} CutInside(crc: Checksum, mode: Mode, file: seq<Byte>, st: RState, data: seq<Byte>, acc: Acc)
    requires Ok(file, st) && CutShort(file, st.p, Encode(crc, st.p, data, false)) && acc.inFragment
    ensures ReadRecord(crc, mode, file, st, acc).End? && ReadRecord(crc, mode, file, st, acc).drops > 0
    decreases |data|, NoRoom(st.p)
  {
    var n, q := Take(st.p, data), After(st.p, data);
    var piece := Piece(crc, st.p, data, false);
    if n == |data| {
      CutPieceReports(crc, mode, file, st, data, false, acc);
    } else {
      FragmentsProgress(st.p, data);
      var left := data[n..];
      EncodeSplit(crc, st.p, data, false, n, q, left);
      CutSplit(file, st.p, piece, Encode(crc, q, left, false), q);
      if CutShort(file, st.p, piece) {
        CutPieceReports(crc, mode, file, st, data, false, acc);
      } else {
        var out := ReadPhysical(crc, mode, file, st);
        ReadPiece(crc, mode, file, st, data, false, out);
        var acc' := Acc(true, acc.scratch + data[..n]);
        ReadMore(crc, mode, file, st, false, acc, out, acc');
        CutInside(crc, mode, file, out.st, left, acc');
      }
    }
  }

  /** A record cut off is reported unless the cut is clean. */
  lemma {:induction false} CutRecordReports(crc: Checksum, mode: Mode, file: seq<Byte>, st: RState, data: seq<Byte>)
    requires Ok(file, st) && CutShort(file, st.p, Encode(crc, st.p, data, true))
    ensures ReadRecord(crc, mode, file, st, NONE).End?
    ensures ReadRecord(crc, mode, file, st, NONE).drops == 0 <==> CleanCut(st.p, |file|)
  {
    var n, q := Take(st.p, data), After(st.p, data);
    var piece := Piece(crc, st.p, data, true);
    if n == |data| {
      CutPieceReports(crc, mode, file, st, data, true, NONE);
    } else {
      var left := data[n..];
      EncodeSplit(crc, st.p, data, true, n, q, left);
      CutSplit(file, st.p, piece, Encode(crc, q, left, false), q);
      if CutShort(file, st.p, piece) {
        CutPieceReports(crc, mode, file, st, data, true, NONE);
      } else {
        var out := ReadPhysical(crc, mode, file, st);
        ReadPiece(crc, mode, file, st, data, true, out);
        var acc' := Acc(true, NONE.scratch + data[..n]);
        ReadMore(crc, mode, file, st, true, NONE, out, acc');
        CutInside(crc, mode, file, out.st, left, acc');
      }
    }
  }

  /** Reading a log that was cut after any byte reports nothing if and only if the cut is clean. */
  lemma {:induction false} CutReportsIff(crc: Checksum, mode: Mode, file: seq<Byte>, st: RState,
                                         records: seq<seq<Byte>>)
    requires Ok(file, st) && file[st.p..] <= EncodeAll(crc, st.p, records)
    ensures ReadAll(crc, mode, file, st).1 == 0 <==> CleanCut(WholeEnd(crc, st.p, records, |file|), |file|)
    decreases |records|
  {
    if records == [] {
      AtEnd(crc, mode, file, st, NONE);
    } else {
      var data, left := records[0], records[1..];
      var bytes := Encode(crc, st.p, data, true);
      var q := st.p + |bytes|;
      EncodeAllSplit(crc, st.p, records, data, left, bytes, q);
      WholeEndStep(crc, st.p, records, left, |file|, q);
      if |file| < q {
        SuffixCut(file, st.p, bytes, EncodeAll(crc, q, left));
        CutRecordReports(crc, mode, file, st, data);
      } else {
        SuffixSplit(file, st.p, bytes, EncodeAll(crc, q, left), q);
        var r := ReadRecord(crc, mode, file, st, NONE);
        RecordRoundTrip(crc, mode, file, st, data, true, NONE, bytes, q);
        CutReportsIff(crc, mode, file, r.st, left);
        ReadOne(crc, mode, file, st, r, ReadAll(crc, mode, file, r.st).0, ReadAll(crc, mode, file, r.st).1);
      }
    }
  }

  /** With all records but the last in place, that one is whole or the records before it are all there is. */
  lemma {:induction false} LastCut(crc: Checksum, p: nat, records: seq<seq<Byte>>, data: seq<Byte>, all: seq<seq<Byte>>,
                                   from: nat, to: nat, end: nat)
    requires all == records + [data] && from == p + |EncodeAll(crc, p, records)| && to == p + |EncodeAll(crc, p, all)|
    requires from <= end <= to
    ensures from < to && Whole(crc, p, all, end) == |records| + (if end == to then 1 else 0)
    ensures WholeEnd(crc, p, all, end) == if end == to then to else from
    decreases |records|
  {
    if records == [] {
      assert all == [data] && all[1..] == [];
      WholeEndStep(crc, p, all, [], end, to);
      Longer(crc, p, data);
    } else {
      var q := p + |Encode(crc, p, records[0], true)|;
      assert all[0] == records[0] && all[1..] == records[1..] + [data];
      LastCut(crc, q, records[1..], data, all[1..], from, to, end);
      WholeEndStep(crc, p, all, all[1..], end, q);
    }
  }

  lemma {:induction false} Longer(crc: Checksum, p: nat, data: seq<Byte>)
    ensures |Encode(crc, p, data, true)| > 0
  {}
}
