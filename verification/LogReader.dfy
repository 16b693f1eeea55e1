/** Reading a log back: physical records, reassembly, and the round trip with the writer. */
module LogReader {
  import opened Coding
  import opened LogFormat
  import opened DbFormat

  /** Special results of ReadPhysicalRecord. A stored type byte of 5 or 6 is indistinguishable from
      them, which the reassembly loop inherits. */
  const EOF: nat := 5
  const BAD: nat := 6

  /** Whether checksums are verified, and whether stored types are kept apart from the special results.
      The code does not keep them apart; a reader that does is what its switch is written for. */
  datatype Mode = Mode(checksum: bool, apart: bool)

  function AsCoded(checksum: bool): Mode { Mode(checksum, false) }

  function KeptApart(checksum: bool): Mode { Mode(checksum, true) }

  /** A reader that keeps them apart sees stored types 5 and 6 as types no switch knows. */
  const STORED_EOF: nat := 256 + EOF
  const STORED_BAD: nat := 256 + BAD

  function Shown(mode: Mode, kind: Byte): nat {
    if mode.apart && (kind == EOF || kind == BAD) then 256 + kind else kind
  }

  /** The reader has `file[p..e]` in its buffer; `eof` says the last read came up short. */
  datatype RState = RState(p: nat, e: nat, eof: bool)

  datatype Out = Out(kind: nat, payload: seq<Byte>, st: RState, drops: nat)

  ghost predicate Ok(file: seq<Byte>, st: RState) {
    && st.p <= st.e <= |file|
    && (if st.eof then st.e == |file| else st.e % BLOCK == 0)
    && (st.p < st.e ==> st.p / BLOCK == (st.e - 1) / BLOCK)
    && (st.eof && st.p < st.e ==> |file| % BLOCK != 0)
  }

  /** file_->Read(kBlockSize): the rest of the old buffer is a trailer and is skipped. */
  function Refill(file: seq<Byte>, st: RState): (r: RState)
    requires st.e <= |file|
    ensures r.p == st.e && st.e <= r.e <= |file|
  {
    var n := if |file| - st.e < BLOCK then |file| - st.e else BLOCK;
    RState(st.e, st.e + n, n < BLOCK)
  }

  /** ReadPhysicalRecord once a whole header is buffered. */
  function Parse(crc: Checksum, mode: Mode, file: seq<Byte>, st: RState): (r: Out)
    requires st.p + HEADER <= st.e <= |file|
    ensures r.st.e == st.e && r.st.eof == st.eof && st.p < r.st.p <= st.e
  {
    var header := file[st.p..st.p + HEADER];
    var length := header[4] as int + 256 * (header[5] as int);
    var kind := header[6];
    if st.p + HEADER + length > st.e then Out(BAD, [], st.(p := st.e), 1)
    else if kind == 0 && length == 0 then Out(BAD, [], st.(p := st.e), 0)
    else
      var payload := file[st.p + HEADER..st.p + HEADER + length];
      if mode.checksum && crc([kind] + payload) != Unmask(DecodeFixed32(header[..4])) then Out(BAD, [],
          st.(p := st.e), 1)
      else Out(Shown(mode, kind), payload, st.(p := st.p + HEADER + length), 0)
  }

  /** ReadPhysicalRecord. */
  function ReadPhysical(crc: Checksum, mode: Mode, file: seq<Byte>, st: RState): (r: Out)
    requires st.p <= st.e <= |file|
    ensures r.st.p <= r.st.e <= |file|
    ensures r.kind != EOF ==> st.p < r.st.p
    decreases if st.eof then 0 else 1 + |file| - st.e
  {
    if st.e - st.p < HEADER then
      if !st.eof then ReadPhysical(crc, mode, file, Refill(file, st))
      else if st.e == st.p then Out(EOF, [], st, 0)
      else Out(EOF, [], st.(p := st.e), 1)
    else Parse(crc, mode, file, st)
  }

  /** The reassembly state of ReadRecord. */
  datatype Acc = Acc(inFragment: bool, scratch: seq<Byte>)

  const NONE: Acc := Acc(false, [])

  datatype Result = Done(record: seq<Byte>, st: RState, drops: nat) | End(drops: nat)

  function ReportIf(b: bool): nat { if b then 1 else 0 }

  datatype Action = Emit(record: seq<Byte>, reports: nat) | Stop(reports: nat) | Go(acc: Acc, reports: nat)

  /** One turn of ReadRecord's switch. */
  function Switch(acc: Acc, kind: nat, payload: seq<Byte>): Action {
    if kind == 1 then Emit(payload, ReportIf(acc.inFragment && acc.scratch != []))
    else if kind == 2 then Go(Acc(true, payload), ReportIf(acc.inFragment && acc.scratch != []))
    else if kind == 3 then
      if acc.inFragment then Go(Acc(true, acc.scratch + payload), 0) else Go(acc, 1)
    else if kind == 4 then
      if acc.inFragment then Emit(acc.scratch + payload, 0) else Go(acc, 1)
    else if kind == EOF then Stop(ReportIf(acc.inFragment))
    else if kind == BAD then Go(Acc(false, if acc.inFragment then [] else acc.scratch), ReportIf(acc.inFragment))
    else Go(Acc(false, []), 1)
  }

  /** The same outcome with some reports made before it. */
  function Later(r: Result, more: nat): (r': Result)
    ensures r'.Done? == r.Done? && r'.drops == r.drops + more
    ensures r.Done? ==> r'.record == r.record && r'.st == r.st
  {
    r.(drops := r.drops + more)
  }

  /** ReadRecord from the given reassembly state. */
  function ReadRecord(crc: Checksum, mode: Mode, file: seq<Byte>, st: RState, acc: Acc): (r: Result)
    requires st.p <= st.e <= |file|
    ensures r.Done? ==> st.p < r.st.p <= r.st.e <= |file|
    decreases |file| - st.p
  {
    var out := ReadPhysical(crc, mode, file, st);
    match Switch(acc, out.kind, out.payload)
    case Emit(record, reports) => Done(record, out.st, out.drops + reports)
    case Stop(reports) => End(out.drops + reports)
    case Go(acc', reports) =>
      Later(ReadRecord(crc, mode, file, out.st, acc'), out.drops + reports)
  }

  lemma {:induction false} ReadRecordStep(crc: Checksum, mode: Mode, file: seq<Byte>, st: RState, acc: Acc, out: Out)
    requires st.p <= st.e <= |file| && out == ReadPhysical(crc, mode, file, st)
    ensures out.st.p <= out.st.e <= |file|
    ensures var r, act := ReadRecord(crc, mode, file, st, acc), Switch(acc, out.kind, out.payload);
            && (act.Emit? ==> r == Done(act.record, out.st, out.drops + act.reports))
            && (act.Stop? ==> r == End(out.drops + act.reports))
            && (act.Go? ==> r == Later(ReadRecord(crc, mode, file, out.st, act.acc), out.drops + act.reports))
  {}

  /** Reading to the end of the file: the records, and how many corruptions were reported. */
  function ReadAll(crc: Checksum, mode: Mode, file: seq<Byte>, st: RState): (seq<seq<Byte>>, nat)
    requires st.p <= st.e <= |file|
    decreases |file| - st.p
  {
    match ReadRecord(crc, mode, file, st, NONE)
    case Done(record, st', drops) =>
      var (rest, more) := ReadAll(crc, mode, file, st');
      ([record] + rest, drops + more)
    case End(drops) => ([], drops)
  }

  const START: RState := RState(0, 0, false)

  // ---------- What comes back from arbitrary bytes ----------

  datatype Physical = Physical(kind: nat, payload: seq<Byte>)

  /** The physical records of a file, up to the first one taken for its end. */
  function Stream(crc: Checksum, mode: Mode, file: seq<Byte>, st: RState): seq<Physical>
    requires st.p <= st.e <= |file|
    decreases |file| - st.p
  {
    var out := ReadPhysical(crc, mode, file, st);
    if out.kind == EOF then []
    else [Physical(out.kind, out.payload)] + Stream(crc, mode, file, out.st)
  }

  /** The payload of `s` if it begins with Middle* Last. */
  function Finish(s: seq<Physical>): Option<seq<Byte>> {
    if s == [] then None
    else if s[0].kind == 4 then Some(s[0].payload)
    else if s[0].kind != 3 then None
    else
      match Finish(s[1..])
      case Some(t) => Some(s[0].payload + t)
      case None => None
  }

  /** The logical record that begins at s[0]: a Full one, or First Middle* Last with nothing between. */
  function RunAt(s: seq<Physical>): Option<seq<Byte>>
    requires s != []
  {
    if s[0].kind == 1 then Some(s[0].payload)
    else if s[0].kind != 2 then None
    else
      match Finish(s[1..])
      case Some(t) => Some(s[0].payload + t)
      case None => None
  }

  /** Every unbroken run of the physical stream, in order. */
  function Runs(s: seq<Physical>): seq<seq<Byte>> {
    if s == [] then []
    else
      match RunAt(s)
      case Some(r) => [r] + Runs(s[1..])
      case None => Runs(s[1..])
  }

  /** The same, when a fragmented record is already under way. */
  ghost function RunsFrom(acc: Acc, s: seq<Physical>): seq<seq<Byte>> {
    if acc.inFragment && Finish(s).Some? then [acc.scratch + Finish(s).value] + Runs(s) else Runs(s)
  }

  lemma SwitchFollowsRuns(acc: Acc, x: Physical, s: seq<Physical>, rest: seq<Physical>)
    requires s == [x] + rest && x.kind != EOF
    ensures var act := Switch(acc, x.kind, x.payload);
            !act.Stop? && RunsFrom(acc, s) == if act.Emit? then [act.record] + Runs(rest) else RunsFrom(act.acc, rest)
  {
    assert s[1..] == rest;
    if x.kind == 3 && acc.inFragment && Finish(rest).Some? {
      assert acc.scratch + (x.payload + Finish(rest).value) == acc.scratch + x.payload + Finish(rest).value;
    }
  }

  lemma {:induction false} RecordIsNextRun(crc: Checksum, mode: Mode, file: seq<Byte>, st: RState, acc: Acc)
    requires st.p <= st.e <= |file|
    ensures var r := ReadRecord(crc, mode, file, st, acc);
            RunsFrom(acc, Stream(crc, mode, file, st)) ==
            if r.Done? then [r.record] + Runs(Stream(crc, mode, file, r.st)) else []
    decreases |file| - st.p
  {
    var out := ReadPhysical(crc, mode, file, st);
    if out.kind != EOF {
      var rest := Stream(crc, mode, file, out.st);
      SwitchFollowsRuns(acc, Physical(out.kind, out.payload), Stream(crc, mode, file, st), rest);
      var act := Switch(acc, out.kind, out.payload);
      if act.Go? {
        RecordIsNextRun(crc, mode, file, out.st, act.acc);
      }
    }
  }

  /** On any bytes at all, the records returned are exactly the unbroken runs of the physical stream. */
  lemma {:induction false} ReadAllIsRuns(crc: Checksum, mode: Mode, file: seq<Byte>, st: RState)
    requires st.p <= st.e <= |file|
    ensures ReadAll(crc, mode, file, st).0 == Runs(Stream(crc, mode, file, st))
    decreases |file| - st.p
  {
    RecordIsNextRun(crc, mode, file, st, NONE);
    match ReadRecord(crc, mode, file, st, NONE)
    case Done(_, st', _) => ReadAllIsRuns(crc, mode, file, st');
    case End(_) =>
  }

  // ---------- What the two special results cost ----------

  /** The type the code sees. */
  function Coded(kind: nat): nat { if kind >= 256 then kind - 256 else kind }

  lemma {:induction false} SamePhysical(crc: Checksum, checksum: bool, file: seq<Byte>, st: RState, a: Out, b: Out)
    requires st.p <= st.e <= |file|
    requires a == ReadPhysical(crc, AsCoded(checksum), file, st)
      && b == ReadPhysical(crc, KeptApart(checksum), file, st)
    ensures a == b.(kind := Coded(b.kind)) && (b.kind >= 256 ==> b.kind == STORED_EOF || b.kind == STORED_BAD)
    ensures b.kind >= 256 ==> st.p < b.st.p
    decreases if st.eof then 0 else 1 + |file| - st.e
  {
    if st.e - st.p < HEADER && !st.eof {
      SamePhysical(crc, checksum, file, Refill(file, st), a, b);
    }
  }

  /** What is left of a whole stream when a stored 5 ends it and a stored 6 counts as damage. */
  function Seen(s: seq<Physical>): seq<Physical> {
    if s == [] || s[0].kind == STORED_EOF then [] else [s[0].(kind := Coded(s[0].kind))] + Seen(s[1..])
  }

  /** The position of the first intact record of type 5, or the length. */
  function FirstStoredEof(s: seq<Physical>): (n: nat)
    ensures n <= |s| && (n < |s| ==> s[n].kind == STORED_EOF) && forall i :: 0 <= i < n ==> s[i].kind != STORED_EOF
  {
    if s == [] || s[0].kind == STORED_EOF then 0 else 1 + FirstStoredEof(s[1..])
  }

  lemma {:induction false} CodedStream(crc: Checksum, checksum: bool, file: seq<Byte>, st: RState)
    requires st.p <= st.e <= |file|
    ensures Stream(crc, AsCoded(checksum), file, st) == Seen(Stream(crc, KeptApart(checksum), file, st))
    decreases |file| - st.p
  {
    var a, b := ReadPhysical(crc, AsCoded(checksum), file, st), ReadPhysical(crc, KeptApart(checksum), file, st);
    SamePhysical(crc, checksum, file, st, a, b);
    if b.kind != EOF && b.kind != STORED_EOF {
      CodedStream(crc, checksum, file, b.st);
      var rest := Stream(crc, KeptApart(checksum), file, b.st);
      assert ([Physical(b.kind, b.payload)] + rest)[1..] == rest;
    }
  }

  /** Every kind of the stream is a byte, or one of the two set apart. */
  ghost predicate Kinds(s: seq<Physical>) {
    forall i :: 0 <= i < |s| ==> s[i].kind < 256 || s[i].kind == STORED_EOF || s[i].kind == STORED_BAD
  }

  lemma {:induction false} StreamKinds(crc: Checksum, checksum: bool, file: seq<Byte>, st: RState)
    requires st.p <= st.e <= |file|
    ensures Kinds(Stream(crc, KeptApart(checksum), file, st))
    decreases |file| - st.p
  {
    var a, b := ReadPhysical(crc, AsCoded(checksum), file, st), ReadPhysical(crc, KeptApart(checksum), file, st);
    SamePhysical(crc, checksum, file, st, a, b);
    if b.kind != EOF { StreamKinds(crc, checksum, file, b.st); }
  }

  lemma {:induction false} SeenRuns(s: seq<Physical>, t: seq<Physical>)
    requires Kinds(s) && t == s[..FirstStoredEof(s)]
    ensures Runs(Seen(s)) == Runs(t) && Finish(Seen(s)) == Finish(t)
    decreases |s|
  {
    if s != [] && s[0].kind != STORED_EOF {
      SeenRuns(s[1..], t[1..]);
      assert Seen(s)[1..] == Seen(s[1..]);
    }
  }

  lemma {:induction false} BrokenRuns(a: seq<Physical>, b: seq<Physical>)
    requires b == [] || b[0].kind >= 256
    ensures Runs(a + b) == Runs(a) + Runs(b) && Finish(a + b) == Finish(a)
    decreases |a|
  {
    var s := a + b;
    if a == [] {
      assert s == b;
    } else {
      assert s[0] == a[0] && s[1..] == a[1..] + b;
      BrokenRuns(a[1..], b);
    }
  }

  lemma {:induction false} RecordsAre(crc: Checksum, checksum: bool, file: seq<Byte>, st: RState, w: seq<Physical>,
                                      n: nat)
    requires st.p <= st.e <= |file| && w == Stream(crc, KeptApart(checksum), file, st) && n == FirstStoredEof(w)
    ensures ReadAll(crc, AsCoded(checksum), file, st).0 == Runs(w[..n])
    ensures ReadAll(crc, KeptApart(checksum), file, st).0 == Runs(w)
  {
    ReadAllIsRuns(crc, AsCoded(checksum), file, st);
    ReadAllIsRuns(crc, KeptApart(checksum), file, st);
    CodedStream(crc, checksum, file, st);
    StreamKinds(crc, checksum, file, st);
    SeenRuns(w, w[..n]);
  }

  /** The code returns the runs before the first intact record of type 5; a reader that keeps stored types
      apart returns those and the ones after it. So the code is right about the records if and only if
      no unbroken run follows that record. */
  lemma {:induction false} RecordsAgreeIff(crc: Checksum, checksum: bool, file: seq<Byte>, st: RState, w: seq<Physical>,
                                           n: nat)
    requires st.p <= st.e <= |file| && w == Stream(crc, KeptApart(checksum), file, st) && n == FirstStoredEof(w)
    ensures ReadAll(crc, AsCoded(checksum), file, st).0 == Runs(w[..n])
    ensures ReadAll(crc, KeptApart(checksum), file, st).0 == Runs(w[..n]) + Runs(w[n..])
    ensures ReadAll(crc, AsCoded(checksum), file, st).0 == ReadAll(crc, KeptApart(checksum), file, st).0
            <==> Runs(w[n..]) == []
  {
    RecordsAre(crc, checksum, file, st, w, n);
    SplitRuns(crc, checksum, file, st, w, n);
    AppendNothing(Runs(w[..n]), Runs(w[n..]));
  }

  lemma {:induction false} SplitRuns(crc: Checksum, checksum: bool, file: seq<Byte>, st: RState, w: seq<Physical>,
                                     n: nat)
    requires st.p <= st.e <= |file| && w == Stream(crc, KeptApart(checksum), file, st) && n == FirstStoredEof(w)
    ensures Runs(w) == Runs(w[..n]) + Runs(w[n..])
  {
    BrokenRuns(w[..n], w[n..]);
    assert w == w[..n] + w[n..];
  }

  lemma AppendNothing<T>(a: seq<T>, b: seq<T>)
    ensures a == a + b <==> b == []
  {
    assert |a + b| == |a| + |b|;
    if b == [] { assert a + b == a; }
  }

  ghost predicate NoStoredMarks(s: seq<Physical>) { forall i :: 0 <= i < |s| ==> s[i].kind < 256 }

  lemma {:induction false} SameRecord(crc: Checksum, checksum: bool, file: seq<Byte>, st: RState, acc: Acc, r: Result)
    requires st.p <= st.e <= |file| && NoStoredMarks(Stream(crc, KeptApart(checksum), file, st))
    requires r == ReadRecord(crc, KeptApart(checksum), file, st, acc)
    ensures ReadRecord(crc, AsCoded(checksum), file, st, acc) == r
    ensures r.Done? ==> NoStoredMarks(Stream(crc, KeptApart(checksum), file, r.st))
    decreases |file| - st.p
  {
    var a, b := ReadPhysical(crc, AsCoded(checksum), file, st), ReadPhysical(crc, KeptApart(checksum), file, st);
    SamePhysical(crc, checksum, file, st, a, b);
    if b.kind != EOF {
      var rest := Stream(crc, KeptApart(checksum), file, b.st);
      var all := Stream(crc, KeptApart(checksum), file, st);
      assert all[0].kind == b.kind && forall i :: 0 <= i < |rest| ==> rest[i] == all[i + 1];
      var act := Switch(acc, b.kind, b.payload);
      if act.Go? {
        SameRecord(crc, checksum, file, b.st, act.acc, ReadRecord(crc, KeptApart(checksum), file, b.st, act.acc));
      }
    }
  }

  /** Where no intact record carries type 5 or 6, records and reports are those of such a reader. */
  lemma {:induction false} SameWithoutMarks(crc: Checksum, checksum: bool, file: seq<Byte>, st: RState)
    requires st.p <= st.e <= |file| && NoStoredMarks(Stream(crc, KeptApart(checksum), file, st))
    ensures ReadAll(crc, AsCoded(checksum), file, st) == ReadAll(crc, KeptApart(checksum), file, st)
    decreases |file| - st.p
  {
    var r := ReadRecord(crc, KeptApart(checksum), file, st, NONE);
    SameRecord(crc, checksum, file, st, NONE, r);
    if r.Done? { SameWithoutMarks(crc, checksum, file, r.st); }
  }

  // ---------- When the reports agree ----------

  /** Every report made from here on, with a record under way as `acc` says. */
  ghost function Total(crc: Checksum, mode: Mode, file: seq<Byte>, st: RState, acc: Acc): nat
    requires st.p <= st.e <= |file|
    decreases |file| - st.p
  {
    var out := ReadPhysical(crc, mode, file, st);
    match Switch(acc, out.kind, out.payload)
    case Emit(_, reports) => out.drops + reports + Total(crc, mode, file, out.st, NONE)
    case Stop(reports) => out.drops + reports
    case Go(acc', reports) => out.drops + reports + Total(crc, mode, file, out.st, acc')
  }

  lemma {:induction false} TotalOfRecord(crc: Checksum, mode: Mode, file: seq<Byte>, st: RState, acc: Acc, r: Result)
    requires st.p <= st.e <= |file| && r == ReadRecord(crc, mode, file, st, acc)
    ensures Total(crc, mode, file, st, acc) == r.drops + if r.Done? then Total(crc, mode, file, r.st, NONE) else 0
    decreases |file| - st.p
  {
    var out := ReadPhysical(crc, mode, file, st);
    var act := Switch(acc, out.kind, out.payload);
    ReadRecordStep(crc, mode, file, st, acc, out);
    if act.Go? {
      TotalOfRecord(crc, mode, file, out.st, act.acc, ReadRecord(crc, mode, file, out.st, act.acc));
    }
  }

  lemma {:induction false} TotalIsReports(crc: Checksum, mode: Mode, file: seq<Byte>, st: RState)
    requires st.p <= st.e <= |file|
    ensures ReadAll(crc, mode, file, st).1 == Total(crc, mode, file, st, NONE)
    decreases |file| - st.p
  {
    var r := ReadRecord(crc, mode, file, st, NONE);
    TotalOfRecord(crc, mode, file, st, NONE, r);
    if r.Done? { TotalIsReports(crc, mode, file, r.st); }
  }

  /** Whether a fragmented record is under way after a physical record of this kind. */
  predicate StillUnder(under: bool, kind: nat) { kind == 2 || (kind == 3 && under) }

  /** Whether one is under way after the first n physical records: the last that is no Middle is a First. */
  predicate Under(s: seq<Physical>, n: nat, under: bool)
    requires n <= |s|
  {
    if n == 0 then under else Under(s[1..], n - 1, StillUnder(under, s[0].kind))
  }

  /** Where the reader stands after n physical records. */
  ghost function StateAt(crc: Checksum, mode: Mode, file: seq<Byte>, st: RState, n: nat): (r: RState)
    requires st.p <= st.e <= |file|
    ensures r.p <= r.e <= |file|
    decreases n
  {
    if n == 0 then st else StateAt(crc, mode, file, ReadPhysical(crc, mode, file, st).st, n - 1)
  }

  /** No stored 5 or 6 costs a report: each comes inside an unfinished record, and a 5 has nothing to be
      reported behind it. */
  ghost predicate Quiet(crc: Checksum, checksum: bool, file: seq<Byte>, st: RState, under: bool)
    requires st.p <= st.e <= |file|
    decreases |file| - st.p
  {
    var b := ReadPhysical(crc, KeptApart(checksum), file, st);
    if b.kind == EOF then true
    else if b.kind == STORED_EOF then under && ReadAll(crc, KeptApart(checksum), file, b.st).1 == 0
    else (b.kind == STORED_BAD ==> under) && Quiet(crc, checksum, file, b.st, StillUnder(under, b.kind))
  }

  ghost predicate Clean(acc: Acc) { acc.inFragment || acc.scratch == [] }

  lemma SwitchKeepsClean(acc: Acc, kind: nat, payload: seq<Byte>, act: Action)
    requires Clean(acc) && act == Switch(acc, kind, payload)
    ensures act.Go? ==> Clean(act.acc) && act.acc.inFragment == StillUnder(acc.inFragment, kind)
    ensures act.Emit? ==> !StillUnder(acc.inFragment, kind)
  {}

  /** The code never reports more, and it reports as much exactly when no mark costs a report. */
  lemma {:induction false} TotalsAgreeIff(crc: Checksum, checksum: bool, file: seq<Byte>, st: RState, acc: Acc)
    requires st.p <= st.e <= |file| && Clean(acc)
    ensures Total(crc, AsCoded(checksum), file, st, acc) <= Total(crc, KeptApart(checksum), file, st, acc)
    ensures Total(crc, AsCoded(checksum), file, st, acc) == Total(crc, KeptApart(checksum), file, st, acc)
            <==> Quiet(crc, checksum, file, st, acc.inFragment)
    decreases |file| - st.p
  {
    var a, b := ReadPhysical(crc, AsCoded(checksum), file, st), ReadPhysical(crc, KeptApart(checksum), file, st);
    SamePhysical(crc, checksum, file, st, a, b);
    var act, other := Switch(acc, b.kind, b.payload), Switch(acc, a.kind, a.payload);
    SwitchKeepsClean(acc, b.kind, b.payload, act);
    if b.kind == STORED_EOF {
      TotalIsReports(crc, KeptApart(checksum), file, b.st);
    } else if b.kind == STORED_BAD {
      assert other.acc == act.acc == NONE;
      TotalsAgreeIff(crc, checksum, file, b.st, NONE);
    } else if b.kind != EOF {
      assert act == other;
      TotalsAgreeIff(crc, checksum, file, b.st, if act.Go? then act.acc else NONE);
    }
  }

  /** The same, said of the physical stream. */
  ghost predicate QuietStream(crc: Checksum, checksum: bool, file: seq<Byte>, st: RState, w: seq<Physical>, n: nat,
                              under: bool)
    requires st.p <= st.e <= |file| && n <= |w|
  {
    && (forall i :: 0 <= i < n && w[i].kind == STORED_BAD ==> Under(w, i, under))
    && (n < |w| ==>
          && Under(w, n, under)
          && ReadAll(crc, KeptApart(checksum), file, StateAt(crc, KeptApart(checksum), file, st, n + 1)).1 == 0)
  }

  lemma {:induction false} StreamStep(crc: Checksum, mode: Mode, file: seq<Byte>, st: RState, b: Out,
                                      w: seq<Physical>, n: nat)
    requires st.p <= st.e <= |file| && b == ReadPhysical(crc, mode, file, st) && b.kind != EOF
    requires w == Stream(crc, mode, file, st) && n == FirstStoredEof(w)
    ensures w != [] && w[0].kind == b.kind && w[1..] == Stream(crc, mode, file, b.st)
    ensures if b.kind == STORED_EOF then n == 0 else n == 1 + FirstStoredEof(w[1..])
  {}

  lemma {:induction false} QuietIsStream(crc: Checksum, checksum: bool, file: seq<Byte>, st: RState, w: seq<Physical>,
                                         n: nat, under: bool)
    requires st.p <= st.e <= |file| && w == Stream(crc, KeptApart(checksum), file, st) && n == FirstStoredEof(w)
    ensures Quiet(crc, checksum, file, st, under) <==> QuietStream(crc, checksum, file, st, w, n, under)
    decreases |file| - st.p
  {
    var b := ReadPhysical(crc, KeptApart(checksum), file, st);
    if b.kind != EOF { StreamStep(crc, KeptApart(checksum), file, st, b, w, n); }
    if b.kind == STORED_EOF {
      QuietEnds(crc, checksum, file, st, w, under, b);
    } else if b.kind != EOF {
      var next, rest := StillUnder(under, b.kind), w[1..];
      QuietIsStream(crc, checksum, file, b.st, rest, n - 1, next);
      QuietShift(crc, checksum, file, st, w, n, under, b, rest, n - 1, next);
      QuietNext(crc, checksum, file, st, under, b, next);
    } else {
      assert w == [] && n == 0;
    }
  }

  lemma {:induction false} QuietNext(crc: Checksum, checksum: bool, file: seq<Byte>, st: RState, under: bool, b: Out,
                                     next: bool)
    requires st.p <= st.e <= |file| && b == ReadPhysical(crc, KeptApart(checksum), file, st)
    requires b.kind != EOF && b.kind != STORED_EOF && next == StillUnder(under, b.kind)
    ensures Quiet(crc, checksum, file, st, under) <==>
      (b.kind == STORED_BAD ==> under) && Quiet(crc, checksum, file, b.st, next)
  {}

  lemma {:induction false} QuietEnds(crc: Checksum, checksum: bool, file: seq<Byte>, st: RState, w: seq<Physical>,
                                     under: bool, b: Out)
    requires st.p <= st.e <= |file| && b == ReadPhysical(crc, KeptApart(checksum), file, st) && b.kind == STORED_EOF
    requires w != []
    ensures Quiet(crc, checksum, file, st, under) <==> QuietStream(crc, checksum, file, st, w, 0, under)
  {
    assert StateAt(crc, KeptApart(checksum), file, st, 1) == StateAt(crc, KeptApart(checksum), file, b.st, 0);
  }

  lemma {:induction false} QuietShift(crc: Checksum, checksum: bool, file: seq<Byte>, st: RState, w: seq<Physical>,
                                      n: nat, under: bool, b: Out, rest: seq<Physical>, m: nat, next: bool)
    requires st.p <= st.e <= |file| && b == ReadPhysical(crc, KeptApart(checksum), file, st)
    requires w != [] && w[0].kind == b.kind && rest == w[1..] && n == m + 1 <= |w| && next == StillUnder(under, b.kind)
    ensures QuietStream(crc, checksum, file, st, w, n, under) <==>
      (b.kind == STORED_BAD ==> under) && QuietStream(crc, checksum, file, b.st, rest, m, next)
  {
    forall i | 0 <= i <= m ensures Under(w, i + 1, under) == Under(rest, i, next) {}
    forall i | 0 <= i < m ensures w[i + 1] == rest[i] {}
    if QuietStream(crc, checksum, file, st, w, n, under) {
      assert b.kind == STORED_BAD ==> Under(w, 0, under);
      forall i | 0 <= i < m && rest[i].kind == STORED_BAD ensures Under(rest, i, next) {
        assert w[i + 1].kind == STORED_BAD;
      }
    }
    if (b.kind == STORED_BAD ==> under) && QuietStream(crc, checksum, file, b.st, rest, m, next) {
      forall i | 0 <= i < n && w[i].kind == STORED_BAD ensures Under(w, i, under) {
        if i > 0 { assert rest[i - 1].kind == STORED_BAD; }
      }
    }
  }

  /** The code reports as often as a reader that keeps stored types apart if and only if, before the first
      intact record of type 5, every one of type 6 comes inside an unfinished record, and that record of
      type 5, if there is one, comes inside one too and nothing behind it is to be reported. */
  lemma {:induction false} ReportsAgreeIff(crc: Checksum, checksum: bool, file: seq<Byte>, st: RState, w: seq<Physical>,
                                           n: nat)
    requires st.p <= st.e <= |file| && w == Stream(crc, KeptApart(checksum), file, st) && n == FirstStoredEof(w)
    ensures ReadAll(crc, AsCoded(checksum), file, st).1 <= ReadAll(crc, KeptApart(checksum), file, st).1
    ensures ReadAll(crc, AsCoded(checksum), file, st).1 == ReadAll(crc, KeptApart(checksum), file, st).1
            <==> QuietStream(crc, checksum, file, st, w, n, false)
  {
    TotalIsReports(crc, AsCoded(checksum), file, st);
    TotalIsReports(crc, KeptApart(checksum), file, st);
    TotalsAgreeIff(crc, checksum, file, st, NONE);
    QuietIsStream(crc, checksum, file, st, w, n, false);
  }

  // ---------- Reading back what the writer wrote ----------

  /** A whole physical record inside the buffer is returned as written. */
  lemma ParseGood(crc: Checksum, mode: Mode, file: seq<Byte>, st: RState, kind: Byte, payload: seq<Byte>)
    requires |payload| < 65536 && kind != 0 && st.p + HEADER + |payload| <= st.e <= |file|
    requires At(file, st.p, PhysBytes(crc, kind, payload))
    ensures Parse(crc, mode, file, st) == Out(Shown(mode, kind), payload, st.(p := st.p + HEADER + |payload|), 0)
  {
    var check := EncodeFixed32(Mask(crc([kind] + payload)));
    var bytes := PhysBytes(crc, kind, payload);
    var header := file[st.p..st.p + HEADER];
    assert header == bytes[..HEADER];
    assert header[..4] == check && header[4] == |payload| % 256 && header[5] == |payload| / 256 && header[6] == kind;
    assert payload == bytes[HEADER..] == file[st.p + HEADER..st.p + HEADER + |payload|];
    UnmaskMask(crc([kind] + payload));
    Fixed32RoundTrip(Mask(crc([kind] + payload)));
  }

  // ---------- The two special results, on a file ----------

  /** A file shorter than a block is buffered whole. */
  lemma {:induction false} BufferedWhole(crc: Checksum, mode: Mode, file: seq<Byte>, acc: Acc)
    requires HEADER <= |file| < BLOCK
    ensures ReadRecord(crc, mode, file, START, acc) == ReadRecord(crc, mode, file, RState(0, |file|, true), acc)
    ensures ReadAll(crc, mode, file, START) == ReadAll(crc, mode, file, RState(0, |file|, true))
  {
    assert ReadPhysical(crc, mode, file, START) == ReadPhysical(crc, mode, file, RState(0, |file|, true));
  }

  lemma {:induction false} NextStored(crc: Checksum, mode: Mode, file: seq<Byte>, p: nat, kind: Byte,
                                      payload: seq<Byte>, st: RState, next: RState, acc: Acc, act: Action)
    requires |payload| < 65536 && kind != 0 && At(file, p, PhysBytes(crc, kind, payload))
    requires st == RState(p, |file|, true) && next == RState(p + HEADER + |payload|, |file|, true)
    requires act == Switch(acc, Shown(mode, kind), payload)
    ensures next.p <= |file|
    ensures act.Emit? ==> ReadRecord(crc, mode, file, st, acc) == Done(act.record, next, act.reports)
    ensures act.Stop? ==> ReadRecord(crc, mode, file, st, acc) == End(act.reports)
    ensures act.Go? ==> ReadRecord(crc, mode, file, st, acc) ==
                        Later(ReadRecord(crc, mode, file, next, act.acc), act.reports)
  {
    ParseGood(crc, mode, file, st, kind, payload);
    ReadRecordStep(crc, mode, file, st, acc, ReadPhysical(crc, mode, file, st));
  }

  lemma {:induction false} FileEnds(crc: Checksum, mode: Mode, file: seq<Byte>, st: RState)
    requires st == RState(|file|, |file|, true)
    ensures ReadRecord(crc, mode, file, st, NONE) == End(0) && ReadAll(crc, mode, file, st) == ([], 0)
  {}

  /** An intact record of type 5 hides a whole record behind it, and nothing is reported. */
  lemma {:induction false} TypeFiveHidesTheRest(crc: Checksum, checksum: bool, file: seq<Byte>, five: seq<Byte>,
                                                payload: seq<Byte>)
    requires 2 * HEADER + |five| + |payload| < BLOCK
    requires file == PhysBytes(crc, 5, five) + PhysBytes(crc, FULL, payload)
    ensures ReadAll(crc, AsCoded(checksum), file, START) == ([], 0)
    ensures ReadAll(crc, KeptApart(checksum), file, START) == ([payload], 1)
  {
    var a, b := AsCoded(checksum), KeptApart(checksum);
    var q := HEADER + |five|;
    var st, mid, end := RState(0, |file|, true), RState(q, |file|, true), RState(|file|, |file|, true);
    assert At(file, 0, PhysBytes(crc, 5, five) + PhysBytes(crc, FULL, payload));
    AtSplit(file, 0, PhysBytes(crc, 5, five), PhysBytes(crc, FULL, payload), q);
    BufferedWhole(crc, a, file, NONE);
    BufferedWhole(crc, b, file, NONE);
    NextStored(crc, a, file, 0, 5, five, st, mid, NONE, Switch(NONE, 5, five));
    NextStored(crc, b, file, 0, 5, five, st, mid, NONE, Switch(NONE, STORED_EOF, five));
    NextStored(crc, b, file, q, FULL, payload, mid, end, NONE, Switch(NONE, FULL, payload));
    FileEnds(crc, b, file, end);
    assert ReadRecord(crc, b, file, st, NONE) == Done(payload, end, 1);
    assert [payload] + [] == [payload];
  }

  /** An intact record of type 6 is dropped without a report. */
  lemma {:induction false} TypeSixIsNotReported(crc: Checksum, checksum: bool, file: seq<Byte>, six: seq<Byte>)
    requires HEADER + |six| < BLOCK && file == PhysBytes(crc, 6, six)
    ensures ReadAll(crc, AsCoded(checksum), file, START) == ([], 0)
    ensures ReadAll(crc, KeptApart(checksum), file, START) == ([], 1)
  {
    var a, b := AsCoded(checksum), KeptApart(checksum);
    var st, end := RState(0, |file|, true), RState(|file|, |file|, true);
    assert At(file, 0, PhysBytes(crc, 6, six));
    BufferedWhole(crc, a, file, NONE);
    BufferedWhole(crc, b, file, NONE);
    NextStored(crc, a, file, 0, 6, six, st, end, NONE, Switch(NONE, 6, six));
    NextStored(crc, b, file, 0, 6, six, st, end, NONE, Switch(NONE, STORED_BAD, six));
    FileEnds(crc, a, file, end);
    FileEnds(crc, b, file, end);
  }

  /** Where the reader looks for the record at `st.p`: past the trailer, with the block buffered. */
  ghost function Aligned(file: seq<Byte>, st: RState): RState
    requires st.e <= |file|
  {
    if st.e - st.p < HEADER && !st.eof then Refill(file, st) else st
  }

  lemma {:induction false} AlignedOk(crc: Checksum, mode: Mode, file: seq<Byte>, st: RState)
    requires Ok(file, st)
    ensures Ok(file, Aligned(file, st))
    ensures ReadPhysical(crc, mode, file, st) == ReadPhysical(crc, mode, file, Aligned(file, st))
    ensures st.p + Pad(st.p) < |file| ==> Aligned(file, st).p == st.p + Pad(st.p)
    ensures Aligned(file, st).p % BLOCK + HEADER <= BLOCK || Aligned(file, st).eof
  {}

  /** A buffer holds everything up to the end of the block or of the file. */
  lemma Reaches(file: seq<Byte>, st: RState, n: nat)
    requires Ok(file, st) && (st.p < st.e || st.eof) && st.p + n <= |file| && st.p % BLOCK + n <= BLOCK
    ensures st.p + n <= st.e
  {}

  lemma {:induction false} ReadPiece(crc: Checksum, mode: Mode, file: seq<Byte>, st: RState, data: seq<Byte>,
                                     begin: bool, out: Out)
    requires Ok(file, st) && At(file, st.p, Piece(crc, st.p, data, begin))
    requires out == ReadPhysical(crc, mode, file, st)
    ensures out.kind == Kind(begin, Take(st.p, data) == |data|) && out.payload == data[..Take(st.p, data)]
    ensures out.st.p == After(st.p, data) && out.drops == 0 && Ok(file, out.st)
  {
    var n := Take(st.p, data);
    var kind := Kind(begin, n == |data|);
    var at := Aligned(file, st);
    AlignedOk(crc, mode, file, st);
    AtSplit(file, st.p, Zeros(Pad(st.p)), PhysBytes(crc, kind, data[..n]), at.p);
    PadAligns(st.p);
    Reaches(file, at, HEADER + n);
    ParseGood(crc, mode, file, at, kind, data[..n]);
    Advances(file, at, After(st.p, data));
  }

  lemma Advances(file: seq<Byte>, st: RState, q: nat)
    requires Ok(file, st) && st.p <= q <= st.e
    ensures Ok(file, st.(p := q))
  {}

  ghost predicate Matches(begin: bool, acc: Acc) { if begin then acc == NONE else acc.inFragment }

  /** ReadRecord on the last fragment of a record, and on one before it. */
  lemma {:induction false} ReadLast(crc: Checksum, mode: Mode, file: seq<Byte>, st: RState, begin: bool, acc: Acc,
                                    out: Out)
    requires st.p <= st.e <= |file| && out == ReadPhysical(crc, mode, file, st)
    requires out.kind == Kind(begin, true) && out.drops == 0 && Matches(begin, acc)
    ensures ReadRecord(crc, mode, file, st, acc) == Done(acc.scratch + out.payload, out.st, 0)
  {
    assert [] + out.payload == out.payload;
  }

  lemma {:induction false} ReadMore(crc: Checksum, mode: Mode, file: seq<Byte>, st: RState, begin: bool, acc: Acc,
                                    out: Out, acc': Acc)
    requires st.p <= st.e <= |file| && out == ReadPhysical(crc, mode, file, st)
    requires out.kind == Kind(begin, false) && out.drops == 0 && Matches(begin, acc)
    requires acc' == Acc(true, acc.scratch + out.payload)
    ensures ReadRecord(crc, mode, file, st, acc) == ReadRecord(crc, mode, file, out.st, acc')
  {
    assert [] + out.payload == out.payload;
  }

  lemma {:induction false} EncodeSplit(crc: Checksum, p: nat, data: seq<Byte>, begin: bool, n: nat, q: nat,
                                       left: seq<Byte>)
    requires n == Take(p, data) < |data| && q == After(p, data) && left == data[n..]
    ensures Encode(crc, p, data, begin) == Piece(crc, p, data, begin) + Encode(crc, q, left, false)
    ensures q == p + |Piece(crc, p, data, begin)|
  {}

  lemma {:induction false} EncodeAt(crc: Checksum, file: seq<Byte>, p: nat, data: seq<Byte>, begin: bool,
                                    bytes: seq<Byte>, n: nat, q: nat, left: seq<Byte>, rest: seq<Byte>)
    requires n == Take(p, data) < |data| && q == After(p, data) && left == data[n..]
    requires bytes == Encode(crc, p, data, begin) && rest == Encode(crc, q, left, false) && At(file, p, bytes)
    ensures At(file, p, Piece(crc, p, data, begin)) && At(file, q, rest) && p + |bytes| == q + |rest|
  {
    EncodeSplit(crc, p, data, begin, n, q, left);
    AtSplit(file, p, Piece(crc, p, data, begin), rest, q);
  }

  lemma Reassembled(scratch: seq<Byte>, data: seq<Byte>, n: nat)
    requires n <= |data|
    ensures scratch + data[..n] + data[n..] == scratch + data
  {}

  ghost predicate Got(file: seq<Byte>, r: Result, record: seq<Byte>, q: nat) {
    r.Done? && r.record == record && r.drops == 0 && r.st.p == q && Ok(file, r.st)
  }

  lemma {:induction false} LastRoundTrip(crc: Checksum, mode: Mode, file: seq<Byte>, st: RState, data: seq<Byte>,
                                         begin: bool, acc: Acc, q: nat)
    requires Ok(file, st) && Take(st.p, data) == |data| && At(file, st.p, Piece(crc, st.p, data, begin))
    requires Matches(begin, acc) && q == After(st.p, data)
    ensures Got(file, ReadRecord(crc, mode, file, st, acc), acc.scratch + data, q)
  {
    var out := ReadPhysical(crc, mode, file, st);
    ReadPiece(crc, mode, file, st, data, begin, out);
    ReadLast(crc, mode, file, st, begin, acc, out);
    assert data[..|data|] == data;
  }

  lemma {:induction false} RecordRoundTrip(crc: Checksum, mode: Mode, file: seq<Byte>, st: RState, data: seq<Byte>,
                                           begin: bool, acc: Acc, bytes: seq<Byte>, end: nat)
    requires Ok(file, st) && bytes == Encode(crc, st.p, data, begin) && At(file, st.p, bytes)
    requires Matches(begin, acc) && end == st.p + |bytes|
    ensures Got(file, ReadRecord(crc, mode, file, st, acc), acc.scratch + data, end)
    decreases |data|, NoRoom(st.p)
  {
    var n, q := Take(st.p, data), After(st.p, data);
    if n == |data| {
      LastRoundTrip(crc, mode, file, st, data, begin, acc, q);
    } else {
      FragmentsProgress(st.p, data);
      var left, out := data[n..], ReadPhysical(crc, mode, file, st);
      var rest := Encode(crc, q, left, false);
      EncodeAt(crc, file, st.p, data, begin, bytes, n, q, left, rest);
      ReadPiece(crc, mode, file, st, data, begin, out);
      var acc' := Acc(true, acc.scratch + data[..n]);
      ReadMore(crc, mode, file, st, begin, acc, out, acc');
      RecordRoundTrip(crc, mode, file, out.st, left, false, acc', rest, end);
      Reassembled(acc.scratch, data, n);
    }
  }

  lemma {:induction false} AtEnd(crc: Checksum, mode: Mode, file: seq<Byte>, st: RState, acc: Acc)
    requires Ok(file, st) && st.p == |file|
    ensures ReadRecord(crc, mode, file, st, acc) == End(ReportIf(acc.inFragment))
  {
    var out := ReadPhysical(crc, mode, file, st);
    if !st.eof {
      assert out == ReadPhysical(crc, mode, file, Refill(file, st));
    }
    assert out.kind == EOF && out.drops == 0;
  }

  lemma {:induction false} ReadOne(crc: Checksum, mode: Mode, file: seq<Byte>, st: RState, r: Result,
                                   records: seq<seq<Byte>>, drops: nat)
    requires st.p <= st.e <= |file| && r == ReadRecord(crc, mode, file, st, NONE)
    requires r.Done? && r.drops == 0 && ReadAll(crc, mode, file, r.st) == (records, drops)
    ensures ReadAll(crc, mode, file, st) == ([r.record] + records, drops)
  {}

  lemma {:induction false} EncodeAllSplit(crc: Checksum, p: nat, records: seq<seq<Byte>>, data: seq<Byte>,
                                          left: seq<seq<Byte>>, bytes: seq<Byte>, q: nat)
    requires records == [data] + left && bytes == Encode(crc, p, data, true) && q == p + |bytes|
    ensures EncodeAll(crc, p, records) == bytes + EncodeAll(crc, q, left)
  {
    assert records[1..] == left;
  }

  /** Every record list comes back whole, with no corruption reported. */
  lemma {:induction false} LogRoundTrip(crc: Checksum, mode: Mode, file: seq<Byte>, st: RState, records: seq<seq<Byte>>)
    requires Ok(file, st) && file[st.p..] == EncodeAll(crc, st.p, records)
    ensures ReadAll(crc, mode, file, st) == (records, 0)
    decreases |records|
  {
    if records == [] {
      AtEnd(crc, mode, file, st, NONE);
    } else {
      var data, left := records[0], records[1..];
      var bytes := Encode(crc, st.p, data, true);
      var q := st.p + |bytes|;
      EncodeAllSplit(crc, st.p, records, data, left, bytes, q);
      SuffixSplit(file, st.p, bytes, EncodeAll(crc, q, left), q);
      var r := ReadRecord(crc, mode, file, st, NONE);
      RecordRoundTrip(crc, mode, file, st, data, true, NONE, bytes, q);
      assert [] + data == data;
      LogRoundTrip(crc, mode, file, r.st, left);
      ReadOne(crc, mode, file, st, r, left, 0);
    }
  }

  lemma SuffixSplit(file: seq<Byte>, p: nat, a: seq<Byte>, b: seq<Byte>, q: nat)
    requires p <= |file| && q == p + |a| <= |file| && file[p..] <= a + b
    ensures At(file, p, a) && file[q..] <= b && (file[p..] == a + b ==> file[q..] == b)
  {
    assert file[p..q] == file[p..][..|a|] && file[q..] == file[p..][|a|..];
  }

  // ---------- A log cut short ----------

  ghost predicate CutShort(file: seq<Byte>, p: nat, bytes: seq<Byte>) {
    p <= |file| < p + |bytes| && file[p..] == bytes[..|file| - p]
  }

  /** The header of a cut fragment promises more bytes than the file has. */
  lemma {:induction false} CutHeader(crc: Checksum, file: seq<Byte>, p: nat, data: seq<Byte>, begin: bool, q: nat)
    requires CutShort(file, p, Piece(crc, p, data, begin)) && q == p + Pad(p) && q + HEADER <= |file|
    ensures file[q + 4] as int + 256 * (file[q + 5] as int) == Take(p, data) && |file| < q + HEADER + Take(p, data)
  {
    var bytes := Piece(crc, p, data, begin);
    assert forall i {:trigger bytes[i]} :: 0 <= i < |file| - p ==> bytes[i] == file[p..][i] == file[p + i];
    assert bytes[Pad(p) + 4] == file[q + 4] && bytes[Pad(p) + 5] == file[q + 5];
  }

  /** The buffer of the last block reaches the end of the file. */
  lemma LastBlock(file: seq<Byte>, st: RState, n: nat)
    requires Ok(file, st) && st.p < st.e && st.p % BLOCK + n <= BLOCK && |file| < st.p + n
    ensures st.e == |file|
  {}

  lemma ParseCut(crc: Checksum, mode: Mode, file: seq<Byte>, st: RState, n: nat)
    requires st.p + HEADER <= st.e <= |file| && st.e < st.p + HEADER + n
    requires file[st.p + 4] as int + 256 * (file[st.p + 5] as int) == n
    ensures Parse(crc, mode, file, st) == Out(BAD, [], st.(p := st.e), 1)
  {}

  lemma {:induction false} CutPhysical(crc: Checksum, mode: Mode, file: seq<Byte>, st: RState, data: seq<Byte>,
                                       begin: bool, out: Out)
    requires Ok(file, st) && CutShort(file, st.p, Piece(crc, st.p, data, begin))
    requires out == ReadPhysical(crc, mode, file, st)
    ensures out.kind == EOF || (out.kind == BAD && out.st.p == |file| && Ok(file, out.st))
  {
    var at, n := Aligned(file, st), Take(st.p, data);
    AlignedOk(crc, mode, file, st);
    if at.e - at.p >= HEADER {
      CutHeader(crc, file, st.p, data, begin, at.p);
      PadAligns(st.p);
      LastBlock(file, at, HEADER + n);
      ParseCut(crc, mode, file, at, n);
    }
  }

  /** A fragment that is not all there ends the reading. */
  lemma {:induction false} CutPiece(crc: Checksum, mode: Mode, file: seq<Byte>, st: RState, data: seq<Byte>,
                                    begin: bool, acc: Acc)
    requires Ok(file, st) && CutShort(file, st.p, Piece(crc, st.p, data, begin))
    ensures ReadRecord(crc, mode, file, st, acc).End?
  {
    var out := ReadPhysical(crc, mode, file, st);
    CutPhysical(crc, mode, file, st, data, begin, out);
    if out.kind == BAD {
      AtEnd(crc, mode, file, out.st, Switch(acc, BAD, out.payload).acc);
    }
  }

  lemma {:induction false} CutSplit(file: seq<Byte>, p: nat, a: seq<Byte>, b: seq<Byte>, q: nat)
    requires CutShort(file, p, a + b) && q == p + |a|
    ensures CutShort(file, p, a) || (At(file, p, a) && CutShort(file, q, b))
  {
    var n := |file| - p;
    if n < |a| {
      assert (a + b)[..n] == a[..n];
    } else {
      assert (a + b)[..n] == a + b[..n - |a|];
      assert file[p..q] == file[p..][..|a|] && file[q..] == file[p..][|a|..];
    }
  }

  lemma {:induction false} CutRecord(crc: Checksum, mode: Mode, file: seq<Byte>, st: RState, data: seq<Byte>,
                                     begin: bool, acc: Acc)
    requires Ok(file, st) && CutShort(file, st.p, Encode(crc, st.p, data, begin)) && Matches(begin, acc)
    ensures ReadRecord(crc, mode, file, st, acc).End?
    decreases |data|, NoRoom(st.p)
  {
    var n, q := Take(st.p, data), After(st.p, data);
    var piece := Piece(crc, st.p, data, begin);
    if n == |data| {
      CutPiece(crc, mode, file, st, data, begin, acc);
    } else {
      FragmentsProgress(st.p, data);
      var left := data[n..];
      EncodeSplit(crc, st.p, data, begin, n, q, left);
      CutSplit(file, st.p, piece, Encode(crc, q, left, false), q);
      if CutShort(file, st.p, piece) {
        CutPiece(crc, mode, file, st, data, begin, acc);
      } else {
        var out := ReadPhysical(crc, mode, file, st);
        ReadPiece(crc, mode, file, st, data, begin, out);
        var acc' := Acc(true, acc.scratch + data[..n]);
        ReadMore(crc, mode, file, st, begin, acc, out, acc');
        CutRecord(crc, mode, file, out.st, left, false, acc');
      }
    }
  }

  /** How many records lie wholly within the first `end` bytes of a log. */
  function Whole(crc: Checksum, p: nat, records: seq<seq<Byte>>, end: nat): (n: nat)
    ensures n <= |records|
    decreases |records|
  {
    if records == [] then 0
    else
      var q := p + |Encode(crc, p, records[0], true)|;
      if q <= end then 1 + Whole(crc, q, records[1..], end) else 0
  }

  lemma {:induction false} WholeStep(crc: Checksum, p: nat, records: seq<seq<Byte>>, data: seq<Byte>,
                                     left: seq<seq<Byte>>, end: nat, q: nat, n: nat)
    requires records == [data] + left && q == p + |Encode(crc, p, data, true)| && n == Whole(crc, q, left, end)
    ensures if q <= end then Whole(crc, p, records, end) > 0
      && records[..Whole(crc, p, records, end)] == [data] + left[..n] else Whole(crc, p, records, end) == 0
  {
    assert records[1..] == left;
  }

  /** A log cut after any byte gives back exactly the records that were written completely. */
  lemma {:induction false} CutLog(crc: Checksum, mode: Mode, file: seq<Byte>, st: RState, records: seq<seq<Byte>>)
    requires Ok(file, st) && file[st.p..] <= EncodeAll(crc, st.p, records)
    ensures ReadAll(crc, mode, file, st).0 == records[..Whole(crc, st.p, records, |file|)]
    decreases |records|
  {
    if records == [] {
      AtEnd(crc, mode, file, st, NONE);
    } else {
      var data, left := records[0], records[1..];
      var bytes := Encode(crc, st.p, data, true);
      var q := st.p + |bytes|;
      EncodeAllSplit(crc, st.p, records, data, left, bytes, q);
      WholeStep(crc, st.p, records, data, left, |file|, q, Whole(crc, q, left, |file|));
      if |file| < q {
        SuffixCut(file, st.p, bytes, EncodeAll(crc, q, left));
        CutRecord(crc, mode, file, st, data, true, NONE);
      } else {
        SuffixSplit(file, st.p, bytes, EncodeAll(crc, q, left), q);
        var r := ReadRecord(crc, mode, file, st, NONE);
        RecordRoundTrip(crc, mode, file, st, data, true, NONE, bytes, q);
        assert [] + data == data;
        CutLog(crc, mode, file, r.st, left);
        ReadOne(crc, mode, file, st, r, ReadAll(crc, mode, file, r.st).0, ReadAll(crc, mode, file, r.st).1);
      }
    }
  }

  lemma SuffixCut(file: seq<Byte>, p: nat, a: seq<Byte>, b: seq<Byte>)
    requires p <= |file| < p + |a| && file[p..] <= a + b
    ensures CutShort(file, p, a)
  {}

  // ---------- The reader object ----------

  lemma PartOfPart(file: seq<Byte>, p: nat, e: nat, a: nat, b: nat, part: seq<Byte>)
    requires p <= e <= |file| && part == file[p..e] && a <= b <= |part|
    ensures part[a..b] == file[p + a..p + b]
  {
    forall i | 0 <= i < b - a ensures part[a..b][i] == file[p + a..p + b][i] {
      assert part[a + i] == file[p + (a + i)];
    }
  }

  class Reader {
    const crc: Checksum
    const checksum: bool
    const file: seq<Byte>
    /** Bytes of the file already handed out by Read. */
    var filePos: nat
    var buffer: seq<Byte>
    var eof: bool
    var reports: nat

    constructor (crc: Checksum, checksum: bool, file: seq<Byte>)
      ensures Valid() && State() == START && reports == 0
      ensures this.crc == crc && this.checksum == checksum && this.file == file
    {
      this.crc, this.checksum, this.file := crc, checksum, file;
      filePos, buffer, eof, reports := 0, [], false, 0;
    }

    ghost predicate Valid()
      reads this
    {
      |buffer| <= filePos <= |file| && buffer == file[filePos - |buffer|..filePos]
    }

    ghost function State(): RState
      requires Valid()
      reads this
    {
      RState(filePos - |buffer|, filePos, eof)
    }

    ghost predicate Yields(out: Out, kind: nat, payload: seq<Byte>, before: nat)
      requires Valid()
      reads this
    {
      kind == out.kind && payload == out.payload && State() == out.st && reports == before + out.drops
    }

    method ReadBlock()
      requires Valid()
      modifies this
      ensures Valid() && State() == Refill(file, old(State())) && reports == old(reports)
    {
      var n := if |file| - filePos < BLOCK then |file| - filePos else BLOCK;
      buffer, filePos, eof := file[filePos..filePos + n], filePos + n, n < BLOCK;
    }

    method Clear()
      requires Valid()
      modifies this
      ensures Valid() && State() == old(State()).(p := old(State()).e) && reports == old(reports)
    {
      buffer := [];
    }

    method ReadPhysicalRecord() returns (kind: nat, payload: seq<Byte>)
      requires Valid()
      modifies this
      ensures Valid() && Yields(ReadPhysical(crc, AsCoded(checksum), file, old(State())), kind, payload, old(reports))
    {
      ghost var all := ReadPhysical(crc, AsCoded(checksum), file, State());
      while |buffer| < HEADER
        invariant Valid() && reports == old(reports)
        invariant ReadPhysical(crc, AsCoded(checksum), file, State()) == all
        decreases if eof then 0 else 1 + |file| - filePos
      {
        if !eof {
          ReadBlock();
        } else if |buffer| == 0 {
          return EOF, [];
        } else {
          Clear();
          reports := reports + 1;
          return EOF, [];
        }
      }
      kind, payload := ParseBuffer();
    }

    method ParseBuffer() returns (kind: nat, payload: seq<Byte>)
      requires Valid() && |buffer| >= HEADER
      modifies this
      ensures Valid() && Yields(Parse(crc, AsCoded(checksum), file, old(State())), kind, payload, old(reports))
    {
      var header := buffer[..HEADER];
      ghost var p := State().p;
      PartOfPart(file, p, filePos, 0, HEADER, buffer);
      var length := header[4] as int + 256 * (header[5] as int);
      if HEADER + length > |buffer| {
        Clear();
        reports := reports + 1;
        return BAD, [];
      }
      if header[6] == 0 && length == 0 {
        Clear();
        return BAD, [];
      }
      payload := buffer[HEADER..HEADER + length];
      PartOfPart(file, p, filePos, HEADER, HEADER + length, buffer);
      if checksum && crc([header[6]] + payload) != Unmask(DecodeFixed32(header[..4])) {
        Clear();
        reports := reports + 1;
        return BAD, [];
      }
      buffer := buffer[HEADER + length..];
      kind := header[6];
    }

    /** One turn of ReadRecord's while(true) loop. */
    method Turn(acc: Acc) returns (act: Action)
      requires Valid()
      modifies this
      ensures Valid() && reports >= old(reports)
      ensures Follows(ReadRecord(crc, AsCoded(checksum), file, old(State()), acc), act, reports - old(reports))
      ensures act.Go? ==> old(State()).p < State().p
    {
      ghost var st, before := State(), reports;
      ghost var out := ReadPhysical(crc, AsCoded(checksum), file, st);
      var kind, payload := ReadPhysicalRecord();
      act := Switch(acc, kind, payload);
      ReadRecordStep(crc, AsCoded(checksum), file, st, acc, out);
      reports := reports + act.reports;
      assert reports - before == out.drops + act.reports && State() == out.st;
      assert Follows(ReadRecord(crc, AsCoded(checksum), file, st, acc), act, out.drops + act.reports);
    }

    /** `r` is what reading gives when a turn has done `act` and made `n` reports. */
    ghost predicate Follows(r: Result, act: Action, n: nat)
      requires Valid()
      reads this
    {
      match act
      case Emit(record, _) => r == Done(record, State(), n)
      case Stop(_) => r == End(n)
      case Go(acc, _) => r == Later(ReadRecord(crc, AsCoded(checksum), file, State(), acc), n)
    }

    /** ReadRecord. */
    method Read() returns (found: bool, record: seq<Byte>)
      requires Valid()
      modifies this
      ensures Valid()
      ensures var r := ReadRecord(crc, AsCoded(checksum), file, old(State()), NONE);
              found == r.Done? && reports == old(reports) + r.drops && (found ==> record == r.record && State() == r.st)
    {
      ghost var all, was := ReadRecord(crc, AsCoded(checksum), file, State(), NONE), reports;
      var acc := NONE;
      while true
        invariant Valid() && was <= reports
        invariant all == Later(ReadRecord(crc, AsCoded(checksum), file, State(), acc), reports - was)
        decreases |file| - State().p
      {
        ghost var now, mid := ReadRecord(crc, AsCoded(checksum), file, State(), acc), reports;
        var act := Turn(acc);
        assert all == Later(now, mid - was);
        if act.Emit? {
          return true, act.record;
        } else if act.Stop? {
          return false, [];
        }
        acc := act.acc;
      }
    }
  }

  lemma {:induction false} EncodeAllAppend(crc: Checksum, p: nat, records: seq<seq<Byte>>, data: seq<Byte>, end: nat)
    requires end == p + |EncodeAll(crc, p, records)|
    ensures EncodeAll(crc, p, records + [data]) == EncodeAll(crc, p, records) + Encode(crc, end, data, true)
    decreases |records|
  {
    var all := records + [data];
    if records == [] {
      assert EncodeAll(crc, end, []) == [] && all[1..] == [];
    } else {
      var bytes := Encode(crc, p, records[0], true);
      var q := p + |bytes|;
      var left := records[1..];
      EncodeAllSplit(crc, p, records, records[0], left, bytes, q);
      EncodeAllAppend(crc, q, left, data, end);
      EncodeAllSplit(crc, p, all, records[0], left + [data], bytes, q);
      Regroup(bytes, EncodeAll(crc, q, left), Encode(crc, end, data, true));
    }
  }

  /** A log written record by record, of which only `kept` bytes reached the disk, and read until
      ReadRecord fails. */
  method WriteCutRead(crc: Checksum, checksum: bool, records: seq<seq<Byte>>, kept: nat)
    returns (got: seq<seq<Byte>>, reports: nat)
    ensures got == records[..Whole(crc, 0, records, kept)]
    ensures |EncodeAll(crc, 0, records)| <= kept ==> got == records && reports == 0
  {
    var writer := new Writer(crc);
    for i := 0 to |records|
      invariant writer.Valid() && writer.crc == crc && writer.dest == EncodeAll(crc, 0, records[..i])
    {
      EncodeAllAppend(crc, 0, records[..i], records[i], |writer.dest|);
      assert records[..i] + [records[i]] == records[..i + 1];
      writer.AddRecord(records[i]);
    }
    assert records[..|records|] == records;
    ghost var written := writer.dest;
    var file := if kept < |writer.dest| then writer.dest[..kept] else writer.dest;
    got, reports := ReplayLog(crc, checksum, file);
    assert file[START.p..] == file;
    CutLog(crc, AsCoded(checksum), file, START, records);
    if |written| <= kept {
      LogRoundTrip(crc, AsCoded(checksum), file, START, records);
      WholeIsAll(crc, 0, records, kept);
      WholeIsAll(crc, 0, records, |file|);
    }
  }

  lemma {:induction false} WholeIsAll(crc: Checksum, p: nat, records: seq<seq<Byte>>, end: nat)
    requires p + |EncodeAll(crc, p, records)| <= end
    ensures Whole(crc, p, records, end) == |records|
    decreases |records|
  {
    if records != [] {
      WholeIsAll(crc, p + |Encode(crc, p, records[0], true)|, records[1..], end);
    }
  }

  /** What has been read so far, and what is still to come. */
  function Onto(got: seq<seq<Byte>>, reports: nat, rest: (seq<seq<Byte>>, nat)): (seq<seq<Byte>>, nat) {
    (got + rest.0, reports + rest.1)
  }

  lemma {:induction false} OntoStep(crc: Checksum, mode: Mode, file: seq<Byte>, st: RState, got: seq<seq<Byte>>,
                                    was: nat, r: Result, now: nat)
    requires st.p <= st.e <= |file| && r == ReadRecord(crc, mode, file, st, NONE) && now == was + r.drops
    ensures Onto(got, was, ReadAll(crc, mode, file, st)) ==
            if r.Done? then Onto(got + [r.record], now, ReadAll(crc, mode, file, r.st)) else (got, now)
  {
    if r.Done? {
      var rest := ReadAll(crc, mode, file, r.st).0;
      assert got + ([r.record] + rest) == got + [r.record] + rest;
    } else {
      assert got + [] == got;
    }
  }

  /** RecoverLogFile's loop over a log: read until ReadRecord fails. */
  method ReplayLog(crc: Checksum, checksum: bool, file: seq<Byte>) returns (got: seq<seq<Byte>>, reports: nat)
    ensures (got, reports) == ReadAll(crc, AsCoded(checksum), file, START)
    ensures got == Runs(Stream(crc, AsCoded(checksum), file, START))
  {
    var reader := new Reader(crc, checksum, file);
    got := [];
    ghost var all := ReadAll(crc, AsCoded(checksum), file, START);
    var more := true;
    assert [] + all.0 == all.0;
    while more
      invariant reader.Valid() && reader.crc == crc && reader.checksum == checksum && reader.file == file
      invariant more ==> all == Onto(got, reader.reports, ReadAll(crc, AsCoded(checksum), file, reader.State()))
      invariant !more ==> all == (got, reader.reports)
      decreases more, |file| - reader.State().p
    {
      ghost var st, was := reader.State(), reader.reports;
      var found, record := reader.Read();
      OntoStep(crc, AsCoded(checksum), file, st, got, was, ReadRecord(crc, AsCoded(checksum), file, st, NONE),
          reader.reports);
      if found {
        got := got + [record];
      }
      more := found;
    }
    reports := reader.reports;
    ReadAllIsRuns(crc, AsCoded(checksum), file, START);
  }
}
