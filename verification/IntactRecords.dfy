/** What checksums are for: with verification on, the log reader returns nothing but fragments that stand in the file
    as a writer would have put them there, and damage is reported. */
module IntactRecords {
  import opened Coding
  import opened LogFormat
  import opened LogReader

  /** A physical record that stands at `q`. */
  datatype Fragment = Fragment(q: nat, kind: Byte, payload: seq<Byte>)

  ghost predicate Stands(crc: Checksum, file: seq<Byte>, x: Fragment) {
    |x.payload| < 65536 && At(file, x.q, PhysBytes(crc, x.kind, x.payload))
  }

  /** The bytes of a header and its payload, one by one. */
  ghost predicate Reads(file: seq<Byte>, x: Fragment) {
    && |x.payload| < 65536 && x.q + HEADER + |x.payload| <= |file|
    && file[x.q + 4] == |x.payload| % 256 && file[x.q + 5] == |x.payload| / 256 && file[x.q + 6] == x.kind
    && file[x.q + HEADER..x.q + HEADER + |x.payload|] == x.payload
  }

  function CheckBytes(crc: Checksum, x: Fragment): seq<Byte> { EncodeFixed32(Mask(crc([x.kind] + x.payload))) }

  /** It stands there exactly when the four check bytes are right too. */
  lemma StandsIff(crc: Checksum, file: seq<Byte>, x: Fragment)
    requires Reads(file, x)
    ensures Stands(crc, file, x) <==> file[x.q..x.q + 4] == CheckBytes(crc, x)
  {
    var n := HEADER + |x.payload|;
    var bytes, there := PhysBytes(crc, x.kind, x.payload), file[x.q..x.q + n];
    assert there[..4] == file[x.q..x.q + 4] && bytes[..4] == CheckBytes(crc, x);
    assert there[HEADER..] == x.payload == bytes[HEADER..];
    if there[..4] == bytes[..4] {
      assert there == there[..4] + [there[4], there[5], there[6]] + there[HEADER..];
      assert bytes == bytes[..4] + [bytes[4], bytes[5], bytes[6]] + bytes[HEADER..];
    }
  }

  /** Comparing checksums is comparing their bytes. */
  lemma SameCheck(sum: Word, b: seq<Byte>)
    requires |b| == 4
    ensures sum == Unmask(DecodeFixed32(b)) <==> b == EncodeFixed32(Mask(sum))
  {
    MaskUnmask(DecodeFixed32(b));
    UnmaskMask(sum);
    Fixed32Decodes(b);
    Fixed32RoundTrip(Mask(sum));
  }

  /** With a whole header and payload buffered: right check bytes return it, wrong ones are reported, once, and drop
      the rest of the buffer. */
  lemma {:induction false} ReturnedIffStands(crc: Checksum, mode: Mode, file: seq<Byte>, st: RState, x: Fragment,
                                             out: Out)
    requires mode.checksum && st.p <= st.e <= |file| && x.q == st.p && Reads(file, x)
    requires st.p + HEADER + |x.payload| <= st.e && !(x.kind == 0 && x.payload == [])
    requires out == ReadPhysical(crc, mode, file, st)
    ensures Stands(crc, file, x) ==> out == Out(Shown(mode, x.kind), x.payload, st.(p := x.q + HEADER + |x.payload|), 0)
    ensures !Stands(crc, file, x) ==> out == Out(BAD, [], st.(p := st.e), 1)
  {
    StandsIff(crc, file, x);
    SameCheck(crc([x.kind] + x.payload), file[x.q..x.q + 4]);
    ParsedAs(crc, mode, file, st, x, file[x.q..x.q + 4]);
  }

  lemma TwoBytes(n: nat)
    requires n < 65536
    ensures n % 256 + 256 * (n / 256) == n
  {}

  /** What Parse makes of a header, by its check bytes. */
  lemma {:induction false} ParsedAs(crc: Checksum, mode: Mode, file: seq<Byte>, st: RState, x: Fragment,
                                    check: seq<Byte>)
    requires mode.checksum && st.p <= st.e <= |file| && x.q == st.p && Reads(file, x)
    requires st.p + HEADER + |x.payload| <= st.e && !(x.kind == 0 && x.payload == [])
    requires check == file[x.q..x.q + 4]
    ensures Parse(crc, mode, file, st) ==
      if crc([x.kind] + x.payload) != Unmask(DecodeFixed32(check)) then Out(BAD, [], st.(p := st.e), 1)
      else Out(Shown(mode, x.kind), x.payload, st.(p := x.q + HEADER + |x.payload|), 0)
  {
    TwoBytes(|x.payload|);
    var header := file[st.p..st.p + HEADER];
    assert header[4] == file[x.q + 4] && header[5] == file[x.q + 5] && header[6] == file[x.q + 6];
    assert header[..4] == check;
  }

  /** A header of type and length zero ends the block without a report. */
  lemma ZerosAreSkipped(crc: Checksum, mode: Mode, file: seq<Byte>, st: RState)
    requires st.p + HEADER <= st.e <= |file| && file[st.p + 4..st.p + HEADER] == [0, 0, 0]
    ensures ReadPhysical(crc, mode, file, st) == Out(BAD, [], st.(p := st.e), 0)
  {
    assert file[st.p + 4] == file[st.p + 4..st.p + HEADER][0] && file[st.p + 5] == file[st.p + 4..st.p + HEADER][1];
    assert file[st.p + 6] == file[st.p + 4..st.p + HEADER][2];
  }

  /** Without verification whatever is there is returned. */
  lemma {:induction false} UncheckedIsReturned(crc: Checksum, mode: Mode, file: seq<Byte>, st: RState, x: Fragment)
    requires !mode.checksum && st.p <= st.e <= |file| && x.q == st.p && Reads(file, x)
    requires st.p + HEADER + |x.payload| <= st.e && !(x.kind == 0 && x.payload == [])
    ensures ReadPhysical(crc, mode, file, st)
         == Out(Shown(mode, x.kind), x.payload, st.(p := x.q + HEADER + |x.payload|), 0)
  {
    TwoBytes(|x.payload|);
    var header := file[st.p..st.p + HEADER];
    assert header[4] == file[x.q + 4] && header[5] == file[x.q + 5] && header[6] == file[x.q + 6];
  }

  // ---------- Arbitrary bytes ----------

  predicate IsRecord(kind: nat) { kind != EOF && kind != BAD }

  /** What ReadPhysicalRecord returns stands in the file, between where it started and where it stopped. */
  lemma {:induction false} ReturnedStands(crc: Checksum, mode: Mode, file: seq<Byte>, st: RState, out: Out)
    returns (x: Fragment)
    requires mode.checksum && st.p <= st.e <= |file| && out == ReadPhysical(crc, mode, file, st) && IsRecord(out.kind)
    ensures Stands(crc, file, x) && Shown(mode, x.kind) == out.kind && x.payload == out.payload
    ensures st.p <= x.q && out.st.p == x.q + HEADER + |x.payload|
    decreases if st.eof then 0 else 1 + |file| - st.e
  {
    if st.e - st.p < HEADER {
      x := ReturnedStands(crc, mode, file, Refill(file, st), out);
    } else {
      var length := file[st.p + 4] as int + 256 * (file[st.p + 5] as int);
      x := Fragment(st.p, file[st.p + 6], file[st.p + HEADER..st.p + HEADER + length]);
      ReturnedIffStands(crc, mode, file, st, x, out);
    }
  }

  /** The payloads of a row of fragments. */
  function Payload(xs: seq<Fragment>): seq<Byte> {
    if xs == [] then [] else Payload(xs[..|xs| - 1]) + xs[|xs| - 1].payload
  }

  /** Fragments that stand one behind the other from `from` on and before `to`. */
  ghost predicate InARow(crc: Checksum, file: seq<Byte>, xs: seq<Fragment>, from: nat, to: nat) {
    && (forall i :: 0 <= i < |xs| ==>
          Stands(crc, file, xs[i]) && from <= xs[i].q && xs[i].q + HEADER + |xs[i].payload| <= to)
    && (forall i, j :: 0 <= i < j < |xs| ==> xs[i].q + HEADER + |xs[i].payload| <= xs[j].q)
  }

  /** A record that has been begun: First and then Middle fragments. */
  ghost predicate Begun(crc: Checksum, file: seq<Byte>, xs: seq<Fragment>, from: nat, to: nat) {
    && InARow(crc, file, xs, from, to) && xs != [] && xs[0].kind == FIRST
    && forall i :: 1 <= i < |xs| ==> xs[i].kind == MIDDLE
  }

  /** A whole one: Full, or First, Middle fragments and Last. */
  ghost predicate Makes(crc: Checksum, file: seq<Byte>, xs: seq<Fragment>, from: nat, to: nat, record: seq<Byte>) {
    InARow(crc, file, xs, from, to) && record == Payload(xs) && (IsFull(xs) || IsRow(xs))
  }

  predicate IsFull(xs: seq<Fragment>) { |xs| == 1 && xs[0].kind == FULL }

  predicate IsRow(xs: seq<Fragment>) {
    |xs| >= 2 && xs[0].kind == FIRST && xs[|xs| - 1].kind == LAST
    && forall i :: 1 <= i < |xs| - 1 ==> xs[i].kind == MIDDLE
  }

  ghost predicate Backed(crc: Checksum, file: seq<Byte>, acc: Acc, xs: seq<Fragment>, from: nat, to: nat) {
    acc.inFragment ==> Begun(crc, file, xs, from, to) && acc.scratch == Payload(xs)
  }

  lemma {:induction false} OneMoreFragment(crc: Checksum, file: seq<Byte>, xs: seq<Fragment>, from: nat, p: nat,
                                           x: Fragment, to: nat)
    requires InARow(crc, file, xs, from, p) && Stands(crc, file, x) && from <= p <= x.q
    requires to == x.q + HEADER + |x.payload|
    ensures InARow(crc, file, xs + [x], from, to) && Payload(xs + [x]) == Payload(xs) + x.payload
  {
    assert (xs + [x])[..|xs|] == xs;
  }

  /** A record returned is made of fragments that stand in the file. */
  lemma {:induction false} RecordStands(crc: Checksum, mode: Mode, file: seq<Byte>, st: RState, acc: Acc,
                                        xs: seq<Fragment>, from: nat, r: Result)
    returns (ys: seq<Fragment>)
    requires mode.checksum && from <= st.p <= st.e <= |file| && Backed(crc, file, acc, xs, from, st.p)
    requires r == ReadRecord(crc, mode, file, st, acc)
    ensures r.Done? ==> Makes(crc, file, ys, from, r.st.p, r.record)
    decreases |file| - st.p
  {
    ys := [];
    var out := ReadPhysical(crc, mode, file, st);
    var act := Switch(acc, out.kind, out.payload);
    ReadRecordStep(crc, mode, file, st, acc, out);
    if out.kind == EOF {
      return;
    }
    if !IsRecord(out.kind) {
      ys := RecordStands(crc, mode, file, out.st, act.acc, [], from, ReadRecord(crc, mode, file, out.st, act.acc));
      return;
    }
    var x := ReturnedStands(crc, mode, file, st, out);
    if act.Emit? {
      ys := EmittedStands(crc, mode, file, st, acc, xs, from, out, x);
    } else {
      var zs := KeptStands(crc, mode, file, st, acc, xs, from, out, x, act);
      ys := RecordStands(crc, mode, file, out.st, act.acc, zs, from, ReadRecord(crc, mode, file, out.st, act.acc));
    }
  }

  lemma {:induction false} FullMakes(crc: Checksum, file: seq<Byte>, from: nat, p: nat, x: Fragment, to: nat)
    requires Stands(crc, file, x) && from <= p <= x.q && to == x.q + HEADER + |x.payload| && x.kind == FULL
    ensures Makes(crc, file, [x], from, to, x.payload)
  {
    OneMoreFragment(crc, file, [], from, p, x, to);
    assert [] + [x] == [x] && Payload([]) + x.payload == x.payload;
  }

  lemma {:induction false} LastMakes(crc: Checksum, file: seq<Byte>, xs: seq<Fragment>, from: nat, p: nat, x: Fragment,
                                     to: nat)
    requires Begun(crc, file, xs, from, p) && x.kind == LAST
    requires Stands(crc, file, x) && from <= p <= x.q && to == x.q + HEADER + |x.payload|
    ensures Makes(crc, file, xs + [x], from, to, Payload(xs) + x.payload)
  {
    OneMoreFragment(crc, file, xs, from, p, x, to);
    assert IsRow(xs + [x]);
  }

  lemma {:induction false} EmittedStands(crc: Checksum, mode: Mode, file: seq<Byte>, st: RState, acc: Acc,
                                         xs: seq<Fragment>, from: nat, out: Out, x: Fragment)
    returns (ys: seq<Fragment>)
    requires from <= st.p && Backed(crc, file, acc, xs, from, st.p) && Switch(acc, out.kind, out.payload).Emit?
    requires Stands(crc, file, x) && Shown(mode, x.kind) == out.kind && x.payload == out.payload
    requires st.p <= x.q && out.st.p == x.q + HEADER + |x.payload|
    ensures Makes(crc, file, ys, from, out.st.p, Switch(acc, out.kind, out.payload).record)
  {
    if out.kind == 1 {
      ys := [x];
      FullMakes(crc, file, from, st.p, x, out.st.p);
    } else {
      ys := xs + [x];
      LastMakes(crc, file, xs, from, st.p, x, out.st.p);
    }
  }

  lemma {:induction false} KeptStands(crc: Checksum, mode: Mode, file: seq<Byte>, st: RState, acc: Acc,
                                      xs: seq<Fragment>, from: nat, out: Out, x: Fragment, act: Action)
    returns (zs: seq<Fragment>)
    requires from <= st.p && Backed(crc, file, acc, xs, from, st.p) && act == Switch(acc, out.kind, out.payload)
    requires act.Go? && Stands(crc, file, x) && Shown(mode, x.kind) == out.kind && x.payload == out.payload
    requires st.p <= x.q && out.st.p == x.q + HEADER + |x.payload|
    ensures Backed(crc, file, act.acc, zs, from, out.st.p)
  {
    zs := [];
    if out.kind == 2 {
      zs := [] + [x];
      OneMoreFragment(crc, file, [], from, st.p, x, out.st.p);
    } else if out.kind == 3 && acc.inFragment {
      zs := xs + [x];
      OneMoreFragment(crc, file, xs, from, st.p, x, out.st.p);
    }
  }

  /** On any bytes at all, with verification on: every record returned is made of fragments that stand in the file
      with right checksums, one behind the other. */
  lemma {:induction false} RecordsStand(crc: Checksum, mode: Mode, file: seq<Byte>, st: RState, record: seq<Byte>)
    returns (xs: seq<Fragment>)
    requires mode.checksum && st.p <= st.e <= |file| && record in ReadAll(crc, mode, file, st).0
    ensures Makes(crc, file, xs, st.p, |file|, record)
    decreases |file| - st.p
  {
    var r := ReadRecord(crc, mode, file, st, NONE);
    xs := RecordStands(crc, mode, file, st, NONE, [], st.p, r);
    if r.record != record {
      xs := RecordsStand(crc, mode, file, r.st, record);
    }
  }

  /** A file of one record, with its payload changed so that the checksum is another one: nothing is returned, and
      one report is made. Without verification the changed payload is returned. */
  lemma {:induction false} DamageIsReported(crc: Checksum, checksum: bool, payload: seq<Byte>, damaged: seq<Byte>,
                                            file: seq<Byte>)
    requires |damaged| == |payload| && HEADER + |payload| < BLOCK && crc([FULL] + damaged) != crc([FULL] + payload)
    requires file == PhysBytes(crc, FULL, payload)[..HEADER] + damaged
    ensures ReadAll(crc, AsCoded(checksum), file, START) == if checksum then ([], 1) else ([damaged], 0)
  {
    var mode, st, end := AsCoded(checksum), RState(0, |file|, true), RState(|file|, |file|, true);
    var x, bytes := Fragment(0, FULL, damaged), PhysBytes(crc, FULL, payload);
    assert file[..4] == bytes[..4] == CheckBytes(crc, Fragment(0, FULL, payload));
    assert file[4] == bytes[4] && file[5] == bytes[5] && file[6] == bytes[6] && file[HEADER..] == damaged;
    assert Reads(file, x);
    DifferentCheck(crc, payload, damaged);
    BufferedWhole(crc, mode, file, NONE);
    FileEnds(crc, mode, file, end);
    var out := ReadPhysical(crc, mode, file, st);
    ReadRecordStep(crc, mode, file, st, NONE, out);
    if checksum {
      StandsIff(crc, file, x);
      ReturnedIffStands(crc, mode, file, st, x, out);
    } else {
      UncheckedIsReturned(crc, mode, file, st, x);
      assert [damaged] + [] == [damaged];
    }
  }

  lemma DifferentCheck(crc: Checksum, payload: seq<Byte>, damaged: seq<Byte>)
    requires crc([FULL] + damaged) != crc([FULL] + payload)
    ensures CheckBytes(crc, Fragment(0, FULL, payload)) != CheckBytes(crc, Fragment(0, FULL, damaged))
  {
    var a, b := crc([FULL] + payload), crc([FULL] + damaged);
    Fixed32RoundTrip(Mask(a));
    Fixed32RoundTrip(Mask(b));
    UnmaskMask(a);
    UnmaskMask(b);
  }

  // ---------- What is reported ----------

  /** Everything ReadPhysicalRecord returns, up to and with the end of the file. */
  ghost function Outs(crc: Checksum, mode: Mode, file: seq<Byte>, st: RState): seq<Out>
    requires st.p <= st.e <= |file|
    decreases |file| - st.p
  {
    var out := ReadPhysical(crc, mode, file, st);
    if out.kind == EOF then [out] else [out] + Outs(crc, mode, file, out.st)
  }

  /** A First at j, and nothing but Middle since. */
  ghost predicate OpenSince(s: seq<Out>, i: nat, j: int)
    requires i <= |s|
  {
    0 <= j < i && s[j].kind == FIRST && forall m :: j < m < i ==> s[m].kind == MIDDLE
  }

  /** A record has been begun before position i and is not finished. */
  ghost predicate Unfinished(s: seq<Out>, i: nat)
    requires i <= |s|
  {
    exists j :: OpenSince(s, i, j)
  }

  /** One of which something would be lost. */
  ghost predicate HoldsSomething(s: seq<Out>, i: nat)
    requires i <= |s|
  {
    exists j, n :: OpenSince(s, i, j) && j <= n < i && s[n].payload != []
  }

  /** What comes at position i does not belong there: the middle or end of a record that was not begun, the start of
      another one, damage or the end of the file inside one, or a type that there is not. */
  ghost predicate Misplaced(s: seq<Out>, i: nat)
    requires i < |s|
  {
    match s[i].kind
    case 1 => HoldsSomething(s, i)
    case 2 => HoldsSomething(s, i)
    case 3 => !Unfinished(s, i)
    case 4 => !Unfinished(s, i)
    case 5 => Unfinished(s, i)
    case 6 => Unfinished(s, i)
    case _ => true
  }

  /** The bytes reported as unreadable, and what does not belong where it is, from position i on. */
  ghost function Count(s: seq<Out>, i: nat): nat
    decreases |s| - i
  {
    if i >= |s| then 0 else s[i].drops + (if Misplaced(s, i) then 1 else 0) + Count(s, i + 1)
  }

  ghost predicate Follows(acc: Acc, s: seq<Out>, i: nat)
    requires i <= |s|
  {
    (acc.inFragment <==> Unfinished(s, i)) && (acc.inFragment ==> (acc.scratch != [] <==> HoldsSomething(s, i)))
  }

  lemma {:induction false} OpenNext(s: seq<Out>, i: nat, n: nat)
    requires n == i + 1 <= |s|
    ensures s[i].kind == FIRST ==> Unfinished(s, n) && (HoldsSomething(s, n) <==> s[i].payload != [])
    ensures s[i].kind == MIDDLE ==> (Unfinished(s, n) <==> Unfinished(s, i))
    ensures s[i].kind == MIDDLE && Unfinished(s, i) ==>
      (HoldsSomething(s, n) <==> HoldsSomething(s, i) || s[i].payload != [])
    ensures s[i].kind != FIRST && s[i].kind != MIDDLE ==> !Unfinished(s, n)
  {
    if s[i].kind == FIRST {
      assert OpenSince(s, n, i);
      forall j | OpenSince(s, n, j) ensures j == i {}
    } else if s[i].kind == MIDDLE {
      forall j ensures OpenSince(s, n, j) <==> OpenSince(s, i, j) {}
      if Unfinished(s, i) && s[i].payload != [] {
        var j :| OpenSince(s, i, j);
        assert OpenSince(s, n, j) && j <= i < n;
      }
    } else {
      forall j ensures !OpenSince(s, n, j) { assert j < i ==> s[i].kind != MIDDLE; }
    }
  }

  lemma {:induction false} FollowsNext(acc: Acc, s: seq<Out>, i: nat, n: nat, act: Action)
    requires n == i + 1 <= |s| && Follows(acc, s, i) && act == Switch(acc, s[i].kind, s[i].payload)
    ensures act.Go? ==> Follows(act.acc, s, n)
    ensures act.Emit? ==> Follows(NONE, s, n)
    ensures act.reports == if Misplaced(s, i) then 1 else 0
  {
    OpenNext(s, i, n);
    assert HoldsSomething(s, i) ==> Unfinished(s, i);
    if act.Go? && s[i].kind == MIDDLE && acc.inFragment {
      assert acc.scratch + s[i].payload != [] <==> acc.scratch != [] || s[i].payload != [];
    }
  }

  lemma {:induction false} TotalIsCount(crc: Checksum, mode: Mode, file: seq<Byte>, st: RState, acc: Acc, s: seq<Out>,
                                        i: nat)
    requires st.p <= st.e <= |file| && i <= |s| && s[i..] == Outs(crc, mode, file, st) && Follows(acc, s, i)
    ensures Total(crc, mode, file, st, acc) == Count(s, i)
    decreases |file| - st.p
  {
    var out := ReadPhysical(crc, mode, file, st);
    var act := Switch(acc, out.kind, out.payload);
    assert s[i] == s[i..][0] == out;
    FollowsNext(acc, s, i, i + 1, act);
    if out.kind != EOF {
      assert s[i + 1..] == s[i..][1..] == Outs(crc, mode, file, out.st);
      TotalIsCount(crc, mode, file, out.st, if act.Go? then act.acc else NONE, s, i + 1);
    } else {
      assert |s| == i + 1;
    }
  }

  /** On any bytes at all, the reports are one for every unreadable stretch and one for everything that does not
      belong where it is. */
  lemma {:induction false} ReportsAre(crc: Checksum, mode: Mode, file: seq<Byte>, st: RState)
    requires st.p <= st.e <= |file|
    ensures ReadAll(crc, mode, file, st).1 == Count(Outs(crc, mode, file, st), 0)
  {
    TotalIsReports(crc, mode, file, st);
    assert Outs(crc, mode, file, st)[0..] == Outs(crc, mode, file, st);
    TotalIsCount(crc, mode, file, st, NONE, Outs(crc, mode, file, st), 0);
  }
}
