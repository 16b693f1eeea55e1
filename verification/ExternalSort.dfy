/** The k-way external merge sort: sorted runs, buffered run iterators, merge passes. */
module ExternalSort {
  import opened DbFormat
  import opened Arithmetic

  /** A fixed-size record, as its bytes. */
  type Row = string

  /** Comparison on the sort attributes: `less(a, b)` iff a goes strictly before b. */
  type Order = (Row, Row) -> bool

  ghost predicate Preorder(less: Order) {
    && (forall a, b :: less(a, b) ==> !less(b, a))
    && (forall a, b, c :: !less(b, a) && !less(c, b) ==> !less(c, a))
  }

  ghost predicate SortedBy(less: Order, s: seq<Row>) {
    forall i, j :: 0 <= i < j < |s| ==> !less(s[j], s[i])
  }

  /** Every aligned segment of `n` records is sorted. */
  ghost predicate SegmentsSorted(less: Order, s: seq<Row>, n: nat)
    requires n > 0
  {
    forall i, j :: 0 <= i < j < |s| && i / n == j / n ==> !less(s[j], s[i])
  }

  // ---------- Run iterators ----------

  lemma SlotOf(base: nat, q: nat, n: nat, pos: nat)
    requires n > 0 && base == q * n && base <= pos <= base + n
    ensures pos % n == if pos == base + n then 0 else pos - base
  {
    if pos == base + n {
      assert pos == (q + 1) * n + 0;
      DivMod(pos, q + 1, n, 0);
    } else {
      DivMod(pos, q, n, pos - base);
    }
  }

  /** Scans the run [startPos..startPos + runLength) of a file through a buffer of `recPerBuf` records.
      A record handed out is a slot of that buffer. */
  class RunIterator {
    const file: seq<Row>
    const startPos: nat
    const runLength: nat
    const recPerBuf: nat
    const readBuf: array<Row>
    var pos: nat
    var bufNo: nat

    constructor (file: seq<Row>, startPos: nat, runLength: nat, recPerBuf: nat)
      requires recPerBuf > 0 && (runLength > 0 ==> startPos + runLength <= |file|)
      ensures Valid() && fresh(readBuf) && pos == 0
      ensures this.file == file && this.startPos == startPos && this.runLength == runLength
    {
      this.file, this.startPos, this.runLength, this.recPerBuf := file, startPos, runLength, recPerBuf;
      readBuf := new Row[recPerBuf](_ => "");
      pos, bufNo := 0, 0;
    }

    ghost predicate Valid()
      reads this, readBuf
    {
      && readBuf.Length == recPerBuf > 0 && pos <= runLength
      && InFile()
      && (if bufNo == 0 then pos == 0
          else
            var base := (bufNo - 1) * recPerBuf;
            && base < pos <= base + recPerBuf
            && forall i :: 0 <= i < recPerBuf && startPos + base + i < |file| ==>
              readBuf[i] == file[startPos + base + i])
    }

    predicate InFile() { runLength > 0 ==> startPos + runLength <= |file| }

    function Run(): seq<Row>
      requires InFile()
    {
      if runLength == 0 then [] else file[startPos..startPos + runLength]
    }

    /** The slot holds the record handed out last. */
    ghost predicate Holds(slot: nat)
      reads this, readBuf
    {
      slot < readBuf.Length && 0 < pos <= runLength && startPos + pos <= |file|
        && readBuf[slot] == file[startPos + pos - 1]
    }

    predicate HasNext()
      reads this
    {
      pos < runLength
    }

    /** fseek and fread of the next `recPerBuf` records, or as many as the file still has. */
    method Fill(offset: nat)
      requires readBuf.Length == recPerBuf
      modifies readBuf
      ensures forall i :: 0 <= i < recPerBuf && offset + i < |file| ==> readBuf[i] == file[offset + i]
    {
      for i := 0 to recPerBuf
        invariant forall j :: 0 <= j < i && offset + j < |file| ==> readBuf[j] == file[offset + j]
      {
        if offset + i < |file| {
          readBuf[i] := file[offset + i];
        }
      }
    }

    method Next() returns (slot: nat)
      requires Valid() && HasNext()
      modifies this, readBuf
      ensures Valid() && pos == old(pos) + 1 && Holds(slot)
    {
      ghost var q := if bufNo == 0 then 0 else bufNo - 1;
      ghost var base := q * recPerBuf;
      SlotOf(base, q, recPerBuf, pos);
      slot := pos % recPerBuf;
      if slot == 0 {
        assert pos == bufNo * recPerBuf;
        Fill(startPos + bufNo * recPerBuf);
        bufNo := bufNo + 1;
      }
      pos := pos + 1;
    }
  }

  // ---------- One k-way merge ----------

  function Union(rest: seq<seq<Row>>): multiset<Row> {
    if rest == [] then multiset{} else multiset(rest[0]) + Union(rest[1..])
  }

  lemma {:induction false} UnionTake(rest: seq<seq<Row>>, m: nat, x: Row, tail: seq<Row>)
    requires m < |rest| && rest[m] == [x] + tail
    ensures Union(rest) == Union(rest[m := tail]) + multiset{x}
  {
    if m == 0 {
      assert rest[0 := tail][1..] == rest[1..];
    } else {
      UnionTake(rest[1..], m - 1, x, tail);
      assert rest[m := tail][1..] == rest[1..][m - 1 := tail];
    }
  }

  lemma {:induction false} UnionEmpty(rest: seq<seq<Row>>)
    requires forall i :: 0 <= i < |rest| ==> rest[i] == []
    ensures Union(rest) == multiset{}
  {
    if rest != [] { UnionEmpty(rest[1..]); }
  }

  ghost predicate AllSorted(less: Order, rest: seq<seq<Row>>) {
    forall i :: 0 <= i < |rest| ==> SortedBy(less, rest[i])
  }

  /** Nothing still to come goes before anything written. */
  ghost predicate Below(less: Order, out: seq<Row>, rest: seq<seq<Row>>) {
    forall i, j, k :: 0 <= i < |out| && 0 <= j < |rest| && 0 <= k < |rest[j]| ==> !less(rest[j][k], out[i])
  }

  /** Of the first `n` runs, `m` is the first whose head no other head goes before. */
  ghost predicate IsSmallest(less: Order, rest: seq<seq<Row>>, n: nat, m: nat)
    requires n <= |rest|
  {
    && m < n && rest[m] != []
    && (forall i :: 0 <= i < n && rest[i] != [] ==> !less(rest[i][0], rest[m][0]))
    && (forall i :: 0 <= i < m && rest[i] != [] ==> less(rest[m][0], rest[i][0]))
  }

  lemma SmallestStep(less: Order, rest: seq<seq<Row>>, n: nat, n': nat, m: nat)
    requires Preorder(less) && n < |rest| && n' == n + 1 && IsSmallest(less, rest, n, m)
    ensures IsSmallest(less, rest, n', if rest[n] != [] && less(rest[n][0], rest[m][0]) then n else m)
  {
    if rest[n] != [] && less(rest[n][0], rest[m][0]) {
      var x := rest[n][0];
      assert !less(rest[m][0], x);
      forall i | 0 <= i < n && rest[i] != [] ensures less(x, rest[i][0]) {
        assert !less(rest[i][0], rest[m][0]);
      }
    }
  }

  lemma HeadIsLeast(less: Order, rest: seq<seq<Row>>, m: nat, j: nat, k: nat)
    requires Preorder(less) && AllSorted(less, rest) && IsSmallest(less, rest, |rest|, m) && j < |rest| && k < |rest[j]|
    ensures !less(rest[j][k], rest[m][0])
  {
    assert SortedBy(less, rest[j]);
    assert k > 0 ==> !less(rest[j][k], rest[j][0]);
  }

  lemma WriteSmallest(less: Order, out: seq<Row>, rest: seq<seq<Row>>, m: nat, x: Row, tail: seq<Row>)
    requires Preorder(less) && AllSorted(less, rest) && IsSmallest(less, rest, |rest|, m) && rest[m] == [x] + tail
    requires SortedBy(less, out) && Below(less, out, rest)
    ensures SortedBy(less, out + [x]) && Below(less, out + [x], rest[m := tail]) && AllSorted(less, rest[m := tail])
  {
    assert x == rest[m][0];
    var rest', out' := rest[m := tail], out + [x];
    forall i, j, k | 0 <= i < |out'| && 0 <= j < |rest'| && 0 <= k < |rest'[j]| ensures !less(rest'[j][k], out'[i]) {
      var k' := if j == m then k + 1 else k;
      assert rest'[j][k] == rest[j][k'];
      if i == |out| { HeadIsLeast(less, rest, m, j, k'); }
    }
    assert forall i :: 0 <= i < |tail| ==> tail[i] == rest[m][i + 1];
  }

  /** What an iterator still has to give, counting the record handed out and not yet written. */
  ghost predicate Linked(it: RunIterator, slot: Option<nat>, rest: seq<Row>)
    reads it, it.readBuf
  {
    && it.Valid()
    && match slot
       case None => !it.HasNext() && rest == []
       case Some(x) => it.Holds(x) && rest == it.file[it.startPos + it.pos - 1..it.startPos + it.runLength]
  }

  ghost predicate AllLinked(its: seq<RunIterator>, slots: seq<Option<nat>>, rest: seq<seq<Row>>)
    reads its, set it | it in its :: it.readBuf
  {
    |its| == |slots| == |rest| && forall i :: 0 <= i < |its| ==> Linked(its[i], slots[i], rest[i])
  }

  ghost predicate Separate(its: seq<RunIterator>) {
    forall i, j :: 0 <= i < j < |its| ==> its[i] != its[j] && its[i].readBuf != its[j].readBuf
  }

  method Fetch(it: RunIterator) returns (slot: Option<nat>, ghost rest: seq<Row>)
    requires it.Valid()
    modifies it, it.readBuf
    ensures Linked(it, slot, rest)
    ensures rest == if old(it.HasNext()) then it.file[it.startPos + old(it.pos)..it.startPos + it.runLength] else []
  {
    if it.HasNext() {
      var x := it.Next();
      slot, rest := Some(x), it.file[it.startPos + it.pos - 1..it.startPos + it.runLength];
    } else {
      slot, rest := None, [];
    }
  }

  /** Not all of the current records are NULL. */
  predicate AnyLeft(slots: seq<Option<nat>>) { exists i :: 0 <= i < |slots| && slots[i].Some? }

  method FindSmallest(less: Order, its: seq<RunIterator>, slots: seq<Option<nat>>, ghost rest: seq<seq<Row>>)
    returns (m: nat)
    requires Preorder(less) && AllLinked(its, slots, rest) && AnyLeft(slots)
    ensures IsSmallest(less, rest, |rest|, m) && m < |slots| && slots[m].Some?
  {
    var found := false;
    m := 0;
    for i := 0 to |its|
      invariant !found ==> forall j :: 0 <= j < i ==> slots[j].None? && rest[j] == []
      invariant found ==> m < i && slots[m].Some? && IsSmallest(less, rest, i, m)
    {
      HeadIs(its[i], slots[i], rest[i]);
      if found {
        HeadIs(its[m], slots[m], rest[m]);
        SmallestStep(less, rest, i, i + 1, m);
      }
      if slots[i].Some? && (!found || less(its[i].readBuf[slots[i].value], its[m].readBuf[slots[m].value])) {
        m, found := i, true;
      }
    }
  }

  /** The slot handed out holds the head of what is left. */
  lemma HeadIs(it: RunIterator, slot: Option<nat>, rest: seq<Row>)
    requires Linked(it, slot, rest)
    ensures slot.Some? <==> rest != []
    ensures slot.Some? ==> slot.value < it.readBuf.Length && it.readBuf[slot.value] == rest[0]
  {}

  ghost predicate Fresh(its: seq<RunIterator>)
    reads its, set it | it in its :: it.readBuf
  {
    forall i :: 0 <= i < |its| ==> its[i].Valid() && its[i].pos == 0
  }

  ghost predicate AllInFile(its: seq<RunIterator>) { forall i :: 0 <= i < |its| ==> its[i].InFile() }

  ghost function RunsOf(its: seq<RunIterator>): (r: seq<seq<Row>>)
    requires AllInFile(its)
    ensures |r| == |its| && forall i :: 0 <= i < |its| ==> r[i] == its[i].Run()
  {
    seq(|its|, i requires 0 <= i < |its| => its[i].Run())
  }

  /** Load the first record of every run. */
  method Prime(its: seq<RunIterator>) returns (slots: seq<Option<nat>>, ghost rest: seq<seq<Row>>)
    requires Separate(its) && Fresh(its) && AllInFile(its)
    modifies its, set it | it in its :: it.readBuf
    ensures AllLinked(its, slots, rest) && rest == RunsOf(its)
  {
    ghost var runs := RunsOf(its);
    slots, rest := [], [];
    for i := 0 to |its|
      invariant |slots| == |rest| == i
      invariant forall j :: i <= j < |its| ==> its[j].Valid() && its[j].pos == 0
      invariant forall j :: 0 <= j < i ==> Linked(its[j], slots[j], rest[j]) && rest[j] == runs[j]
    {
      var slot, r := Fetch(its[i]);
      slots, rest := slots + [slot], rest + [r];
    }
  }

  /** Read the record at the head of run `m`, then fetch the next one over it. */
  method TakeHead(its: seq<RunIterator>, slots: seq<Option<nat>>, ghost rest: seq<seq<Row>>, m: nat)
    returns (x: Row, slot: Option<nat>, ghost tail: seq<Row>)
    requires Separate(its) && AllLinked(its, slots, rest) && m < |its| && slots[m].Some?
    modifies its[m], its[m].readBuf
    ensures AllLinked(its, slots[m := slot], rest[m := tail]) && rest[m] == [x] + tail
  {
    HeadIs(its[m], slots[m], rest[m]);
    x := its[m].readBuf[slots[m].value];
    slot, tail := Fetch(its[m]);
    assert rest[m] == [x] + tail;
    forall i | 0 <= i < |its| ensures Linked(its[i], slots[m := slot][i], rest[m := tail][i]) {
      assert i != m ==> its[i] != its[m] && its[i].readBuf != its[m].readBuf;
    }
  }

  /** kway_merge: write the smallest head until every run is exhausted. */
  method KWayMerge(less: Order, its: seq<RunIterator>) returns (out: seq<Row>)
    requires Preorder(less) && Separate(its) && Fresh(its) && AllInFile(its) && AllSorted(less, RunsOf(its))
    modifies its, set it | it in its :: it.readBuf
    ensures SortedBy(less, out) && multiset(out) == Union(RunsOf(its))
  {
    var slots, rest := Prime(its);
    out := WriteAll(less, its, slots, rest);
  }

  method WriteAll(less: Order, its: seq<RunIterator>, first: seq<Option<nat>>, ghost runs: seq<seq<Row>>)
    returns (out: seq<Row>)
    requires Preorder(less) && Separate(its) && AllLinked(its, first, runs) && AllSorted(less, runs)
    modifies its, set it | it in its :: it.readBuf
    ensures SortedBy(less, out) && multiset(out) == Union(runs)
  {
    var slots, rest := first, runs;
    out := [];
    while AnyLeft(slots)
      invariant AllLinked(its, slots, rest) && Merging(less, out, rest, Union(runs))
      decreases |Union(rest)|
    {
      var m := FindSmallest(less, its, slots, rest);
      var x, slot, tail := TakeHead(its, slots, rest, m);
      MergingStep(less, out, rest, Union(runs), m, x, tail);
      out, slots, rest := out + [x], slots[m := slot], rest[m := tail];
    }
    NothingLeft(its, slots, rest);
  }

  lemma NothingLeft(its: seq<RunIterator>, slots: seq<Option<nat>>, rest: seq<seq<Row>>)
    requires AllLinked(its, slots, rest) && !AnyLeft(slots)
    ensures Union(rest) == multiset{}
  {
    forall i | 0 <= i < |rest| ensures rest[i] == [] { HeadIs(its[i], slots[i], rest[i]); }
    UnionEmpty(rest);
  }

  ghost predicate Merging(less: Order, out: seq<Row>, rest: seq<seq<Row>>, total: multiset<Row>) {
    && AllSorted(less, rest) && SortedBy(less, out) && Below(less, out, rest)
    && multiset(out) + Union(rest) == total
  }

  lemma {:induction false} MergingStep(less: Order, out: seq<Row>, rest: seq<seq<Row>>, total: multiset<Row>, m: nat,
                                       x: Row, tail: seq<Row>)
    requires Preorder(less) && Merging(less, out, rest, total) && IsSmallest(less, rest, |rest|, m)
      && rest[m] == [x] + tail
    ensures Merging(less, out + [x], rest[m := tail], total) && |Union(rest[m := tail])| < |Union(rest)|
  {
    UnionTake(rest, m, x, tail);
    WriteSmallest(less, out, rest, m, x, tail);
  }

  // ---------- Segments ----------

  /** A sorted chunk after whole segments leaves every segment sorted. */
  lemma AppendSegment(less: Order, out: seq<Row>, chunk: seq<Row>, n: nat, q: nat)
    requires n > 0 && |out| == q * n && |chunk| <= n && SegmentsSorted(less, out, n) && SortedBy(less, chunk)
    ensures SegmentsSorted(less, out + chunk, n)
  {
    var s := out + chunk;
    forall i, j | 0 <= i < j < |s| && i / n == j / n ensures !less(s[j], s[i]) {
      DivAtLeast(i, n, q);
      DivAtLeast(j, n, q);
      if i >= |out| {
        assert s[i] == chunk[i - |out|] && s[j] == chunk[j - |out|];
      }
    }
  }

  /** One aligned segment, cut off at the end of the file. */
  function Cut(file: seq<Row>, a: nat, b: nat): seq<Row>
    requires a <= b
  {
    if |file| <= a then [] else if |file| <= b then file[a..] else file[a..b]
  }

  lemma CutSorted(less: Order, file: seq<Row>, n: nat, q: nat, a: nat, b: nat)
    requires n > 0 && SegmentsSorted(less, file, n) && a == q * n && b == a + n
    ensures SortedBy(less, Cut(file, a, b))
  {
    var c := Cut(file, a, b);
    forall i, j | 0 <= i < j < |c| ensures !less(c[j], c[i]) {
      DivMod(a + i, q, n, i);
      DivMod(a + j, q, n, j);
    }
  }

  lemma OneSegment(less: Order, s: seq<Row>, n: nat)
    requires n > 0 && |s| <= n && SegmentsSorted(less, s, n)
    ensures SortedBy(less, s)
  {
    forall i, j | 0 <= i < j < |s| ensures !less(s[j], s[i]) {
      DivMod(i, 0, n, i);
      DivMod(j, 0, n, j);
    }
  }

  ghost predicate Sorts(less: Order, sorter: seq<Row> -> seq<Row>) {
    forall s :: SortedBy(less, sorter(s)) && multiset(sorter(s)) == multiset(s)
  }

  lemma SameLength(a: seq<Row>, b: seq<Row>)
    requires multiset(a) == multiset(b)
    ensures |a| == |b|
  {
    assert |multiset(a)| == |a| && |multiset(b)| == |b|;
  }

  /** The first `at` records have been read, sorted in memory-sized chunks, and written. */
  ghost predicate ChunksWritten(less: Order, input: seq<Row>, n: nat, out: seq<Row>, at: nat, q: nat) {
    && n > 0 && at == |out| <= |input| && multiset(out) == multiset(input[..at])
    && (at < |input| ==> at == q * n) && SegmentsSorted(less, out, n)
  }

  lemma WriteChunk(less: Order, input: seq<Row>, n: nat, out: seq<Row>, at: nat, q: nat, rd: nat, chunk: seq<Row>,
                   at': nat, q': nat)
    requires ChunksWritten(less, input, n, out, at, q) && at < |input| && q' == q + 1 && at' == at + rd
    requires rd == if |input| - at < n then |input| - at else n
    requires SortedBy(less, chunk) && multiset(chunk) == multiset(input[at..at'])
    ensures ChunksWritten(less, input, n, out + chunk, at', q') && |chunk| == rd
  {
    SameLength(chunk, input[at..at']);
    AppendSegment(less, out, chunk, n, q);
    assert input[..at'] == input[..at] + input[at..at'];
    assert q' * n == q * n + n;
  }

  /** mk_runs: fill the memory, sort it, write it out; qsort is `sorter`. */
  method MkRuns(less: Order, sorter: seq<Row> -> seq<Row>, input: seq<Row>, runLength: nat)
    returns (out: seq<Row>, num: nat)
    requires Sorts(less, sorter)
    ensures num == |out|
    ensures runLength == 0 ==> out == []
    ensures runLength > 0 ==> multiset(out) == multiset(input) && SegmentsSorted(less, out, runLength)
  {
    out, num := [], 0;
    var at, rd := 0, if |input| < runLength then |input| else runLength;
    ghost var q := 0;
    while rd != 0
      invariant at == |out| == num <= |input| && rd == if |input| - at < runLength then |input| - at else runLength
      invariant if runLength == 0 then out == [] else ChunksWritten(less, input, runLength, out, at, q)
      decreases |input| - at
    {
      var chunk := sorter(input[at..at + rd]);
      WriteChunk(less, input, runLength, out, at, q, rd, chunk, at + rd, q + 1);
      out, num, at, q := out + chunk, num + rd, at + rd, q + 1;
      rd := if |input| - at < runLength then |input| - at else runLength;
    }
    if runLength > 0 { assert input[..at] == input; }
  }

  // ---------- One pass ----------

  lemma {:induction false} UnionSnoc(rest: seq<seq<Row>>, r: seq<Row>)
    ensures Union(rest + [r]) == Union(rest) + multiset(r)
  {
    var all := rest + [r];
    if rest == [] {
      assert all[1..] == [];
    } else {
      UnionSnoc(rest[1..], r);
      assert all[1..] == rest[1..] + [r];
    }
  }

  lemma CutJoin(file: seq<Row>, a: nat, b: nat, c: nat)
    requires a <= b <= c
    ensures Cut(file, a, c) == Cut(file, a, b) + Cut(file, b, c)
  {}

  function Left(file: seq<Row>, at: nat): nat { if |file| <= at then 0 else |file| - at }

  /** The runs between two aligned offsets. */
  ghost predicate Covers(less: Order, file: seq<Row>, a: nat, b: nat, runs: seq<seq<Row>>) {
    a <= b && AllSorted(less, runs) && Union(runs) == multiset(Cut(file, a, b))
  }

  lemma CoversStep(less: Order, file: seq<Row>, a: nat, b: nat, c: nat, runs: seq<seq<Row>>, r: seq<Row>, n: nat,
                   q: nat)
    requires n > 0 && SegmentsSorted(less, file, n) && Covers(less, file, a, b, runs)
    requires Multiple(b, q, n) && c == b + n && r == Cut(file, b, c)
    ensures Covers(less, file, a, c, runs + [r])
  {
    CutSorted(less, file, n, q, b, c);
    CutJoin(file, a, b, c);
    UnionSnoc(runs, r);
  }

  ghost predicate Multiple(b: nat, q: nat, n: nat) { b == q * n }

  lemma NextMultiple(q: nat, q': nat, n: nat, b: nat, c: nat)
    requires Multiple(b, q, n) && c == b + n && q' == q + 1
    ensures Multiple(c, q', n)
  {}

  /** How long the next run is, and how many records then remain. */
  method NextLength(left: nat, n: nat) returns (length: nat, unprocessed: nat)
    requires n > 0
    ensures length == (if left < n then left else n) && unprocessed == left - length
  {
    unprocessed := left;
    if unprocessed < n {
      length := unprocessed % n;
      unprocessed := n;
    } else {
      length := n;
    }
    unprocessed := unprocessed - n;
  }

  ghost predicate Opened(its: seq<RunIterator>, runs: seq<seq<Row>>)
    reads its, set it | it in its :: it.readBuf
  {
    && |its| == |runs| && Separate(its) && Fresh(its) && AllInFile(its)
    && forall i :: 0 <= i < |its| ==> its[i].Run() == runs[i]
  }

  lemma NextPiece(file: seq<Row>, a: nat, b: nat, n: nat, length: nat)
    requires b == a + n && length == if Left(file, a) < n then Left(file, a) else n
    ensures Cut(file, a, b) == if length == 0 then [] else file[a..a + length]
    ensures length > 0 ==> a + length <= |file|
    ensures Left(file, b) == Left(file, a) - length
  {}

  method OpenRun(its: seq<RunIterator>, ghost runs: seq<seq<Row>>, file: seq<Row>, at: nat, length: nat, recPerBuf: nat)
    returns (it: RunIterator, ghost r: seq<Row>)
    requires Opened(its, runs) && recPerBuf > 0 && (length > 0 ==> at + length <= |file|)
    ensures Opened(its + [it], runs + [r]) && r == if length == 0 then [] else file[at..at + length]
    ensures fresh(it) && fresh(it.readBuf)
  {
    it := new RunIterator(file, at, length, recPerBuf);
    r := it.Run();
  }

  ghost predicate Ready(less: Order, file: seq<Row>, offset: nat, at: nat, n: nat, p: nat, left: nat,
                        runs: seq<seq<Row>>) {
    Multiple(at, p, n) && left == Left(file, at) && Covers(less, file, offset, at, runs)
  }

  /** One more iterator, for the segment that starts at `at`. */
  method OpenNext(less: Order, file: seq<Row>, offset: nat, n: nat, at: nat, recPerBuf: nat, left: nat,
                  its: seq<RunIterator>, ghost runs: seq<seq<Row>>, ghost p: nat)
    returns (it: RunIterator, next: nat, unprocessed: nat, ghost more: seq<seq<Row>>, ghost p': nat)
    requires n > 0 && recPerBuf > 0 && SegmentsSorted(less, file, n)
    requires Opened(its, runs) && Ready(less, file, offset, at, n, p, left, runs)
    ensures Opened(its + [it], more) && Ready(less, file, offset, next, n, p', unprocessed, more) && p' == p + 1
    ensures fresh(it) && fresh(it.readBuf)
  {
    var length;
    ghost var r;
    length, unprocessed := NextLength(left, n);
    next, p' := at + n, p + 1;
    NextPiece(file, at, next, n, length);
    it, r := OpenRun(its, runs, file, at, length, recPerBuf);
    CoversStep(less, file, offset, at, next, runs, r, n, p);
    NextMultiple(p, p', n, at, next);
    more := runs + [r];
  }

  /** One iterator for each of the next k segments; past the end of the file they are empty. */
  method OpenRuns(less: Order, file: seq<Row>, offset: nat, n: nat, k: nat, recPerBuf: nat, left: nat, ghost q: nat,
                  ghost q': nat)
    returns (its: seq<RunIterator>, unprocessed: nat, ghost runs: seq<seq<Row>>, ghost end: nat)
    requires n > 0 && recPerBuf > 0 && left == Left(file, offset) && Multiple(offset, q, n)
      && SegmentsSorted(less, file, n)
    requires q' == q + k
    ensures Opened(its, runs) && Ready(less, file, offset, end, n, q', unprocessed, runs)
    ensures forall it :: it in its ==> fresh(it) && fresh(it.readBuf)
  {
    its, runs, unprocessed := [], [], left;
    CoversNone(less, file, offset);
    var at: nat := offset;
    ghost var p: nat := q;
    for i := 0 to k
      invariant p == q + i && Opened(its, runs) && Ready(less, file, offset, at, n, p, unprocessed, runs)
      invariant forall it :: it in its ==> fresh(it) && fresh(it.readBuf)
    {
      var it;
      it, at, unprocessed, runs, p := OpenNext(less, file, offset, n, at, recPerBuf, unprocessed, its, runs, p);
      its := its + [it];
    }
    end := at;
  }

  lemma CoversNone(less: Order, file: seq<Row>, a: nat)
    ensures Covers(less, file, a, a, [])
  {}

  /** The first `b` blocks of `w` records have been merged. */
  ghost predicate Merged(less: Order, file: seq<Row>, out: seq<Row>, offset: nat, w: nat, b: nat) {
    && w > 0 && Multiple(offset, b, w) && SegmentsSorted(less, out, w)
      && multiset(out) == multiset(Cut(file, 0, offset))
  }

  lemma MergedStep(less: Order, file: seq<Row>, out: seq<Row>, offset: nat, w: nat, b: nat, b': nat, block: seq<Row>,
                   end: nat)
    requires Merged(less, file, out, offset, w, b) && b' == b + 1 && end == offset + w && offset < |file|
    requires SortedBy(less, block) && multiset(block) == multiset(Cut(file, offset, end))
    ensures Merged(less, file, out + block, end, w, b')
  {
    SameLength(out, Cut(file, 0, offset));
    SameLength(block, Cut(file, offset, end));
    AppendSegment(less, out, block, w, b);
    CutJoin(file, 0, offset, end);
    NextMultiple(b, b', w, offset, end);
  }

  /** Offsets in blocks of k segments are offsets in segments. */
  lemma BlockOffset(offset: nat, q: nat, q': nat, n: nat, k: nat, w: nat, end: nat)
    requires Multiple(offset, q, n) && Multiple(end, q', n) && q' == q + k && w == n * k
    ensures end == offset + w
  {
    assert (q + k) * n == q * n + k * n;
  }

  lemma CutAll(file: seq<Row>, b: nat)
    requires |file| <= b
    ensures Cut(file, 0, b) == file
  {}

  /** Open k runs and merge them. */
  method MergeBlock(less: Order, file: seq<Row>, offset: nat, n: nat, k: nat, recPerBuf: nat, left: nat, ghost q: nat,
                    ghost q': nat, ghost w: nat, ghost end: nat)
    returns (block: seq<Row>, unprocessed: nat)
    requires Preorder(less) && n > 0 && recPerBuf > 0 && SegmentsSorted(less, file, n)
    requires left == Left(file, offset) && Multiple(offset, q, n) && q' == q + k && w == n * k && end == offset + w
    ensures SortedBy(less, block) && multiset(block) == multiset(Cut(file, offset, end))
    ensures unprocessed == Left(file, end) && Multiple(end, q', n)
  {
    ghost var runs, stop;
    var its;
    its, unprocessed, runs, stop := OpenRuns(less, file, offset, n, k, recPerBuf, left, q, q');
    BlockOffset(offset, q, q', n, k, w, stop);
    assert RunsOf(its) == runs;
    block := KWayMerge(less, its);
  }

  /** One merge pass: n-sorted segments become nk-sorted segments. */
  method MergePass(less: Order, file: seq<Row>, n: nat, k: nat, recPerBuf: nat, ghost w: nat) returns (out: seq<Row>)
    requires Preorder(less) && n > 0 && w == n * k > 0 && recPerBuf > 0 && SegmentsSorted(less, file, n)
    ensures SegmentsSorted(less, out, w) && multiset(out) == multiset(file)
  {
    out := [];
    var offset: nat, unprocessed := 0, |file|;
    ghost var q: nat, b: nat := 0, 0;
    while offset < |file|
      invariant Multiple(offset, q, n) && unprocessed == Left(file, offset) && Merged(less, file, out, offset, w, b)
      decreases |file| - offset
    {
      ghost var end, q', b' := offset + w, q + k, b + 1;
      var block, left := MergeBlock(less, file, offset, n, k, recPerBuf, unprocessed, q, q', w, end);
      MergedStep(less, file, out, offset, w, b, b', block, end);
      offset, unprocessed, out := offset + n * k, left, out + block;
      q, b := q', b';
    }
    CutAll(file, offset);
  }

  // ---------- The whole sort ----------

  lemma Grows(n: nat, k: nat)
    requires n > 0 && k > 1
    ensures n * k > n
  {
    assert n * k == n + n * (k - 1);
  }

  lemma BufferHoldsRecord(mem: nat, k: nat, recordSize: nat)
    requires recordSize > 0
    ensures mem / (k + 1) / recordSize > 0 <==> mem >= (k + 1) * recordSize
  {
    DivAtLeast(mem / (k + 1), recordSize, 1);
    DivAtLeast(mem, k + 1, recordSize);
  }

  /** msort's main. It stops with an error (None) exactly when a merge is needed and the memory is
      below k + 1 records; otherwise the output is a sorted permutation of the input exactly when one
      record fits in memory or there is nothing to sort. */
  method MSort(less: Order, sorter: seq<Row> -> seq<Row>, input: seq<Row>, mem: nat, recordSize: nat, k: nat)
    returns (r: Option<seq<Row>>)
    requires Preorder(less) && Sorts(less, sorter) && mem > 0 && k > 1 && recordSize > 0
    ensures r == None <==> recordSize <= mem < (k + 1) * recordSize && mem / recordSize < |input| * k
    ensures r.Some? ==> (SortedBy(less, r.value) && multiset(r.value) == multiset(input) <==>
      recordSize <= mem || input == [])
  {
    var runLength := mem / recordSize;
    DivAtLeast(mem, recordSize, 1);
    var file, num := MkRuns(less, sorter, input, runLength);
    if runLength > 0 { SameLength(file, input); }
    var recPerBuf := mem / (k + 1) / recordSize;
    BufferHoldsRecord(mem, k, recordSize);
    var n := runLength;
    while n < num * k
      invariant n >= runLength && (n > runLength ==> recPerBuf > 0)
      invariant if runLength == 0 then file == []
                else SegmentsSorted(less, file, n) && multiset(file) == multiset(input) && |file| == num
      decreases num * k - n
    {
      if recPerBuf < 1 {
        return None;
      }
      Grows(n, k);
      file := MergePass(less, file, n, k, recPerBuf, n * k);
      SameLength(file, input);
      n := n * k;
    }
    if runLength > 0 {
      assert num <= num * k by { Scale(k - 1, num); assert num * k == num + (k - 1) * num; }
      OneSegment(less, file, n);
    }
    TooLittleMemory(less, input, file, mem, recordSize);
    return Some(file);
  }

  /** When not even one record fits in memory, the input is silently lost. */
  lemma TooLittleMemory(less: Order, input: seq<Row>, out: seq<Row>, mem: nat, recordSize: nat)
    requires recordSize <= mem ==> SortedBy(less, out) && multiset(out) == multiset(input)
    requires mem < recordSize ==> out == []
    ensures SortedBy(less, out) && multiset(out) == multiset(input) <==> recordSize <= mem || input == []
  {
    if mem < recordSize && input != [] {
      assert input[0] in multiset(input);
    }
  }
}
