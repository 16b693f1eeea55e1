/** Iterators over sorted entries. A cursor is the specification every iterator is held to: a
    position in one sorted list. */
module Iterators {
  import opened DbFormat
  import opened Versions

  /** `pos == |entries|` stands for an iterator that is not Valid(). */
  datatype Cursor = Cursor(entries: seq<Entry>, pos: nat) {
    predicate Valid() { pos < |entries| }
    function Current(): Entry requires Valid() { entries[pos] }
    function SeekToFirst(): Cursor { Cursor(entries, 0) }
    function SeekToLast(): Cursor { Cursor(entries, if entries == [] then 0 else |entries| - 1) }
    function Next(): Cursor requires Valid() { Cursor(entries, pos + 1) }
    function Prev(): Cursor requires Valid() { Cursor(entries, if pos == 0 then |entries| else pos - 1) }
    /** The first entry at or after `target`. */
    function Seek(target: InternalKey): Cursor { Cursor(entries, SeekIndex(entries, target)) }
  }

  // ---------- Merging sorted lists ----------

  /** The children's entries, each held once: no entry twice, no sequence number twice per key. */
  ghost predicate Mergeable(children: seq<seq<Entry>>) {
    && (forall j :: 0 <= j < |children| ==> Sorted(children[j]))
    && (forall i, j, a, b ::
          0 <= i < |children| && 0 <= j < |children| && a in children[i] && b in children[j] ==>
          a.user == b.user && a.sn == b.sn ==> i == j && a == b)
  }

  ghost predicate InSome(children: seq<seq<Entry>>, e: Entry) {
    exists j :: 0 <= j < |children| && e in children[j]
  }

  /** `merged` is the sorted union of the children. */
  ghost predicate IsMerge(merged: seq<Entry>, children: seq<seq<Entry>>) {
    Sorted(merged) && forall e :: e in merged <==> InSome(children, e)
  }

  ghost predicate Apart(a: seq<Entry>, b: seq<Entry>) {
    forall x, y :: x in a && y in b ==> !(x.user == y.user && x.sn == y.sn)
  }

  function MergeTwo(a: seq<Entry>, b: seq<Entry>): (r: seq<Entry>)
    requires Sorted(a) && Sorted(b) && Apart(a, b)
    ensures Sorted(r)
    ensures forall e :: e in r <==> e in a || e in b
    decreases |a| + |b|
  {
    if a == [] then b
    else if b == [] then a
    else if Less(a[0].Key(), b[0].Key()) then
      TailApart(a, b);
      var r := MergeTwo(a[1..], b);
      PutInFront(a, b, r);
      [a[0]] + r
    else
      TailApart(b, a);
      var r := MergeTwo(a, b[1..]);
      PutInFront(b, a, r);
      [b[0]] + r
  }

  lemma TailApart(a: seq<Entry>, b: seq<Entry>)
    requires Apart(a, b) && a != []
    ensures Apart(a[1..], b) && Apart(b, a[1..])
  {
    assert a == [a[0]] + a[1..];
  }

  /** The smaller head goes in front of the merged rest. */
  lemma PutInFront(a: seq<Entry>, b: seq<Entry>, r: seq<Entry>)
    requires Sorted(a) && Sorted(b) && (Apart(a, b) || Apart(b, a)) && a != [] && b != []
    requires !Less(b[0].Key(), a[0].Key())
    requires Sorted(r) && forall e :: e in r <==> e in a[1..] || e in b
    ensures Sorted([a[0]] + r)
    ensures forall e :: e in [a[0]] + r <==> e in a || e in b
  {
    assert a == [a[0]] + a[1..] && a[0] in a && b[0] in b;
    forall i | 0 <= i < |r| ensures Ordered(a[0], r[i]) {
      assert r[i] in r;
      if r[i] in b {
        var j :| 0 <= j < |b| && b[j] == r[i];
      }
    }
  }

  function MergeAll(children: seq<seq<Entry>>): (r: seq<Entry>)
    requires Mergeable(children)
    ensures IsMerge(r, children)
  {
    if children == [] then []
    else
      var n := |children| - 1;
      var init := MergeAll(children[..n]);
      MergeStep(children, init);
      MergeTwo(init, children[n])
  }

  lemma MergeStep(children: seq<seq<Entry>>, init: seq<Entry>)
    requires Mergeable(children) && children != [] && IsMerge(init, children[..|children| - 1])
    ensures Apart(init, children[|children| - 1])
    ensures forall e :: InSome(children, e) <==> e in init || e in children[|children| - 1]
  {
    var n := |children| - 1;
    forall e | e in init ensures InSome(children, e) {
      var j :| 0 <= j < n && e in children[..n][j];
    }
    forall x, y | x in init && y in children[n] ensures !(x.user == y.user && x.sn == y.sn) {
      var j :| 0 <= j < n && x in children[..n][j];
      assert children[..n][j] == children[j];
    }
    forall e | InSome(children, e) ensures e in init || e in children[n] {
      var j :| 0 <= j < |children| && e in children[j];
      if j < n { assert e in children[..n][j]; }
    }
  }

  // ---------- Programs of iterator calls ----------

  datatype Op = ToFirst | ToLast | To(target: InternalKey) | Forth | Back

  /** A cursor over one sorted list. Next and Prev are only called when the cursor is valid. */
  ghost function Do(c: Cursor, op: Op): Cursor {
    match op
    case ToFirst => c.SeekToFirst()
    case ToLast => c.SeekToLast()
    case To(k) => c.Seek(k)
    case Forth => if c.Valid() then c.Next() else c
    case Back => if c.Valid() then c.Prev() else c
  }

  ghost function Observed(c: Cursor): Option<Entry> { if c.Valid() then Some(c.Current()) else None }

  ghost function Trace(c: Cursor, ops: seq<Op>): seq<Option<Entry>>
    decreases |ops|
  {
    if ops == [] then [] else [Observed(Do(c, ops[0]))] + Trace(Do(c, ops[0]), ops[1..])
  }

  lemma TraceStep(c: Cursor, ops: seq<Op>, i: nat, n: nat, seen: seq<Option<Entry>>)
    requires i < |ops| && n == i + 1
    ensures seen + Trace(c, ops[i..]) == (seen + [Observed(Do(c, ops[i]))]) + Trace(Do(c, ops[i]), ops[n..])
  {
    assert ops[i..][0] == ops[i] && ops[i..][1..] == ops[n..];
  }
}
