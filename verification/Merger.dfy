/** MergingIterator: several sorted children walked as one, in both directions. */
module Merger {
  import opened DbFormat
  import opened Versions
  import opened Iterators

  datatype Direction = Forward | Reverse

  class MergingIterator {
    var children: seq<Cursor>
    /** Index of the current child, or -1 for NULL. */
    var current: int
    var direction: Direction
    ghost const lists: seq<seq<Entry>>
    ghost const merged: seq<Entry>
    /** The children are split at `mark` (forwards) or backed up to it (in reverse). */
    ghost var mark: nat

    constructor (lists: seq<seq<Entry>>)
      requires Mergeable(lists)
      ensures Valid() && this.lists == lists && merged == MergeAll(lists) && Abs() == Cursor(merged, |merged|)
    {
      children := seq(|lists|, i requires 0 <= i < |lists| => Cursor(lists[i], |lists[i]|));
      current, direction := -1, Forward;
      this.lists, merged := lists, MergeAll(lists);
      mark := |MergeAll(lists)|;
    }

    /** The children still range over the lists they were built with. */
    ghost predicate Shape()
      reads this
    {
      Union(lists, merged) && Over(children, lists)
    }

    /** The position in the sorted union of the children. */
    ghost function Abs(): Cursor
      reads this
    {
      Cursor(merged, Index())
    }

    ghost function Index(): nat
      reads this
    {
      if current == -1 || (mark == 0 && direction.Reverse?) then |merged|
      else if direction.Forward? then mark else mark - 1
    }

    ghost predicate Valid()
      reads this
    {
      && Shape() && mark <= |merged| && -1 <= current < |children|
      && (current >= 0 ==> children[current].Valid())
      && (current >= 0 && direction.Forward? ==>
            mark < |merged| && children[current].Current() == merged[mark] && AllSplit(children, merged, mark))
      && (current >= 0 && direction.Reverse? ==>
            0 < mark && children[current].Current() == merged[mark - 1] && AllBack(children, merged, mark))
    }

    predicate IsValid()
      reads this
      ensures Valid() ==> IsValid() == Abs().Valid() && (IsValid() || Index() == |merged|)
    {
      current != -1
    }

    /** key() and value() of the current child. */
    function Current(): Entry
      requires Valid() && IsValid()
      reads this
      ensures Current() == Abs().Current()
    {
      children[current].Current()
    }

    method FindSmallest()
      requires Shape()
      modifies this`current
      ensures IsSmallest(children, current)
    {
      var smallest := -1;
      for i := 0 to |children|
        invariant -1 <= smallest < i
        invariant smallest == -1 ==> forall j :: 0 <= j < i ==> !children[j].Valid()
        invariant smallest >= 0 ==> children[smallest].Valid()
        invariant smallest >= 0 ==> forall j :: 0 <= j < i && children[j].Valid() ==>
                      j == smallest || Ordered(children[smallest].Current(), children[j].Current())
      {
        if children[i].Valid() {
          if smallest == -1 {
            smallest := i;
          } else {
            DistinctChildren(lists, i, smallest, children[i].Current(), children[smallest].Current());
            if Less(children[i].Current().Key(), children[smallest].Current().Key()) {
              smallest := i;
            }
          }
        }
      }
      current := smallest;
    }

    method FindLargest()
      requires Shape()
      modifies this`current
      ensures IsLargest(children, current)
    {
      var largest := -1;
      for i := |children| downto 0
        invariant largest == -1 || i <= largest < |children|
        invariant largest == -1 ==> forall j :: i <= j < |children| ==> !children[j].Valid()
        invariant largest >= 0 ==> children[largest].Valid()
        invariant largest >= 0 ==> forall j :: i <= j < |children| && children[j].Valid() ==>
                      j == largest || Ordered(children[j].Current(), children[largest].Current())
      {
        if children[i].Valid() {
          if largest == -1 {
            largest := i;
          } else {
            DistinctChildren(lists, i, largest, children[i].Current(), children[largest].Current());
            if Less(children[largest].Current().Key(), children[i].Current().Key()) {
              largest := i;
            }
          }
        }
      }
      current := largest;
    }

    method SeekToFirst()
      requires Valid()
      modifies this
      ensures Valid() && Abs() == old(Abs()).SeekToFirst()
    {
      var before := children;
      children := seq(|before|, i requires 0 <= i < |before| => before[i].SeekToFirst());
      direction := Forward;
      FirstSplits(lists, merged, children);
      SettleForward(0);
    }

    method SeekToLast()
      requires Valid()
      modifies this
      ensures Valid() && Abs() == old(Abs()).SeekToLast()
    {
      var before := children;
      children := seq(|before|, i requires 0 <= i < |before| => before[i].SeekToLast());
      direction := Reverse;
      LastBacks(merged, children);
      SettleReverse(|merged|);
    }

    method Seek(target: InternalKey)
      requires Valid()
      modifies this
      ensures Valid() && Abs() == old(Abs()).Seek(target)
    {
      var before := children;
      children := seq(|before|, i requires 0 <= i < |before| => before[i].Seek(target));
      direction := Forward;
      SeekSplits(lists, merged, children, target);
      SettleForward(SeekIndex(merged, target));
    }

    method Next()
      requires Valid() && IsValid()
      modifies this
      ensures Valid() && Abs() == old(Abs()).Next()
    {
      ghost var n := Index();
      ghost var n' := n + 1;
      NextSplits(lists, merged, children, current, n, direction.Forward?, n');
      if direction != Forward {
        children := PositionAfter(children, current, children[current].Current());
        direction := Forward;
      }
      children := children[current := children[current].Next()];
      SettleForward(n');
    }

    /** The children stand on both sides of position n: the smallest of them is the n-th entry. */
    method SettleForward(ghost n: nat)
      requires Shape() && direction == Forward && n <= |merged| && AllSplit(children, merged, n)
      modifies this`current, this`mark
      ensures Valid() && Abs() == Cursor(merged, n)
    {
      FindSmallest();
      mark := n;
      SmallestIsNext(lists, merged, children, current, n);
    }

    method Prev()
      requires Valid() && IsValid()
      modifies this
      ensures Valid() && Abs() == old(Abs()).Prev()
    {
      ghost var n := Index();
      PrevBacks(lists, merged, children, current, n, direction.Reverse?);
      if direction != Reverse {
        children := PositionBefore(children, current, children[current].Current());
        direction := Reverse;
      }
      children := children[current := children[current].Prev()];
      SettleReverse(n);
    }

    /** The children stand just before position n: the largest of them is the entry before it. */
    method SettleReverse(ghost n: nat)
      requires Shape() && direction == Reverse && n <= |merged| && AllBack(children, merged, n)
      modifies this`current, this`mark
      ensures Valid() && Abs() == Cursor(merged, if n == 0 then |merged| else n - 1)
    {
      FindLargest();
      LargestIsPrevious(lists, merged, children, current, n);
      mark := n;
    }
  }

  /** Next()'s repositioning of a child that is not current. */
  function SeekPast(c: Cursor, k: Entry): Cursor {
    var c' := c.Seek(k.Key());
    if c'.Valid() && c'.Current().Key() == k.Key() then c'.Next() else c'
  }

  /** Prev()'s repositioning of a child that is not current. */
  function SeekBefore(c: Cursor, k: Entry): Cursor {
    var c' := c.Seek(k.Key());
    if c'.Valid() then c'.Prev() else c'.SeekToLast()
  }

  function PositionAfter(children: seq<Cursor>, current: nat, k: Entry): seq<Cursor> {
    seq(|children|, i requires 0 <= i < |children| => if i == current then children[i] else SeekPast(children[i], k))
  }

  function PositionBefore(children: seq<Cursor>, current: nat, k: Entry): seq<Cursor> {
    seq(|children|, i requires 0 <= i < |children| => if i == current then children[i] else SeekBefore(children[i], k))
  }

  // ---------- Positions relative to the union ----------

  /** `e` comes before position `n` of the union. */
  ghost predicate Before(merged: seq<Entry>, n: nat, e: Entry) { n >= |merged| || Ordered(e, merged[n]) }

  /** The child stands at its first entry from position `n` on. */
  ghost predicate SplitAt(c: Cursor, merged: seq<Entry>, n: nat) {
    && c.pos <= |c.entries|
    && (forall i :: 0 <= i < c.pos ==> Before(merged, n, c.entries[i]))
    && (forall i :: c.pos <= i < |c.entries| ==> !Before(merged, n, c.entries[i]))
  }

  /** The child stands at its last entry before position `n`, if it has one. */
  ghost predicate BackAt(c: Cursor, merged: seq<Entry>, n: nat) {
    && c.pos <= |c.entries|
    && (c.Valid() ==> Before(merged, n, c.Current()))
    && (forall i :: 0 <= i < |c.entries| && (c.Valid() ==> i > c.pos) ==> !Before(merged, n, c.entries[i]))
  }

  ghost predicate Union(lists: seq<seq<Entry>>, merged: seq<Entry>) { Mergeable(lists) && IsMerge(merged, lists) }

  /** Every child entry has a position in the union. */
  lemma PositionOf(lists: seq<seq<Entry>>, merged: seq<Entry>, j: nat, i: nat) returns (m: nat)
    requires Union(lists, merged) && j < |lists| && i < |lists[j]|
    ensures m < |merged| && merged[m] == lists[j][i]
    ensures forall n :: 0 <= n <= |merged| ==> (Before(merged, n, lists[j][i]) <==> m < n)
  {
    var e := lists[j][i];
    assert e in lists[j];
    assert InSome(lists, e);
    m :| 0 <= m < |merged| && merged[m] == e;
  }

  lemma HolderOf(lists: seq<seq<Entry>>, merged: seq<Entry>, m: nat) returns (j: nat, i: nat)
    requires Union(lists, merged) && m < |merged|
    ensures j < |lists| && i < |lists[j]| && lists[j][i] == merged[m]
  {
    assert merged[m] in merged;
    j :| 0 <= j < |lists| && merged[m] in lists[j];
    i :| 0 <= i < |lists[j]| && lists[j][i] == merged[m];
  }

  lemma DistinctChildren(lists: seq<seq<Entry>>, i: nat, j: nat, a: Entry, b: Entry)
    requires Mergeable(lists) && i < |lists| && j < |lists| && i != j && a in lists[i] && b in lists[j]
    ensures Less(a.Key(), b.Key()) <==> Ordered(a, b)
    ensures Ordered(a, b) || Ordered(b, a)
    ensures a.Key() != b.Key()
  {}

  ghost predicate AllSplit(children: seq<Cursor>, merged: seq<Entry>, n: nat) {
    forall j :: 0 <= j < |children| ==> SplitAt(children[j], merged, n)
  }

  ghost predicate AllBack(children: seq<Cursor>, merged: seq<Entry>, n: nat) {
    forall j :: 0 <= j < |children| ==> BackAt(children[j], merged, n)
  }

  ghost predicate IsSmallest(children: seq<Cursor>, current: int) {
    && -1 <= current < |children|
    && (current == -1 ==> forall j :: 0 <= j < |children| ==> !children[j].Valid())
    && (current >= 0 ==> children[current].Valid())
    && (current >= 0 ==> forall j :: 0 <= j < |children| && children[j].Valid() ==>
          j == current || Ordered(children[current].Current(), children[j].Current()))
  }

  ghost predicate IsLargest(children: seq<Cursor>, current: int) {
    && -1 <= current < |children|
    && (current == -1 ==> forall j :: 0 <= j < |children| ==> !children[j].Valid())
    && (current >= 0 ==> children[current].Valid())
    && (current >= 0 ==> forall j :: 0 <= j < |children| && children[j].Valid() ==>
          j == current || Ordered(children[j].Current(), children[current].Current()))
  }

  ghost predicate Over(children: seq<Cursor>, lists: seq<seq<Entry>>) {
    |children| == |lists| && forall j :: 0 <= j < |children| ==> children[j].entries == lists[j]
  }

  /** When every child is split at `n`, the smallest child entry is the union's entry `n`. */
  lemma SmallestIsNext(lists: seq<seq<Entry>>, merged: seq<Entry>, children: seq<Cursor>, current: int, n: nat)
    requires Union(lists, merged) && Over(children, lists) && n <= |merged|
    requires AllSplit(children, merged, n) && IsSmallest(children, current)
    ensures current == -1 <==> n == |merged|
    ensures current >= 0 ==> children[current].Current() == merged[n]
  {
    if current >= 0 {
      var m := PositionOf(lists, merged, current, children[current].pos);
      assert m >= n;
    }
    if n < |merged| {
      var j, i := HolderOf(lists, merged, n);
      var m := PositionOf(lists, merged, j, i);
      assert children[j].pos <= i;
      var p := PositionOf(lists, merged, j, children[j].pos);
    }
  }

  /** When every child is backed up to `n`, the largest child entry is the union's entry `n - 1`. */
  lemma LargestIsPrevious(lists: seq<seq<Entry>>, merged: seq<Entry>, children: seq<Cursor>, current: int, n: nat)
    requires Union(lists, merged) && Over(children, lists) && n <= |merged|
    requires AllBack(children, merged, n) && IsLargest(children, current)
    ensures current == -1 <==> n == 0
    ensures current >= 0 ==> children[current].Current() == merged[n - 1]
  {
    if current >= 0 {
      var m := PositionOf(lists, merged, current, children[current].pos);
      assert m < n;
    }
    if n > 0 {
      var j, i := HolderOf(lists, merged, n - 1);
      var m := PositionOf(lists, merged, j, i);
      assert children[j].Valid() && i <= children[j].pos;
      var p := PositionOf(lists, merged, j, children[j].pos);
    }
  }

  lemma FirstSplits(lists: seq<seq<Entry>>, merged: seq<Entry>, children: seq<Cursor>)
    requires Union(lists, merged) && Over(children, lists)
    requires forall j :: 0 <= j < |children| ==> children[j].pos == 0
    ensures AllSplit(children, merged, 0)
  {
    forall j, i | 0 <= j < |lists| && 0 <= i < |lists[j]| ensures !Before(merged, 0, lists[j][i]) {
      var m := PositionOf(lists, merged, j, i);
    }
  }

  lemma LastBacks(merged: seq<Entry>, children: seq<Cursor>)
    requires forall j :: 0 <= j < |children| ==> children[j] == children[j].SeekToLast()
    ensures AllBack(children, merged, |merged|)
  {
    forall j | 0 <= j < |children| ensures BackAt(children[j], merged, |merged|) {
      assert children[j] == children[j].SeekToLast();
    }
  }

  lemma SeekSplits(lists: seq<seq<Entry>>, merged: seq<Entry>, children: seq<Cursor>, target: InternalKey)
    requires Union(lists, merged) && Over(children, lists)
    requires forall j :: 0 <= j < |children| ==> children[j].pos == SeekIndex(lists[j], target)
    ensures AllSplit(children, merged, SeekIndex(merged, target))
  {
    forall j | 0 <= j < |children| ensures SplitAt(children[j], merged, SeekIndex(merged, target)) {
      SeekSplitsOne(lists, merged, j, target);
      assert children[j] == Cursor(lists[j], SeekIndex(lists[j], target));
    }
  }

  lemma SeekSplitsOne(lists: seq<seq<Entry>>, merged: seq<Entry>, j: nat, target: InternalKey)
    requires Union(lists, merged) && j < |lists|
    ensures SplitAt(Cursor(lists[j], SeekIndex(lists[j], target)), merged, SeekIndex(merged, target))
  {
    var n, p := SeekIndex(merged, target), SeekIndex(lists[j], target);
    forall i | 0 <= i < |lists[j]| ensures Before(merged, n, lists[j][i]) <==> i < p {
      var m := PositionOf(lists, merged, j, i);
    }
  }

  // ---------- Stepping forwards ----------

  /** Whatever direction it came from, Next() leaves every child at its first entry past the
      current one. */
  lemma NextSplits(lists: seq<seq<Entry>>, merged: seq<Entry>, children: seq<Cursor>, current: nat, n: nat,
                   forward: bool, n': nat)
    requires n' == n + 1 && Union(lists, merged) && Over(children, lists) && n < |merged| && current < |children|
    requires children[current].Valid() && children[current].Current() == merged[n]
    requires forward ==> AllSplit(children, merged, n)
    ensures var cs := if forward then children else PositionAfter(children, current, merged[n]);
      var cs' := cs[current := cs[current].Next()];
      Over(cs', lists) && AllSplit(cs', merged, n')
  {
    var cs := if forward then children else PositionAfter(children, current, merged[n]);
    assert merged[n] in lists[current];
    StepOffCurrent(lists, merged, children[current], current, n);
    forall j | 0 <= j < |cs| && j != current ensures SplitAt(cs[j], merged, n + 1) {
      if forward {
        OthersAlreadyPast(lists, merged, children[j], j, current, n);
      } else {
        SeekPastSplits(lists, merged, children[j], j, current, n);
      }
    }
  }

  lemma OthersAlreadyPast(lists: seq<seq<Entry>>, merged: seq<Entry>, c: Cursor, j: nat, current: nat, n: nat)
    requires Union(lists, merged) && j < |lists| && current < |lists| && j != current && n < |merged|
    requires merged[n] in lists[current] && c.entries == lists[j] && SplitAt(c, merged, n)
    ensures SplitAt(c, merged, n + 1)
  {
    forall i | 0 <= i < |c.entries| ensures Before(merged, n + 1, c.entries[i]) <==> Before(merged, n, c.entries[i]) {
      var m := PositionOf(lists, merged, j, i);
      assert c.entries[i] in lists[j];
    }
  }

  lemma SeekPastSplits(lists: seq<seq<Entry>>, merged: seq<Entry>, c: Cursor, j: nat, current: nat, n: nat)
    requires Union(lists, merged) && j < |lists| && current < |lists| && j != current && n < |merged|
    requires merged[n] in lists[current] && c.entries == lists[j]
    ensures SplitAt(SeekPast(c, merged[n]), merged, n + 1)
  {
    SeekAtEntry(lists, merged, j, n);
    var c' := c.Seek(merged[n].Key());
    if c'.Valid() {
      assert c'.Current() in lists[j];
      DistinctChildren(lists, j, current, c'.Current(), merged[n]);
    }
    OthersAlreadyPast(lists, merged, c', j, current, n);
  }

  lemma SeekAtEntry(lists: seq<seq<Entry>>, merged: seq<Entry>, j: nat, n: nat)
    requires Union(lists, merged) && j < |lists| && n < |merged|
    ensures SplitAt(Cursor(lists[j], SeekIndex(lists[j], merged[n].Key())), merged, n)
  {
    var p := SeekIndex(lists[j], merged[n].Key());
    forall i | 0 <= i < |lists[j]| ensures Before(merged, n, lists[j][i]) <==> i < p {
      var m := PositionOf(lists, merged, j, i);
    }
  }

  lemma StepOffCurrent(lists: seq<seq<Entry>>, merged: seq<Entry>, c: Cursor, current: nat, n: nat)
    requires Union(lists, merged) && current < |lists| && n < |merged| && c.entries == lists[current]
    requires c.Valid() && c.Current() == merged[n]
    ensures SplitAt(c.Next(), merged, n + 1)
  {
    forall i | 0 <= i < |c.entries| ensures Before(merged, n + 1, c.entries[i]) <==> i < c.pos + 1 {
      var m := PositionOf(lists, merged, current, i);
    }
  }

  // ---------- Stepping backwards ----------

  /** Prev() leaves every child at its last entry before the current one. */
  lemma PrevBacks(lists: seq<seq<Entry>>, merged: seq<Entry>, children: seq<Cursor>, current: nat, n: nat,
                  reverse: bool)
    requires Union(lists, merged) && Over(children, lists) && n < |merged| && current < |children|
    requires children[current].Valid() && children[current].Current() == merged[n]
    requires reverse ==> AllBack(children, merged, n + 1)
    ensures var cs := if reverse then children else PositionBefore(children, current, merged[n]);
      var cs' := cs[current := cs[current].Prev()];
      Over(cs', lists) && AllBack(cs', merged, n)
  {
    var cs := if reverse then children else PositionBefore(children, current, merged[n]);
    assert merged[n] in lists[current];
    StepBackCurrent(lists, merged, children[current], current, n);
    forall j | 0 <= j < |cs| && j != current ensures BackAt(cs[j], merged, n) {
      if reverse {
        OthersAlreadyBefore(lists, merged, children[j], j, current, n);
      } else {
        SeekBeforeBacks(lists, merged, children[j], j, n);
      }
    }
  }

  lemma OthersAlreadyBefore(lists: seq<seq<Entry>>, merged: seq<Entry>, c: Cursor, j: nat, current: nat, n: nat)
    requires Union(lists, merged) && j < |lists| && current < |lists| && j != current && n < |merged|
    requires merged[n] in lists[current] && c.entries == lists[j] && BackAt(c, merged, n + 1)
    ensures BackAt(c, merged, n)
  {
    forall i | 0 <= i < |c.entries| ensures Before(merged, n + 1, c.entries[i]) <==> Before(merged, n, c.entries[i]) {
      var m := PositionOf(lists, merged, j, i);
      assert c.entries[i] in lists[j];
    }
  }

  lemma SeekBeforeBacks(lists: seq<seq<Entry>>, merged: seq<Entry>, c: Cursor, j: nat, n: nat)
    requires Union(lists, merged) && j < |lists| && n < |merged| && c.entries == lists[j]
    ensures BackAt(SeekBefore(c, merged[n]), merged, n)
  {
    SeekAtEntry(lists, merged, j, n);
  }

  lemma StepBackCurrent(lists: seq<seq<Entry>>, merged: seq<Entry>, c: Cursor, current: nat, n: nat)
    requires Union(lists, merged) && current < |lists| && n < |merged| && c.entries == lists[current]
    requires c.Valid() && c.Current() == merged[n]
    ensures BackAt(c.Prev(), merged, n)
  {
    forall i | 0 <= i < |c.entries| ensures Before(merged, n, c.entries[i]) <==> i < c.pos {
      var m := PositionOf(lists, merged, current, i);
    }
  }

  // ---------- Whole programs ----------

  /** Every program of calls, across any number of direction switches, observes what a cursor over
      the sorted union of the children observes. */
  method RunProgram(lists: seq<seq<Entry>>, ops: seq<Op>) returns (seen: seq<Option<Entry>>)
    requires Mergeable(lists)
    ensures seen == Trace(Cursor(MergeAll(lists), |MergeAll(lists)|), ops)
  {
    var it := new MergingIterator(lists);
    ghost var start := Cursor(MergeAll(lists), |MergeAll(lists)|);
    seen := [];
    for i := 0 to |ops|
      invariant fresh(it) && it.Valid()
      invariant Trace(start, ops) == seen + Trace(it.Abs(), ops[i..])
    {
      TraceStep(it.Abs(), ops, i, i + 1, seen);
      var now := RunOne(it, ops[i]);
      seen := seen + [now];
    }
  }

  method RunOne(it: MergingIterator, op: Op) returns (now: Option<Entry>)
    requires it.Valid()
    modifies it
    ensures it.Valid() && it.Abs() == Do(old(it.Abs()), op) && now == Observed(it.Abs())
  {
    match op {
      case ToFirst => it.SeekToFirst();
      case ToLast => it.SeekToLast();
      case To(k) => it.Seek(k);
      case Forth => if it.IsValid() { it.Next(); }
      case Back => if it.IsValid() { it.Prev(); }
    }
    now := if it.IsValid() then Some(it.Current()) else None;
  }
}
