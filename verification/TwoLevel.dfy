/** TwoLevelIterator: an index over data blocks, any of which may be empty, walked as one list. */
module TwoLevel {
  import opened DbFormat
  import opened Versions
  import opened Iterators

  type Blocks = seq<seq<Entry>>

  function Flat(blocks: Blocks): seq<Entry> { if blocks == [] then []
                                              else Flat(blocks[..|blocks| - 1]) + blocks[|blocks| - 1] }

  /** Where block i begins in the flat list. */
  ghost function Start(blocks: Blocks, i: nat): nat
    requires i <= |blocks|
  {
    |Flat(blocks[..i])|
  }

  lemma StartNext(blocks: Blocks, i: nat, n: nat)
    requires n == i + 1 <= |blocks|
    ensures Start(blocks, n) == Start(blocks, i) + |blocks[i]|
  {
    assert blocks[..n][..i] == blocks[..i];
  }

  lemma {:induction false} FlatGrows(blocks: Blocks, i: nat, n: nat)
    requires i <= n <= |blocks|
    ensures Flat(blocks[..i]) <= Flat(blocks[..n])
    decreases n - i
  {
    if i < n {
      FlatGrows(blocks, i, n - 1);
      assert blocks[..n][..n - 1] == blocks[..n - 1];
    }
  }

  lemma EntryAt(blocks: Blocks, i: nat, j: nat, p: nat)
    requires i < |blocks| && j < |blocks[i]| && p == Start(blocks, i) + j
    ensures p < |Flat(blocks)| && Flat(blocks)[p] == blocks[i][j]
  {
    var n := i + 1;
    assert blocks[..n][..i] == blocks[..i] && blocks[..|blocks|] == blocks;
    FlatGrows(blocks, n, |blocks|);
    assert Flat(blocks[..n])[p] == blocks[i][j];
  }

  lemma EndIs(blocks: Blocks)
    ensures Start(blocks, |blocks|) == |Flat(blocks)|
  {
    assert blocks[..|blocks|] == blocks;
  }

  /** Every flat position is in some block. */
  lemma {:induction false} WhereIs(blocks: Blocks, p: nat, n: nat) returns (i: nat, j: nat)
    requires n <= |blocks| && p < Start(blocks, n)
    ensures i < n && j < |blocks[i]| && p == Start(blocks, i) + j
  {
    StartNext(blocks, n - 1, n);
    if p < Start(blocks, n - 1) {
      i, j := WhereIs(blocks, p, n - 1);
    } else {
      i, j := n - 1, p - Start(blocks, n - 1);
    }
  }

  /** Index keys bound their blocks from above and all later blocks from below. */
  ghost predicate Bounds(blocks: Blocks, seps: seq<InternalKey>) {
    && |seps| == |blocks|
    && (forall i, j :: 0 <= i < |blocks| && 0 <= j < |blocks[i]| ==> !Less(seps[i], blocks[i][j].Key()))
    && (forall i, x, y :: 0 <= i < x < |blocks| && 0 <= y < |blocks[x]| ==> Less(seps[i], blocks[x][y].Key()))
  }

  function FirstSep(seps: seq<InternalKey>, target: InternalKey): (i: nat)
    ensures i <= |seps| && (forall x :: 0 <= x < i ==> Less(seps[x], target)) && (i < |seps| ==> !Less(seps[i], target))
    decreases |seps|
  {
    if seps == [] || !Less(seps[0], target) then 0
    else
      var r := FirstSep(seps[1..], target);
      assert forall x :: 1 <= x < r + 1 ==> seps[x] == seps[1..][x - 1];
      r + 1
  }

  lemma SeekIs(es: seq<Entry>, target: InternalKey, p: nat)
    requires p <= |es| && (forall x :: 0 <= x < p ==>
      Less(es[x].Key(), target)) && (p < |es| ==> !Less(es[p].Key(), target))
    ensures SeekIndex(es, target) == p
  {
    var q := SeekIndex(es, target);
    assert 0 <= q <= |es|;
  }

  lemma LessTransitive(a: InternalKey, b: InternalKey, c: InternalKey)
    ensures Less(a, b) && Less(b, c) ==> Less(a, c)
    ensures !Less(b, a) && Less(b, c) ==> Less(a, c)
    ensures Less(a, b) && !Less(c, b) ==> Less(a, c)
  {}

  /** Seeking in the block the index names is seeking in the whole. */
  lemma SeekInBlock(blocks: Blocks, seps: seq<InternalKey>, target: InternalKey, i: nat, p: nat)
    requires Bounds(blocks, seps) && i == FirstSep(seps, target)
    requires p == if i < |blocks| then Start(blocks, i) + SeekIndex(blocks[i], target) else |Flat(blocks)|
    ensures SeekIndex(Flat(blocks), target) == p
  {
    var all := Flat(blocks);
    EndIs(blocks);
    if i < |blocks| {
      StartNext(blocks, i, i + 1);
      assert blocks[..|blocks|] == blocks;
      FlatGrows(blocks, i + 1, |blocks|);
    }
    forall x | 0 <= x < p ensures Less(all[x].Key(), target) {
      var b, y := WhereIs(blocks, x, |blocks|);
      EntryAt(blocks, b, y, x);
      BeforeTarget(blocks, seps, target, i, b, y, x, p);
    }
    if p < |all| {
      var b, y := WhereIs(blocks, p, |blocks|);
      EntryAt(blocks, b, y, p);
      NotBeforeTarget(blocks, seps, target, i, b, y, p);
    }
    SeekIs(all, target, p);
  }

  lemma {:induction false} StartGrows(blocks: Blocks, i: nat, n: nat)
    requires i <= n <= |blocks|
    ensures Start(blocks, i) <= Start(blocks, n)
  {
    FlatGrows(blocks, i, n);
  }

  lemma BeforeTarget(blocks: Blocks, seps: seq<InternalKey>, target: InternalKey, i: nat, b: nat, y: nat, x: nat,
                     p: nat)
    requires Bounds(blocks, seps) && i == FirstSep(seps, target) && b < |blocks| && y < |blocks[b]|
      && x == Start(blocks, b) + y < p
    requires p == if i < |blocks| then Start(blocks, i) + SeekIndex(blocks[i], target) else |Flat(blocks)|
    ensures Less(blocks[b][y].Key(), target)
  {
    if b < i {
      LessTransitive(blocks[b][y].Key(), seps[b], target);
    } else if b > i {
      StartNext(blocks, i, i + 1);
      StartGrows(blocks, i + 1, b);
    }
  }

  lemma NotBeforeTarget(blocks: Blocks, seps: seq<InternalKey>, target: InternalKey, i: nat, b: nat, y: nat, p: nat)
    requires Bounds(blocks, seps) && i == FirstSep(seps, target) && i < |blocks| && b < |blocks| && y < |blocks[b]|
    requires p == Start(blocks, b) + y && p == Start(blocks, i) + SeekIndex(blocks[i], target)
    ensures !Less(blocks[b][y].Key(), target)
  {
    if b < i {
      StartNext(blocks, b, b + 1);
      StartGrows(blocks, b + 1, i);
    } else if b > i {
      LessTransitive(seps[i], blocks[b][y].Key(), target);
    }
  }

  class TwoLevelIterator {
    const blocks: Blocks
    const seps: seq<InternalKey>
    /** The index iterator's position; |blocks| when it is not valid. */
    var index: nat
    /** None stands for NULL. `handle` is the block the data iterator was made for. */
    var data: Option<Cursor>
    var handle: nat

    constructor (blocks: Blocks, seps: seq<InternalKey>)
      requires Bounds(blocks, seps)
      ensures Valid() && this.blocks == blocks && Abs() == Cursor(Flat(blocks), |Flat(blocks)|)
    {
      this.blocks, this.seps, index, data, handle := blocks, seps, |blocks|, None, 0;
    }

    /** The data iterator, if there is one, ranges over the block the index names. */
    ghost predicate Base()
      reads this
    {
      && Bounds(blocks, seps) && index <= |blocks|
      && (data.Some? ==>
            && handle < |blocks| && data.value.entries == blocks[handle]
            && data.value.pos <= |blocks[handle]|)
    }

    ghost predicate InStep()
      reads this
    {
      Base() && (if index < |blocks| then data.Some? && handle == index else data == None)
    }

    ghost predicate Valid()
      reads this
    {
      Base() && (data.Some? ==> InStep() && data.value.Valid())
    }

    ghost function Abs(): Cursor
      requires Valid()
      reads this
    {
      Cursor(Flat(blocks), if data.Some? then Start(blocks, index) + data.value.pos else |Flat(blocks)|)
    }

    predicate IsValid()
      reads this
    {
      data.Some? && data.value.Valid()
    }

    lemma ValidIsInside()
      requires Valid()
      ensures IsValid() <==> Abs().Valid()
    {
      if data.Some? { EntryAt(blocks, index, data.value.pos, Start(blocks, index) + data.value.pos); }
    }

    function Current(): Entry
      requires Valid() && IsValid()
      reads this
      ensures Abs().Valid() && Current() == Abs().Current()
    {
      EntryAt(blocks, index, data.value.pos, Start(blocks, index) + data.value.pos);
      data.value.Current()
    }

    /** InitDataBlock: keep the data iterator if it is already the right one. */
    method InitDataBlock()
      requires Base()
      modifies this`data, this`handle
      ensures InStep()
    {
      if index >= |blocks| {
        data := None;
      } else if data.Some? && handle == index {
      } else {
        handle := index;
        data := Some(Cursor(blocks[index], |blocks[index]|));
      }
    }

    /** Position p is where the data iterator stands, its end counting as the start of the next block. */
    ghost predicate AtForward(p: nat)
      reads this
    {
      InStep() && p == if index < |blocks| then Start(blocks, index) + data.value.pos else |Flat(blocks)|
    }

    method SkipEmptyDataBlocksForward(ghost p: nat)
      requires AtForward(p)
      modifies this
      ensures Valid() && Abs() == Cursor(Flat(blocks), p)
    {
      while data == None || !data.value.Valid()
        invariant AtForward(p)
        decreases |blocks| - index, data
      {
        if index >= |blocks| {
          data := None;
          return;
        }
        StartNext(blocks, index, index + 1);
        EndIs(blocks);
        index := index + 1;
        InitDataBlock();
        if data.Some? { data := Some(data.value.SeekToFirst()); }
      }
    }

    /** The entry sought is the last one before position p. */
    ghost predicate AtBackward(p: nat)
      reads this
    {
      && InStep()
      && (index < |blocks| ==> p == if data.value.Valid() then Start(blocks, index) + data.value.pos + 1
                                    else Start(blocks, index))
      && (index >= |blocks| ==> p == 0)
    }

    method SkipEmptyDataBlocksBackward(ghost p: nat)
      requires AtBackward(p) && p <= |Flat(blocks)|
      modifies this
      ensures Valid() && Abs() == Cursor(Flat(blocks), if p == 0 then |Flat(blocks)| else p - 1)
    {
      while data == None || !data.value.Valid()
        invariant AtBackward(p)
        decreases if index < |blocks| then index + 1 else 0
      {
        if index >= |blocks| {
          data := None;
          return;
        }
        if index > 0 { StartNext(blocks, index - 1, index); }
        index := if index == 0 then |blocks| else index - 1;
        InitDataBlock();
        if data.Some? { data := Some(data.value.SeekToLast()); }
      }
    }

    method Seek(target: InternalKey)
      requires Valid()
      modifies this
      ensures Valid() && Abs() == old(Abs()).Seek(target)
    {
      index := FirstSep(seps, target);
      InitDataBlock();
      if data.Some? { data := Some(data.value.Seek(target)); }
      ghost var p := if index < |blocks| then Start(blocks, index) + SeekIndex(blocks[index], target)
                     else |Flat(blocks)|;
      SeekInBlock(blocks, seps, target, index, p);
      SkipEmptyDataBlocksForward(p);
    }

    method SeekToFirst()
      requires Valid()
      modifies this
      ensures Valid() && Abs() == old(Abs()).SeekToFirst()
    {
      index := 0;
      InitDataBlock();
      if data.Some? { data := Some(data.value.SeekToFirst()); }
      assert blocks[..0] == [];
      SkipEmptyDataBlocksForward(0);
    }

    method SeekToLast()
      requires Valid()
      modifies this
      ensures Valid() && Abs() == old(Abs()).SeekToLast()
    {
      index := if |blocks| == 0 then 0 else |blocks| - 1;
      InitDataBlock();
      if data.Some? { data := Some(data.value.SeekToLast()); }
      EndIs(blocks);
      if |blocks| > 0 { StartNext(blocks, |blocks| - 1, |blocks|); }
      SkipEmptyDataBlocksBackward(|Flat(blocks)|);
    }

    method Next()
      requires Valid() && IsValid()
      modifies this
      ensures Valid() && Abs() == Cursor(Flat(blocks), old(Abs()).pos + 1)
    {
      ghost var p := Start(blocks, index) + data.value.pos + 1;
      data := Some(data.value.Next());
      SkipEmptyDataBlocksForward(p);
    }

    method Prev()
      requires Valid() && IsValid()
      modifies this
      ensures Valid() && Abs() == Cursor(Flat(blocks), if old(Abs()).pos == 0 then |Flat(blocks)|
                                                       else old(Abs()).pos - 1)
    {
      ghost var p := Start(blocks, index) + data.value.pos;
      EntryAt(blocks, index, data.value.pos, p);
      data := Some(data.value.Prev());
      SkipEmptyDataBlocksBackward(p);
    }
  }

  /** Every program of calls observes what a cursor over all the blocks' entries observes. */
  method RunProgram(blocks: Blocks, seps: seq<InternalKey>, ops: seq<Op>) returns (seen: seq<Option<Entry>>)
    requires Bounds(blocks, seps)
    ensures seen == Trace(Cursor(Flat(blocks), |Flat(blocks)|), ops)
  {
    var it := new TwoLevelIterator(blocks, seps);
    ghost var start := Cursor(Flat(blocks), |Flat(blocks)|);
    seen := [];
    for i := 0 to |ops|
      invariant fresh(it) && it.Valid()
      invariant Trace(start, ops) == seen + Trace(it.Abs(), ops[i..])
    {
      TraceStep(it.Abs(), ops, i, i + 1, seen);
      var now := RunOne(it, ops[i]);
      seen := seen + [now];
    }
  }

  method RunOne(it: TwoLevelIterator, op: Op) returns (now: Option<Entry>)
    requires it.Valid()
    modifies it
    ensures it.Valid() && it.Abs() == Do(old(it.Abs()), op) && now == Observed(it.Abs())
  {
    it.ValidIsInside();
    match op {
      case ToFirst => it.SeekToFirst();
      case ToLast => it.SeekToLast();
      case To(k) => it.Seek(k);
      case Forth => if it.IsValid() { it.Next(); }
      case Back => if it.IsValid() { it.Prev(); }
    }
    it.ValidIsInside();
    now := if it.IsValid() then Some(it.Current()) else None;
  }
}
