/** Sorted tables: data blocks, index keys that separate them, and lookups that trust the index. */
module Tables {
  import opened Coding
  import opened Filters
  import opened DbFormat

  // ---------- Bytewise order and shortened keys ----------

  /** Slice::compare(a, b) < 0. */
  predicate LexLess(a: Text, b: Text) {
    b != [] && (a == [] || a[0] < b[0] || (a[0] == b[0] && LexLess(a[1..], b[1..])))
  }

  lemma {:induction false} LexTransitive(a: Text, b: Text, c: Text)
    requires LexLess(a, b) && LexLess(b, c)
    ensures LexLess(a, c)
  {
    if a != [] && a[0] == b[0] && b[0] == c[0] { LexTransitive(a[1..], b[1..], c[1..]); }
  }

  lemma {:induction false} LexTotal(a: Text, b: Text)
    ensures LexLess(a, b) || a == b || LexLess(b, a)
    ensures !(LexLess(a, b) && LexLess(b, a)) && !LexLess(a, a)
  {
    if a != [] {
      LexTotal(a[1..], a[1..]);
      if b != [] && a[0] == b[0] {
        LexTotal(a[1..], b[1..]);
        assert a == [a[0]] + a[1..] && b == [b[0]] + b[1..];
      }
    }
  }

  /** After a common prefix of length n, the n-th bytes decide. */
  lemma {:induction false} LexAt(a: Text, b: Text, n: nat)
    requires n < |a| && n < |b| && a[..n] == b[..n]
    ensures a[n] < b[n] ==> LexLess(a, b)
    ensures a[n] > b[n] ==> LexLess(b, a)
  {
    if n > 0 {
      assert a[0] == a[..n][0] && b[0] == b[..n][0];
      assert a[1..][..n - 1] == a[..n][1..] && b[1..][..n - 1] == b[..n][1..];
      LexAt(a[1..], b[1..], n - 1);
    }
  }

  /** The keys agree up to byte n and differ there. */
  predicate FirstDiffer(a: Text, b: Text, n: nat) {
    n < |a| && n < |b| && a[n] != b[n] && forall i :: 0 <= i < n ==> a[i] == b[i]
  }

  /** There is a byte between the two at byte n. */
  predicate RoomAt(start: Text, limit: Text, n: nat) {
    FirstDiffer(start, limit, n) && start[n] < 255 && start[n] + 1 < limit[n]
  }

  /** What the two keys share and the next byte value, if that is still short of the limit. */
  ghost predicate ShortSeparator(start: Text, limit: Text, r: Text) {
    && (forall n: nat :: RoomAt(start, limit, n) ==> r == start[..n] + [start[n] + 1])
    && ((forall n: nat :: !RoomAt(start, limit, n)) ==> r == start)
  }

  /** BytewiseComparator::FindShortestSeparator. */
  method FindShortestSeparator(start: Text, limit: Text) returns (r: Text)
    ensures ShortSeparator(start, limit, r)
    ensures r == start || (LexLess(start, r) && LexLess(r, limit))
    ensures |r| <= |start|
  {
    var n := 0;
    while n < |start| && n < |limit| && start[n] == limit[n]
      invariant n <= |start| && n <= |limit| && start[..n] == limit[..n]
      invariant forall i :: 0 <= i < n ==> start[i] == limit[i]
    {
      n := n + 1;
    }
    r := start;
    if n < |start| && n < |limit| {
      var diff := start[n];
      if diff < 255 && diff + 1 < limit[n] {
        r := start[..n] + [diff + 1];
        LexAt(start, r, n);
        LexAt(r, limit, n);
        assert RoomAt(start, limit, n);
      }
    }
  }

  /** The first byte that can grow is at n. */
  predicate FirstBelow255(key: Text, n: nat) { n < |key| && key[n] != 255 && forall i :: 0 <= i < n ==> key[i] == 255 }

  /** The key up to the first byte that can grow, and that byte's next value. */
  ghost predicate ShortSuccessor(key: Text, r: Text) {
    && (forall n: nat :: FirstBelow255(key, n) ==> r == key[..n] + [key[n] + 1])
    && ((forall n: nat :: !FirstBelow255(key, n)) ==> r == key)
  }

  /** BytewiseComparator::FindShortSuccessor. */
  method FindShortSuccessor(key: Text) returns (r: Text)
    ensures ShortSuccessor(key, r)
    ensures r == key || LexLess(key, r)
    ensures |r| <= |key|
  {
    for i := 0 to |key|
      invariant forall j :: 0 <= j < i ==> key[j] == 255
    {
      if key[i] != 255 {
        r := key[..i] + [key[i] + 1];
        LexAt(key, r, i);
        assert FirstBelow255(key, i);
        return;
      }
    }
    r := key;
  }

  // ---------- Internal keys ----------

  datatype IKey = IKey(user: Text, tag: nat)

  const MAX_TAG: nat := 256 * MAX_SEQUENCE + 1

  predicate KLess(a: IKey, b: IKey) { LexLess(a.user, b.user) || (a.user == b.user && a.tag > b.tag) }

  lemma KLessTransitive(a: IKey, b: IKey, c: IKey)
    requires KLess(a, b) && KLess(b, c)
    ensures KLess(a, c)
  {
    if LexLess(a.user, b.user) && LexLess(b.user, c.user) { LexTransitive(a.user, b.user, c.user); }
  }

  lemma KLessTotal(a: IKey, b: IKey)
    ensures KLess(a, b) || a == b || KLess(b, a)
    ensures !(KLess(a, b) && KLess(b, a)) && !KLess(a, a)
  {
    LexTotal(a.user, b.user);
    LexTotal(a.user, a.user);
  }

  /** `sep` can stand in an index for a block that ends with `last` and is followed by `next`. */
  ghost predicate Separates(last: IKey, sep: IKey, next: IKey) {
    && !KLess(sep, last) && KLess(sep, next)
    && forall k :: KLess(last, k) && !KLess(sep, k) ==> LexLess(k.user, next.user)
  }

  /** What stands in the index is no longer than the key it stands for. */
  predicate NoLonger(sep: IKey, last: IKey) { |sep.user| <= |last.user| && (sep.tag == last.tag || sep.tag == MAX_TAG) }

  /** A shorter user key stands alone, before all its entries; otherwise the key stays as it is. */
  predicate Shortened(key: IKey, tmp: Text, r: IKey) { r == if |tmp| < |key.user| then IKey(tmp, MAX_TAG) else key }

  /** InternalKeyComparator::FindShortestSeparator. */
  method InternalSeparator(start: IKey, limit: IKey) returns (r: IKey)
    requires KLess(start, limit)
    ensures Separates(start, r, limit) && NoLonger(r, start)
    ensures exists tmp :: ShortSeparator(start.user, limit.user, tmp) && Shortened(start, tmp, r)
  {
    var tmp := FindShortestSeparator(start.user, limit.user);
    KLessTotal(start, start);
    if |tmp| < |start.user| && LexLess(start.user, tmp) {
      r := IKey(tmp, MAX_TAG);
      KLessTotal(start, r);
      forall k | KLess(start, k) && !KLess(r, k) ensures LexLess(k.user, limit.user) { GapBelow(k, r, limit); }
    } else {
      r := start;
    }
  }

  lemma GapBelow(k: IKey, r: IKey, limit: IKey)
    requires !KLess(r, k) && LexLess(r.user, limit.user)
    ensures LexLess(k.user, limit.user)
  {
    LexTotal(r.user, k.user);
    if LexLess(k.user, r.user) { LexTransitive(k.user, r.user, limit.user); }
  }

  /** InternalKeyComparator::FindShortSuccessor. */
  method InternalSuccessor(key: IKey) returns (r: IKey)
    ensures !KLess(r, key) && NoLonger(r, key)
    ensures exists tmp :: ShortSuccessor(key.user, tmp) && Shortened(key, tmp, r)
  {
    var tmp := FindShortSuccessor(key.user);
    r := key;
    KLessTotal(key, key);
    if |tmp| < |key.user| && LexLess(key.user, tmp) {
      r := IKey(tmp, MAX_TAG);
      KLessTotal(key, r);
    }
  }

  // ---------- Tables ----------

  datatype Item = Item(key: IKey, value: Text)

  datatype DataBlock = DataBlock(offset: nat, items: seq<Item>)

  ghost predicate Increasing(items: seq<Item>) { forall i, j :: 0 <= i < j < |items| ==>
    KLess(items[i].key, items[j].key) }

  function Last(b: DataBlock): IKey
    requires b.items != []
  {
    b.items[|b.items| - 1].key
  }

  /** Every block is sorted and nonempty, and its index key separates it from the next one. */
  ghost predicate Indexed(blocks: seq<DataBlock>, index: seq<IKey>) {
    && |index| == |blocks|
    && (forall i :: 0 <= i < |blocks| ==>
      blocks[i].items != [] && Increasing(blocks[i].items) && !KLess(index[i], Last(blocks[i])))
    && (forall i :: 0 < i < |blocks| ==> Separates(Last(blocks[i - 1]), index[i - 1], blocks[i].items[0].key))
  }

  /** The filter lists hold the user keys of each block, under the block's offset. */
  ghost predicate Listed(blocks: seq<DataBlock>, lists: seq<seq<Text>>, keys: seq<Text>) {
    forall i, j :: 0 <= i < |blocks| && 0 <= j < |blocks[i].items| ==>
      blocks[i].items[j].key.user in KeysAt(lists, keys, blocks[i].offset / FILTER_BASE)
  }

  /** The first item of the table at or after `k` is item j of block i. */
  ghost predicate FirstAt(blocks: seq<DataBlock>, k: IKey, i: nat, j: nat) {
    && i < |blocks| && j < |blocks[i].items| && !KLess(blocks[i].items[j].key, k)
    && (forall y :: 0 <= y < j ==> KLess(blocks[i].items[y].key, k))
    && (forall x, y :: 0 <= x < i && 0 <= y < |blocks[x].items| ==> KLess(blocks[x].items[y].key, k))
  }

  /** Block::Iter::Seek on the index block and on a data block. */
  method SeekIndex(index: seq<IKey>, k: IKey) returns (i: nat)
    ensures i <= |index| && (forall x :: 0 <= x < i ==> KLess(index[x], k)) && (i < |index| ==> !KLess(index[i], k))
  {
    i := 0;
    while i < |index| && KLess(index[i], k)
      invariant i <= |index| && forall x :: 0 <= x < i ==> KLess(index[x], k)
    {
      i := i + 1;
    }
  }

  method SeekBlock(items: seq<Item>, k: IKey) returns (j: nat)
    ensures j <= |items| && (forall y :: 0 <= y < j ==>
      KLess(items[y].key, k)) && (j < |items| ==> !KLess(items[j].key, k))
  {
    j := 0;
    while j < |items| && KLess(items[j].key, k)
      invariant j <= |items| && forall y :: 0 <= y < j ==> KLess(items[y].key, k)
    {
      j := j + 1;
    }
  }

  /** Blocks whose index keys come before k lie wholly before k. */
  lemma BlockBefore(blocks: seq<DataBlock>, index: seq<IKey>, k: IKey, x: nat, y: nat)
    requires Indexed(blocks, index) && x < |blocks| && KLess(index[x], k) && y < |blocks[x].items|
    ensures KLess(blocks[x].items[y].key, k)
  {
    var item, last := blocks[x].items[y].key, Last(blocks[x]);
    KLessTotal(index[x], last);
    if last != index[x] { KLessTransitive(last, index[x], k); }
    if y < |blocks[x].items| - 1 { KLessTransitive(item, last, k); }
  }

  /** When the indexed block has nothing at or after k, no item of k's user key is at or after k. */
  lemma NothingInGap(blocks: seq<DataBlock>, index: seq<IKey>, k: IKey, i: nat, b: nat, j: nat)
    requires Indexed(blocks, index) && i < |blocks| && !KLess(index[i], k) && KLess(Last(blocks[i]), k)
    requires FirstAt(blocks, k, b, j) && forall y :: 0 <= y < |blocks[i].items| ==> KLess(blocks[i].items[y].key, k)
    requires forall x, y :: 0 <= x < i && 0 <= y < |blocks[x].items| ==> KLess(blocks[x].items[y].key, k)
    ensures blocks[b].items[j].key.user != k.user
  {
    var next := i + 1;
    assert b >= next;
    assert Separates(Last(blocks[i]), index[i], blocks[next].items[0].key);
    var first := blocks[next].items[0].key;
    LexTotal(k.user, first.user);
    assert KLess(k, first);
    KLessTotal(k, first);
    assert b == next && j == 0;
  }

  ghost predicate AllBefore(blocks: seq<DataBlock>, k: IKey, i: nat) {
    i <= |blocks| && forall x, y :: 0 <= x < i && 0 <= y < |blocks[x].items| ==> KLess(blocks[x].items[y].key, k)
  }

  /** The first item at or after k, if it has k's user key: what a linear search looks for. */
  ghost predicate LinearFinds(blocks: seq<DataBlock>, k: IKey, item: Item) {
    item.key.user == k.user && exists i: nat, j: nat :: FirstAt(blocks, k, i, j) && blocks[i].items[j] == item
  }

  /** If a linear search finds the user key, it finds it in the block the index names. */
  lemma OnlyIndexedBlock(blocks: seq<DataBlock>, index: seq<IKey>, k: IKey, i: nat, b: nat, j: nat)
    requires Indexed(blocks, index) && i < |blocks| && AllBefore(blocks, k, i) && !KLess(index[i], k)
    requires FirstAt(blocks, k, b, j) && blocks[b].items[j].key.user == k.user
    ensures b == i
  {
    if i < b {
      NothingInGap(blocks, index, k, i, b, j);
    }
  }

  lemma FoundInBlock(blocks: seq<DataBlock>, index: seq<IKey>, k: IKey, i: nat, j: nat, item: Item)
    requires Indexed(blocks, index) && AllBefore(blocks, k, i) && i < |blocks| && !KLess(index[i], k)
    requires FirstAt(blocks, k, i, j)
    ensures LinearFinds(blocks, k, item) <==> item.key.user == k.user && item == blocks[i].items[j]
  {
    if LinearFinds(blocks, k, item) {
      var b: nat, y: nat :| FirstAt(blocks, k, b, y) && blocks[b].items[y] == item;
      OnlyIndexedBlock(blocks, index, k, i, b, y);
      assert y == j;
    }
  }

  lemma NotFound(blocks: seq<DataBlock>, index: seq<IKey>, k: IKey, i: nat, item: Item)
    requires Indexed(blocks, index) && AllBefore(blocks, k, i) && (i < |blocks| ==> !KLess(index[i], k))
    requires i < |blocks| ==> forall y :: 0 <= y < |blocks[i].items| ==>
      KLess(blocks[i].items[y].key, k) || blocks[i].items[y].key.user != k.user
    ensures !LinearFinds(blocks, k, item)
  {
    if LinearFinds(blocks, k, item) {
      var b: nat, y: nat :| FirstAt(blocks, k, b, y) && blocks[b].items[y] == item;
      if i < |blocks| { OnlyIndexedBlock(blocks, index, k, i, b, y); }
    }
  }

  lemma DeniedMeansAbsent(policy: Policy, blocks: seq<DataBlock>, lists: seq<seq<Text>>, i: nat, user: Text)
    requires NoFalseNegatives(policy) && Listed(blocks, lists, []) && i < |blocks|
    requires var x := blocks[i].offset / FILTER_BASE; x < |lists| && !policy.may(user, FilterOf(policy, lists[x]))
    ensures forall y :: 0 <= y < |blocks[i].items| ==> blocks[i].items[y].key.user != user
  {
    forall y | 0 <= y < |blocks[i].items| ensures blocks[i].items[y].key.user != user {
      NoKeyDenied(policy, lists, blocks[i].offset / FILTER_BASE, blocks[i].items[y].key.user);
    }
  }

  /** Table::InternalGet: what is handed to the saver, if anything. An item of the sought user key is
      handed over exactly when a linear search of the whole table finds it. */
  method InternalGet(policy: Policy, blocks: seq<DataBlock>, index: seq<IKey>, filter: Option<seq<Byte>>, k: IKey,
                     ghost lists: seq<seq<Text>>)
    returns (r: Option<Item>)
    requires Indexed(blocks, index) && NoFalseNegatives(policy)
    requires filter.Some? ==> IsFilterBlock(policy, filter.value, lists) && Listed(blocks, lists, [])
    ensures forall item :: LinearFinds(blocks, k, item) <==> r == Some(item) && item.key.user == k.user
  {
    var i := SeekIndex(index, k);
    forall x, y | 0 <= x < i && 0 <= y < |blocks[x].items| ensures KLess(blocks[x].items[y].key, k) {
      BlockBefore(blocks, index, k, x, y);
    }
    assert AllBefore(blocks, k, i);
    r := None;
    if i < |index| {
      var may := true;
      if filter.Some? {
        may := BlockKeyMayMatch(policy, filter.value, blocks[i].offset, k.user, lists);
      }
      if may {
        var j := SeekBlock(blocks[i].items, k);
        if j < |blocks[i].items| {
          r := Some(blocks[i].items[j]);
          forall item ensures LinearFinds(blocks, k, item) <==> r == Some(item) && item.key.user == k.user {
            FoundInBlock(blocks, index, k, i, j, item);
          }
          return;
        }
      } else {
        DeniedMeansAbsent(policy, blocks, lists, i, k.user);
      }
    }
    forall item ensures !LinearFinds(blocks, k, item) { NotFound(blocks, index, k, i, item); }
  }

  // ---------- Building ----------

  /** Blocks written so far; the index key of the last one may still be open. */
  ghost predicate Written(blocks: seq<DataBlock>, index: seq<IKey>, open: bool) {
    && (open ==> blocks != []) && |index| == |blocks| - (if open then 1 else 0)
    && (forall i :: 0 <= i < |blocks| ==> blocks[i].items != [] && Increasing(blocks[i].items))
    && (forall i :: 0 <= i < |index| ==> !KLess(index[i], Last(blocks[i])) && NoLonger(index[i], Last(blocks[i])))
    && (forall i :: 0 < i < |blocks| ==> Separates(Last(blocks[i - 1]), index[i - 1], blocks[i].items[0].key))
  }

  /** The block being filled continues the table. */
  ghost predicate Continues(blocks: seq<DataBlock>, index: seq<IKey>, items: seq<Item>, lastKey: IKey) {
    && Increasing(items) && (items != [] ==> lastKey == items[|items| - 1].key)
    && (items == [] && blocks != [] && blocks[|blocks| - 1].items != [] ==> lastKey == Last(blocks[|blocks| - 1]))
    && (items != [] && blocks != [] && blocks[|blocks| - 1].items != [] && |index| == |blocks| ==>
          Separates(Last(blocks[|blocks| - 1]), index[|index| - 1], items[0].key))
  }

  /** The user keys of some items are all filed under one range. */
  ghost predicate Filed(items: seq<Item>, keys: seq<Text>) { forall j :: 0 <= j < |items| ==>
    items[j].key.user in keys }

  ghost predicate AllNoLonger(blocks: seq<DataBlock>, index: seq<IKey>) {
    |index| == |blocks| && forall i :: 0 <= i < |blocks| ==>
      blocks[i].items != [] && NoLonger(index[i], Last(blocks[i]))
  }

  lemma CloseIndex(blocks: seq<DataBlock>, index: seq<IKey>, sep: IKey, key: IKey)
    requires Written(blocks, index, true) && Separates(Last(blocks[|blocks| - 1]), sep, key)
    requires NoLonger(sep, Last(blocks[|blocks| - 1]))
    ensures Written(blocks, index + [sep], false)
  {}

  lemma EndIndex(blocks: seq<DataBlock>, index: seq<IKey>, sep: IKey)
    requires Written(blocks, index, true) && !KLess(sep, Last(blocks[|blocks| - 1]))
    requires NoLonger(sep, Last(blocks[|blocks| - 1]))
    ensures Indexed(blocks, index + [sep]) && AllNoLonger(blocks, index + [sep])
  {}

  lemma ContinueWith(blocks: seq<DataBlock>, index: seq<IKey>, items: seq<Item>, lastKey: IKey, item: Item)
    requires Written(blocks, index, false) && Increasing(items) && (items != [] ==>
      lastKey == items[|items| - 1].key && KLess(lastKey, item.key))
    requires items == [] && blocks != [] ==> Separates(Last(blocks[|blocks| - 1]), index[|index| - 1], item.key)
    requires items != [] ==> Continues(blocks, index, items, lastKey)
    ensures Continues(blocks, index, items + [item], item.key)
  {
    var all := items + [item];
    forall i, j | 0 <= i < j < |all| ensures KLess(all[i].key, all[j].key) {
      if j == |items| && i < |items| - 1 { KLessTransitive(items[i].key, lastKey, item.key); }
    }
  }

  lemma FileMore(blocks: seq<DataBlock>, items: seq<Item>, lists: seq<seq<Text>>, keys: seq<Text>, item: Item)
    requires Listed(blocks, lists, keys) && Filed(items, keys)
    ensures Listed(blocks, lists, keys + [item.key.user]) && Filed(items + [item], keys + [item.key.user])
  {
    forall i, j | 0 <= i < |blocks| && 0 <= j < |blocks[i].items|
      ensures blocks[i].items[j].key.user in KeysAt(lists, keys + [item.key.user], blocks[i].offset / FILTER_BASE)
    {
      assert blocks[i].items[j].key.user in KeysAt(lists, keys, blocks[i].offset / FILTER_BASE);
    }
  }

  lemma ListedSame(blocks: seq<DataBlock>, lists: seq<seq<Text>>, keys: seq<Text>, lists': seq<seq<Text>>,
                   keys': seq<Text>)
    requires Listed(blocks, lists, keys) && forall i: nat :: KeysAt(lists', keys', i) == KeysAt(lists, keys, i)
    ensures Listed(blocks, lists', keys')
  {}

  /** A block written out is one more block of the table. */
  lemma FlushKeeps(blocks: seq<DataBlock>, index: seq<IKey>, items: seq<Item>, lastKey: IKey, offset: nat,
                   lists: seq<seq<Text>>, keys: seq<Text>, b: DataBlock)
    requires Written(blocks, index, false) && Continues(blocks, index, items, lastKey) && items != []
      && b == DataBlock(offset, items)
    requires |lists| == offset / FILTER_BASE && Listed(blocks, lists, keys) && Filed(items, keys)
    ensures Written(blocks + [b], index, true) && Continues(blocks + [b], index, [], lastKey)
      && Listed(blocks + [b], lists, keys)
  {
    var all := blocks + [b];
    forall i, j | 0 <= i < |all| && 0 <= j < |all[i].items|
      ensures all[i].items[j].key.user in KeysAt(lists, keys, all[i].offset / FILTER_BASE)
    {
      if i < |blocks| { assert all[i] == blocks[i]; } else { assert items[j].key.user in keys; }
    }
  }

  class TableBuilder {
    const policy: Policy
    const filter: FilterBlockBuilder
    var blocks: seq<DataBlock>
    var index: seq<IKey>
    var items: seq<Item>
    var pending: bool
    var lastKey: IKey
    var offset: nat

    constructor (policy: Policy)
      ensures Valid() && fresh(filter) && this.policy == policy && blocks == [] && items == [] && offset == 0
      ensures filter.AllKeys() == []
    {
      this.policy := policy;
      filter := new FilterBlockBuilder(policy);
      blocks, index, items, pending, lastKey, offset := [], [], [], false, IKey([], 0), 0;
    }

    ghost predicate Valid()
      reads this, filter
    {
      && Written(blocks, index, pending) && (pending ==> items == []) && (items == [] && blocks != [] ==> pending)
      && Continues(blocks, index, items, lastKey)
      && filter.Valid() && filter.policy == policy && |filter.lists| == offset / FILTER_BASE
      && Listed(blocks, filter.lists, filter.keys) && Filed(items, filter.keys)
    }

    /** Add: the index key of the block before is fixed by the first key after it. */
    method Add(item: Item, full: bool, size: nat)
      requires Valid() && (blocks != [] || items != [] ==> KLess(lastKey, item.key))
      modifies this, filter
      ensures Valid() && lastKey == item.key
      ensures if full then items == [] && pending
        && blocks == old(blocks) + [DataBlock(old(offset), old(items) + [item])]
              else items == old(items) + [item] && blocks == old(blocks)
      ensures offset == old(offset) + (if full then size + 5 else 0)
      ensures filter.AllKeys() == old(filter.AllKeys()) + [item.key.user]
    {
      if pending {
        var sep := InternalSeparator(lastKey, item.key);
        CloseIndex(blocks, index, sep, item.key);
        index := index + [sep];
        pending := false;
      }
      ContinueWith(blocks, index, items, lastKey, item);
      FileMore(blocks, items, filter.lists, filter.keys, item);
      filter.AddKey(item.key.user);
      lastKey := item.key;
      items := items + [item];
      if full {
        Flush(size);
      }
    }

    /** Flush: the block goes to the file; the next one starts behind it and its trailer. */
    method Flush(size: nat)
      requires Valid()
      modifies this, filter
      ensures Valid() && items == [] && lastKey == old(lastKey)
      ensures if old(items) == [] then blocks == old(blocks)
              else blocks == old(blocks) + [DataBlock(old(offset), old(items))]
      ensures offset == old(offset) + (if old(items) == [] then 0 else size + 5)
      ensures filter.AllKeys() == old(filter.AllKeys())
    {
      if items == [] {
        return;
      }
      FlushKeeps(blocks, index, items, lastKey, offset, filter.lists, filter.keys, DataBlock(offset, items));
      ghost var lists0, keys0 := filter.lists, filter.keys;
      blocks := blocks + [DataBlock(offset, items)];
      offset := offset + size + 5;
      items, pending := [], true;
      filter.StartBlock(offset);
      ListedSame(blocks, lists0, keys0, filter.lists, filter.keys);
    }

    /** Finish: the last block, the filter block, and an index key past the last key. */
    method Finish(size: nat) returns (filterBlock: seq<Byte>, ghost lists: seq<seq<Text>>)
      requires Valid()
      modifies this, filter
      ensures Indexed(blocks, index) && AllNoLonger(blocks, index) && Listed(blocks, lists, [])
      ensures InOrder(lists) == old(filter.AllKeys()) && |lists| <= offset / FILTER_BASE + 1
      ensures |Joined(policy, lists)| < 0x1_0000_0000 ==> IsFilterBlock(policy, filterBlock, lists)
      ensures blocks == old(blocks) + if old(items) == [] then [] else [DataBlock(old(offset), old(items))]
    {
      Flush(size);
      filterBlock, lists := End();
    }

    method End() returns (filterBlock: seq<Byte>, ghost lists: seq<seq<Text>>)
      requires Valid() && items == []
      modifies this`index, this`pending, filter
      ensures Indexed(blocks, index) && AllNoLonger(blocks, index) && Listed(blocks, lists, [])
      ensures InOrder(lists) == old(filter.AllKeys()) && |lists| <= offset / FILTER_BASE + 1
      ensures |Joined(policy, lists)| < 0x1_0000_0000 ==> IsFilterBlock(policy, filterBlock, lists)
    {
      filterBlock, lists := EndFilter();
      Seal();
    }

    method EndFilter() returns (filterBlock: seq<Byte>, ghost lists: seq<seq<Text>>)
      requires Valid() && items == []
      modifies filter
      ensures Listed(blocks, lists, []) && InOrder(lists) == old(filter.AllKeys())
      ensures |lists| <= offset / FILTER_BASE + 1
      ensures |Joined(policy, lists)| < 0x1_0000_0000 ==> IsFilterBlock(policy, filterBlock, lists)
    {
      ghost var lists0, keys0 := filter.lists, filter.keys;
      filterBlock, lists := filter.Finish();
      ListedSame(blocks, lists0, keys0, lists, []);
    }

    /** The index key of the last block is only bounded from below. */
    method Seal()
      requires Written(blocks, index, pending) && (blocks != [] ==> pending && lastKey == Last(blocks[|blocks| - 1]))
      modifies this`index, this`pending
      ensures Indexed(blocks, index) && AllNoLonger(blocks, index)
    {
      if pending {
        var sep := InternalSuccessor(lastKey);
        EndIndex(blocks, index, sep);
        index := index + [sep];
        pending := false;
      }
    }
  }

  // ---------- Every table ----------

  ghost function Flat(blocks: seq<DataBlock>): seq<Item> {
    if blocks == [] then [] else Flat(blocks[..|blocks| - 1]) + blocks[|blocks| - 1].items
  }

  lemma FlatSnoc(blocks: seq<DataBlock>, b: DataBlock)
    ensures Flat(blocks + [b]) == Flat(blocks) + b.items
  {
    assert (blocks + [b])[..|blocks|] == blocks;
  }

  /** The first n items are in the table. */
  ghost predicate Has(t: TableBuilder, items: seq<Item>, n: nat)
    reads t
  {
    && n <= |items| && Flat(t.blocks) + t.items == items[..n]
    && (if n == 0 then t.blocks == [] && t.items == [] else t.lastKey == items[n - 1].key)
  }

  method AddNext(t: TableBuilder, items: seq<Item>, i: nat, ghost n: nat, full: bool, size: nat)
    requires t.Valid() && Has(t, items, i) && n == i + 1 <= |items| && Increasing(items)
    modifies t, t.filter
    ensures t.Valid() && Has(t, items, n)
  {
    ghost var blocks, open, b := t.blocks, t.items, DataBlock(t.offset, t.items + [items[i]]);
    assert i > 0 ==> KLess(items[i - 1].key, items[i].key);
    t.Add(items[i], full, size);
    NextHeld(blocks, open, b, t.blocks, t.items, items, i, n, full);
  }

  lemma {:induction false} NextHeld(blocks: seq<DataBlock>, open: seq<Item>, b: DataBlock, blocks': seq<DataBlock>,
                                    open': seq<Item>, items: seq<Item>, i: nat, n: nat, full: bool)
    requires n == i + 1 <= |items| && Flat(blocks) + open == items[..i] && b.items == open + [items[i]]
    requires if full then open' == [] && blocks' == blocks + [b] else open' == b.items && blocks' == blocks
    ensures Flat(blocks') + open' == items[..n]
  {
    FlatSnoc(blocks, b);
    OneMoreItem(items, i, n);
    assert Flat(blocks) + (open + [items[i]]) == Flat(blocks) + open + [items[i]];
    if full { assert Flat(blocks') + [] == Flat(blocks'); }
  }

  /** Any increasing list of items, cut into blocks anywhere, makes a table that lookups can trust. */
  method BuildTable(policy: Policy, items: seq<Item>, full: nat -> bool, size: nat -> nat)
    returns (blocks: seq<DataBlock>, index: seq<IKey>, filterBlock: seq<Byte>, ghost lists: seq<seq<Text>>)
    requires Increasing(items)
    ensures Indexed(blocks, index) && Flat(blocks) == items && Listed(blocks, lists, [])
    ensures |Joined(policy, lists)| < 0x1_0000_0000 ==> IsFilterBlock(policy, filterBlock, lists)
  {
    var t := AddAll(policy, items, full, size);
    ghost var before, open := t.blocks, t.items;
    FlatSnoc(before, DataBlock(t.offset, open));
    filterBlock, lists := t.Finish(size(|items|));
    blocks, index := t.blocks, t.index;
    if open == [] { assert blocks == before && Flat(before) + open == Flat(before); }
  }

  lemma OneMoreItem(items: seq<Item>, i: nat, n: nat)
    requires n == i + 1 <= |items|
    ensures items[..n] == items[..i] + [items[i]]
  {}

  method AddAll(policy: Policy, items: seq<Item>, full: nat -> bool, size: nat -> nat) returns (t: TableBuilder)
    requires Increasing(items)
    ensures fresh(t) && fresh(t.filter) && t.Valid() && t.policy == policy && Flat(t.blocks) + t.items == items
  {
    t := new TableBuilder(policy);
    for i := 0 to |items|
      invariant fresh(t) && fresh(t.filter) && t.Valid() && t.policy == policy && Has(t, items, i)
    {
      AddNext(t, items, i, i + 1, full(i), size(i));
    }
    assert items[..|items|] == items;
  }
}
