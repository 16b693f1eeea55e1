/** Writing a table as a file: blocks are finished when they are big enough, then come filter, metaindex, index and
    footer. What is written can be opened and searched. */
module TableWriter {
  import opened Coding
  import opened DbFormat
  import opened Filters
  import opened Tables
  import opened TableFormat
  import Blocks

  // ---------- Sizes ----------

  /** The most bytes that the entry of an item and its share of restarts, trailers and index can take. */
  function ItemSize(item: Item): nat { |item.key.user| + 8 + |item.value| + 15 + 20 }

  function SizeOf(items: seq<Item>): nat {
    if items == [] then 0 else SizeOf(items[..|items| - 1]) + ItemSize(items[|items| - 1])
  }

  lemma {:induction false} SizeAppend(a: seq<Item>, b: seq<Item>)
    ensures SizeOf(a + b) == SizeOf(a) + SizeOf(b)
    decreases |b|
  {
    if b == [] {
      assert a + b == a;
    } else {
      var n := |b| - 1;
      assert (a + b)[..|a + b| - 1] == a + b[..n];
      SizeAppend(a, b[..n]);
    }
  }

  lemma {:induction false} SizeIsBytes(items: seq<Item>)
    requires AllTagged(items)
    ensures SizeOf(items) == Blocks.Bytes(Pairs(items)) + 20 * |items|
  {
    if items != [] {
      var n := |items| - 1;
      SizeIsBytes(items[..n]);
      assert Pairs(items)[..n] == Pairs(items[..n]);
    }
  }

  const LIMIT: nat := 0x1_0000_0000

  // ---------- Appending to the file ----------

  lemma StoredStays(crc: Checksum, file: seq<Byte>, more: seq<Byte>, h: Handle, data: seq<Byte>)
    requires Stored(crc, file, h, data)
    ensures Stored(crc, file + more, h, data)
  {
    AtPrefix(file, more, h.offset, data + Trailer(crc, data));
  }

  lemma BlockStays(crc: Checksum, file: seq<Byte>, more: seq<Byte>, h: Handle, es: seq<Blocks.Pair>)
    requires StoresBlock(crc, file, h, es)
    ensures StoresBlock(crc, file + more, h, es)
  {
    var data :| Stored(crc, file, h, data) && IsWhole(data, es);
    StoredStays(crc, file, more, h, data);
  }

  lemma DataStays(crc: Checksum, file: seq<Byte>, more: seq<Byte>, blocks: seq<DataBlock>, handles: seq<Handle>)
    requires DataStored(crc, file, blocks, handles)
    ensures DataStored(crc, file + more, blocks, handles)
  {
    forall i | 0 <= i < |blocks| ensures StoresBlock(crc, file + more, handles[i], Pairs(blocks[i].items)) {
      BlockStays(crc, file, more, handles[i], Pairs(blocks[i].items));
    }
  }

  /** WriteRawBlock: where the block went, and the file with it. */
  function WriteRaw(crc: Checksum, file: seq<Byte>, data: seq<Byte>): (r: (Handle, seq<Byte>))
    requires |file| < 0x1_0000_0000_0000_0000 && |data| < 0x1_0000_0000_0000_0000
    ensures Stored(crc, r.1, r.0, data) && r.0.offset == |file| && file <= r.1
    ensures |r.1| == |file| + |data| + TRAILER
  {
    var file' := file + (data + Trailer(crc, data));
    assert file'[|file|..|file| + |data| + TRAILER] == data + Trailer(crc, data);
    (Handle(|file|, |data|), file')
  }

  /** One more block in the file. */
  lemma OneMoreBlock(crc: Checksum, file: seq<Byte>, blocks: seq<DataBlock>, handles: seq<Handle>, b: DataBlock,
                     h: Handle, file': seq<Byte>)
    requires DataStored(crc, file, blocks, handles) && file <= file'
    requires AllTagged(b.items) && h.offset == b.offset && StoresBlock(crc, file', h, Pairs(b.items))
    ensures DataStored(crc, file', blocks + [b], handles + [h])
  {
    assert file' == file + file'[|file|..];
    DataStays(crc, file, file'[|file|..], blocks, handles);
    var all, hs := blocks + [b], handles + [h];
    forall i | 0 <= i < |all|
      ensures AllTagged(all[i].items) && hs[i].offset == all[i].offset
      ensures StoresBlock(crc, file', hs[i], Pairs(all[i].items))
    {
      if i < |blocks| { assert all[i] == blocks[i] && hs[i] == handles[i]; }
    }
  }

  // ---------- The writer ----------

  ghost predicate BigEnough(handles: seq<Handle>, blockSize: nat) {
    forall i :: 0 <= i < |handles| ==> handles[i].size >= blockSize
  }

  /** A block is written when it has reached the size, except for the last one. */
  ghost predicate AllButLastBig(handles: seq<Handle>, blockSize: nat) {
    handles != [] ==> BigEnough(handles[..|handles| - 1], blockSize)
  }

  lemma BigStays(handles: seq<Handle>, handles': seq<Handle>, size: nat, blockSize: nat)
    requires BigEnough(handles, blockSize) && OneMoreOf(handles, handles', size)
    ensures AllButLastBig(handles', blockSize) && (size >= blockSize ==> BigEnough(handles', blockSize))
  {
    assert handles'[..|handles|] == handles;
  }

  lemma NothingMore(items: seq<Item>)
    ensures items + [] == items
  {}

  ghost predicate OneMoreOf(handles: seq<Handle>, handles': seq<Handle>, size: nat) {
    |handles'| == |handles| + 1 && handles <= handles' && handles'[|handles|].size == size
  }

  class FileBuilder {
    const crc: Checksum
    const interval: nat
    const blockSize: nat
    const table: TableBuilder
    var data: Blocks.BlockBuilder
    var file: seq<Byte>
    var handles: seq<Handle>

    constructor (crc: Checksum, policy: Policy, interval: nat, blockSize: nat)
      requires interval >= 1
      ensures Valid() && fresh(table) && fresh(table.filter) && fresh(data)
      ensures table.policy == policy && this.crc == crc && this.interval == interval && this.blockSize == blockSize
      ensures table.blocks == [] && table.items == [] && table.filter.AllKeys() == []
    {
      this.crc, this.interval, this.blockSize, file, handles := crc, interval, blockSize, [], [];
      table := new TableBuilder(policy);
      data := new Blocks.BlockBuilder(interval);
    }

    ghost predicate Valid()
      reads this, table, table.filter, data
    {
      Building() && (table.items != [] ==> SizeEstimate() < blockSize) && BigEnough(handles, blockSize)
    }

    /** Valid, whatever the sizes of the blocks are. */
    ghost predicate Building()
      reads this, table, table.filter, data
    {
      table.Valid() && Filling(table.items) && Wrote(table.blocks, table.offset)
    }

    /** CurrentSizeEstimate of the data block: what it would take up now. */
    function SizeEstimate(): nat
      reads this, data
    {
      |data.buffer| + 4 * |data.restarts| + 4
    }

    /** The data block has these items. */
    ghost predicate Filling(items: seq<Item>)
      reads this, data
    {
      && data.Valid() && data.interval == interval && AllTagged(items) && data.es == Pairs(items)
      && |data.buffer| <= Blocks.Bytes(data.es) && |data.restarts| <= |data.es| + 1
    }

    /** The file has these blocks. */
    ghost predicate Wrote(blocks: seq<DataBlock>, offset: nat)
      reads this
    {
      && interval >= 1 && offset == |file| <= SizeOf(Flat(blocks)) && AllTagged(Flat(blocks))
      && DataStored(crc, file, blocks, handles)
    }

    /** Everything added so far. */
    ghost function All(): seq<Item>
      reads this, table
    {
      Flat(table.blocks) + table.items
    }

    /** Add: the item goes to the data block, which is written out when it is big enough. */
    method Add(item: Item)
      requires Valid() && Tagged(item.key) && SizeOf(All()) + ItemSize(item) < LIMIT
      requires table.blocks != [] || table.items != [] ==> KLess(table.lastKey, item.key)
      modifies this, table, table.filter, data
      ensures Valid() && All() == old(All()) + [item] && table.lastKey == item.key && (data == old(data) || fresh(data))
      ensures table.filter.AllKeys() == old(table.filter.AllKeys()) + [item.key.user]
    {
      Append(item);
      var size := SizeEstimate();
      if size >= blockSize {
        ghost var before := handles;
        Cut(size);
        BigStays(before, handles, size, blockSize);
        NothingMore(Flat(table.blocks));
      }
    }

    method Append(item: Item)
      requires Building() && Tagged(item.key) && SizeOf(All()) + ItemSize(item) < LIMIT
      requires table.blocks != [] || table.items != [] ==> KLess(table.lastKey, item.key)
      modifies table, table.filter, data
      ensures Building() && All() == old(All()) + [item] && table.lastKey == item.key && table.items != []
      ensures SizeOf(All()) < LIMIT && table.filter.AllKeys() == old(table.filter.AllKeys()) + [item.key.user]
    {
      ghost var flat, items := Flat(table.blocks), table.items;
      OneMoreItemFits(flat, items, item);
      table.Add(item, false, 0);
      Fill(items, item);
    }

    /** The item's entry in the data block. */
    method Fill(ghost items: seq<Item>, item: Item)
      requires Filling(items) && Tagged(item.key) && SizeOf(items) + ItemSize(item) < LIMIT
      modifies data
      ensures Filling(items + [item])
    {
      SizeIsBytes(items);
      PairsMore(items, item);
      data.Add(Blocks.Pair(EncodeKey(item.key), item.value));
    }

    /** Flush: the block and its trailer go to the file. */
    method Cut(ghost estimate: nat)
      requires estimate == SizeEstimate()
      requires Building() && table.items != [] && SizeOf(All()) < LIMIT
      modifies this, table, table.filter, data
      ensures Building() && table.lastKey == old(table.lastKey) && table.items == [] && fresh(data)
      ensures Flat(table.blocks) == old(All())
      ensures table.filter.AllKeys() == old(table.filter.AllKeys())
      ensures OneMoreOf(old(handles), handles, estimate)
    {
      ghost var blocks, items := table.blocks, table.items;
      ghost var b := DataBlock(|file|, items);
      FlatSnoc(blocks, b);
      var size := Write(blocks, items, estimate);
      table.Flush(size);
    }

    method FinishBlock(ghost items: seq<Item>) returns (raw: seq<Byte>)
      requires Filling(items) && items != [] && SizeOf(items) < LIMIT
      ensures IsWhole(raw, Pairs(items)) && |raw| + 5 <= SizeOf(items) && |raw| == SizeEstimate()
    {
      SizeIsBytes(items);
      raw := data.Finish();
      assert Holds(raw, |data.buffer|, data.es, data.sh);
    }

    /** WriteBlock. */
    method Write(ghost blocks: seq<DataBlock>, ghost items: seq<Item>, ghost estimate: nat) returns (size: nat)
      requires estimate == SizeEstimate()
      requires Filling(items) && items != [] && Wrote(blocks, |file|) && SizeOf(Flat(blocks) + items) < LIMIT
      modifies this, data
      ensures Filling([]) && Wrote(blocks + [DataBlock(old(|file|), items)], old(|file|) + size + 5) && fresh(data)
      ensures OneMoreOf(old(handles), handles, estimate)
    {
      SizeAppend(Flat(blocks), items);
      var raw := FinishBlock(items);
      AppendBlock(raw, blocks, items, DataBlock(|file|, items));
      size := |raw|;
      data := new Blocks.BlockBuilder(interval);
    }

    method AppendBlock(raw: seq<Byte>, ghost blocks: seq<DataBlock>, ghost items: seq<Item>, ghost b: DataBlock)
      requires Wrote(blocks, |file|) && AllTagged(items) && IsWhole(raw, Pairs(items)) && b == DataBlock(|file|, items)
      requires |raw| + 5 <= SizeOf(items) && SizeOf(Flat(blocks)) + SizeOf(items) < LIMIT
      modifies this`file, this`handles
      ensures Wrote(blocks + [b], |file|) && |file| == old(|file|) + |raw| + 5
      ensures OneMoreOf(old(handles), handles, |raw|)
    {
      SizeAppend(Flat(blocks), items);
      FlatSnoc(blocks, b);
      var written := WriteRaw(crc, file, raw);
      assert StoresBlock(crc, written.1, written.0, Pairs(items));
      OneMoreBlock(crc, file, blocks, handles, b, written.0, written.1);
      file, handles := written.1, handles + [written.0];
    }

    /** Finish: the last block, then filter, metaindex, index and footer. A filter block too big for its own
        offsets is not written here. */
    method Finish(name: Option<Text>)
      returns (r: Option<seq<Byte>>, ghost metas: seq<Blocks.Pair>, ghost footer: Footer, ghost lists: seq<seq<Text>>)
      requires Valid() && SizeOf(All()) < LIMIT - 1 && (name.Some? ==> |FilterKey(name.value)| + 35 < LIMIT)
      modifies this, table, table.filter, data
      ensures Flat(table.blocks) == old(All()) && AllButLastBig(handles, blockSize)
      ensures r.Some? ==> IsTable(crc, r.value, table.blocks, table.index, handles, metas, footer)
      ensures r.Some? ==> FilterOk(crc, name, table.policy, r.value, metas, table.blocks, lists)
      ensures InOrder(lists) == old(table.filter.AllKeys())
      ensures r.None? ==> name.Some? && |Joined(table.policy, lists)| + 4 * |lists| + 5 >= LIMIT
    {
      CutLast();
      var filterBlock;
      filterBlock, lists := EndTable(table);
      r, metas, footer :=
        Close(crc, interval, file, name, table.policy, filterBlock, table.blocks, table.index, handles, lists);
    }

    method CutLast()
      requires Valid() && SizeOf(All()) < LIMIT
      modifies this, table, table.filter, data
      ensures Building() && table.items == [] && Flat(table.blocks) == old(All()) && AllButLastBig(handles, blockSize)
      ensures table.filter.AllKeys() == old(table.filter.AllKeys())
    {
      if table.items != [] {
        ghost var before, size := handles, SizeEstimate();
        Cut(size);
        BigStays(before, handles, size, blockSize);
      } else {
        NothingMore(Flat(table.blocks));
      }
    }
  }

  /** The filter block, and the index key of the last block. */
  method EndTable(table: TableBuilder) returns (filterBlock: seq<Byte>, ghost lists: seq<seq<Text>>)
    requires table.Valid() && table.items == []
    modifies table, table.filter
    ensures table.blocks == old(table.blocks) && Listed(table.blocks, lists, [])
    ensures InOrder(lists) == old(table.filter.AllKeys())
    ensures Indexed(table.blocks, table.index) && AllNoLonger(table.blocks, table.index)
    ensures |Joined(table.policy, lists)| < LIMIT ==> IsFilterBlock(table.policy, filterBlock, lists)
  {
    filterBlock, lists := table.Finish(0);
  }

  /** The filter can be found under its name, if its offsets fit. */
  ghost predicate FilterOk(crc: Checksum, name: Option<Text>, policy: Policy, file: seq<Byte>, metas: seq<Blocks.Pair>,
                           blocks: seq<DataBlock>, lists: seq<seq<Text>>) {
    if name.None? then metas == []
    else
      && |metas| == 1 && metas[0].key == FilterKey(name.value)
      && (|Joined(policy, lists)| < LIMIT ==> FilterBehind(crc, file, metas[0].value, policy, blocks, lists))
  }

  lemma FilterStays(crc: Checksum, name: Option<Text>, policy: Policy, file: seq<Byte>, metas: seq<Blocks.Pair>,
                    blocks: seq<DataBlock>, lists: seq<seq<Text>>, all: seq<Byte>)
    requires FilterOk(crc, name, policy, file, metas, blocks, lists) && file <= all
    ensures FilterOk(crc, name, policy, all, metas, blocks, lists)
  {
    var more := all[|file|..];
    assert all == file + more;
    if name.Some? && |Joined(policy, lists)| < LIMIT {
      var h, contents :| metas[0].value == EncodeHandle(h) && Stored(crc, file, h, contents)
        && IsFilterBlock(policy, contents, lists) && Listed(blocks, lists, []);
      StoredStays(crc, file, more, h, contents);
    }
  }

  /** Reading finds no entry of the name but the filter's. */
  lemma FilterIsMeta(crc: Checksum, name: Text, policy: Policy, file: seq<Byte>, metas: seq<Blocks.Pair>,
                     blocks: seq<DataBlock>, lists: seq<seq<Text>>)
    requires FilterOk(crc, Some(name), policy, file, metas, blocks, lists) && |Joined(policy, lists)| < LIMIT
    ensures MetaOk(crc, file, metas, name, policy, blocks, lists)
  {
    BytewiseTransitive();
  }

  /** The filter block and the metaindex entry for it. */
  method WriteFilter(crc: Checksum, file: seq<Byte>, name: Option<Text>, ghost policy: Policy, filterBlock: seq<Byte>,
                     ghost blocks: seq<DataBlock>, ghost lists: seq<seq<Text>>)
    returns (metas: seq<Blocks.Pair>, out: seq<Byte>)
    requires |file| < LIMIT && (name.Some? ==> |filterBlock| < LIMIT && |FilterKey(name.value)| + 35 < LIMIT)
    requires Listed(blocks, lists, [])
    requires |Joined(policy, lists)| < LIMIT ==> IsFilterBlock(policy, filterBlock, lists)
    ensures FilterOk(crc, name, policy, out, metas, blocks, lists)
    ensures file <= out && |out| <= 3 * LIMIT && |metas| <= 1 && Blocks.Bytes(metas) < LIMIT
  {
    metas, out := [], file;
    if name.Some? {
      var written := WriteRaw(crc, file, filterBlock);
      HandleFits(written.0);
      metas, out := [Blocks.Pair(FilterKey(name.value), EncodeHandle(written.0))], written.1;
      assert metas[..0] == [];
    }
  }

  /** All that comes after the data blocks. */
  method Close(crc: Checksum, interval: nat, file: seq<Byte>, name: Option<Text>, ghost policy: Policy,
               filterBlock: seq<Byte>, blocks: seq<DataBlock>, index: seq<IKey>, handles: seq<Handle>,
               ghost lists: seq<seq<Text>>)
    returns (r: Option<seq<Byte>>, ghost metas: seq<Blocks.Pair>, ghost footer: Footer)
    requires interval >= 1 && |file| < LIMIT && SizeOf(Flat(blocks)) < LIMIT - 1
    requires DataStored(crc, file, blocks, handles)
    requires name.Some? ==> |FilterKey(name.value)| + 35 < LIMIT
    requires Indexed(blocks, index) && AllNoLonger(blocks, index) && Listed(blocks, lists, [])
    requires |Joined(policy, lists)| < LIMIT ==> IsFilterBlock(policy, filterBlock, lists)
    ensures r.Some? ==> IsTable(crc, r.value, blocks, index, handles, metas, footer)
    ensures r.Some? ==> FilterOk(crc, name, policy, r.value, metas, blocks, lists)
    ensures r.None? ==> name.Some? && |Joined(policy, lists)| + 4 * |lists| + 5 >= LIMIT
  {
    if name.Some? && |filterBlock| >= LIMIT {
      return None, [], Footer(Handle(0, 0), Handle(0, 0));
    }
    var entries, out1 := WriteFilter(crc, file, name, policy, filterBlock, blocks, lists);
    var meta, out2 := WriteEntries(crc, interval, entries, out1);
    IndexFits(crc, file, blocks, index, handles);
    var at, out3 := WriteEntries(crc, 1, IndexPairs(index, handles), out2);
    metas, footer := entries, Footer(meta, at);
    var all := out3 + EncodeFooter(Footer(meta, at));
    Complete(crc, file, blocks, index, handles, metas, footer, out2, out3, all);
    FilterStays(crc, name, policy, out1, metas, blocks, lists, all);
    r := Some(all);
  }

  lemma Complete(crc: Checksum, file: seq<Byte>, blocks: seq<DataBlock>, index: seq<IKey>, handles: seq<Handle>,
                 metas: seq<Blocks.Pair>, footer: Footer, out2: seq<Byte>, out3: seq<Byte>, all: seq<Byte>)
    requires Indexed(blocks, index) && DataStored(crc, file, blocks, handles) && file <= out2 <= out3
    requires StoresBlock(crc, out2, footer.meta, metas)
    requires |index| == |handles| && forall i :: 0 <= i < |index| ==> Tagged(index[i])
    requires StoresBlock(crc, out3, footer.index, IndexPairs(index, handles)) && all == out3 + EncodeFooter(footer)
    ensures IsTable(crc, all, blocks, index, handles, metas, footer)
  {
    assert all == file + all[|file|..] && all == out2 + all[|out2|..];
    DataStays(crc, file, all[|file|..], blocks, handles);
    BlockStays(crc, out2, all[|out2|..], footer.meta, metas);
    BlockStays(crc, out3, EncodeFooter(footer), footer.index, IndexPairs(index, handles));
    var data :| Stored(crc, all, footer.index, data) && IsWhole(data, IndexPairs(index, handles));
    assert IndexStored(data, index, handles);
  }

  /** A block of its own with these entries. */
  method WriteEntries(crc: Checksum, interval: nat, es: seq<Blocks.Pair>, file: seq<Byte>)
    returns (h: Handle, file': seq<Byte>)
    requires interval >= 1 && Blocks.Bytes(es) < LIMIT && |es| < LIMIT - 1 && |file| < 0x100_0000_0000
    ensures StoresBlock(crc, file', h, es) && file <= file' && |file'| <= |file| + 6 * LIMIT
  {
    var b := Blocks.Build(interval, es);
    var raw := b.Finish();
    assert Holds(raw, |b.buffer|, b.es, b.sh);
    var written := WriteRaw(crc, file, raw);
    h, file' := written.0, written.1;
  }

  lemma {:induction false} IndexFits(crc: Checksum, file: seq<Byte>, blocks: seq<DataBlock>, index: seq<IKey>,
                                     handles: seq<Handle>)
    requires AllNoLonger(blocks, index) && DataStored(crc, file, blocks, handles)
    ensures forall i :: 0 <= i < |index| ==> Tagged(index[i])
    ensures Blocks.Bytes(IndexPairs(index, handles)) <= SizeOf(Flat(blocks)) && |index| <= SizeOf(Flat(blocks))
    decreases |blocks|
  {
    forall i | 0 <= i < |index| ensures Tagged(index[i]) {
      assert NoLonger(index[i], Last(blocks[i]));
    }
    if blocks != [] {
      var n := |blocks| - 1;
      IndexFits(crc, file, blocks[..n], index[..n], handles[..n]);
      assert IndexPairs(index, handles)[..n] == IndexPairs(index[..n], handles[..n]);
      SizeAppend(Flat(blocks[..n]), blocks[n].items);
      HandleFits(handles[n]);
    }
  }

  lemma {:induction false} OneMoreItemFits(flat: seq<Item>, items: seq<Item>, item: Item)
    requires SizeOf(flat + items) + ItemSize(item) < LIMIT
    ensures SizeOf(items) + ItemSize(item) < LIMIT && SizeOf(flat + (items + [item])) < LIMIT
    ensures flat + (items + [item]) == flat + items + [item]
  {
    SizeAppend(flat, items);
    SizeAppend(flat + items, [item]);
    assert flat + (items + [item]) == flat + items + [item];
    SizeOne(item);
  }

  lemma PairsMore(items: seq<Item>, item: Item)
    requires AllTagged(items) && Tagged(item.key)
    ensures AllTagged(items + [item]) && Pairs(items + [item])
        == Pairs(items) + [Blocks.Pair(EncodeKey(item.key), item.value)]
  {}

  // ---------- Every table ----------

  ghost predicate AddedAll(t: FileBuilder, items: seq<Item>, n: nat)
    reads t, t.table, t.table.filter
  {
    && n <= |items| && t.All() == items[..n] && (n > 0 ==> t.table.lastKey == items[n - 1].key)
    && t.table.filter.AllKeys() == Users(items[..n])
  }

  /** The user keys of a list. */
  ghost function Users(items: seq<Item>): (us: seq<Text>)
    ensures |us| == |items| && forall i :: 0 <= i < |items| ==> us[i] == items[i].key.user
  {
    seq(|items|, i requires 0 <= i < |items| => items[i].key.user)
  }

  method AddNext(t: FileBuilder, items: seq<Item>, i: nat, ghost n: nat)
    requires n == i + 1 <= |items| && Tables.Increasing(items) && AllTagged(items) && SizeOf(items) < LIMIT - 1
    requires t.Valid() && AddedAll(t, items, i)
    modifies t, t.table, t.table.filter, t.data
    ensures t.Valid() && AddedAll(t, items, n) && (t.data == old(t.data) || fresh(t.data))
  {
    PrefixFits(items, i, n);
    if i == 0 { NothingYet(t.table.blocks, t.table.items); }
    assert Users(items[..n]) == Users(items[..i]) + [items[i].key.user];
    t.Add(items[i]);
  }

  lemma {:induction false} SizeOne(item: Item)
    ensures SizeOf([item]) == ItemSize(item)
  {
    assert [item][..0] == [];
  }

  lemma {:induction false} PrefixFits(items: seq<Item>, i: nat, n: nat)
    requires n == i + 1 <= |items| && Tables.Increasing(items)
    ensures SizeOf(items[..i]) + ItemSize(items[i]) <= SizeOf(items)
    ensures items[..n] == items[..i] + [items[i]] && (i > 0 ==> KLess(items[i - 1].key, items[i].key))
  {
    var head, upTo, tail := items[..i], items[..n], items[n..];
    OneMoreItem(items, i, n);
    assert items == upTo + tail;
    SizeAppend(upTo, tail);
    SizeAppend(head, [items[i]]);
    SizeOne(items[i]);
  }

  lemma {:induction false} NothingYet(blocks: seq<DataBlock>, items: seq<Item>)
    requires Flat(blocks) + items == [] && forall i :: 0 <= i < |blocks| ==> blocks[i].items != []
    ensures blocks == [] && items == []
  {}

  /** Any increasing list of items becomes a file that is a table of exactly these items, cut into blocks of the
      given size, and with a filter that can be found under its name. */
  method WriteTable(crc: Checksum, policy: Policy, name: Option<Text>, interval: nat, blockSize: nat, items: seq<Item>)
    returns (file: Option<seq<Byte>>, ghost blocks: seq<DataBlock>, ghost index: seq<IKey>, ghost handles: seq<Handle>,
             ghost metas: seq<Blocks.Pair>, ghost footer: Footer, ghost lists: seq<seq<Text>>)
    requires Tables.Increasing(items) && AllTagged(items) && SizeOf(items) < LIMIT - 1 && interval >= 1
    requires name.Some? ==> |FilterKey(name.value)| + 35 < LIMIT
    ensures Flat(blocks) == items && AllButLastBig(handles, blockSize)
    ensures file.Some? ==> IsTable(crc, file.value, blocks, index, handles, metas, footer)
    ensures file.Some? ==> FilterOk(crc, name, policy, file.value, metas, blocks, lists)
    ensures InOrder(lists) == Users(items)
    ensures name.None? || |Joined(policy, lists)| + 4 * |lists| + 5 < LIMIT ==> file.Some?
  {
    var t := AddItems(crc, policy, interval, blockSize, items);
    file, metas, footer, lists := t.Finish(name);
    blocks, index, handles := t.table.blocks, t.table.index, t.handles;
  }

  method AddItems(crc: Checksum, policy: Policy, interval: nat, blockSize: nat, items: seq<Item>)
    returns (t: FileBuilder)
    requires Tables.Increasing(items) && AllTagged(items) && SizeOf(items) < LIMIT - 1 && interval >= 1
    ensures fresh(t) && fresh(t.table) && fresh(t.table.filter) && fresh(t.data)
    ensures t.Valid() && t.All() == items && t.table.policy == policy && t.crc == crc && t.blockSize == blockSize
    ensures t.table.filter.AllKeys() == Users(items)
  {
    t := new FileBuilder(crc, policy, interval, blockSize);
    for i := 0 to |items|
      invariant fresh(t) && fresh(t.table) && fresh(t.table.filter) && fresh(t.data)
      invariant t.Valid() && AddedAll(t, items, i) && t.table.policy == policy && t.crc == crc
        && t.blockSize == blockSize
    {
      AddNext(t, items, i, i + 1);
    }
    assert items[..|items|] == items;
  }

  // ---------- Linear search of the list ----------

  ghost predicate AllLess(items: seq<Item>, k: IKey) { forall i :: 0 <= i < |items| ==> KLess(items[i].key, k) }

  /** The item is the first of the list at or after `k`. */
  ghost predicate IsFirst(items: seq<Item>, k: IKey, item: Item) {
    exists n :: 0 <= n < |items| && items[n] == item && !KLess(item.key, k) && AllLess(items[..n], k)
  }

  lemma FirstOfTwo(a: seq<Item>, b: seq<Item>, k: IKey, item: Item)
    ensures IsFirst(a + b, k, item) <==> IsFirst(a, k, item) || (AllLess(a, k) && IsFirst(b, k, item))
  {
    var all := a + b;
    if IsFirst(all, k, item) {
      var n :| 0 <= n < |all| && all[n] == item && !KLess(item.key, k) && AllLess(all[..n], k);
      if n < |a| {
        assert all[..n] == a[..n];
      } else {
        var m := n - |a|;
        assert all[..n] == a + b[..m];
        assert AllLess(a, k) by { forall i | 0 <= i < |a| ensures KLess(a[i].key, k) { assert all[..n][i] == a[i]; } }
        forall i | 0 <= i < m ensures KLess(b[..m][i].key, k) { assert all[..n][|a| + i] == b[..m][i]; }
        assert b[m] == item;
      }
    }
    if IsFirst(a, k, item) {
      var n :| 0 <= n < |a| && a[n] == item && !KLess(item.key, k) && AllLess(a[..n], k);
      assert all[..n] == a[..n] && all[n] == item;
    }
    if AllLess(a, k) && IsFirst(b, k, item) {
      var m :| 0 <= m < |b| && b[m] == item && !KLess(item.key, k) && AllLess(b[..m], k);
      assert all[..|a| + m] == a + b[..m] && all[|a| + m] == item;
    }
  }

  lemma {:induction false} FlatLess(blocks: seq<DataBlock>, k: IKey)
    ensures AllLess(Flat(blocks), k) <==> Tables.AllBefore(blocks, k, |blocks|)
  {
    if blocks != [] {
      var n := |blocks| - 1;
      FlatLess(blocks[..n], k);
      var a, b := Flat(blocks[..n]), blocks[n].items;
      if AllLess(a + b, k) {
        forall i | 0 <= i < |a| ensures KLess(a[i].key, k) { assert (a + b)[i] == a[i]; }
        forall y | 0 <= y < |b| ensures KLess(b[y].key, k) { assert (a + b)[|a| + y] == b[y]; }
        forall x, y | 0 <= x < |blocks| && 0 <= y < |blocks[x].items| ensures KLess(blocks[x].items[y].key, k) {
          assert x < n ==> blocks[..n][x] == blocks[x];
        }
      }
      if Tables.AllBefore(blocks, k, |blocks|) {
        forall x, y | 0 <= x < n && 0 <= y < |blocks[..n][x].items| ensures KLess(blocks[..n][x].items[y].key, k) {}
      }
    }
  }

  ghost predicate IsIn(blocks: seq<DataBlock>, k: IKey, item: Item) {
    exists i: nat, j: nat :: FirstAt(blocks, k, i, j) && blocks[i].items[j] == item
  }

  lemma FirstStaysFirst(blocks: seq<DataBlock>, init: seq<DataBlock>, k: IKey, item: Item)
    requires blocks != [] && init == blocks[..|blocks| - 1]
    ensures IsIn(init, k, item) ==> IsIn(blocks, k, item)
  {
    if IsIn(init, k, item) {
      var i: nat, j: nat :| FirstAt(init, k, i, j) && init[i].items[j] == item;
      assert FirstAt(blocks, k, i, j) && blocks[i].items[j] == item;
    }
  }

  lemma FirstInLast(blocks: seq<DataBlock>, init: seq<DataBlock>, last: seq<Item>, k: IKey, item: Item)
    requires blocks != [] && init == blocks[..|blocks| - 1] && last == blocks[|blocks| - 1].items
    requires Tables.AllBefore(init, k, |init|) && IsFirst(last, k, item)
    ensures IsIn(blocks, k, item)
  {
    var j :| 0 <= j < |last| && last[j] == item && !KLess(item.key, k) && AllLess(last[..j], k);
    forall y | 0 <= y < j ensures KLess(last[y].key, k) { assert last[..j][y] == last[y]; }
    forall x, y | 0 <= x < |init| && 0 <= y < |blocks[x].items| ensures KLess(blocks[x].items[y].key, k) {
      assert init[x] == blocks[x];
    }
    assert FirstAt(blocks, k, |init|, j) && blocks[|init|].items[j] == item;
  }

  /** The first item of a table is the first of its blocks' items in a row. */
  lemma {:induction false} FirstIsFirst(blocks: seq<DataBlock>, k: IKey, item: Item)
    ensures IsFirst(Flat(blocks), k, item) <==> IsIn(blocks, k, item)
  {
    if blocks != [] {
      var n := |blocks| - 1;
      var init, last := blocks[..n], blocks[n].items;
      FirstIsFirst(init, k, item);
      FlatLess(init, k);
      FirstOfTwo(Flat(init), last, k, item);
      FirstStaysFirst(blocks, init, k, item);
      if AllLess(Flat(init), k) && IsFirst(last, k, item) { FirstInLast(blocks, init, last, k, item); }
      if IsIn(blocks, k, item) {
        var i: nat, j: nat :| FirstAt(blocks, k, i, j) && blocks[i].items[j] == item;
        FirstComesFrom(blocks, init, last, k, i, j, item);
      }
    }
  }

  lemma FirstComesFrom(blocks: seq<DataBlock>, init: seq<DataBlock>, last: seq<Item>, k: IKey, i: nat, j: nat,
                       item: Item)
    requires blocks != [] && init == blocks[..|blocks| - 1] && last == blocks[|blocks| - 1].items
    requires FirstAt(blocks, k, i, j) && blocks[i].items[j] == item
    ensures (FirstAt(init, k, i, j) && init[i].items[j] == item)
         || (Tables.AllBefore(init, k, |init|) && IsFirst(last, k, item))
  {
    if i < |init| {
      forall x, y | 0 <= x < i && 0 <= y < |init[x].items| ensures KLess(init[x].items[y].key, k) {
        assert init[x] == blocks[x];
      }
    } else {
      forall x, y | 0 <= x < |init| && 0 <= y < |init[x].items| ensures KLess(init[x].items[y].key, k) {
        assert init[x] == blocks[x];
      }
      assert AllLess(last[..j], k);
    }
  }

  /** So a lookup hands over the first item of the list at or after `k`, if that has the user key of `k`. */
  lemma HandsOverFirst(blocks: seq<DataBlock>, k: IKey, r: Option<Item>, item: Item)
    requires HandsOver(blocks, k, r)
    ensures item.key.user == k.user ==> (r == Some(item) <==> IsFirst(Flat(blocks), k, item))
  {
    FirstIsFirst(blocks, k, item);
  }
}
