/** A table as a file: blocks with checksummed trailers, an index block of block handles, a filter found through a
    metaindex block, and a footer that says where these are. */
module TableFormat {
  import opened Coding
  import opened DbFormat
  import opened Filters
  import opened Tables
  import LogFormat
  import Blocks

  // ---------- Internal keys as bytes ----------

  predicate Tagged(k: IKey) { k.tag < 0x1_0000_0000_0000_0000 }

  /** AppendInternalKey. */
  function EncodeKey(k: IKey): Text
    requires Tagged(k)
  {
    k.user + EncodeFixed64(k.tag)
  }

  /** ParseInternalKey; the code takes no key of fewer than eight bytes. */
  function DecodeKey(b: Text): IKey {
    if |b| < 8 then IKey([], 0) else IKey(b[..|b| - 8], DecodeFixed64(b[|b| - 8..]))
  }

  lemma KeyRoundTrip(k: IKey)
    requires Tagged(k)
    ensures DecodeKey(EncodeKey(k)) == k
  {
    var b := EncodeKey(k);
    assert b[..|b| - 8] == k.user && b[|b| - 8..] == EncodeFixed64(k.tag);
    Fixed64RoundTrip(k.tag);
  }

  /** InternalKeyComparator on encoded keys. */
  const KEY_ORDER: Blocks.Order := (a, b) => KLess(DecodeKey(a), DecodeKey(b))

  lemma KeyOrderTransitive()
    ensures Blocks.Transitive(KEY_ORDER)
  {
    forall a, b, c | KEY_ORDER(a, b) && KEY_ORDER(b, c) ensures KEY_ORDER(a, c) {
      KLessTransitive(DecodeKey(a), DecodeKey(b), DecodeKey(c));
    }
  }

  // ---------- Block handles ----------

  datatype Handle = Handle(offset: Word64, size: Word64)

  /** BlockHandle::EncodeTo. */
  function EncodeHandle(h: Handle): seq<Byte> { PutVarint(h.offset) + PutVarint(h.size) }

  datatype ReadHandle = ReadHandle(handle: Handle, next: nat) | NoHandle

  /** BlockHandle::DecodeFrom; what follows the handle is left alone. */
  function DecodeHandle(b: seq<Byte>, p: nat): (r: ReadHandle)
    requires p <= |b|
    ensures r.ReadHandle? ==> r.next <= |b|
  {
    var o := GetVarint64(b, p);
    if o.Bad? then NoHandle
    else
      var n := GetVarint64(b, o.next);
      if n.Bad? then NoHandle else ReadHandle(Handle(o.value, n.value), n.next)
  }

  lemma {:induction false} HandleRoundTrip(b: seq<Byte>, p: nat, h: Handle, q: nat)
    requires At(b, p, EncodeHandle(h)) && q == p + |EncodeHandle(h)|
    ensures p <= |b| && DecodeHandle(b, p) == ReadHandle(h, q)
  {
    var mid := p + |PutVarint(h.offset)|;
    AtSplit(b, p, PutVarint(h.offset), PutVarint(h.size), mid);
    Varint64RoundTrip(b, p, h.offset, mid);
    Varint64RoundTrip(b, mid, h.size, q);
  }

  // ---------- Raw blocks ----------

  type Checksum = LogFormat.Checksum

  const TRAILER: nat := 5

  /** WriteRawBlock without compression: the type byte and the checksum of contents and type. */
  function Trailer(crc: Checksum, data: seq<Byte>): (r: seq<Byte>)
    ensures |r| == TRAILER
  {
    [0] + EncodeFixed32(LogFormat.Mask(crc(data + [0])))
  }

  datatype Contents = Contents(data: seq<Byte>) | Truncated | Mismatch | BadType

  /** ReadBlock: the block behind a handle, if all of it is there, the checksum is right and the type known. */
  function ReadBlock(crc: Checksum, verify: bool, file: seq<Byte>, h: Handle): Contents {
    var n := h.size as nat;
    if h.offset + n + TRAILER > |file| then Truncated
    else
      var data, trailer := file[h.offset..h.offset + n], file[h.offset + n..h.offset + n + TRAILER];
      if verify && LogFormat.Unmask(DecodeFixed32(trailer[1..])) != crc(data + [trailer[0]]) then Mismatch
      else if trailer[0] != 0 then BadType
      else Contents(data)
  }

  lemma {:induction false} BlockRoundTrip(crc: Checksum, verify: bool, file: seq<Byte>, h: Handle, data: seq<Byte>)
    requires At(file, h.offset, data + Trailer(crc, data)) && h.size == |data|
    ensures ReadBlock(crc, verify, file, h) == Contents(data)
  {
    var trailer, word := Trailer(crc, data), LogFormat.Mask(crc(data + [0]));
    AtSplit(file, h.offset, data, trailer, h.offset + |data|);
    assert trailer[1..] == EncodeFixed32(word);
    Fixed32RoundTrip(word);
    LogFormat.UnmaskMask(crc(data + [0]));
  }

  // ---------- What a table file holds ----------

  /** The bytes of a block with these entries, restart array and all. */
  ghost predicate Holds(data: seq<Byte>, limit: nat, es: seq<Blocks.Pair>, sh: Blocks.Shape) {
    && Blocks.IsBlock(data, limit, es, sh) && |data| == limit + 4 * |sh.rs| + 4
    && DecodeFixed32(data[|data| - 4..]) == |sh.rs|
  }

  ghost predicate IsWhole(data: seq<Byte>, es: seq<Blocks.Pair>) { exists limit, sh :: Holds(data, limit, es, sh) }

  /** Behind the handle are these bytes and their trailer. */
  ghost predicate Stored(crc: Checksum, file: seq<Byte>, h: Handle, data: seq<Byte>) {
    h.size == |data| && At(file, h.offset, data + Trailer(crc, data))
  }

  ghost predicate StoresBlock(crc: Checksum, file: seq<Byte>, h: Handle, es: seq<Blocks.Pair>) {
    exists data :: Stored(crc, file, h, data) && IsWhole(data, es)
  }

  lemma ReadStored(crc: Checksum, verify: bool, file: seq<Byte>, h: Handle, es: seq<Blocks.Pair>)
    requires StoresBlock(crc, file, h, es)
    ensures ReadBlock(crc, verify, file, h).Contents? && IsWhole(ReadBlock(crc, verify, file, h).data, es)
  {
    var data :| Stored(crc, file, h, data) && IsWhole(data, es);
    BlockRoundTrip(crc, verify, file, h, data);
  }

  ghost predicate AllTagged(items: seq<Item>) { forall i :: 0 <= i < |items| ==> Tagged(items[i].key) }

  function Pairs(items: seq<Item>): (es: seq<Blocks.Pair>)
    requires AllTagged(items)
    ensures |es| == |items|
  {
    seq(|items|, i requires 0 <= i < |items| => Blocks.Pair(EncodeKey(items[i].key), items[i].value))
  }

  /** The entries of the index block. */
  function IndexPairs(index: seq<IKey>, handles: seq<Handle>): (es: seq<Blocks.Pair>)
    requires |index| == |handles| && forall i :: 0 <= i < |index| ==> Tagged(index[i])
    ensures |es| == |index|
  {
    seq(|index|, i requires 0 <= i < |index| => Blocks.Pair(EncodeKey(index[i]), EncodeHandle(handles[i])))
  }

  /** Every data block is stored behind its handle. */
  ghost predicate DataStored(crc: Checksum, file: seq<Byte>, blocks: seq<DataBlock>, handles: seq<Handle>) {
    && |handles| == |blocks|
    && forall i :: 0 <= i < |blocks| ==>
      AllTagged(blocks[i].items) && handles[i].offset == blocks[i].offset
      && StoresBlock(crc, file, handles[i], Pairs(blocks[i].items))
  }

  ghost predicate IndexStored(data: seq<Byte>, index: seq<IKey>, handles: seq<Handle>) {
    && |index| == |handles| && (forall i :: 0 <= i < |index| ==> Tagged(index[i]))
    && IsWhole(data, IndexPairs(index, handles))
  }

  // ---------- Looking up a key ----------

  lemma PairsIncrease(items: seq<Item>)
    requires AllTagged(items) && Tables.Increasing(items)
    ensures Blocks.Increasing(KEY_ORDER, Pairs(items))
  {
    KeyOrderTransitive();
    var es := Pairs(items);
    forall i, j | 0 <= i < j < |es| ensures KEY_ORDER(es[i].key, es[j].key) {
      KeyRoundTrip(items[i].key);
      KeyRoundTrip(items[j].key);
    }
  }

  /** The index keys of a table increase. */
  lemma IndexIncreases(blocks: seq<DataBlock>, index: seq<IKey>, i: nat, j: nat)
    requires Indexed(blocks, index) && i < j < |index|
    ensures KLess(index[i], index[j])
    decreases j - i
  {
    var next := i + 1;
    assert Separates(Last(blocks[i]), index[i], blocks[next].items[0].key);
    var first, last := blocks[next].items[0].key, Last(blocks[next]);
    KLessTotal(index[next], last);
    if |blocks[next].items| > 1 { KLessTransitive(index[i], first, last); }
    if last != index[next] { KLessTransitive(index[i], last, index[next]); }
    if next < j {
      IndexIncreases(blocks, index, next, j);
      KLessTransitive(index[i], index[next], index[j]);
    }
  }

  lemma IndexPairsIncrease(blocks: seq<DataBlock>, index: seq<IKey>, handles: seq<Handle>)
    requires Indexed(blocks, index) && |handles| == |index| && forall i :: 0 <= i < |index| ==> Tagged(index[i])
    ensures Blocks.Increasing(KEY_ORDER, IndexPairs(index, handles))
  {
    KeyOrderTransitive();
    var es := IndexPairs(index, handles);
    forall i, j | 0 <= i < j < |es| ensures KEY_ORDER(es[i].key, es[j].key) {
      KeyRoundTrip(index[i]);
      KeyRoundTrip(index[j]);
      IndexIncreases(blocks, index, i, j);
    }
  }

  /** A new iterator on the bytes of a block, moved to the first entry not before the key. */
  method SeekIn(data: seq<Byte>, target: Text, ghost es: seq<Blocks.Pair>)
    returns (found: Option<Blocks.Pair>, ghost i: nat)
    requires IsWhole(data, es) && Blocks.Increasing(KEY_ORDER, es)
    ensures Blocks.SeekPos(KEY_ORDER, es, target, i) && found == if i < |es| then Some(es[i]) else None
  {
    ghost var limit, sh :| Holds(data, limit, es, sh);
    var iter := new Blocks.Iter(KEY_ORDER, data, limit, es, sh);
    iter.Seek(target);
    iter.ValidIsInside();
    i := iter.pos;
    found := if iter.IsValid() then Some(Blocks.Pair(iter.key, iter.value)) else None;
  }

  lemma {:induction false} IndexSeek(blocks: seq<DataBlock>, index: seq<IKey>, handles: seq<Handle>, k: IKey, i: nat)
    requires Indexed(blocks, index) && |handles| == |index| && Tagged(k)
    requires forall x :: 0 <= x < |index| ==> Tagged(index[x])
    requires Blocks.SeekPos(KEY_ORDER, IndexPairs(index, handles), EncodeKey(k), i)
    ensures AllBefore(blocks, k, i) && (i < |index| ==> !KLess(index[i], k))
  {
    var es := IndexPairs(index, handles);
    KeyRoundTrip(k);
    forall x | 0 <= x < |index| ensures KEY_ORDER(es[x].key, EncodeKey(k)) <==> KLess(index[x], k) {
      KeyRoundTrip(index[x]);
    }
    forall x, y | 0 <= x < i && 0 <= y < |blocks[x].items| ensures KLess(blocks[x].items[y].key, k) {
      assert KEY_ORDER(es[x].key, EncodeKey(k));
      BlockBefore(blocks, index, k, x, y);
    }
  }

  lemma {:induction false} ItemsSeek(items: seq<Item>, k: IKey, j: nat)
    requires AllTagged(items) && Tagged(k) && Blocks.SeekPos(KEY_ORDER, Pairs(items), EncodeKey(k), j)
    ensures forall y :: 0 <= y < j ==> KLess(items[y].key, k)
    ensures j < |items| ==> !KLess(items[j].key, k)
  {
    var es := Pairs(items);
    KeyRoundTrip(k);
    forall y | 0 <= y < |items| ensures KEY_ORDER(es[y].key, EncodeKey(k)) <==> KLess(items[y].key, k) {
      KeyRoundTrip(items[y].key);
    }
    forall y | 0 <= y < j ensures KLess(items[y].key, k) { assert KEY_ORDER(es[y].key, EncodeKey(k)); }
  }

  /** An item of the sought user key is handed over exactly when a linear search finds it. */
  ghost predicate HandsOver(blocks: seq<DataBlock>, k: IKey, r: Option<Item>) {
    forall item :: LinearFinds(blocks, k, item) <==> r == Some(item) && item.key.user == k.user
  }

  lemma HandsOverNone(blocks: seq<DataBlock>, index: seq<IKey>, k: IKey, i: nat)
    requires Indexed(blocks, index) && AllBefore(blocks, k, i) && (i < |blocks| ==> !KLess(index[i], k))
    requires i < |blocks| ==> forall y :: 0 <= y < |blocks[i].items| ==>
      KLess(blocks[i].items[y].key, k) || blocks[i].items[y].key.user != k.user
    ensures HandsOver(blocks, k, None)
  {
    forall item ensures !LinearFinds(blocks, k, item) { NotFound(blocks, index, k, i, item); }
  }

  lemma HandsOverItem(blocks: seq<DataBlock>, index: seq<IKey>, k: IKey, i: nat, j: nat)
    requires Indexed(blocks, index) && AllBefore(blocks, k, i) && i < |blocks| && !KLess(index[i], k)
    requires FirstAt(blocks, k, i, j)
    ensures HandsOver(blocks, k, Some(blocks[i].items[j]))
  {
    forall item
      ensures LinearFinds(blocks, k, item) <==> Some(blocks[i].items[j]) == Some(item) && item.key.user == k.user
    {
      FoundInBlock(blocks, index, k, i, j, item);
    }
  }

  /** The index entry for the key: its place, and the handle in it. */
  method SeekHandle(indexData: seq<Byte>, k: IKey, ghost blocks: seq<DataBlock>, ghost index: seq<IKey>,
                    ghost handles: seq<Handle>)
    returns (h: Option<Handle>, ghost i: nat)
    requires Indexed(blocks, index) && Tagged(k) && IndexStored(indexData, index, handles)
    ensures AllBefore(blocks, k, i) && (i < |index| ==> !KLess(index[i], k))
    ensures h == if i < |handles| then Some(handles[i]) else None
  {
    IndexPairsIncrease(blocks, index, handles);
    var found;
    found, i := SeekIn(indexData, EncodeKey(k), IndexPairs(index, handles));
    IndexSeek(blocks, index, handles, k, i);
    h := None;
    if found.Some? {
      var value := found.value.value;
      assert At(value, 0, EncodeHandle(handles[i]));
      HandleRoundTrip(value, 0, handles[i], |value|);
      h := Some(DecodeHandle(value, 0).handle);
    }
  }

  /** The data block behind the handle, searched. */
  method GetFromBlock(crc: Checksum, verify: bool, file: seq<Byte>, h: Handle, k: IKey, ghost blocks: seq<DataBlock>,
                      ghost index: seq<IKey>, ghost i: nat)
    returns (r: Option<Item>)
    requires Indexed(blocks, index) && Tagged(k) && i < |blocks| && AllBefore(blocks, k, i) && !KLess(index[i], k)
    requires AllTagged(blocks[i].items) && StoresBlock(crc, file, h, Pairs(blocks[i].items))
    ensures HandsOver(blocks, k, r)
  {
    ghost var items := blocks[i].items;
    PairsIncrease(items);
    ReadStored(crc, verify, file, h, Pairs(items));
    var contents := ReadBlock(crc, verify, file, h);
    var found, j := SeekIn(contents.data, EncodeKey(k), Pairs(items));
    ItemsSeek(items, k, j);
    if found.None? {
      HandsOverNone(blocks, index, k, i);
      return None;
    }
    KeyRoundTrip(items[j].key);
    assert FirstAt(blocks, k, i, j);
    HandsOverItem(blocks, index, k, i, j);
    r := Some(Item(DecodeKey(found.value.key), found.value.value));
  }

  /** Table::InternalGet on the bytes of a table: index block, filter, data block. */
  method InternalGet(crc: Checksum, verify: bool, policy: Policy, file: seq<Byte>, indexData: seq<Byte>,
                     filter: Option<seq<Byte>>, k: IKey, ghost blocks: seq<DataBlock>, ghost index: seq<IKey>,
                     ghost handles: seq<Handle>, ghost lists: seq<seq<Text>>)
    returns (r: Option<Item>)
    requires Indexed(blocks, index) && DataStored(crc, file, blocks, handles) && IndexStored(indexData, index, handles)
    requires Tagged(k) && NoFalseNegatives(policy)
    requires filter.Some? ==> IsFilterBlock(policy, filter.value, lists) && Listed(blocks, lists, [])
    ensures HandsOver(blocks, k, r)
  {
    var h, i := SeekHandle(indexData, k, blocks, index, handles);
    if h.None? {
      HandsOverNone(blocks, index, k, i);
      return None;
    }
    if filter.Some? {
      var may := BlockKeyMayMatch(policy, filter.value, h.value.offset, k.user, lists);
      if !may {
        DeniedMeansAbsent(policy, blocks, lists, i, k.user);
        HandsOverNone(blocks, index, k, i);
        return None;
      }
    }
    r := GetFromBlock(crc, verify, file, h.value, k, blocks, index, i);
  }

  // ---------- Footer and metaindex ----------

  const HANDLES: nat := 40
  const FOOTER: nat := 48
  const MAGIC: Word64 := 0xdb47_7524_8b80_fb57

  datatype Footer = Footer(meta: Handle, index: Handle)

  lemma {:induction false} HandleFits(h: Handle)
    ensures |EncodeHandle(h)| <= 20
  {
    TenBytes();
    Blocks.VarintLength(h.offset, 10);
    Blocks.VarintLength(h.size, 10);
  }

  /** Footer::EncodeTo: the two handles, padding, and the magic number. */
  function EncodeFooter(f: Footer): (r: seq<Byte>)
    ensures |r| == FOOTER
  {
    HandleFits(f.meta);
    HandleFits(f.index);
    var handles := EncodeHandle(f.meta) + EncodeHandle(f.index);
    handles + (seq(HANDLES - |handles|, _ => 0) + EncodeFixed64(MAGIC))
  }

  /** Footer::DecodeFrom. */
  function DecodeFooter(b: seq<Byte>): Option<Footer>
    requires |b| == FOOTER
  {
    if DecodeFixed64(b[HANDLES..]) != MAGIC then None
    else
      var meta := DecodeHandle(b, 0);
      if meta.NoHandle? then None
      else
        var index := DecodeHandle(b, meta.next);
        if index.NoHandle? then None else Some(Footer(meta.handle, index.handle))
  }

  lemma {:induction false} FooterRoundTrip(f: Footer)
    ensures DecodeFooter(EncodeFooter(f)) == Some(f)
  {
    HandleFits(f.meta);
    HandleFits(f.index);
    var b, meta, index := EncodeFooter(f), EncodeHandle(f.meta), EncodeHandle(f.index);
    var rest: seq<Byte> := seq(HANDLES - |meta + index|, _ => 0) + EncodeFixed64(MAGIC);
    assert At(b, 0, (meta + index) + rest);
    AtSplit(b, 0, meta + index, rest, |meta + index|);
    AtSplit(b, 0, meta, index, |meta|);
    HandleRoundTrip(b, 0, f.meta, |meta|);
    HandleRoundTrip(b, |meta|, f.index, |meta + index|);
    assert b[HANDLES..] == EncodeFixed64(MAGIC);
    Fixed64RoundTrip(MAGIC);
  }

  /** "filter." */
  const FILTER_PREFIX: Text := [102, 105, 108, 116, 101, 114, 46]

  function FilterKey(name: Text): Text { FILTER_PREFIX + name }

  /** BytewiseComparator. */
  const BYTEWISE: Blocks.Order := (a, b) => LexLess(a, b)

  lemma BytewiseTransitive()
    ensures Blocks.Transitive(BYTEWISE)
  {
    forall a, b, c | BYTEWISE(a, b) && BYTEWISE(b, c) ensures BYTEWISE(a, c) { LexTransitive(a, b, c); }
  }

  /** Behind the handle is a filter block for the user keys of the table. */
  ghost predicate FilterBehind(crc: Checksum, file: seq<Byte>, handle: seq<Byte>, policy: Policy,
                               blocks: seq<DataBlock>, lists: seq<seq<Text>>) {
    exists h, contents :: handle == EncodeHandle(h) && Stored(crc, file, h, contents)
      && IsFilterBlock(policy, contents, lists) && Listed(blocks, lists, [])
  }

  /** The metaindex block's entry of that name, if there is one, leads to such a block. */
  ghost predicate MetaOk(crc: Checksum, file: seq<Byte>, metas: seq<Blocks.Pair>, name: Text, policy: Policy,
                         blocks: seq<DataBlock>, lists: seq<seq<Text>>) {
    && Blocks.Increasing(BYTEWISE, metas)
    && forall i :: 0 <= i < |metas| && metas[i].key == FilterKey(name) ==>
      FilterBehind(crc, file, metas[i].value, policy, blocks, lists)
  }

  ghost predicate StoresIndex(crc: Checksum, file: seq<Byte>, h: Handle, index: seq<IKey>, handles: seq<Handle>) {
    exists data :: Stored(crc, file, h, data) && IndexStored(data, index, handles)
  }

  /** The file ends with a footer that leads to the index of its data blocks and to its metaindex. */
  ghost predicate IsTable(crc: Checksum, file: seq<Byte>, blocks: seq<DataBlock>, index: seq<IKey>,
                          handles: seq<Handle>, metas: seq<Blocks.Pair>, footer: Footer) {
    && Indexed(blocks, index) && DataStored(crc, file, blocks, handles)
    && |file| >= FOOTER && At(file, |file| - FOOTER, EncodeFooter(footer))
    && StoresIndex(crc, file, footer.index, index, handles) && StoresBlock(crc, file, footer.meta, metas)
  }

  datatype Opened = Opened(index: seq<Byte>, filter: Option<seq<Byte>>)

  /** Table::ReadMeta and ReadFilter: the filter block of this name, if it can be found and read. */
  method ReadMeta(crc: Checksum, file: seq<Byte>, h: Handle, name: Text, policy: Policy, ghost metas: seq<Blocks.Pair>,
                  ghost blocks: seq<DataBlock>, ghost lists: seq<seq<Text>>)
    returns (filter: Option<seq<Byte>>)
    requires StoresBlock(crc, file, h, metas) && MetaOk(crc, file, metas, name, policy, blocks, lists)
    ensures filter.Some? ==> IsFilterBlock(policy, filter.value, lists) && Listed(blocks, lists, [])
    ensures filter.Some? <==> exists i :: 0 <= i < |metas| && metas[i].key == FilterKey(name)
  {
    ReadStored(crc, false, file, h, metas);
    var contents := ReadBlock(crc, false, file, h);
    var found, i := SeekMeta(contents.data, FilterKey(name), metas);
    filter := None;
    if found.Some? && found.value.key == FilterKey(name) {
      filter := ReadFilter(crc, file, found.value.value, policy, blocks, lists);
    }
  }

  method ReadFilter(crc: Checksum, file: seq<Byte>, handle: seq<Byte>, policy: Policy, ghost blocks: seq<DataBlock>,
                    ghost lists: seq<seq<Text>>)
    returns (filter: Option<seq<Byte>>)
    requires FilterBehind(crc, file, handle, policy, blocks, lists)
    ensures filter.Some? && IsFilterBlock(policy, filter.value, lists) && Listed(blocks, lists, [])
  {
    ghost var h, contents :| handle == EncodeHandle(h) && Stored(crc, file, h, contents)
      && IsFilterBlock(policy, contents, lists) && Listed(blocks, lists, []);
    assert At(handle, 0, EncodeHandle(h));
    HandleRoundTrip(handle, 0, h, |handle|);
    BlockRoundTrip(crc, false, file, h, contents);
    var read := DecodeHandle(handle, 0);
    var block := ReadBlock(crc, false, file, read.handle);
    filter := Some(block.data);
  }

  method SeekMeta(data: seq<Byte>, target: Text, ghost metas: seq<Blocks.Pair>)
    returns (found: Option<Blocks.Pair>, ghost i: nat)
    requires IsWhole(data, metas) && Blocks.Increasing(BYTEWISE, metas)
    ensures found == if i < |metas| then Some(metas[i]) else None
    ensures forall j :: 0 <= j < |metas| && metas[j].key == target ==> j == i
  {
    ghost var limit, sh :| Holds(data, limit, metas, sh);
    var iter := new Blocks.Iter(BYTEWISE, data, limit, metas, sh);
    iter.Seek(target);
    iter.ValidIsInside();
    i := iter.pos;
    found := if iter.IsValid() then Some(Blocks.Pair(iter.key, iter.value)) else None;
    forall j | 0 <= j < |metas| && metas[j].key == target ensures j == i { OnlyPlace(metas, target, i, j); }
  }

  lemma OnlyPlace(metas: seq<Blocks.Pair>, target: Text, i: nat, j: nat)
    requires Blocks.Increasing(BYTEWISE, metas) && Blocks.SeekPos(BYTEWISE, metas, target, i)
    requires j < |metas| && metas[j].key == target
    ensures j == i
  {
    LexTotal(target, target);
    assert !BYTEWISE(metas[j].key, target);
    assert i <= j;
    assert forall x :: 0 <= x < j ==> BYTEWISE(metas[x].key, metas[j].key);
  }

  /** Table::Open: footer, index block, and the filter if the options name a policy. */
  method Open(crc: Checksum, file: seq<Byte>, name: Option<Text>, policy: Policy, ghost blocks: seq<DataBlock>,
              ghost index: seq<IKey>, ghost handles: seq<Handle>, ghost metas: seq<Blocks.Pair>, ghost footer: Footer,
              ghost lists: seq<seq<Text>>)
    returns (t: Opened)
    requires IsTable(crc, file, blocks, index, handles, metas, footer)
    requires name.Some? ==> MetaOk(crc, file, metas, name.value, policy, blocks, lists)
    ensures IndexStored(t.index, index, handles)
    ensures t.filter.Some? ==> IsFilterBlock(policy, t.filter.value, lists) && Listed(blocks, lists, [])
    ensures t.filter.Some? <==> name.Some? && exists i :: 0 <= i < |metas| && metas[i].key == FilterKey(name.value)
  {
    var at := ReadFooter(file);
    FooterIsRead(file, footer);
    ReadIndex(crc, file, footer.index, index, handles);
    var contents := ReadBlock(crc, false, file, at.value.index);
    var filter := None;
    if name.Some? {
      filter := ReadMeta(crc, file, at.value.meta, name.value, policy, metas, blocks, lists);
    }
    t := Opened(contents.data, filter);
  }

  /** The end of the file, if it is long enough and has the magic number. */
  function ReadFooter(file: seq<Byte>): Option<Footer> {
    if |file| < FOOTER then None else DecodeFooter(file[|file| - FOOTER..])
  }

  lemma FooterIsRead(file: seq<Byte>, footer: Footer)
    requires |file| >= FOOTER && At(file, |file| - FOOTER, EncodeFooter(footer))
    ensures ReadFooter(file) == Some(footer)
  {
    FooterRoundTrip(footer);
    assert file[|file| - FOOTER..] == EncodeFooter(footer);
  }

  lemma ReadIndex(crc: Checksum, file: seq<Byte>, h: Handle, index: seq<IKey>, handles: seq<Handle>)
    requires StoresIndex(crc, file, h, index, handles)
    ensures ReadBlock(crc, false, file, h).Contents?
    ensures IndexStored(ReadBlock(crc, false, file, h).data, index, handles)
  {
    var data :| Stored(crc, file, h, data) && IndexStored(data, index, handles);
    BlockRoundTrip(crc, false, file, h, data);
  }

  /** Opening the bytes of a table and looking up a key in them hands over what a linear search would find. */
  method OpenAndGet(crc: Checksum, verify: bool, file: seq<Byte>, name: Option<Text>, policy: Policy, k: IKey,
                    ghost blocks: seq<DataBlock>, ghost index: seq<IKey>, ghost handles: seq<Handle>,
                    ghost metas: seq<Blocks.Pair>, ghost footer: Footer, ghost lists: seq<seq<Text>>)
    returns (r: Option<Item>)
    requires IsTable(crc, file, blocks, index, handles, metas, footer) && NoFalseNegatives(policy) && Tagged(k)
    requires name.Some? ==> MetaOk(crc, file, metas, name.value, policy, blocks, lists)
    ensures HandsOver(blocks, k, r)
  {
    var t := Open(crc, file, name, policy, blocks, index, handles, metas, footer, lists);
    r := InternalGet(crc, verify, policy, file, t.index, t.filter, k, blocks, index, handles, lists);
  }
}
