/** Fixed-length records and slotted pages with a bitmap at the end of the page. */
module Pages {
  import opened Arithmetic
  import opened Coding

  // ---------- Records ----------

  const ATTRIBUTE_SIZE: nat := 10

  /** A C string: no NUL inside. */
  type Text = s: seq<Byte> | forall i :: 0 <= i < |s| ==> s[i] != 0

  type Record = seq<Text>

  /** strncpy into a field of `n` bytes: truncated, and padded with NULs. */
  function Field(s: seq<Byte>, n: nat): (r: seq<Byte>)
    ensures |r| == n
  {
    if n == 0 then [] else if s == [] then [0] + Field(s, n - 1) else [s[0]] + Field(s[1..], n - 1)
  }

  /** strncpy out of a field: up to the first NUL. */
  function ToText(b: seq<Byte>): Text {
    if b == [] || b[0] == 0 then []
    else
      var rest := ToText(b[1..]);
      assert forall i :: 1 <= i < |rest| + 1 ==> ([b[0]] + rest)[i] == rest[i - 1];
      [b[0]] + rest
  }

  function Truncated(s: Text): Text { if |s| <= ATTRIBUTE_SIZE then s else s[..ATTRIBUTE_SIZE] }

  lemma {:induction false} FieldRoundTrip(s: Text, n: nat)
    ensures ToText(Field(s, n)) == if |s| <= n then s else s[..n]
  {
    if n > 0 && s != [] {
      var rest: Text := s[1..];
      FieldRoundTrip(rest, n - 1);
      assert Field(s, n)[1..] == Field(rest, n - 1);
      assert s == [s[0]] + rest && (|s| > n ==> s[..n] == [s[0]] + rest[..n - 1]);
    } else if n > 0 {
      assert Field(s, n)[0] == 0;
    }
  }

  /** fixed_len_write and fixed_len_read. */
  function WriteRecord(r: Record): (b: seq<Byte>)
    ensures |b| == ATTRIBUTE_SIZE * |r|
  {
    if r == [] then [] else Field(r[0], ATTRIBUTE_SIZE) + WriteRecord(r[1..])
  }

  function ReadRecord(b: seq<Byte>, n: nat): (r: Record)
    requires |b| == ATTRIBUTE_SIZE * n
    ensures |r| == n
  {
    if n == 0 then [] else [ToText(b[..ATTRIBUTE_SIZE])] + ReadRecord(b[ATTRIBUTE_SIZE..], n - 1)
  }

  function TruncatedRecord(r: Record): Record {
    if r == [] then [] else [Truncated(r[0])] + TruncatedRecord(r[1..])
  }

  lemma {:induction false} RecordRoundTrip(r: Record)
    ensures ReadRecord(WriteRecord(r), |r|) == TruncatedRecord(r)
  {
    if r != [] {
      var first := Field(r[0], ATTRIBUTE_SIZE);
      assert WriteRecord(r)[..ATTRIBUTE_SIZE] == first && WriteRecord(r)[ATTRIBUTE_SIZE..] == WriteRecord(r[1..]);
      FieldRoundTrip(r[0], ATTRIBUTE_SIZE);
      RecordRoundTrip(r[1..]);
    }
  }

  // ---------- Layout ----------

  datatype Layout = Layout(pageSize: nat, slotSize: nat) {
    predicate Ok() { 0 < slotSize < pageSize }

    /** fixed_len_page_capacity, with ceil(x / 8.0) as (x + 7) / 8. */
    function Capacity(): nat
      requires Ok()
    {
      var directorySize := (pageSize / slotSize + 7) / 8;
      DirectoryFits(pageSize, slotSize);
      (pageSize - directorySize) / slotSize
    }

    /** Attributes per record. */
    function Width(): nat
      requires Ok()
    {
      slotSize / ATTRIBUTE_SIZE
    }
  }

  lemma Monotone(a: nat, b: nat, d: nat)
    requires a <= b
    ensures a * d <= b * d
  {}

  lemma DirectoryFits(ps: nat, ss: nat)
    requires 0 < ss < ps
    ensures (ps / ss + 7) / 8 + ss <= ps
  {
    var q := ps / ss;
    DivAtLeast(ps, ss, 1);
    DivAtLeast(ps, ss, q);
    if q >= 2 {
      assert q * ss == (q - 1) * ss + ss;
      Monotone(1, ss, q - 1);
      assert (q - 1) * ss == ss * (q - 1);
    }
  }

  /** At least one record fits, and the slots end where the bitmap begins. */
  lemma LayoutFits(lay: Layout)
    requires lay.Ok()
    ensures lay.Capacity() >= 1 && lay.Capacity() * lay.slotSize + (lay.Capacity() + 7) / 8 <= lay.pageSize
  {
    var ps, ss := lay.pageSize, lay.slotSize;
    var d := (ps / ss + 7) / 8;
    DirectoryFits(ps, ss);
    var room := ps - d;
    var cap := room / ss;
    DivAtLeast(room, ss, 1);
    DivAtLeast(room, ss, cap);
    DivAtLeast(ps, ss, cap);
  }

  /** A record's bytes lie below the byte of any slot's flag. */
  lemma SlotFits(lay: Layout, slot: nat, other: nat)
    requires lay.Ok() && slot < lay.Capacity() && other < lay.Capacity()
    ensures slot * lay.slotSize + ATTRIBUTE_SIZE * lay.Width() <= slot * lay.slotSize + lay.slotSize
    ensures slot * lay.slotSize + lay.slotSize <= lay.pageSize - 1 - other / 8
  {
    LayoutFits(lay);
    Monotone(slot + 1, lay.Capacity(), lay.slotSize);
    assert (slot + 1) * lay.slotSize == slot * lay.slotSize + lay.slotSize;
    assert other / 8 + 1 <= (lay.Capacity() + 7) / 8;
  }

  lemma SlotsApart(lay: Layout, slot: nat, other: nat)
    requires lay.Ok() && slot < other
    ensures slot * lay.slotSize + lay.slotSize <= other * lay.slotSize
  {
    Monotone(slot + 1, other, lay.slotSize);
    assert (slot + 1) * lay.slotSize == slot * lay.slotSize + lay.slotSize;
  }

  // ---------- Slots ----------

  function FlagByte(lay: Layout, slot: nat): int { lay.pageSize - 1 - slot / 8 }

  predicate IsPage(lay: Layout, data: seq<Byte>) { lay.Ok() && |data| == lay.pageSize }

  predicate Flag(lay: Layout, data: seq<Byte>, slot: nat)
    requires IsPage(lay, data) && slot < lay.Capacity()
  {
    SlotFits(lay, 0, slot);
    Bit(data[FlagByte(lay, slot)], slot % 8)
  }

  /** What read_fixed_len_page returns; the flag is not looked at. */
  function RecordAt(lay: Layout, data: seq<Byte>, slot: nat): (r: Record)
    requires IsPage(lay, data) && slot < lay.Capacity()
    ensures |r| == lay.Width()
  {
    SlotFits(lay, slot, 0);
    var from := slot * lay.slotSize;
    ReadRecord(data[from..from + ATTRIBUTE_SIZE * lay.Width()], lay.Width())
  }

  function Overwrite(data: seq<Byte>, from: nat, b: seq<Byte>): (r: seq<Byte>)
    requires from + |b| <= |data|
    ensures |r| == |data|
  {
    data[..from] + b + data[from + |b|..]
  }

  lemma OverwriteAt(data: seq<Byte>, from: nat, b: seq<Byte>, i: nat, j: nat)
    requires from + |b| <= |data| && i <= j <= |data|
    ensures i == from && j == from + |b| ==> Overwrite(data, from, b)[i..j] == b
    ensures j <= from || from + |b| <= i ==> Overwrite(data, from, b)[i..j] == data[i..j]
  {
    var r := Overwrite(data, from, b);
    assert forall k :: 0 <= k < |data| && (k < from || from + |b| <= k) ==> r[k] == data[k];
  }

  /** write_fixed_len_page: a record of fewer attributes leaves the others in the slot as they were. */
  function WriteSlot(lay: Layout, data: seq<Byte>, slot: nat, r: Record): (data': seq<Byte>)
    requires IsPage(lay, data) && slot < lay.Capacity() && |r| <= lay.Width()
    ensures IsPage(lay, data')
  {
    SlotFits(lay, slot, slot);
    var d := Overwrite(data, slot * lay.slotSize, WriteRecord(r));
    var index := FlagByte(lay, slot);
    d[index := SetBit(d[index], slot % 8)]
  }

  /** delete_fixed_len_page. */
  function ClearSlot(lay: Layout, data: seq<Byte>, slot: nat): (data': seq<Byte>)
    requires IsPage(lay, data) && slot < lay.Capacity()
    ensures IsPage(lay, data')
  {
    SlotFits(lay, 0, slot);
    var index := FlagByte(lay, slot);
    data[index := ClearBit(data[index], slot % 8)]
  }

  lemma SameSlot(lay: Layout, slot: nat, t: nat)
    ensures FlagByte(lay, slot) == FlagByte(lay, t) && slot % 8 == t % 8 <==> slot == t
  {
    assert slot == 8 * (slot / 8) + slot % 8 && t == 8 * (t / 8) + t % 8;
  }

  lemma SetInData(data: seq<Byte>, index: nat, k: BitNo, other: nat, j: BitNo)
    requires index < |data| && other < |data|
    ensures Bit(data[index := SetBit(data[index], k)][other], j) == ((index == other && j == k) || Bit(data[other], j))
  {
    if index == other { BitAfterSet(data[index], k, j); }
  }

  lemma ClearInData(data: seq<Byte>, index: nat, k: BitNo, other: nat, j: BitNo)
    requires index < |data| && other < |data|
    ensures Bit(data[index := ClearBit(data[index], k)][other], j)
        == (!(index == other && j == k) && Bit(data[other], j))
  {
    if index == other { BitAfterClear(data[index], k, j); }
  }

  ghost predicate Spans(lay: Layout, slot: nat, from: nat, to: nat)
    requires lay.Ok()
  {
    from == slot * lay.slotSize && to == from + ATTRIBUTE_SIZE * lay.Width()
  }

  lemma AtIs(lay: Layout, data: seq<Byte>, slot: nat, from: nat, to: nat)
    requires IsPage(lay, data) && slot < lay.Capacity() && Spans(lay, slot, from, to)
    ensures from <= to <= |data| && RecordAt(lay, data, slot) == ReadRecord(data[from..to], lay.Width())
  {
    SlotFits(lay, slot, 0);
  }

  lemma SpansApart(lay: Layout, slot: nat, t: nat, at: nat, end: nat, from: nat, to: nat)
    requires lay.Ok() && slot != t && Spans(lay, slot, at, end) && Spans(lay, t, from, to)
    ensures to <= at || end <= from
  {
    if t < slot { SlotsApart(lay, t, slot); } else { SlotsApart(lay, slot, t); }
  }

  lemma SpanBelowFlags(lay: Layout, slot: nat, t: nat, from: nat, to: nat)
    requires lay.Ok() && slot < lay.Capacity() && t < lay.Capacity() && Spans(lay, t, from, to)
    ensures to <= FlagByte(lay, slot) < lay.pageSize
  {
    SlotFits(lay, t, slot);
  }

  lemma WrittenIs(lay: Layout, data: seq<Byte>, slot: nat, r: Record, at: nat, end: nat, v: Byte)
    requires IsPage(lay, data) && slot < lay.Capacity() && |r| <= lay.Width() && Spans(lay, slot, at, end)
    requires 0 <= FlagByte(lay, slot) < |data| && end <= |data|
    requires v == SetBit(Overwrite(data, at, WriteRecord(r))[FlagByte(lay, slot)], slot % 8)
    ensures WriteSlot(lay, data, slot, r) == Overwrite(data, at, WriteRecord(r))[FlagByte(lay, slot) := v]
  {}

  lemma FlagOf(lay: Layout, data: seq<Byte>, t: nat, index: nat, bit: BitNo)
    requires IsPage(lay, data) && t < lay.Capacity() && index == FlagByte(lay, t) && bit == t % 8
    ensures index < |data| && Flag(lay, data, t) == Bit(data[index], bit)
  {
    SlotFits(lay, 0, t);
  }

  lemma WriteSetsFlag(lay: Layout, data: seq<Byte>, slot: nat, r: Record, t: nat)
    requires IsPage(lay, data) && slot < lay.Capacity() && t < lay.Capacity() && |r| <= lay.Width()
    ensures Flag(lay, WriteSlot(lay, data, slot, r), t) == (t == slot || Flag(lay, data, t))
  {
    var at := slot * lay.slotSize;
    WriteSetsFlagAt(lay, data, slot, r, t, at, at + ATTRIBUTE_SIZE * lay.Width());
  }

  lemma WriteSetsFlagAt(lay: Layout, data: seq<Byte>, slot: nat, r: Record, t: nat, at: nat, end: nat)
    requires IsPage(lay, data) && slot < lay.Capacity() && t < lay.Capacity() && |r| <= lay.Width()
    requires Spans(lay, slot, at, end)
    ensures Flag(lay, WriteSlot(lay, data, slot, r), t) == (t == slot || Flag(lay, data, t))
  {
    SpanBelowFlags(lay, slot, slot, at, end);
    SpanBelowFlags(lay, t, slot, at, end);
    var d := Overwrite(data, at, WriteRecord(r));
    var index, other := FlagByte(lay, slot), FlagByte(lay, t);
    WrittenIs(lay, data, slot, r, at, end, SetBit(d[index], slot % 8));
    FlagOf(lay, data, t, other, t % 8);
    FlagOf(lay, WriteSlot(lay, data, slot, r), t, other, t % 8);
    assert d[other] == data[other];
    SameSlot(lay, slot, t);
    SetInData(d, index, slot % 8, other, t % 8);
  }

  /** A record written over another: its own attributes, cut to size, and then the other's. */
  function Over(was: Record, r: Record): (now: Record)
    requires |r| <= |was|
    ensures |now| == |was|
  {
    TruncatedSize(r);
    TruncatedRecord(r) + was[|r|..]
  }

  lemma {:induction false} TruncatedSize(r: Record)
    ensures |TruncatedRecord(r)| == |r|
  {
    if r != [] { TruncatedSize(r[1..]); }
  }

  lemma {:induction false} ReadSplit(b: seq<Byte>, n: nat, k: nat, mid: nat)
    requires |b| == ATTRIBUTE_SIZE * n && k <= n && mid == ATTRIBUTE_SIZE * k
    ensures ReadRecord(b, n) == ReadRecord(b[..mid], k) + ReadRecord(b[mid..], n - k)
  {
    if k == 0 {
      assert b[mid..] == b && ReadRecord(b[..mid], k) == [];
    } else {
      var rest := b[ATTRIBUTE_SIZE..];
      ReadSplit(rest, n - 1, k - 1, mid - ATTRIBUTE_SIZE);
      assert b[..mid][..ATTRIBUTE_SIZE] == b[..ATTRIBUTE_SIZE];
      assert b[..mid][ATTRIBUTE_SIZE..] == rest[..mid - ATTRIBUTE_SIZE] && b[mid..] == rest[mid - ATTRIBUTE_SIZE..];
    }
  }

  lemma WriteStores(lay: Layout, data: seq<Byte>, slot: nat, r: Record, t: nat)
    requires IsPage(lay, data) && slot < lay.Capacity() && t < lay.Capacity() && |r| <= lay.Width()
    ensures RecordAt(lay, WriteSlot(lay, data, slot, r), t)
         == if t == slot then Over(RecordAt(lay, data, t), r) else RecordAt(lay, data, t)
  {
    var at, from, size := slot * lay.slotSize, t * lay.slotSize, ATTRIBUTE_SIZE * lay.Width();
    if t == slot {
      WriteStoresHere(lay, data, slot, r, at, at + ATTRIBUTE_SIZE * |r|, at + size);
    } else {
      WriteLeavesOthers(lay, data, slot, r, t, at, at + size, from, from + size);
    }
  }

  lemma WriteLeavesOthers(lay: Layout, data: seq<Byte>, slot: nat, r: Record, t: nat, at: nat, end: nat, from: nat,
                          to: nat)
    requires IsPage(lay, data) && slot < lay.Capacity() && t < lay.Capacity() && |r| <= lay.Width() && t != slot
    requires Spans(lay, slot, at, end) && Spans(lay, t, from, to)
    ensures RecordAt(lay, WriteSlot(lay, data, slot, r), t) == RecordAt(lay, data, t)
  {
    SpanBelowFlags(lay, slot, slot, at, end);
    SpanBelowFlags(lay, slot, t, from, to);
    var index := FlagByte(lay, slot);
    var b := WriteRecord(r);
    var v := SetBit(Overwrite(data, at, b)[index], slot % 8);
    WrittenIs(lay, data, slot, r, at, end, v);
    SpansApart(lay, slot, t, at, end, from, to);
    AtIs(lay, data, t, from, to);
    AtIs(lay, WriteSlot(lay, data, slot, r), t, from, to);
    OverwriteAt(data, at, b, from, to);
    assert Overwrite(data, at, b)[index := v][from..to] == Overwrite(data, at, b)[from..to];
  }

  lemma WriteStoresHere(lay: Layout, data: seq<Byte>, slot: nat, r: Record, at: nat, mid: nat, end: nat)
    requires IsPage(lay, data) && slot < lay.Capacity() && |r| <= lay.Width()
    requires Spans(lay, slot, at, end) && mid == at + ATTRIBUTE_SIZE * |r|
    ensures RecordAt(lay, WriteSlot(lay, data, slot, r), slot) == Over(RecordAt(lay, data, slot), r)
  {
    SpanBelowFlags(lay, slot, slot, at, end);
    var index := FlagByte(lay, slot);
    var b := WriteRecord(r);
    var v := SetBit(Overwrite(data, at, b)[index], slot % 8);
    WrittenIs(lay, data, slot, r, at, end, v);
    AtIs(lay, data, slot, at, end);
    AtIs(lay, WriteSlot(lay, data, slot, r), slot, at, end);
    var now, was := WriteSlot(lay, data, slot, r)[at..end], data[at..end];
    FirstPart(data, at, b, index, v, end, now);
    SplitRecords(now, was, r, lay.Width(), ATTRIBUTE_SIZE * |r|);
  }

  /** The written bytes come first, the old ones after them. */
  lemma FirstPart(data: seq<Byte>, at: nat, b: seq<Byte>, index: nat, v: Byte, end: nat, now: seq<Byte>)
    requires at + |b| <= end <= index < |data| && now == Overwrite(data, at, b)[index := v][at..end]
    ensures now[..|b|] == b && now[|b|..] == data[at..end][|b|..]
  {
    OverwriteAt(data, at, b, at, at + |b|);
    OverwriteAt(data, at, b, at + |b|, end);
    var all := Overwrite(data, at, b);
    assert now == all[at..end];
    assert now[..|b|] == all[at..at + |b|] && now[|b|..] == all[at + |b|..end];
  }

  lemma SplitRecords(now: seq<Byte>, was: seq<Byte>, r: Record, n: nat, mid: nat)
    requires |now| == |was| == ATTRIBUTE_SIZE * n && |r| <= n && mid == ATTRIBUTE_SIZE * |r|
    requires now[..mid] == WriteRecord(r) && now[mid..] == was[mid..]
    ensures ReadRecord(now, n) == Over(ReadRecord(was, n), r)
  {
    ReadSplit(now, n, |r|, mid);
    ReadSplit(was, n, |r|, mid);
    RecordRoundTrip(r);
    TruncatedSize(r);
    assert ReadRecord(was, n)[|r|..] == ReadRecord(was[mid..], n - |r|);
  }

  lemma ClearedIs(lay: Layout, data: seq<Byte>, slot: nat, index: int, k: BitNo)
    requires IsPage(lay, data) && slot < lay.Capacity() && index == FlagByte(lay, slot) && k == slot % 8
    ensures 0 <= index < |data| && ClearSlot(lay, data, slot) == data[index := ClearBit(data[index], k)]
  {
    SlotFits(lay, 0, slot);
  }

  lemma ClearFlagAt(lay: Layout, data: seq<Byte>, data': seq<Byte>, slot: nat, t: nat, index: nat, k: BitNo, other: nat,
                    j: BitNo)
    requires IsPage(lay, data) && IsPage(lay, data') && slot < lay.Capacity() && t < lay.Capacity()
    requires index == FlagByte(lay, slot) && k == slot % 8 && other == FlagByte(lay, t) && j == t % 8
    requires index < |data| && data' == data[index := ClearBit(data[index], k)]
    ensures Flag(lay, data', t) == (t != slot && Flag(lay, data, t))
  {
    FlagOf(lay, data, t, other, j);
    FlagOf(lay, data', t, other, j);
    SameSlot(lay, slot, t);
    ClearInData(data, index, k, other, j);
  }

  lemma ClearFlag(lay: Layout, data: seq<Byte>, slot: nat, t: nat)
    requires IsPage(lay, data) && slot < lay.Capacity() && t < lay.Capacity()
    ensures Flag(lay, ClearSlot(lay, data, slot), t) == (t != slot && Flag(lay, data, t))
  {
    var index, k, j := FlagByte(lay, slot), slot % 8, t % 8;
    SlotFits(lay, 0, t);
    ClearedIs(lay, data, slot, index, k);
    ClearFlagAt(lay, data, ClearSlot(lay, data, slot), slot, t, index, k, FlagByte(lay, t), j);
  }

  lemma ClearKeepsRecords(lay: Layout, data: seq<Byte>, slot: nat, t: nat, from: nat, to: nat)
    requires IsPage(lay, data) && slot < lay.Capacity() && t < lay.Capacity() && Spans(lay, t, from, to)
    ensures RecordAt(lay, ClearSlot(lay, data, slot), t) == RecordAt(lay, data, t)
  {
    SpanBelowFlags(lay, slot, t, from, to);
    AtIs(lay, data, t, from, to);
    AtIs(lay, ClearSlot(lay, data, slot), t, from, to);
    assert ClearSlot(lay, data, slot)[from..to] == data[from..to];
  }

  lemma ClearEffect(lay: Layout, data: seq<Byte>, slot: nat, t: nat)
    requires IsPage(lay, data) && slot < lay.Capacity() && t < lay.Capacity()
    ensures Flag(lay, ClearSlot(lay, data, slot), t) == (t != slot && Flag(lay, data, t))
    ensures RecordAt(lay, ClearSlot(lay, data, slot), t) == RecordAt(lay, data, t)
  {
    ClearFlag(lay, data, slot, t);
    var from := t * lay.slotSize;
    ClearKeepsRecords(lay, data, slot, t, from, from + ATTRIBUTE_SIZE * lay.Width());
  }

  /** The contents of a page: the record in every slot, in use or not, and which slots are in use. */
  datatype Leaf = Leaf(records: seq<Record>, used: seq<bool>)

  ghost predicate IsLeaf(lay: Layout, leaf: Leaf)
    requires lay.Ok()
  {
    && |leaf.records| == lay.Capacity() && |leaf.used| == lay.Capacity()
    && forall t :: 0 <= t < lay.Capacity() ==> |leaf.records[t]| == lay.Width()
  }

  ghost function LeafOf(lay: Layout, data: seq<Byte>): (leaf: Leaf)
    requires IsPage(lay, data)
    ensures IsLeaf(lay, leaf)
  {
    var n := lay.Capacity();
    Leaf(seq(n, t requires 0 <= t < n => RecordAt(lay, data, t)), seq(n, t requires 0 <= t < n => Flag(lay, data, t)))
  }

  ghost predicate Same(leaf: Leaf, lay: Layout, data: seq<Byte>)
    requires IsPage(lay, data)
  {
    && IsLeaf(lay, leaf)
    && (forall t :: 0 <= t < lay.Capacity() ==> leaf.records[t] == RecordAt(lay, data, t))
    && (forall t :: 0 <= t < lay.Capacity() ==> leaf.used[t] == Flag(lay, data, t))
  }

  lemma LeafIs(leaf: Leaf, lay: Layout, data: seq<Byte>)
    requires IsPage(lay, data)
    ensures Same(leaf, lay, data) <==> leaf == LeafOf(lay, data)
  {
    var other := LeafOf(lay, data);
    if Same(leaf, lay, data) {
      assert leaf.records == other.records && leaf.used == other.used;
    }
  }

  /** A written slot holds the record over what it held, and is in use; nothing else changes. */
  lemma WriteUpdatesLeaf(lay: Layout, data: seq<Byte>, slot: nat, r: Record, was: Leaf)
    requires IsPage(lay, data) && slot < lay.Capacity() && |r| <= lay.Width() && was == LeafOf(lay, data)
    ensures LeafOf(lay, WriteSlot(lay, data, slot, r))
         == Leaf(was.records[slot := Over(was.records[slot], r)], was.used[slot := true])
  {
    var data' := WriteSlot(lay, data, slot, r);
    var leaf := Leaf(was.records[slot := Over(was.records[slot], r)], was.used[slot := true]);
    forall t | 0 <= t < lay.Capacity()
      ensures leaf.records[t] == RecordAt(lay, data', t) && leaf.used[t] == Flag(lay, data', t)
    {
      WriteSetsFlag(lay, data, slot, r, t);
      WriteStores(lay, data, slot, r, t);
    }
    LeafIs(leaf, lay, data');
  }

  /** A deleted slot keeps its record and is no longer in use; nothing else changes. */
  lemma ClearUpdatesLeaf(lay: Layout, data: seq<Byte>, slot: nat, was: Leaf)
    requires IsPage(lay, data) && slot < lay.Capacity() && was == LeafOf(lay, data)
    ensures LeafOf(lay, ClearSlot(lay, data, slot)) == was.(used := was.used[slot := false])
  {
    var data' := ClearSlot(lay, data, slot);
    var leaf := was.(used := was.used[slot := false]);
    forall t | 0 <= t < lay.Capacity()
      ensures leaf.records[t] == RecordAt(lay, data', t) && leaf.used[t] == Flag(lay, data', t)
    {
      ClearEffect(lay, data, slot, t);
    }
    LeafIs(leaf, lay, data');
  }

  /** A record of empty attributes. */
  ghost function BlankRecord(n: nat): Record { seq(n, _ => []) }

  lemma {:induction false} ReadZeros(b: seq<Byte>, n: nat)
    requires |b| == ATTRIBUTE_SIZE * n && forall i :: 0 <= i < |b| ==> b[i] == 0
    ensures ReadRecord(b, n) == BlankRecord(n)
  {
    if n > 0 {
      ReadZeros(b[ATTRIBUTE_SIZE..], n - 1);
      assert ToText(b[..ATTRIBUTE_SIZE]) == [];
      assert BlankRecord(n) == [[]] + BlankRecord(n - 1);
    }
  }

  ghost function BlankLeaf(lay: Layout): Leaf
    requires lay.Ok()
  {
    Leaf(seq(lay.Capacity(), _ => BlankRecord(lay.Width())), seq(lay.Capacity(), _ => false))
  }

  lemma NewPageBlank(lay: Layout, data: seq<Byte>)
    requires lay.Ok() && data == seq(lay.pageSize, _ => 0)
    ensures LeafOf(lay, data) == BlankLeaf(lay)
  {
    var leaf := BlankLeaf(lay);
    forall t | 0 <= t < lay.Capacity()
      ensures leaf.records[t] == RecordAt(lay, data, t) && leaf.used[t] == Flag(lay, data, t)
    {
      SlotFits(lay, t, t);
      NoBits(t % 8);
      var from := t * lay.slotSize;
      ReadZeros(data[from..from + ATTRIBUTE_SIZE * lay.Width()], lay.Width());
    }
    LeafIs(leaf, lay, data);
  }

  ghost predicate AllFlagged(lay: Layout, data: seq<Byte>, n: nat)
    requires IsPage(lay, data) && n <= lay.Capacity()
  {
    forall t :: 0 <= t < n ==> Flag(lay, data, t)
  }

  lemma FlaggedNext(lay: Layout, data: seq<Byte>, n: nat, n': nat)
    requires IsPage(lay, data) && n' == n + 1 <= lay.Capacity() && AllFlagged(lay, data, n) && Flag(lay, data, n)
    ensures AllFlagged(lay, data, n')
  {}

  /** Slots below `n` that are in use. */
  function Used(lay: Layout, data: seq<Byte>, n: nat): (r: nat)
    requires IsPage(lay, data) && n <= lay.Capacity()
    ensures r <= n
  {
    if n == 0 then 0 else Used(lay, data, n - 1) + if Flag(lay, data, n - 1) then 1 else 0
  }

  function Free(lay: Layout, data: seq<Byte>): nat
    requires IsPage(lay, data)
  {
    lay.Capacity() - Used(lay, data, lay.Capacity())
  }

  lemma {:induction false} UsedNext(lay: Layout, data: seq<Byte>, n: nat, n': nat)
    requires IsPage(lay, data) && n' == n + 1 <= lay.Capacity()
    ensures Used(lay, data, n') == Used(lay, data, n) + if Flag(lay, data, n) then 1 else 0
  {}

  /** A new page has all its slots free. */
  lemma {:induction false} NewPageUnused(lay: Layout, data: seq<Byte>, n: nat)
    requires lay.Ok() && data == seq(lay.pageSize, _ => 0) && n <= lay.Capacity()
    ensures Used(lay, data, n) == 0
  {
    if n > 0 {
      NewPageUnused(lay, data, n - 1);
      SlotFits(lay, 0, n - 1);
      NoBits((n - 1) % 8);
    }
  }

  lemma {:induction false} FullMeansUsed(lay: Layout, data: seq<Byte>, n: nat)
    requires IsPage(lay, data) && n <= lay.Capacity()
    ensures Used(lay, data, n) == n <==> forall t :: 0 <= t < n ==> Flag(lay, data, t)
  {
    if n > 0 { FullMeansUsed(lay, data, n - 1); }
  }

  /** The scan of the bitmap from the end of the page visits the slots in order. */
  lemma ScanPosition(lay: Layout, i: nat, bit: BitNo, slot: nat)
    requires lay.Ok() && i >= 1 && slot == 8 * (i - 1) + bit && slot < lay.Capacity()
    ensures FlagByte(lay, slot) == lay.pageSize - i && slot % 8 == bit && i <= lay.pageSize
  {
    SlotFits(lay, 0, slot);
  }

  /** The lowest bit of the shifted byte is the next slot's flag. */
  lemma {:induction false} NextFlag(lay: Layout, data: seq<Byte>, i: nat, bit: BitNo, slot: nat, byte: Byte,
                                    charVal: Byte)
    requires IsPage(lay, data) && i >= 1 && slot == 8 * (i - 1) + bit && slot < lay.Capacity() && i <= lay.pageSize
    requires byte == data[lay.pageSize - i] && charVal == Shifted(byte, bit)
    ensures (charVal % 2 == 1) == Flag(lay, data, slot)
  {
    ScanPosition(lay, i, bit, slot);
  }

  class Page {
    const lay: Layout
    var data: seq<Byte>

    /** init_fixed_len_page: all bytes zero. */
    constructor (lay: Layout)
      requires lay.Ok()
      ensures Valid() && this.lay == lay && data == seq(lay.pageSize, _ => 0)
    {
      this.lay, data := lay, seq(lay.pageSize, _ => 0);
    }

    predicate Valid()
      reads this
    {
      IsPage(lay, data)
    }

    /** fixed_len_page_freeslots. */
    method FreeSlots() returns (free: nat)
      requires Valid()
      ensures free == Free(lay, data)
    {
      var numRecs := lay.Capacity();
      var result, counter, numBytes := 0, 0, (numRecs + 7) / 8;
      for i := 1 to numBytes + 1
        invariant counter == (if 8 * (i - 1) < numRecs then 8 * (i - 1) else numRecs)
          && result == Used(lay, data, counter)
      {
        result, counter := CountByte(i, result, counter);
      }
      free := numRecs - result;
    }

    /** One byte of the bitmap: eight flags, or as many as there are slots. */
    method CountByte(i: nat, sofar: nat, from: nat) returns (result: nat, counter: nat)
      requires Valid() && 1 <= i && from == 8 * (i - 1) && from < lay.Capacity() && sofar == Used(lay, data, from)
      ensures counter == (if 8 * i < lay.Capacity() then 8 * i else lay.Capacity())
        && result == Used(lay, data, counter)
    {
      var numRecs := lay.Capacity();
      ScanPosition(lay, i, 0, from);
      ghost var byte := data[lay.pageSize - i];
      var charVal := data[lay.pageSize - i];
      result, counter := sofar, from;
      var bit := 0;
      while bit < 8
        invariant 0 <= bit <= 8 && counter == from + bit <= numRecs && result == Used(lay, data, counter)
        invariant charVal == Shifted(byte, bit)
      {
        if counter < numRecs {
          NextFlag(lay, data, i, bit, counter, byte, charVal);
          UsedNext(lay, data, counter, counter + 1);
          if charVal % 2 == 1 {
            result := result + 1;
          }
          ShiftOnce(byte, bit, bit + 1);
          charVal := charVal / 2;
          counter := counter + 1;
        } else {
          break;
        }
        bit := bit + 1;
      }
    }

    /** add_fixed_len_page: the first free slot, or -1 when there is none. */
    method Add(r: Record) returns (slot: int)
      requires Valid() && |r| <= lay.Width()
      modifies this
      ensures Valid() && -1 <= slot < lay.Capacity()
      ensures slot == -1 ==> data == old(data) && Free(lay, data) == 0
      ensures slot >= 0 ==> data == WriteSlot(lay, old(data), slot, r) && !Flag(lay, old(data), slot)
      ensures slot >= 0 ==> forall t :: 0 <= t < slot ==> Flag(lay, old(data), t)
    {
      slot := FirstFree();
      if slot >= 0 {
        data := WriteSlot(lay, data, slot, r);
      } else {
        FullMeansUsed(lay, data, lay.Capacity());
      }
    }

    method FirstFree() returns (slot: int)
      requires Valid()
      ensures -1 <= slot < lay.Capacity() && (slot >= 0 ==> !Flag(lay, data, slot))
      ensures AllFlagged(lay, data, if slot == -1 then lay.Capacity() else slot)
    {
      var numRecs := lay.Capacity();
      var counter, numBytes := 0, (numRecs + 7) / 8;
      slot := -1;
      for i := 1 to numBytes + 1
        invariant slot == -1 && counter == if 8 * (i - 1) < numRecs then 8 * (i - 1) else numRecs
        invariant AllFlagged(lay, data, counter)
      {
        slot, counter := ScanByte(i, counter);
        if slot >= 0 { break; }
      }
    }

    method ScanByte(i: nat, from: nat) returns (slot: int, counter: nat)
      requires Valid() && 1 <= i && from == 8 * (i - 1) && from < lay.Capacity()
      requires AllFlagged(lay, data, from)
      ensures -1 <= slot < lay.Capacity() && counter <= lay.Capacity() && AllFlagged(lay, data, counter)
      ensures if slot >= 0 then counter == slot && !Flag(lay, data, slot)
              else counter == if 8 * i < lay.Capacity() then 8 * i else lay.Capacity()
    {
      var numRecs := lay.Capacity();
      ScanPosition(lay, i, 0, from);
      ghost var byte := data[lay.pageSize - i];
      var charVal := data[lay.pageSize - i];
      slot, counter := -1, from;
      var bit := 0;
      while bit < 8
        invariant 0 <= bit <= 8 && counter == from + bit <= numRecs && slot == -1
        invariant charVal == Shifted(byte, bit)
        invariant AllFlagged(lay, data, counter)
      {
        if counter < numRecs {
          NextFlag(lay, data, i, bit, counter, byte, charVal);
          if charVal % 2 == 0 {
            slot := counter;
            break;
          }
          FlaggedNext(lay, data, counter, counter + 1);
          ShiftOnce(byte, bit, bit + 1);
          charVal := charVal / 2;
          counter := counter + 1;
        } else {
          break;
        }
        bit := bit + 1;
      }
    }

    method Write(slot: nat, r: Record)
      requires Valid() && slot < lay.Capacity() && |r| <= lay.Width()
      modifies this
      ensures Valid() && data == WriteSlot(lay, old(data), slot, r)
    {
      data := WriteSlot(lay, data, slot, r);
    }

    method Delete(slot: nat)
      requires Valid() && slot < lay.Capacity()
      modifies this
      ensures Valid() && data == ClearSlot(lay, old(data), slot)
    {
      data := ClearSlot(lay, data, slot);
    }

    /** get_next_filled_slot. */
    method NextFilledSlot(after: int) returns (slot: int)
      requires Valid() && after >= -1
      ensures slot == -1 || (after < slot < lay.Capacity() && Flag(lay, data, slot))
      ensures forall t :: after < t < (if slot == -1 then lay.Capacity() else slot) ==> !Flag(lay, data, t)
    {
      slot := after + 1;
      while slot < lay.Capacity()
        invariant after < slot && forall t :: after < t < slot && t < lay.Capacity() ==> !Flag(lay, data, t)
      {
        if Flag(lay, data, slot) {
          return;
        }
        slot := slot + 1;
      }
      slot := -1;
    }
  }
}
