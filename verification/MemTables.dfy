/** The memtable: entries encoded one after the other in memory, kept in internal key order by a skip list, filled
    from the records of the log. */
module MemTables {
  import opened DbFormat
  import opened Versions
  import opened Coding
  import opened DbState
  import opened WriteSteps
  import opened TornLogs
  import WriteBatches
  import SkipLists

  // ---------- Internal keys as ranks ----------

  const TAGS: nat := 0x1_0000_0000_0000_0000

  lemma TagFits(k: InternalKey)
    ensures k.Tag() < TAGS
  {}

  /** The place of an internal key among all: user keys up, tags down. */
  function Rank(k: InternalKey): int {
    TagFits(k);
    k.user * TAGS + (TAGS - 1 - k.Tag())
  }

  /** The comparator orders internal keys by rank. */
  lemma RankOrders(a: InternalKey, b: InternalKey)
    ensures Less(a, b) <==> Rank(a) < Rank(b)
  {
    TagFits(a);
    TagFits(b);
    if a.user < b.user { Wider(a.user, b.user, TAGS - 1 - a.Tag(), TAGS - 1 - b.Tag()); }
    if b.user < a.user { Wider(b.user, a.user, TAGS - 1 - b.Tag(), TAGS - 1 - a.Tag()); }
  }

  lemma Wider(x: int, y: int, a: nat, b: nat)
    requires x < y && a < TAGS && b < TAGS
    ensures x * TAGS + a < y * TAGS + b
  {
    assert y * TAGS >= (x + 1) * TAGS;
  }

  /** No two internal keys have one rank. */
  lemma RankApart(a: InternalKey, b: InternalKey)
    requires Rank(a) == Rank(b)
    ensures a == b
  {
    RankOrders(a, b);
    RankOrders(b, a);
  }

  // ---------- One entry as bytes ----------

  /** What Add stores for the value; a deletion has none. */
  function ValueBytes(names: Names, e: Entry): seq<Byte> { if e.kind.Put? then names.value(e.value) else [] }

  /** MemTable::Add: length and user key, tag, length and value. */
  function EncodeEntry(names: Names, e: Entry): seq<Byte> {
    var user := names.key(e.user);
    TagFits(e.Key());
    PutVarint(|user| + 8) + (user + (EncodeFixed64(e.Key().Tag()) + PutSlice(ValueBytes(names, e))))
  }

  /** The key and value have bytes of their own, and the internal key a 32-bit length. */
  predicate Fits(names: Names, e: Entry) {
    Named(names, e.user, e.kind, e.value) && |names.key(e.user)| + 8 < 0x1_0000_0000
  }

  /** What the comparator and Get read of an entry. */
  datatype Fields = Fields(user: seq<Byte>, tag: Word64, value: seq<Byte>)

  function ReadEntry(b: seq<Byte>): Option<Fields> {
    var n := GetVarint(b, 0, |b|);
    if n.Bad? || n.value < 8 || n.next + n.value > |b| then None
    else ReadFields(b, n.next, n.next + n.value - 8, n.next + n.value)
  }

  /** User key, tag and value behind the length. */
  function ReadFields(b: seq<Byte>, p: nat, q: nat, end: nat): Option<Fields>
    requires p <= q && end == q + 8 <= |b|
  {
    var v := GetSlice(b, end);
    if v.NoSlice? then None else Some(Fields(b[p..q], DecodeFixed64(b[q..end]), v.bytes))
  }

  lemma {:induction false} EntryRoundTrip(names: Names, e: Entry)
    requires Fits(names, e)
    ensures ReadEntry(EncodeEntry(names, e)) ==
      Some(Fields(names.key(e.user), e.Key().Tag(), ValueBytes(names, e)))
  {
    var b, user, value := EncodeEntry(names, e), names.key(e.user), ValueBytes(names, e);
    TagFits(e.Key());
    var tag := EncodeFixed64(e.Key().Tag());
    var p := |PutVarint(|user| + 8)|;
    var q, end := p + |user|, p + |user| + 8;
    assert At(b, 0, b);
    AtSplit(b, 0, PutVarint(|user| + 8), user + (tag + PutSlice(value)), p);
    AtSplit(b, p, user, tag + PutSlice(value), q);
    AtSplit(b, q, tag, PutSlice(value), end);
    ReadLayout(b, user, tag, value, p, q, end);
    Fixed64RoundTrip(e.Key().Tag());
  }

  lemma {:induction false} ReadLayout(b: seq<Byte>, user: seq<Byte>, tag: seq<Byte>, value: seq<Byte>, p: nat, q: nat,
                                      end: nat)
    requires |user| + 8 < 0x1_0000_0000 && Short(value) && |tag| == 8
    requires At(b, 0, PutVarint(|user| + 8)) && p == |PutVarint(|user| + 8)|
    requires At(b, p, user) && q == p + |user| && At(b, q, tag) && end == q + 8
    requires At(b, end, PutSlice(value))
    ensures ReadEntry(b) == Some(Fields(user, DecodeFixed64(tag), value))
  {
    var length := |user| + 8;
    VarintRoundTrip(b, 0, |b|, length);
    FieldsLayout(b, user, tag, value, p, q, end);
    assert GetVarint(b, 0, |b|) == Parsed(length, p) && p + length == end && end - 8 == q;
  }

  lemma {:induction false} FieldsLayout(b: seq<Byte>, user: seq<Byte>, tag: seq<Byte>, value: seq<Byte>, p: nat, q: nat,
                                        end: nat)
    requires Short(value) && |tag| == 8 && At(b, p, user) && q == p + |user| && At(b, q, tag) && end == q + 8
    requires At(b, end, PutSlice(value))
    ensures end <= |b| && ReadFields(b, p, q, end) == Some(Fields(user, DecodeFixed64(tag), value))
  {
    SliceRoundTrip(b, end, value, end + |PutSlice(value)|);
  }

  /** The internal key that the comparator sees. */
  function KeyRead(names: Names, f: Fields): InternalKey {
    InternalKey(names.unkey(f.user), f.tag / 256, if f.tag % 256 == 1 then Put else Deletion)
  }

  lemma {:induction false} KeyReadIs(names: Names, e: Entry)
    requires Fits(names, e)
    ensures ReadEntry(EncodeEntry(names, e)).Some?
    ensures KeyRead(names, ReadEntry(EncodeEntry(names, e)).value) == e.Key()
  {
    EntryRoundTrip(names, e);
    TagKind(e.Key());
  }

  // ---------- The entries, and the ranks that the skip list holds ----------

  ghost function Ranks(es: seq<Entry>): set<int> { set e | e in es :: Rank(e.Key()) }

  lemma RanksInsert(es: seq<Entry>, e: Entry)
    requires Sorted(es) && Absent(es, e)
    ensures Ranks(Insert(es, e)) == Ranks(es) + {Rank(e.Key())}
  {
    assert forall x :: x in Insert(es, e) <==> x in Elements(Insert(es, e));
    assert forall x :: x in es <==> x in Elements(es);
  }

  lemma NewRank(es: seq<Entry>, e: Entry)
    requires Absent(es, e)
    ensures Rank(e.Key()) !in Ranks(es)
  {
    forall x | x in es ensures Rank(x.Key()) != Rank(e.Key()) {
      if Rank(x.Key()) == Rank(e.Key()) { RankApart(x.Key(), e.Key()); }
    }
  }

  /** The least rank at or after that of a key is of the entry that a linear search ends at. */
  lemma LeastIsSeek(es: seq<Entry>, key: InternalKey, i: nat, r: int)
    requires Sorted(es) && i == SeekIndex(es, key)
    requires r in Ranks(es) && Rank(key) <= r && forall c :: c in Ranks(es) && Rank(key) <= c ==> r <= c
    ensures i < |es| && r == Rank(es[i].Key())
  {
    var e :| e in es && Rank(e.Key()) == r;
    var j :| 0 <= j < |es| && es[j] == e;
    RankOrders(es[j].Key(), key);
    assert i <= j;
    RankOrders(es[i].Key(), key);
    assert es[i] in es && Rank(es[i].Key()) in Ranks(es);
    assert i == j || Ordered(es[i], es[j]);
    RankOrders(es[i].Key(), es[j].Key());
  }

  lemma NoneIsEnd(es: seq<Entry>, key: InternalKey, i: nat)
    requires i == SeekIndex(es, key) && forall c :: c in Ranks(es) ==> c < Rank(key)
    ensures i == |es|
  {
    if i < |es| {
      assert es[i] in es;
      assert Rank(es[i].Key()) in Ranks(es);
      RankOrders(es[i].Key(), key);
    }
  }

  // ---------- The memtable ----------

  /** MemTable::Get's answer: nothing known, deleted, or a value. */
  datatype Lookup = Unknown | Deleted | Holds(value: seq<Byte>)

  function Answered(names: Names, e: Option<Entry>): Lookup {
    if e.None? then Unknown else if e.value.kind.Put? then Holds(names.value(e.value.value)) else Deleted
  }

  /** Whether the entry is of the sought user key, and what it says. */
  function Judge(names: Names, entry: Option<Fields>, k: UserKey): Lookup {
    if entry.None? || names.unkey(entry.value.user) != k then Unknown
    else if entry.value.tag % 256 == 1 then Holds(entry.value.value)
    else Deleted
  }

  lemma {:induction false} JudgeIs(names: Names, e: Entry, k: UserKey)
    requires Fits(names, e)
    ensures Judge(names, ReadEntry(EncodeEntry(names, e)), k) == Answered(names, if e.user == k then Some(e) else None)
  {
    EntryRoundTrip(names, e);
    TagKind(e.Key());
  }

  lemma TagKind(k: InternalKey)
    ensures k.Tag() % 256 == (if k.kind.Put? then 1 else 0) && k.Tag() / 256 == k.sn
  {}

  /** The bytes of every entry, under the rank that the list knows it by. */
  ghost predicate Stores(names: Names, arena: map<int, seq<Byte>>, es: seq<Entry>) {
    forall e :: e in es ==>
      Fits(names, e) && Rank(e.Key()) in arena && arena[Rank(e.Key())] == EncodeEntry(names, e)
  }

  class MemTable {
    const names: Names
    const table: SkipLists.SkipList
    /** What the pointers in the list's nodes lead to. */
    var arena: map<int, seq<Byte>>
    ghost var entries: seq<Entry>

    constructor (names: Names)
      ensures Valid() && entries == [] && this.names == names && fresh(table)
    {
      this.names, arena, entries := names, map[], [];
      table := new SkipLists.SkipList();
    }

    ghost predicate Valid()
      reads this, table
    {
      table.Valid() && Sorted(entries) && table.Keys() == Ranks(entries) && Stores(names, arena, entries)
    }

    /** The bytes of an entry go to the arena, and their place into the skip list. */
    method Add(e: Entry, height: nat)
      requires Valid() && Absent(entries, e) && Fits(names, e) && 1 <= height <= SkipLists.MAX_HEIGHT
      modifies this, table
      ensures Valid() && entries == Insert(old(entries), e)
    {
      var rank := Rank(e.Key());
      NewRank(entries, e);
      RanksInsert(entries, e);
      StoresMore(names, arena, entries, e, rank);
      arena := arena[rank := EncodeEntry(names, e)];
      table.Insert(rank, height);
      entries := Insert(entries, e);
    }

    /** Seek to the first entry that the snapshot may see, and look whether it is of the sought user key. */
    method Get(k: UserKey, s: SequenceNumber) returns (r: Lookup)
      requires Valid()
      ensures r == Answered(names, TableGet(entries, k, s))
    {
      ghost var i := SeekIndex(entries, LookupKey(k, s));
      var found, prev := table.FindGreaterOrEqual(Rank(LookupKey(k, s)));
      if found == SkipLists.Null {
        NoneIsEnd(entries, LookupKey(k, s), i);
        return Unknown;
      }
      var rank := table.mem.keys[found.node];
      LeastIsSeek(entries, LookupKey(k, s), i, rank);
      assert entries[i] in entries;
      JudgeIs(names, entries[i], k);
      r := Judge(names, ReadEntry(arena[rank]), k);
    }

    /** InsertInto: the operations of a log record, numbered on from the number in its header. */
    method InsertRecord(record: seq<Byte>, height: nat -> nat, ghost batch: seq<Entry>)
      requires Valid() && AllNamed(names, batch) && Consecutive(batch) && record == Record(names, batch)
      requires forall e :: e in batch ==> Fits(names, e)
      requires forall x, y :: x in entries && y in batch ==> x.sn < y.sn
      requires forall i :: 1 <= height(i) <= SkipLists.MAX_HEIGHT
      modifies this, table
      ensures Valid() && Ascending(batch) && entries == InsertAll(old(entries), batch)
    {
      RecordRoundTrips(names, batch);
      var es := Inserted(names, record);
      AddAll(es, height);
    }

    method AddAll(batch: seq<Entry>, height: nat -> nat)
      requires Valid() && Ascending(batch) && (forall e :: e in batch ==> Fits(names, e))
      requires forall x, y :: x in entries && y in batch ==> x.sn < y.sn
      requires forall i :: 1 <= height(i) <= SkipLists.MAX_HEIGHT
      modifies this, table
      ensures Valid() && entries == InsertAll(old(entries), batch)
    {
      assert batch[0..] == batch;
      for i := 0 to |batch|
        invariant Valid() && Follow(entries, batch[i..])
        invariant InsertAll(entries, batch[i..]) == InsertAll(old(entries), batch)
      {
        InsertAllNext(entries, batch, i, i + 1);
        Add(batch[i], height(i));
      }
    }
  }

  /** A batch still to be inserted. */
  ghost predicate Follow(es: seq<Entry>, batch: seq<Entry>) {
    Ascending(batch) && forall x, y :: x in es && y in batch ==> x.sn < y.sn
  }

  lemma InsertAllNext(es: seq<Entry>, batch: seq<Entry>, i: nat, n: nat)
    requires Sorted(es) && n == i + 1 <= |batch| && Follow(es, batch[i..])
    ensures Absent(es, batch[i]) && Follow(Insert(es, batch[i]), batch[n..])
    ensures InsertAll(es, batch[i..]) == InsertAll(Insert(es, batch[i]), batch[n..])
  {
    var rest := batch[i..];
    assert rest[0] == batch[i] && rest[1..] == batch[n..] && rest[0] in rest;
    InsertOneOfBatch(es, rest, Insert(es, rest[0]));
  }

  lemma StoresMore(names: Names, arena: map<int, seq<Byte>>, es: seq<Entry>, e: Entry, rank: int)
    requires Stores(names, arena, es) && Sorted(es) && Absent(es, e) && Fits(names, e) && rank == Rank(e.Key())
    ensures Stores(names, arena[rank := EncodeEntry(names, e)], Insert(es, e))
  {
    NewRank(es, e);
    forall x | x in Insert(es, e) ensures x == e || (x in es && Rank(x.Key()) != rank) {
      assert x in Elements(Insert(es, e));
      assert x in es ==> Rank(x.Key()) in Ranks(es);
    }
  }
}
