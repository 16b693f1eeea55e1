/** Version edits as the bytes of a manifest record, and reading them back. */
module VersionEdits {
  import opened Coding
  import opened DbFormat

  const NUM_LEVELS: nat := 7

  type Bytes = seq<Byte>

  /** FileMetaData as the manifest holds it; the ends are encoded internal keys. */
  datatype Meta = Meta(number: Word64, size: Word64, smallest: Bytes, largest: Bytes)

  datatype Edit = Edit(comparator: Option<Bytes>, logNumber: Option<Word64>, prevLogNumber: Option<Word64>,
                       nextFile: Option<Word64>, lastSequence: Option<Word64>, pointers: seq<(nat, Bytes)>,
                       deleted: set<(nat, Word64)>, added: seq<(nat, Meta)>)

  const EMPTY: Edit := Edit(None, None, None, None, None, [], {}, [])

  /** One tagged field of a record. */
  datatype Item =
    | Comparator(name: Bytes) | LogNumber(n: Word64) | PrevLogNumber(n: Word64) | NextFile(n: Word64)
    | LastSequence(n: Word64) | Pointer(level: nat, key: Bytes) | Deleted(level: nat, n: Word64)
    | Added(level: nat, meta: Meta)

  datatype Fault =
    | BadComparator | BadLogNumber | BadPrevLogNumber | BadNextFile | BadLastSequence | BadPointer | BadDeleted
    | BadAdded | UnknownTag | InvalidTag

  // ---------- Encoding ----------

  function Tag(item: Item): Byte {
    match item
    case Comparator(_) => 1
    case LogNumber(_) => 2
    case NextFile(_) => 3
    case LastSequence(_) => 4
    case Pointer(_, _) => 5
    case Deleted(_, _) => 6
    case Added(_, _) => 7
    case PrevLogNumber(_) => 9
  }

  function Body(item: Item): seq<Byte> {
    match item
    case Comparator(name) => PutSlice(name)
    case LogNumber(n) => PutVarint(n)
    case PrevLogNumber(n) => PutVarint(n)
    case NextFile(n) => PutVarint(n)
    case LastSequence(n) => PutVarint(n)
    case Pointer(level, key) => PutVarint(level) + PutSlice(key)
    case Deleted(level, n) => PutVarint(level) + PutVarint(n)
    case Added(level, f) =>
      PutVarint(level) + (PutVarint(f.number) + (PutVarint(f.size) + (PutSlice(f.smallest) + PutSlice(f.largest))))
  }

  function EncodeItem(item: Item): seq<Byte> { [Tag(item)] + Body(item) }

  function EncodeItems(items: seq<Item>): seq<Byte> {
    if items == [] then [] else EncodeItem(items[0]) + EncodeItems(items[1..])
  }

  lemma {:induction false} EncodeItemsSnoc(items: seq<Item>, item: Item)
    ensures EncodeItems(items + [item]) == EncodeItems(items) + EncodeItem(item)
  {
    if items != [] {
      assert (items + [item])[1..] == items[1..] + [item];
      EncodeItemsSnoc(items[1..], item);
    } else {
      assert [item][1..] == [];
    }
  }

  /** Strings short enough for their lengths, levels that exist. */
  predicate Encodable(item: Item) {
    match item
    case Comparator(name) => Short(name)
    case Pointer(level, key) => level < NUM_LEVELS && Short(key)
    case Deleted(level, _) => level < NUM_LEVELS
    case Added(level, f) => level < NUM_LEVELS && Short(f.smallest) && Short(f.largest)
    case _ => true
  }

  function Single(n: Option<Word64>, item: Word64 -> Item): seq<Item> { if n.Some? then [item(n.value)] else [] }

  /** The scalar fields, in the order EncodeTo writes them. */
  function Scalars(e: Edit): seq<Item> {
    (if e.comparator.Some? then [Comparator(e.comparator.value)] else [])
    + Single(e.logNumber, (n: Word64) => LogNumber(n)) + Single(e.prevLogNumber, (n: Word64) => PrevLogNumber(n))
    + Single(e.nextFile, (n: Word64) => NextFile(n)) + Single(e.lastSequence, (n: Word64) => LastSequence(n))
  }

  function Pointers(ps: seq<(nat, Bytes)>): seq<Item> {
    seq(|ps|, i requires 0 <= i < |ps| => Pointer(ps[i].0, ps[i].1))
  }

  function Deletions(ds: seq<(nat, Word64)>): seq<Item> {
    seq(|ds|, i requires 0 <= i < |ds| => Deleted(ds[i].0, ds[i].1))
  }

  function Additions(fs: seq<(nat, Meta)>): seq<Item> {
    seq(|fs|, i requires 0 <= i < |fs| => Added(fs[i].0, fs[i].1))
  }

  /** All fields; `order` is the order in which the set of deleted files is walked. */
  function ItemsOf(e: Edit, order: seq<(nat, Word64)>): seq<Item> {
    Scalars(e) + Pointers(e.pointers) + Deletions(order) + Additions(e.added)
  }

  // ---------- Decoding ----------

  function GetLevel(b: seq<Byte>, p: nat): (r: Parsed)
    requires p <= |b|
    ensures r.Parsed? ==> p < r.next <= |b| && r.value < NUM_LEVELS
  {
    var v := GetVarint(b, p, |b|);
    if v.Parsed? && v.value < NUM_LEVELS then v else Bad
  }

  datatype Step = Step(item: Item, next: nat) | Stop(fault: Fault) | NoTag

  function ParseNumber(b: seq<Byte>, p: nat, item: Word64 -> Item, fault: Fault): (r: Step)
    requires p <= |b|
    ensures r.Step? ==> p < r.next <= |b|
  {
    var n := GetVarint64(b, p);
    if n.Bad? then Stop(fault) else Step(item(n.value), n.next)
  }

  function ParseAdded(b: seq<Byte>, p: nat): (r: Step)
    requires p <= |b|
    ensures r.Step? ==> p < r.next <= |b|
  {
    var level := GetLevel(b, p);
    if level.Bad? then Stop(BadAdded)
    else
      var number := GetVarint64(b, level.next);
      if number.Bad? then Stop(BadAdded)
      else
        var size := GetVarint64(b, number.next);
        if size.Bad? then Stop(BadAdded)
        else
          var smallest := GetSlice(b, size.next);
          if smallest.NoSlice? then Stop(BadAdded)
          else
            var largest := GetSlice(b, smallest.next);
            if largest.NoSlice? then Stop(BadAdded)
            else Step(Added(level.value, Meta(number.value, size.value, smallest.bytes, largest.bytes)), largest.next)
  }

  function ParsePointer(b: seq<Byte>, p: nat): (r: Step)
    requires p <= |b|
    ensures r.Step? ==> p < r.next <= |b|
  {
    var level := GetLevel(b, p);
    if level.Bad? then Stop(BadPointer)
    else
      var key := GetSlice(b, level.next);
      if key.NoSlice? then Stop(BadPointer) else Step(Pointer(level.value, key.bytes), key.next)
  }

  function ParseDeleted(b: seq<Byte>, p: nat): (r: Step)
    requires p <= |b|
    ensures r.Step? ==> p < r.next <= |b|
  {
    var level := GetLevel(b, p);
    if level.Bad? then Stop(BadDeleted)
    else
      var n := GetVarint64(b, level.next);
      if n.Bad? then Stop(BadDeleted) else Step(Deleted(level.value, n.value), n.next)
  }

  /** The switch over the tag. */
  function ParseBody(tag: nat, b: seq<Byte>, p: nat): (r: Step)
    requires p <= |b|
    ensures r.Step? ==> p < r.next <= |b|
    ensures !r.NoTag?
  {
    if tag == 1 then
      var name := GetSlice(b, p);
      if name.NoSlice? then Stop(BadComparator) else Step(Comparator(name.bytes), name.next)
    else if tag == 2 then ParseNumber(b, p, (n: Word64) => LogNumber(n), BadLogNumber)
    else if tag == 3 then ParseNumber(b, p, (n: Word64) => NextFile(n), BadNextFile)
    else if tag == 4 then ParseNumber(b, p, (n: Word64) => LastSequence(n), BadLastSequence)
    else if tag == 5 then ParsePointer(b, p)
    else if tag == 6 then ParseDeleted(b, p)
    else if tag == 7 then ParseAdded(b, p)
    else if tag == 9 then ParseNumber(b, p, (n: Word64) => PrevLogNumber(n), BadPrevLogNumber)
    else Stop(UnknownTag)
  }

  /** One turn of DecodeFrom's loop. */
  function ParseItem(b: seq<Byte>, p: nat): (r: Step)
    requires p <= |b|
    ensures r.Step? ==> p < r.next <= |b|
  {
    var tag := GetVarint(b, p, |b|);
    if tag.Bad? then NoTag else ParseBody(tag.value, b, tag.next)
  }

  function ParseItems(b: seq<Byte>, p: nat): (seq<Item>, Option<Fault>)
    requires p <= |b|
    decreases |b| - p
  {
    match ParseItem(b, p)
    case NoTag => ([], if p < |b| then Some(InvalidTag) else None)
    case Stop(fault) => ([], Some(fault))
    case Step(item, next) => var rest := ParseItems(b, next); ([item] + rest.0, rest.1)
  }

  function Take(e: Edit, item: Item): Edit {
    match item
    case Comparator(name) => e.(comparator := Some(name))
    case LogNumber(n) => e.(logNumber := Some(n))
    case PrevLogNumber(n) => e.(prevLogNumber := Some(n))
    case NextFile(n) => e.(nextFile := Some(n))
    case LastSequence(n) => e.(lastSequence := Some(n))
    case Pointer(level, key) => e.(pointers := e.pointers + [(level, key)])
    case Deleted(level, n) => e.(deleted := e.deleted + {(level, n)})
    case Added(level, f) => e.(added := e.added + [(level, f)])
  }

  function TakeAll(e: Edit, items: seq<Item>): Edit
    decreases |items|
  {
    if items == [] then e else TakeAll(Take(e, items[0]), items[1..])
  }

  /** Clear, which forgets everything but the compaction pointers. */
  function Cleared(e: Edit): Edit { EMPTY.(pointers := e.pointers) }

  class VersionEdit {
    var comparator: Option<Bytes>
    var logNumber: Option<Word64>
    var prevLogNumber: Option<Word64>
    var nextFile: Option<Word64>
    var lastSequence: Option<Word64>
    var pointers: seq<(nat, Bytes)>
    var deleted: set<(nat, Word64)>
    var added: seq<(nat, Meta)>

    constructor ()
      ensures View() == EMPTY
    {
      comparator, logNumber, prevLogNumber, nextFile, lastSequence := None, None, None, None, None;
      pointers, deleted, added := [], {}, [];
    }

    function View(): Edit
      reads this
    {
      Edit(comparator, logNumber, prevLogNumber, nextFile, lastSequence, pointers, deleted, added)
    }

    method Clear()
      modifies this
      ensures View() == Cleared(old(View()))
    {
      comparator, logNumber, prevLogNumber, nextFile, lastSequence := None, None, None, None, None;
      deleted, added := {}, [];
    }

    /** EncodeTo, with the order in which the set of deleted files is walked. */
    method EncodeTo(order: seq<(nat, Word64)>) returns (dst: seq<Byte>)
      requires forall d :: d in order <==> d in deleted
      ensures dst == EncodeItems(ItemsOf(View(), order))
    {
      ghost var items;
      dst, items := EncodeScalars();
      dst, items := PutItems(dst, items, Pointers(pointers));
      dst, items := PutItems(dst, items, Deletions(order));
      dst, items := PutItems(dst, items, Additions(added));
    }

    /** One of the three loops. */
    static method PutItems(sofar: seq<Byte>, ghost items: seq<Item>, more: seq<Item>)
      returns (dst: seq<Byte>, ghost items': seq<Item>)
      requires sofar == EncodeItems(items)
      ensures items' == items + more && dst == EncodeItems(items')
    {
      dst, items' := sofar, items;
      for i := 0 to |more|
        invariant items' == items + more[..i] && dst == EncodeItems(items')
      {
        OneFurther(items, more, i, i + 1);
        dst, items' := PutItem(dst, items', more[i]);
      }
      assert more[..|more|] == more;
    }

    method EncodeScalars() returns (dst: seq<Byte>, ghost items: seq<Item>)
      ensures items == Scalars(View()) && dst == EncodeItems(items)
    {
      dst, items := [], [];
      dst, items := PutItems(dst, items, if comparator.Some? then [Comparator(comparator.value)] else []);
      dst, items := PutItems(dst, items, Single(logNumber, (n: Word64) => LogNumber(n)));
      dst, items := PutItems(dst, items, Single(prevLogNumber, (n: Word64) => PrevLogNumber(n)));
      dst, items := PutItems(dst, items, Single(nextFile, (n: Word64) => NextFile(n)));
      dst, items := PutItems(dst, items, Single(lastSequence, (n: Word64) => LastSequence(n)));
    }

    static method PutItem(sofar: seq<Byte>, ghost items: seq<Item>, item: Item)
      returns (dst: seq<Byte>, ghost items': seq<Item>)
      requires sofar == EncodeItems(items)
      ensures items' == items + [item] && dst == EncodeItems(items')
    {
      EncodeItemsSnoc(items, item);
      dst, items' := sofar + EncodeItem(item), items + [item];
    }

    /** One field of a record into the edit. */
    method Store(item: Item)
      modifies this
      ensures View() == Take(old(View()), item)
    {
      match item {
        case Comparator(name) => comparator := Some(name);
        case LogNumber(n) => logNumber := Some(n);
        case PrevLogNumber(n) => prevLogNumber := Some(n);
        case NextFile(n) => nextFile := Some(n);
        case LastSequence(n) => lastSequence := Some(n);
        case Pointer(level, key) => pointers := pointers + [(level, key)];
        case Deleted(level, n) => deleted := deleted + {(level, n)};
        case Added(level, f) => added := added + [(level, f)];
      }
    }

    /** DecodeFrom: fields are stored as they are found, up to the first fault. */
    method DecodeFrom(src: seq<Byte>) returns (fault: Option<Fault>)
      modifies this
      ensures fault == ParseItems(src, 0).1
      ensures View() == TakeAll(Cleared(old(View())), ParseItems(src, 0).0)
    {
      Clear();
      var p, more := 0, true;
      fault := None;
      ghost var start := View();
      while more && fault == None
        invariant p <= |src| && (more || fault == None)
        invariant fault == None && more ==>
          TakeAll(start, ParseItems(src, 0).0) == TakeAll(View(), ParseItems(src, p).0)
          && ParseItems(src, 0).1 == ParseItems(src, p).1
        invariant fault == None && !more ==>
          TakeAll(start, ParseItems(src, 0).0) == View() && ParseItems(src, 0).1 == if p < |src| then Some(InvalidTag)
                                                                                    else None
        invariant fault.Some? ==> TakeAll(start, ParseItems(src, 0).0) == View() && ParseItems(src, 0).1 == fault
        decreases more, fault == None, |src| - p
      {
        var step := ParseItem(src, p);
        match step {
          case NoTag => more := false;
          case Stop(f) => fault := Some(f);
          case Step(item, next) =>
            StoreStep(View(), src, p, item, next);
            Store(item);
            p := next;
        }
      }
      if fault == None && p < |src| {
        fault := Some(InvalidTag);
      }
    }
  }

  lemma {:induction false} OneFurther(items: seq<Item>, more: seq<Item>, i: nat, n: nat)
    requires n == i + 1 <= |more|
    ensures items + more[..n] == (items + more[..i]) + [more[i]]
  {}

  lemma {:induction false} StoreStep(e: Edit, b: seq<Byte>, p: nat, item: Item, next: nat)
    requires p <= |b| && ParseItem(b, p) == Step(item, next)
    ensures TakeAll(e, ParseItems(b, p).0) == TakeAll(Take(e, item), ParseItems(b, next).0)
    ensures ParseItems(b, p).1 == ParseItems(b, next).1
  {
    var rest := ParseItems(b, next).0;
    assert ([item] + rest)[0] == item && ([item] + rest)[1..] == rest;
  }

  // ---------- Round trips ----------

  lemma LevelRoundTrip(b: seq<Byte>, p: nat, level: nat, q: nat)
    requires level < NUM_LEVELS && At(b, p, PutVarint(level)) && q == p + |PutVarint(level)|
    ensures p <= |b| && GetLevel(b, p) == Parsed(level, q)
  {
    VarintRoundTrip(b, p, |b|, level);
  }

  lemma AddedRoundTrip(b: seq<Byte>, p: nat, level: nat, f: Meta, q: nat)
    requires level < NUM_LEVELS && Short(f.smallest) && Short(f.largest)
    requires At(b, p, Body(Added(level, f))) && q == p + |Body(Added(level, f))|
    ensures p <= |b| && ParseAdded(b, p) == Step(Added(level, f), q)
  {
    var a := p + |PutVarint(level)|;
    var c := a + |PutVarint(f.number)|;
    var d := c + |PutVarint(f.size)|;
    var e := d + |PutSlice(f.smallest)|;
    var keys := PutSlice(f.smallest) + PutSlice(f.largest);
    AtSplit(b, p, PutVarint(level), PutVarint(f.number) + (PutVarint(f.size) + keys), a);
    AtSplit(b, a, PutVarint(f.number), PutVarint(f.size) + keys, c);
    AtSplit(b, c, PutVarint(f.size), keys, d);
    AtSplit(b, d, PutSlice(f.smallest), PutSlice(f.largest), e);
    LevelRoundTrip(b, p, level, a);
    Varint64RoundTrip(b, a, f.number, c);
    Varint64RoundTrip(b, c, f.size, d);
    SliceRoundTrip(b, d, f.smallest, e);
    SliceRoundTrip(b, e, f.largest, q);
  }

  lemma PairRoundTrip(b: seq<Byte>, p: nat, item: Item, q: nat)
    requires (item.Pointer? || item.Deleted?) && Encodable(item) && At(b, p, Body(item)) && q == p + |Body(item)|
    ensures p <= |b| && ParseBody(Tag(item), b, p) == Step(item, q)
  {
    var a := p + |PutVarint(item.level)|;
    if item.Pointer? {
      AtSplit(b, p, PutVarint(item.level), PutSlice(item.key), a);
      SliceRoundTrip(b, a, item.key, q);
    } else {
      AtSplit(b, p, PutVarint(item.level), PutVarint(item.n), a);
      Varint64RoundTrip(b, a, item.n, q);
    }
    LevelRoundTrip(b, p, item.level, a);
  }

  lemma BodyRoundTrip(b: seq<Byte>, p: nat, item: Item, q: nat)
    requires Encodable(item) && At(b, p, Body(item)) && q == p + |Body(item)|
    ensures p <= |b| && ParseBody(Tag(item), b, p) == Step(item, q)
  {
    if item.Comparator? {
      SliceRoundTrip(b, p, item.name, q);
    } else if item.Added? {
      AddedRoundTrip(b, p, item.level, item.meta, q);
    } else if item.Pointer? || item.Deleted? {
      PairRoundTrip(b, p, item, q);
    } else {
      Varint64RoundTrip(b, p, item.n, q);
    }
  }

  lemma ItemRoundTrip(b: seq<Byte>, p: nat, item: Item, q: nat)
    requires Encodable(item) && At(b, p, EncodeItem(item)) && q == p + |EncodeItem(item)|
    ensures p < q && ParseItem(b, p) == Step(item, q)
  {
    AtSplit(b, p, [Tag(item)], Body(item), p + 1);
    assert PutVarint(Tag(item)) == [Tag(item)];
    VarintRoundTrip(b, p, |b|, Tag(item));
    BodyRoundTrip(b, p + 1, item, q);
  }

  lemma {:induction false} ItemsRoundTrip(b: seq<Byte>, p: nat, items: seq<Item>)
    requires (forall i :: 0 <= i < |items| ==> Encodable(items[i]))
    requires At(b, p, EncodeItems(items)) && p + |EncodeItems(items)| == |b|
    ensures ParseItems(b, p) == (items, None)
    decreases |items|
  {
    if items == [] {
      NothingLeft(b);
    } else {
      var q := p + |EncodeItem(items[0])|;
      AtSplit(b, p, EncodeItem(items[0]), EncodeItems(items[1..]), q);
      ItemRoundTrip(b, p, items[0], q);
      ItemsRoundTrip(b, q, items[1..]);
      OneItemMore(b, p, items[0], q, items[1..]);
      assert items == [items[0]] + items[1..];
    }
  }

  lemma {:induction false} NothingLeft(b: seq<Byte>)
    ensures ParseItems(b, |b|) == ([], None)
  {
    assert GetBytes(b, |b|, |b|, 5) == Bad;
  }

  lemma {:induction false} OneItemMore(b: seq<Byte>, p: nat, item: Item, q: nat, rest: seq<Item>)
    requires p <= |b| && ParseItem(b, p) == Step(item, q) && ParseItems(b, q) == (rest, None)
    ensures ParseItems(b, p) == ([item] + rest, None)
  {}

  lemma {:induction false} TakeConcat(e: Edit, a: seq<Item>, b: seq<Item>)
    ensures TakeAll(e, a + b) == TakeAll(TakeAll(e, a), b)
    decreases |a|
  {
    if a == [] {
      assert a + b == b;
    } else {
      assert (a + b)[0] == a[0] && (a + b)[1..] == a[1..] + b;
      TakeConcat(Take(e, a[0]), a[1..], b);
    }
  }

  lemma {:induction false} TakePointers(e: Edit, ps: seq<(nat, Bytes)>)
    ensures TakeAll(e, Pointers(ps)) == e.(pointers := e.pointers + ps)
    decreases |ps|
  {
    if ps == [] {
      assert e.pointers + ps == e.pointers;
    } else {
      assert Pointers(ps)[1..] == Pointers(ps[1..]);
      TakePointers(Take(e, Pointers(ps)[0]), ps[1..]);
      assert (e.pointers + [ps[0]]) + ps[1..] == e.pointers + ps;
    }
  }

  lemma {:induction false} TakeDeletions(e: Edit, ds: seq<(nat, Word64)>)
    ensures TakeAll(e, Deletions(ds)) == e.(deleted := e.deleted + (set d | d in ds))
    decreases |ds|
  {
    if ds == [] {
      assert e.deleted + (set d | d in ds) == e.deleted;
    } else {
      assert Deletions(ds)[1..] == Deletions(ds[1..]);
      TakeDeletions(Take(e, Deletions(ds)[0]), ds[1..]);
      assert (e.deleted + {ds[0]}) + (set d | d in ds[1..]) == e.deleted + (set d | d in ds);
    }
  }

  lemma {:induction false} TakeAdditions(e: Edit, fs: seq<(nat, Meta)>)
    ensures TakeAll(e, Additions(fs)) == e.(added := e.added + fs)
    decreases |fs|
  {
    if fs == [] {
      assert e.added + fs == e.added;
    } else {
      assert Additions(fs)[1..] == Additions(fs[1..]);
      TakeAdditions(Take(e, Additions(fs)[0]), fs[1..]);
      assert (e.added + [fs[0]]) + fs[1..] == e.added + fs;
    }
  }

  lemma {:induction false} TakeOne(e: Edit, a: seq<Item>, item: Item)
    ensures TakeAll(e, a + [item]) == Take(TakeAll(e, a), item)
  {
    TakeConcat(e, a, [item]);
    assert TakeAll(TakeAll(e, a), [item]) == TakeAll(Take(TakeAll(e, a), item), [item][1..]);
  }

  lemma {:induction false} TakeMaybe(e: Edit, a: seq<Item>, more: seq<Item>)
    requires |more| <= 1
    ensures TakeAll(e, a + more) == if more == [] then TakeAll(e, a) else Take(TakeAll(e, a), more[0])
  {
    if more == [] { assert a + more == a; } else { TakeOne(e, a, more[0]); assert more == [more[0]]; }
  }

  lemma {:induction false} TakeScalars(e: Edit, from: Edit)
    requires e == Cleared(e)
    ensures TakeAll(e, Scalars(from)) ==
      from.(pointers := e.pointers, deleted := {}, added := [])
  {
    var a := if from.comparator.Some? then [Comparator(from.comparator.value)] else [];
    var b, c := Single(from.logNumber, (n: Word64) => LogNumber(n)), Single(from.prevLogNumber,
        (n: Word64) => PrevLogNumber(n));
    var d, f := Single(from.nextFile, (n: Word64) => NextFile(n)), Single(from.lastSequence,
        (n: Word64) => LastSequence(n));
    assert [] + a == a;
    TakeMaybe(e, [], a);
    TakeMaybe(e, a, b);
    TakeMaybe(e, a + b, c);
    TakeMaybe(e, a + b + c, d);
    TakeMaybe(e, a + b + c + d, f);
  }

  ghost predicate EditEncodable(e: Edit, order: seq<(nat, Word64)>) {
    && (forall d :: d in order <==> d in e.deleted)
    && (forall i :: 0 <= i < |ItemsOf(e, order)| ==> Encodable(ItemsOf(e, order)[i]))
  }

  /** An edit decoded into another one: its own fields, and the compaction pointers behind those that
      were there already. */
  lemma {:induction false} EditRoundTrip(e: Edit, order: seq<(nat, Word64)>, was: Edit)
    requires EditEncodable(e, order)
    ensures ParseItems(EncodeItems(ItemsOf(e, order)), 0).1 == None
    ensures TakeAll(Cleared(was), ParseItems(EncodeItems(ItemsOf(e, order)), 0).0)
         == e.(pointers := was.pointers + e.pointers)
  {
    var b := EncodeItems(ItemsOf(e, order));
    assert b[0..|b|] == b;
    ItemsRoundTrip(b, 0, ItemsOf(e, order));
    var start := Cleared(was);
    var s, ps, ds := Scalars(e), Pointers(e.pointers), Deletions(order);
    TakeScalars(start, e);
    TakeConcat(start, s, ps);
    TakePointers(TakeAll(start, s), e.pointers);
    TakeConcat(start, s + ps, ds);
    TakeDeletions(TakeAll(start, s + ps), order);
    TakeConcat(start, s + ps + ds, Additions(e.added));
    TakeAdditions(TakeAll(start, s + ps + ds), e.added);
    assert (set d | d in order) == e.deleted;
    assert {} + e.deleted == e.deleted && [] + e.added == e.added;
  }

  /** Decoding into an edit gives back the encoded one exactly when that edit held no compaction pointers. */
  lemma {:induction false} RoundTripIff(e: Edit, order: seq<(nat, Word64)>, was: Edit)
    requires EditEncodable(e, order)
    ensures TakeAll(Cleared(was), ParseItems(EncodeItems(ItemsOf(e, order)), 0).0) == e <==> was.pointers == []
  {
    EditRoundTrip(e, order, was);
    if was.pointers == [] { assert [] + e.pointers == e.pointers; }
    assert |was.pointers + e.pointers| == |was.pointers| + |e.pointers|;
  }
}
