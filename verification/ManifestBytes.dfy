/** The manifest as the bytes of a log of version edits, and the tables as numbered files: what VersionSet::Recover
    makes of them after a crash, wherever the manifest was cut off. */
module ManifestBytes {
  import opened DbFormat
  import opened Versions
  import opened Manifest
  import opened Coding
  import opened LogFormat
  import opened LogReader
  import opened TornTails
  import opened TornLogs
  import opened DbState
  import DbImpl
  import Edits = VersionEdits
  import MemTables
  import TableFiles

  // ---------- Files as the manifest knows them: without their entries ----------

  function BareEntries(lo: InternalKey, hi: InternalKey): Run {
    var a, b := Entry(lo.user, lo.sn, lo.kind, ""), Entry(hi.user, hi.sn, hi.kind, "");
    if Ordered(a, b) then [a, b] else [a]
  }

  /** A file of which only the number, the size and the ends are known. */
  function Bare(number: nat, size: nat, lo: InternalKey, hi: InternalKey): File {
    File(number, size, BareEntries(lo, hi))
  }

  function BareFile(f: File): File { Bare(f.number, f.size, f.Smallest(), f.Largest()) }

  lemma BareKeeps(f: File)
    ensures BareFile(f).Smallest() == f.Smallest() && BareFile(f).Largest() == f.Largest()
  {
    SortedEnds(f, |f.entries| - 1);
  }

  function BareFiles(files: seq<File>): (r: seq<File>)
    ensures |r| == |files| && forall i :: 0 <= i < |files| ==> r[i] == BareFile(files[i])
    ensures forall g :: g in r <==> exists f :: f in files && g == BareFile(f)
  {
    seq(|files|, i requires 0 <= i < |files| => BareFile(files[i]))
  }

  function BareVersion(v: Version): (r: Version)
    ensures |r.levels| == |v.levels| && forall l :: 0 <= l < |v.levels| ==> r.levels[l] == BareFiles(v.levels[l])
  {
    Version(seq(|v.levels|, l requires 0 <= l < |v.levels| => BareFiles(v.levels[l])))
  }

  function BareAdded(added: seq<(nat, File)>): (r: seq<(nat, File)>)
    ensures |r| == |added| && forall i :: 0 <= i < |added| ==> r[i] == (added[i].0, BareFile(added[i].1))
    ensures forall l, g :: (l, g) in r <==> exists f :: (l, f) in added && g == BareFile(f)
  {
    seq(|added|, i requires 0 <= i < |added| => (added[i].0, BareFile(added[i].1)))
  }

  function BareEdit(e: VersionEdit): VersionEdit { e.(added := BareAdded(e.added)) }

  function BareEdits(es: seq<VersionEdit>): (r: seq<VersionEdit>)
    ensures |r| == |es| && forall i :: 0 <= i < |es| ==> r[i] == BareEdit(es[i])
  {
    seq(|es|, i requires 0 <= i < |es| => BareEdit(es[i]))
  }

  lemma BareSorted(files: seq<File>)
    requires SortedFiles(files)
    ensures SortedFiles(BareFiles(files))
  {
    forall i, j | 0 <= i < j < |files| ensures BySmallest(BareFiles(files)[i], BareFiles(files)[j]) {
      BareKeeps(files[i]);
      BareKeeps(files[j]);
    }
  }

  /** The file lists of a version follow from the edits without the entries. */
  lemma BareEdited(v: Version, v': Version, e: VersionEdit)
    requires Edited(v, v', e)
    ensures Edited(BareVersion(v), BareVersion(v'), BareEdit(e))
  {
    var b, b', be := BareVersion(v), BareVersion(v'), BareEdit(e);
    forall l | 0 <= l < NUM_LEVELS ensures SortedFiles(b'.levels[l]) { BareSorted(v'.levels[l]); }
    forall l, g | 0 <= l < NUM_LEVELS
      ensures g in b'.levels[l] <==> (g in b.levels[l] && (l, g.number) !in be.deleted) || (l, g) in be.added
    {
      if g in b'.levels[l] {
        var f :| f in v'.levels[l] && g == BareFile(f);
      }
      if g in b.levels[l] && (l, g.number) !in be.deleted {
        var f :| f in v.levels[l] && g == BareFile(f);
        assert f in v'.levels[l];
      }
      if (l, g) in be.added {
        var f :| (l, f) in e.added && g == BareFile(f);
        assert f in v'.levels[l];
      }
    }
  }

  lemma BareOk(es: seq<VersionEdit>, e: VersionEdit)
    ensures LevelsOk(e) ==> LevelsOk(BareEdit(e))
    ensures SelfConsistent(e) ==> SelfConsistent(BareEdit(e))
    ensures AddsNew(es, e) ==> AddsNew(BareEdits(es), BareEdit(e))
  {}

  lemma {:induction false} BareReplays(es: seq<VersionEdit>, v: Version)
    requires Replays(es, v)
    ensures Replays(BareEdits(es), BareVersion(v))
    decreases |es|
  {
    if es == [] {
      assert BareVersion(v).levels == EMPTY.levels;
    } else {
      var n := |es| - 1;
      var v0 :| Replays(es[..n], v0) && Edited(v0, v, es[n]);
      BareReplays(es[..n], v0);
      BareEdited(v0, v, es[n]);
      BareOk(es[..n], es[n]);
      assert BareEdits(es)[..n] == BareEdits(es[..n]);
    }
  }

  lemma {:induction false} BareScalars(es: seq<VersionEdit>)
    ensures ManifestLog(BareEdits(es)) == ManifestLog(es) && ManifestNext(BareEdits(es)) == ManifestNext(es)
    ensures ManifestLast(BareEdits(es)) == ManifestLast(es)
  {
    if es != [] {
      var n := |es| - 1;
      BareScalars(es[..n]);
      assert BareEdits(es)[..n] == BareEdits(es[..n]);
    }
  }

  // ---------- The entries, found again by file number ----------

  type OnDisk = map<nat, TableFiles.OnDisk>

  /** The tables that a version is made of, by number. */
  ghost predicate AreTables(tables: TableFiles.Tables, v: Version) {
    && (forall l, f :: 0 <= l < |v.levels| && f in v.levels[l] ==> f.number in tables && tables[f.number] == f.entries)
    && (forall n :: n in tables ==> HasNumber(v, n))
  }

  ghost predicate HasNumber(v: Version, n: nat) {
    exists l, f :: 0 <= l < |v.levels| && f in v.levels[l] && f.number == n
  }

  /** Opening the file of that number. */
  function Filled(disk: OnDisk, f: File): File {
    if f.number in disk && disk[f.number].Whole? then f.(entries := disk[f.number].table) else f
  }

  function FilledFiles(disk: OnDisk, files: seq<File>): (r: seq<File>)
    ensures |r| == |files|
  {
    seq(|files|, i requires 0 <= i < |files| => Filled(disk, files[i]))
  }

  function FilledVersion(disk: OnDisk, v: Version): (r: Version)
    ensures |r.levels| == |v.levels|
  {
    Version(seq(|v.levels|, l requires 0 <= l < |v.levels| => FilledFiles(disk, v.levels[l])))
  }

  lemma FilledFile(disk: OnDisk, f: File, tables: TableFiles.Tables)
    requires f.number in tables && tables[f.number] == f.entries && TableFiles.Backed(tables, disk)
    ensures Filled(disk, BareFile(f)) == f
  {}

  lemma FilledLevel(disk: OnDisk, files: seq<File>, tables: TableFiles.Tables)
    requires forall f :: f in files ==> f.number in tables && tables[f.number] == f.entries
    requires TableFiles.Backed(tables, disk)
    ensures FilledFiles(disk, BareFiles(files)) == files
  {
    forall i | 0 <= i < |files| ensures FilledFiles(disk, BareFiles(files))[i] == files[i] {
      FilledFile(disk, files[i], tables);
    }
  }

  /** A version whose tables are all there comes back whole. */
  lemma FilledIs(disk: OnDisk, v: Version, tables: TableFiles.Tables)
    requires AreTables(tables, v) && TableFiles.Backed(tables, disk)
    ensures FilledVersion(disk, BareVersion(v)) == v
  {
    var r := FilledVersion(disk, BareVersion(v));
    forall l | 0 <= l < |v.levels| ensures r.levels[l] == v.levels[l] { FilledLevel(disk, v.levels[l], tables); }
    assert r.levels == v.levels;
  }

  // ---------- Edits as bytes ----------

  /** An internal key as the manifest holds it. */
  function KeyBytes(names: Names, k: InternalKey): seq<Byte> {
    MemTables.TagFits(k);
    names.key(k.user) + EncodeFixed64(k.Tag())
  }

  function KeyOf(names: Names, b: seq<Byte>): InternalKey {
    if |b| < 8 then InternalKey(0, 0, Deletion)
    else MemTables.KeyRead(names, MemTables.Fields(b[..|b| - 8], DecodeFixed64(b[|b| - 8..]), []))
  }

  predicate KeyFits(names: Names, k: InternalKey) {
    |names.key(k.user)| + 8 < 0x1_0000_0000 && names.unkey(names.key(k.user)) == k.user
  }

  lemma KeyComesBack(names: Names, k: InternalKey)
    requires KeyFits(names, k)
    ensures KeyOf(names, KeyBytes(names, k)) == k && Short(KeyBytes(names, k))
  {
    var b := KeyBytes(names, k);
    assert b[..|b| - 8] == names.key(k.user) && b[|b| - 8..] == EncodeFixed64(k.Tag());
    Fixed64RoundTrip(k.Tag());
    MemTables.TagKind(k);
  }

  const WORD: nat := 0x1_0000_0000_0000_0000

  predicate FileFits(names: Names, f: File) {
    f.number < WORD && f.size < WORD && KeyFits(names, f.Smallest()) && KeyFits(names, f.Largest())
  }

  predicate Fits(n: Option<nat>) { n.Some? ==> n.value < WORD }

  /** Numbers of 64 bits, levels that exist, keys with bytes of their own. */
  ghost predicate EditFits(names: Names, e: VersionEdit) {
    && LevelsOk(e) && Fits(e.logNumber) && Fits(e.nextFile) && Fits(e.lastSequence)
    && (forall d :: d in e.deleted ==> d.1 < WORD)
    && (forall i :: 0 <= i < |e.added| ==> FileFits(names, e.added[i].1))
  }

  ghost function Word(n: Option<nat>): Option<Word64>
    requires Fits(n)
  {
    if n.Some? then Some(n.value) else None
  }

  ghost function MetaOf(names: Names, f: File): Edits.Meta
    requires FileFits(names, f)
  {
    Edits.Meta(f.number, f.size, KeyBytes(names, f.Smallest()), KeyBytes(names, f.Largest()))
  }

  ghost function MetasOf(names: Names, added: seq<(nat, File)>): (r: seq<(nat, Edits.Meta)>)
    requires forall i :: 0 <= i < |added| ==> FileFits(names, added[i].1)
    ensures |r| == |added|
  {
    seq(|added|, i requires 0 <= i < |added| => (added[i].0, MetaOf(names, added[i].1)))
  }

  ghost function DeletedOf(deleted: set<(nat, nat)>): set<(nat, Word64)>
    requires forall d :: d in deleted ==> d.1 < WORD
  {
    set d | d in deleted :: (d.0, d.1)
  }

  /** The edit as LogAndApply hands it to EncodeTo. */
  ghost function ToRecord(names: Names, cmp: Option<seq<Byte>>, e: VersionEdit): Edits.Edit
    requires EditFits(names, e)
  {
    Edits.Edit(cmp, Word(e.logNumber), Some(0), Word(e.nextFile), Word(e.lastSequence), [], DeletedOf(e.deleted),
               MetasOf(names, e.added))
  }

  function Plain(n: Option<Word64>): Option<nat> { if n.Some? then Some(n.value) else None }

  function BareOf(names: Names, m: Edits.Meta): File {
    Bare(m.number, m.size, KeyOf(names, m.smallest), KeyOf(names, m.largest))
  }

  /** What Builder::Apply takes from a decoded edit. */
  function FromRecord(names: Names, r: Edits.Edit): VersionEdit {
    VersionEdit(set d | d in r.deleted :: (d.0, d.1 as nat),
                seq(|r.added|, i requires 0 <= i < |r.added| => (r.added[i].0, BareOf(names, r.added[i].1))),
                Plain(r.logNumber), Plain(r.nextFile), Plain(r.lastSequence))
  }

  lemma MetaComesBack(names: Names, f: File)
    requires FileFits(names, f)
    ensures BareOf(names, MetaOf(names, f)) == BareFile(f)
  {
    KeyComesBack(names, f.Smallest());
    KeyComesBack(names, f.Largest());
  }

  lemma RecordComesBack(names: Names, cmp: Option<seq<Byte>>, e: VersionEdit)
    requires EditFits(names, e)
    ensures FromRecord(names, ToRecord(names, cmp, e)) == BareEdit(e)
  {
    var r := FromRecord(names, ToRecord(names, cmp, e));
    forall i | 0 <= i < |e.added| ensures r.added[i] == BareEdit(e).added[i] { MetaComesBack(names, e.added[i].1); }
    forall d ensures d in r.deleted <==> d in e.deleted {
      if d in e.deleted { assert (d.0, d.1) in DeletedOf(e.deleted); }
    }
  }

  /** The order in which a record lists the deleted files. */
  type Order = seq<(nat, Word64)>

  ghost predicate EditWritable(names: Names, cmp: Option<seq<Byte>>, e: VersionEdit, order: Order) {
    && EditFits(names, e) && (cmp.Some? ==> Short(cmp.value))
    && forall d :: d in order <==> d in DeletedOf(e.deleted)
  }

  ghost function EditBytes(names: Names, cmp: Option<seq<Byte>>, e: VersionEdit, order: Order): seq<Byte>
    requires EditFits(names, e)
  {
    Edits.EncodeItems(Edits.ItemsOf(ToRecord(names, cmp, e), order))
  }

  /** One record: DecodeFrom, and the comparator must be the one the database is opened with. */
  function DecodeOne(names: Names, cmp: seq<Byte>, record: seq<Byte>): Option<VersionEdit> {
    var p := Edits.ParseItems(record, 0);
    if p.1.Some? then None
    else
      var e := Edits.TakeAll(Edits.EMPTY, p.0);
      if e.comparator.Some? && e.comparator.value != cmp then None else Some(FromRecord(names, e))
  }

  lemma {:induction false} ItemsEncodable(names: Names, cmp: Option<seq<Byte>>, e: VersionEdit, order: Order)
    requires EditWritable(names, cmp, e, order)
    ensures Edits.EditEncodable(ToRecord(names, cmp, e), order)
  {
    var r := ToRecord(names, cmp, e);
    forall i | 0 <= i < |e.added| ensures Edits.Encodable(Edits.Additions(r.added)[i]) {
      KeyComesBack(names, e.added[i].1.Smallest());
      KeyComesBack(names, e.added[i].1.Largest());
    }
    forall i | 0 <= i < |order| ensures Edits.Encodable(Edits.Deletions(order)[i]) {
      assert order[i] in DeletedOf(e.deleted);
    }
    assert Edits.NUM_LEVELS == Versions.NUM_LEVELS;
  }

  lemma {:induction false} DecodeOneIs(names: Names, cmp: seq<Byte>, first: bool, e: VersionEdit, order: Order)
    requires EditWritable(names, if first then Some(cmp) else None, e, order)
    ensures DecodeOne(names, cmp, EditBytes(names, if first then Some(cmp) else None, e, order)) == Some(BareEdit(e))
  {
    var named := if first then Some(cmp) else None;
    var r := ToRecord(names, named, e);
    ItemsEncodable(names, named, e, order);
    Edits.EditRoundTrip(r, order, Edits.EMPTY);
    assert Edits.Cleared(Edits.EMPTY) == Edits.EMPTY && r.(pointers := [] + r.pointers) == r;
    RecordComesBack(names, named, e);
  }

  // ---------- The whole manifest ----------

  ghost predicate Writable(names: Names, cmp: seq<Byte>, edits: seq<VersionEdit>, orders: seq<Order>) {
    |orders| == |edits| && forall i :: 0 <= i < |edits| ==>
      EditWritable(names, if i == 0 then Some(cmp) else None, edits[i], orders[i])
  }

  /** One record for each edit; the first names the comparator. */
  ghost function Records(names: Names, cmp: seq<Byte>, edits: seq<VersionEdit>, orders: seq<Order>)
    : (r: seq<seq<Byte>>)
    requires Writable(names, cmp, edits, orders)
    ensures |r| == |edits|
  {
    seq(|edits|, i requires 0 <= i < |edits| =>
      EditBytes(names, if i == 0 then Some(cmp) else None, edits[i], orders[i]))
  }

  function DecodeAll(names: Names, cmp: seq<Byte>, records: seq<seq<Byte>>): Option<seq<VersionEdit>> {
    if records == [] then Some([])
    else
      var n := |records| - 1;
      var init := DecodeAll(names, cmp, records[..n]);
      var e := DecodeOne(names, cmp, records[n]);
      if init.None? || e.None? then None else Some(init.value + [e.value])
  }

  lemma {:induction false} RecordsPrefix(names: Names, cmp: seq<Byte>, edits: seq<VersionEdit>, orders: seq<Order>,
                                         n: nat)
    requires Writable(names, cmp, edits, orders) && n <= |edits|
    ensures Writable(names, cmp, edits[..n], orders[..n])
    ensures Records(names, cmp, edits, orders)[..n] == Records(names, cmp, edits[..n], orders[..n])
  {
    forall i | 0 <= i < n ensures edits[..n][i] == edits[i] && orders[..n][i] == orders[i] {}
  }

  lemma {:induction false} DecodeAllIs(names: Names, cmp: seq<Byte>, edits: seq<VersionEdit>, orders: seq<Order>)
    requires Writable(names, cmp, edits, orders)
    ensures DecodeAll(names, cmp, Records(names, cmp, edits, orders)) == Some(BareEdits(edits))
    decreases |edits|
  {
    if edits == [] {
      assert BareEdits(edits) == [];
    } else {
      var n := |edits| - 1;
      RecordsPrefix(names, cmp, edits, orders, n);
      DecodeAllIs(names, cmp, edits[..n], orders[..n]);
      LastDecoded(names, cmp, edits, orders, n);
      DecodeAllSnoc(names, cmp, edits, n, Records(names, cmp, edits, orders));
    }
  }

  lemma {:induction false} DecodeAllSnoc(names: Names, cmp: seq<Byte>, edits: seq<VersionEdit>, n: nat,
                                         records: seq<seq<Byte>>)
    requires n + 1 == |edits| == |records|
    requires DecodeAll(names, cmp, records[..n]) == Some(BareEdits(edits[..n]))
    requires DecodeOne(names, cmp, records[n]) == Some(BareEdit(edits[n]))
    ensures DecodeAll(names, cmp, records) == Some(BareEdits(edits))
  {
    BareEditsSnoc(edits, n);
  }

  lemma {:induction false} BareEditsSnoc(edits: seq<VersionEdit>, n: nat)
    requires n + 1 == |edits|
    ensures BareEdits(edits) == BareEdits(edits[..n]) + [BareEdit(edits[n])]
  {}

  lemma {:induction false} LastDecoded(names: Names, cmp: seq<Byte>, edits: seq<VersionEdit>, orders: seq<Order>,
                                       n: nat)
    requires Writable(names, cmp, edits, orders) && n < |edits|
    ensures DecodeOne(names, cmp, Records(names, cmp, edits, orders)[n]) == Some(BareEdit(edits[n]))
  {
    DecodeOneIs(names, cmp, n == 0, edits[n], orders[n]);
  }

  // ---------- VersionSet::Recover ----------

  /** The edits of the records, up to the first that cannot be decoded. */
  method DecodeEdits(names: Names, cmp: seq<Byte>, records: seq<seq<Byte>>) returns (r: Option<seq<VersionEdit>>)
    ensures r == DecodeAll(names, cmp, records)
  {
    var edits := [];
    for i := 0 to |records|
      invariant DecodeAll(names, cmp, records[..i]) == Some(edits)
    {
      assert records[..i + 1][..i] == records[..i];
      var edit := new Edits.VersionEdit();
      var fault := edit.DecodeFrom(records[i]);
      if fault.Some? || (edit.comparator.Some? && edit.comparator.value != cmp) {
        FaultStays(names, cmp, records, i + 1);
        return None;
      }
      edits := edits + [FromRecord(names, edit.View())];
    }
    assert records[..|records|] == records;
    r := Some(edits);
  }

  lemma {:induction false} FaultStays(names: Names, cmp: seq<Byte>, records: seq<seq<Byte>>, n: nat)
    requires n <= |records| && DecodeAll(names, cmp, records[..n]).None?
    ensures DecodeAll(names, cmp, records).None?
    decreases |records|
  {
    if n < |records| {
      assert records[..|records| - 1][..n] == records[..n];
      FaultStays(names, cmp, records[..|records| - 1], n);
    } else {
      assert records[..n] == records;
    }
  }

  datatype Recovered = Recovered(version: Version, log: nat, next: nat, last: nat)

  ghost predicate HasScalars(edits: seq<VersionEdit>) {
    ManifestLog(edits).Some? && ManifestNext(edits).Some? && ManifestLast(edits).Some?
  }

  /** A manifest file of these edits, cut off so that the first `n` records are whole. */
  ghost predicate CutAt(names: Names, crc: Checksum, cmp: seq<Byte>, edits: seq<VersionEdit>, orders: seq<Order>,
                        file: seq<Byte>, n: nat) {
    && Writable(names, cmp, edits, orders)
    && file <= EncodeAll(crc, 0, Records(names, cmp, edits, orders))
    && n == Whole(crc, 0, Records(names, cmp, edits, orders), |file|)
  }

  /** What the first `n` edits make of the tables on disk. */
  ghost predicate Means(edits: seq<VersionEdit>, v: Version, tables: TableFiles.Tables, disk: OnDisk) {
    Replays(edits, v) && HasScalars(edits) && AreTables(tables, v) && TableFiles.Backed(tables, disk)
  }

  /** The cut left nothing of a record that is not whole. */
  ghost predicate OpensAfter(names: Names, crc: Checksum, cmp: seq<Byte>, edits: seq<VersionEdit>, orders: seq<Order>,
                             file: seq<Byte>)
    requires Writable(names, cmp, edits, orders)
  {
    CleanCut(WholeEnd(crc, 0, Records(names, cmp, edits, orders), |file|), |file|)
  }

  lemma {:induction false} CutIsRead(names: Names, crc: Checksum, cmp: seq<Byte>, edits: seq<VersionEdit>,
                                     orders: seq<Order>, file: seq<Byte>, n: nat, got: seq<seq<Byte>>, reports: nat)
    requires CutAt(names, crc, cmp, edits, orders, file, n)
    requires (got, reports) == ReadAll(crc, AsCoded(true), file, START)
    ensures n <= |edits| && DecodeAll(names, cmp, got) == Some(BareEdits(edits[..n]))
    ensures reports == 0 <==> OpensAfter(names, crc, cmp, edits, orders, file)
  {
    var records := Records(names, cmp, edits, orders);
    assert file[START.p..] == file;
    CutLog(crc, AsCoded(true), file, START, records);
    CutReportsIff(crc, AsCoded(true), file, START, records);
    RecordsPrefix(names, cmp, edits, orders, n);
    DecodeAllIs(names, cmp, edits[..n], orders[..n]);
  }

  /** Recover: read the records, apply their edits, look at the numbers. Anything the reader reports is fatal, so
      a manifest cut off after any byte can be read if and only if the cut left nothing of a record that is not
      whole; then it gives the version of the whole records, file for file. */
  method RecoverManifest(names: Names, crc: Checksum, cmp: seq<Byte>, file: seq<Byte>, disk: OnDisk,
                         ghost edits: seq<VersionEdit>, ghost orders: seq<Order>, ghost n: nat, ghost v: Version,
                         ghost tables: TableFiles.Tables)
    returns (r: Option<Recovered>)
    requires CutAt(names, crc, cmp, edits, orders, file, n) && Means(edits[..n], v, tables, disk)
    ensures r.Some? <==> OpensAfter(names, crc, cmp, edits, orders, file)
    ensures r.Some? ==> r.value == Recovered(v, ManifestLog(edits[..n]).value, ManifestNext(edits[..n]).value,
                                             ManifestLast(edits[..n]).value)
  {
    var got, reports := ReplayLog(crc, true, file);
    CutIsRead(names, crc, cmp, edits, orders, file, n, got, reports);
    if reports > 0 {
      return None;
    }
    var decoded := DecodeEdits(names, cmp, got);
    var bare := decoded.value;
    BareScalars(edits[..n]);
    BareReplays(edits[..n], v);
    FilledIs(disk, v, tables);
    var base := RecoverVersion(bare, BareVersion(v));
    r := Some(Recovered(FilledVersion(disk, base), ManifestLog(bare).value, ManifestNext(bare).value,
                        ManifestLast(bare).value));
  }

  /** DB::Open on bytes: the manifest file, the numbered tables, and the logs. */
  method OpenFiles(names: Names, crc: Checksum, cmp: seq<Byte>, file: seq<Byte>, disk: OnDisk, logs: seq<LogFile>,
                   full: seq<Entry> -> bool, size: nat, ghost edits: seq<VersionEdit>, ghost orders: seq<Order>,
                   ghost n: nat, ghost v: Version, ghost tables: TableFiles.Tables, ghost logNumber: nat,
                   ghost history: set<Entry>, ghost horizon: nat, ghost bound: nat)
    returns (db: Option<Db>)
    requires CutAt(names, crc, cmp, edits, orders, file, n) && Means(edits[..n], v, tables, disk)
    requires RecoverableAs(Disk(logs, edits[..n]), v, logNumber, history, horizon, bound)
    ensures db.Some? <==> OpensAfter(names, crc, cmp, edits, orders, file)
    ensures db.Some? ==> DbState.Valid(db.value, history, horizon) && StartsAfresh(db.value)
    ensures db.Some? ==> db.value.lastSequence <= bound
  {
    var r := RecoverManifest(names, crc, cmp, file, disk, edits, orders, n, v, tables);
    if r.None? {
      return None;
    }
    var recovered := DbImpl.OpenWith(logs, edits[..n], r.value.version, r.value.log, r.value.next, r.value.last, full,
        size,
                                  history, horizon, bound);
    db := Some(recovered);
  }

  // ---------- A crash while a version is being installed ----------

  /** LogAndApply is appending the edit that leads from one valid state to the other; nothing else on disk changes. */
  ghost predicate Installing(db: Db, db': Db, edit: VersionEdit, history: set<Entry>, horizon: nat, horizon': nat) {
    && DbState.Valid(db, history, horizon) && DbState.Valid(db', history, horizon')
    && db'.disk == db.disk.(manifest := db.disk.manifest + [edit])
    && db'.lastSequence == db.lastSequence && db'.pending == db.pending
  }

  /** The file has all of the old manifest, which was synced, and as much of the new record as reached the disk. */
  ghost predicate Appending(names: Names, crc: Checksum, cmp: seq<Byte>, edits: seq<VersionEdit>, edit: VersionEdit,
                            orders: seq<Order>, file: seq<Byte>, from: nat, to: nat) {
    && |orders| == |edits| + 1 && Writable(names, cmp, edits + [edit], orders)
    && Writable(names, cmp, edits, orders[..|edits|])
    && from == |EncodeAll(crc, 0, Records(names, cmp, edits, orders[..|edits|]))|
    && to == |EncodeAll(crc, 0, Records(names, cmp, edits + [edit], orders))|
    && from <= |file| <= to && file <= EncodeAll(crc, 0, Records(names, cmp, edits + [edit], orders))
  }

  /** The tables of both versions are on disk, whole. */
  ghost predicate BothThere(v: Version, v': Version, tables: TableFiles.Tables, tables': TableFiles.Tables,
                            disk: OnDisk) {
    && AreTables(tables, v) && TableFiles.Backed(tables, disk)
    && AreTables(tables', v') && TableFiles.Backed(tables', disk)
  }

  lemma {:induction false} AppendedRecords(names: Names, cmp: seq<Byte>, edits: seq<VersionEdit>, edit: VersionEdit,
                                           orders: seq<Order>, n: nat)
    requires n == |edits| && Writable(names, cmp, edits + [edit], orders) && Writable(names, cmp, edits, orders[..n])
    ensures Records(names, cmp, edits + [edit], orders) ==
      Records(names, cmp, edits, orders[..n]) + [Records(names, cmp, edits + [edit], orders)[n]]
  {
    RecordsPrefix(names, cmp, edits + [edit], orders, n);
    assert (edits + [edit])[..n] == edits;
  }

  lemma {:induction false} AppendingCut(names: Names, crc: Checksum, cmp: seq<Byte>, edits: seq<VersionEdit>,
                                        edit: VersionEdit, orders: seq<Order>, file: seq<Byte>, from: nat, to: nat,
                                        n: nat)
    requires Appending(names, crc, cmp, edits, edit, orders, file, from, to)
    requires n == if |file| == to then |edits| + 1 else |edits|
    ensures CutAt(names, crc, cmp, edits + [edit], orders, file, n)
    ensures OpensAfter(names, crc, cmp, edits + [edit], orders, file) <==> |file| == to || CleanCut(from, |file|)
  {
    var m := |edits|;
    AppendedRecords(names, cmp, edits, edit, orders, m);
    var all := Records(names, cmp, edits + [edit], orders);
    LastCut(crc, 0, Records(names, cmp, edits, orders[..m]), all[m], all, from, to, |file|);
  }

  /** What either version means for recovery. */
  lemma {:induction false} EitherIsRecoverable(db: Db, history: set<Entry>, horizon: nat, bound: nat,
                                               tables: TableFiles.Tables, disk: OnDisk)
    requires DbState.Valid(db, history, horizon) && bound == db.lastSequence + |db.pending|
    requires AreTables(tables, db.version) && TableFiles.Backed(tables, disk)
    ensures Means(db.disk.manifest, db.version, tables, disk)
    ensures RecoverableAs(db.disk, db.version, db.logNumber, history, horizon, bound)
  {
    ValidIsRecoverable(db, history, horizon, bound);
  }

  /** The process dies while the record of a new version is being written. The database can be opened again if and
      only if the record is all there, or nothing of it is but the filler before it. Opened, it is in order for the
      same history of writes: it has the new version if the record is there, and the old one if not. */
  method OpenAfterCrash(names: Names, crc: Checksum, cmp: seq<Byte>, file: seq<Byte>, disk: OnDisk, logs: seq<LogFile>,
                        full: seq<Entry> -> bool, size: nat, ghost db: Db, ghost db': Db, ghost edit: VersionEdit,
                        ghost orders: seq<Order>, ghost from: nat, ghost to: nat, ghost tables: TableFiles.Tables,
                        ghost tables': TableFiles.Tables, ghost history: set<Entry>, ghost horizon: nat,
                        ghost horizon': nat)
    returns (r: Option<Db>)
    requires Installing(db, db', edit, history, horizon, horizon') && logs == db.disk.logs
    requires Appending(names, crc, cmp, db.disk.manifest, edit, orders, file, from, to)
    requires BothThere(db.version, db'.version, tables, tables', disk)
    ensures r.Some? <==> |file| == to || CleanCut(from, |file|)
    ensures r.Some? ==> StartsAfresh(r.value)
    ensures r.Some? ==> DbState.Valid(r.value, history, if |file| == to then horizon' else horizon)
  {
    ghost var edits, bound := db.disk.manifest, db.lastSequence + |db.pending|;
    ghost var n := if |file| == to then |edits| + 1 else |edits|;
    AppendingCut(names, crc, cmp, edits, edit, orders, file, from, to, n);
    ghost var s, t, h := if |file| == to then db' else db, if |file| == to then tables' else tables,
                         if |file| == to then horizon' else horizon;
    EitherIsRecoverable(s, history, h, bound, t, disk);
    assert (edits + [edit])[..n] == s.disk.manifest;
    r := OpenFiles(names, crc, cmp, file, disk, logs, full, size, edits + [edit], orders, n, s.version, t, s.logNumber,
                   history, h, bound);
  }

  // ---------- Versions and the machine of table files ----------

  /** The edit as the table files see it: which numbers go and which tables come. */
  ghost predicate Abstracts(a: TableFiles.Edit, e: VersionEdit) {
    && (forall n :: n in a.deleted <==> exists l :: (l, n) in e.deleted)
    && (forall l, f :: (l, f) in e.added ==> f.number in a.added && a.added[f.number] == f.entries)
    && (forall n :: n in a.added ==> exists l, f :: (l, f) in e.added && f.number == n)
  }

  /** What the edit deletes is where it says. */
  ghost predicate DeletesPresent(v: Version, e: VersionEdit) {
    forall l, n :: (l, n) in e.deleted ==> l < |v.levels| && exists f :: f in v.levels[l] && f.number == n
  }

  /** An edit of the version is a step of the table files: moves, flushes, compactions and recovery alike. */
  lemma EditIsApply(v: Version, v': Version, e: VersionEdit, a: TableFiles.Edit, tables: TableFiles.Tables)
    requires Edited(v, v', e) && UniqueNumbers(v) && UniqueNumbers(v') && LevelsOk(e) && DeletesPresent(v, e)
    requires Abstracts(a, e) && AreTables(tables, v)
    ensures AreTables(TableFiles.Apply(tables, a), v')
  {
    forall l, f | 0 <= l < NUM_LEVELS && f in v'.levels[l]
      ensures f.number in TableFiles.Apply(tables, a) && TableFiles.Apply(tables, a)[f.number] == f.entries
    {
      TableAfter(v, v', e, a, tables, l, f);
    }
    forall n | n in TableFiles.Apply(tables, a) ensures HasNumber(v', n) {
      NumberAfter(v, v', e, a, tables, n);
    }
  }

  lemma TableAfter(v: Version, v': Version, e: VersionEdit, a: TableFiles.Edit, tables: TableFiles.Tables, l: nat,
                   f: File)
    requires Edited(v, v', e) && UniqueNumbers(v) && UniqueNumbers(v') && LevelsOk(e) && DeletesPresent(v, e)
    requires Abstracts(a, e) && AreTables(tables, v) && l < NUM_LEVELS && f in v'.levels[l]
    ensures f.number in TableFiles.Apply(tables, a) && TableFiles.Apply(tables, a)[f.number] == f.entries
  {
    if (l, f) !in e.added {
      assert f in v.levels[l] && (l, f.number) !in e.deleted;
      NotDeleted(v, e, l, f);
      NotAdded(v', e, l, f);
      KeptAfter(e, a, tables, f);
    } else {
      AddedAfter(e, a, tables, l, f);
    }
  }

  lemma KeptAfter(e: VersionEdit, a: TableFiles.Edit, tables: TableFiles.Tables, f: File)
    requires Abstracts(a, e) && f.number in tables && tables[f.number] == f.entries
    requires (forall m :: (m, f.number) !in e.deleted) && forall m, g :: (m, g) in e.added ==> g.number != f.number
    ensures f.number in TableFiles.Apply(tables, a) && TableFiles.Apply(tables, a)[f.number] == f.entries
  {
    assert f.number !in a.deleted && f.number !in a.added;
  }

  lemma AddedAfter(e: VersionEdit, a: TableFiles.Edit, tables: TableFiles.Tables, l: nat, f: File)
    requires Abstracts(a, e) && (l, f) in e.added
    ensures f.number in TableFiles.Apply(tables, a) && TableFiles.Apply(tables, a)[f.number] == f.entries
  {}

  lemma NotDeleted(v: Version, e: VersionEdit, l: nat, f: File)
    requires UniqueNumbers(v) && DeletesPresent(v, e) && l < |v.levels| && f in v.levels[l]
    requires (l, f.number) !in e.deleted
    ensures forall m :: (m, f.number) !in e.deleted
  {}

  lemma NotAdded(v': Version, e: VersionEdit, l: nat, f: File)
    requires UniqueNumbers(v') && l < |v'.levels| && f in v'.levels[l] && (l, f) !in e.added
    requires forall m, g :: (m, g) in e.added ==> m < |v'.levels| && g in v'.levels[m]
    ensures forall m, g :: (m, g) in e.added ==> g.number != f.number
  {}

  lemma NumberAfter(v: Version, v': Version, e: VersionEdit, a: TableFiles.Edit, tables: TableFiles.Tables, n: nat)
    requires Edited(v, v', e) && LevelsOk(e) && Abstracts(a, e) && AreTables(tables, v)
    requires n in TableFiles.Apply(tables, a)
    ensures HasNumber(v', n)
  {
    if n in a.added {
      var l, f :| (l, f) in e.added && f.number == n;
      assert f in v'.levels[l];
    } else {
      assert HasNumber(v, n);
      var l, f :| 0 <= l < |v.levels| && f in v.levels[l] && f.number == n;
      assert (l, n) !in e.deleted;
      assert f in v'.levels[l];
    }
  }
}
