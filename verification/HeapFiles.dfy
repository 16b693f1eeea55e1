/** The heap file: directory pages in a chain, data pages, and a one-page write-back cache. */
module HeapFiles {
  import opened Arithmetic
  import opened Coding
  import opened Pages
  import opened Sheets

  datatype Entry = Entry(offset: nat, freeSpace: int)

  /** A block of the file, as the code that wrote it sees it. */
  datatype Block = PageBlock(data: seq<Byte>) | DirBlock(next: nat, entries: seq<Entry>)

  /** A buffered directory page and where it lives. */
  datatype Directory = Directory(next: nat, entries: seq<Entry>, offset: nat) {
    function Bytes(): Block { DirBlock(next, entries) }
  }

  // ---------- Directory entries ----------

  /** Two ints of header, then entries of two ints. */
  function DirCapacity(pageSize: nat): nat { if pageSize < 8 then 0 else (pageSize - 8) / 8 }

  predicate HasPage(dirs: seq<Directory>, c: nat, p: PageId)
    requires c > 0
  {
    p / c < |dirs| && p % c < |dirs[p / c].entries|
  }

  /** get_entry. */
  function EntryOf(dirs: seq<Directory>, c: nat, p: PageId): Entry
    requires c > 0 && HasPage(dirs, c, p)
  {
    dirs[p / c].entries[p % c]
  }

  function AddEntry(dirs: seq<Directory>, d: nat, e: Entry): seq<Directory>
    requires d < |dirs|
  {
    dirs[d := dirs[d].(entries := dirs[d].entries + [e])]
  }

  lemma AddedEntry(dirs: seq<Directory>, c: nat, d: nat, e: Entry, pid: PageId, p: PageId)
    requires c > 0 && d < |dirs| && |dirs[d].entries| < c && pid == d * c + |dirs[d].entries|
    ensures !HasPage(dirs, c, pid)
    ensures HasPage(AddEntry(dirs, d, e), c, p) <==> HasPage(dirs, c, p) || p == pid
    ensures HasPage(dirs, c, p) ==> EntryOf(AddEntry(dirs, d, e), c, p) == EntryOf(dirs, c, p)
    ensures HasPage(AddEntry(dirs, d, e), c, pid) && EntryOf(AddEntry(dirs, d, e), c, pid) == e
  {
    DivMod(pid, d, c, |dirs[d].entries|);
    var q, r := p / c, p % c;
    assert p == q * c + r;
    if q == d && r == |dirs[d].entries| { assert p == pid; }
  }

  function SetFree(dirs: seq<Directory>, c: nat, p: PageId, free: int): seq<Directory>
    requires c > 0 && HasPage(dirs, c, p)
  {
    var d := dirs[p / c];
    dirs[p / c := d.(entries := d.entries[p % c := d.entries[p % c].(freeSpace := free)])]
  }

  lemma FreeSet(dirs: seq<Directory>, c: nat, p: PageId, free: int, q: PageId)
    requires c > 0 && HasPage(dirs, c, p)
    ensures HasPage(SetFree(dirs, c, p, free), c, q) <==> HasPage(dirs, c, q)
    ensures HasPage(dirs, c, q) && p != q ==> EntryOf(SetFree(dirs, c, p, free), c, q) == EntryOf(dirs, c, q)
    ensures EntryOf(SetFree(dirs, c, p, free), c, p) == EntryOf(dirs, c, p).(freeSpace := free)
  {
    assert p == (p / c) * c + p % c && q == (q / c) * c + q % c;
  }

  // ---------- What the file holds ----------

  ghost predicate Apart(file: map<nat, Block>, size: nat, pageSize: nat) {
    && (forall a :: a in file ==> a + pageSize <= size)
    && (forall a, b :: a in file && b in file && a != b ==> a + pageSize <= b || b + pageSize <= a)
  }

  /** Where the blocks are: directories in a chain from offset 0, pages at distinct offsets. */
  ghost predicate Placed(dirs: seq<Directory>, c: nat, file: map<nat, Block>)
    requires c > 0
  {
    && dirs != [] && dirs[0].offset == 0 && dirs[|dirs| - 1].next == 0
    && (forall d :: 0 <= d < |dirs| ==>
          && |dirs[d].entries| <= c && dirs[d].offset in file
          && file[dirs[d].offset].DirBlock?)
    && (forall d :: 0 < d < |dirs| ==> dirs[d].offset > 0 && dirs[d - 1].next == dirs[d].offset)
    && (forall d, e :: 0 <= d < e < |dirs| ==> dirs[d].offset != dirs[e].offset)
    && (forall p :: HasPage(dirs, c, p) ==>
      EntryOf(dirs, c, p).offset in file && file[EntryOf(dirs, c, p).offset].PageBlock?)
    && (forall p, q :: HasPage(dirs, c, p) && HasPage(dirs, c, q) && p != q ==>
      EntryOf(dirs, c, p).offset != EntryOf(dirs, c, q).offset)
  }

  /** The data pages by page id. */
  type Contents = seq<seq<Byte>>

  /** The pages, and the free-slot counts kept for them. */
  ghost predicate Counted(lay: Layout, dirs: seq<Directory>, c: nat, pages: Contents)
    requires c > 0
  {
    && (forall p: PageId :: p < |pages| <==> HasPage(dirs, c, p))
    && (forall p: PageId :: p < |pages| ==> CountOk(lay, EntryOf(dirs, c, p), pages[p]))
  }

  ghost predicate CountOk(lay: Layout, e: Entry, data: seq<Byte>) {
    IsPage(lay, data) && e.freeSpace == Free(lay, data)
  }

  /** Every page except the one in the cache, if that is dirty, is up to date in the file. */
  ghost predicate OnDisk(dirs: seq<Directory>, c: nat, file: map<nat, Block>, pages: Contents, dirty: int)
    requires c > 0
  {
    forall p: PageId :: p < |pages| && HasPage(dirs, c, p) && p != dirty ==>
      EntryOf(dirs, c, p).offset in file && file[EntryOf(dirs, c, p).offset] == PageBlock(pages[p])
  }

  // ---------- Single changes ----------

  /** write_block at the end of the file. */
  lemma AppendBlock(dirs: seq<Directory>, c: nat, file: map<nat, Block>, size: nat, pageSize: nat, b: Block,
                    file': map<nat, Block>, size': nat)
    requires c > 0 && pageSize > 0 && Apart(file, size, pageSize) && Placed(dirs, c, file)
    requires file' == file[size := b] && size' == size + pageSize
    ensures size !in file && Apart(file', size', pageSize) && Placed(dirs, c, file')
  {}

  lemma AppendKeepsPages(dirs: seq<Directory>, c: nat, file: map<nat, Block>, at: nat, b: Block, file': map<nat, Block>,
                         pages: Contents, dirty: int)
    requires c > 0 && at !in file && file' == file[at := b] && OnDisk(dirs, c, file, pages, dirty)
    ensures OnDisk(dirs, c, file', pages, dirty)
  {}

  /** write_block over a page that is there already. */
  lemma RewritePage(dirs: seq<Directory>, c: nat, file: map<nat, Block>, p: PageId, data: seq<Byte>,
                    file': map<nat, Block>, pages: Contents, at: nat)
    requires c > 0 && Placed(dirs, c, file) && HasPage(dirs, c, p) && at == EntryOf(dirs, c, p).offset
    requires file' == file[at := PageBlock(data)] && p < |pages| && pages[p] == data && OnDisk(dirs, c, file, pages, p)
    ensures Placed(dirs, c, file') && OnDisk(dirs, c, file', pages, -1)
  {}

  lemma RewriteApart(file: map<nat, Block>, size: nat, pageSize: nat, at: nat, b: Block)
    requires Apart(file, size, pageSize) && at in file
    ensures Apart(file[at := b], size, pageSize)
  {}

  /** The directories list one page more. */
  ghost predicate Extends(dirs: seq<Directory>, c: nat, dirs': seq<Directory>, pid: PageId, e: Entry)
    requires c > 0
  {
    && !HasPage(dirs, c, pid) && HasPage(dirs', c, pid) && EntryOf(dirs', c, pid) == e
    && (forall p :: HasPage(dirs', c, p) ==> HasPage(dirs, c, p) || p == pid)
    && (forall p :: HasPage(dirs, c, p) ==> HasPage(dirs', c, p) && EntryOf(dirs', c, p) == EntryOf(dirs, c, p))
  }

  lemma AddExtends(dirs: seq<Directory>, c: nat, d: nat, e: Entry, pid: PageId, dirs': seq<Directory>)
    requires c > 0 && d < |dirs| && |dirs[d].entries| < c && pid == d * c + |dirs[d].entries|
      && dirs' == AddEntry(dirs, d, e)
    ensures Extends(dirs, c, dirs', pid, e)
  {
    AddedEntry(dirs, c, d, e, pid, pid);
    forall p ensures HasPage(dirs', c, p) <==> HasPage(dirs, c, p) || p == pid { AddedEntry(dirs, c, d, e, pid, p); }
    forall p | HasPage(dirs, c, p) ensures HasPage(dirs', c, p) && EntryOf(dirs', c, p) == EntryOf(dirs, c, p) {
      AddedEntry(dirs, c, d, e, pid, p);
    }
  }

  /** An entry for a page just written. */
  lemma AddPagePlaced(dirs: seq<Directory>, c: nat, d: nat, e: Entry, pid: PageId, file: map<nat, Block>,
                      dirs': seq<Directory>)
    requires c > 0 && Placed(dirs, c, file) && d < |dirs| && |dirs[d].entries| < c && dirs' == AddEntry(dirs, d, e)
    requires Extends(dirs, c, dirs', pid, e) && e.offset in file && file[e.offset].PageBlock?
    requires forall p :: HasPage(dirs, c, p) ==> EntryOf(dirs, c, p).offset != e.offset
    ensures Placed(dirs', c, file)
  {}

  lemma AddPageKeeps(lay: Layout, dirs: seq<Directory>, c: nat, e: Entry, pid: PageId, file: map<nat, Block>,
                     pages: Contents, data: seq<Byte>, dirs': seq<Directory>, pages': Contents, dirty: int)
    requires c > 0 && Extends(dirs, c, dirs', pid, e) && pid == |pages| && pages' == pages + [data]
    requires Counted(lay, dirs, c, pages) && CountOk(lay, e, data)
    requires OnDisk(dirs, c, file, pages, dirty) && e.offset in file && file[e.offset] == PageBlock(data)
    ensures Counted(lay, dirs', c, pages') && OnDisk(dirs', c, file, pages', dirty)
  {
    forall p: PageId | p < |pages'| ensures HasPage(dirs', c, p) && CountOk(lay, EntryOf(dirs', c, p), pages'[p]) {
      assert p != pid ==> CountOk(lay, EntryOf(dirs, c, p), pages[p]);
    }
  }

  /** A new directory page, linked from the last one. */
  function LinkDirectory(dirs: seq<Directory>, offset: nat): seq<Directory>
    requires dirs != []
  {
    var n := |dirs| - 1;
    dirs[n := dirs[n].(next := offset)] + [Directory(0, [], offset)]
  }

  lemma LinkedPages(dirs: seq<Directory>, c: nat, offset: nat, p: PageId)
    requires c > 0 && dirs != []
    ensures HasPage(LinkDirectory(dirs, offset), c, p) <==> HasPage(dirs, c, p)
    ensures HasPage(dirs, c, p) ==> EntryOf(LinkDirectory(dirs, offset), c, p) == EntryOf(dirs, c, p)
  {}

  lemma LinkPlaced(dirs: seq<Directory>, c: nat, file: map<nat, Block>, offset: nat, dirs': seq<Directory>)
    requires c > 0 && Placed(dirs, c, file) && offset > 0 && dirs' == LinkDirectory(dirs, offset)
    requires offset in file && file[offset].DirBlock? && forall d :: 0 <= d < |dirs| ==> dirs[d].offset != offset
    ensures Placed(dirs', c, file)
  {
    forall p ensures HasPage(dirs', c, p) <==> HasPage(dirs, c, p) { LinkedPages(dirs, c, offset, p); }
    forall p | HasPage(dirs', c, p)
      ensures EntryOf(dirs', c, p) == EntryOf(dirs, c, p) { LinkedPages(dirs, c, offset, p); }
  }

  lemma LinkKeeps(lay: Layout, dirs: seq<Directory>, c: nat, file: map<nat, Block>, offset: nat, dirs': seq<Directory>,
                  pages: Contents, dirty: int)
    requires c > 0 && dirs != [] && dirs' == LinkDirectory(dirs, offset)
    requires Counted(lay, dirs, c, pages) && OnDisk(dirs, c, file, pages, dirty)
    ensures Counted(lay, dirs', c, pages) && OnDisk(dirs', c, file, pages, dirty)
  {
    forall p ensures HasPage(dirs', c, p) <==> HasPage(dirs, c, p) { LinkedPages(dirs, c, offset, p); }
    forall p | HasPage(dirs', c, p)
      ensures EntryOf(dirs', c, p) == EntryOf(dirs, c, p) { LinkedPages(dirs, c, offset, p); }
  }

  /** commit_page: one page's contents and its count change together. */
  lemma CommitPlaced(dirs: seq<Directory>, c: nat, file: map<nat, Block>, p: PageId, free: int, dirs': seq<Directory>)
    requires c > 0 && Placed(dirs, c, file) && HasPage(dirs, c, p) && dirs' == SetFree(dirs, c, p, free)
    ensures Placed(dirs', c, file)
  {
    forall q ensures HasPage(dirs', c, q) <==> HasPage(dirs, c, q) { FreeSet(dirs, c, p, free, q); }
    forall q | HasPage(dirs', c, q)
      ensures EntryOf(dirs', c, q).offset == EntryOf(dirs, c, q).offset { FreeSet(dirs, c, p, free, q); }
  }

  lemma CommitCounted(lay: Layout, dirs: seq<Directory>, c: nat, pages: Contents, p: PageId, data: seq<Byte>, free: int,
                      dirs': seq<Directory>, pages': Contents)
    requires c > 0 && Counted(lay, dirs, c, pages) && p < |pages| && IsPage(lay, data) && free == Free(lay, data)
    requires dirs' == SetFree(dirs, c, p, free) && pages' == pages[p := data]
    ensures Counted(lay, dirs', c, pages')
  {
    forall q ensures HasPage(dirs', c, q) <==> HasPage(dirs, c, q) { FreeSet(dirs, c, p, free, q); }
    forall q: PageId | q < |pages'| ensures HasPage(dirs', c, q) && CountOk(lay, EntryOf(dirs', c, q), pages'[q]) {
      FreeSet(dirs, c, p, free, q);
      assert q != p ==> CountOk(lay, EntryOf(dirs, c, q), pages[q]);
    }
  }

  lemma CommitOnDisk(dirs: seq<Directory>, c: nat, file: map<nat, Block>, pages: Contents, p: PageId, data: seq<Byte>,
                     free: int, dirs': seq<Directory>, pages': Contents)
    requires c > 0 && OnDisk(dirs, c, file, pages, p) && HasPage(dirs, c, p) && p < |pages|
    requires dirs' == SetFree(dirs, c, p, free) && pages' == pages[p := data]
    ensures OnDisk(dirs', c, file, pages', p)
  {
    forall q ensures HasPage(dirs', c, q) <==> HasPage(dirs, c, q) { FreeSet(dirs, c, p, free, q); }
    forall q | HasPage(dirs', c, q)
      ensures EntryOf(dirs', c, q).offset == EntryOf(dirs, c, q).offset { FreeSet(dirs, c, p, free, q); }
  }

  // ---------- The sheet of records a heap file stands for ----------

  ghost function PageLeaf(lay: Layout, data: seq<Byte>): Leaf {
    if IsPage(lay, data) then LeafOf(lay, data) else Leaf([], [])
  }

  ghost function SheetOf(lay: Layout, pages: Contents): (s: Sheet)
    ensures |s| == |pages|
  {
    seq(|pages|, p requires 0 <= p < |pages| => PageLeaf(lay, pages[p]))
  }

  /** `s'` is `s` with the record written over what the slot held. */
  ghost predicate Written(s: Sheet, rid: RecordId, r: Record, s': Sheet) {
    InSheet(s, rid) && |r| <= |Cell(s, rid)| && s' == Set(s, rid, Over(Cell(s, rid), r))
  }

  lemma WriteSets(lay: Layout, pages: Contents, p: PageId, slot: nat, r: Record, data: seq<Byte>)
    requires p < |pages| && IsPage(lay, pages[p]) && slot < lay.Capacity() && |r| <= lay.Width()
    requires data == WriteSlot(lay, pages[p], slot, r)
    ensures InSheet(SheetOf(lay, pages), RecordId(p, slot))
    ensures |Cell(SheetOf(lay, pages), RecordId(p, slot))| == lay.Width()
    ensures SheetOf(lay, pages[p := data])
         == Set(SheetOf(lay, pages), RecordId(p, slot), Over(Cell(SheetOf(lay, pages), RecordId(p, slot)), r))
  {
    WriteUpdatesLeaf(lay, pages[p], slot, r, LeafOf(lay, pages[p]));
  }

  lemma ClearUnsets(lay: Layout, pages: Contents, p: PageId, slot: nat, data: seq<Byte>)
    requires p < |pages| && IsPage(lay, pages[p]) && slot < lay.Capacity() && data == ClearSlot(lay, pages[p], slot)
    ensures InSheet(SheetOf(lay, pages), RecordId(p, slot))
    ensures SheetOf(lay, pages[p := data]) == Unset(SheetOf(lay, pages), RecordId(p, slot))
  {
    ClearUpdatesLeaf(lay, pages[p], slot, LeafOf(lay, pages[p]));
  }

  lemma NewPageAdds(lay: Layout, pages: Contents, data: seq<Byte>)
    requires lay.Ok() && data == seq(lay.pageSize, _ => 0)
    ensures SheetOf(lay, pages + [data]) == SheetOf(lay, pages) + [BlankLeaf(lay)]
  {
    NewPageBlank(lay, data);
  }

  /** A page with a free slot by its count is one by its flags. */
  lemma RoomIsFree(lay: Layout, data: seq<Byte>)
    requires IsPage(lay, data)
    ensures HasRoom(LeafOf(lay, data)) <==> Free(lay, data) > 0
  {
    FullMeansUsed(lay, data, lay.Capacity());
    var used := LeafOf(lay, data).used;
    assert forall t :: 0 <= t < lay.Capacity() ==> used[t] == Flag(lay, data, t);
    var t := FreeSlot(used);
    assert t == lay.Capacity() ==> forall i :: 0 <= i < lay.Capacity() ==> used[i];
  }

  /** The first page with room by the counts in the directories is the first by the flags. */
  lemma VacantIsFreePage(lay: Layout, dirs: seq<Directory>, c: nat, pages: Contents, p: PageId)
    requires c > 0 && Counted(lay, dirs, c, pages) && p <= |pages| && NoRoomBelow(dirs, c, p)
    requires p < |pages| ==> EntryOf(dirs, c, p).freeSpace > 0
    ensures FreePage(SheetOf(lay, pages)) == p
  {
    var s := SheetOf(lay, pages);
    forall q: PageId | q < |pages| ensures HasRoom(s[q]) <==> EntryOf(dirs, c, q).freeSpace > 0 {
      assert CountOk(lay, EntryOf(dirs, c, q), pages[q]);
      RoomIsFree(lay, pages[q]);
    }
    FreePageIs(s, p);
  }

  lemma FirstFreeIsSlot(lay: Layout, data: seq<Byte>, slot: nat)
    requires IsPage(lay, data) && slot < lay.Capacity() && !Flag(lay, data, slot)
    requires forall t :: 0 <= t < slot ==> Flag(lay, data, t)
    ensures FreeSlot(LeafOf(lay, data).used) == slot
  {
    FreeSlotIs(LeafOf(lay, data).used, slot);
  }

  lemma SoundIsSheet(lay: Layout, dirs: seq<Directory>, c: nat, pages: Contents)
    requires lay.Ok() && c > 0 && Counted(lay, dirs, c, pages)
    ensures IsSheet(lay, SheetOf(lay, pages))
  {
    forall p: PageId | p < |pages| ensures IsPage(lay, pages[p]) {
      assert CountOk(lay, EntryOf(dirs, c, p), pages[p]);
    }
  }

  // ---------- The heap file ----------

  /** The invariant of the file and its directories; `dirty` is the page only the cache has right. */
  ghost predicate Sound(lay: Layout, c: nat, file: map<nat, Block>, size: nat, dirs: seq<Directory>, pages: Contents,
                        dirty: int) {
    && lay.Ok() && c > 0 && Apart(file, size, lay.pageSize) && Placed(dirs, c, file)
    && Counted(lay, dirs, c, pages) && OnDisk(dirs, c, file, pages, dirty)
  }

  /** A closed file. */
  ghost predicate Stored(lay: Layout, c: nat, file: map<nat, Block>, size: nat, dirs: seq<Directory>, pages: Contents) {
    && Sound(lay, c, file, size, dirs, pages, -1)
    && forall d :: 0 <= d < |dirs| ==> dirs[d].offset in file && file[dirs[d].offset] == dirs[d].Bytes()
  }

  lemma NewFile(lay: Layout)
    requires lay.Ok() && lay.pageSize > 1001
    ensures Stored(lay, DirCapacity(lay.pageSize), map[0 := DirBlock(0, [])], lay.pageSize, [Directory(0, [], 0)], [])
  {
    var dirs, c := [Directory(0, [], 0)], DirCapacity(lay.pageSize);
    assert c > 0;
    assert forall p: PageId :: !HasPage(dirs, c, p);
  }

  lemma SoundPage(lay: Layout, c: nat, file: map<nat, Block>, size: nat, dirs: seq<Directory>, pages: Contents,
                  dirty: int, p: PageId)
    requires Sound(lay, c, file, size, dirs, pages, dirty) && p < |pages|
    ensures c > 0 && HasPage(dirs, c, p) && IsPage(lay, pages[p])
    ensures EntryOf(dirs, c, p).offset in file
    ensures p != dirty ==> file[EntryOf(dirs, c, p).offset] == PageBlock(pages[p])
    ensures EntryOf(dirs, c, p).freeSpace == Free(lay, pages[p])
  {
    assert CountOk(lay, EntryOf(dirs, c, p), pages[p]);
  }

  lemma FlushSound(lay: Layout, c: nat, file: map<nat, Block>, size: nat, dirs: seq<Directory>, pages: Contents,
                   p: PageId, at: nat)
    requires Sound(lay, c, file, size, dirs, pages, p) && p < |pages| && c > 0
    requires HasPage(dirs, c, p) && at == EntryOf(dirs, c, p).offset
    ensures at + lay.pageSize <= size && Sound(lay, c, file[at := PageBlock(pages[p])], size, dirs, pages, -1)
  {
    RewritePage(dirs, c, file, p, pages[p], file[at := PageBlock(pages[p])], pages, at);
    RewriteApart(file, size, lay.pageSize, at, PageBlock(pages[p]));
  }

  lemma CommitSound(lay: Layout, c: nat, file: map<nat, Block>, size: nat, dirs: seq<Directory>, pages: Contents,
                    dirty: int, p: PageId, data: seq<Byte>, free: int, dirs': seq<Directory>, pages': Contents)
    requires Sound(lay, c, file, size, dirs, pages, dirty) && (dirty == -1 || dirty == p) && p < |pages|
      && IsPage(lay, data)
    requires c > 0 && HasPage(dirs, c, p) && free == Free(lay, data)
    requires dirs' == SetFree(dirs, c, p, free) && pages' == pages[p := data]
    ensures Sound(lay, c, file, size, dirs', pages', p)
  {
    CommitPlaced(dirs, c, file, p, free, dirs');
    CommitCounted(lay, dirs, c, pages, p, data, free, dirs', pages');
    CommitOnDisk(dirs, c, file, pages, p, data, free, dirs', pages');
  }

  ghost predicate Unlisted(dirs: seq<Directory>, c: nat, offset: nat)
    requires c > 0
  {
    forall p :: HasPage(dirs, c, p) ==> EntryOf(dirs, c, p).offset != offset
  }

  lemma AddSound(lay: Layout, c: nat, file: map<nat, Block>, size: nat, dirs: seq<Directory>, pages: Contents,
                 dirty: int, d: nat, e: Entry, data: seq<Byte>, pid: PageId, dirs': seq<Directory>, pages': Contents)
    requires Sound(lay, c, file, size, dirs, pages, dirty)&& c > 0
    requires d < |dirs| && FullBefore(dirs, c, d) && |dirs[d].entries| < c && pid == d * c + |dirs[d].entries|
    requires e.offset in file && file[e.offset] == PageBlock(data) && CountOk(lay, e, data)
      && Unlisted(dirs, c, e.offset)
    requires dirs' == AddEntry(dirs, d, e) && pages' == pages + [data]
    ensures pid == |pages| && Sound(lay, c, file, size, dirs', pages', dirty)
  {
    NextPageId(dirs, c, d, pid, |pages|);
    AddExtends(dirs, c, d, e, pid, dirs');
    AddPagePlaced(dirs, c, d, e, pid, file, dirs');
    AddPageKeeps(lay, dirs, c, e, pid, file, pages, data, dirs', pages', dirty);
  }

  ghost predicate FullBefore(dirs: seq<Directory>, c: nat, d: nat)
    requires d <= |dirs|
  {
    forall b :: 0 <= b < d ==> |dirs[b].entries| == c
  }

  /** The first free place in the directories belongs to the first page id that is not taken. */
  lemma NextPageId(dirs: seq<Directory>, c: nat, d: nat, pid: PageId, n: nat)
    requires c > 0 && d < |dirs| && FullBefore(dirs, c, d) && |dirs[d].entries| < c
    requires pid == d * c + |dirs[d].entries| && forall p: PageId :: p < n <==> HasPage(dirs, c, p)
    ensures pid == n
  {
    DivMod(pid, d, c, |dirs[d].entries|);
    assert !HasPage(dirs, c, pid);
    if n < pid { ListedBelow(dirs, c, d, pid, n); }
  }

  lemma ListedBelow(dirs: seq<Directory>, c: nat, d: nat, pid: PageId, p: PageId)
    requires c > 0 && d < |dirs| && FullBefore(dirs, c, d) && |dirs[d].entries| < c
    requires pid == d * c + |dirs[d].entries| && p < pid
    ensures HasPage(dirs, c, p)
  {
    DivMod(pid, d, c, |dirs[d].entries|);
    EarlierPage(p, pid, c);
  }

  lemma EarlierPage(p: nat, pid: nat, c: nat)
    requires c > 0 && p < pid
    ensures p / c < pid / c || (p / c == pid / c && p % c < pid % c)
  {
    var a, b := p / c, pid / c;
    assert p == a * c + p % c && pid == b * c + pid % c;
    if a > b { Monotone(b + 1, a, c); }
  }

  /** The page id of the next free place in directory d, and the directories with the entry in it. */
  method PlaceEntry(lay: Layout, c: nat, ghost file: map<nat, Block>, ghost size: nat, dirs: seq<Directory>,
                    ghost pages: Contents, ghost dirty: int, d: nat, e: Entry, ghost data: seq<Byte>)
    returns (pid: PageId, after: seq<Directory>)
    requires Sound(lay, c, file, size, dirs, pages, dirty) && c > 0 && d < |dirs| && |dirs[d].entries| < c
    requires Fresh(lay, file, dirs, c, e, data) && FullBefore(dirs, c, d)
    ensures pid == |pages| && |after| == |dirs| && Sound(lay, c, file, size, after, pages + [data], dirty)
  {
    pid, after := d * c + |dirs[d].entries|, AddEntry(dirs, d, e);
    AddSound(lay, c, file, size, dirs, pages, dirty, d, e, data, pid, after, pages + [data]);
  }

  lemma AppendSound(lay: Layout, c: nat, file: map<nat, Block>, size: nat, dirs: seq<Directory>, pages: Contents,
                    dirty: int, b: Block, file': map<nat, Block>, size': nat)
    requires Sound(lay, c, file, size, dirs, pages, dirty) && file' == file[size := b] && size' == size + lay.pageSize
    requires c > 0
    ensures Sound(lay, c, file', size', dirs, pages, dirty) && size !in file && size > 0 && Unlisted(dirs, c, size)
    ensures forall d :: 0 <= d < |dirs| ==> dirs[d].offset != size
  {
    AppendBlock(dirs, c, file, size, lay.pageSize, b, file', size');
    AppendKeepsPages(dirs, c, file, size, b, file', pages, dirty);
    assert dirs[0].offset in file;
  }

  lemma LinkSound(lay: Layout, c: nat, file: map<nat, Block>, size: nat, dirs: seq<Directory>, pages: Contents,
                  dirty: int, offset: nat, dirs': seq<Directory>, other: nat)
    requires Sound(lay, c, file, size, dirs, pages, dirty) && offset > 0 && dirs' == LinkDirectory(dirs, offset)
    requires c > 0 && offset in file && file[offset].DirBlock?
    requires forall d :: 0 <= d < |dirs| ==> dirs[d].offset != offset
    ensures Sound(lay, c, file, size, dirs', pages, dirty) && (Unlisted(dirs, c, other) ==> Unlisted(dirs', c, other))
  {
    LinkPlaced(dirs, c, file, offset, dirs');
    LinkKeeps(lay, dirs, c, file, offset, dirs', pages, dirty);
    forall p | HasPage(dirs', c, p) ensures HasPage(dirs, c, p) && EntryOf(dirs', c, p) == EntryOf(dirs, c, p) {
      LinkedPages(dirs, c, offset, p);
    }
  }

  /** A page written at e.offset that no entry names yet. */
  ghost predicate Fresh(lay: Layout, file: map<nat, Block>, dirs: seq<Directory>, c: nat, e: Entry, data: seq<Byte>)
    requires c > 0
  {
    e.offset in file && file[e.offset] == PageBlock(data) && CountOk(lay, e, data) && Unlisted(dirs, c, e.offset)
  }

  lemma DirectorySound(lay: Layout, c: nat, file: map<nat, Block>, size: nat, dirs: seq<Directory>, pages: Contents,
                       dirty: int, e: Entry, data: seq<Byte>, file': map<nat, Block>, size': nat, dirs': seq<Directory>)
    requires Sound(lay, c, file, size, dirs, pages, dirty)&& c > 0 && Fresh(lay, file, dirs, c, e, data)
    requires file' == file[size := DirBlock(0, [])] && size' == size + lay.pageSize && dirs != []
      && dirs' == LinkDirectory(dirs, size)
    ensures Sound(lay, c, file', size', dirs', pages, dirty) && Fresh(lay, file', dirs', c, e, data)
  {
    AppendSound(lay, c, file, size, dirs, pages, dirty, DirBlock(0, []), file', size');
    LinkSound(lay, c, file', size', dirs, pages, dirty, size, dirs', e.offset);
  }

  /** close_heapfile writes one directory page. */
  lemma RewriteDirectory(lay: Layout, c: nat, file: map<nat, Block>, size: nat, dirs: seq<Directory>, pages: Contents,
                         d: nat, at: nat, file': map<nat, Block>)
    requires Sound(lay, c, file, size, dirs, pages, -1) && d < |dirs| && at == dirs[d].offset
      && file' == file[at := dirs[d].Bytes()]
    ensures Sound(lay, c, file', size, dirs, pages, -1) && at + lay.pageSize <= size
    ensures forall e :: 0 <= e < |dirs| && e != d ==>
      dirs[e].offset in file && dirs[e].offset != at && file'[dirs[e].offset] == file[dirs[e].offset]
  {
    RewriteApart(file, size, lay.pageSize, at, dirs[d].Bytes());
    DirectoryStaysPlaced(dirs, c, file, d, at, file');
  }

  lemma DirectoryStaysPlaced(dirs: seq<Directory>, c: nat, file: map<nat, Block>, d: nat, at: nat,
                             file': map<nat, Block>)
    requires c > 0 && Placed(dirs, c, file) && d < |dirs| && at == dirs[d].offset
      && file' == file[at := dirs[d].Bytes()]
    ensures Placed(dirs, c, file')
  {}

  lemma ListedAt(dirs: seq<Directory>, c: nat, d: nat, s: nat, pid: PageId)
    requires c > 0 && d < |dirs| && s < |dirs[d].entries| <= c && pid == d * c + s
    ensures HasPage(dirs, c, pid) && EntryOf(dirs, c, pid) == dirs[d].entries[s]
  {
    DivMod(pid, d, c, s);
  }

  ghost predicate NoRoomBelow(dirs: seq<Directory>, c: nat, n: nat)
    requires c > 0
  {
    forall p: PageId :: p < n && HasPage(dirs, c, p) ==> EntryOf(dirs, c, p).freeSpace <= 0
  }

  ghost predicate EntriesFull(dir: Directory, n: nat)
    requires n <= |dir.entries|
  {
    forall t :: 0 <= t < n ==> dir.entries[t].freeSpace <= 0
  }

  ghost predicate DirsFull(dirs: seq<Directory>, d: nat)
    requires d <= |dirs|
  {
    forall b :: 0 <= b < d ==> EntriesFull(dirs[b], |dirs[b].entries|)
  }

  lemma NoRoomIn(dirs: seq<Directory>, c: nat, d: nat, s: nat, n: nat)
    requires c > 0 && d < |dirs| && s < |dirs[d].entries| <= c && n == d * c + s
    requires DirsFull(dirs, d) && EntriesFull(dirs[d], s)
    ensures NoRoomBelow(dirs, c, n)
  {
    DivMod(n, d, c, s);
    forall p: PageId | p < n && HasPage(dirs, c, p) ensures EntryOf(dirs, c, p).freeSpace <= 0 {
      EarlierPage(p, n, c);
      assert p / c < d ==> EntriesFull(dirs[p / c], |dirs[p / c].entries|);
    }
  }

  /** vacant_page_id: the first page with a free slot, or -1 when every page is full. */
  method VacantPageId(dirs: seq<Directory>, c: nat) returns (pid: int)
    requires c > 0 && forall d :: 0 <= d < |dirs| ==> |dirs[d].entries| <= c
    ensures pid == -1 || (pid >= 0 && HasPage(dirs, c, pid) && EntryOf(dirs, c, pid).freeSpace > 0)
    ensures pid >= 0 ==> NoRoomBelow(dirs, c, pid)
    ensures pid == -1 ==> forall p :: HasPage(dirs, c, p) ==> EntryOf(dirs, c, p).freeSpace <= 0
  {
    for d := 0 to |dirs|
      invariant DirsFull(dirs, d)
    {
      var s := FindFreePage(dirs[d]);
      if s != -1 {
        pid := d * c + s;
        ListedAt(dirs, c, d, s, pid);
        NoRoomIn(dirs, c, d, s, pid);
        return;
      }
    }
    pid := -1;
    forall p: PageId | HasPage(dirs, c, p) ensures EntryOf(dirs, c, p).freeSpace <= 0 {
      assert EntriesFull(dirs[p / c], |dirs[p / c].entries|);
    }
  }

  /** find_free_page: the first entry with free space, or -1. */
  method FindFreePage(dir: Directory) returns (s: int)
    ensures -1 <= s < |dir.entries| && (s >= 0 ==> dir.entries[s].freeSpace > 0)
    ensures EntriesFull(dir, if s == -1 then |dir.entries| else s)
  {
    for i := 0 to |dir.entries|
      invariant forall j :: 0 <= j < i ==> dir.entries[j].freeSpace <= 0
    {
      if dir.entries[i].freeSpace > 0 {
        return i;
      }
    }
    return -1;
  }

  /** The first directory that is not full, or their number. */
  method FirstWithRoom(dirs: seq<Directory>, c: nat) returns (d: nat)
    requires forall b :: 0 <= b < |dirs| ==> |dirs[b].entries| <= c
    ensures d <= |dirs| && FullBefore(dirs, c, d) && (d < |dirs| ==> |dirs[d].entries| < c)
  {
    d := 0;
    while d < |dirs| && |dirs[d].entries| == c
      invariant d <= |dirs| && FullBefore(dirs, c, d)
    {
      d := d + 1;
    }
  }

  /** open_heapfile's loop: read directories along the chain until its end. */
  method ReadDirectories(lay: Layout, c: nat, file: map<nat, Block>, ghost size: nat, ghost was: seq<Directory>,
                         ghost pages: Contents)
    returns (buffer: seq<Directory>)
    requires Stored(lay, c, file, size, was, pages)
    ensures buffer == was
  {
    buffer := [];
    var offset, more := 0, true;
    while more
      invariant |buffer| <= |was| && buffer == was[..|buffer|] && more == (|buffer| < |was|)
      invariant more ==> offset == was[|buffer|].offset
      decreases |was| - |buffer|
    {
      ghost var n := |buffer|;
      ChainStep(was, c, file, n);
      var block := file[offset];
      buffer := buffer + [Directory(block.next, block.entries, offset)];
      offset := block.next;
      more := offset != 0;
    }
  }

  lemma ChainStep(dirs: seq<Directory>, c: nat, file: map<nat, Block>, n: nat)
    requires c > 0 && Placed(dirs, c, file) && n < |dirs| && dirs[n].offset in file
      && file[dirs[n].offset] == dirs[n].Bytes()
    ensures if n + 1 < |dirs| then dirs[n].next == dirs[n + 1].offset != 0 else dirs[n].next == 0
  {}

  class Heapfile {
    const lay: Layout
    /** Entries per directory page. */
    const c: nat
    /** The file: a block at each offset ever written, and its length. */
    var file: map<nat, Block>
    var size: nat
    var dirs: seq<Directory>
    var cachedPage: Page?
    var cachedPid: int
    var dirty: bool
    ghost var pages: Contents

    /** The page that only the cache has right, or -1. */
    ghost function Stale(): int
      reads this
    {
      if dirty then cachedPid else -1
    }

    /** Everything but the contents of the cached page. */
    ghost predicate Base()
      reads this, cachedPage
    {
      && Sound(lay, c, file, size, dirs, pages, Stale())
      && (if cachedPid == -1 then !dirty
          else 0 <= cachedPid < |pages| && cachedPage != null && cachedPage.lay == lay && IsPage(lay, cachedPage.data))
    }

    ghost predicate Valid()
      reads this, cachedPage
    {
      Base() && (cachedPid != -1 ==> cachedPage.data == pages[cachedPid])
    }

    /** The record in every slot of every page, and which slots are in use. */
    ghost function Abs(): Sheet
      reads this
    {
      SheetOf(lay, pages)
    }

    /** init_heapfile and create_heapfile: a file with one empty directory page. */
    constructor Create(lay: Layout)
      requires lay.Ok() && lay.pageSize > 1001
      ensures Valid() && this.lay == lay && c == DirCapacity(lay.pageSize) && cachedPage == null && pages == []
    {
      this.lay, c := lay, DirCapacity(lay.pageSize);
      file, size := map[0 := DirBlock(0, [])], lay.pageSize;
      dirs := [Directory(0, [], 0)];
      cachedPage, cachedPid, dirty := null, -1, false;
      pages := [];
      NewFile(lay);
    }

    /** open_heapfile: the directories, and an empty cache. */
    constructor Open(lay: Layout, file: map<nat, Block>, size: nat, ghost was: seq<Directory>, ghost pages: Contents)
      requires Stored(lay, DirCapacity(lay.pageSize), file, size, was, pages)
      ensures Valid() && this.lay == lay && c == DirCapacity(lay.pageSize) && cachedPage == null && this.pages == pages
    {
      this.lay, this.c, this.file, this.size := lay, DirCapacity(lay.pageSize), file, size;
      cachedPage, cachedPid, dirty := null, -1, false;
      this.pages := pages;
      var buffer := ReadDirectories(lay, DirCapacity(lay.pageSize), file, size, was, pages);
      dirs := buffer;
    }

    /** write_block. */
    method WriteBlock(offset: nat, block: Block)
      modifies this`file, this`size
      ensures file == old(file)[offset := block]
      ensures size == if old(size) < offset + lay.pageSize then offset + lay.pageSize else old(size)
    {
      file := file[offset := block];
      if size < offset + lay.pageSize {
        size := offset + lay.pageSize;
      }
    }

    /** Write the cached page back if it is dirty. */
    method FlushCache()
      requires Valid()
      modifies this`file, this`size, this`dirty
      ensures Valid() && !dirty
    {
      if dirty {
        SoundPage(lay, c, file, size, dirs, pages, cachedPid, cachedPid);
        var at := EntryOf(dirs, c, cachedPid).offset;
        FlushSound(lay, c, file, size, dirs, pages, cachedPid, at);
        WriteBlock(at, PageBlock(cachedPage.data));
        dirty := false;
      }
    }

    /** get_page: through the cache. */
    method GetPage(pid: PageId)
      requires Valid() && pid < |pages|
      modifies this`file, this`size, this`cachedPage, this`cachedPid, this`dirty
      ensures Valid() && cachedPid == pid && cachedPage != null && (cachedPage == old(cachedPage) || fresh(cachedPage))
    {
      if cachedPid == pid {
        return;
      }
      FlushCache();
      var page := LoadPage(pid);
      Replace(page, pid);
    }

    /** The cache, written back already, takes another page. */
    method Replace(page: Page, pid: PageId)
      requires Sound(lay, c, file, size, dirs, pages, -1) && pid < |pages| && page.lay == lay
        && page.data == pages[pid] && IsPage(lay, page.data)
      modifies this`cachedPage, this`cachedPid, this`dirty
      ensures Valid() && cachedPid == pid && cachedPage == page && !dirty
    {
      cachedPage, cachedPid, dirty := page, pid, false;
      assert Sound(lay, c, file, size, dirs, pages, Stale());
    }

    /** Read a page that is up to date in the file. */
    method LoadPage(pid: PageId) returns (page: Page)
      requires Sound(lay, c, file, size, dirs, pages, -1) && pid < |pages|
      ensures fresh(page) && page.lay == lay && page.data == pages[pid] && IsPage(lay, page.data)
    {
      SoundPage(lay, c, file, size, dirs, pages, -1, pid);
      var at := EntryOf(dirs, c, pid).offset;
      page := new Page(lay);
      page.data := file[at].data;
    }

    /** commit_page. */
    method CommitPage(pid: PageId)
      requires Base() && cachedPid == pid
      modifies this`dirs, this`dirty, this`pages
      ensures Valid() && pages == old(pages)[pid := cachedPage.data] && dirty
    {
      SoundPage(lay, c, file, size, dirs, pages, Stale(), pid);
      var free := cachedPage.FreeSlots();
      var after := SetFree(dirs, c, pid, free);
      CommitSound(lay, c, file, size, dirs, pages, Stale(), pid, cachedPage.data, free, after,
          pages[pid := cachedPage.data]);
      dirs, dirty := after, true;
      pages := pages[pid := cachedPage.data];
    }

    /** Put the entry into directory d, which has room. */
    method FillEntry(d: nat, e: Entry, ghost data: seq<Byte>) returns (pid: PageId)
      requires Valid() && c > 0 && d < |dirs| && |dirs[d].entries| < c && Fresh(lay, file, dirs, c, e, data)
      requires FullBefore(dirs, c, d)
      modifies this`dirs, this`pages
      ensures Valid() && pid == |old(pages)| && pages == old(pages) + [data] && |dirs| == |old(dirs)|
    {
      var after;
      pid, after := PlaceEntry(lay, c, file, size, dirs, pages, Stale(), d, e, data);
      ghost var contents := pages + [data];
      pages := contents;
      dirs := after;
    }

    /** append_entry: into the first directory with room, or into a new one at the end of the file. */
    method AppendEntry(e: Entry, ghost data: seq<Byte>) returns (pid: PageId)
      requires Valid() && c > 0 && Fresh(lay, file, dirs, c, e, data)
      modifies this`file, this`size, this`dirs, this`pages
      ensures Valid() && pid == |old(pages)| && pages == old(pages) + [data]
      ensures |dirs| == |old(dirs)| + if FullBefore(old(dirs), c, |old(dirs)|) then 1 else 0
    {
      var d := FirstWithRoom(dirs, c);
      if d == |dirs| {
        NewDirectory(e, data);
      }
      pid := FillEntry(d, e, data);
    }

    method NewDirectory(ghost e: Entry, ghost data: seq<Byte>)
      requires Valid() && c > 0 && Fresh(lay, file, dirs, c, e, data) && FullBefore(dirs, c, |dirs|)
      modifies this`file, this`size, this`dirs
      ensures Valid() && Fresh(lay, file, dirs, c, e, data) && |dirs| == |old(dirs)| + 1
      ensures FullBefore(dirs, c, |old(dirs)|) && dirs[|old(dirs)|].entries == []
    {
      var offset, after := size, LinkDirectory(dirs, size);
      DirectorySound(lay, c, file, size, dirs, pages, Stale(), e, data,
                     file[size := DirBlock(0, [])], size + lay.pageSize, after);
      ghost var end := size + lay.pageSize;
      WriteBlock(offset, DirBlock(0, []));
      assert size == end;
      dirs := after;
    }

    /** alloc_page: a new empty page at the end of the file, which becomes the cached one. */
    method AllocPage() returns (pid: PageId)
      requires Valid()
      modifies this
      ensures Valid() && cachedPid == pid == |old(pages)| && fresh(cachedPage)
      ensures pages == old(pages) + [seq(lay.pageSize, _ => 0)]
    {
      var page := new Page(lay);
      var e := WriteNewPage(page);
      pid := AppendEntry(e, page.data);
      FlushCache();
      Replace(page, pid);
    }

    method WriteNewPage(page: Page) returns (e: Entry)
      requires Valid() && page.lay == lay && page.Valid()
      modifies this`file, this`size
      ensures Valid() && c > 0 && Fresh(lay, file, dirs, c, e, page.data)
    {
      var free := page.FreeSlots();
      e := Entry(size, free);
      ghost var end := size + lay.pageSize;
      AppendSound(lay, c, file, size, dirs, pages, Stale(), PageBlock(page.data), file[size := PageBlock(page.data)],
          end);
      WriteBlock(e.offset, PageBlock(page.data));
      assert size == end;
    }

    /** get_free_pid: the first page with room, which is a new one if all are full. */
    method GetFreePid() returns (pid: PageId)
      requires Valid()
      modifies this
      ensures Valid() && pid < |pages| && IsPage(lay, pages[pid]) && Free(lay, pages[pid]) > 0
      ensures pid == FreePage(old(Abs())) && Abs() == Roomy(lay, old(Abs()))
      ensures cachedPage == old(cachedPage) || fresh(cachedPage)
    {
      var vacant := VacantPageId(dirs, c);
      if vacant != -1 {
        SoundPage(lay, c, file, size, dirs, pages, Stale(), vacant);
        VacantIsFreePage(lay, dirs, c, pages, vacant);
        return vacant;
      }
      ghost var before := pages;
      VacantIsFreePage(lay, dirs, c, pages, |pages|);
      pid := AllocPage();
      NewPageAdds(lay, before, pages[pid]);
      NewPageUnused(lay, pages[pid], lay.Capacity());
      LayoutFits(lay);
    }

    /** put_record: into the first free slot of the first page with one. */
    method PutRecord(r: Record)
      requires Valid() && |r| <= lay.Width()
      modifies this, cachedPage
      ensures Valid() && (cachedPage == old(cachedPage) || fresh(cachedPage))
      ensures IsSheet(lay, old(Abs())) && Abs() == After(lay, old(Abs()), Put(r))
    {
      ghost var before := Abs();
      SoundIsSheet(lay, dirs, c, pages);
      SpotIsFree(lay, before);
      var pid := GetFreePid();
      GetPage(pid);
      AddToCached(pid, r);
    }

    method AddToCached(pid: PageId, r: Record)
      requires Valid() && cachedPid == pid && |r| <= lay.Width() && IsPage(lay, pages[pid]) && Free(lay, pages[pid]) > 0
      modifies this`dirs, this`dirty, this`pages, cachedPage
      ensures Valid() && Written(old(Abs()), RecordId(pid, FreeSlot(old(Abs())[pid].used)), r, Abs())
    {
      var slot := cachedPage.Add(r);
      FirstFreeIsSlot(lay, pages[pid], slot);
      WriteSets(lay, pages, pid, slot, r, cachedPage.data);
      CommitPage(pid);
    }

    /** close_heapfile: the dirty page, then every directory page. */
    method Close()
      requires Valid()
      modifies this`file, this`size, this`dirty
      ensures Stored(lay, c, file, size, dirs, pages)
    {
      FlushCache();
      for d := 0 to |dirs|
        invariant Sound(lay, c, file, size, dirs, pages, -1)
        invariant forall e :: 0 <= e < d ==> dirs[e].offset in file && file[dirs[e].offset] == dirs[e].Bytes()
      {
        RewriteDirectory(lay, c, file, size, dirs, pages, d, dirs[d].offset, file[dirs[d].offset := dirs[d].Bytes()]);
        WriteBlock(dirs[d].offset, dirs[d].Bytes());
      }
    }

    /** get_record: the slot's bytes, whether or not it is in use. */
    method GetRecord(rid: RecordId) returns (r: Record)
      requires Valid() && rid.page < |pages| && rid.slot < lay.Capacity()
      modifies this`file, this`size, this`cachedPage, this`cachedPid, this`dirty
      ensures Valid() && (cachedPage == old(cachedPage) || fresh(cachedPage)) && InSheet(Abs(), rid)
      ensures r == Cell(Abs(), rid)
    {
      GetPage(rid.page);
      r := RecordAt(lay, cachedPage.data, rid.slot);
    }

    /** update_record. */
    method UpdateRecord(rid: RecordId, r: Record)
      requires Valid() && rid.page < |pages| && rid.slot < lay.Capacity() && |r| <= lay.Width()
      modifies this, cachedPage
      ensures Valid() && (cachedPage == old(cachedPage) || fresh(cachedPage))
      ensures Written(old(Abs()), rid, r, Abs())
    {
      GetPage(rid.page);
      WriteSets(lay, pages, rid.page, rid.slot, r, WriteSlot(lay, pages[rid.page], rid.slot, r));
      cachedPage.Write(rid.slot, r);
      CommitPage(rid.page);
    }

    /** delete_record. */
    method DeleteRecord(rid: RecordId)
      requires Valid() && rid.page < |pages| && rid.slot < lay.Capacity()
      modifies this, cachedPage
      ensures Valid() && (cachedPage == old(cachedPage) || fresh(cachedPage)) && InSheet(old(Abs()), rid)
      ensures Abs() == Unset(old(Abs()), rid)
    {
      GetPage(rid.page);
      ClearUnsets(lay, pages, rid.page, rid.slot, ClearSlot(lay, pages[rid.page], rid.slot));
      cachedPage.Delete(rid.slot);
      CommitPage(rid.page);
    }
  }

  // ---------- Every run ----------

  /** A record id that names a slot; a page id outside the directories stops the original program. */
  method InBounds(h: Heapfile, rid: RecordId) returns (b: bool)
    requires h.Valid()
    ensures b == InSheet(h.Abs(), rid) == (rid.page < |h.pages| && rid.slot < h.lay.Capacity())
  {
    SoundIsSheet(h.lay, h.dirs, h.c, h.pages);
    b := HasPage(h.dirs, h.c, rid.page) && rid.slot < h.lay.Capacity();
  }

  /** One command has exactly the effect and the answer it has on the sheet. */
  method DoCommand(h: Heapfile, cmd: Command) returns (h': Heapfile, a: Answer)
    requires h.Valid() && h.c == DirCapacity(h.lay.pageSize) && Fits(h.lay, cmd)
    modifies h, h.cachedPage
    ensures h'.Valid() && h'.lay == h.lay && h'.c == h.c && (h' == h || fresh(h'))
    ensures h'.cachedPage == null || h'.cachedPage == old(h.cachedPage) || fresh(h'.cachedPage)
    ensures IsSheet(h.lay, old(h.Abs())) && h'.Abs() == After(h.lay, old(h.Abs()), cmd)
    ensures a == AnswerTo(old(h.Abs()), cmd)
  {
    SoundIsSheet(h.lay, h.dirs, h.c, h.pages);
    h', a := h, Nothing;
    if cmd.Put? {
      h.PutRecord(cmd.r);
    } else if cmd.Reopen? {
      h' := CloseAndOpen(h);
    } else if cmd.Get? {
      a := DoGet(h, cmd.rid);
    } else if cmd.Update? {
      DoUpdate(h, cmd.rid, cmd.r);
    } else {
      DoDelete(h, cmd.rid);
    }
  }

  method DoGet(h: Heapfile, rid: RecordId) returns (a: Answer)
    requires h.Valid()
    modifies h`file, h`size, h`cachedPage, h`cachedPid, h`dirty
    ensures h.Valid() && (h.cachedPage == old(h.cachedPage) || fresh(h.cachedPage))
    ensures a == AnswerTo(h.Abs(), Get(rid))
  {
    a := Nothing;
    var ok := InBounds(h, rid);
    if ok {
      var r := h.GetRecord(rid);
      a := Found(r);
    }
  }

  method DoUpdate(h: Heapfile, rid: RecordId, r: Record)
    requires h.Valid() && |r| <= h.lay.Width() && IsSheet(h.lay, h.Abs())
    modifies h, h.cachedPage
    ensures h.Valid() && (h.cachedPage == old(h.cachedPage) || fresh(h.cachedPage))
    ensures h.Abs() == After(h.lay, old(h.Abs()), Update(rid, r))
  {
    var ok := InBounds(h, rid);
    if ok { h.UpdateRecord(rid, r); }
  }

  method DoDelete(h: Heapfile, rid: RecordId)
    requires h.Valid() && IsSheet(h.lay, h.Abs())
    modifies h, h.cachedPage
    ensures h.Valid() && (h.cachedPage == old(h.cachedPage) || fresh(h.cachedPage))
    ensures h.Abs() == After(h.lay, old(h.Abs()), Delete(rid))
  {
    var ok := InBounds(h, rid);
    if ok { h.DeleteRecord(rid); }
  }

  method CloseAndOpen(h: Heapfile) returns (h': Heapfile)
    requires h.Valid() && h.c == DirCapacity(h.lay.pageSize)
    modifies h`file, h`size, h`dirty
    ensures fresh(h') && h'.Valid() && h'.lay == h.lay && h'.c == h.c && h'.cachedPage == null
      && h'.Abs() == old(h.Abs())
  {
    h.Close();
    h' := new Heapfile.Open(h.lay, h.file, h.size, h.dirs, h.pages);
  }

  /** The answers of the sheet to the first n commands. */
  ghost function Answers(lay: Layout, cmds: seq<Command>, n: nat): (answers: seq<Answer>)
    requires lay.Ok() && n <= |cmds| && AllFit(lay, cmds)
  {
    if n == 0 then [] else Answers(lay, cmds, n - 1) + [AnswerTo(Run(lay, cmds, n - 1), cmds[n - 1])]
  }

  lemma {:induction false} RunNext(lay: Layout, cmds: seq<Command>, i: nat, n: nat)
    requires lay.Ok() && n == i + 1 <= |cmds| && AllFit(lay, cmds)
    ensures Run(lay, cmds, n) == After(lay, Run(lay, cmds, i), cmds[i])
    ensures Answers(lay, cmds, n) == Answers(lay, cmds, i) + [AnswerTo(Run(lay, cmds, i), cmds[i])]
  {}

  /** Any run of puts, gets, updates and deletes, with closing and reopening anywhere, gives exactly the
      answers of the sheet the commands make. */
  method Execute(lay: Layout, cmds: seq<Command>) returns (answers: seq<Answer>)
    requires lay.Ok() && lay.pageSize > 1001 && AllFit(lay, cmds)
    ensures answers == Answers(lay, cmds, |cmds|)
  {
    var h := new Heapfile.Create(lay);
    answers := [];
    for i := 0 to |cmds|
      invariant h.Valid() && h.lay == lay && h.c == DirCapacity(lay.pageSize) && fresh(h)
      invariant h.cachedPage == null || fresh(h.cachedPage)
      invariant h.Abs() == Run(lay, cmds, i) && answers == Answers(lay, cmds, i)
    {
      var a;
      h, a := DoCommand(h, cmds[i]);
      RunNext(lay, cmds, i, i + 1);
      answers := answers + [a];
    }
  }
}
