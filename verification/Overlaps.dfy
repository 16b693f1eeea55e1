/** Which files of a level meet a key range, and which files a compaction therefore takes in. */
module Overlaps {
  import opened DbFormat
  import opened Versions

  const TARGET_FILE_SIZE: nat := 2 * 1048576
  const MAX_GRANDPARENT_OVERLAP_BYTES: nat := 10 * TARGET_FILE_SIZE
  const EXPANDED_COMPACTION_BYTE_SIZE_LIMIT: nat := 25 * TARGET_FILE_SIZE

  function Start(f: File): UserKey { f.Smallest().user }
  function Limit(f: File): UserKey { f.Largest().user }

  /** A missing bound (NULL) is beyond all keys on its side. */
  predicate AfterFile(k: Option<UserKey>, f: File) { k.Some? && k.value > Limit(f) }
  predicate BeforeFile(k: Option<UserKey>, f: File) { k.Some? && k.value < Start(f) }

  /** The user key range of `f` meets [lo, hi]. */
  predicate Touches(f: File, lo: Option<UserKey>, hi: Option<UserKey>) {
    !AfterFile(lo, f) && !BeforeFile(hi, f)
  }

  predicate Meet(f: File, g: File) { Start(f) <= Limit(g) && Start(g) <= Limit(f) }

  function TotalFileSize(files: seq<File>): nat {
    if files == [] then 0 else files[0].size + TotalFileSize(files[1..])
  }

  lemma {:induction false} SizeWithOneMore(files: seq<File>, f: File)
    ensures TotalFileSize(files + [f]) == TotalFileSize(files) + f.size
  {
    if files == [] {
      assert [f][1..] == [];
    } else {
      assert (files + [f])[0] == files[0] && (files + [f])[1..] == files[1..] + [f];
      SizeWithOneMore(files[1..], f);
    }
  }

  /** The files that meet the range, in the order of the level. */
  ghost predicate IsRange(files: seq<File>, lo: Option<UserKey>, hi: Option<UserKey>, all: seq<File>) {
    SortedFiles(all) && forall f :: f in all <==> f in files && Touches(f, lo, hi)
  }

  lemma UserRange(f: File, e: Entry)
    requires e in f.entries
    ensures Start(f) <= e.user <= Limit(f)
  {
    var i :| 0 <= i < |f.entries| && f.entries[i] == e;
    SortedEnds(f, i);
  }

  lemma StartBeforeLimit(f: File)
    ensures Start(f) <= Limit(f)
  {
    UserRange(f, f.First());
  }

  // ---------- SomeFileOverlapsRange and the level a memtable is written to ----------

  /** Version::OverlapInLevel: linear at level 0, one binary search elsewhere. */
  method OverlapInLevel(files: seq<File>, disjoint: bool, lo: Option<UserKey>, hi: Option<UserKey>)
    returns (b: bool)
    requires disjoint ==> SortedFiles(files) && DisjointFiles(files)
    ensures b <==> exists f :: f in files && Touches(f, lo, hi)
  {
    if !disjoint {
      for i := 0 to |files|
        invariant forall j :: 0 <= j < i ==> !Touches(files[j], lo, hi)
      {
        if AfterFile(lo, files[i]) || BeforeFile(hi, files[i]) {
        } else {
          assert Touches(files[i], lo, hi);
          return true;
        }
      }
      return false;
    }
    var index := 0;
    if lo.Some? {
      index := FindFile(files, InternalKey(lo.value, MAX_SEQUENCE, Put));
    }
    if index >= |files| {
      return false;
    }
    forall j | index < j < |files| ensures Start(files[index]) <= Start(files[j]) {
      ListOrderIsFileOrder(files, index, j);
      StartBeforeLimit(files[index]);
    }
    b := !BeforeFile(hi, files[index]);
    assert b ==> Touches(files[index], lo, hi);
  }

  ghost predicate ClearThrough(v: Version, level: nat, lo: UserKey, hi: UserKey)
    requires level < |v.levels|
  {
    forall l, f :: 0 <= l <= level && f in v.levels[l] ==> !Touches(f, Some(lo), Some(hi))
  }

  /** The files of a level that meet the range hold more bytes than a compaction should drag in. */
  ghost predicate TooMuchBelow(files: seq<File>, lo: UserKey, hi: UserKey) {
    exists all :: IsRange(files, Some(lo), Some(hi), all) && TotalFileSize(all) > MAX_GRANDPARENT_OVERLAP_BYTES
  }

  ghost predicate LittleBelow(v: Version, level: nat, lo: UserKey, hi: UserKey)
    requires level + 2 < |v.levels|
  {
    exists all ::
      IsRange(v.levels[level + 2], Some(lo), Some(hi), all) && TotalFileSize(all) <= MAX_GRANDPARENT_OVERLAP_BYTES
  }

  /** Two levels below every level that the table passed. */
  ghost predicate LittleThrough(v: Version, level: nat, lo: UserKey, hi: UserKey)
    requires level + 1 < |v.levels|
  {
    forall l: nat :: l < level ==> LittleBelow(v, l, lo, hi)
  }

  /** Why the new table goes no deeper: a file meets it here or one level down, or too much lies two down. */
  ghost predicate StopsAt(v: Version, level: nat, lo: UserKey, hi: UserKey)
    requires |v.levels| == NUM_LEVELS && level + 2 < NUM_LEVELS
  {
    || (level == 0 && exists f :: f in v.levels[0] && Touches(f, Some(lo), Some(hi)))
    || (exists f :: f in v.levels[level + 1] && Touches(f, Some(lo), Some(hi)))
    || TooMuchBelow(v.levels[level + 2], lo, hi)
  }

  ghost predicate ClearAt(files: seq<File>, lo: UserKey, hi: UserKey) {
    forall f :: f in files ==> !Touches(f, Some(lo), Some(hi))
  }

  /** One step of PickLevelForMemTableOutput: nothing meets the range one level down, and not too much does two down. */
  method GoesDeeper(v: Version, level: nat, lo: UserKey, hi: UserKey) returns (b: bool)
    requires Searchable(v) && level < MAX_MEM_COMPACT_LEVEL
    ensures b ==> ClearAt(v.levels[level + 1], lo, hi) && LittleBelow(v, level, lo, hi)
    ensures !b ==> StopsAt(v, level, lo, hi)
  {
    var overlap := OverlapInLevel(v.levels[level + 1], true, Some(lo), Some(hi));
    if overlap {
      return false;
    }
    if level + 2 < NUM_LEVELS {
      var overlaps := GetOverlappingInputs(v.levels[level + 2], false, Some(lo), Some(hi));
      assert IsRange(v.levels[level + 2], Some(lo), Some(hi), overlaps);
      if TotalFileSize(overlaps) > MAX_GRANDPARENT_OVERLAP_BYTES {
        return false;
      }
    }
    b := true;
  }

  /** PickLevelForMemTableOutput never jumps over, or lands on, a file meeting the new one, and goes
      as deep as that and the bytes below allow. */
  method PickLevelForMemTableOutput(v: Version, lo: UserKey, hi: UserKey) returns (level: nat)
    requires Searchable(v)
    ensures level <= MAX_MEM_COMPACT_LEVEL
    ensures level > 0 ==> ClearThrough(v, level, lo, hi)
    ensures level < MAX_MEM_COMPACT_LEVEL ==> StopsAt(v, level, lo, hi)
    ensures LittleThrough(v, level, lo, hi)
  {
    level := 0;
    var overlap := OverlapInLevel(v.levels[0], false, Some(lo), Some(hi));
    if !overlap {
      while level < MAX_MEM_COMPACT_LEVEL
        invariant level <= MAX_MEM_COMPACT_LEVEL
        invariant ClearThrough(v, level, lo, hi)
        invariant LittleThrough(v, level, lo, hi)
        decreases MAX_MEM_COMPACT_LEVEL - level
      {
        var deeper := GoesDeeper(v, level, lo, hi);
        if !deeper { break; }
        level := level + 1;
      }
    }
  }

  // ---------- GetOverlappingInputs ----------

  ghost predicate ClosedUnderMeet(files: seq<File>, chosen: set<File>) {
    forall f, g :: f in chosen && g in files && Meet(f, g) ==> g in chosen
  }

  /** A set of files that covers [lo, hi] and leaves out no file meeting one of its own. */
  ghost predicate Covers(files: seq<File>, lo: Option<UserKey>, hi: Option<UserKey>, chosen: set<File>) {
    && (forall f :: f in files && Touches(f, lo, hi) ==> f in chosen)
    && ClosedUnderMeet(files, chosen)
  }

  ghost function Outside(files: seq<File>, lo: Option<UserKey>, hi: Option<UserKey>): nat {
    |StartsBelow(files, lo)| + |LimitsAbove(files, hi)|
  }

  ghost function StartsBelow(files: seq<File>, lo: Option<UserKey>): set<File> {
    set f | f in files && lo.Some? && Start(f) < lo.value
  }

  ghost function LimitsAbove(files: seq<File>, hi: Option<UserKey>): set<File> {
    set f | f in files && hi.Some? && Limit(f) > hi.value
  }

  lemma ProperSubsetSmaller<T>(a: set<T>, b: set<T>, x: T)
    requires a <= b && x in b && x !in a
    ensures |a| < |b|
  {
    assert b == a + (b - a);
    assert x in b - a;
  }

  /** One restart of the level-0 search: the range grows to an endpoint of a file already taken. */
  lemma RestartWidens(files: seq<File>, f: File, lo: Option<UserKey>, hi: Option<UserKey>, lo': Option<UserKey>,
                      hi': Option<UserKey>)
    requires f in files && Touches(f, lo, hi)
    requires (lo.Some? && Start(f) < lo.value && lo' == Some(Start(f)) && hi' == hi)
          || (hi.Some? && Limit(f) > hi.value && lo' == lo && hi' == Some(Limit(f)))
    ensures Outside(files, lo', hi') < Outside(files, lo, hi)
    ensures forall g :: Touches(g, lo, hi) ==> Touches(g, lo', hi')
    ensures forall g :: g in files && Touches(g, lo', hi') && !Touches(g, lo, hi) ==> Meet(f, g)
  {
    if lo' != lo {
      ProperSubsetSmaller(StartsBelow(files, lo'), StartsBelow(files, lo), f);
    } else {
      ProperSubsetSmaller(LimitsAbove(files, hi'), LimitsAbove(files, hi), f);
    }
    forall g | g in files && Touches(g, lo', hi') && !Touches(g, lo, hi) ensures Meet(f, g) {
      StartBeforeLimit(g);
      StartBeforeLimit(f);
    }
  }

  lemma NextInOrder(files: seq<File>, inputs: seq<File>, i: nat)
    requires i < |files| && forall f :: f in inputs ==> f in files[..i]
    ensures SortedFiles(files) && SortedFiles(inputs) ==> SortedFiles(inputs + [files[i]])
  {
    if SortedFiles(files) {
      forall j | 0 <= j < |inputs| ensures BySmallest(inputs[j], files[i]) {
        assert inputs[j] in inputs;
      }
    }
  }

  /** The least set of files that covers the range and is closed under overlap, in the order of the level. */
  ghost predicate LeastCover(files: seq<File>, lo: Option<UserKey>, hi: Option<UserKey>, chosen: seq<File>) {
    && SortedFiles(chosen) && (forall f :: f in chosen ==> f in files) && Covers(files, lo, hi, Elements(chosen))
    && forall c :: Covers(files, lo, hi, c) ==> Elements(chosen) <= c
  }

  /** Nothing taken sticks out of the range reached, so what it holds is closed under overlap. */
  lemma LeastAtEnd(files: seq<File>, begin: Option<UserKey>, end: Option<UserKey>, lo: Option<UserKey>,
                   hi: Option<UserKey>, inputs: seq<File>)
    requires forall f :: f in inputs <==> f in files && Touches(f, lo, hi)
    requires forall g :: Touches(g, begin, end) ==> Touches(g, lo, hi)
    requires forall f :: f in inputs ==> Within(f, lo, hi)
    requires forall c :: Covers(files, begin, end, c) ==> Holds(files, lo, hi, c)
    ensures SortedFiles(inputs) ==> LeastCover(files, begin, end, inputs)
  {
    forall f, g | f in Elements(inputs) && g in files && Meet(f, g) ensures g in Elements(inputs) {
      assert Touches(g, lo, hi);
    }
    assert Covers(files, begin, end, Elements(inputs));
  }

  predicate Within(f: File, lo: Option<UserKey>, hi: Option<UserKey>) {
    (lo.Some? ==> Start(f) >= lo.value) && (hi.Some? ==> Limit(f) <= hi.value)
  }

  ghost predicate Holds(files: seq<File>, lo: Option<UserKey>, hi: Option<UserKey>, chosen: set<File>) {
    forall g :: g in files && Touches(g, lo, hi) ==> g in chosen
  }

  /** GetOverlappingInputs. Away from level 0 it returns the files meeting the range. At level 0
      it restarts with a wider range whenever a file sticks out; the search ends, and it returns
      the least set that covers the range and is closed under overlap. */
  method GetOverlappingInputs(files: seq<File>, levelZero: bool, begin: Option<UserKey>, end: Option<UserKey>)
    returns (inputs: seq<File>)
    ensures forall f :: f in inputs ==> f in files
    ensures SortedFiles(files) ==> SortedFiles(inputs)
    ensures !levelZero ==> forall f :: f in inputs <==> f in files && Touches(f, begin, end)
    ensures levelZero && SortedFiles(files) ==> LeastCover(files, begin, end, inputs)
  {
    inputs := [];
    var userBegin, userEnd := begin, end;
    var i := 0;
    while i < |files|
      invariant i <= |files|
      invariant !levelZero ==> userBegin == begin && userEnd == end
      invariant forall f :: f in inputs ==> f in files[..i] && Touches(f, userBegin, userEnd)
      invariant SortedFiles(files) ==> SortedFiles(inputs)
      invariant forall j :: 0 <= j < i && Touches(files[j], userBegin, userEnd) ==> files[j] in inputs
      invariant forall g :: Touches(g, begin, end) ==> Touches(g, userBegin, userEnd)
      invariant levelZero ==> forall f :: f in inputs ==> Within(f, userBegin, userEnd)
      invariant levelZero ==> forall c :: Covers(files, begin, end, c) ==> Holds(files, userBegin, userEnd, c)
      decreases Outside(files, userBegin, userEnd), |files| - i
    {
      var f := files[i];
      NextInOrder(files, inputs, i);
      i := i + 1;
      if userBegin.Some? && Limit(f) < userBegin.value {
      } else if userEnd.Some? && Start(f) > userEnd.value {
      } else {
        inputs := inputs + [f];
        if levelZero {
          if userBegin.Some? && Start(f) < userBegin.value {
            RestartWidens(files, f, userBegin, userEnd, Some(Start(f)), userEnd);
            userBegin, inputs, i := Some(Start(f)), [], 0;
          } else if userEnd.Some? && Limit(f) > userEnd.value {
            RestartWidens(files, f, userBegin, userEnd, userBegin, Some(Limit(f)));
            userEnd, inputs, i := Some(Limit(f)), [], 0;
          }
        }
      }
    }
    if levelZero { LeastAtEnd(files, begin, end, userBegin, userEnd, inputs); }
  }

  // ---------- Choosing the inputs of a compaction ----------

  /** The smallest and largest internal keys of a non-empty list of files. */
  method GetRange(inputs: seq<File>) returns (smallest: InternalKey, largest: InternalKey)
    requires inputs != []
    ensures exists f :: f in inputs && smallest == f.Smallest()
    ensures exists f :: f in inputs && largest == f.Largest()
    ensures forall f :: f in inputs ==> !Less(f.Smallest(), smallest) && !Less(largest, f.Largest())
  {
    smallest, largest := inputs[0].Smallest(), inputs[0].Largest();
    for i := 1 to |inputs|
      invariant exists f :: f in inputs && smallest == f.Smallest()
      invariant exists f :: f in inputs && largest == f.Largest()
      invariant forall j :: 0 <= j < i ==>
        !Less(inputs[j].Smallest(), smallest) && !Less(largest, inputs[j].Largest())
    {
      if Less(inputs[i].Smallest(), smallest) { smallest := inputs[i].Smallest(); }
      if Less(largest, inputs[i].Largest()) { largest := inputs[i].Largest(); }
    }
  }

  /** `g` meets the user key range spanned by `inputs`. */
  ghost predicate InHull(g: File, inputs: seq<File>) {
    && (exists f :: f in inputs && Start(f) <= Limit(g))
    && (exists f :: f in inputs && Start(g) <= Limit(f))
  }

  /** `chosen` are the files that meet the range of `inputs`. */
  ghost predicate IsHull(files: seq<File>, inputs: seq<File>, chosen: seq<File>) {
    forall g :: g in chosen <==> g in files && InHull(g, inputs)
  }

  lemma OwnHull(f: File, inputs: seq<File>)
    requires f in inputs
    ensures InHull(f, inputs)
  {
    StartBeforeLimit(f);
  }

  // ---------- Inputs without a gap ----------

  /** The user keys from a to b lie outside the range of every file. */
  ghost predicate Misses(files: seq<File>, a: UserKey, b: UserKey) {
    forall f :: f in files ==> Limit(f) < a || b < Start(f)
  }

  ghost predicate AllAfter(files: seq<File>, b: UserKey) { forall f :: f in files ==> b < Start(f) }

  ghost predicate AllBefore(files: seq<File>, a: UserKey) { forall f :: f in files ==> Limit(f) < a }

  /** The ranges together leave no gap: what misses them all lies to one side of them all. */
  ghost predicate Solid(files: seq<File>) {
    forall a, b :: a <= b && Misses(files, a, b) ==> AllAfter(files, b) || AllBefore(files, a)
  }

  lemma SolidSame(files: seq<File>, same: seq<File>)
    requires Solid(files) && forall f :: f in files <==> f in same
    ensures Solid(same)
  {
    forall a, b | a <= b && Misses(same, a, b) ensures AllAfter(same, b) || AllBefore(same, a) {
      assert Misses(files, a, b);
    }
  }

  /** Files that meet the range of a solid list leave no gap to it. */
  lemma SolidGrows(files: seq<File>, more: seq<File>)
    requires Solid(files) && files != [] && forall g :: g in more ==> InHull(g, files)
    ensures Solid(files + more)
  {
    forall a, b | a <= b && Misses(files + more, a, b)
      ensures AllAfter(files + more, b) || AllBefore(files + more, a)
    {
      assert Misses(files, a, b);
    }
  }

  /** A set that has all files meeting the range, and all that meet one of its own. */
  ghost predicate CoversHull(files: seq<File>, inputs: seq<File>, chosen: set<File>) {
    && (forall g :: g in files && InHull(g, inputs) ==> g in chosen)
    && ClosedUnderMeet(files, chosen)
  }

  /** The least such set leaves no gap either. */
  lemma SolidLeast(files: seq<File>, inputs: seq<File>, chosen: seq<File>)
    requires Solid(inputs) && inputs != [] && CoversHull(files, inputs, Elements(chosen))
    requires forall g :: g in chosen ==> g in files
    requires forall c :: CoversHull(files, inputs, c) ==> Elements(chosen) <= c
    ensures Solid(inputs + chosen)
  {
    forall a, b | a <= b && Misses(inputs + chosen, a, b)
      ensures AllAfter(inputs + chosen, b) || AllBefore(inputs + chosen, a)
    {
      assert Misses(inputs, a, b);
      if AllAfter(inputs, b) {
        LeastAfter(files, inputs, chosen, a, b);
      } else {
        LeastBefore(files, inputs, chosen, a, b);
      }
    }
  }

  lemma LeastAfter(files: seq<File>, inputs: seq<File>, chosen: seq<File>, a: UserKey, b: UserKey)
    requires a <= b && Misses(inputs + chosen, a, b) && AllAfter(inputs, b)
      && CoversHull(files, inputs, Elements(chosen))
    requires forall c :: CoversHull(files, inputs, c) ==> Elements(chosen) <= c
    ensures AllAfter(chosen, b)
  {
    var c := set f | f in chosen && b < Start(f);
    forall g | g in files && InHull(g, inputs) ensures g in c { assert g in Elements(chosen); }
    forall f, g | f in c && g in files && Meet(f, g) ensures g in c {
      assert f in Elements(chosen) && g in Elements(chosen);
    }
    assert CoversHull(files, inputs, c);
    forall f | f in chosen ensures b < Start(f) { assert f in Elements(chosen); }
  }

  lemma LeastBefore(files: seq<File>, inputs: seq<File>, chosen: seq<File>, a: UserKey, b: UserKey)
    requires a <= b && Misses(inputs + chosen, a, b) && AllBefore(inputs, a)
      && CoversHull(files, inputs, Elements(chosen))
    requires forall c :: CoversHull(files, inputs, c) ==> Elements(chosen) <= c
    ensures AllBefore(chosen, a)
  {
    var c := set f | f in chosen && Limit(f) < a;
    forall g | g in files && InHull(g, inputs) ensures g in c { assert g in Elements(chosen); }
    forall f, g | f in c && g in files && Meet(f, g) ensures g in c {
      assert f in Elements(chosen) && g in Elements(chosen);
    }
    assert CoversHull(files, inputs, c);
    forall f | f in chosen ensures Limit(f) < a { assert f in Elements(chosen); }
  }

  /** What a compaction of `level` takes in: some files of the level (at level 0, all files
      overlapping them) and exactly the files of the next level meeting their range. */
  ghost predicate Selected(v: Version, level: nat, inputs0: seq<File>, inputs1: seq<File>) {
    && |v.levels| == NUM_LEVELS && level + 1 < NUM_LEVELS
    && inputs0 != [] && NoDup(inputs0) && NoDup(inputs1)
    && (forall f :: f in inputs0 ==> f in v.levels[level])
    && (forall g :: g in inputs1 <==> g in v.levels[level + 1] && InHull(g, inputs0))
    && (level == 0 ==> ClosedUnderMeet(v.levels[0], Elements(inputs0)))
  }

  /** The files that go with `inputs`: those that meet their range, and at level 0 also all that meet one of these, and
      so on. In the order of the level. */
  ghost predicate GoWith(files: seq<File>, levelZero: bool, inputs: seq<File>, chosen: seq<File>) {
    && SortedFiles(chosen) && (forall f :: f in chosen ==> f in files)
    && (if levelZero then LeastHull(files, inputs, chosen) else IsHull(files, inputs, chosen))
  }

  ghost predicate LeastHull(files: seq<File>, inputs: seq<File>, chosen: seq<File>) {
    && CoversHull(files, inputs, Elements(chosen))
    && forall c :: CoversHull(files, inputs, c) ==> Elements(chosen) <= c
  }

  /** The files of `level` that go with `inputs`. */
  method FilesInHull(v: Version, level: nat, inputs: seq<File>) returns (r: seq<File>)
    requires Listed(v) && level < NUM_LEVELS && inputs != []
    ensures NoDup(r) && GoWith(v.levels[level], level == 0, inputs, r)
    ensures forall g :: g in v.levels[level] && InHull(g, inputs) ==> g in r
    ensures Solid(inputs) ==> Solid(inputs + r)
  {
    var smallest, largest := GetRange(inputs);
    r := GetOverlappingInputs(v.levels[level], level == 0, Some(smallest.user), Some(largest.user));
    SortedNoDup(r);
    assert forall f :: f in inputs ==> smallest.user <= Start(f) && Limit(f) <= largest.user;
    forall g | g in v.levels[level]
      ensures Touches(g, Some(smallest.user), Some(largest.user)) <==> InHull(g, inputs)
    {}
    if level == 0 {
      forall g | g in v.levels[0] && InHull(g, inputs) ensures g in Elements(r) {}
      forall c | CoversHull(v.levels[0], inputs, c) ensures Elements(r) <= c {
        assert Covers(v.levels[0], Some(smallest.user), Some(largest.user), c);
      }
      if Solid(inputs) { SolidLeast(v.levels[0], inputs, r); }
    } else if Solid(inputs) {
      SolidGrows(inputs, r);
    }
  }

  /** More of the level is taken exactly when there is more, it is not too much in all, and it meets no more files of
      the next level than were taken from there already. */
  predicate MayGrow(picked: seq<File>, below: seq<File>, more: seq<File>, more1: seq<File>) {
    && |more| > |picked| && |more1| == |below|
    && TotalFileSize(below) + TotalFileSize(more) < EXPANDED_COMPACTION_BYTE_SIZE_LIMIT
  }

  /** `more` are the files of the level that go with everything taken so far, and `more1` those of the next level that
      go with `more`. */
  ghost predicate Candidates(v: Version, level: nat, taken: seq<File>, more: seq<File>, more1: seq<File>)
    requires level + 1 < |v.levels|
  {
    && GoWith(v.levels[level], level == 0, taken, more)
    && (more != [] ==> GoWith(v.levels[level + 1], false, more, more1))
  }

  ghost predicate GrownOrNot(v: Version, level: nat, picked: seq<File>, inputs0: seq<File>, inputs1: seq<File>)
    requires level + 1 < |v.levels|
  {
    exists more, more1 ::
      && Candidates(v, level, picked + inputs1, more, more1)
      && inputs0 == if MayGrow(picked, inputs1, more, more1) then more else picked
  }

  /** What is compacted when `picked` are the files picked from the level. */
  ghost predicate SetUp(v: Version, level: nat, picked: seq<File>, inputs0: seq<File>, inputs1: seq<File>)
    requires level + 1 < |v.levels|
  {
    && GoWith(v.levels[level + 1], false, picked, inputs1) && (inputs1 == [] ==> inputs0 == picked)
    && (inputs1 != [] ==> GrownOrNot(v, level, picked, inputs0, inputs1))
  }

  /** SetupOtherInputs: add the next level's files, then try to take more of `level` as long as
      that does not pull in more of the next level. */
  method SetupOtherInputs(v: Version, level: nat, picked: seq<File>) returns (inputs0: seq<File>, inputs1: seq<File>)
    requires Listed(v) && level + 1 < NUM_LEVELS && picked != [] && NoDup(picked)
    requires forall f :: f in picked ==> f in v.levels[level]
    requires level == 0 ==> ClosedUnderMeet(v.levels[0], Elements(picked))
    ensures Selected(v, level, inputs0, inputs1) && SetUp(v, level, picked, inputs0, inputs1)
    ensures forall f :: f in picked ==> f in inputs0
    ensures Solid(picked) ==> Solid(inputs0 + inputs1)
  {
    inputs0 := picked;
    inputs1 := FilesInHull(v, level + 1, picked);
    assert Selected(v, level, inputs0, inputs1);
    if inputs1 != [] {
      inputs0 := TryMore(v, level, picked, inputs1);
    } else if Solid(picked) {
      SolidSame(picked, inputs0 + inputs1);
    }
  }

  /** The files of the level that go with everything taken so far, if that is more, and not too much. */
  method TryMore(v: Version, level: nat, picked: seq<File>, below: seq<File>) returns (inputs0: seq<File>)
    requires Listed(v) && Selected(v, level, picked, below) && below != []
    requires GoWith(v.levels[level + 1], false, picked, below)
    requires Solid(picked) ==> Solid(picked + below)
    ensures Selected(v, level, inputs0, below) && GrownOrNot(v, level, picked, inputs0, below)
    ensures forall f :: f in picked ==> f in inputs0
    ensures Solid(picked) ==> Solid(inputs0 + below)
  {
    inputs0 := picked;
    var all := picked + below;
    var more := FilesInHull(v, level, all);
    forall f | f in picked ensures f in more { OwnHull(f, all); }
    assert picked[0] in more;
    var more1 := FilesInHull(v, level + 1, more);
    assert Candidates(v, level, all, more, more1);
    if MayGrow(picked, below, more, more1) {
      GrownIsSelected(v, level, picked, below, more, more1);
      inputs0 := more;
      if Solid(picked) { SolidSame(all + more, inputs0 + below); }
    }
  }

  lemma GrownIsSelected(v: Version, level: nat, picked: seq<File>, below: seq<File>, more: seq<File>, more1: seq<File>)
    requires Selected(v, level, picked, below) && GoWith(v.levels[level + 1], false, picked, below)
    requires GoWith(v.levels[level], level == 0, picked + below, more) && |more1| == |below|
    requires GoWith(v.levels[level + 1], false, more, more1)
    requires forall f :: f in picked ==> f in more
    ensures Selected(v, level, more, below)
  {
    SameBelow(v.levels[level + 1], picked, below, more, more1);
    SortedNoDup(more);
    assert picked[0] in more;
  }

  /** As many files of the next level as before are the same files as before. */
  lemma SameBelow(files: seq<File>, picked: seq<File>, below: seq<File>, more: seq<File>, more1: seq<File>)
    requires GoWith(files, false, picked, below) && GoWith(files, false, more, more1) && |more1| == |below|
    requires forall f :: f in picked ==> f in more
    ensures more1 == below
  {
    forall g | g in below ensures g in more1 { HullGrows(g, picked, more); }
    SortedNoDup(below);
    SortedNoDup(more1);
    SameCountSameFiles(below, more1);
    SameFilesSameList(below, more1);
  }

  lemma HullGrows(g: File, inputs: seq<File>, more: seq<File>)
    requires InHull(g, inputs) && forall f :: f in inputs ==> f in more
    ensures InHull(g, more)
  {}

  lemma {:induction false} SameCountSameFiles(a: seq<File>, b: seq<File>)
    requires NoDup(a) && NoDup(b) && |a| == |b| && forall f :: f in a ==> f in b
    ensures forall f :: f in b ==> f in a
  {
    CountIs(a);
    CountIs(b);
    var ea, eb := Elements(a), Elements(b);
    assert ea <= eb;
    forall f | f in b ensures f in a {
      if f !in ea { ProperSubsetSmaller(ea, eb, f); }
    }
  }

  lemma {:induction false} CountIs(a: seq<File>)
    requires NoDup(a)
    ensures |Elements(a)| == |a|
  {
    if a != [] {
      var n := |a| - 1;
      CountIs(a[..n]);
      assert Elements(a) == Elements(a[..n]) + {a[n]};
      assert a[n] !in a[..n];
    }
  }

  /** The first file that ends after the compaction pointer, or the first of all if none does. */
  ghost predicate IsNext(files: seq<File>, pointer: Option<InternalKey>, i: nat) {
    && i < |files|
    && (if pointer.None? then i == 0
        else if Less(pointer.value, files[i].Largest()) then forall j :: 0 <= j < i ==>
          !Less(pointer.value, files[j].Largest())
        else i == 0 && forall j :: 0 <= j < |files| ==> !Less(pointer.value, files[j].Largest()))
  }

  /** The next file; at level 0 with all that go with it. */
  ghost predicate NextPicked(files: seq<File>, level: nat, pointer: Option<InternalKey>, i: nat, picked: seq<File>) {
    && IsNext(files, pointer, i)
    && (if level == 0 then GoWith(files, true, [files[i]], picked) else picked == [files[i]])
  }

  ghost predicate TakesNext(v: Version, level: nat, pointer: Option<InternalKey>, inputs0: seq<File>,
                            inputs1: seq<File>)
    requires level + 1 < |v.levels|
  {
    exists i: nat, picked ::
      NextPicked(v.levels[level], level, pointer, i, picked) && SetUp(v, level, picked, inputs0, inputs1)
  }

  /** PickCompaction's size-triggered branch: the first file after the level's compaction pointer,
      wrapping around, and then everything that has to go with it. */
  method PickCompaction(v: Version, level: nat, compactPointer: Option<InternalKey>)
    returns (inputs0: seq<File>, inputs1: seq<File>)
    requires Listed(v) && level + 1 < NUM_LEVELS && v.levels[level] != []
    ensures Selected(v, level, inputs0, inputs1) && TakesNext(v, level, compactPointer, inputs0, inputs1)
    ensures Solid(inputs0 + inputs1)
  {
    var files := v.levels[level];
    var i := 0;
    while i < |files| && compactPointer.Some? && !Less(compactPointer.value, files[i].Largest())
      invariant i <= |files|
      invariant (i > 0 ==> compactPointer.Some?)
        && forall j :: 0 <= j < i && compactPointer.Some? ==> !Less(compactPointer.value, files[j].Largest())
    {
      i := i + 1;
    }
    ghost var n := if i < |files| then i else 0;
    var picked := [if i < |files| then files[i] else files[0]];
    var f := picked[0];
    assert Solid(picked);
    if level == 0 {
      picked := FilesInHull(v, 0, [f]);
      OwnHull(f, [f]);
      SolidSame([f] + picked, picked);
    }
    assert NextPicked(files, level, compactPointer, n, picked);
    inputs0, inputs1 := SetupOtherInputs(v, level, picked);
  }

  /** The shortest beginning of the list with which the sizes reach the limit, or all of it if they do not. */
  ghost predicate ShortestEnough(all: seq<File>, n: nat) {
    && n <= |all| && (forall m :: 0 <= m < n ==> TotalFileSize(all[..m]) < TARGET_FILE_SIZE)
    && (n < |all| ==> TotalFileSize(all[..n]) >= TARGET_FILE_SIZE)
  }

  method TakeEnough(files: seq<File>) returns (n: nat)
    ensures ShortestEnough(files, n) && (files != [] ==> n > 0)
  {
    var total: nat := 0;
    for i := 0 to |files|
      invariant total == TotalFileSize(files[..i]) < TARGET_FILE_SIZE
      invariant forall m :: 0 <= m < i ==> TotalFileSize(files[..m]) < TARGET_FILE_SIZE
    {
      SizeWithOneMore(files[..i], files[i]);
      assert files[..i] + [files[i]] == files[..i + 1];
      total := total + files[i].size;
      if total >= TARGET_FILE_SIZE {
        return i + 1;
      }
    }
    n := |files|;
  }

  /** Below level 0 the first files of the range, as many as are enough. At level 0 the least closed cover. */
  ghost predicate RangePicked(files: seq<File>, level: nat, begin: Option<UserKey>, end: Option<UserKey>,
                              picked: seq<File>) {
    if level == 0 then LeastCover(files, begin, end, picked)
    else exists all, n: nat :: IsRange(files, begin, end, all) && ShortestEnough(all, n) && picked == all[..n]
  }

  ghost predicate TakesRange(v: Version, level: nat, begin: Option<UserKey>, end: Option<UserKey>,
                             inputs0: seq<File>, inputs1: seq<File>)
    requires level + 1 < |v.levels|
  {
    exists picked ::
      RangePicked(v.levels[level], level, begin, end, picked) && SetUp(v, level, picked, inputs0, inputs1)
  }

  /** CompactRange: the files of the level meeting the range, not too many of them below level 0, and
      everything that has to go with them. They need not be next to each other. */
  method CompactRange(v: Version, level: nat, begin: Option<UserKey>, end: Option<UserKey>)
    returns (inputs0: seq<File>, inputs1: seq<File>)
    requires Listed(v) && level + 1 < NUM_LEVELS
    ensures inputs0 == [] <==> forall f :: f in v.levels[level] ==> !Touches(f, begin, end)
    ensures inputs0 != [] ==>
      Selected(v, level, inputs0, inputs1) && TakesRange(v, level, begin, end, inputs0, inputs1)
    ensures inputs0 == [] ==> inputs1 == []
  {
    var files := v.levels[level];
    var inputs := GetOverlappingInputs(files, level == 0, begin, end);
    if inputs == [] {
      forall f | f in files ensures !Touches(f, begin, end) { assert level == 0 ==> Elements(inputs) == {}; }
      return [], [];
    }
    assert inputs[0] in Elements(inputs);
    assert level == 0 ==> !Covers(files, begin, end, {});
    SortedNoDup(inputs);
    if level > 0 {
      var n := TakeEnough(inputs);
      ghost var all := inputs;
      assert IsRange(files, begin, end, all);
      inputs := inputs[..n];
    }
    assert RangePicked(files, level, begin, end, inputs);
    inputs0, inputs1 := SetupOtherInputs(v, level, inputs);
  }

  /** A listing of the files two levels down that meet the range of the inputs. */
  ghost predicate Grandparents(v: Version, level: nat, inputs: seq<File>, gs: seq<File>) {
    && NoDup(gs)
    && (if level + 2 < |v.levels| then forall g :: g in gs <==>
      g in v.levels[level + 2] && InHull(g, inputs) else gs == [])
  }

  predicate MayMove(inputs0: seq<File>, inputs1: seq<File>, gs: seq<File>) {
    |inputs0| == 1 && inputs1 == [] && TotalFileSize(gs) <= MAX_GRANDPARENT_OVERLAP_BYTES
  }

  /** Compaction::IsTrivialMove: one file, nothing below it, and little two levels down. */
  method IsTrivialMove(v: Version, level: nat, inputs0: seq<File>, inputs1: seq<File>) returns (b: bool)
    requires Listed(v) && Selected(v, level, inputs0, inputs1)
    ensures b ==> inputs0 == [inputs0[0]] && inputs1 == []
    ensures exists gs :: Grandparents(v, level, inputs0 + inputs1, gs) && (b <==> MayMove(inputs0, inputs1, gs))
  {
    var grandparents := [];
    if level + 2 < NUM_LEVELS {
      grandparents := FilesInHull(v, level + 2, inputs0 + inputs1);
    }
    assert Grandparents(v, level, inputs0 + inputs1, grandparents);
    b := |inputs0| == 1 && |inputs1| == 0 && TotalFileSize(grandparents) <= MAX_GRANDPARENT_OVERLAP_BYTES;
  }
}
