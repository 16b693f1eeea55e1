/** A compaction takes time, and memtables are flushed while it runs: its outputs, worked out from the version
    it started from, are installed into a version that has grown in the meantime. */
module Interleaving {
  import opened DbFormat
  import opened Versions
  import opened Overlaps
  import opened Steps
  import opened Compactions
  import opened Manifest

  /** A table flushed since `v`: numbered from `from` on, newer than everything in `v`, and pushed past
      nothing that holds its keys. */
  ghost predicate FlushedSince(v: Version, level: nat, g: File, from: nat)
    requires |v.levels| == NUM_LEVELS && level < NUM_LEVELS
  {
    && g.number >= from && MoreRecent(Elements(g.entries), Contents(v))
    && (level > 0 ==> ClearThrough(v, level, Start(g), Limit(g)))
  }

  /** `w` is `v` with tables flushed since. */
  ghost predicate Grown(v: Version, w: Version, from: nat) {
    && |v.levels| == |w.levels| == NUM_LEVELS
    && (forall l, f :: 0 <= l < NUM_LEVELS && f in v.levels[l] ==> f in w.levels[l])
    && (forall l, g :: 0 <= l < NUM_LEVELS && g in w.levels[l] && g !in v.levels[l] ==> FlushedSince(v, l, g, from))
  }

  lemma GrownSelf(v: Version, from: nat)
    requires |v.levels| == NUM_LEVELS
    ensures Grown(v, v, from)
  {}

  lemma GrownContents(v: Version, w: Version, from: nat)
    requires Grown(v, w, from)
    ensures Contents(v) <= Contents(w)
  {
    forall e | e in Contents(v) ensures e in Contents(w) {
      var l :| 0 <= l < NUM_LEVELS && e in FileEntries(v.levels[l]);
      assert e in FileEntries(w.levels[l]);
    }
  }

  lemma ClearOfLess(v: Version, w: Version, from: nat, level: nat, lo: UserKey, hi: UserKey)
    requires Grown(v, w, from) && level < NUM_LEVELS && ClearThrough(w, level, lo, hi)
    ensures ClearThrough(v, level, lo, hi)
  {}

  /** One more flush. */
  lemma FlushGrows(v: Version, w: Version, w': Version, from: nat, level: nat, f: File)
    requires Grown(v, w, from) && Added(w, w', level, f) && f.number >= from
    requires MoreRecent(Elements(f.entries), Contents(w))
    requires level > 0 ==> ClearThrough(w, level, Start(f), Limit(f))
    ensures Grown(v, w', from)
  {
    GrownContents(v, w, from);
    if level > 0 { ClearOfLess(v, w, from, level, Start(f), Limit(f)); }
  }

  // ---------- The compaction, from its start to its end ----------

  /** Every output lies wholly before or after every table flushed to its level in the meantime. */
  predicate ClearOfFlushed(v: Version, w: Version, level: nat, outputs: seq<File>)
    requires |v.levels| == |w.levels| == NUM_LEVELS && level + 1 < NUM_LEVELS
  {
    forall f, g :: f in outputs && g in w.levels[level + 1] && g !in v.levels[level + 1] ==>
      Precedes(f, g) || Precedes(g, f)
  }

  lemma OutputEntryIsInput(v: Version, planned: Version, level: nat, inputs0: seq<File>, inputs1: seq<File>,
                           input: seq<Entry>, snapshot: SequenceNumber, first: nat, outputs: seq<File>, f: File,
                           e: Entry)
    returns (g: File)
    requires Compacted(v, planned, level, inputs0, inputs1, input, snapshot, first, outputs)
    requires f in outputs && e in f.entries
    ensures g in inputs0 + inputs1 && e in g.entries && Start(g) <= e.user <= Limit(g)
    ensures e in Contents(v) && exists l :: level <= l <= level + 1 && l < NUM_LEVELS && g in v.levels[l]
  {
    OutputEntries(v, planned, level, inputs0, inputs1, input, snapshot, first, outputs);
    assert e in FileEntries(outputs);
    assert e in Elements(input);
    InputIsOld(v, level, inputs0, inputs1, input, e);
    g :| g in inputs0 + inputs1 && e in g.entries;
    UserRange(g, e);
    if g in inputs0 { assert g in v.levels[level]; } else { assert g in inputs1; assert g in v.levels[level + 1]; }
  }

  /** A table flushed to the next level meets none of the inputs. */
  lemma FlushedMisses(v: Version, level: nat, inputs0: seq<File>, inputs1: seq<File>, from: nat, g: File)
    requires Selected(v, level, inputs0, inputs1) && FlushedSince(v, level + 1, g, from)
    ensures Misses(inputs0 + inputs1, Start(g), Limit(g))
  {
    forall h | h in inputs0 + inputs1 ensures Limit(h) < Start(g) || Limit(g) < Start(h) {
      assert h in v.levels[level] || h in v.levels[level + 1];
      assert !Touches(h, Some(Start(g)), Some(Limit(g)));
    }
  }

  lemma UserApart(f: File, g: File)
    requires f.Last().user < Start(g) || Limit(g) < f.First().user
    ensures Precedes(f, g) || Precedes(g, f)
  {}

  /** So it lies to one side of all outputs. */
  lemma FlushedStandsClear(v: Version, planned: Version, level: nat, inputs0: seq<File>, inputs1: seq<File>,
                           input: seq<Entry>, snapshot: SequenceNumber, first: nat, outputs: seq<File>, from: nat,
                           f: File, g: File)
    requires Compacted(v, planned, level, inputs0, inputs1, input, snapshot, first, outputs)
    requires Solid(inputs0 + inputs1) && f in outputs && FlushedSince(v, level + 1, g, from)
    ensures Precedes(f, g) || Precedes(g, f)
  {
    StartBeforeLimit(g);
    FlushedMisses(v, level, inputs0, inputs1, from, g);
    var a := OutputEntryIsInput(v, planned, level, inputs0, inputs1, input, snapshot, first, outputs, f, f.First());
    var b := OutputEntryIsInput(v, planned, level, inputs0, inputs1, input, snapshot, first, outputs, f, f.Last());
    OneSide(inputs0 + inputs1, Start(g), Limit(g), a, b);
    UserApart(f, g);
  }

  /** Inputs that leave no gap make outputs that are clear of whatever is flushed in the meantime. */
  lemma SolidIsClear(v: Version, planned: Version, w: Version, level: nat, inputs0: seq<File>, inputs1: seq<File>,
                     input: seq<Entry>, snapshot: SequenceNumber, first: nat, outputs: seq<File>, from: nat)
    requires Compacted(v, planned, level, inputs0, inputs1, input, snapshot, first, outputs)
    requires Solid(inputs0 + inputs1) && Grown(v, w, from)
    ensures ClearOfFlushed(v, w, level, outputs)
  {
    forall f, g | f in outputs && g in w.levels[level + 1] && g !in v.levels[level + 1]
      ensures Precedes(f, g) || Precedes(g, f)
    {
      FlushedStandsClear(v, planned, level, inputs0, inputs1, input, snapshot, first, outputs, from, f, g);
    }
  }

  /** The output has keys on both sides of the table. */
  predicate Straddles(f: File, g: File) { Start(f) < Start(g) && Limit(g) < Limit(f) }

  /** A flushed table the outputs are not clear of lies in a gap of the inputs that one output reaches across. */
  lemma ClearIffNoneStraddles(v: Version, planned: Version, w: Version, level: nat, inputs0: seq<File>,
                              inputs1: seq<File>, input: seq<Entry>, snapshot: SequenceNumber, first: nat,
                              outputs: seq<File>, from: nat)
    requires Compacted(v, planned, level, inputs0, inputs1, input, snapshot, first, outputs) && Grown(v, w, from)
    ensures ClearOfFlushed(v, w, level, outputs) <==>
      forall f, g :: f in outputs && g in w.levels[level + 1] && g !in v.levels[level + 1] ==> !Straddles(f, g)
  {
    forall f, g | f in outputs && g in w.levels[level + 1] && g !in v.levels[level + 1]
      ensures (Precedes(f, g) || Precedes(g, f)) <==> !Straddles(f, g)
    {
      ApartUnlessStraddles(v, planned, level, inputs0, inputs1, input, snapshot, first, outputs, from, f, g);
    }
  }

  lemma ApartUnlessStraddles(v: Version, planned: Version, level: nat, inputs0: seq<File>, inputs1: seq<File>,
                             input: seq<Entry>, snapshot: SequenceNumber, first: nat, outputs: seq<File>, from: nat,
                             f: File, g: File)
    requires Compacted(v, planned, level, inputs0, inputs1, input, snapshot, first, outputs)
    requires f in outputs && FlushedSince(v, level + 1, g, from)
    ensures (Precedes(f, g) || Precedes(g, f)) <==> !Straddles(f, g)
  {
    StartBeforeLimit(f);
    StartBeforeLimit(g);
    FlushedMisses(v, level, inputs0, inputs1, from, g);
    var a := OutputEntryIsInput(v, planned, level, inputs0, inputs1, input, snapshot, first, outputs, f, f.First());
    var b := OutputEntryIsInput(v, planned, level, inputs0, inputs1, input, snapshot, first, outputs, f, f.Last());
    EndsApart(inputs0 + inputs1, f, g, a, b);
  }

  lemma EndsApart(inputs: seq<File>, f: File, g: File, a: File, b: File)
    requires Misses(inputs, Start(g), Limit(g)) && a in inputs && b in inputs
    requires Start(a) <= Start(f) <= Limit(a) && Start(b) <= Limit(f) <= Limit(b)
    requires Start(f) <= Limit(f) && Start(g) <= Limit(g)
    ensures (Precedes(f, g) || Precedes(g, f)) <==> !Straddles(f, g)
  {}

  lemma OneSide(inputs: seq<File>, lo: UserKey, hi: UserKey, a: File, b: File)
    requires Solid(inputs) && lo <= hi && Misses(inputs, lo, hi) && a in inputs && b in inputs
    ensures hi < Start(a) || Limit(b) < lo
  {}

  /** The levels after installing: those of the plan, and the tables flushed in the meantime. */
  lemma FromPlanOrFlushed(v: Version, planned: Version, w: Version, w': Version, level: nat, inputs0: seq<File>,
                          inputs1: seq<File>, outputs: seq<File>, from: nat, l: nat, f: File)
    requires Grown(v, w, from) && Replaced(v, planned, level, inputs0, inputs1, outputs)
    requires Replaced(w, w', level, inputs0, inputs1, outputs) && l < NUM_LEVELS && f in w'.levels[l]
    ensures f in planned.levels[l] || (f in w.levels[l] && f !in v.levels[l] && FlushedSince(v, l, f, from))
    ensures f in w.levels[l] || (l == level + 1 && f in outputs)
  {
    if f in w.levels[l] && f !in v.levels[l] {
      assert FlushedSince(v, l, f, from);
    } else if l == level {
      assert f in v.levels[level] && f !in inputs0;
    } else if l == level + 1 {
      assert f in outputs || (f in v.levels[l] && f !in inputs1);
    }
  }

  lemma InstalledDisjoint(v: Version, planned: Version, w: Version, w': Version, level: nat, inputs0: seq<File>,
                          inputs1: seq<File>, input: seq<Entry>, snapshot: SequenceNumber, first: nat,
                          outputs: seq<File>, from: nat, l: nat)
    requires Compacted(v, planned, level, inputs0, inputs1, input, snapshot, first, outputs) && Inv(planned)
    requires Grown(v, w, from) && Inv(w) && Replaced(w, w', level, inputs0, inputs1, outputs) && 1 <= l < NUM_LEVELS
    requires ClearOfFlushed(v, w, level, outputs)
    ensures DisjointFiles(w'.levels[l])
  {
    assert DisjointFiles(planned.levels[l]) && DisjointFiles(w.levels[l]);
    forall f, g | f in w'.levels[l] && g in w'.levels[l] && f != g ensures Precedes(f, g) || Precedes(g, f) {
      FromPlanOrFlushed(v, planned, w, w', level, inputs0, inputs1, outputs, from, l, f);
      FromPlanOrFlushed(v, planned, w, w', level, inputs0, inputs1, outputs, from, l, g);
      assert f in w.levels[l] || (l == level + 1 && f in outputs);
    }
  }

  /** Newer entries stay above: an output and a flushed table share no key unless the flushed one is above. */
  lemma MixedRecency(v: Version, planned: Version, level: nat, inputs0: seq<File>, inputs1: seq<File>,
                     input: seq<Entry>, snapshot: SequenceNumber, first: nat, outputs: seq<File>, from: nat, f: File,
                     g: File, m: nat, a: Entry, b: Entry)
    requires Compacted(v, planned, level, inputs0, inputs1, input, snapshot, first, outputs)
    requires f in outputs && a in f.entries && b in g.entries && m < NUM_LEVELS && FlushedSince(v, m, g, from)
    ensures a.user == b.user ==> b.sn > a.sn && m <= level
  {
    var h := OutputEntryIsInput(v, planned, level, inputs0, inputs1, input, snapshot, first, outputs, f, a);
    MixedPair(v, level, from, h, g, m, a, b);
  }

  lemma MixedPair(v: Version, level: nat, from: nat, h: File, g: File, m: nat, a: Entry, b: Entry)
    requires |v.levels| == NUM_LEVELS && m < NUM_LEVELS && FlushedSince(v, m, g, from) && a in Contents(v)
      && b in g.entries
    requires Start(h) <= a.user <= Limit(h) && exists l :: level <= l <= level + 1 && l < NUM_LEVELS && h in v.levels[l]
    ensures a.user == b.user ==> b.sn > a.sn && m <= level
  {
    assert b in Elements(g.entries);
    UserRange(g, b);
    var l :| level <= l <= level + 1 && l < NUM_LEVELS && h in v.levels[l];
    if m > level { assert !Touches(h, Some(Start(g)), Some(Limit(g))); }
  }

  lemma InstalledRecency(v: Version, planned: Version, w: Version, w': Version, level: nat, inputs0: seq<File>,
                         inputs1: seq<File>, input: seq<Entry>, snapshot: SequenceNumber, first: nat,
                         outputs: seq<File>, from: nat)
    requires Compacted(v, planned, level, inputs0, inputs1, input, snapshot, first, outputs) && Inv(planned)
    requires Grown(v, w, from) && Inv(w) && Replaced(w, w', level, inputs0, inputs1, outputs)
    ensures Recency(w')
  {
    forall l, m, a, b | 0 <= l < m < NUM_LEVELS && a in FileEntries(w'.levels[l]) && b in FileEntries(w'.levels[m])
      && a.user == b.user
      ensures a.sn > b.sn
    {
      var f :| f in w'.levels[l] && a in f.entries;
      var g :| g in w'.levels[m] && b in g.entries;
      FromPlanOrFlushed(v, planned, w, w', level, inputs0, inputs1, outputs, from, l, f);
      FromPlanOrFlushed(v, planned, w, w', level, inputs0, inputs1, outputs, from, m, g);
      PairRecency(v, planned, w, level, inputs0, inputs1, input, snapshot, first, outputs, from, l, m, f, g, a, b);
    }
  }

  lemma PairRecency(v: Version, planned: Version, w: Version, level: nat, inputs0: seq<File>, inputs1: seq<File>,
                    input: seq<Entry>, snapshot: SequenceNumber, first: nat, outputs: seq<File>, from: nat, l: nat,
                    m: nat, f: File, g: File, a: Entry, b: Entry)
    requires Compacted(v, planned, level, inputs0, inputs1, input, snapshot, first, outputs)
    requires Recency(planned) && Recency(w) && l < m < NUM_LEVELS == |w.levels| == |planned.levels|
    requires f in planned.levels[l] || (f in w.levels[l] && FlushedSince(v, l, f, from))
    requires f in w.levels[l] || (l == level + 1 && f in outputs)
    requires g in planned.levels[m] || (g in w.levels[m] && FlushedSince(v, m, g, from))
    requires g in w.levels[m] || (m == level + 1 && g in outputs)
    requires a in f.entries && b in g.entries && a.user == b.user
    ensures a.sn > b.sn
  {
    if f in planned.levels[l] && g in planned.levels[m] {
      assert MoreRecent(FileEntries(planned.levels[l]), FileEntries(planned.levels[m]));
      assert a in FileEntries(planned.levels[l]) && b in FileEntries(planned.levels[m]);
    } else if f in w.levels[l] && g in w.levels[m] {
      assert MoreRecent(FileEntries(w.levels[l]), FileEntries(w.levels[m]));
      assert a in FileEntries(w.levels[l]) && b in FileEntries(w.levels[m]);
    } else if f in w.levels[l] {
      MixedRecency(v, planned, level, inputs0, inputs1, input, snapshot, first, outputs, from, g, f, l, b, a);
    } else {
      MixedRecency(v, planned, level, inputs0, inputs1, input, snapshot, first, outputs, from, f, g, m, a, b);
    }
  }

  lemma NumbersAround(v: Version, w: Version, first: nat, from: nat)
    requires NumbersBelow(v, first) && Grown(v, w, from)
    ensures forall l, f :: 0 <= l < NUM_LEVELS && f in w.levels[l] ==> f.number < first || f.number >= from
  {
    forall l, f | 0 <= l < NUM_LEVELS && f in w.levels[l] ensures f.number < first || f.number >= from {
      if f !in v.levels[l] { assert FlushedSince(v, l, f, from); }
    }
  }

  lemma InstalledNumbers(v: Version, w: Version, w': Version, level: nat, inputs0: seq<File>, inputs1: seq<File>,
                         outputs: seq<File>, first: nat, from: nat)
    requires UniqueNumbers(w) && NumbersBelow(v, first) && Grown(v, w, from) && from == first + |outputs|
    requires Replaced(w, w', level, inputs0, inputs1, outputs)
    requires forall i :: 0 <= i < |outputs| ==> outputs[i].number == first + i
    ensures UniqueNumbers(w')
  {
    NumbersAround(v, w, first, from);
    forall l, m, f, g | 0 <= l < NUM_LEVELS && 0 <= m < NUM_LEVELS && f in w'.levels[l] && g in w'.levels[m]
      && f.number == g.number
      ensures l == m && f == g
    {
      assert f in w.levels[l] || (l == level + 1 && f in outputs);
      assert g in w.levels[m] || (m == level + 1 && g in outputs);
    }
  }

  /** However many memtables were flushed meanwhile, installing a compaction keeps the version invariant under
      the same condition as without them and if the outputs are clear of the flushed tables. */
  lemma InstalledInv(v: Version, planned: Version, w: Version, w': Version, level: nat, inputs0: seq<File>,
                     inputs1: seq<File>, input: seq<Entry>, snapshot: SequenceNumber, first: nat, outputs: seq<File>,
                     from: nat)
    requires Compacted(v, planned, level, inputs0, inputs1, input, snapshot, first, outputs)
    requires Grown(v, w, from) && Inv(w) && Replaced(w, w', level, inputs0, inputs1, outputs)
    requires NothingOlderLeft(v, level, inputs0, input, snapshot) && ClearOfFlushed(v, w, level, outputs)
    requires from == first + |outputs|
    ensures Inv(w')
  {
    CompactionKeepsInv(v, planned, level, inputs0, inputs1, input, snapshot, first, outputs);
    forall l | 1 <= l < NUM_LEVELS ensures DisjointFiles(w'.levels[l]) {
      InstalledDisjoint(v, planned, w, w', level, inputs0, inputs1, input, snapshot, first, outputs, from, l);
    }
    InstalledRecency(v, planned, w, w', level, inputs0, inputs1, input, snapshot, first, outputs, from);
    InstalledNumbers(v, w, w', level, inputs0, inputs1, outputs, first, from);
  }

  lemma InvNeedsBoth(v: Version, planned: Version, w: Version, w': Version, level: nat, inputs0: seq<File>,
                     inputs1: seq<File>, input: seq<Entry>, snapshot: SequenceNumber, first: nat, outputs: seq<File>,
                     from: nat)
    requires Compacted(v, planned, level, inputs0, inputs1, input, snapshot, first, outputs)
    requires Grown(v, w, from) && Replaced(w, w', level, inputs0, inputs1, outputs) && from == first + |outputs|
    requires Inv(w')
    ensures NothingOlderLeft(v, level, inputs0, input, snapshot) && ClearOfFlushed(v, w, level, outputs)
  {
    OutputEntries(v, planned, level, inputs0, inputs1, input, snapshot, first, outputs);
    RecencyAtBoundary(w, w', level, inputs0, inputs1, outputs);
    assert Unchosen(v.levels[level], inputs0) <= Unchosen(w.levels[level], inputs0);
    forall f, g | f in outputs && g in w.levels[level + 1] && g !in v.levels[level + 1]
      ensures Precedes(f, g) || Precedes(g, f)
    {
      assert FlushedSince(v, level + 1, g, from);
      assert g !in inputs1 && f.number < from;
      assert f in w'.levels[level + 1] && g in w'.levels[level + 1];
    }
  }

  /** The exact condition for a compaction that ran while memtables were flushed. */
  lemma InstalledInvIff(v: Version, planned: Version, w: Version, w': Version, level: nat, inputs0: seq<File>,
                        inputs1: seq<File>, input: seq<Entry>, snapshot: SequenceNumber, first: nat, outputs: seq<File>,
                        from: nat)
    requires Compacted(v, planned, level, inputs0, inputs1, input, snapshot, first, outputs)
    requires Grown(v, w, from) && Inv(w) && Replaced(w, w', level, inputs0, inputs1, outputs)
    requires from == first + |outputs|
    ensures Inv(w') <==>
      NothingOlderLeft(v, level, inputs0, input, snapshot) && ClearOfFlushed(v, w, level, outputs)
  {
    if Inv(w') {
      InvNeedsBoth(v, planned, w, w', level, inputs0, inputs1, input, snapshot, first, outputs, from);
    } else if NothingOlderLeft(v, level, inputs0, input, snapshot) && ClearOfFlushed(v, w, level, outputs) {
      InstalledInv(v, planned, w, w', level, inputs0, inputs1, input, snapshot, first, outputs, from);
    }
  }

  // ---------- Contents and reads ----------

  ghost function FlushedEntries(v: Version, w: Version): set<Entry>
    requires |v.levels| == |w.levels|
  {
    set l, f, e | 0 <= l < |w.levels| && f in w.levels[l] && f !in v.levels[l] && e in f.entries :: e
  }

  lemma GrownIsMore(v: Version, w: Version, from: nat)
    requires Grown(v, w, from)
    ensures Contents(w) == FlushedEntries(v, w) + Contents(v)
    ensures MoreRecent(FlushedEntries(v, w), Contents(v))
  {
    GrownContents(v, w, from);
    forall e | e in Contents(w) ensures e in FlushedEntries(v, w) + Contents(v) {
      var l :| 0 <= l < NUM_LEVELS && e in FileEntries(w.levels[l]);
      var f :| f in w.levels[l] && e in f.entries;
      if f in v.levels[l] { assert e in FileEntries(v.levels[l]); }
    }
    forall e | e in FlushedEntries(v, w) ensures e in Contents(w) {
      var l, f :| 0 <= l < NUM_LEVELS && f in w.levels[l] && f !in v.levels[l] && e in f.entries;
      assert e in FileEntries(w.levels[l]);
    }
    forall a, b | a in FlushedEntries(v, w) && b in Contents(v) && a.user == b.user ensures a.sn > b.sn {
      var l, f :| 0 <= l < NUM_LEVELS && f in w.levels[l] && f !in v.levels[l] && a in f.entries;
      assert FlushedSince(v, l, f, from) && a in Elements(f.entries);
    }
  }

  lemma InstalledContents(v: Version, planned: Version, w: Version, w': Version, level: nat, inputs0: seq<File>,
                          inputs1: seq<File>, outputs: seq<File>, first: nat, from: nat)
    requires Grown(v, w, from) && Replaced(v, planned, level, inputs0, inputs1, outputs)
    requires NumbersBelow(v, first) && first <= from && Selected(v, level, inputs0, inputs1)
    requires Replaced(w, w', level, inputs0, inputs1, outputs)
    ensures Contents(w') == FlushedEntries(v, w) + Contents(planned)
  {
    forall e | e in Contents(w') ensures e in FlushedEntries(v, w) + Contents(planned) {
      var l :| 0 <= l < NUM_LEVELS && e in FileEntries(w'.levels[l]);
      var f :| f in w'.levels[l] && e in f.entries;
      FromPlanOrFlushed(v, planned, w, w', level, inputs0, inputs1, outputs, from, l, f);
      if f in planned.levels[l] {
        assert e in FileEntries(planned.levels[l]);
      } else {
        assert f.number >= first && f !in v.levels[l];
      }
    }
    forall e | e in FlushedEntries(v, w) ensures e in Contents(w') {
      var l, f :| 0 <= l < NUM_LEVELS && f in w.levels[l] && f !in v.levels[l] && e in f.entries;
      FlushedStays(v, w, w', level, inputs0, inputs1, outputs, first, from, l, f);
      assert e in FileEntries(w'.levels[l]);
    }
    forall e | e in Contents(planned) ensures e in Contents(w') {
      var l :| 0 <= l < NUM_LEVELS && e in FileEntries(planned.levels[l]);
      var f :| f in planned.levels[l] && e in f.entries;
      PlanStays(v, planned, w, w', level, inputs0, inputs1, outputs, from, l, f);
      assert e in FileEntries(w'.levels[l]);
    }
  }

  lemma FlushedStays(v: Version, w: Version, w': Version, level: nat, inputs0: seq<File>, inputs1: seq<File>,
                     outputs: seq<File>, first: nat, from: nat, l: nat, f: File)
    requires Grown(v, w, from) && NumbersBelow(v, first) && first <= from && Selected(v, level, inputs0, inputs1)
    requires Replaced(w, w', level, inputs0, inputs1, outputs)
    requires l < NUM_LEVELS && f in w.levels[l] && f !in v.levels[l]
    ensures f in w'.levels[l]
  {
    assert FlushedSince(v, l, f, from);
    assert forall h :: h in inputs0 ==> h in v.levels[level] && h.number < first;
    assert forall h :: h in inputs1 ==> h in v.levels[level + 1] && h.number < first;
  }

  lemma PlanStays(v: Version, planned: Version, w: Version, w': Version, level: nat, inputs0: seq<File>,
                  inputs1: seq<File>, outputs: seq<File>, from: nat, l: nat, f: File)
    requires Grown(v, w, from) && Replaced(v, planned, level, inputs0, inputs1, outputs)
    requires Replaced(w, w', level, inputs0, inputs1, outputs) && l < NUM_LEVELS && f in planned.levels[l]
    ensures f in w'.levels[l]
  {
    if l == level {
      assert f in v.levels[level] && f !in inputs0;
    } else if l == level + 1 {
      assert f in outputs || (f in v.levels[l] && f !in inputs1);
    }
  }

  /** And it changes what no live snapshot reads. */
  lemma InstalledReads(v: Version, planned: Version, w: Version, w': Version, level: nat, inputs0: seq<File>,
                       inputs1: seq<File>, input: seq<Entry>, snapshot: SequenceNumber, first: nat, outputs: seq<File>,
                       from: nat, k: UserKey, s: SequenceNumber)
    requires Compacted(v, planned, level, inputs0, inputs1, input, snapshot, first, outputs) && s >= snapshot
    requires NothingReturns(v, level, inputs0, inputs1, input, snapshot) && first <= from
    requires Grown(v, w, from) && Inv(w) && Replaced(w, w', level, inputs0, inputs1, outputs)
    ensures Contents(w') <= Contents(w) && Read(Contents(w'), k, s) == Read(Contents(w), k, s)
  {
    GrownIsMore(v, w, from);
    InstalledContents(v, planned, w, w', level, inputs0, inputs1, outputs, first, from);
    NewContents(v, planned, level, inputs0, inputs1, input, snapshot, first, outputs);
    NothingReturnsKeepsRead(v, planned, level, inputs0, inputs1, input, snapshot, first, outputs, k, s);
    InvSeqUnique(w);
    SameUnderMemory(FlushedEntries(v, w), Contents(planned), Contents(v), k, s);
  }

  // ---------- The plan exists ----------

  lemma {:induction false} Without(files: seq<File>, gone: seq<File>) returns (r: seq<File>)
    requires SortedFiles(files)
    ensures SortedFiles(r) && forall g :: g in r <==> g in files && g !in gone
  {
    if files == [] {
      r := [];
    } else {
      var n := |files| - 1;
      var init := Without(files[..n], gone);
      assert files == files[..n] + [files[n]];
      if files[n] in gone {
        r := init;
      } else {
        r := init + [files[n]];
        forall i | 0 <= i < |init| ensures BySmallest(init[i], files[n]) {
          assert init[i] in init && init[i] in files[..n];
        }
      }
    }
  }

  lemma {:induction false} InsertEach(files: seq<File>, outputs: seq<File>, first: nat) returns (r: seq<File>)
    requires SortedFiles(files) && forall f :: f in files ==> f.number < first
    requires forall i :: 0 <= i < |outputs| ==> outputs[i].number == first + i
    ensures SortedFiles(r) && forall g :: g in r <==> g in files || g in outputs
  {
    if outputs == [] {
      r := files;
    } else {
      var n := |outputs| - 1;
      var init := InsertEach(files, outputs[..n], first);
      forall f | f in init ensures f.number != outputs[n].number {}
      r := InsertFile(outputs[n], init);
      assert outputs == outputs[..n] + [outputs[n]];
    }
  }

  lemma PlanExists(v: Version, level: nat, inputs0: seq<File>, inputs1: seq<File>, first: nat, outputs: seq<File>)
    returns (planned: Version)
    requires Listed(v) && NumbersBelow(v, first) && level + 1 < NUM_LEVELS
    requires forall i :: 0 <= i < |outputs| ==> outputs[i].number == first + i
    ensures Replaced(v, planned, level, inputs0, inputs1, outputs)
  {
    var upper := Without(v.levels[level], inputs0);
    var lower := Without(v.levels[level + 1], inputs1);
    lower := InsertEach(lower, outputs, first);
    planned := Version(seq(NUM_LEVELS, l requires 0 <= l < NUM_LEVELS =>
      if l == level then upper else if l == level + 1 then lower else v.levels[l]));
  }
}
