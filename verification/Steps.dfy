/** The steps that change the file set, and why each keeps the version invariant. */
module Steps {
  import opened DbFormat
  import opened Versions
  import opened Overlaps

  /** `v'` is `v` with `f` added at `level`; every level is listed in BySmallest order. */
  ghost predicate Added(v: Version, v': Version, level: nat, f: File) {
    && |v.levels| == |v'.levels| == NUM_LEVELS && level < NUM_LEVELS
    && (forall l :: 0 <= l < NUM_LEVELS ==> SortedFiles(v'.levels[l]))
    && (forall l, g :: 0 <= l < NUM_LEVELS ==>
          (g in v'.levels[l] <==> g in v.levels[l] || (l == level && g == f)))
  }

  /** `v'` is `v` with the inputs of a compaction of `level` replaced by its outputs. */
  ghost predicate Replaced(v: Version, v': Version, level: nat, inputs0: seq<File>, inputs1: seq<File>,
                           outputs: seq<File>) {
    && |v.levels| == |v'.levels| == NUM_LEVELS && level + 1 < NUM_LEVELS
    && (forall l :: 0 <= l < NUM_LEVELS ==> SortedFiles(v'.levels[l]))
    && (forall l, g :: 0 <= l < NUM_LEVELS && l != level && l != level + 1 ==>
          (g in v'.levels[l] <==> g in v.levels[l]))
    && (forall g :: g in v'.levels[level] <==> g in v.levels[level] && g !in inputs0)
    && (forall g :: g in v'.levels[level + 1] <==>
          (g in v.levels[level + 1] && g !in inputs1) || g in outputs)
  }

  function Unchosen(files: seq<File>, chosen: seq<File>): set<Entry> {
    set f, e | f in files && f !in chosen && e in f.entries :: e
  }

  lemma FewerStayDisjoint(files: seq<File>, fewer: seq<File>)
    requires DisjointFiles(files) && forall f :: f in fewer ==> f in files
    ensures DisjointFiles(fewer)
  {}

  // ---------- Memtable flush ----------

  ghost predicate NumbersBelow(v: Version, n: nat) {
    forall l, f :: 0 <= l < |v.levels| && f in v.levels[l] ==> f.number < n
  }

  lemma AddedContents(v: Version, v': Version, level: nat, f: File)
    requires Added(v, v', level, f)
    ensures forall l :: 0 <= l < NUM_LEVELS ==>
      FileEntries(v'.levels[l]) == FileEntries(v.levels[l]) + (if l == level then Elements(f.entries) else {})
    ensures Contents(v') == Contents(v) + Elements(f.entries)
  {
    forall l | 0 <= l < NUM_LEVELS
      ensures FileEntries(v'.levels[l]) == FileEntries(v.levels[l]) + (if l == level then Elements(f.entries) else {})
    {
      assert l == level ==> f in v'.levels[l];
    }
    forall e | e in Elements(f.entries) ensures e in Contents(v') {
      assert e in FileEntries(v'.levels[level]);
    }
    forall e | e in Contents(v) ensures e in Contents(v') {
      var l :| 0 <= l < NUM_LEVELS && e in FileEntries(v.levels[l]);
      assert e in FileEntries(v'.levels[l]);
    }
  }

  /** The levels a new file was pushed past hold none of its user keys. */
  lemma PushedPastNothing(v: Version, level: nat, f: File, l: nat, a: Entry, b: Entry)
    requires |v.levels| == NUM_LEVELS && level < NUM_LEVELS && l < level
    requires ClearThrough(v, level, Start(f), Limit(f))
    requires a in FileEntries(v.levels[l]) && b in f.entries
    ensures a.user != b.user
  {
    var g :| g in v.levels[l] && a in g.entries;
    UserRange(g, a); UserRange(f, b);
    assert !Touches(g, Some(Start(f)), Some(Limit(f)));
  }

  lemma FlushPairRecency(v: Version, v': Version, level: nat, f: File, l: nat, m: nat, a: Entry, b: Entry)
    requires Recency(v) && Added(v, v', level, f) && l < m < NUM_LEVELS
    requires MoreRecent(Elements(f.entries), Contents(v))
    requires level > 0 ==> ClearThrough(v, level, Start(f), Limit(f))
    requires a in FileEntries(v.levels[l]) || (l == level && a in f.entries)
    requires b in FileEntries(v.levels[m]) || (m == level && b in f.entries)
    requires a.user == b.user
    ensures a.sn > b.sn
  {
    if a in FileEntries(v.levels[l]) {
      if b in FileEntries(v.levels[m]) {
        assert MoreRecent(FileEntries(v.levels[l]), FileEntries(v.levels[m]));
      } else {
        PushedPastNothing(v, level, f, l, a, b);
      }
    } else {
      assert a in Elements(f.entries) && b in Contents(v);
    }
  }

  lemma FlushKeepsRecency(v: Version, v': Version, level: nat, f: File)
    requires Recency(v) && Added(v, v', level, f)
    requires MoreRecent(Elements(f.entries), Contents(v))
    requires level > 0 ==> ClearThrough(v, level, Start(f), Limit(f))
    ensures Recency(v')
  {
    AddedContents(v, v', level, f);
    forall l, m, a, b | 0 <= l < m < NUM_LEVELS && a in FileEntries(v'.levels[l]) && b in FileEntries(v'.levels[m])
      && a.user == b.user
      ensures a.sn > b.sn
    {
      FlushPairRecency(v, v', level, f, l, m, a, b);
    }
  }

  lemma FlushKeepsLevelShape(v: Version, v': Version, level: nat, f: File)
    requires Inv(v) && Added(v, v', level, f)
    requires MoreRecent(Elements(f.entries), Contents(v))
    requires NumbersBelow(v, f.number)
    requires level > 0 ==> ClearThrough(v, level, Start(f), Limit(f))
    ensures level > 0 ==> DisjointFiles(v'.levels[level])
    ensures LevelZeroRecency(v'.levels[0])
  {
    if level > 0 {
      forall g | g in v.levels[level] ensures Precedes(f, g) || Precedes(g, f) {
        assert !Touches(g, Some(Start(f)), Some(Limit(f)));
      }
    } else {
      forall g | g in v.levels[0] ensures MoreRecent(Elements(f.entries), Elements(g.entries)) {
        forall b | b in g.entries ensures b in Contents(v) {
          assert b in FileEntries(v.levels[0]);
        }
      }
    }
  }

  lemma AddKeepsNumbers(v: Version, v': Version, level: nat, f: File)
    requires UniqueNumbers(v) && Added(v, v', level, f) && NumbersBelow(v, f.number)
    ensures UniqueNumbers(v')
  {}

  /** CompactMemTable's edit: a table newer than everything, at the level that was picked. */
  lemma FlushKeepsInv(v: Version, v': Version, level: nat, f: File)
    requires Inv(v) && Added(v, v', level, f)
    requires NumbersBelow(v, f.number)
    requires MoreRecent(Elements(f.entries), Contents(v))
    requires level > 0 ==> ClearThrough(v, level, Start(f), Limit(f))
    ensures Inv(v')
    ensures Contents(v') == Contents(v) + Elements(f.entries)
  {
    AddedContents(v, v', level, f);
    AddKeepsNumbers(v, v', level, f);
    FlushKeepsRecency(v, v', level, f);
    FlushKeepsLevelShape(v, v', level, f);
    forall l | 1 <= l < NUM_LEVELS && l != level ensures DisjointFiles(v'.levels[l]) {
      FewerStayDisjoint(v.levels[l], v'.levels[l]);
    }
  }

  // ---------- Compaction and trivial move ----------

  /** Every file of the next level that is not taken in lies wholly before or after all inputs. */
  lemma UnchosenStandsClear(v: Version, level: nat, inputs0: seq<File>, inputs1: seq<File>, g: File)
    requires Inv(v) && Selected(v, level, inputs0, inputs1)
    requires g in v.levels[level + 1] && g !in inputs1
    ensures (forall e :: e in FileEntries(inputs0) + FileEntries(inputs1) ==> Ordered(g.Last(), e))
         || (forall e :: e in FileEntries(inputs0) + FileEntries(inputs1) ==> Ordered(e, g.First()))
  {
    StartBeforeLimit(g);
    if forall f :: f in inputs0 ==> Limit(g) < Start(f) {
      forall e | e in FileEntries(inputs0) + FileEntries(inputs1) ensures Ordered(g.Last(), e) {
        if e in FileEntries(inputs0) {
          var f :| f in inputs0 && e in f.entries;
          UserRange(f, e);
        } else {
          var f :| f in inputs1 && e in f.entries;
          assert InHull(f, inputs0);
          PrecedesOneWay(v.levels[level + 1], g, f);
          PrecedesEntries(g, f, g.Last(), e);
        }
      }
    } else {
      assert forall f :: f in inputs0 ==> Limit(f) < Start(g);
      forall e | e in FileEntries(inputs0) + FileEntries(inputs1) ensures Ordered(e, g.First()) {
        if e in FileEntries(inputs0) {
          var f :| f in inputs0 && e in f.entries;
          UserRange(f, e);
        } else {
          var f :| f in inputs1 && e in f.entries;
          assert InHull(f, inputs0);
          PrecedesOneWay(v.levels[level + 1], f, g);
          PrecedesEntries(f, g, e, g.First());
        }
      }
    }
  }

  lemma PrecedesOneWay(files: seq<File>, f: File, g: File)
    requires DisjointFiles(files) && f in files && g in files && f != g
    requires Limit(f) < Limit(g) || Start(f) < Start(g)
    ensures Precedes(f, g)
  {
    StartBeforeLimit(f); StartBeforeLimit(g);
  }

  /** Replacing inputs by files holding only input entries keeps every level's shape. It keeps the
      invariant exactly when the level's remaining files hold nothing older of a key that moved down. */
  lemma ReplaceKeepsInv(v: Version, v': Version, level: nat, inputs0: seq<File>, inputs1: seq<File>, outputs: seq<File>)
    requires Inv(v) && Selected(v, level, inputs0, inputs1)
    requires Replaced(v, v', level, inputs0, inputs1, outputs) && UniqueNumbers(v')
    requires FileEntries(outputs) <= FileEntries(inputs0) + FileEntries(inputs1)
    requires forall f, g :: f in outputs && g in outputs && f != g ==> Precedes(f, g) || Precedes(g, f)
    ensures Inv(v') <==> MoreRecent(Unchosen(v.levels[level], inputs0), FileEntries(outputs))
  {
    if MoreRecent(Unchosen(v.levels[level], inputs0), FileEntries(outputs)) {
      ReplaceKeepsRecency(v, v', level, inputs0, inputs1, outputs);
    }
    if Recency(v') {
      RecencyAtBoundary(v, v', level, inputs0, inputs1, outputs);
    }
    OutputsFit(v, v', level, inputs0, inputs1, outputs);
    forall l | 1 <= l < NUM_LEVELS && l != level + 1 ensures DisjointFiles(v'.levels[l]) {
      FewerStayDisjoint(v.levels[l], v'.levels[l]);
    }
  }

  lemma RecencyAtBoundary(v: Version, v': Version, level: nat, inputs0: seq<File>, inputs1: seq<File>,
                          outputs: seq<File>)
    requires Recency(v') && Replaced(v, v', level, inputs0, inputs1, outputs)
    ensures MoreRecent(Unchosen(v.levels[level], inputs0), FileEntries(outputs))
  {
    assert Unchosen(v.levels[level], inputs0) <= FileEntries(v'.levels[level]);
    assert FileEntries(outputs) <= FileEntries(v'.levels[level + 1]);
    assert MoreRecent(FileEntries(v'.levels[level]), FileEntries(v'.levels[level + 1]));
  }

  lemma OutputsFit(v: Version, v': Version, level: nat, inputs0: seq<File>, inputs1: seq<File>, outputs: seq<File>)
    requires Inv(v) && Selected(v, level, inputs0, inputs1)
    requires Replaced(v, v', level, inputs0, inputs1, outputs)
    requires FileEntries(outputs) <= FileEntries(inputs0) + FileEntries(inputs1)
    requires forall f, g :: f in outputs && g in outputs && f != g ==> Precedes(f, g) || Precedes(g, f)
    ensures DisjointFiles(v'.levels[level + 1])
  {
    assert DisjointFiles(v.levels[level + 1]);
    forall f, g | f in v'.levels[level + 1] && g in v'.levels[level + 1] && f != g
      ensures Precedes(f, g) || Precedes(g, f)
    {
      if f in outputs && g !in outputs { OutputStandsClear(v, level, inputs0, inputs1, outputs, f, g); }
      if g in outputs && f !in outputs { OutputStandsClear(v, level, inputs0, inputs1, outputs, g, f); }
    }
  }

  lemma OutputStandsClear(v: Version, level: nat, inputs0: seq<File>, inputs1: seq<File>, outputs: seq<File>, f: File,
                          g: File)
    requires Inv(v) && Selected(v, level, inputs0, inputs1)
    requires FileEntries(outputs) <= FileEntries(inputs0) + FileEntries(inputs1)
    requires f in outputs && g in v.levels[level + 1] && g !in inputs1
    ensures Precedes(f, g) || Precedes(g, f)
  {
    assert f.First() in f.entries && f.Last() in f.entries;
    assert f.First() in FileEntries(outputs) && f.Last() in FileEntries(outputs);
    UnchosenStandsClear(v, level, inputs0, inputs1, g);
  }

  lemma ReplaceKeepsRecency(v: Version, v': Version, level: nat, inputs0: seq<File>, inputs1: seq<File>,
                            outputs: seq<File>)
    requires Recency(v) && Selected(v, level, inputs0, inputs1)
    requires Replaced(v, v', level, inputs0, inputs1, outputs)
    requires FileEntries(outputs) <= FileEntries(inputs0) + FileEntries(inputs1)
    requires MoreRecent(Unchosen(v.levels[level], inputs0), FileEntries(outputs))
    ensures Recency(v')
  {
    forall l, m, a, b | 0 <= l < m < NUM_LEVELS && a in FileEntries(v'.levels[l]) && b in FileEntries(v'.levels[m])
      && a.user == b.user
      ensures a.sn > b.sn
    {
      var la := CameFrom(v, v', level, inputs0, inputs1, outputs, l, a);
      var lb := CameFrom(v, v', level, inputs0, inputs1, outputs, m, b);
      if la < lb {
        assert MoreRecent(FileEntries(v.levels[la]), FileEntries(v.levels[lb]));
      }
    }
  }

  /** Where an entry of the new version was before: at its own level or, for an output, one up. */
  lemma CameFrom(v: Version, v': Version, level: nat, inputs0: seq<File>, inputs1: seq<File>, outputs: seq<File>,
                 l: nat, e: Entry) returns (was: nat)
    requires Selected(v, level, inputs0, inputs1) && Replaced(v, v', level, inputs0, inputs1, outputs)
    requires FileEntries(outputs) <= FileEntries(inputs0) + FileEntries(inputs1)
    requires l < NUM_LEVELS && e in FileEntries(v'.levels[l])
    ensures was < NUM_LEVELS && e in FileEntries(v.levels[was])
    ensures was == l || (l == level + 1 && was == level && e in FileEntries(outputs))
    ensures l == level ==> e in Unchosen(v.levels[level], inputs0)
  {
    var f :| f in v'.levels[l] && e in f.entries;
    if l == level + 1 && f in outputs {
      assert e in FileEntries(outputs);
      if e in FileEntries(inputs0) {
        var g :| g in inputs0 && e in g.entries;
        was := level;
      } else {
        var g :| g in inputs1 && e in g.entries;
        was := l;
      }
    } else {
      was := l;
    }
  }

  // ---------- When moving files down is safe ----------

  /** No file left behind starts with the user key on which a taken file before it ends. */
  ghost predicate NoSplitKey(files: seq<File>, chosen: seq<File>) {
    forall f, g :: f in chosen && g in files && g !in chosen && Precedes(f, g) ==> Start(g) != Limit(f)
  }

  /** In a disjoint level, taking files away leaves nothing older of their keys exactly when no
      user key is split across the boundary of a taken and a remaining file. */
  lemma NothingOlderIffNoSplit(files: seq<File>, chosen: seq<File>)
    requires DisjointFiles(files) && forall f :: f in chosen ==> f in files
    ensures MoreRecent(Unchosen(files, chosen), FileEntries(chosen)) <==> NoSplitKey(files, chosen)
  {
    if MoreRecent(Unchosen(files, chosen), FileEntries(chosen)) {
      forall f, g | f in chosen && g in files && g !in chosen && Precedes(f, g) ensures Start(g) != Limit(f) {
        assert g.First() in g.entries && f.Last() in f.entries;
        assert g.First() in Unchosen(files, chosen) && f.Last() in FileEntries(chosen);
      }
    }
    if NoSplitKey(files, chosen) {
      forall a, b | a in Unchosen(files, chosen) && b in FileEntries(chosen) && a.user == b.user ensures a.sn > b.sn {
        var g :| g in files && g !in chosen && a in g.entries;
        var f :| f in chosen && b in f.entries;
        UserRange(g, a); UserRange(f, b);
        assert Precedes(f, g) ==> Start(g) != Limit(f);
        if Precedes(g, f) { PrecedesEntries(g, f, a, b); }
      }
    }
  }

  /** At level 0 the selection takes every overlapping file, so nothing of a key is left. */
  lemma LevelZeroLeavesNothing(v: Version, inputs0: seq<File>, inputs1: seq<File>)
    requires Selected(v, 0, inputs0, inputs1)
    ensures MoreRecent(Unchosen(v.levels[0], inputs0), FileEntries(inputs0))
  {
    forall a, b | a in Unchosen(v.levels[0], inputs0) && b in FileEntries(inputs0) ensures a.user != b.user {
      var g :| g in v.levels[0] && g !in inputs0 && a in g.entries;
      var f :| f in inputs0 && b in f.entries;
      UserRange(g, a); UserRange(f, b);
      assert f in Elements(inputs0) && (a.user == b.user ==> Meet(f, g));
    }
  }

  /** A trivial move: one file, meeting nothing at the next level, moves down unchanged. It keeps
      the contents, and it keeps the invariant if and only if the level's next file does not
      start with the user key on which the moved file ends. */
  lemma TrivialMoveSafeIff(v: Version, v': Version, level: nat, f: File)
    requires Inv(v) && 0 < level && Selected(v, level, [f], []) && Replaced(v, v', level, [f], [], [f])
    ensures Contents(v') == Contents(v)
    ensures Inv(v') <==> NoSplitKey(v.levels[level], [f])
  {
    MoveKeepsContents(v, v', level, f);
    NothingOlderIffNoSplit(v.levels[level], [f]);
    MoveKeepsNumbers(v, v', level, f);
    ReplaceKeepsInv(v, v', level, [f], [], [f]);
  }

  lemma StillThere(v: Version, v': Version, level: nat, f: File, l: nat, g: File)
    requires Replaced(v, v', level, [f], [], [f]) && l < NUM_LEVELS && g in v'.levels[l]
    ensures if g == f && l == level + 1 then true else g in v.levels[l] && (l == level ==> g != f)
  {
    if l == level + 1 { assert g in v.levels[level + 1] || g in [f]; }
    if l == level { assert g !in [f]; }
  }

  lemma MoveKeepsNumbers(v: Version, v': Version, level: nat, f: File)
    requires UniqueNumbers(v) && Selected(v, level, [f], []) && Replaced(v, v', level, [f], [], [f])
    ensures UniqueNumbers(v')
  {
    assert f in [f];
    forall l, m, g, h | 0 <= l < NUM_LEVELS && 0 <= m < NUM_LEVELS && g in v'.levels[l] && h in v'.levels[m]
      && g.number == h.number
      ensures l == m && g == h
    {
      StillThere(v, v', level, f, l, g);
      StillThere(v, v', level, f, m, h);
    }
  }

  lemma MoveKeepsContents(v: Version, v': Version, level: nat, f: File)
    requires Selected(v, level, [f], []) && Replaced(v, v', level, [f], [], [f])
    ensures Contents(v') == Contents(v)
  {
    assert f in [f];
    forall e | e in Contents(v) ensures e in Contents(v') {
      var l :| 0 <= l < NUM_LEVELS && e in FileEntries(v.levels[l]);
      var g :| g in v.levels[l] && e in g.entries;
      if g == f {
        assert e in FileEntries(v'.levels[level + 1]);
      } else {
        assert g !in [f] && g !in [];
        assert e in FileEntries(v'.levels[l]);
      }
    }
    forall e | e in Contents(v') ensures e in Contents(v) {
      var l :| 0 <= l < NUM_LEVELS && e in FileEntries(v'.levels[l]);
      var was := CameFrom(v, v', level, [f], [], [f], l, e);
    }
  }
}
