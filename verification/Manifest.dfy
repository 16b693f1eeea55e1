/** Version edits: applying them through a Builder, and replaying a manifest. */
module Manifest {
  import opened DbFormat
  import opened Versions

  /** A record of the manifest. Deleted files are (level, number) pairs. */
  datatype VersionEdit = VersionEdit(deleted: set<(nat, nat)>, added: seq<(nat, File)>,
                                     logNumber: Option<nat>, nextFile: Option<nat>,
                                     lastSequence: Option<nat>)

  const EMPTY: Version := Version([[], [], [], [], [], [], []])

  ghost predicate LevelsOk(edit: VersionEdit) {
    && (forall d :: d in edit.deleted ==> d.0 < NUM_LEVELS)
    && (forall i :: 0 <= i < |edit.added| ==> edit.added[i].0 < NUM_LEVELS)
  }

  /** `v'` is the version that one edit makes of `v`, every level listed in BySmallest order. */
  ghost predicate Edited(v: Version, v': Version, edit: VersionEdit) {
    && |v.levels| == |v'.levels| == NUM_LEVELS
    && (forall l :: 0 <= l < NUM_LEVELS ==> SortedFiles(v'.levels[l]))
    && (forall l, f :: 0 <= l < NUM_LEVELS ==>
          (f in v'.levels[l] <==> (f in v.levels[l] && (l, f.number) !in edit.deleted) || (l, f) in edit.added))
  }

  /** Numbers distinct within the edit, and none added where it is also deleted. */
  ghost predicate SelfConsistent(edit: VersionEdit) {
    && (forall i, j :: 0 <= i < j < |edit.added| && edit.added[i].0 == edit.added[j].0
          ==> edit.added[i].1.number != edit.added[j].1.number)
    && (forall i :: 0 <= i < |edit.added| ==> (edit.added[i].0, edit.added[i].1.number) !in edit.deleted)
  }

  /** The edit adds no file at a level where that number was added before. */
  ghost predicate AddsNew(history: seq<VersionEdit>, edit: VersionEdit) {
    forall i, j, k :: 0 <= i < |history| && 0 <= j < |history[i].added| && 0 <= k < |edit.added|
      && history[i].added[j].0 == edit.added[k].0
      ==> history[i].added[j].1.number != edit.added[k].1.number
  }

  /** Applying the edits one version at a time, from the empty version, leads to `v`. */
  ghost predicate Replays(edits: seq<VersionEdit>, v: Version) {
    if edits == [] then v == EMPTY
    else
      var n := |edits| - 1;
      && LevelsOk(edits[n]) && SelfConsistent(edits[n]) && AddsNew(edits[..n], edits[n])
      && exists v0 :: Replays(edits[..n], v0) && Edited(v0, v, edits[n])
  }

  // ---------- Sorted file lists ----------

  lemma BySmallestTransitive(a: File, b: File, c: File)
    requires BySmallest(a, b) && BySmallest(b, c)
    ensures BySmallest(a, c)
  {}

  ghost predicate NumberFree(n: nat, fs: seq<File>) { forall f :: f in fs ==> f.number != n }

  /** std::set::insert under BySmallestKey. */
  function InsertFile(f: File, fs: seq<File>): (r: seq<File>)
    requires SortedFiles(fs) && NumberFree(f.number, fs)
    ensures SortedFiles(r)
    ensures forall g :: g in r <==> g == f || g in fs
  {
    if fs == [] || BySmallest(f, fs[0]) then [f] + fs
    else
      var rest := InsertFile(f, fs[1..]);
      assert forall i :: 0 <= i < |rest| ==> rest[i] in rest;
      [fs[0]] + rest
  }

  // ---------- VersionSet::Builder ----------

  class Builder {
    const base: Version
    var deleted: seq<set<nat>>
    var added: seq<seq<File>>

    constructor (base: Version)
      requires |base.levels| == NUM_LEVELS
      ensures this.base == base && Shape()
      ensures forall l :: 0 <= l < NUM_LEVELS ==> deleted[l] == {} && added[l] == []
    {
      this.base := base;
      deleted := [{}, {}, {}, {}, {}, {}, {}];
      added := [[], [], [], [], [], [], []];
    }

    ghost predicate Shape()
      reads this
    {
      && |base.levels| == |deleted| == |added| == NUM_LEVELS
      && forall l :: 0 <= l < NUM_LEVELS ==> SortedFiles(added[l])
    }

    /** The file would be part of the version saved now. */
    ghost predicate Keeps(l: nat, f: File)
      requires Shape() && l < NUM_LEVELS
      reads this
    {
      (f in base.levels[l] || f in added[l]) && f.number !in deleted[l]
    }

    /** Builder::Apply. */
    method Apply(edit: VersionEdit)
      requires Shape() && LevelsOk(edit) && SelfConsistent(edit)
      requires forall i :: 0 <= i < |edit.added| ==> NumberFree(edit.added[i].1.number, added[edit.added[i].0])
      modifies this
      ensures Shape()
      ensures forall l, n :: 0 <= l < NUM_LEVELS ==>
        (n in deleted[l] <==> (n in old(deleted)[l] || (l, n) in edit.deleted) && !AddsNumber(edit, |edit.added|, l, n))
      ensures forall l, f :: 0 <= l < NUM_LEVELS ==> (f in added[l] <==> f in old(added)[l] || (l, f) in edit.added)
    {
      var before := deleted;
      deleted := seq(NUM_LEVELS, l requires 0 <= l < |before| => before[l] + DeletedAt(edit, l));
      ghost var deleted0 := deleted;
      for i := 0 to |edit.added|
        invariant Shape()
        invariant forall l, n :: 0 <= l < NUM_LEVELS ==>
          (n in deleted[l] <==> n in deleted0[l] && !AddsNumber(edit, i, l, n))
        invariant forall l, f :: 0 <= l < NUM_LEVELS ==>
          (f in added[l] <==> f in old(added)[l] || (l, f) in edit.added[..i])
      {
        var level, f := edit.added[i].0, edit.added[i].1;
        deleted := deleted[level := deleted[level] - {f.number}];
        forall g | g in added[level] ensures g.number != f.number {}
        added := added[level := InsertFile(f, added[level])];
        assert edit.added[..i + 1] == edit.added[..i] + [(level, f)];
      }
      assert edit.added[..|edit.added|] == edit.added;
    }

    /** Builder::SaveTo. */
    method SaveTo() returns (v: Version)
      requires Shape()
      requires forall l :: 0 <= l < NUM_LEVELS ==> SortedFiles(base.levels[l])
      requires forall l, f :: 0 <= l < NUM_LEVELS && f in added[l] ==> NumberFree(f.number, base.levels[l])
      ensures |v.levels| == NUM_LEVELS
      ensures forall l :: 0 <= l < NUM_LEVELS ==> SortedFiles(v.levels[l])
      ensures forall l, f :: 0 <= l < NUM_LEVELS ==> (f in v.levels[l] <==> Keeps(l, f))
    {
      var levels := [];
      for l := 0 to NUM_LEVELS
        invariant |levels| == l
        invariant forall m :: 0 <= m < l ==> SortedFiles(levels[m])
        invariant forall m, f :: 0 <= m < l ==> (f in levels[m] <==> Keeps(m, f))
      {
        var files := MergeLevel(base.levels[l], added[l], deleted[l]);
        levels := levels + [files];
      }
      v := Version(levels);
    }
  }

  function DeletedAt(edit: VersionEdit, l: nat): (r: set<nat>)
    ensures forall n :: n in r <==> (l, n) in edit.deleted
  {
    var r := set d | d in edit.deleted && d.0 == l :: d.1;
    assert forall n :: (l, n) in edit.deleted ==> (l, n).1 in r;
    r
  }

  ghost predicate Mentions(history: seq<VersionEdit>, l: nat, f: File) {
    exists i :: 0 <= i < |history| && (l, f) in history[i].added
  }

  ghost predicate AddsNumber(edit: VersionEdit, n: nat, l: nat, number: nat)
    requires n <= |edit.added|
  {
    exists i :: 0 <= i < n && edit.added[i].0 == l && edit.added[i].1.number == number
  }

  /** The first b base files and the first i added files have been merged into `r`. */
  ghost predicate Merged(r: seq<File>, base: seq<File>, b: nat, added: seq<File>, i: nat, deleted: set<nat>) {
    && b <= |base| && i <= |added| && SortedFiles(r)
    && (forall f :: f in r <==> (f in base[..b] || f in added[..i]) && f.number !in deleted)
    && (forall x, j :: x in r && b <= j < |base| ==> BySmallest(x, base[j]))
    && (forall x, j :: x in r && i <= j < |added| ==> BySmallest(x, added[j]))
  }

  lemma MergeBase(r: seq<File>, base: seq<File>, b: nat, added: seq<File>, i: nat, deleted: set<nat>, b': nat)
    requires SortedFiles(base) && Merged(r, base, b, added, i, deleted) && b < |base| && b' == b + 1
    requires forall j :: i <= j < |added| ==> BySmallest(base[b], added[j])
    ensures Merged(if base[b].number in deleted then r else r + [base[b]], base, b', added, i, deleted)
  {
    assert base[..b'] == base[..b] + [base[b]];
  }

  lemma MergeAdded(r: seq<File>, base: seq<File>, b: nat, added: seq<File>, i: nat, deleted: set<nat>, i': nat)
    requires SortedFiles(added) && Merged(r, base, b, added, i, deleted) && i < |added| && i' == i + 1
    requires forall j :: b <= j < |base| ==> BySmallest(added[i], base[j])
    ensures Merged(if added[i].number in deleted then r else r + [added[i]], base, b, added, i', deleted)
  {
    assert added[..i'] == added[..i] + [added[i]];
  }

  /** A base file that does not come after added[i] comes before all added files from there on. */
  lemma BaseFirst(base: seq<File>, b: nat, added: seq<File>, i: nat)
    requires SortedFiles(added) && b < |base| && i < |added| && !BySmallest(added[i], base[b])
    requires forall f :: f in added ==> NumberFree(f.number, base)
    ensures forall j :: i <= j < |added| ==> BySmallest(base[b], added[j])
  {
    assert added[i] in added && base[b] in base;
    forall j | i <= j < |added| ensures BySmallest(base[b], added[j]) {
      if i < j { BySmallestTransitive(base[b], added[i], added[j]); }
    }
  }

  /** One level of SaveTo: merge base and added files, dropping the deleted ones. */
  method MergeLevel(base: seq<File>, added: seq<File>, deleted: set<nat>) returns (r: seq<File>)
    requires SortedFiles(base) && SortedFiles(added)
    requires forall f :: f in added ==> NumberFree(f.number, base)
    ensures SortedFiles(r)
    ensures forall f :: f in r <==> (f in base || f in added) && f.number !in deleted
  {
    r := [];
    var b: nat := 0;
    for i := 0 to |added|
      invariant Merged(r, base, b, added, i, deleted)
    {
      var a := added[i];
      while b < |base| && !BySmallest(a, base[b])
        invariant Merged(r, base, b, added, i, deleted)
      {
        BaseFirst(base, b, added, i);
        MergeBase(r, base, b, added, i, deleted, b + 1);
        if base[b].number !in deleted { r := r + [base[b]]; }
        b := b + 1;
      }
      MergeAdded(r, base, b, added, i, deleted, i + 1);
      if a.number !in deleted { r := r + [a]; }
    }
    while b < |base|
      invariant Merged(r, base, b, added, |added|, deleted)
    {
      MergeBase(r, base, b, added, |added|, deleted, b + 1);
      if base[b].number !in deleted { r := r + [base[b]]; }
      b := b + 1;
    }
    assert base[..b] == base && added[..|added|] == added;
  }

  // ---------- Replaying a manifest ----------

  lemma EmptyIsListed()
    ensures forall l :: 0 <= l < NUM_LEVELS ==> EMPTY.levels[l] == []
  {}

  /** Builder sets over an empty base stand for `v`, and `history` covers every file added so far. */
  ghost predicate StandsFor(added: seq<seq<File>>, deleted: seq<set<nat>>, v: Version, history: seq<VersionEdit>) {
    && |v.levels| == |added| == |deleted| == NUM_LEVELS
    && (forall l, f :: 0 <= l < NUM_LEVELS ==> (f in v.levels[l] <==> f in added[l] && f.number !in deleted[l]))
    && (forall l, f :: 0 <= l < NUM_LEVELS && f in added[l] ==> Mentions(history, l, f))
  }

  lemma SavedIsStoodFor(added: seq<seq<File>>, deleted: seq<set<nat>>, v: Version, history: seq<VersionEdit>, l: nat,
                        files: seq<File>)
    requires StandsFor(added, deleted, v, history) && l < NUM_LEVELS
    ensures (forall f :: f in files <==> f in added[l] && f.number !in deleted[l]) ==>
      forall f :: f in files <==> f in v.levels[l]
  {}

  /** One more edit through the same builder stands for one more version. */
  lemma ApplyTracksEdit(added: seq<seq<File>>, deleted: seq<set<nat>>, added': seq<seq<File>>, deleted': seq<set<nat>>,
                        v: Version, v': Version, history: seq<VersionEdit>, edit: VersionEdit)
    requires StandsFor(added, deleted, v, history) && |added'| == |deleted'| == NUM_LEVELS
    requires LevelsOk(edit) && AddsNew(history, edit) && SelfConsistent(edit) && Edited(v, v', edit)
    requires forall l, n :: 0 <= l < NUM_LEVELS ==>
      (n in deleted'[l] <==> (n in deleted[l] || (l, n) in edit.deleted) && !AddsNumber(edit, |edit.added|, l, n))
    requires forall l, f :: 0 <= l < NUM_LEVELS ==> (f in added'[l] <==> f in added[l] || (l, f) in edit.added)
    ensures StandsFor(added', deleted', v', history + [edit])
  {
    forall l, f | 0 <= l < NUM_LEVELS && f in added'[l] ensures Mentions(history + [edit], l, f) {
      if f in added[l] {
        var i :| 0 <= i < |history| && (l, f) in history[i].added;
        assert (history + [edit])[i] == history[i];
      } else {
        assert (history + [edit])[|history|] == edit;
      }
    }
    forall l, f | 0 <= l < NUM_LEVELS ensures f in v'.levels[l] <==> f in added'[l] && f.number !in deleted'[l] {
      if (l, f) in edit.added {
        var i :| 0 <= i < |edit.added| && edit.added[i] == (l, f);
      } else if f in added[l] {
        MentionedIsNotNew(history, edit, l, f);
      }
    }
  }

  lemma MentionedIsNotNew(history: seq<VersionEdit>, edit: VersionEdit, l: nat, f: File)
    requires AddsNew(history, edit) && Mentions(history, l, f)
    ensures !AddsNumber(edit, |edit.added|, l, f.number)
  {
    var i :| 0 <= i < |history| && (l, f) in history[i].added;
    var j :| 0 <= j < |history[i].added| && history[i].added[j] == (l, f);
  }

  lemma NumbersStayFree(added: seq<seq<File>>, deleted: seq<set<nat>>, v: Version, history: seq<VersionEdit>,
                        edit: VersionEdit)
    requires StandsFor(added, deleted, v, history) && LevelsOk(edit) && AddsNew(history, edit)
    ensures forall k :: 0 <= k < |edit.added| ==> NumberFree(edit.added[k].1.number, added[edit.added[k].0])
  {
    forall k, g | 0 <= k < |edit.added| && g in added[edit.added[k].0] ensures g.number != edit.added[k].1.number {
      MentionedIsNotNew(history, edit, edit.added[k].0, g);
    }
  }

  /** The versions on the way to `v`. */
  lemma {:induction false} VersionsOnTheWay(edits: seq<VersionEdit>, v: Version) returns (vs: seq<Version>)
    requires Replays(edits, v)
    ensures |vs| == |edits| + 1 && vs[0] == EMPTY && vs[|edits|] == v
    ensures forall i :: 0 <= i < |edits| ==> Edited(vs[i], vs[i + 1], edits[i])
    ensures forall i :: 0 <= i < |edits| ==>
      LevelsOk(edits[i]) && SelfConsistent(edits[i]) && AddsNew(edits[..i], edits[i])
  {
    if edits == [] {
      vs := [v];
    } else {
      var n := |edits| - 1;
      var v0 :| Replays(edits[..n], v0) && Edited(v0, v, edits[n]);
      var init := VersionsOnTheWay(edits[..n], v0);
      vs := init + [v];
      forall i | 0 <= i < |edits|
        ensures LevelsOk(edits[i]) && SelfConsistent(edits[i]) && AddsNew(edits[..i], edits[i])
      {
        if i < n { assert edits[..n][..i] == edits[..i]; }
      }
    }
  }

  /** VersionSet::Recover's file lists: one Builder over all edits of the manifest rebuilds, file
      for file and in the same order, the version reached by applying them one at a time. */
  method RecoverVersion(edits: seq<VersionEdit>, ghost v: Version) returns (r: Version)
    requires Replays(edits, v)
    ensures r == v
  {
    ghost var vs := VersionsOnTheWay(edits, v);
    EmptyIsListed();
    var builder := new Builder(EMPTY);
    for i := 0 to |edits|
      invariant builder.base == EMPTY && fresh(builder) && builder.Shape()
      invariant StandsFor(builder.added, builder.deleted, vs[i], edits[..i])
    {
      ghost var added, deleted := builder.added, builder.deleted;
      NumbersStayFree(added, deleted, vs[i], edits[..i], edits[i]);
      builder.Apply(edits[i]);
      ApplyTracksEdit(added, deleted, builder.added, builder.deleted, vs[i], vs[i + 1], edits[..i], edits[i]);
      assert edits[..i + 1] == edits[..i] + [edits[i]];
    }
    ghost var added, deleted := builder.added, builder.deleted;
    assert edits[..|edits|] == edits;
    assert StandsFor(added, deleted, v, edits);
    r := builder.SaveTo();
    forall l | 0 <= l < NUM_LEVELS ensures r.levels[l] == v.levels[l] {
      SavedIsStoodFor(added, deleted, v, edits, l, r.levels[l]);
      assert forall f :: f in r.levels[l] <==> builder.Keeps(l, f);
      SameFilesSameList(r.levels[l], v.levels[l]);
    }
    assert r.levels == v.levels;
  }

  /** The version LogAndApply builds from the current one. */
  method ApplyEdit(v: Version, edit: VersionEdit) returns (v': Version)
    requires |v.levels| == NUM_LEVELS && forall l :: 0 <= l < NUM_LEVELS ==> SortedFiles(v.levels[l])
    requires LevelsOk(edit) && SelfConsistent(edit)
    requires forall i :: 0 <= i < |edit.added| ==> NumberFree(edit.added[i].1.number, v.levels[edit.added[i].0])
    ensures Edited(v, v', edit)
  {
    var builder := new Builder(v);
    builder.Apply(edit);
    forall l, f | 0 <= l < NUM_LEVELS && f in builder.added[l] ensures NumberFree(f.number, v.levels[l]) {
      var i :| 0 <= i < |edit.added| && edit.added[i] == (l, f);
    }
    v' := builder.SaveTo();
    forall l, f | 0 <= l < NUM_LEVELS
      ensures f in v'.levels[l] <==> (f in v.levels[l] && (l, f.number) !in edit.deleted) || (l, f) in edit.added
    {
      if (l, f) in edit.added {
        var i :| 0 <= i < |edit.added| && edit.added[i] == (l, f);
      }
    }
  }

  /** The manifest after one more edit replays to the version after that edit. */
  lemma ReplaysOneMore(edits: seq<VersionEdit>, v: Version, v': Version, edit: VersionEdit)
    requires Replays(edits, v) && Edited(v, v', edit)
    requires LevelsOk(edit) && SelfConsistent(edit) && AddsNew(edits, edit)
    ensures Replays(edits + [edit], v')
  {
    assert (edits + [edit])[..|edits|] == edits;
  }
}
