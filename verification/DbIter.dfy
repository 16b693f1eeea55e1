/** DBIter: from the merged internal entries to the user keys visible at one snapshot. */
module DbIter {
  import opened DbFormat
  import opened Versions
  import opened Iterators
  import opened Merger

  // ---------- The view a snapshot has of the entries ----------

  /** Entry `i` is the newest one of its key that the snapshot sees, and not a tombstone. */
  ghost predicate Shown(es: seq<Entry>, s: SequenceNumber, i: nat) {
    && i < |es| && es[i].sn <= s && es[i].kind.Put?
    && forall j :: 0 <= j < i && es[j].user == es[i].user ==> es[j].sn > s
  }

  /** The shown entries among the first `n`. */
  ghost function View(es: seq<Entry>, s: SequenceNumber, n: nat): seq<Entry>
    requires n <= |es|
  {
    if n == 0 then [] else View(es, s, n - 1) + (if Shown(es, s, n - 1) then [es[n - 1]] else [])
  }

  /** Nothing is shown from `a` up to, but not including, `b`. */
  ghost predicate Gap(es: seq<Entry>, s: SequenceNumber, a: int, b: int) {
    forall i :: 0 <= i && a <= i < b ==> !Shown(es, s, i)
  }

  lemma {:induction false} ViewGap(es: seq<Entry>, s: SequenceNumber, a: nat, b: nat)
    requires a <= b <= |es| && Gap(es, s, a, b)
    ensures View(es, s, b) == View(es, s, a)
  {
    if a < b { ViewGap(es, s, a, b - 1); }
  }

  lemma {:induction false} ViewPrefix(es: seq<Entry>, s: SequenceNumber, a: nat, b: nat)
    requires a <= b <= |es|
    ensures View(es, s, a) <= View(es, s, b)
  {
    if a < b { ViewPrefix(es, s, a, b - 1); }
  }

  lemma ViewAt(es: seq<Entry>, s: SequenceNumber, c: nat)
    requires Shown(es, s, c)
    ensures |View(es, s, c)| < |View(es, s, |es|)| && View(es, s, |es|)[|View(es, s, c)|] == es[c]
    ensures |View(es, s, c + 1)| == |View(es, s, c)| + 1
  {
    ViewPrefix(es, s, c + 1, |es|);
  }

  /** What the view holds: the snapshot's answer for each key, once, in key order. */
  lemma {:induction false} ViewIsRead(es: seq<Entry>, s: SequenceNumber, k: UserKey)
    requires Sorted(es)
    ensures forall i, j :: 0 <= i < j < |View(es, s, |es|)| ==> View(es, s, |es|)[i].user < View(es, s, |es|)[j].user
    ensures Read(Elements(es), k, s).Some? <==> exists e :: e in View(es, s, |es|) && e.user == k
    ensures forall e :: e in View(es, s, |es|) ==> Read(Elements(es), e.user, s) == Some(e.value)
  {
    ViewSorted(es, s, |es|);
    ViewMembers(es, s, |es|);
    EsUnique(es);
    forall e | e in View(es, s, |es|) ensures Read(Elements(es), e.user, s) == Some(e.value) {
      var i :| 0 <= i < |es| && es[i] == e && Shown(es, s, i);
      ShownIsNewest(es, s, i);
      ReadIs(Elements(es), e.user, s, e);
    }
    if Read(Elements(es), k, s).Some? {
      NewestExists(Elements(es), k, s);
      var e :| Newest(Elements(es), k, s, e);
      ReadIs(Elements(es), k, s, e);
      var i :| 0 <= i < |es| && es[i] == e;
      forall j | 0 <= j < i && es[j].user == e.user ensures es[j].sn > s { assert es[j] in Elements(es); }
      assert Shown(es, s, i);
    }
  }

  lemma EsUnique(es: seq<Entry>)
    requires Sorted(es)
    ensures SeqUnique(Elements(es))
  {}

  lemma ShownIsNewest(es: seq<Entry>, s: SequenceNumber, i: nat)
    requires Sorted(es) && Shown(es, s, i)
    ensures Newest(Elements(es), es[i].user, s, es[i])
  {}

  lemma {:induction false} ViewMembers(es: seq<Entry>, s: SequenceNumber, n: nat)
    requires n <= |es|
    ensures forall e :: e in View(es, s, n) <==> exists i :: 0 <= i < n && es[i] == e && Shown(es, s, i)
  {
    if n > 0 { ViewMembers(es, s, n - 1); }
  }

  lemma {:induction false} ViewSorted(es: seq<Entry>, s: SequenceNumber, n: nat)
    requires n <= |es| && Sorted(es)
    ensures forall i, j :: 0 <= i < j < |View(es, s, n)| ==> View(es, s, n)[i].user < View(es, s, n)[j].user
  {
    if n > 0 {
      ViewSorted(es, s, n - 1);
      ViewMembers(es, s, n - 1);
      var v := View(es, s, n - 1);
      if Shown(es, s, n - 1) {
        forall i | 0 <= i < |v| ensures v[i].user < es[n - 1].user {
          assert v[i] in v;
        }
      }
    }
  }

  /** First position in the view whose user key is at least `target`. */
  ghost function SeekUser(view: seq<Entry>, target: UserKey): (r: nat)
    ensures r <= |view|
    ensures forall i :: 0 <= i < r ==> view[i].user < target
    ensures r < |view| ==> view[r].user >= target
  {
    if view == [] || view[0].user >= target then 0 else 1 + SeekUser(view[1..], target)
  }

  // ---------- The iterator ----------

  class DBIter {
    const iter: MergingIterator
    const sequence: SequenceNumber
    var direction: Direction
    var valid: bool
    /** None stands for a cleared saved_key_. */
    var savedKey: Option<UserKey>
    var savedValue: Value
    /** Position in the internal entries of the entry being shown. */
    ghost var shown: nat

    constructor (iter: MergingIterator, sequence: SequenceNumber)
      requires iter.Valid()
      ensures Valid() && !valid && this.iter == iter && this.sequence == sequence
    {
      this.iter, this.sequence := iter, sequence;
      direction, valid, savedKey, savedValue := Forward, false, None, "";
      shown := 0;
    }

    /** The internal position when moving in reverse; an invalid iterator is before everything. */
    ghost function Back(): int
      reads this, iter
    {
      if iter.Index() < |iter.merged| then iter.Index() else -1
    }

    ghost predicate Valid()
      reads this, iter
    {
      iter.Valid() && Placed(iter.merged, iter.Index(), Back())
    }

    /** Where the internal iterator stands relative to the entry being shown. */
    ghost predicate Placed(es: seq<Entry>, p: nat, back: int)
      reads this
    {
      && Sorted(es)
      && (valid ==> Shown(es, sequence, shown))
      && (valid && direction.Forward? ==> p == shown)
      && (valid && direction.Reverse? ==>
            && savedKey == Some(es[shown].user) && savedValue == es[shown].value
            && BackedUp(es, sequence, back, shown))
    }

    /** The position in the view. */
    ghost function Abs(): Cursor
      requires Valid()
      reads this, iter
      ensures valid <==> Abs().Valid()
    {
      var es := iter.merged;
      var view := View(es, sequence, |es|);
      if valid then
        ViewAt(es, sequence, shown);
        Cursor(view, |View(es, sequence, shown)|)
      else
        Cursor(view, |view|)
    }

    function Key(): UserKey
      requires Valid() && valid
      reads this, iter
      ensures Abs().Valid() && Key() == Abs().Current().user
    {
      ViewAt(iter.merged, sequence, shown);
      if direction.Forward? then iter.Current().user else savedKey.value
    }

    function CurrentValue(): Value
      requires Valid() && valid
      reads this, iter
      ensures Abs().Valid() && CurrentValue() == Abs().Current().value
    {
      ViewAt(iter.merged, sequence, shown);
      if direction.Forward? then iter.Current().value else savedValue
    }

    /** FindNextUserEntry stops at the first entry shown at or after `from`. */
    method FindNextUserEntry(skip0: bool, key0: Option<UserKey>, ghost from: nat)
      requires iter.Valid() && Sorted(iter.merged) && iter.IsValid() && direction.Forward?
      requires skip0 ==> key0.Some?
      requires ScanFrom(iter.merged, sequence, iter.Index(), from, skip0, key0)
      modifies this, iter
      ensures Valid() && direction.Forward?
      ensures if valid then from <= shown && Gap(iter.merged, sequence, from, shown)
              else Gap(iter.merged, sequence, from, |iter.merged|)
    {
      var skipping, skip, stop := skip0, key0, false;
      ghost var es := iter.merged;
      while iter.IsValid() && !stop
        invariant iter.Valid() && direction.Forward? && (skipping ==> skip.Some?)
        invariant if stop then FoundAt(es, iter.Index(), from)
                  else ScanFrom(es, sequence, iter.Index(), from, skipping, skip)
        decreases !stop, |es| - iter.Index()
      {
        skipping, skip, stop := StepForth(skipping, skip, from);
      }
      valid, savedKey, shown := stop, None, iter.Index();
    }

    /** The scan has reached the next shown entry. */
    ghost predicate FoundAt(es: seq<Entry>, p: nat, from: nat)
      reads this
    {
      from <= p < |es| && Shown(es, sequence, p) && Gap(es, sequence, from, p)
    }

    /** One entry of the forward scan. */
    method StepForth(skipping: bool, skip: Option<UserKey>, ghost from: nat)
      returns (skipping': bool, skip': Option<UserKey>, stop: bool)
      requires iter.Valid() && Sorted(iter.merged) && iter.IsValid() && (skipping ==> skip.Some?)
      requires ScanFrom(iter.merged, sequence, iter.Index(), from, skipping, skip)
      modifies iter
      ensures iter.Valid() && (skipping' ==> skip'.Some?)
      ensures if stop then FoundAt(iter.merged, iter.Index(), from)
              else ScanFrom(iter.merged, sequence, iter.Index(), from, skipping', skip')
      ensures stop || iter.Index() > old(iter.Index())
    {
      var ikey := iter.Current();
      ScanStep(iter.merged, sequence, iter.Index(), from, skipping, skip);
      skipping', skip', stop := skipping, skip, false;
      if ikey.sn <= sequence {
        if ikey.kind.Deletion? {
          skip', skipping' := Some(ikey.user), true;
        } else if skipping && ikey.user <= skip.value {
          // Entry hidden.
        } else {
          stop := true;
          return;
        }
      }
      iter.Next();
    }

    method Next()
      requires Valid() && valid
      modifies this, iter
      ensures Valid() && Abs() == old(Abs()).Next()
    {
      ghost var was, from := shown, shown + 1;
      LeaveCurrent(from);
      FindNextUserEntry(true, savedKey, from);
      NextShown(iter.merged, sequence, was, shown, valid, from);
    }

    /** Next's first half: face forward, with the entries of the current user key still to be skipped. */
    method LeaveCurrent(ghost from: nat)
      requires Valid() && valid && from == shown + 1
      modifies this`direction, this`savedKey, iter
      ensures iter.Valid() && Sorted(iter.merged) && iter.IsValid() && direction.Forward? && savedKey.Some?
      ensures ScanFrom(iter.merged, sequence, iter.Index(), from, true, savedKey)
    {
      if direction.Reverse? {
        ghost var back := Back();
        direction := Forward;
        if !iter.IsValid() {
          iter.SeekToFirst();
        } else {
          iter.Next();
        }
        // The entries of the saved key lie ahead, so the internal iterator is valid here.
        ScanAfterReverse(iter.merged, sequence, back, shown, iter.Index(), from);
      } else {
        ScanAfterForward(iter.merged, sequence, shown, from);
        savedKey := Some(iter.Current().user);
      }
    }

    method SeekToFirst()
      requires Valid()
      modifies this, iter
      ensures Valid() && Abs() == old(Abs()).SeekToFirst()
    {
      direction, savedValue := Forward, "";
      iter.SeekToFirst();
      if iter.IsValid() {
        FindNextUserEntry(false, savedKey, 0);
      } else {
        valid := false;
      }
      FirstShown(iter.merged, sequence, shown, valid);
    }

    method Seek(target: UserKey)
      requires Valid()
      modifies this, iter
      ensures Valid() && Abs() == Cursor(old(Abs()).entries, SeekUser(old(Abs()).entries, target))
    {
      direction, savedValue, savedKey := Forward, "", None;
      iter.Seek(LookupKey(target, sequence));
      ghost var from := iter.Index();
      SeekScan(iter.merged, sequence, from, target);
      if iter.IsValid() {
        FindNextUserEntry(false, savedKey, from);
      } else {
        valid := false;
      }
      SeekShown(iter.merged, sequence, from, shown, valid, target);
    }

    /** FindPrevUserEntry stops at the last entry shown at or before the internal position. */
    method FindPrevUserEntry()
      requires iter.Valid() && Sorted(iter.merged) && direction.Reverse?
      modifies this, iter
      ensures Valid()
      ensures if valid then shown <= old(Back()) && Gap(iter.merged, sequence, shown + 1, old(Back()) + 1)
              else Gap(iter.merged, sequence, 0, old(Back()) + 1)
    {
      var valueType, stop := Deletion, false;
      ghost var es, p := iter.merged, Back();
      ghost var c: nat := 0;
      while iter.IsValid() && !stop
        invariant iter.Valid() && direction.Reverse? && Looking(es, Back(), valueType, c, p)
        invariant stop ==> valueType.Put? && 0 <= Back() && es[Back()].user < es[c].user
        decreases !stop, Back()
      {
        valueType, c, stop := StepBack(valueType, c, p);
      }
      Conclude(valueType, c, p);
    }

    /** The end of the reverse scan: show what was saved, if anything. */
    method Conclude(valueType: ValueType, ghost c: nat, ghost p: int)
      requires iter.Valid() && direction.Reverse? && Looking(iter.merged, Back(), valueType, c, p)
      requires valueType.Put? && Back() >= 0 ==> iter.merged[Back()].user < iter.merged[c].user
      requires valueType.Deletion? ==> Back() == -1
      modifies this
      ensures Valid()
      ensures if valid then shown <= p && Gap(iter.merged, sequence, shown + 1, p + 1)
              else Gap(iter.merged, sequence, 0, p + 1)
    {
      if valueType.Deletion? {
        valid, savedKey, savedValue, direction := false, None, "", Forward;
      } else {
        CandidateShown(iter.merged, sequence, Back(), c, p);
        valid, shown := true, c;
      }
    }

    /** A reverse scan that started at `p` and stands at `back`: what it has saved so far. */
    ghost predicate Looking(es: seq<Entry>, back: int, valueType: ValueType, c: nat, p: int)
      reads this
    {
      && Sorted(es) && -1 <= back <= p < |es|
      && (valueType.Deletion? ==> Gap(es, sequence, back + 1, p + 1))
      && (valueType.Put? ==>
            Candidate(es, sequence, back, c, p) && savedKey == Some(es[c].user) && savedValue == es[c].value)
    }

    /** One entry of the reverse scan. */
    method StepBack(valueType: ValueType, ghost c: nat, ghost p: int)
      returns (valueType': ValueType, ghost c': nat, stop: bool)
      requires iter.Valid() && iter.IsValid() && direction.Reverse? && Looking(iter.merged, Back(), valueType, c, p)
      modifies this`savedKey, this`savedValue, iter
      ensures iter.Valid() && Looking(iter.merged, Back(), valueType', c', p)
      ensures stop ==> valueType'.Put? && 0 <= Back() && iter.merged[Back()].user < iter.merged[c'].user
      ensures !stop ==> Back() < old(Back())
    {
      ghost var i := iter.Index();
      valueType', c', stop := Weigh(iter.Current(), valueType, i, c, p, iter.merged);
      if !stop {
        iter.Prev();
        assert Back() + 1 == i;
      }
    }

    /** Save the entry, forget what was saved, or stop. */
    method Weigh(ikey: Entry, valueType: ValueType, ghost i: nat, ghost c: nat, ghost p: int, ghost es: seq<Entry>)
      returns (valueType': ValueType, ghost c': nat, stop: bool)
      requires Looking(es, i, valueType, c, p) && es[i] == ikey
      modifies this`savedKey, this`savedValue
      ensures if stop then valueType'.Put? && Looking(es, i, valueType', c', p) && es[i].user < es[c'].user
              else Looking(es, i - 1, valueType', c', p)
    {
      BackStep(es, sequence, i, c, p, valueType.Put?);
      valueType', c', stop := valueType, c, false;
      if ikey.sn <= sequence {
        if valueType.Put? && ikey.user < savedKey.value {
          stop := true;
          return;
        }
        valueType' := ikey.kind;
        if valueType'.Deletion? {
          savedKey, savedValue := None, "";
        } else {
          savedKey, savedValue := Some(ikey.user), ikey.value;
          c' := i;
        }
      }
    }

    method Prev()
      requires Valid() && valid
      modifies this, iter
      ensures Valid() && Abs() == old(Abs()).Prev()
    {
      ghost var was := shown;
      if direction.Forward? {
        var more := BackOff();
        if !more {
          PrevShown(iter.merged, sequence, was, 0, false);
          return;
        }
      }
      assert BackedUp(iter.merged, sequence, Back(), was);
      FindPrevUserEntry();
      PrevShown(iter.merged, sequence, was, shown, valid);
    }

    /** Prev's first half when moving forward: back up to before the entries of the current user key. */
    method BackOff() returns (more: bool)
      requires Valid() && valid && direction.Forward?
      modifies this, iter
      ensures iter.Valid() && shown == old(shown)
      ensures more ==> direction.Reverse? && BackedUp(iter.merged, sequence, Back(), shown)
      ensures !more ==> !valid && Gap(iter.merged, sequence, 0, shown)
    {
      savedKey := Some(iter.Current().user);
      more := SkipBack(savedKey.value, shown);
      NothingNewer(iter.merged, sequence, Back(), shown);
      if more {
        direction := Reverse;
      } else {
        valid, savedKey, savedValue := false, None, "";
      }
    }

    /** Back over the entries of user key `k`, of which entry `was` is one. */
    method SkipBack(k: UserKey, ghost was: nat) returns (more: bool)
      requires iter.Valid() && Sorted(iter.merged) && iter.IsValid() && iter.Index() == was
        && iter.merged[was].user == k
      modifies iter
      ensures iter.Valid() && more == iter.IsValid() && Back() < was && OneKey(iter.merged, Back() + 1, was)
      ensures more ==> iter.merged[Back()].user < k
    {
      ghost var es := iter.merged;
      more := true;
      while more && iter.Current().user >= k
        invariant iter.Valid() && more == iter.IsValid() && Back() <= was < |es| && OneKey(es, Back() + 1, was)
        invariant Back() == was ==> more
        decreases Back()
      {
        SameKeyToo(es, iter.Index(), was);
        iter.Prev();
        more := iter.IsValid();
      }
    }

    method SeekToLast()
      requires Valid()
      modifies this, iter
      ensures Valid() && Abs() == old(Abs()).SeekToLast()
    {
      direction, savedValue := Reverse, "";
      iter.SeekToLast();
      FindPrevUserEntry();
      LastShown(iter.merged, sequence, shown, valid);
    }
  }

  // ---------- Whole programs ----------

  datatype Op = ToFirst | ToLast | To(target: UserKey) | Forth | Back

  /** A cursor over the view. Next and Prev are only called when the cursor is valid. */
  ghost function Do(c: Cursor, op: Op): Cursor {
    match op
    case ToFirst => c.SeekToFirst()
    case ToLast => c.SeekToLast()
    case To(k) => Cursor(c.entries, SeekUser(c.entries, k))
    case Forth => if c.Valid() then c.Next() else c
    case Back => if c.Valid() then c.Prev() else c
  }

  ghost function Observed(c: Cursor): Option<(UserKey, Value)> {
    if c.Valid() then Some((c.Current().user, c.Current().value)) else None
  }

  /** What a program of iterator calls observes after each call. */
  ghost function Trace(c: Cursor, ops: seq<Op>): seq<Option<(UserKey, Value)>>
    decreases |ops|
  {
    if ops == [] then [] else [Observed(Do(c, ops[0]))] + Trace(Do(c, ops[0]), ops[1..])
  }

  /** Every program, through any number of direction changes, observes exactly what a cursor over
      the snapshot's view of the merged lists observes. */
  method RunProgram(lists: seq<seq<Entry>>, s: SequenceNumber, ops: seq<Op>)
    returns (seen: seq<Option<(UserKey, Value)>>)
    requires Mergeable(lists)
    ensures seen == Trace(AtEnd(MergeAll(lists), s), ops)
  {
    var merging := new MergingIterator(lists);
    var it := new DBIter(merging, s);
    ghost var start := it.Abs();
    seen := [];
    for i := 0 to |ops|
      invariant fresh(it) && fresh(it.iter) && it.Valid()
      invariant Trace(start, ops) == seen + Trace(it.Abs(), ops[i..])
    {
      TraceNext(it.Abs(), ops, i, i + 1, seen);
      var now := RunOne(it, ops[i]);
      seen := seen + [now];
    }
  }

  /** A cursor over the view that is not on any entry yet. */
  ghost function AtEnd(es: seq<Entry>, s: SequenceNumber): Cursor { Cursor(View(es, s, |es|), |View(es, s, |es|)|) }

  lemma TraceNext(c: Cursor, ops: seq<Op>, i: nat, n: nat, seen: seq<Option<(UserKey, Value)>>)
    requires i < |ops| && n == i + 1
    ensures seen + Trace(c, ops[i..]) == (seen + [Observed(Do(c, ops[i]))]) + Trace(Do(c, ops[i]), ops[n..])
  {
    assert ops[i..][0] == ops[i] && ops[i..][1..] == ops[n..];
  }

  method RunOne(it: DBIter, op: Op) returns (now: Option<(UserKey, Value)>)
    requires it.Valid()
    modifies it, it.iter
    ensures it.Valid() && it.Abs() == Do(old(it.Abs()), op) && now == Observed(it.Abs())
  {
    match op {
      case ToFirst => it.SeekToFirst();
      case ToLast => it.SeekToLast();
      case To(k) => it.Seek(k);
      case Forth => if it.valid { it.Next(); }
      case Back => if it.valid { it.Prev(); }
    }
    now := if it.valid then Some((it.Key(), it.CurrentValue())) else None;
  }

  // ---------- What the scans rely on ----------

  /** A forward scan at `p`: nothing shown was passed, and the skip key hides exactly what the
      entries already passed hide. */
  ghost predicate ScanFrom(es: seq<Entry>, s: SequenceNumber, p: nat, from: nat, skipping: bool, skip: Option<UserKey>)
    {
    && Gap(es, s, from, p)
    && (forall j :: p <= j < from && j < |es| ==>
          es[j].sn > s || (es[j].kind.Put? && skipping && skip.Some? && es[j].user <= skip.value))
    && (forall i, j :: 0 <= i < p <= j < |es| && es[i].user == es[j].user && es[i].sn <= s
          ==> skipping && skip.Some? && es[j].user <= skip.value)
    && (skipping && skip.Some? ==>
          forall j :: p <= j < |es| && from <= j && es[j].user <= skip.value ==> !Shown(es, s, j))
  }

  /** Everything between `back` and `shown` is invisible, and `back` is at a smaller user key. */
  ghost predicate BackedUp(es: seq<Entry>, s: SequenceNumber, back: int, shown: nat) {
    && -1 <= back < shown < |es|
    && (forall j :: back < j < shown ==> es[j].sn > s)
    && (back >= 0 ==> es[back].user < es[shown].user)
  }

  /** The entries from `a` to `b` are of one user key. */
  ghost predicate OneKey(es: seq<Entry>, a: int, b: nat)
    requires b < |es|
  {
    forall j :: 0 <= j && a <= j <= b ==> es[j].user == es[b].user
  }

  lemma SameKeyToo(es: seq<Entry>, p: nat, was: nat)
    requires Sorted(es) && p <= was < |es| && OneKey(es, p + 1, was) && es[p].user >= es[was].user
    ensures OneKey(es, p, was)
  {
    if p < was { assert Ordered(es[p], es[was]); }
  }

  /** The entries of the shown key before it are too new to see. */
  lemma NothingNewer(es: seq<Entry>, s: SequenceNumber, back: int, was: nat)
    requires Sorted(es) && Shown(es, s, was) && -1 <= back <= was && OneKey(es, back + 1, was)
    ensures back >= 0 && es[back].user < es[was].user ==> BackedUp(es, s, back, was)
    ensures back == -1 ==> Gap(es, s, 0, was)
  {}

  /** A reverse scan at `back` started from `p`: `c` is the best entry seen. */
  ghost predicate Candidate(es: seq<Entry>, s: SequenceNumber, back: int, c: nat, p: int) {
    && back < c <= p < |es| && es[c].sn <= s && es[c].kind.Put?
    && (forall j :: 0 <= j && back < j < c ==> es[j].sn > s)
    && Gap(es, s, c + 1, p + 1)
  }

  /** One entry of a forward scan: stop at it, or carry the scan past it. */
  lemma ScanStep(es: seq<Entry>, s: SequenceNumber, p: nat, from: nat, skipping: bool, skip: Option<UserKey>)
    requires Sorted(es) && p < |es| && (skipping ==> skip.Some?) && ScanFrom(es, s, p, from, skipping, skip)
    ensures if es[p].sn <= s && es[p].kind.Deletion? then ScanFrom(es, s, p + 1, from, true, Some(es[p].user))
            else if es[p].sn <= s && !(skipping && es[p].user <= skip.value) then
              from <= p && Shown(es, s, p) && Gap(es, s, from, p)
            else ScanFrom(es, s, p + 1, from, skipping, skip)
  {
    if es[p].sn <= s && es[p].kind.Deletion? {
      TombstoneStep(es, s, p, from, skipping, skip);
    } else if es[p].sn <= s && !(skipping && es[p].user <= skip.value) {
    } else {
      assert !(Shown(es, s, p) && from <= p);
    }
  }

  lemma TombstoneStep(es: seq<Entry>, s: SequenceNumber, p: nat, from: nat, skipping: bool, skip: Option<UserKey>)
    requires Sorted(es) && p < |es| && (skipping ==> skip.Some?) && ScanFrom(es, s, p, from, skipping, skip)
    requires es[p].sn <= s && es[p].kind.Deletion?
    ensures ScanFrom(es, s, p + 1, from, true, Some(es[p].user))
  {
    assert from <= p;
    forall i, j | 0 <= i < p + 1 <= j < |es| && es[i].user == es[j].user ensures es[j].user <= es[p].user {
      assert Ordered(es[p], es[j]);
      if i < p { assert Ordered(es[i], es[p]); }
    }
    forall j | p + 1 <= j < |es| && es[j].user <= es[p].user ensures !Shown(es, s, j) {
      assert Ordered(es[p], es[j]);
    }
  }

  lemma ScanAfterForward(es: seq<Entry>, s: SequenceNumber, was: nat, from: nat)
    requires Sorted(es) && Shown(es, s, was) && from == was + 1
    ensures ScanFrom(es, s, was, from, true, Some(es[was].user))
  {
    forall i, j | 0 <= i < was <= j < |es| ensures es[i].user == es[j].user ==> es[i].sn > s {
      assert Ordered(es[i], es[was]);
      if was < j { assert Ordered(es[was], es[j]); }
    }
    forall j | was < j < |es| && es[j].user <= es[was].user ensures !Shown(es, s, j) {
      assert Ordered(es[was], es[j]);
    }
  }

  lemma ScanAfterReverse(es: seq<Entry>, s: SequenceNumber, back: int, was: nat, p: nat, from: nat)
    requires Sorted(es) && Shown(es, s, was) && BackedUp(es, s, back, was) && p == back + 1 && from == was + 1
    ensures ScanFrom(es, s, p, from, true, Some(es[was].user))
  {
    forall i, j | 0 <= i < back + 1 <= j < |es| && es[i].user == es[j].user ensures es[j].user <= es[was].user {
      if i < back { assert Ordered(es[i], es[back]); }
    }
    forall j | was < j < |es| && es[j].user <= es[was].user ensures !Shown(es, s, j) {
      assert Ordered(es[was], es[j]);
    }
  }

  /** One entry of a reverse scan. */
  lemma BackStep(es: seq<Entry>, s: SequenceNumber, i: nat, c: nat, p: int, found: bool)
    requires Sorted(es) && i <= p < |es|
    requires if found then Candidate(es, s, i, c, p) else Gap(es, s, i + 1, p + 1)
    ensures es[i].sn > s ==> if found then Candidate(es, s, i - 1, c, p) else Gap(es, s, i, p + 1)
    ensures found && es[i].sn <= s && es[i].user < es[c].user ==> BackedUp(es, s, i, c)
    ensures es[i].sn <= s && !(found && es[i].user < es[c].user) ==>
      if es[i].kind.Deletion? then Gap(es, s, i, p + 1) else Candidate(es, s, i - 1, i, p)
  {
    if es[i].sn <= s && !(found && es[i].user < es[c].user) {
      if found {
        assert Ordered(es[i], es[c]);
        assert !Shown(es, s, c);
      }
      assert Gap(es, s, i + 1, p + 1);
    }
  }

  /** When the scan stops, the best entry seen is shown. */
  lemma CandidateShown(es: seq<Entry>, s: SequenceNumber, back: int, c: nat, p: int)
    requires Sorted(es) && Candidate(es, s, back, c, p) && back >= -1
    requires back >= 0 ==> es[back].user < es[c].user
    ensures Shown(es, s, c) && BackedUp(es, s, back, c)
  {
    forall j | 0 <= j < c ensures es[j].user == es[c].user ==> es[j].sn > s {
      if j < back { assert Ordered(es[j], es[back]); }
    }
  }

  lemma SeekScan(es: seq<Entry>, s: SequenceNumber, p: nat, target: UserKey)
    requires Sorted(es) && p == SeekIndex(es, LookupKey(target, s))
    ensures ScanFrom(es, s, p, p, false, None)
    ensures forall i :: 0 <= i < p && Shown(es, s, i) ==> es[i].user < target
    ensures forall i :: p <= i < |es| ==> es[i].user >= target
  {
    forall i | 0 <= i < |es| ensures i < p <==> es[i].user < target || (es[i].user == target && es[i].sn > s) {
      SeekSide(es, s, p, target, i);
    }
  }

  lemma SeekSide(es: seq<Entry>, s: SequenceNumber, p: nat, target: UserKey, i: nat)
    requires Sorted(es) && p == SeekIndex(es, LookupKey(target, s)) && i < |es|
    ensures i < p <==> es[i].user < target || (es[i].user == target && es[i].sn > s)
  {
    LookupKeySplits(es[i], target, s);
    if p < |es| { LookupKeySplits(es[p], target, s); }
  }

  // ---------- From positions in the entries to positions in the view ----------

  lemma NextShown(es: seq<Entry>, s: SequenceNumber, was: nat, now: nat, valid: bool, from: nat)
    requires Shown(es, s, was) && from == was + 1
    requires if valid then from <= now && Shown(es, s, now) && Gap(es, s, from, now) else Gap(es, s, from, |es|)
    ensures |View(es, s, was)| + 1 == if valid then |View(es, s, now)| else |View(es, s, |es|)|
  {
    ViewAt(es, s, was);
    ViewGap(es, s, from, if valid then now else |es|);
  }

  lemma FirstShown(es: seq<Entry>, s: SequenceNumber, now: nat, valid: bool)
    requires if valid then Shown(es, s, now) && Gap(es, s, 0, now) else Gap(es, s, 0, |es|)
    ensures 0 == if valid then |View(es, s, now)| else |View(es, s, |es|)|
  {
    ViewGap(es, s, 0, if valid then now else |es|);
  }

  lemma PrevShown(es: seq<Entry>, s: SequenceNumber, was: nat, now: nat, valid: bool)
    requires Shown(es, s, was)
    requires if valid then now < was && Shown(es, s, now) && Gap(es, s, now + 1, was) else Gap(es, s, 0, was)
    ensures if valid then |View(es, s, now)| == |View(es, s, was)| - 1 else |View(es, s, was)| == 0
  {
    if valid {
      ViewAt(es, s, now);
      ViewGap(es, s, now + 1, was);
    } else {
      ViewGap(es, s, 0, was);
    }
  }

  lemma LastShown(es: seq<Entry>, s: SequenceNumber, now: nat, valid: bool)
    requires if valid then Shown(es, s, now) && Gap(es, s, now + 1, |es|) else Gap(es, s, 0, |es|)
    ensures if valid then |View(es, s, now)| == |View(es, s, |es|)| - 1 else View(es, s, |es|) == []
  {
    if valid {
      ViewAt(es, s, now);
      ViewGap(es, s, now + 1, |es|);
    } else {
      ViewGap(es, s, 0, |es|);
    }
  }

  lemma SeekShown(es: seq<Entry>, s: SequenceNumber, from: nat, now: nat, valid: bool, target: UserKey)
    requires Sorted(es) && from <= |es|
    requires forall i :: 0 <= i < from && Shown(es, s, i) ==> es[i].user < target
    requires forall i :: from <= i < |es| ==> es[i].user >= target
    requires if valid then from <= now && Shown(es, s, now) && Gap(es, s, from, now) else Gap(es, s, from, |es|)
    ensures SeekUser(View(es, s, |es|), target) == if valid then |View(es, s, now)| else |View(es, s, |es|)|
  {
    var view, r := View(es, s, |es|), |View(es, s, from)|;
    ViewGap(es, s, from, if valid then now else |es|);
    ViewPrefix(es, s, from, |es|);
    ViewMembers(es, s, from);
    forall i | 0 <= i < r ensures view[i].user < target {
      assert view[i] == View(es, s, from)[i];
      assert view[i] in View(es, s, from);
    }
    if valid { ViewAt(es, s, now); }
  }
}
