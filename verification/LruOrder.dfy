/** Least recently used: what the age-ordered list means in terms of the calls that were made. */
module LruOrder {
  import opened DbFormat
  import opened LruCache

  // ---------- One call, without recursion over the list ----------

  /** The entries in the cache or in somebody's hands. */
  ghost function Live(list: seq<nat>, held: multiset<nat>): set<nat> { Elements(list) + set x | x in held }

  lemma UsageIsLive(c: Cache)
    requires Ok(c)
    ensures Usage(c) == Total(c.info, Live(c.list, c.held), c.count)
  {
    assert c.info.Keys - Elements(c.deleted) == Live(c.list, c.held);
  }

  /** Those of a row of entries that nobody holds. */
  function Unheld(s: seq<nat>, held: multiset<nat>): seq<nat> {
    if s == [] then [] else (if s[0] in held then [] else [s[0]]) + Unheld(s[1..], held)
  }

  lemma {:induction false} FindFinds(list: seq<nat>, info: Infos, key: Key)
    ensures var r := Find(list, info, key);
            if r.Some? then r.value in list && r.value in info && info[r.value].key == key
            else forall x :: x in list && x in info ==> info[x].key != key
  {
    if list != [] && !(list[0] in info && info[list[0]].key == key) {
      FindFinds(list[1..], info, key);
      assert list == [list[0]] + list[1..];
    }
  }

  /** The cache has an entry of this key. */
  ghost predicate Hit(c: Cache, key: Key, e: nat) { e in c.list && e in c.info && c.info[e].key == key }

  ghost predicate NoHit(c: Cache, key: Key) { forall x :: x in c.list && x in c.info ==> c.info[x].key != key }

  lemma SomeHit(c: Cache, key: Key) returns (e: nat)
    requires !NoHit(c, key)
    ensures Hit(c, key, e)
  {
    e :| e in c.list && e in c.info && c.info[e].key == key;
  }

  /** A lookup that hits takes the entry from its place to the newest end, and hands it out. */
  ghost predicate MadeNewest(c: Cache, e: nat, c': Cache) {
    exists p :: At(c.list, p, e) && c' == c.(list := Cut(c.list, p) + [e], held := c.held + multiset{e})
  }

  lemma {:induction false} LookupIs(c: Cache, key: Key)
    requires Ok(c)
    ensures var c' := LookedUp(c, Find(c.list, c.info, key));
            (NoHit(c, key) ==> c' == c) && forall e: nat :: Hit(c, key, e) ==> MadeNewest(c, e, c')
  {
    var r := Find(c.list, c.info, key);
    FindFinds(c.list, c.info, key);
    forall e: nat | Hit(c, key, e) ensures MadeNewest(c, e, LookedUp(c, r)) {
      assert r == Some(e);
      var p := WithoutCuts(c.list, e);
    }
  }

  // ---------- Eviction ----------

  /** The total charge with the first `j` entries of the list gone. */
  ghost function ChargeFrom(c: Cache, j: nat): nat
    requires j <= |c.list|
  {
    Total(c.info, Live(c.list[j..], c.held), c.count)
  }

  /** Exactly the `k` oldest entries go: with fewer of them gone the charge is too high, and with all of them gone it
      is not, or nothing is left. The deleters of those that nobody holds run in that order. */
  ghost predicate OldestGone(c: Cache, k: nat, capacity: nat, c': Cache) {
    && k <= |c.list| && (forall j :: 0 <= j < k ==> ChargeFrom(c, j) > capacity)
    && (k < |c.list| ==> ChargeFrom(c, k) <= capacity)
    && c' == c.(list := c.list[k..], deleted := c.deleted + Unheld(c.list[..k], c.held))
  }

  lemma {:induction false} UnheldOne(e: nat, held: multiset<nat>)
    ensures Unheld([e], held) == if e in held then [] else [e]
  {
    assert [e][1..] == [] && Unheld([], held) == [];
  }

  /** One entry fewer on the list, deleted if nobody holds it. */
  lemma OneFewer(c: Cache, e: nat, list: seq<nat>, c': Cache)
    requires Ok(c) && e in c.list && Distinct(list) && forall y :: y in list <==> y in c.list && y != e
    requires c' == c.(list := list, deleted := c.deleted + if e in c.held then [] else [e])
    ensures Ok(c')
  {
    assert forall y :: y in c'.deleted <==> y in c.deleted || (y == e && e !in c.held);
    assert Elements(list) <= Elements(c.list);
  }

  lemma {:induction false} OneGone(c: Cache, after: Cache)
    requires Ok(c) && c.list != [] && after == Settle(c.(list := c.list[1..]), c.list[0])
    ensures Ok(after) && after.list == c.list[1..] && after.info == c.info && after.held == c.held
    ensures after.count == c.count && after.deleted == c.deleted + Unheld([c.list[0]], c.held)
  {
    var x := c.list[0];
    assert c.list == [x] + c.list[1..] && x !in c.list[1..];
    UnheldOne(x, c.held);
    assert c.deleted + [] == c.deleted;
    OneFewer(c, x, c.list[1..], after);
  }

  lemma {:induction false} UnheldSplit(s: seq<nat>, k: nat, held: multiset<nat>)
    requires 0 < k <= |s|
    ensures Unheld(s[..k], held) == Unheld([s[0]], held) + Unheld(s[1..][..k - 1], held)
  {
    assert s[..k][0] == s[0] && s[..k][1..] == s[1..][..k - 1];
    assert [s[0]][1..] == [];
  }

  lemma {:induction false} EvictedIs(c: Cache, capacity: nat) returns (k: nat)
    requires Ok(c)
    ensures OldestGone(c, k, capacity, Evicted(c, capacity)) && Ok(Evicted(c, capacity))
    decreases |c.list|
  {
    UsageIsLive(c);
    assert c.list[0..] == c.list && c.list[..0] == [];
    if Usage(c) > capacity && c.list != [] {
      var after := Settle(c.(list := c.list[1..]), c.list[0]);
      OneGone(c, after);
      var m := EvictedIs(after, capacity);
      k := m + 1;
      MoreGone(c, after, m, k, capacity, Evicted(after, capacity));
    } else {
      k := 0;
      assert c.deleted + [] == c.deleted;
    }
  }

  lemma {:induction false} MoreGone(c: Cache, after: Cache, m: nat, k: nat, capacity: nat, c': Cache)
    requires c.list != [] && after.list == c.list[1..] && after.info == c.info && after.held == c.held && k == m + 1
    requires after.count == c.count && after.deleted == c.deleted + Unheld([c.list[0]], c.held)
    requires ChargeFrom(c, 0) > capacity && OldestGone(after, m, capacity, c')
    ensures OldestGone(c, k, capacity, c')
  {
    forall j | 0 < j <= |c.list| ensures ChargeFrom(c, j) == ChargeFrom(after, j - 1) {
      assert c.list[j..] == after.list[j - 1..];
    }
    UnheldSplit(c.list, k, c.held);
    assert c.list[k..] == after.list[m..];
    forall j | 0 <= j < k ensures ChargeFrom(c, j) > capacity {
      if j > 0 { assert ChargeFrom(after, j - 1) > capacity; }
    }
  }

  // ---------- Insert ----------

  /** The entry of the key, if there is one, leaves; its deleter runs if nobody holds it. */
  ghost predicate Replaced(c: Cache, key: Key, c': Cache) {
    && (NoHit(c, key) ==> c' == c)
    && forall e: nat :: Hit(c, key, e) ==> Gone(c, e, c')
  }

  ghost predicate Gone(c: Cache, e: nat, c': Cache) {
    exists p :: At(c.list, p, e) && c' == c.(list := Cut(c.list, p), deleted := c.deleted + Unheld([e], c.held))
  }

  lemma {:induction false} OutOfList(c: Cache, e: nat, c': Cache)
    requires Ok(c) && e in c.list && c' == Drop(c, Some(e))
    ensures Gone(c, e, c') && Ok(c') && forall y :: y in c'.list <==> y in c.list && y != e
  {
    var p := WithoutCuts(c.list, e);
    WithoutIs(c.list, e);
    UnheldOne(e, c.held);
    assert c.deleted + [] == c.deleted;
    OneFewer(c, e, Without(c.list, e), c');
  }

  lemma {:induction false} DropIs(c: Cache, key: Key)
    requires Ok(c)
    ensures Replaced(c, key, Drop(c, Find(c.list, c.info, key))) && Ok(Drop(c, Find(c.list, c.info, key)))
    ensures NoHit(Drop(c, Find(c.list, c.info, key)), key)
  {
    var r := Find(c.list, c.info, key);
    FindFinds(c.list, c.info, key);
    if r.Some? { HitGone(c, key, r.value, Drop(c, r)); }
  }

  lemma {:induction false} HitGone(c: Cache, key: Key, e: nat, c': Cache)
    requires Ok(c) && Hit(c, key, e) && c' == Drop(c, Some(e))
    ensures Replaced(c, key, c') && Ok(c') && NoHit(c', key)
  {
    OutOfList(c, e, c');
    forall x: nat | Hit(c, key, x) ensures x == e { OneHit(c, key, x, e); }
  }

  lemma OneHit(c: Cache, key: Key, x: nat, e: nat)
    requires Ok(c) && Hit(c, key, x) && Hit(c, key, e)
    ensures x == e
  {
    assert x in Elements(c.list) && e in Elements(c.list);
  }

  /** With the new entry at the newest end and in the caller's hands. */
  function Entered(c: Cache, i: Info): Cache {
    Cache(c.count + 1, c.list + [c.count], c.info[c.count := i], c.held + multiset{c.count}, c.deleted)
  }

  /** An insertion: the entry of the key makes room for the new one, and then as many of the oldest go as needed. */
  ghost predicate InsertedAs(c: Cache, i: Info, capacity: nat, c': Cache) {
    exists mid, k :: Replaced(c, i.key, mid) && OldestGone(Entered(mid, i), k, capacity, c')
  }

  lemma {:induction false} EnteredOk(c: Cache, i: Info)
    requires Ok(c) && NoHit(c, i.key)
    ensures Ok(Entered(c, i))
  {
    var c' := Entered(c, i);
    assert forall x :: x in c'.list <==> x in c.list || x == c.count;
    assert forall j :: 0 <= j < |c.list| ==> c.list[j] in c.list;
  }

  lemma {:induction false} FindInOlder(list: seq<nat>, info: Infos, key: Key, e: nat, i: Info)
    requires e !in list
    ensures Find(list, info[e := i], key) == Find(list, info, key)
  {
    if list != [] {
      assert list[0] in list && forall x :: x in list[1..] ==> x in list;
      FindInOlder(list[1..], info, key, e, i);
    }
  }

  lemma {:induction false} WithoutSnoc(s: seq<nat>, e: nat, x: nat)
    requires x in s
    ensures Without(s + [e], x) == Without(s, x) + [e]
  {
    var all := s + [e];
    assert all[0] == s[0] && all[1..] == s[1..] + [e];
    if s[0] != x { WithoutSnoc(s[1..], e, x); }
  }

  /** Entering and then dropping is dropping and then entering. */
  lemma {:induction false} DropThenEnter(c: Cache, i: Info, r: Option<nat>)
    requires Ok(c) && r == Find(c.list, c.info, i.key)
    ensures Drop(Entered(c, i), r) == Entered(Drop(c, r), i)
  {
    FindFinds(c.list, c.info, i.key);
    if r.Some? {
      WithoutSnoc(c.list, c.count, r.value);
      WithoutIs(c.list, r.value);
    }
  }

  lemma {:induction false} InsertIs(c: Cache, i: Info, capacity: nat) returns (mid: Cache, k: nat)
    requires Ok(c)
    ensures mid == Drop(c, Find(c.list, c.info, i.key)) && Ok(Entered(mid, i))
    ensures Replaced(c, i.key, mid) && OldestGone(Entered(mid, i), k, capacity, Inserted(c, i, capacity))
    ensures InsertedAs(c, i, capacity, Inserted(c, i, capacity)) && Ok(Inserted(c, i, capacity))
  {
    var r := Find(c.list, c.info, i.key);
    mid := Drop(c, r);
    DropIs(c, i.key);
    EnteredOk(mid, i);
    DropThenEnter(c, i, r);
    InsertedIs(c, i, capacity, Entered(c, i), Entered(mid, i));
    k := EvictedIs(Entered(mid, i), capacity);
  }

  // ---------- Release and Erase ----------

  /** A handle given back: the deleter runs when nobody and nothing holds the entry any more. */
  ghost predicate GivenBack(c: Cache, h: nat, c': Cache) {
    var held := c.held - multiset{h};
    c' == c.(held := held, deleted := c.deleted + if h in c.list || h in held then [] else [h])
  }

  lemma {:induction false} ReleaseIs(c: Cache, h: nat)
    requires Ok(c) && h in c.held
    ensures GivenBack(c, h, Released(c, h)) && Ok(Released(c, h))
  {
    assert forall y :: y in c.deleted + [h] <==> y in c.deleted || y == h;
    assert c.deleted + [] == c.deleted;
  }

  // ---------- Every run ----------

  /** What one call does to the cache. */
  ghost predicate Called(c: Cache, mine: seq<nat>, cmd: Command, capacity: nat, c': Cache) {
    match cmd
    case Insert(key, value, charge) => InsertedAs(c, Info(key, value, charge), capacity, c')
    case Lookup(key) => (NoHit(c, key) ==> c' == c) && forall e: nat :: Hit(c, key, e) ==> MadeNewest(c, e, c')
    case Release(i) => if i < |mine| then GivenBack(c, mine[i], c') else c' == c
    case Erase(key) => Replaced(c, key, c')
  }

  lemma {:induction false} NextIs(w: World, cmd: Command, capacity: nat)
    requires WorldOk(w)
    ensures WorldOk(Next(w, cmd, capacity)) && Called(w.cache, w.mine, cmd, capacity, Next(w, cmd, capacity).cache)
  {
    match cmd
    case Insert(key, value, charge) => InsertNext(w, Info(key, value, charge), capacity);
    case Lookup(key) => LookupNext(w, key, capacity);
    case Release(i) => ReleaseNext(w, i);
    case Erase(key) => DropIs(w.cache, key);
  }

  lemma {:induction false} ReleaseNext(w: World, i: nat)
    requires WorldOk(w)
    ensures i < |w.mine| ==>
      && Ok(Released(w.cache, w.mine[i])) && GivenBack(w.cache, w.mine[i], Released(w.cache, w.mine[i]))
      && multiset(w.mine[..i] + w.mine[i + 1..]) == Released(w.cache, w.mine[i]).held
  {
    if i < |w.mine| {
      TakeOut(w.mine, i, w.mine[..i] + w.mine[i + 1..]);
      ReleaseIs(w.cache, w.mine[i]);
    }
  }

  lemma {:induction false} NextOk(w: World, cmd: Command, capacity: nat, w': World)
    requires WorldOk(w) && w' == Next(w, cmd, capacity)
    ensures WorldOk(w')
  {
    NextIs(w, cmd, capacity);
  }

  lemma {:induction false} InsertNext(w: World, i: Info, capacity: nat)
    requires WorldOk(w)
    ensures Ok(Inserted(w.cache, i, capacity)) && InsertedAs(w.cache, i, capacity, Inserted(w.cache, i, capacity))
    ensures multiset(w.mine + [w.cache.count]) == Inserted(w.cache, i, capacity).held
  {
    var mid, k := InsertIs(w.cache, i, capacity);
  }

  lemma {:induction false} LookupNext(w: World, key: Key, capacity: nat)
    requires WorldOk(w)
    ensures WorldOk(Next(w, Lookup(key), capacity))
    ensures Called(w.cache, w.mine, Lookup(key), capacity, Next(w, Lookup(key), capacity).cache)
  {
    var c, r := w.cache, Find(w.cache.list, w.cache.info, key);
    LookupIs(c, key);
    FindFinds(c.list, c.info, key);
    if r.Some? {
      WithoutIs(c.list, r.value);
      var after := Without(c.list, r.value) + [r.value];
      assert forall x :: x in after <==> x in c.list;
      assert multiset(w.mine + [r.value]) == multiset(w.mine) + multiset{r.value};
    }
  }

  lemma {:induction false} RunOk(cmds: seq<Command>, n: nat, capacity: nat)
    requires n <= |cmds|
    ensures WorldOk(Run(cmds, n, capacity))
  {
    var w := OkRun(cmds, n, capacity);
  }

  lemma {:induction false} OkRun(cmds: seq<Command>, n: nat, capacity: nat) returns (w: World)
    requires n <= |cmds|
    ensures w == Run(cmds, n, capacity) && WorldOk(w)
  {
    if n == 0 {
      NewIsOk();
      w := NEW_WORLD;
    } else {
      var before := OkRun(cmds, n - 1, capacity);
      w := OkNext(cmds, n - 1, n, capacity, before);
    }
  }

  lemma {:induction false} OkNext(cmds: seq<Command>, i: nat, n: nat, capacity: nat, w: World) returns (w': World)
    requires n == i + 1 <= |cmds| && w == Run(cmds, i, capacity) && WorldOk(w)
    ensures w' == Run(cmds, n, capacity) && WorldOk(w')
  {
    w' := NextWorld(cmds, i, n, capacity, w);
    NextOk(w, cmds[i], capacity, w');
  }

  lemma {:induction false} NextWorld(cmds: seq<Command>, i: nat, n: nat, capacity: nat, w: World) returns (w': World)
    requires n == i + 1 <= |cmds| && w == Run(cmds, i, capacity)
    ensures w' == Run(cmds, n, capacity) && w' == Next(w, cmds[i], capacity)
  {
    w' := Run(cmds, n, capacity);
  }

  lemma NewIsOk()
    ensures WorldOk(NEW_WORLD)
  {}

  // ---------- The last use of an entry ----------

  /** How many entries the first n calls have made. */
  function Made(cmds: seq<Command>, n: nat): nat
    requires n <= |cmds|
  {
    if n == 0 then 0 else Made(cmds, n - 1) + if cmds[n - 1].Insert? then 1 else 0
  }

  /** The i-th call uses the entry: it is the Insert that made it, or a Lookup that found it. */
  ghost predicate UsedAt(cmds: seq<Command>, i: nat, e: nat, capacity: nat)
    requires i < |cmds|
  {
    || (cmds[i].Insert? && e == Made(cmds, i))
    || (cmds[i].Lookup? && Hit(Run(cmds, i, capacity).cache, cmds[i].key, e))
  }

  ghost predicate LastUse(cmds: seq<Command>, n: nat, e: nat, capacity: nat, u: nat)
    requires n <= |cmds|
  {
    u < n && UsedAt(cmds, u, e, capacity) && forall i :: u < i < n ==> !UsedAt(cmds, i, e, capacity)
  }

  ghost predicate ByUse(cmds: seq<Command>, n: nat, capacity: nat, list: seq<nat>, us: seq<nat>)
    requires n <= |cmds|
  {
    && |us| == |list| && (forall a, b :: 0 <= a < b < |us| ==> us[a] < us[b])
    && forall a :: 0 <= a < |list| ==> LastUse(cmds, n, list[a], capacity, us[a])
  }

  lemma {:induction false} CutByUse(cmds: seq<Command>, n: nat, capacity: nat, list: seq<nat>, us: seq<nat>, p: nat)
    requires n <= |cmds| && ByUse(cmds, n, capacity, list, us) && p < |list|
    ensures ByUse(cmds, n, capacity, Cut(list, p), Cut(us, p))
  {
    var l, v := Cut(list, p), Cut(us, p);
    forall a | 0 <= a < |l| ensures LastUse(cmds, n, l[a], capacity, v[a]) {
      assert l[a] == list[if a < p then a else a + 1] && v[a] == us[if a < p then a else a + 1];
    }
  }

  lemma {:induction false} TailByUse(cmds: seq<Command>, n: nat, capacity: nat, list: seq<nat>, us: seq<nat>, k: nat)
    requires n <= |cmds| && ByUse(cmds, n, capacity, list, us) && k <= |list|
    ensures ByUse(cmds, n, capacity, list[k..], us[k..])
  {
    forall a | 0 <= a < |list| - k ensures LastUse(cmds, n, list[k..][a], capacity, us[k..][a]) {
      assert list[k..][a] == list[k + a] && us[k..][a] == us[k + a];
    }
  }

  /** A call that uses none of them leaves their last uses as they were; one that uses `e` puts it last. */
  lemma {:induction false} UnusedStay(cmds: seq<Command>, i: nat, n: nat, capacity: nat, list: seq<nat>, us: seq<nat>)
    requires n == i + 1 <= |cmds| && ByUse(cmds, i, capacity, list, us)
    requires forall e :: e in list ==> !UsedAt(cmds, i, e, capacity)
    ensures ByUse(cmds, n, capacity, list, us)
  {
    forall a | 0 <= a < |list| ensures LastUse(cmds, n, list[a], capacity, us[a]) {
      assert LastUse(cmds, i, list[a], capacity, us[a]) && list[a] in list;
    }
  }

  lemma {:induction false} UsedGoesLast(cmds: seq<Command>, i: nat, n: nat, capacity: nat, list: seq<nat>,
                                        us: seq<nat>, e: nat)
    requires n == i + 1 <= |cmds| && ByUse(cmds, i, capacity, list, us) && UsedAt(cmds, i, e, capacity)
    requires forall x :: x in list ==> !UsedAt(cmds, i, x, capacity)
    ensures ByUse(cmds, n, capacity, list + [e], us + [i])
  {
    UnusedStay(cmds, i, n, capacity, list, us);
    var l, v := list + [e], us + [i];
    forall a | 0 <= a < |l| ensures LastUse(cmds, n, l[a], capacity, v[a]) {
      if a < |list| {
        assert LastUse(cmds, n, list[a], capacity, us[a]);
      }
    }
    forall a, b | 0 <= a < b < |v| ensures v[a] < v[b] {
      assert LastUse(cmds, i, list[a], capacity, us[a]);
    }
  }

  lemma {:induction false} MadeIsCount(cmds: seq<Command>, n: nat, capacity: nat)
    requires n <= |cmds|
    ensures Made(cmds, n) == Run(cmds, n, capacity).cache.count
  {
    if n > 0 {
      MadeIsCount(cmds, n - 1, capacity);
      RunOk(cmds, n - 1, capacity);
      CountNext(Run(cmds, n - 1, capacity), cmds[n - 1], capacity);
    }
  }

  lemma {:induction false} CountNext(w: World, cmd: Command, capacity: nat)
    requires WorldOk(w)
    ensures Next(w, cmd, capacity).cache.count == w.cache.count + if cmd.Insert? then 1 else 0
  {
    if cmd.Insert? { var mid, k := InsertIs(w.cache, Info(cmd.key, cmd.value, cmd.charge), capacity); }
  }

  /** The list is sorted by last use. */
  lemma {:induction false} ListByUse(cmds: seq<Command>, n: nat, capacity: nat) returns (us: seq<nat>)
    requires n <= |cmds|
    ensures ByUse(cmds, n, capacity, Run(cmds, n, capacity).cache.list, us)
    decreases n
  {
    us := [];
    if n > 0 {
      var i := n - 1;
      us := ListByUse(cmds, i, capacity);
      us := NextByUse(cmds, i, n, capacity, us);
    }
  }

  lemma {:induction false} NextByUse(cmds: seq<Command>, i: nat, n: nat, capacity: nat, us: seq<nat>)
    returns (us': seq<nat>)
    requires n == i + 1 <= |cmds| && ByUse(cmds, i, capacity, Run(cmds, i, capacity).cache.list, us)
    ensures ByUse(cmds, n, capacity, Run(cmds, n, capacity).cache.list, us')
  {
    var w := Run(cmds, i, capacity);
    var c, cmd := w.cache, cmds[i];
    RunOk(cmds, i, capacity);
    RunNext(cmds, i, n, capacity);
    NextIs(w, cmd, capacity);
    MadeIsCount(cmds, i, capacity);
    us' := us;
    match cmd
    case Insert(key, value, charge) =>
      us' := InsertByUse(cmds, i, n, capacity, us);
    case Lookup(key) => us' := LookupByUse(cmds, i, n, capacity, c, Run(cmds, n, capacity).cache, us);
    case Release(_) => UnusedStay(cmds, i, n, capacity, c.list, us);
    case Erase(key) =>
      UnusedStay(cmds, i, n, capacity, c.list, us);
      var c' := Run(cmds, n, capacity).cache;
      us' := ReplacedByUse(cmds, n, capacity, c, key, c', us);
  }

  lemma {:induction false} ReplacedByUse(cmds: seq<Command>, n: nat, capacity: nat, c: Cache, key: Key, c': Cache,
                                         us: seq<nat>) returns (us': seq<nat>)
    requires n <= |cmds| && Ok(c) && Replaced(c, key, c') && ByUse(cmds, n, capacity, c.list, us)
    ensures ByUse(cmds, n, capacity, c'.list, us')
    ensures forall x :: x in c'.list ==> x in c.list
  {
    us' := us;
    if !NoHit(c, key) {
      var e := SomeHit(c, key);
      assert Gone(c, e, c');
      var p: nat :| At(c.list, p, e) && c'.list == Cut(c.list, p);
      CutByUse(cmds, n, capacity, c.list, us, p);
      us' := Cut(us, p);
    }
  }

  lemma {:induction false} LookupByUse(cmds: seq<Command>, i: nat, n: nat, capacity: nat, c: Cache, c': Cache,
                                       us: seq<nat>)
    returns (us': seq<nat>)
    requires n == i + 1 <= |cmds| && cmds[i].Lookup? && Ok(c) && c == Run(cmds, i, capacity).cache
    requires ByUse(cmds, i, capacity, c.list, us) && (NoHit(c, cmds[i].key) ==> c' == c)
    requires forall e: nat :: Hit(c, cmds[i].key, e) ==> MadeNewest(c, e, c')
    ensures ByUse(cmds, n, capacity, c'.list, us')
  {
    if NoHit(c, cmds[i].key) {
      UnusedStay(cmds, i, n, capacity, c.list, us);
      us' := us;
    } else {
      var e := SomeHit(c, cmds[i].key);
      assert MadeNewest(c, e, c');
      var p: nat :| At(c.list, p, e) && c'.list == Cut(c.list, p) + [e];
      CutByUse(cmds, i, capacity, c.list, us, p);
      OthersUnused(cmds, i, capacity, c, e, p);
      UsedGoesLast(cmds, i, n, capacity, Cut(c.list, p), Cut(us, p), e);
      us' := Cut(us, p) + [i];
    }
  }

  lemma {:induction false} OthersUnused(cmds: seq<Command>, i: nat, capacity: nat, c: Cache, e: nat, p: nat)
    requires i < |cmds| && cmds[i].Lookup? && Ok(c) && c == Run(cmds, i, capacity).cache
    requires Hit(c, cmds[i].key, e) && At(c.list, p, e)
    ensures forall x :: x in Cut(c.list, p) ==> !UsedAt(cmds, i, x, capacity)
  {
    forall x | x in Cut(c.list, p) ensures !UsedAt(cmds, i, x, capacity) {
      assert x in Elements(c.list) && e in Elements(c.list);
    }
  }

  lemma {:induction false} InsertByUse(cmds: seq<Command>, i: nat, n: nat, capacity: nat, us: seq<nat>)
    returns (us': seq<nat>)
    requires n == i + 1 <= |cmds| && cmds[i].Insert? && WorldOk(Run(cmds, i, capacity))
    requires ByUse(cmds, i, capacity, Run(cmds, i, capacity).cache.list, us)
    requires Made(cmds, i) == Run(cmds, i, capacity).cache.count
    requires Run(cmds, n, capacity) == Next(Run(cmds, i, capacity), cmds[i], capacity)
    ensures ByUse(cmds, n, capacity, Run(cmds, n, capacity).cache.list, us')
  {
    var k, all;
    us', k, all := MergedByUse(cmds, i, n, capacity, us);
    TailByUse(cmds, n, capacity, all, us', k);
    us' := us'[k..];
  }

  /** Before the oldest go, the list with the new entry at its end is sorted by last use too. */
  lemma {:induction false} MergedByUse(cmds: seq<Command>, i: nat, n: nat, capacity: nat, us: seq<nat>)
    returns (us': seq<nat>, k: nat, all: seq<nat>)
    requires n == i + 1 <= |cmds| && cmds[i].Insert? && WorldOk(Run(cmds, i, capacity))
    requires ByUse(cmds, i, capacity, Run(cmds, i, capacity).cache.list, us)
    requires Made(cmds, i) == Run(cmds, i, capacity).cache.count
    requires Run(cmds, n, capacity) == Next(Run(cmds, i, capacity), cmds[i], capacity)
    ensures ByUse(cmds, n, capacity, all, us') && k <= |all| && Run(cmds, n, capacity).cache.list == all[k..]
    ensures forall x :: x in Run(cmds, i, capacity).cache.list && x !in all ==>
      Hit(Run(cmds, i, capacity).cache, cmds[i].key, x)
  {
    var c, cmd := Run(cmds, i, capacity).cache, cmds[i];
    var mid;
    mid, k := InsertIs(c, Info(cmd.key, cmd.value, cmd.charge), capacity);
    var vs := ReplacedByUse(cmds, i, capacity, c, cmd.key, mid, us);
    forall x | x in mid.list ensures !UsedAt(cmds, i, x, capacity) {}
    UsedGoesLast(cmds, i, n, capacity, mid.list, vs, c.count);
    us', all := vs + [i], mid.list + [c.count];
    forall x | x in c.list && x !in all ensures Hit(c, cmd.key, x) { StillThere(c, cmd.key, mid, x); }
  }

  lemma {:induction false} StillThere(c: Cache, key: Key, mid: Cache, x: nat)
    requires Replaced(c, key, mid) && x in c.list && x !in mid.list
    ensures Hit(c, key, x)
  {
    if !NoHit(c, key) {
      var e := SomeHit(c, key);
      assert Gone(c, e, mid);
      var p: nat :| At(c.list, p, e) && mid.list == Cut(c.list, p);
      assert c.list == c.list[..p] + [e] + c.list[p + 1..];
    }
  }

  /** In every run: an entry nearer the old end of the list was used less recently than one nearer the new end. */
  lemma {:induction false} OlderIsLessRecent(cmds: seq<Command>, n: nat, capacity: nat, a: nat, b: nat, u: nat, v: nat)
    requires n <= |cmds| && a < b < |Run(cmds, n, capacity).cache.list|
    requires LastUse(cmds, n, Run(cmds, n, capacity).cache.list[a], capacity, u)
    requires LastUse(cmds, n, Run(cmds, n, capacity).cache.list[b], capacity, v)
    ensures u < v
  {
    var list := Run(cmds, n, capacity).cache.list;
    var us := ListByUse(cmds, n, capacity);
    OneLastUse(cmds, n, list[a], capacity, u, us[a]);
    OneLastUse(cmds, n, list[b], capacity, v, us[b]);
  }

  lemma {:induction false} OneLastUse(cmds: seq<Command>, n: nat, e: nat, capacity: nat, u: nat, v: nat)
    requires n <= |cmds| && LastUse(cmds, n, e, capacity, u) && LastUse(cmds, n, e, capacity, v)
    ensures u == v
  {}

  lemma InTail(s: seq<nat>, k: nat)
    requires k <= |s|
    ensures forall a :: k <= a < |s| ==> s[a] in s[k..]
  {
    forall a | k <= a < |s| ensures s[a] in s[k..] { assert s[k..][a - k] == s[a]; }
  }

  /** In every run: an entry that an Insert evicts was used less recently than every entry that stays. */
  lemma {:induction false} EvictedIsLeastRecent(cmds: seq<Command>, i: nat, n: nat, capacity: nat, x: nat, y: nat,
                                                u: nat, v: nat)
    requires n == i + 1 <= |cmds| && cmds[i].Insert?
    requires x in Run(cmds, i, capacity).cache.list && x !in Run(cmds, n, capacity).cache.list
    requires !Hit(Run(cmds, i, capacity).cache, cmds[i].key, x) && y in Run(cmds, n, capacity).cache.list
    requires LastUse(cmds, n, x, capacity, u) && LastUse(cmds, n, y, capacity, v)
    ensures u < v
  {
    RunOk(cmds, i, capacity);
    RunNext(cmds, i, n, capacity);
    MadeIsCount(cmds, i, capacity);
    var us := ListByUse(cmds, i, capacity);
    var vs, k, all := MergedByUse(cmds, i, n, capacity, us);
    var a :| 0 <= a < |all| && all[a] == x;
    var b :| 0 <= b < |all| - k && all[k..][b] == y;
    assert a < k ==> vs[a] < vs[k + b];
    assert all[k + b] == y;
    InTail(all, k);
    OneLastUse(cmds, n, x, capacity, u, vs[a]);
    OneLastUse(cmds, n, y, capacity, v, vs[k + b]);
  }

  /** What every call of a run does, said without recursion over the list. */
  lemma {:induction false} RunIsCalls(cmds: seq<Command>, i: nat, n: nat, capacity: nat)
    requires n == i + 1 <= |cmds|
    ensures Called(Run(cmds, i, capacity).cache, Run(cmds, i, capacity).mine, cmds[i], capacity,
                   Run(cmds, n, capacity).cache)
  {
    RunOk(cmds, i, capacity);
    RunNext(cmds, i, n, capacity);
    NextIs(Run(cmds, i, capacity), cmds[i], capacity);
  }

  /** The key and value that a deleter gets. */
  ghost predicate CallFor(info: Infos, e: nat, call: (Key, int)) {
    e in info && call == (info[e].key, info[e].value)
  }

  lemma {:induction false} CallsAre(info: Infos, deleted: seq<nat>, n: nat)
    requires n <= |deleted| && forall x :: x in deleted ==> x in info
    ensures |CallsFrom(info, deleted, n)| == |deleted| - n
    ensures forall j: nat :: j < |deleted| - n ==> CallFor(info, deleted[n + j], CallsFrom(info, deleted, n)[j])
    decreases |deleted| - n
  {
    if n < |deleted| {
      var rest := CallsFrom(info, deleted, n + 1);
      CallsAre(info, deleted, n + 1);
      assert CallFor(info, deleted[n], (info[deleted[n]].key, info[deleted[n]].value));
      forall j: nat | j < |deleted| - n ensures CallFor(info, deleted[n + j], CallsFrom(info, deleted, n)[j]) {
        if j > 0 { assert CallFor(info, deleted[n + 1 + (j - 1)], rest[j - 1]); }
      }
    }
  }

  /** What a call answers: the value of the entry that it hits, and the deleter calls that the cache made. */
  ghost predicate Answered(c: Cache, cmd: Command, c': Cache, a: Answer) {
    && (!cmd.Lookup? || NoHit(c, cmd.key) ==> a.found == None)
    && (cmd.Lookup? ==> forall e: nat :: Hit(c, cmd.key, e) ==> a.found == Some(c.info[e].value))
    && |c'.deleted| == |c.deleted| + |a.deletions|
    && forall j: nat :: j < |a.deletions| ==> CallFor(c'.info, c'.deleted[|c.deleted| + j], a.deletions[j])
  }

  lemma {:induction false} FoundIs(w: World, cmd: Command)
    requires WorldOk(w)
    ensures !cmd.Lookup? || NoHit(w.cache, cmd.key) ==> FoundBy(w, cmd) == None
    ensures cmd.Lookup? ==>
      forall e: nat :: Hit(w.cache, cmd.key, e) ==> FoundBy(w, cmd) == Some(w.cache.info[e].value)
  {
    if cmd.Lookup? {
      FindFinds(w.cache.list, w.cache.info, cmd.key);
      forall e: nat | Hit(w.cache, cmd.key, e) ensures FoundBy(w, cmd) == Some(w.cache.info[e].value) {
        OneHit(w.cache, cmd.key, e, Find(w.cache.list, w.cache.info, cmd.key).value);
      }
    }
  }

  lemma {:induction false} MoreDeleted(c: Cache, mine: seq<nat>, cmd: Command, capacity: nat, c': Cache)
    requires Called(c, mine, cmd, capacity, c')
    ensures |c.deleted| <= |c'.deleted|
  {
    match cmd
    case Insert(key, value, charge) =>
      var i := Info(key, value, charge);
      var mid, k :| Replaced(c, key, mid) && OldestGone(Entered(mid, i), k, capacity, c');
      ReplacedDeletes(c, key, mid);
    case Lookup(key) =>
      if !NoHit(c, key) {
        var e := SomeHit(c, key);
        assert MadeNewest(c, e, c');
      }
    case Release(i) =>
    case Erase(key) => ReplacedDeletes(c, key, c');
  }

  lemma {:induction false} ReplacedDeletes(c: Cache, key: Key, c': Cache)
    requires Replaced(c, key, c')
    ensures |c.deleted| <= |c'.deleted|
  {
    if !NoHit(c, key) {
      var e := SomeHit(c, key);
      assert Gone(c, e, c');
    }
  }

  lemma {:induction false} AnswerIs(w: World, cmd: Command, c': Cache, a: Answer)
    requires WorldOk(w) && Ok(c') && |w.cache.deleted| <= |c'.deleted|
    requires a.found == FoundBy(w, cmd) && a.deletions == CallsFrom(c'.info, c'.deleted, |w.cache.deleted|)
    ensures Answered(w.cache, cmd, c', a)
  {
    CallsAre(c'.info, c'.deleted, |w.cache.deleted|);
    FoundIs(w, cmd);
  }

  /** Every call of a run adds one answer, and it is that of the call. */
  lemma {:induction false} RunAnswers(cmds: seq<Command>, i: nat, n: nat, capacity: nat) returns (a: Answer)
    requires n == i + 1 <= |cmds|
    ensures Answers(cmds, 0, capacity) == [] && Answers(cmds, n, capacity) == Answers(cmds, i, capacity) + [a]
    ensures Answered(Run(cmds, i, capacity).cache, cmds[i], Run(cmds, n, capacity).cache, a)
  {
    var w := OkRun(cmds, i, capacity);
    var w' := NextWorld(cmds, i, n, capacity, w);
    NextOk(w, cmds[i], capacity, w');
    NextIs(w, cmds[i], capacity);
    MoreDeleted(w.cache, w.mine, cmds[i], capacity, w'.cache);
    a := AnswerTo(w, cmds[i], capacity);
    AnswerIs(w, cmds[i], w'.cache, a);
    RunNext(cmds, i, n, capacity);
  }
}
