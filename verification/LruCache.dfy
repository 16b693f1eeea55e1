/** One shard of the block cache: a chained hash table, an LRU list, and reference counts.

    Entries are named by the order of their allocation. A chain of the hash table and the circular
    LRU list are the sequences their links spell out. */
module LruCache {
  import opened DbFormat

  type Key = string

  datatype Info = Info(key: Key, value: int, charge: nat)

  type Infos = map<nat, Info>

  type Hash = Key -> nat

  // ---------- The hash table ----------

  type Chain = seq<nat>

  ghost predicate Pow2(n: nat)
    decreases n
  {
    n == 1 || (n > 1 && n % 2 == 0 && Pow2(n / 2))
  }

  ghost predicate Distinct(c: seq<nat>) { forall i, j :: 0 <= i < j < |c| ==> c[i] != c[j] }

  /** Bucket of a key; masking with length - 1 is the remainder, as lengths are powers of two. */
  function Bucket(hash: Hash, key: Key, length: nat): nat
    requires length > 0
  {
    hash(key) % length
  }

  ghost function Members(buckets: seq<Chain>): set<nat> {
    set b, i | 0 <= b < |buckets| && 0 <= i < |buckets[b]| :: buckets[b][i]
  }

  ghost predicate InPlace(hash: Hash, info: Infos, buckets: seq<Chain>) {
    && (forall b, i :: 0 <= b < |buckets| && 0 <= i < |buckets[b]| ==>
          buckets[b][i] in info && Bucket(hash, info[buckets[b][i]].key, |buckets|) == b)
    && (forall b :: 0 <= b < |buckets| ==> Distinct(buckets[b]))
  }

  /** No two entries of the set have the same key. */
  ghost predicate KeysDiffer(info: Infos, ids: set<nat>) {
    forall x, y :: x in ids && y in ids && x in info && y in info && info[x].key == info[y].key ==> x == y
  }

  ghost predicate TableOk(hash: Hash, info: Infos, buckets: seq<Chain>) {
    |buckets| > 0 && InPlace(hash, info, buckets) && KeysDiffer(info, Members(buckets))
  }

  /** The entry that the table holds for a key. */
  ghost predicate Holds(info: Infos, ids: set<nat>, key: Key, r: Option<nat>) {
    match r
    case Some(x) => x in ids && x in info && info[x].key == key
    case None => forall x :: x in ids && x in info ==> info[x].key != key
  }

  lemma MemberAt(buckets: seq<Chain>, b: nat, i: nat)
    requires b < |buckets| && i < |buckets[b]|
    ensures buckets[b][i] in Members(buckets)
  {}

  /** Changing one chain changes the members accordingly. */
  lemma MembersChange(hash: Hash, info: Infos, buckets: seq<Chain>, b: nat, chain: Chain, x: nat)
    requires b < |buckets| && InPlace(hash, info, buckets)
    ensures x in Members(buckets[b := chain]) <==> x in chain || (x in Members(buckets) && x !in buckets[b])
  {
    var after := buckets[b := chain];
    if x in chain {
      var i :| 0 <= i < |chain| && chain[i] == x;
      MemberAt(after, b, i);
    }
    if x in Members(buckets) && x !in buckets[b] {
      var c, i :| 0 <= c < |buckets| && 0 <= i < |buckets[c]| && buckets[c][i] == x;
      MemberAt(after, c, i);
    }
    if x in Members(after) && x !in chain {
      var c, i :| 0 <= c < |after| && 0 <= i < |after[c]| && after[c][i] == x;
      assert c != b && buckets[c][i] == x;
      assert x in info && Bucket(hash, info[x].key, |buckets|) == c;
    }
  }

  ghost predicate ChainOk(hash: Hash, info: Infos, chain: Chain, b: nat, length: nat)
    requires length > 0
  {
    Distinct(chain) && forall i :: 0 <= i < |chain| ==>
      chain[i] in info && Bucket(hash, info[chain[i]].key, length) == b
  }

  lemma ChainChange(hash: Hash, info: Infos, buckets: seq<Chain>, b: nat, chain: Chain, ids: set<nat>)
    requires b < |buckets| && InPlace(hash, info, buckets) && ChainOk(hash, info, chain, b, |buckets|)
    requires forall x :: x in ids <==> x in chain || (x in Members(buckets) && x !in buckets[b])
    ensures InPlace(hash, info, buckets[b := chain]) && Members(buckets[b := chain]) == ids
  {
    forall x ensures x in Members(buckets[b := chain]) <==>
      x in ids { MembersChange(hash, info, buckets, b, chain, x); }
  }

  /** A new entry takes the place of the one with its key. */
  lemma ReplaceInChain(hash: Hash, info: Infos, buckets: seq<Chain>, b: nat, pos: nat, e: nat, chain: Chain)
    requires TableOk(hash, info, buckets) && b < |buckets| && pos < |buckets[b]| && e in info && e !in Members(buckets)
    requires info[e].key == info[buckets[b][pos]].key && chain == buckets[b][pos := e]
    ensures TableOk(hash, info, buckets[b := chain])
      && Members(buckets[b := chain]) == Members(buckets) - {buckets[b][pos]} + {e}
  {
    var was := buckets[b];
    var ids := Members(buckets) - {was[pos]} + {e};
    forall i | 0 <= i < |was| ensures was[i] in Members(buckets) { MemberAt(buckets, b, i); }
    forall x ensures x in chain <==> x == e || (x in was && x != was[pos]) {
      if x in was && x != was[pos] {
        var i :| 0 <= i < |was| && was[i] == x;
        assert chain[i] == x;
      }
      assert chain[pos] == e;
    }
    ChainChange(hash, info, buckets, b, chain, ids);
  }

  /** A new entry at the end, or (when resizing) at the front, of its chain. */
  lemma AddToChain(hash: Hash, info: Infos, buckets: seq<Chain>, b: nat, chain: Chain, e: nat)
    requires |buckets| > 0 && InPlace(hash, info, buckets) && e in info && e !in Members(buckets)
    requires b == Bucket(hash, info[e].key, |buckets|) && (chain == buckets[b] + [e] || chain == [e] + buckets[b])
    ensures InPlace(hash, info, buckets[b := chain]) && Members(buckets[b := chain]) == Members(buckets) + {e}
  {
    forall i | 0 <= i < |buckets[b]| ensures buckets[b][i] in Members(buckets) { MemberAt(buckets, b, i); }
    ChainChange(hash, info, buckets, b, chain, Members(buckets) + {e});
  }

  lemma RemoveFromChain(hash: Hash, info: Infos, buckets: seq<Chain>, b: nat, pos: nat, chain: Chain)
    requires TableOk(hash, info, buckets) && b < |buckets| && pos < |buckets[b]|
      && chain == buckets[b][..pos] + buckets[b][pos + 1..]
    ensures TableOk(hash, info, buckets[b := chain])
      && Members(buckets[b := chain]) == Members(buckets) - {buckets[b][pos]}
  {
    var was := buckets[b];
    assert was == was[..pos] + [was[pos]] + was[pos + 1..];
    forall x ensures x in chain <==> x in was && x != was[pos] {}
    MemberAt(buckets, b, pos);
    ChainChange(hash, info, buckets, b, chain, Members(buckets) - {was[pos]});
  }

  class HandleTable {
    const hash: Hash
    var buckets: seq<Chain>
    var elems: nat

    constructor (hash: Hash)
      ensures this.hash == hash && Valid(map[]) && Members(buckets) == {}
    {
      this.hash, buckets, elems := hash, [[], [], [], []], 0;
      new;
      assert Pow2(1) && Pow2(2) && Pow2(4);
      assert Members(buckets) == {};
    }

    ghost predicate Valid(info: Infos)
      reads this
    {
      TableOk(hash, info, buckets) && elems == |Members(buckets)| && Pow2(|buckets|)
    }

    /** FindPointer: where the key's entry is in its chain, or the end of the chain. */
    method FindPointer(info: Infos, key: Key) returns (b: nat, pos: nat)
      requires Valid(info)
      ensures b < |buckets| && b == Bucket(hash, key, |buckets|) && pos <= |buckets[b]|
      ensures forall i :: 0 <= i < pos ==> info[buckets[b][i]].key != key
      ensures pos < |buckets[b]| ==> info[buckets[b][pos]].key == key
      ensures Holds(info, Members(buckets), key, if pos < |buckets[b]| then Some(buckets[b][pos]) else None)
    {
      b, pos := Bucket(hash, key, |buckets|), 0;
      while pos < |buckets[b]| && info[buckets[b][pos]].key != key
        invariant pos <= |buckets[b]| && forall i :: 0 <= i < pos ==> info[buckets[b][i]].key != key
      {
        pos := pos + 1;
      }
      if pos < |buckets[b]| { MemberAt(buckets, b, pos); }
    }

    method Lookup(info: Infos, key: Key) returns (r: Option<nat>)
      requires Valid(info)
      ensures Holds(info, Members(buckets), key, r)
    {
      var b, pos := FindPointer(info, key);
      r := if pos < |buckets[b]| then Some(buckets[b][pos]) else None;
    }

    /** Insert: returns the entry it replaces. */
    method Insert(info: Infos, e: nat) returns (replaced: Option<nat>)
      requires Valid(info) && e in info && e !in Members(buckets)
      modifies this
      ensures Valid(info) && Holds(info, old(Members(buckets)), info[e].key, replaced)
      ensures Members(buckets) == (if replaced.Some? then old(Members(buckets)) - {replaced.value}
          else old(Members(buckets))) + {e}
    {
      var b, pos := FindPointer(info, info[e].key);
      if pos < |buckets[b]| {
        var chain: Chain := buckets[b][pos := e];
        ReplaceInChain(hash, info, buckets, b, pos, e, chain);
        replaced := Some(buckets[b][pos]);
        buckets := buckets[b := chain];
      } else {
        replaced := None;
        Append(info, b, e);
      }
    }

    method Append(info: Infos, b: nat, e: nat)
      requires Valid(info) && e in info && e !in Members(buckets) && b == Bucket(hash, info[e].key, |buckets|)
      requires Holds(info, Members(buckets), info[e].key, None)
      modifies this
      ensures Valid(info) && Members(buckets) == old(Members(buckets)) + {e}
    {
      AddToChain(hash, info, buckets, b, buckets[b] + [e], e);
      buckets := buckets[b := buckets[b] + [e]];
      elems := elems + 1;
      if elems > |buckets| {
        Resize(info);
      }
    }

    method Remove(info: Infos, key: Key) returns (r: Option<nat>)
      requires Valid(info)
      modifies this
      ensures Valid(info) && Holds(info, old(Members(buckets)), key, r)
      ensures Members(buckets) == if r.Some? then old(Members(buckets)) - {r.value} else old(Members(buckets))
    {
      var b, pos := FindPointer(info, key);
      if pos < |buckets[b]| {
        r := Some(buckets[b][pos]);
        var chain := buckets[b][..pos] + buckets[b][pos + 1..];
        RemoveFromChain(hash, info, buckets, b, pos, chain);
        buckets := buckets[b := chain];
        elems := elems - 1;
      } else {
        r := None;
      }
    }

    method NewLength() returns (n: nat)
      ensures n >= 4 && Pow2(n) && n >= elems
    {
      n := 4;
      assert Pow2(1) && Pow2(2);
      while n < elems
        invariant n >= 4 && Pow2(n)
        decreases elems - n
      {
        n := n * 2;
      }
    }

    /** Resize: every entry moves to the front of its new chain. */
    method Resize(info: Infos)
      requires TableOk(hash, info, buckets) && elems == |Members(buckets)|
      modifies this`buckets
      ensures Valid(info) && Members(buckets) == old(Members(buckets))
    {
      var n := NewLength();
      var from, list: seq<Chain> := buckets, seq(n, _ => []);
      assert Members(list) == {};
      for i := 0 to |from|
        invariant |list| == n && InPlace(hash, info, list) && Members(list) == Members(from[..i])
      {
        list := MoveChain(info, from, list, i);
      }
      assert from[..|from|] == from;
      buckets := list;
    }

    method MoveChain(info: Infos, from: seq<Chain>, list0: seq<Chain>, i: nat) returns (list: seq<Chain>)
      requires InPlace(hash, info, from) && i < |from|
      requires |list0| > 0 && InPlace(hash, info, list0) && Members(list0) == Members(from[..i])
      ensures |list| == |list0| && InPlace(hash, info, list) && Members(list) == Members(from[..i + 1])
    {
      var chain := from[i];
      list := list0;
      for j := 0 to |chain|
        invariant |list| == |list0| && InPlace(hash, info, list)
        invariant forall x :: x in Members(list) <==> x in Members(list0) || x in chain[..j]
      {
        var h := chain[j];
        NotBefore(hash, info, from, i, j);
        var b := Bucket(hash, info[h].key, |list|);
        AddToChain(hash, info, list, b, [h] + list[b], h);
        list := list[b := [h] + list[b]];
        assert chain[..j + 1] == chain[..j] + [h];
      }
      assert chain[..|chain|] == chain;
      forall x ensures x in Members(from[..i + 1]) <==> x in Members(from[..i]) || x in chain {
        MembersSplit(from, i, i + 1, x);
      }
    }
  }

  lemma MembersSplit(buckets: seq<Chain>, i: nat, n: nat, x: nat)
    requires n == i + 1 <= |buckets|
    ensures x in Members(buckets[..n]) <==> x in Members(buckets[..i]) || x in buckets[i]
  {
    if x in buckets[i] {
      var j :| 0 <= j < |buckets[i]| && buckets[i][j] == x;
      MemberAt(buckets[..n], i, j);
    }
    if x in Members(buckets[..i]) {
      var b, j :| 0 <= b < i && 0 <= j < |buckets[..i][b]| && buckets[..i][b][j] == x;
      MemberAt(buckets[..n], b, j);
    }
    if x in Members(buckets[..n]) && x !in buckets[i] {
      var b, j :| 0 <= b < n && 0 <= j < |buckets[..n][b]| && buckets[..n][b][j] == x;
      MemberAt(buckets[..i], b, j);
    }
  }

  /** An entry is in one bucket, at one place. */
  lemma NotBefore(hash: Hash, info: Infos, buckets: seq<Chain>, i: nat, j: nat)
    requires InPlace(hash, info, buckets) && i < |buckets| && j < |buckets[i]|
    ensures buckets[i][j] in info && buckets[i][j] !in Members(buckets[..i]) && buckets[i][j] !in buckets[i][..j]
  {}

  // ---------- Charges, counts and the LRU list ----------

  /** The total charge of the live entries among the first n. */
  ghost function Total(info: Infos, live: set<nat>, n: nat): nat {
    if n == 0 then 0
    else Total(info, live, n - 1) + if n - 1 in live && n - 1 in info then info[n - 1].charge else 0
  }

  lemma {:induction false} TotalWithout(info: Infos, live: set<nat>, x: nat, n: nat)
    requires x in live && x in info
    ensures Total(info, live, n) == Total(info, live - {x}, n) + if x < n then info[x].charge else 0
  {
    if n > 0 { TotalWithout(info, live, x, n - 1); }
  }

  lemma {:induction false} TotalSame(info: Infos, info': Infos, live: set<nat>, live': set<nat>, n: nat)
    requires forall i :: 0 <= i < n ==>
      (i in live <==> i in live') && (i in info <==> i in info') && (i in info ==> info[i] == info'[i])
    ensures Total(info, live, n) == Total(info', live', n)
  {
    if n > 0 { TotalSame(info, info', live, live', n - 1); }
  }

  function Without(s: seq<nat>, x: nat): (r: seq<nat>) {
    if s == [] then [] else if s[0] == x then s[1..] else [s[0]] + Without(s[1..], x)
  }

  lemma {:induction false} WithoutIs(s: seq<nat>, x: nat)
    requires Distinct(s)
    ensures Distinct(Without(s, x)) && forall y :: y in Without(s, x) <==> y in s && y != x
  {
    if s != [] {
      assert s == [s[0]] + s[1..];
      WithoutIs(s[1..], x);
      var r := Without(s[1..], x);
      assert s[0] !in s[1..];
      assert forall i :: 0 <= i < |r| ==> r[i] in r;
    }
  }

  ghost predicate At(list: seq<nat>, p: nat, e: nat) { p < |list| && list[p] == e }

  /** The list without its element at `p`. */
  function Cut(list: seq<nat>, p: nat): seq<nat>
    requires p < |list|
  {
    list[..p] + list[p + 1..]
  }

  lemma {:induction false} WithoutCuts(s: seq<nat>, x: nat) returns (p: nat)
    requires x in s && Distinct(s)
    ensures At(s, p, x) && Without(s, x) == Cut(s, p)
  {
    if s[0] == x {
      p := 0;
      assert Cut(s, 0) == s[1..];
    } else {
      assert s == [s[0]] + s[1..];
      var q := WithoutCuts(s[1..], x);
      p := q + 1;
      assert Cut(s, p) == [s[0]] + Cut(s[1..], q);
    }
  }

  /** The element at `p` is last now, and the others are in their order. */
  ghost predicate MovedToEnd(was: seq<nat>, p: nat, x: nat, now: seq<nat>) {
    At(was, p, x) && now == was[..p] + was[p + 1..] + [x]
  }

  /** refs is what callers hold, plus one if the cache itself holds the entry, plus `extra`. */
  ghost predicate Counted(refs: map<nat, nat>, handles: multiset<nat>, lru: seq<nat>, extra: multiset<nat>) {
    && Distinct(lru) && (forall x :: x in lru || x in handles || x in extra ==> x in refs)
    && forall x :: x in refs ==> refs[x] > 0 && refs[x] == handles[x] + extra[x] + if x in lru then 1 else 0
  }

  /** Every entry ever allocated is live or has been deleted, once. */
  ghost predicate Recorded(info: Infos, refs: map<nat, nat>, deleted: seq<nat>, n: nat) {
    && (forall x: nat :: x in info <==> x < n) && Distinct(deleted)
    && (forall x :: x in refs ==> x in info && x !in deleted) && (forall x :: x in deleted ==> x < n)
    && (forall x: nat :: x < n ==> x in refs || x in deleted)
  }

  lemma NoEntries(lru: seq<nat>)
    requires lru == []
    ensures Elements(lru) == {}
  {}

  lemma EnterList(refs: map<nat, nat>, handles: multiset<nat>, lru: seq<nat>, e: nat)
    requires Counted(refs, handles, lru, multiset{}) && e !in refs
    ensures Counted(refs[e := 2], handles + multiset{e}, lru + [e], multiset{})
  {
    assert forall x :: x in lru + [e] <==> x in lru || x == e;
  }

  /** A new entry: one reference for the cache and one for the caller. */
  lemma OpenEntry(info: Infos, refs: map<nat, nat>, deleted: seq<nat>, n: nat, i: Info, n': nat)
    requires Recorded(info, refs, deleted, n) && n' == n + 1
    ensures n !in refs && Recorded(info[n := i], refs[n := 2], deleted, n')
    ensures Total(info[n := i], refs[n := 2].Keys, n') == Total(info, refs.Keys, n) + i.charge
  {
    TotalSame(info, info[n := i], refs.Keys, refs[n := 2].Keys, n);
  }

  /** The hash table does not notice entries it does not hold. */
  lemma TableKeeps(hash: Hash, info: Infos, n: nat, i: Info, buckets: seq<Chain>)
    requires TableOk(hash, info, buckets) && n !in info
    ensures TableOk(hash, info[n := i], buckets) && n !in Members(buckets)
  {}

  function Kept(lru: seq<nat>, replaced: Option<nat>): seq<nat> { if replaced.Some? then Without(lru, replaced.value)
                                                                  else lru }

  lemma OldestIs(lru: seq<nat>, x: nat)
    requires Distinct(lru) && lru != [] && x == lru[0]
    ensures Without(lru, x) == lru[1..] && Elements(lru[1..]) == Elements(lru) - {x} && x in Elements(lru)
  {
    assert lru == [x] + lru[1..];
    assert x !in lru[1..];
  }

  lemma OneMore(lru: seq<nat>, e: nat)
    ensures Elements(lru + [e]) == Elements(lru) + {e}
  {}

  lemma LeaveList(refs: map<nat, nat>, handles: multiset<nat>, lru: seq<nat>, e: nat)
    requires Counted(refs, handles, lru, multiset{}) && e in lru
    ensures Counted(refs, handles, Without(lru, e), multiset{e})
  {
    WithoutIs(lru, e);
  }

  /** A lookup moves the entry to the new end of the list and hands out one more reference. */
  lemma MoveToEnd(refs: map<nat, nat>, handles: multiset<nat>, lru: seq<nat>, e: nat)
    requires Counted(refs, handles, lru, multiset{}) && e in lru
    ensures Counted(refs[e := refs[e] + 1], handles + multiset{e}, Without(lru, e) + [e], multiset{})
    ensures Elements(Without(lru, e) + [e]) == Elements(lru)
  {
    WithoutIs(lru, e);
    var after := Without(lru, e) + [e];
    forall x ensures x in after <==> x in lru {}
  }

  lemma DropRef(refs: map<nat, nat>, handles: multiset<nat>, lru: seq<nat>, e: nat, refs': map<nat, nat>)
    requires Counted(refs, handles, lru, multiset{e})
    requires refs' == if refs[e] == 1 then refs - {e} else refs[e := refs[e] - 1]
    ensures e in refs && Counted(refs', handles, lru, multiset{}) && (refs[e] == 1 ==> e !in lru && e !in handles)
  {}

  lemma CloseEntry(info: Infos, refs: map<nat, nat>, deleted: seq<nat>, n: nat, e: nat, refs': map<nat, nat>)
    requires Recorded(info, refs, deleted, n) && e in refs && refs' == refs - {e}
    ensures Recorded(info, refs', deleted + [e], n)
  {
    assert forall x :: x in deleted + [e] <==> x in deleted || x == e;
  }

  ghost predicate Sound(info: Infos, refs: map<nat, nat>, handles: multiset<nat>, lru: seq<nat>, extra: multiset<nat>,
                        deleted: seq<nat>, n: nat, usage: nat) {
    Counted(refs, handles, lru, extra) && Recorded(info, refs, deleted, n) && usage == Total(info, refs.Keys, n)
  }

  lemma SoundAfterNew(info: Infos, refs: map<nat, nat>, handles: multiset<nat>, lru: seq<nat>, deleted: seq<nat>,
                      n: nat, usage: nat, i: Info, info': Infos, refs': map<nat, nat>, n': nat, usage': nat)
    requires Sound(info, refs, handles, lru, multiset{}, deleted, n, usage)
    requires info' == info[n := i] && refs' == refs[n := 2] && n' == n + 1 && usage' == usage + i.charge
    ensures n !in info && Sound(info', refs', handles + multiset{n}, lru + [n], multiset{}, deleted, n', usage')
  {
    OpenEntry(info, refs, deleted, n, i, n');
    EnterList(refs, handles, lru, n);
  }

  // ---------- What the cache stands for ----------

  /** The entries in the cache from the oldest to the newest, the handles callers hold, and the entries
      whose deleters have run, in that order. */
  datatype Cache = Cache(count: nat, list: seq<nat>, info: Infos, held: multiset<nat>, deleted: seq<nat>)

  /** Charge of the entries whose deleters have not run. */
  ghost function Usage(c: Cache): nat { Total(c.info, c.info.Keys - Elements(c.deleted), c.count) }

  ghost function Find(list: seq<nat>, info: Infos, key: Key): Option<nat> {
    if list == [] then None
    else if list[0] in info && info[list[0]].key == key then Some(list[0])
    else Find(list[1..], info, key)
  }

  /** A deleter runs as soon as its entry is neither in the cache nor held. */
  ghost function Settle(c: Cache, e: nat): Cache {
    if e in c.list || e in c.held then c else c.(deleted := c.deleted + [e])
  }

  ghost function Drop(c: Cache, e: Option<nat>): Cache {
    if e.Some? then Settle(c.(list := Without(c.list, e.value)), e.value) else c
  }

  /** The oldest entries go while the charge is too high. */
  ghost function Evicted(c: Cache, capacity: nat): Cache
    decreases |c.list|
  {
    if Usage(c) > capacity && c.list != [] then
      var after := c.(list := c.list[1..]);
      Evicted(Settle(after, c.list[0]), capacity)
    else c
  }

  ghost function Inserted(c: Cache, i: Info, capacity: nat): Cache {
    var e := c.count;
    var more := Cache(e + 1, c.list + [e], c.info[e := i], c.held + multiset{e}, c.deleted);
    Evicted(Drop(more, Find(c.list, c.info, i.key)), capacity)
  }

  lemma {:induction false} InsertedIs(c: Cache, i: Info, capacity: nat, more: Cache, kept: Cache)
    requires more == Cache(c.count + 1, c.list + [c.count], c.info[c.count := i], c.held + multiset{c.count}, c.deleted)
    requires kept == Drop(more, Find(c.list, c.info, i.key))
    ensures Inserted(c, i, capacity) == Evicted(kept, capacity)
  {}

  ghost function LookedUp(c: Cache, e: Option<nat>): Cache {
    if e.Some? then c.(list := Without(c.list, e.value) + [e.value], held := c.held + multiset{e.value}) else c
  }

  ghost function Released(c: Cache, h: nat): Cache {
    Settle(c.(held := c.held - multiset{h}), h)
  }

  lemma {:induction false} FindIs(list: seq<nat>, info: Infos, key: Key, ids: set<nat>, r: Option<nat>)
    requires KeysDiffer(info, ids) && Holds(info, ids, key, r)
    requires forall x :: x in list ==> x in ids
    requires r.Some? ==> r.value in list
    ensures Find(list, info, key) == r
  {
    if list != [] && !(list[0] in info && info[list[0]].key == key) {
      assert list == [list[0]] + list[1..];
      FindIs(list[1..], info, key, ids, r);
    }
  }

  lemma FindInCache(list: seq<nat>, info: Infos, key: Key, r: Option<nat>)
    requires KeysDiffer(info, Elements(list)) && Holds(info, Elements(list), key, r)
    ensures Find(list, info, key) == r
  {
    FindIs(list, info, key, Elements(list), r);
  }

  lemma UsageIs(info: Infos, refs: map<nat, nat>, deleted: seq<nat>, n: nat)
    requires Recorded(info, refs, deleted, n)
    ensures refs.Keys == info.Keys - Elements(deleted)
  {}

  class LRUCache {
    const capacity: nat
    const table: HandleTable
    var usage: nat
    /** The LRU list from the oldest entry to the newest. */
    var lru: seq<nat>
    var info: Infos
    var refs: map<nat, nat>
    var count: nat
    /** The deleter calls made so far, and the handles callers hold. */
    var deleted: seq<nat>
    ghost var handles: multiset<nat>

    constructor (capacity: nat, hash: Hash)
      ensures Valid() && fresh(table) && this.capacity == capacity && lru == [] && handles == multiset{}
        && deleted == []
    {
      this.capacity := capacity;
      table := new HandleTable(hash);
      usage, lru, info, refs, count := 0, [], map[], map[], 0;
      handles, deleted := multiset{}, [];
      new;
      NoEntries(lru);
    }

    ghost function View(): Cache
      reads this
    {
      Cache(count, lru, info, handles, deleted)
    }

    /** Everything but the hash table, with some references not yet accounted for. */
    ghost predicate Core(extra: multiset<nat>)
      reads this
    {
      Sound(info, refs, handles, lru, extra, deleted, count, usage)
    }

    /** The hash table and the LRU list hold the same entries, and the counts are right. */
    ghost predicate Valid()
      reads this, table
    {
      Core(multiset{}) && table.Valid(info) && Members(table.buckets) == Elements(lru)
    }

    /** Unref: the last reference runs the deleter and frees the entry. */
    method Unref(e: nat)
      requires Core(multiset{e})
      modifies this`refs, this`usage, this`deleted
      ensures Core(multiset{}) && refs.Keys <= old(refs).Keys
      ensures View() == Settle(old(View()), e)
    {
      var left := refs[e] - 1;
      ghost var before := refs;
      if left == 0 {
        refs := refs - {e};
        DropRef(before, handles, lru, e, refs);
        TotalWithout(info, before.Keys, e, count);
        CloseEntry(info, before, deleted, count, e, refs);
        usage := usage - info[e].charge;
        deleted := deleted + [e];
        assert refs.Keys == before.Keys - {e};
      } else {
        refs := refs[e := left];
        DropRef(before, handles, lru, e, refs);
        assert refs.Keys == before.Keys;
      }
    }

    /** Lookup: a hit hands out one more handle and makes the entry the newest. */
    method Lookup(key: Key) returns (e: Option<nat>)
      requires Valid()
      modifies this
      ensures Valid() && Elements(lru) == old(Elements(lru)) && usage == old(usage)
      ensures e == Find(old(lru), info, key) && (e.Some? ==> e.value in info)
      ensures View() == LookedUp(old(View()), e)
      ensures if e.None? then lru == old(lru) else exists p: nat :: MovedToEnd(old(lru), p, e.value, lru)
    {
      e := table.Lookup(info, key);
      FindInCache(lru, info, key, e);
      if e.Some? {
        var x := e.value;
        MoveToEnd(refs, handles, lru, x);
        assert refs[x := refs[x] + 1].Keys == refs.Keys;
        refs := refs[x := refs[x] + 1];
        handles := handles + multiset{x};
        ghost var was := lru;
        ghost var p := WithoutCuts(lru, x);
        lru := Without(lru, x) + [x];
        assert MovedToEnd(was, p, x, lru);
      }
    }

    /** Release: the caller gives back one handle. */
    method Release(h: nat)
      requires Valid() && h in handles
      modifies this
      ensures Valid() && View() == Released(old(View()), h)
    {
      handles := handles - multiset{h};
      Unref(h);
    }

    /** Erase: the entry leaves the cache; it lives on as long as someone holds it. */
    method Erase(key: Key)
      requires Valid()
      modifies this, table
      ensures Valid() && View() == Drop(old(View()), Find(old(lru), info, key))
      ensures Holds(info, Elements(lru), key, None)
    {
      ghost var before := Elements(lru);
      var e := table.Remove(info, key);
      FindInCache(lru, info, key, e);
      if e.Some? {
        LeaveList(refs, handles, lru, e.value);
        WithoutIs(lru, e.value);
        lru := Without(lru, e.value);
        Unref(e.value);
      }
    }

    /** Insert: a new entry takes its key's place and becomes the newest; then the oldest entries go
        until the charge fits or nothing is left to evict. */
    method Insert(key: Key, value: int, charge: nat) returns (e: nat)
      requires Valid()
      modifies this, table
      ensures Valid() && e == old(count) && (usage <= capacity || lru == [])
      ensures View() == Inserted(old(View()), Info(key, value, charge), capacity)
      ensures handles == old(handles) + multiset{e}
    {
      ghost var was := View();
      e := Allocate(Info(key, value, charge));
      ghost var more := View();
      Enter(e, was.list, was.info);
      ghost var kept := View();
      Evict();
      InsertedIs(was, Info(key, value, charge), capacity, more, kept);
    }

    /** Into the table, in place of whatever had the key. */
    method Enter(e: nat, ghost was: seq<nat>, ghost before: Infos)
      requires Core(multiset{}) && table.Valid(info) && lru == was + [e] && e in info && e !in was
      requires Members(table.buckets) == Elements(was) && info == before[e := info[e]] && e !in before
      modifies this`lru, this`refs, this`usage, this`deleted, table
      ensures Valid() && View() == Drop(old(View()), Find(was, before, info[e].key))
    {
      var x := table.Insert(info, e);
      FindInCache(was, before, info[e].key, x);
      if x.Some? {
        Displace(e, x.value, was);
      } else {
        OneMore(was, e);
      }
    }

    /** The entry that lost its place in the table leaves the list too. */
    method Displace(e: nat, x: nat, ghost was: seq<nat>)
      requires Core(multiset{}) && table.Valid(info) && lru == was + [e] && x in was && x != e
      requires Members(table.buckets) == Elements(was) - {x} + {e}
      modifies this`lru, this`refs, this`usage, this`deleted
      ensures Valid() && View() == Drop(old(View()), Some(x))
    {
      LeaveList(refs, handles, lru, x);
      WithoutIs(lru, x);
      lru := Without(lru, x);
      assert Elements(lru) == Elements(was) - {x} + {e};
      Unref(x);
    }

    /** Drop the oldest entries while the charge is too high. */
    method Evict()
      requires Valid()
      modifies this`lru, this`refs, this`usage, this`deleted, table
      ensures Valid() && (usage <= capacity || lru == [])
      ensures View() == Evicted(old(View()), capacity)
    {
      UsageIs(info, refs, deleted, count);
      while usage > capacity && lru != []
        invariant Valid() && Evicted(View(), capacity) == Evicted(old(View()), capacity) && usage == Usage(View())
        decreases |lru|
      {
        EvictOldest();
        UsageIs(info, refs, deleted, count);
      }
    }

    method EvictOldest()
      requires Valid() && lru != []
      modifies this`lru, this`refs, this`usage, this`deleted, table
      ensures Valid() && View() == Settle(old(View()).(list := old(lru)[1..]), old(lru)[0])
    {
      var x := lru[0];
      LeaveList(refs, handles, lru, x);
      OldestIs(lru, x);
      var r := table.Remove(info, info[x].key);
      assert r == Some(x);
      lru := lru[1..];
      Unref(x);
    }

    /** The new entry, on the list and in the caller's hands, but not yet in the table. */
    method Allocate(i: Info) returns (e: nat)
      requires Valid()
      modifies this
      ensures e == old(count) && info == old(info)[e := i] && e !in old(info)
      ensures View() == Cache(e + 1, old(lru) + [e], info, old(handles) + multiset{e}, old(deleted))
      ensures Core(multiset{}) && table.Valid(info) && Members(table.buckets) == old(Elements(lru))
        && e !in Members(table.buckets)
    {
      e := count;
      var info', refs', count', usage' := info[e := i], refs[e := 2], count + 1, usage + i.charge;
      SoundAfterNew(info, refs, handles, lru, deleted, count, usage, i, info', refs', count', usage');
      TableKeeps(table.hash, info, e, i, table.buckets);
      info, refs, count, usage, lru := info', refs', count', usage', lru + [e];
      handles := handles + multiset{e};
      assert Sound(info, refs, handles, lru, multiset{}, deleted, count, usage);
    }
  }

  // ---------- Every run ----------

  /** What a client does. `Release(i)` gives back the i-th of the handles it holds. */
  datatype Command = Insert(key: Key, value: int, charge: nat) | Lookup(key: Key) | Release(i: nat) | Erase(key: Key)

  /** The value found, and the deleter calls made, with key and value. */
  datatype Answer = Answer(found: Option<int>, deletions: seq<(Key, int)>)

  /** The cache, and the client's handles in the order it got them. */
  datatype World = World(cache: Cache, mine: seq<nat>)

  ghost function Next(w: World, cmd: Command, capacity: nat): World {
    match cmd
    case Insert(key, value, charge) =>
      World(Inserted(w.cache, Info(key, value, charge), capacity), w.mine + [w.cache.count])
    case Lookup(key) =>
      var e := Find(w.cache.list, w.cache.info, key);
      World(LookedUp(w.cache, e), if e.Some? then w.mine + [e.value] else w.mine)
    case Release(i) =>
      if i < |w.mine| then World(Released(w.cache, w.mine[i]), w.mine[..i] + w.mine[i + 1..]) else w
    case Erase(key) => w.(cache := Drop(w.cache, Find(w.cache.list, w.cache.info, key)))
  }

  ghost function FoundBy(w: World, cmd: Command): Option<int> {
    if !cmd.Lookup? then None
    else
      var e := Find(w.cache.list, w.cache.info, cmd.key);
      if e.Some? && e.value in w.cache.info then Some(w.cache.info[e.value].value) else None
  }

  /** Deleter calls recorded from position n on. */
  function CallsFrom(info: Infos, deleted: seq<nat>, n: nat): seq<(Key, int)>
    decreases |deleted| - n
  {
    if n >= |deleted| then []
    else [if deleted[n] in info then (info[deleted[n]].key, info[deleted[n]].value) else ("", 0)]
         + CallsFrom(info, deleted, n + 1)
  }

  ghost function AnswerTo(w: World, cmd: Command, capacity: nat): Answer {
    var after := Next(w, cmd, capacity).cache;
    Answer(FoundBy(w, cmd), CallsFrom(after.info, after.deleted, |w.cache.deleted|))
  }

  /** The lists and maps fit together, as they do in every run. */
  ghost predicate Ok(c: Cache) {
    && Distinct(c.list) && (forall x: nat :: x in c.info <==> x < c.count)
    && (forall x :: x in c.list || x in c.held || x in c.deleted ==> x < c.count)
    && (forall x: nat :: x < c.count ==> (x in c.deleted <==> x !in c.list && x !in c.held))
    && KeysDiffer(c.info, Elements(c.list))
  }

  ghost predicate WorldOk(w: World) { Ok(w.cache) && multiset(w.mine) == w.cache.held }

  const NEW_WORLD: World := World(Cache(0, [], map[], multiset{}, []), [])

  ghost function Run(cmds: seq<Command>, n: nat, capacity: nat): World
    requires n <= |cmds|
  {
    if n == 0 then NEW_WORLD else Next(Run(cmds, n - 1, capacity), cmds[n - 1], capacity)
  }

  ghost function Answers(cmds: seq<Command>, n: nat, capacity: nat): seq<Answer>
    requires n <= |cmds|
  {
    if n == 0 then []
    else Answers(cmds, n - 1, capacity) + [AnswerTo(Run(cmds, n - 1, capacity), cmds[n - 1], capacity)]
  }

  lemma {:induction false} RunNext(cmds: seq<Command>, i: nat, n: nat, capacity: nat)
    requires n == i + 1 <= |cmds|
    ensures Run(cmds, n, capacity) == Next(Run(cmds, i, capacity), cmds[i], capacity)
    ensures Answers(cmds, n, capacity)
         == Answers(cmds, i, capacity) + [AnswerTo(Run(cmds, i, capacity), cmds[i], capacity)]
  {}

  lemma TakeOut(mine: seq<nat>, i: nat, after: seq<nat>)
    requires i < |mine| && after == mine[..i] + mine[i + 1..]
    ensures multiset(after) == multiset(mine) - multiset{mine[i]} && mine[i] in multiset(mine)
  {
    assert mine == mine[..i] + [mine[i]] + mine[i + 1..];
  }

  method DoInsert(c: LRUCache, mine: seq<nat>, key: Key, value: int, charge: nat) returns (mine': seq<nat>)
    requires c.Valid() && multiset(mine) == c.handles
    modifies c, c.table
    ensures c.Valid() && multiset(mine') == c.handles
    ensures World(c.View(), mine') == Next(World(old(c.View()), mine), Insert(key, value, charge), c.capacity)
  {
    var e := c.Insert(key, value, charge);
    mine' := mine + [e];
  }

  method DoLookup(c: LRUCache, mine: seq<nat>, key: Key) returns (mine': seq<nat>, found: Option<int>)
    requires c.Valid() && multiset(mine) == c.handles
    modifies c
    ensures c.Valid() && multiset(mine') == c.handles
    ensures World(c.View(), mine') == Next(World(old(c.View()), mine), Lookup(key), c.capacity)
    ensures found == FoundBy(World(old(c.View()), mine), Lookup(key))
  {
    mine', found := mine, None;
    var e := c.Lookup(key);
    if e.Some? {
      mine', found := mine + [e.value], Some(c.info[e.value].value);
    }
  }

  method DoRelease(c: LRUCache, mine: seq<nat>, i: nat) returns (mine': seq<nat>)
    requires c.Valid() && multiset(mine) == c.handles
    modifies c
    ensures c.Valid() && multiset(mine') == c.handles
    ensures World(c.View(), mine') == Next(World(old(c.View()), mine), Release(i), c.capacity)
  {
    mine' := mine;
    if i < |mine| {
      mine' := mine[..i] + mine[i + 1..];
      TakeOut(mine, i, mine');
      c.Release(mine[i]);
    }
  }

  /** One call has exactly the effect it has on the age-ordered list. */
  method DoCommand(c: LRUCache, mine: seq<nat>, cmd: Command) returns (mine': seq<nat>, found: Option<int>)
    requires c.Valid() && multiset(mine) == c.handles
    modifies c, c.table
    ensures c.Valid() && multiset(mine') == c.handles
    ensures World(c.View(), mine') == Next(World(old(c.View()), mine), cmd, c.capacity)
    ensures found == FoundBy(World(old(c.View()), mine), cmd)
  {
    mine', found := mine, None;
    match cmd {
      case Insert(key, value, charge) => mine' := DoInsert(c, mine, key, value, charge);
      case Lookup(key) => mine', found := DoLookup(c, mine, key);
      case Release(i) => mine' := DoRelease(c, mine, i);
      case Erase(key) => c.Erase(key);
    }
  }

  /** Any list of calls, with handles kept and given back in any order, finds what the age-ordered list
      holds, and runs exactly its deleters, call by call. */
  method Execute(capacity: nat, hash: Hash, cmds: seq<Command>) returns (answers: seq<Answer>)
    ensures answers == Answers(cmds, |cmds|, capacity)
  {
    var c := new LRUCache(capacity, hash);
    var mine: seq<nat> := [];
    answers := [];
    for i := 0 to |cmds|
      invariant c.Valid() && multiset(mine) == c.handles && c.capacity == capacity && fresh(c) && fresh(c.table)
      invariant World(c.View(), mine) == Run(cmds, i, capacity) && answers == Answers(cmds, i, capacity)
    {
      var n := |c.deleted|;
      var found;
      mine, found := DoCommand(c, mine, cmds[i]);
      RunNext(cmds, i, i + 1, capacity);
      answers := answers + [Answer(found, CallsFrom(c.info, c.deleted, n))];
    }
  }
}
