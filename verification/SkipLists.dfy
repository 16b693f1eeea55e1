/** The memtable's skip list, store by store.

    Nodes live in an arena and are named by their index in it; node 0 is the head. One writer links
    a new node level by level, one pointer store at a time, while readers walk the same links. */
module SkipLists {
  const MAX_HEIGHT: nat := 12
  const HEAD: nat := 0

  datatype Link = Uninit | Null | To(node: nat)

  /** Shared memory: keys and links never move, links are stored one at a time. */
  datatype Mem = Mem(keys: seq<int>, next: seq<seq<Link>>, maxHeight: nat)

  // ---------- What the links mean ----------

  /** The nodes of one level, in order. */
  type Chain = seq<nat>

  function Before(chain: Chain, k: nat): nat
    requires k <= |chain|
  {
    if k == 0 then HEAD else chain[k - 1]
  }

  function LinkAt(chain: Chain, k: nat): Link { if k < |chain| then To(chain[k]) else Null }

  predicate HasLink(mem: Mem, n: nat, l: nat) { n < |mem.next| && l < |mem.next[n]| }

  ghost predicate Ascending(keys: seq<int>, chain: Chain) {
    && (forall k :: 0 <= k < |chain| ==> 0 < chain[k] < |keys|)
    && (forall j, k :: 0 <= j < k < |chain| ==> keys[chain[j]] < keys[chain[k]])
  }

  /** Following the links of level `l` from the head visits exactly the chain. */
  ghost predicate Follows(mem: Mem, chain: Chain, l: nat) {
    forall k :: 0 <= k <= |chain| ==>
      && HasLink(mem, Before(chain, k), l)
      && mem.next[Before(chain, k)][l] == LinkAt(chain, k)
  }

  ghost predicate LevelOk(mem: Mem, chain: Chain, l: nat) { Ascending(mem.keys, chain) && Follows(mem, chain, l) }

  ghost predicate Sublist(upper: Chain, lower: Chain) { forall n :: n in upper ==> n in lower }

  /** Each level is a sorted sublist of the one below, and no link on it is uninitialised. */
  ghost predicate MemOk(mem: Mem, chains: seq<Chain>) {
    && |chains| == MAX_HEIGHT && 1 <= mem.maxHeight <= MAX_HEIGHT && |mem.keys| == |mem.next|
    && (forall l :: 0 <= l < MAX_HEIGHT ==> LevelOk(mem, chains[l], l))
    && (forall l :: mem.maxHeight <= l < MAX_HEIGHT ==> chains[l] == [])
    && (forall l :: 0 < l < MAX_HEIGHT ==> Sublist(chains[l], chains[l - 1]))
  }

  // ---------- Positions of a key ----------

  /** How many nodes of the chain have keys below `key`. */
  ghost function Rank(keys: seq<int>, chain: Chain, key: int): (r: nat)
    requires Ascending(keys, chain)
    ensures r <= |chain|
    ensures forall k :: 0 <= k < r ==> keys[chain[k]] < key
    ensures forall k :: r <= k < |chain| ==> keys[chain[k]] >= key
  {
    if chain == [] || keys[chain[|chain| - 1]] < key then |chain| else Rank(keys, chain[..|chain| - 1], key)
  }

  lemma RankIs(keys: seq<int>, chain: Chain, key: int, r: nat)
    requires Ascending(keys, chain) && r <= |chain|
    requires (r > 0 ==> keys[chain[r - 1]] < key) && (r < |chain| ==> keys[chain[r]] >= key)
    ensures Rank(keys, chain, key) == r
  {
    var q := Rank(keys, chain, key);
    assert 0 <= q <= |chain|;
  }

  // ---------- Searching ----------

  /** A search may stand at the head, or at a node of its level with a smaller key. */
  ghost predicate Standing(mem: Mem, chain: Chain, x: nat, key: int) {
    x == HEAD || (x in chain && x < |mem.keys| && mem.keys[x] < key)
  }

  lemma StandsBefore(mem: Mem, chain: Chain, l: nat, x: nat, key: int) returns (k: nat)
    requires LevelOk(mem, chain, l) && Standing(mem, chain, x, key)
    ensures k <= |chain| && x == Before(chain, k) && k <= Rank(mem.keys, chain, key)
    ensures HasLink(mem, x, l) && mem.next[x][l] == LinkAt(chain, k)
  {
    if x == HEAD {
      k := 0;
    } else {
      var j :| 0 <= j < |chain| && chain[j] == x;
      k := j + 1;
    }
    assert Follows(mem, chain, l);
  }

  predicate KeyIsAfterNode(mem: Mem, key: int, link: Link) {
    link.To? && link.node < |mem.keys| && mem.keys[link.node] < key
  }

  /** One turn of a search: forward along the level, or the level is exhausted. */
  lemma SearchTurn(mem: Mem, chain: Chain, l: nat, x: nat, key: int, link: Link)
    requires LevelOk(mem, chain, l) && Standing(mem, chain, x, key)
    requires HasLink(mem, x, l) && link == mem.next[x][l]
    ensures !link.Uninit? && (link.To? ==> 0 < link.node < |mem.keys| && link.node in chain)
    ensures KeyIsAfterNode(mem, key, link) ==> Standing(mem, chain, link.node, key)
    ensures !KeyIsAfterNode(mem, key, link) ==>
      var r := Rank(mem.keys, chain, key);
      x == Before(chain, r) && link == LinkAt(chain, r)
  {
    var k := StandsBefore(mem, chain, l, x, key);
    if !KeyIsAfterNode(mem, key, link) { RankIs(mem.keys, chain, key, k); }
  }

  /** Dropping a level keeps the search standing. */
  lemma DropLevel(mem: Mem, chains: seq<Chain>, l: nat, x: nat, key: int)
    requires MemOk(mem, chains) && 0 < l < MAX_HEIGHT && Standing(mem, chains[l], x, key)
    ensures Standing(mem, chains[l - 1], x, key)
  {
    assert Sublist(chains[l], chains[l - 1]);
  }

  // ---------- Single stores ----------

  function Store(mem: Mem, n: nat, l: nat, link: Link): Mem
    requires HasLink(mem, n, l)
  {
    mem.(next := mem.next[n := mem.next[n][l := link]])
  }

  function Allocate(mem: Mem, key: int, height: nat): Mem {
    mem.(keys := mem.keys + [key], next := mem.next + [seq(height, _ => Uninit)])
  }

  function Spliced(chain: Chain, r: nat, x: nat): Chain
    requires r <= |chain|
  {
    chain[..r] + [x] + chain[r..]
  }

  lemma BeforeIs(chain: Chain, k: nat)
    requires k <= |chain|
    ensures Before(chain, k) == HEAD || Before(chain, k) in chain
  {}

  /** A store at another level, or to a node that is not on the level, is not seen on it. */
  lemma StoreElsewhere(mem: Mem, mem': Mem, chain: Chain, l: nat, n: nat, i: nat, link: Link)
    requires LevelOk(mem, chain, l) && HasLink(mem, n, i) && mem' == Store(mem, n, i, link)
    requires l != i || (n != HEAD && n !in chain)
    ensures LevelOk(mem', chain, l)
  {
    forall k | 0 <= k <= |chain|
      ensures HasLink(mem', Before(chain, k), l) && mem'.next[Before(chain, k)][l] == LinkAt(chain, k)
    {
      BeforeIs(chain, k);
    }
  }

  lemma SplicedAscending(keys: seq<int>, chain: Chain, key: int, x: nat, r: nat)
    requires Ascending(keys, chain) && r == Rank(keys, chain, key) && 0 < x < |keys| && keys[x] == key
    requires forall n :: n in chain ==> n < |keys| && keys[n] != key
    ensures Ascending(keys, Spliced(chain, r, x))
  {
    forall k | r <= k < |chain| ensures keys[chain[k]] > key { assert chain[k] in chain; }
  }

  /** Publishing a node whose own link is already set puts it into the level. */
  lemma StorePublishes(mem: Mem, mem': Mem, chain: Chain, l: nat, key: int, x: nat, r: nat)
    requires LevelOk(mem, chain, l) && r == Rank(mem.keys, chain, key) && 0 < x < |mem.keys| && mem.keys[x] == key
    requires forall n :: n in chain ==> n < |mem.keys| && mem.keys[n] != key
    requires HasLink(mem, x, l) && mem.next[x][l] == LinkAt(chain, r)
    requires HasLink(mem, Before(chain, r), l) && mem' == Store(mem, Before(chain, r), l, To(x))
    ensures LevelOk(mem', Spliced(chain, r, x), l)
  {
    SplicedAscending(mem.keys, chain, key, x, r);
    var chain', p := Spliced(chain, r, x), Before(chain, r);
    assert x != HEAD && x !in chain;
    forall k | 0 <= k <= |chain'|
      ensures HasLink(mem', Before(chain', k), l) && mem'.next[Before(chain', k)][l] == LinkAt(chain', k)
    {
      PublishedAt(mem, mem', chain, l, x, r, chain', k);
    }
  }

  lemma PublishedAt(mem: Mem, mem': Mem, chain: Chain, l: nat, x: nat, r: nat, chain': Chain, k: nat)
    requires LevelOk(mem, chain, l) && r <= |chain| && x != HEAD && x !in chain && chain' == Spliced(chain, r, x)
    requires HasLink(mem, x, l) && mem.next[x][l] == LinkAt(chain, r)
    requires HasLink(mem, Before(chain, r), l) && mem' == Store(mem, Before(chain, r), l, To(x)) && k <= |chain'|
    ensures HasLink(mem', Before(chain', k), l) && mem'.next[Before(chain', k)][l] == LinkAt(chain', k)
  {
    BeforeIs(chain, r);
    if k < r {
      assert Before(chain', k) == Before(chain, k) != Before(chain, r) by { BeforeDistinct(mem.keys, chain, k, r); }
    } else if k > r + 1 {
      assert Before(chain', k) == Before(chain, k - 1) != Before(chain, r) by { BeforeDistinct(mem.keys, chain, r,
          k - 1); }
    }
  }

  lemma BeforeDistinct(keys: seq<int>, chain: Chain, j: nat, k: nat)
    requires Ascending(keys, chain) && j < k <= |chain|
    ensures Before(chain, j) != Before(chain, k)
  {}

  lemma AllocateUnseen(mem: Mem, mem': Mem, chain: Chain, l: nat, key: int, height: nat)
    requires LevelOk(mem, chain, l) && |mem.keys| == |mem.next| && mem' == Allocate(mem, key, height)
    ensures LevelOk(mem', chain, l)
  {
    forall k | 0 <= k <= |chain|
      ensures HasLink(mem', Before(chain, k), l) && mem'.next[Before(chain, k)][l] == LinkAt(chain, k)
    {
      assert HasLink(mem, Before(chain, k), l);
    }
  }

  // ---------- The writer, one store at a time ----------

  datatype Writer =
    | Resting
    | Searched(key: int, height: nat, prev: seq<nat>)
    | Raised(key: int, height: nat, prev: seq<nat>)
    | Linking(key: int, height: nat, prev: seq<nat>, x: nat, i: nat, own: bool)

  ghost predicate Absent(mem: Mem, chain: Chain, key: int) { forall n :: n in chain ==>
    n < |mem.keys| && mem.keys[n] != key }

  /** The writer knows where the key goes on every level it still has to link. */
  ghost predicate KnowsPrev(mem: Mem, chains: seq<Chain>, key: int, height: nat, prev: seq<nat>, from: nat)
    requires MemOk(mem, chains)
  {
    && from <= height <= MAX_HEIGHT && |prev| == height
    && forall l :: from <= l < height ==>
      Absent(mem, chains[l], key) && prev[l] == Before(chains[l], Rank(mem.keys, chains[l], key))
  }

  ghost predicate WriterOk(mem: Mem, chains: seq<Chain>, w: Writer)
    requires MemOk(mem, chains)
  {
    match w
    case Resting => true
    case Searched(key, height, prev) => 1 <= height && KnowsPrev(mem, chains, key, height, prev, 0)
    case Raised(key, height, prev) => 1 <= height <= mem.maxHeight && KnowsPrev(mem, chains, key, height, prev, 0)
    case Linking(key, height, prev, x, i, own) =>
      && i < height <= mem.maxHeight && KnowsPrev(mem, chains, key, height, prev, i)
      && 0 < x < |mem.keys| && mem.keys[x] == key && |mem.next[x]| == height
      && (forall l :: 0 <= l < i ==> x in chains[l])
      && (own ==> mem.next[x][i] == LinkAt(chains[i], Rank(mem.keys, chains[i], key)))
  }

  // ---------- Readers, one load at a time ----------

  /** FindGreaterOrEqual under way, or returned. `at` is level 0 as it was at the last load. */
  datatype Reader = Walking(target: int, x: nat, level: nat) | Returned(target: int, link: Link, at: Chain)

  ghost predicate ReaderOk(mem: Mem, chains: seq<Chain>, r: Reader)
    requires |chains| == MAX_HEIGHT
  {
    match r
    case Walking(target, x, level) => level < MAX_HEIGHT && Standing(mem, chains[level], x, target)
    case Returned(target, link, at) =>
      Ascending(mem.keys, at) && Sublist(at, chains[0]) && link == LinkAt(at, Rank(mem.keys, at, target))
  }

  ghost function Load(mem: Mem, chains: seq<Chain>, r: Reader): Reader
    requires MemOk(mem, chains) && r.Walking? && HasLink(mem, r.x, r.level)
  {
    var next := mem.next[r.x][r.level];
    if KeyIsAfterNode(mem, r.target, next) then r.(x := next.node)
    else if r.level == 0 then Returned(r.target, next, chains[0])
    else r.(level := r.level - 1)
  }

  /** Every load finds an initialised link, and the last one finds the answer. */
  lemma LoadOk(mem: Mem, chains: seq<Chain>, r: Reader)
    requires MemOk(mem, chains) && ReaderOk(mem, chains, r) && r.Walking?
    ensures HasLink(mem, r.x, r.level) && !mem.next[r.x][r.level].Uninit?
    ensures ReaderOk(mem, chains, Load(mem, chains, r))
  {
    assert LevelOk(mem, chains[r.level], r.level);
    var k := StandsBefore(mem, chains[r.level], r.level, r.x, r.target);
    var next := mem.next[r.x][r.level];
    SearchTurn(mem, chains[r.level], r.level, r.x, r.target, next);
    if !KeyIsAfterNode(mem, r.target, next) && r.level > 0 { DropLevel(mem, chains, r.level, r.x, r.target); }
  }

  /** Nothing is ever taken away from readers. */
  ghost predicate Grows(mem: Mem, chains: seq<Chain>, mem': Mem, chains': seq<Chain>) {
    && |chains| == |chains'| == MAX_HEIGHT && mem.keys <= mem'.keys
    && forall l :: 0 <= l < MAX_HEIGHT ==> Sublist(chains[l], chains'[l])
  }

  lemma ReaderKeeps(mem: Mem, chains: seq<Chain>, mem': Mem, chains': seq<Chain>, r: Reader)
    requires Grows(mem, chains, mem', chains') && ReaderOk(mem, chains, r)
    ensures ReaderOk(mem', chains', r)
  {
    if r.Returned? {
      var q := Rank(mem.keys, r.at, r.target);
      RankIs(mem'.keys, r.at, r.target, q);
      assert Sublist(chains[0], chains'[0]);
    } else {
      assert Sublist(chains[r.level], chains'[r.level]);
    }
  }

  // ---------- All interleavings ----------

  datatype State = State(mem: Mem, chains: seq<Chain>, writer: Writer, readers: seq<Reader>)

  datatype Event =
    | BeginInsert(key: int, height: nat)
    | StoreHeight
    | NewNode
    | StoreOwn
    | StorePrev
    | StartSearch(target: int)
    | ReaderLoads(j: nat)

  ghost predicate Inv(s: State) {
    && MemOk(s.mem, s.chains) && WriterOk(s.mem, s.chains, s.writer)
    && forall j :: 0 <= j < |s.readers| ==> ReaderOk(s.mem, s.chains, s.readers[j])
  }

  ghost predicate Enabled(s: State, e: Event)
    requires Inv(s)
  {
    match e
    case BeginInsert(key, height) => s.writer.Resting? && 1 <= height <= MAX_HEIGHT && Absent(s.mem, s.chains[0], key)
    case StoreHeight => s.writer.Searched?
    case NewNode => s.writer.Raised?
    case StoreOwn => s.writer.Linking? && !s.writer.own
    case StorePrev => s.writer.Linking? && s.writer.own
    case StartSearch(_) => true
    case ReaderLoads(j) => j < |s.readers| && s.readers[j].Walking?
  }

  /** Where the key goes, level by level: the result of the writer's own search, and the head above it. */
  ghost function Places(mem: Mem, chains: seq<Chain>, key: int, height: nat): (prev: seq<nat>)
    requires MemOk(mem, chains) && height <= MAX_HEIGHT
    ensures |prev| == height && forall l :: 0 <= l < height ==>
      prev[l] == Before(chains[l], Rank(mem.keys, chains[l], key))
  {
    seq(height, l requires 0 <= l < height =>
      assert LevelOk(mem, chains[l], l);
      Before(chains[l], Rank(mem.keys, chains[l], key)))
  }

  lemma AbsentAbove(mem: Mem, chains: seq<Chain>, key: int, l: nat)
    requires MemOk(mem, chains) && Absent(mem, chains[0], key) && l < MAX_HEIGHT
    ensures Absent(mem, chains[l], key)
  {
    if l > 0 {
      AbsentAbove(mem, chains, key, l - 1);
      assert Sublist(chains[l], chains[l - 1]);
    }
  }

  lemma PrevHasLink(mem: Mem, chains: seq<Chain>, w: Writer)
    requires MemOk(mem, chains) && w.Linking? && WriterOk(mem, chains, w)
    ensures HasLink(mem, w.prev[w.i], w.i) && HasLink(mem, w.x, w.i)
    ensures mem.next[w.prev[w.i]][w.i] == LinkAt(chains[w.i], Rank(mem.keys, chains[w.i], w.key))
  {
    assert LevelOk(mem, chains[w.i], w.i);
  }

  ghost function Step(s: State, e: Event): State
    requires Inv(s) && Enabled(s, e)
  {
    var mem, w := s.mem, s.writer;
    match e
    case BeginInsert(key, height) => s.(writer := Searched(key, height, Places(mem, s.chains, key, height)))
    case StoreHeight =>
      s.(mem := if w.height > mem.maxHeight then mem.(maxHeight := w.height)
                else mem, writer := Raised(w.key, w.height, w.prev))
    case NewNode =>
      s.(mem := Allocate(mem, w.key, w.height), writer := Linking(w.key, w.height, w.prev, |mem.keys|, 0, false))
    case StoreOwn =>
      PrevHasLink(mem, s.chains, w);
      s.(mem := Store(mem, w.x, w.i, mem.next[w.prev[w.i]][w.i]), writer := w.(own := true))
    case StorePrev =>
      PrevHasLink(mem, s.chains, w);
      assert LevelOk(mem, s.chains[w.i], w.i);
      s.(mem := Store(mem, w.prev[w.i], w.i, To(w.x)),
         chains := s.chains[w.i := Spliced(s.chains[w.i], Rank(mem.keys, s.chains[w.i], w.key), w.x)],
         writer := if w.i + 1 == w.height then Resting else w.(i := w.i + 1, own := false))
    case StartSearch(target) => s.(readers := s.readers + [Walking(target, HEAD, mem.maxHeight - 1)])
    case ReaderLoads(j) =>
      LoadOk(mem, s.chains, s.readers[j]);
      s.(readers := s.readers[j := Load(mem, s.chains, s.readers[j])])
  }

  // ---------- Every step keeps the invariant ----------

  lemma RankStable(keys: seq<int>, keys': seq<int>, chain: Chain, key: int)
    requires Ascending(keys, chain) && keys <= keys'
    ensures Ascending(keys', chain) && Rank(keys', chain, key) == Rank(keys, chain, key)
  {
    RankIs(keys', chain, key, Rank(keys, chain, key));
  }

  lemma RaiseOk(mem: Mem, mem': Mem, chains: seq<Chain>)
    requires MemOk(mem, chains) && mem' == mem.(maxHeight := mem'.maxHeight)
      && mem.maxHeight <= mem'.maxHeight <= MAX_HEIGHT
    ensures MemOk(mem', chains)
  {
    forall l | 0 <= l < MAX_HEIGHT ensures LevelOk(mem', chains[l], l) { assert LevelOk(mem, chains[l], l); }
  }

  lemma KnowsStable(mem: Mem, mem': Mem, chains: seq<Chain>, key: int, height: nat, prev: seq<nat>, from: nat)
    requires MemOk(mem, chains) && MemOk(mem', chains) && mem.keys <= mem'.keys
      && KnowsPrev(mem, chains, key, height, prev, from)
    ensures KnowsPrev(mem', chains, key, height, prev, from)
  {
    forall l | from <= l < height
      ensures Absent(mem', chains[l], key) && prev[l] == Before(chains[l], Rank(mem'.keys, chains[l], key))
    {
      assert LevelOk(mem, chains[l], l) && LevelOk(mem', chains[l], l);
      RankStable(mem.keys, mem'.keys, chains[l], key);
    }
  }

  lemma AllocateOk(mem: Mem, mem': Mem, chains: seq<Chain>, key: int, height: nat)
    requires MemOk(mem, chains) && mem' == Allocate(mem, key, height)
    ensures MemOk(mem', chains)
  {
    forall l | 0 <= l < MAX_HEIGHT ensures LevelOk(mem', chains[l], l) {
      assert LevelOk(mem, chains[l], l);
      AllocateUnseen(mem, mem', chains[l], l, key, height);
    }
  }

  lemma OwnOk(mem: Mem, mem': Mem, chains: seq<Chain>, x: nat, i: nat, link: Link)
    requires MemOk(mem, chains) && HasLink(mem, x, i) && x != HEAD && i < MAX_HEIGHT && x !in chains[i]
      && mem' == Store(mem, x, i, link)
    ensures MemOk(mem', chains)
  {
    forall l | 0 <= l < MAX_HEIGHT ensures LevelOk(mem', chains[l], l) {
      assert LevelOk(mem, chains[l], l);
      StoreElsewhere(mem, mem', chains[l], l, x, i, link);
    }
  }

  lemma SplicedMembers(chain: Chain, r: nat, x: nat, n: nat)
    requires r <= |chain|
    ensures n in Spliced(chain, r, x) <==> n in chain || n == x
  {
    assert chain == chain[..r] + chain[r..];
  }

  lemma SublistsAfter(chains: seq<Chain>, chains': seq<Chain>, i: nat, r: nat, x: nat, l: nat)
    requires i < |chains| && r <= |chains[i]| && chains' == chains[i := Spliced(chains[i], r, x)] && 0 < l < |chains|
    requires Sublist(chains[l], chains[l - 1]) && (i > 0 ==> x in chains[i - 1])
    ensures Sublist(chains'[l], chains'[l - 1])
  {
    forall n | n in chains'[l] ensures n in chains'[l - 1] { SplicedMembers(chains[i], r, x, n); }
  }

  lemma PublishOk(mem: Mem, mem': Mem, chains: seq<Chain>, chains': seq<Chain>, key: int, x: nat, i: nat, r: nat)
    requires MemOk(mem, chains) && i < mem.maxHeight && Absent(mem, chains[i], key)
      && r == Rank(mem.keys, chains[i], key)
    requires 0 < x < |mem.keys| && mem.keys[x] == key && (i > 0 ==> x in chains[i - 1])
    requires HasLink(mem, x, i) && mem.next[x][i] == LinkAt(chains[i], r)
    requires HasLink(mem, Before(chains[i], r), i) && mem' == Store(mem, Before(chains[i], r), i, To(x))
    requires chains' == chains[i := Spliced(chains[i], r, x)]
    ensures MemOk(mem', chains')
  {
    forall l | 0 <= l < MAX_HEIGHT ensures LevelOk(mem', chains'[l], l) {
      assert LevelOk(mem, chains[l], l);
      if l == i {
        StorePublishes(mem, mem', chains[i], i, key, x, r);
      } else {
        StoreElsewhere(mem, mem', chains[l], l, Before(chains[i], r), i, To(x));
      }
    }
    forall l | 0 < l < MAX_HEIGHT ensures Sublist(chains'[l], chains'[l - 1]) {
      assert Sublist(chains[l], chains[l - 1]);
      SublistsAfter(chains, chains', i, r, x, l);
    }
  }

  lemma BeginKeeps(s: State, key: int, height: nat)
    requires Inv(s) && Enabled(s, BeginInsert(key, height))
    ensures Inv(Step(s, BeginInsert(key, height)))
  {
    forall l | 0 <= l < height ensures Absent(s.mem, s.chains[l], key) { AbsentAbove(s.mem, s.chains, key, l); }
  }

  lemma ReadersKeep(s: State, s': State)
    requires Inv(s) && Grows(s.mem, s.chains, s'.mem, s'.chains) && s'.readers == s.readers
    ensures forall j :: 0 <= j < |s'.readers| ==> ReaderOk(s'.mem, s'.chains, s'.readers[j])
  {
    forall j | 0 <= j < |s'.readers| ensures ReaderOk(s'.mem, s'.chains, s'.readers[j]) {
      ReaderKeeps(s.mem, s.chains, s'.mem, s'.chains, s.readers[j]);
    }
  }

  lemma StoreHeightKeeps(s: State)
    requires Inv(s) && s.writer.Searched?
    ensures Inv(Step(s, StoreHeight))
  {
    var s', w := Step(s, StoreHeight), s.writer;
    RaiseOk(s.mem, s'.mem, s.chains);
    KnowsStable(s.mem, s'.mem, s.chains, w.key, w.height, w.prev, 0);
    ReadersKeep(s, s');
  }

  lemma NewNodeKeeps(s: State)
    requires Inv(s) && s.writer.Raised?
    ensures Inv(Step(s, NewNode))
  {
    var s', w := Step(s, NewNode), s.writer;
    AllocateOk(s.mem, s'.mem, s.chains, w.key, w.height);
    KnowsStable(s.mem, s'.mem, s.chains, w.key, w.height, w.prev, 0);
    assert LevelOk(s.mem, s.chains[0], 0) && HasLink(s.mem, Before(s.chains[0], 0), 0);
    ReadersKeep(s, s');
  }

  lemma StoreOwnKeeps(s: State)
    requires Inv(s) && Enabled(s, StoreOwn)
    ensures Inv(Step(s, StoreOwn))
  {
    var s', w := Step(s, StoreOwn), s.writer;
    PrevHasLink(s.mem, s.chains, w);
    assert Absent(s.mem, s.chains[w.i], w.key);
    OwnOk(s.mem, s'.mem, s.chains, w.x, w.i, s.mem.next[w.prev[w.i]][w.i]);
    KnowsStable(s.mem, s'.mem, s.chains, w.key, w.height, w.prev, w.i);
    ReadersKeep(s, s');
  }

  lemma KnowsAbove(mem: Mem, mem': Mem, chains: seq<Chain>, chains': seq<Chain>, key: int, height: nat, prev: seq<nat>,
                   i: nat, i': nat)
    requires MemOk(mem, chains) && MemOk(mem', chains') && mem.keys == mem'.keys && i' == i + 1 <= height
    requires KnowsPrev(mem, chains, key, height, prev, i) && forall l :: i' <= l < MAX_HEIGHT ==>
      chains'[l] == chains[l]
    ensures KnowsPrev(mem', chains', key, height, prev, i')
  {}

  lemma StorePrevKeeps(s: State)
    requires Inv(s) && Enabled(s, StorePrev)
    ensures Inv(Step(s, StorePrev))
  {
    var s', w := Step(s, StorePrev), s.writer;
    var i := w.i;
    PrevHasLink(s.mem, s.chains, w);
    assert LevelOk(s.mem, s.chains[i], i) && Absent(s.mem, s.chains[i], w.key);
    var r := Rank(s.mem.keys, s.chains[i], w.key);
    PublishOk(s.mem, s'.mem, s.chains, s'.chains, w.key, w.x, i, r);
    forall n ensures n in s'.chains[i] <==> n in s.chains[i] || n == w.x { SplicedMembers(s.chains[i], r, w.x, n); }
    ReadersKeep(s, s');
    if i + 1 < w.height { KnowsAbove(s.mem, s'.mem, s.chains, s'.chains, w.key, w.height, w.prev, i, i + 1); }
  }

  lemma StepKeepsInv(s: State, e: Event)
    requires Inv(s) && Enabled(s, e)
    ensures Inv(Step(s, e))
  {
    match e
    case BeginInsert(key, height) => BeginKeeps(s, key, height);
    case StoreHeight => StoreHeightKeeps(s);
    case NewNode => NewNodeKeeps(s);
    case StoreOwn => StoreOwnKeeps(s);
    case StorePrev => StorePrevKeeps(s);
    case StartSearch(_) =>
    case ReaderLoads(j) => LoadOk(s.mem, s.chains, s.readers[j]);
  }

  // ---------- Every interleaving of one writer with any number of readers ----------

  const EMPTY: Mem := Mem([0], [seq(MAX_HEIGHT, _ => Null)], 1)

  const START: State := State(EMPTY, seq(MAX_HEIGHT, _ => []), Resting, [])

  lemma StartOk()
    ensures Inv(START)
  {
    forall l | 0 <= l < MAX_HEIGHT ensures LevelOk(EMPTY, START.chains[l], l) {}
  }

  ghost predicate Possible(s: State, events: seq<Event>)
    decreases |events|
  {
    Inv(s) && (events == [] || (Enabled(s, events[0]) && Possible(Step(s, events[0]), events[1..])))
  }

  ghost function Run(s: State, events: seq<Event>): State
    requires Possible(s, events)
    decreases |events|
  {
    if events == [] then s else Run(Step(s, events[0]), events[1..])
  }

  lemma {:induction false} RunKeepsInv(s: State, events: seq<Event>)
    requires Possible(s, events)
    ensures Inv(Run(s, events))
    decreases |events|
  {
    if events != [] { RunKeepsInv(Step(s, events[0]), events[1..]); }
  }

  // ---------- A node is on as many levels as it is high ----------

  ghost predicate OnLevels(chains: seq<Chain>, n: nat, upTo: nat) {
    forall l: nat :: l < upTo ==> l < |chains| && n in chains[l]
  }

  /** As many levels as a node must be on: those linked so far while it is being linked, and its height from then on. */
  ghost function Due(mem: Mem, w: Writer, n: nat): nat
    requires n < |mem.next|
  {
    if w.Linking? && w.x == n then w.i else |mem.next[n]|
  }

  ghost predicate AllLinked(mem: Mem, chains: seq<Chain>, w: Writer) {
    forall n: nat :: 0 < n < |mem.next| ==> OnLevels(chains, n, Due(mem, w, n))
  }

  lemma {:induction false} StepKeepsLinked(s: State, e: Event)
    requires Inv(s) && Enabled(s, e) && AllLinked(s.mem, s.chains, s.writer)
    ensures AllLinked(Step(s, e).mem, Step(s, e).chains, Step(s, e).writer)
  {
    var s', w := Step(s, e), s.writer;
    forall n: nat | 0 < n < |s'.mem.next| ensures OnLevels(s'.chains, n, Due(s'.mem, s'.writer, n)) {
      if n < |s.mem.next| { assert OnLevels(s.chains, n, Due(s.mem, w, n)); }
      if e.StorePrev? { StillOnLevels(s, s', n); }
    }
  }

  lemma StillOnLevels(s: State, s': State, n: nat)
    requires Inv(s) && Enabled(s, StorePrev) && s' == Step(s, StorePrev) && n < |s.mem.next|
    requires OnLevels(s.chains, n, Due(s.mem, s.writer, n))
    ensures n < |s'.mem.next| && OnLevels(s'.chains, n, Due(s'.mem, s'.writer, n))
  {
    var w := s.writer;
    assert LevelOk(s.mem, s.chains[w.i], w.i);
    PrevHasLink(s.mem, s.chains, w);
    SplicedMembers(s.chains[w.i], Rank(s.mem.keys, s.chains[w.i], w.key), w.x, n);
    assert |s'.mem.next[n]| == |s.mem.next[n]|;
    forall l: nat | l < Due(s'.mem, s'.writer, n) ensures l < |s'.chains| && n in s'.chains[l] {
      assert l < Due(s.mem, w, n) ==> n in s.chains[l];
      assert n != w.x || l <= w.i;
    }
  }

  /** In every run: once a node's insertion is complete it is on every level up to its height, and while it is under way
      on the levels linked so far. */
  lemma {:induction false} RunKeepsLinked(s: State, events: seq<Event>)
    requires Possible(s, events) && AllLinked(s.mem, s.chains, s.writer)
    ensures AllLinked(Run(s, events).mem, Run(s, events).chains, Run(s, events).writer)
    decreases |events|
  {
    if events != [] {
      StepKeepsLinked(s, events[0]);
      RunKeepsLinked(Step(s, events[0]), events[1..]);
    }
  }

  /** The invariant never stands in the way of a run: whatever is enabled can be done. */
  lemma {:induction false} RunGoesOn(s: State, events: seq<Event>, e: Event)
    requires Possible(s, events) && Inv(Run(s, events)) && Enabled(Run(s, events), e)
    ensures Possible(s, events + [e])
    decreases |events|
  {
    var all := events + [e];
    if events == [] {
      StepKeepsInv(s, e);
      assert all[1..] == [];
    } else {
      RunGoesOn(Step(s, events[0]), events[1..], e);
      assert all[0] == events[0] && all[1..] == events[1..] + [e];
    }
  }

  ghost function KeySet(mem: Mem, chain: Chain): set<int>
    requires Ascending(mem.keys, chain)
  {
    set k | 0 <= k < |chain| :: mem.keys[chain[k]]
  }

  /** The link a search returns leads to the least key at or after the target. */
  ghost predicate IsLeast(mem: Mem, chain: Chain, target: int, link: Link)
    requires Ascending(mem.keys, chain)
  {
    match link
    case Uninit => false
    case Null => forall k :: k in KeySet(mem, chain) ==> k < target
    case To(n) =>
      && n < |mem.keys| && mem.keys[n] in KeySet(mem, chain) && mem.keys[n] >= target
      && forall k :: k in KeySet(mem, chain) && k >= target ==> mem.keys[n] <= k
  }

  lemma LinkAtRankIsLeast(mem: Mem, chain: Chain, target: int)
    requires Ascending(mem.keys, chain)
    ensures IsLeast(mem, chain, target, LinkAt(chain, Rank(mem.keys, chain, target)))
  {}

  /** However loads and stores interleave, a search returns what an atomic search of the list would
      return at its last load. */
  lemma {:induction false} SearchIsExact(events: seq<Event>, s: State, j: nat)
    requires Possible(START, events) && s == Run(START, events) && j < |s.readers| && s.readers[j].Walking?
    ensures Inv(s) && Enabled(s, ReaderLoads(j))
    ensures var r := Step(s, ReaderLoads(j)).readers[j];
            r.Returned? ==> r.at == s.chains[0] && Ascending(s.mem.keys, r.at) && IsLeast(s.mem, r.at, r.target, r.link)
  {
    RunKeepsInv(START, events);
    StepKeepsInv(s, ReaderLoads(j));
    assert LevelOk(s.mem, s.chains[0], 0);
    LinkAtRankIsLeast(s.mem, s.chains[0], s.readers[j].target);
  }

  lemma SplicedKeys(mem: Mem, mem': Mem, chain: Chain, chain': Chain, r: nat, x: nat)
    requires Ascending(mem.keys, chain) && Ascending(mem'.keys, chain') && mem.keys == mem'.keys
    requires r <= |chain| && x < |mem.keys| && chain' == Spliced(chain, r, x)
    ensures KeySet(mem', chain') == KeySet(mem, chain) + {mem.keys[x]}
  {
    forall key ensures key in KeySet(mem', chain') <==> key in KeySet(mem, chain) || key == mem.keys[x] {
      if key in KeySet(mem, chain) {
        var k :| 0 <= k < |chain| && mem.keys[chain[k]] == key;
        assert chain'[if k < r then k else k + 1] == chain[k];
      }
      assert chain'[r] == x;
    }
  }

  /** One step leaves the key set as it was, or adds the whole new key. */
  lemma {:induction false} KeysOldOrNew(s: State, e: Event)
    requires Inv(s) && Enabled(s, e)
    ensures Inv(Step(s, e)) && Ascending(s.mem.keys, s.chains[0])
      && Ascending(Step(s, e).mem.keys, Step(s, e).chains[0])
    ensures KeySet(Step(s, e).mem, Step(s, e).chains[0]) ==
            KeySet(s.mem, s.chains[0]) + if e.StorePrev? && s.writer.i == 0 then {s.writer.key} else {}
  {
    StepKeepsInv(s, e);
    var s' := Step(s, e);
    assert LevelOk(s.mem, s.chains[0], 0) && LevelOk(s'.mem, s'.chains[0], 0);
    if e.StorePrev? && s.writer.i == 0 {
      SplicedKeys(s.mem, s'.mem, s.chains[0], s'.chains[0], Rank(s.mem.keys, s.chains[0], s.writer.key), s.writer.x);
    }
  }

  /** The nodes have as many links each as before. */
  ghost predicate SameHeights(next: seq<seq<Link>>, next': seq<seq<Link>>) {
    |next| == |next'| && forall n :: 0 <= n < |next| ==> |next[n]| == |next'[n]|
  }

  // ---------- The list as an object ----------

  class SkipList {
    var mem: Mem
    ghost var chains: seq<Chain>

    constructor ()
      ensures Valid() && Keys() == {}
    {
      mem, chains := EMPTY, START.chains;
      new;
      StartOk();
    }

    ghost predicate Valid()
      reads this
    {
      MemOk(mem, chains) && LevelOk(mem, chains[0], 0) && AllLinked(mem, chains, Resting)
    }

    ghost function Keys(): set<int>
      requires Valid()
      reads this
    {
      KeySet(mem, chains[0])
    }

    /** FindGreaterOrEqual, filling prev for every level in use. */
    method FindGreaterOrEqual(key: int) returns (found: Link, prev: seq<nat>)
      requires Valid()
      ensures found == LinkAt(chains[0], Rank(mem.keys, chains[0], key)) && IsLeast(mem, chains[0], key, found)
      ensures Filled(mem, chains, prev, 0, key)
    {
      var x: nat, level: nat := HEAD, mem.maxHeight - 1;
      prev := seq(mem.maxHeight, _ => HEAD);
      ghost var k: nat := 0;
      while true
        invariant level < mem.maxHeight && At(mem, chains, level, x, key, k)
        invariant Filled(mem, chains, prev, level + 1, key)
        decreases level, |chains[level]| - k
      {
        var next := Next(x, level, key, k);
        if KeyIsAfterNode(mem, key, next) {
          x, k := next.node, k + 1;
        } else {
          FillOne(mem, chains, prev, level, level + 1, key, x);
          prev := prev[level := x];
          if level == 0 {
            LinkAtRankIsLeast(mem, chains[0], key);
            return next, prev;
          }
          k := Lower(mem, chains, level, level - 1, x, key);
          level := level - 1;
        }
      }
    }

    /** Load one link of a search. */
    method Next(x: nat, level: nat, key: int, ghost k: nat) returns (next: Link)
      requires Valid() && level < mem.maxHeight && At(mem, chains, level, x, key, k)
      ensures KeyIsAfterNode(mem, key, next) ==> k < |chains[level]| && At(mem, chains, level, next.node, key, k + 1)
      ensures !KeyIsAfterNode(mem, key, next) ==> IsPlace(mem, chains[level], level, key, x)
      ensures next == LinkAt(chains[level], k) && (!KeyIsAfterNode(mem, key, next) ==>
        k == Rank(mem.keys, chains[level], key))
    {
      assert LevelOk(mem, chains[level], level) && Follows(mem, chains[level], level);
      next := mem.next[x][level];
      if !KeyIsAfterNode(mem, key, next) { RankIs(mem.keys, chains[level], key, k); }
    }

    /** The object is at a state of the protocol in which only the writer is active. */
    ghost predicate Tracks(s: State)
      reads this
    {
      Inv(s) && s.mem == mem && s.chains == chains && s.readers == [] && AllLinked(mem, chains, s.writer)
    }

    /** Insert. Readers may look at the list after every store; see StepKeepsInv and SearchIsExact. */
    method Insert(key: int, height: nat)
      requires Valid() && key !in Keys() && 1 <= height <= MAX_HEIGHT
      modifies this
      ensures Valid() && Keys() == old(Keys()) + {key}
      ensures mem.keys == old(mem).keys + [key] && SameHeights(old(mem).next + [seq(height, _ => Null)], mem.next)
    {
      ghost var s := State(mem, chains, Resting, []);
      NotInKeys(mem, chains, key);
      var _, prev := FindGreaterOrEqual(key);
      var places := seq(height, l requires 0 <= l => if l < |prev| then prev[l] else HEAD);
      PrevIsPlaces(mem, chains, prev, key, height, places);
      StepKeepsInv(s, BeginInsert(key, height));
      StepKeepsLinked(s, BeginInsert(key, height));
      s := Step(s, BeginInsert(key, height));
      if height > mem.maxHeight {
        mem := mem.(maxHeight := height);
      }
      KeysOldOrNew(s, StoreHeight);
      StepKeepsLinked(s, StoreHeight);
      s := Step(s, StoreHeight);
      var x := |mem.keys|;
      mem := Allocate(mem, key, height);
      KeysOldOrNew(s, NewNode);
      StepKeepsLinked(s, NewNode);
      s := Step(s, NewNode);
      LinkLevels(key, height, places, x, s);
    }

    /** The loop that publishes the node, bottom level first. */
    method LinkLevels(key: int, height: nat, prev: seq<nat>, x: nat, ghost s0: State)
      requires Tracks(s0) && s0.writer == Linking(key, height, prev, x, 0, false) && Ascending(mem.keys, chains[0])
      modifies this
      ensures Valid() && Keys() == KeySet(old(mem), old(chains[0])) + {key}
      ensures mem.keys == old(mem).keys && SameHeights(old(mem).next, mem.next)
    {
      ghost var s := s0;
      for i := 0 to height
        invariant Tracks(s) && s.writer == if i < height then Linking(key, height, prev, x, i, false) else Resting
        invariant Ascending(mem.keys, chains[0])
        invariant mem.keys == old(mem).keys && SameHeights(old(mem).next, mem.next)
        invariant KeySet(mem, chains[0]) == KeySet(old(mem), old(chains[0])) + if i > 0 then {key} else {}
      {
        s := LinkLevel(key, height, prev, x, i, s);
      }
      assert LevelOk(mem, chains[0], 0);
    }

    /** Two stores: the new node's link, then its predecessor's. */
    method LinkLevel(key: int, height: nat, prev: seq<nat>, x: nat, i: nat, ghost s0: State) returns (ghost s: State)
      requires i < height && Tracks(s0) && s0.writer == Linking(key, height, prev, x, i, false)
        && Ascending(mem.keys, chains[0])
      modifies this
      ensures Tracks(s) && s.writer == if i + 1 < height then Linking(key, height, prev, x, i + 1, false) else Resting
      ensures Ascending(mem.keys, chains[0])
      ensures mem.keys == old(mem).keys && SameHeights(old(mem).next, mem.next)
      ensures KeySet(mem, chains[0]) == KeySet(old(mem), old(chains[0])) + if i == 0 then {key} else {}
    {
      PrevHasLink(mem, chains, s0.writer);
      KeysOldOrNew(s0, StoreOwn);
      StepKeepsLinked(s0, StoreOwn);
      mem := Store(mem, x, i, mem.next[prev[i]][i]);
      s := Step(s0, StoreOwn);
      PrevHasLink(mem, chains, s.writer);
      KeysOldOrNew(s, StorePrev);
      StepKeepsLinked(s, StorePrev);
      s := Step(s, StorePrev);
      mem := Store(mem, prev[i], i, To(x));
      chains := s.chains;
    }

    /** FindLast: the head if the list is empty. */
    method FindLast() returns (x: nat)
      requires Valid()
      ensures x == Before(chains[0], |chains[0]|)
    {
      var level: nat := mem.maxHeight - 1;
      x := HEAD;
      ghost var k: nat := 0;
      while true
        invariant level < mem.maxHeight && k <= |chains[level]| && x == Before(chains[level], k)
        decreases level, |chains[level]| - k
      {
        assert LevelOk(mem, chains[level], level) && Follows(mem, chains[level], level);
        var next := mem.next[x][level];
        if next == Null {
          if level == 0 {
            return;
          }
          k := SamePlaceBelow(mem, chains, level, level - 1, x);
          level := level - 1;
        } else {
          x, k := next.node, k + 1;
        }
      }
    }

    method Contains(key: int) returns (r: bool)
      requires Valid()
      ensures r == (key in Keys())
    {
      var x, _ := FindGreaterOrEqual(key);
      r := x.To? && mem.keys[x.node] == key;
    }

    /** Iterator::Next and Prev from a node of the list: its neighbours in key order. */
    method After(node: nat, ghost k: nat) returns (next: Link)
      requires Valid() && k < |chains[0]| && chains[0][k] == node
      ensures next == LinkAt(chains[0], k + 1)
    {
      assert Follows(mem, chains[0], 0) && node == Before(chains[0], k + 1);
      next := mem.next[node][0];
    }

    method Preceding(node: nat, ghost k: nat) returns (prev: Link)
      requires Valid() && k < |chains[0]| && chains[0][k] == node
      ensures prev == if k == 0 then Null else To(chains[0][k - 1])
    {
      var x := FindLessThan(mem.keys[node]);
      RankIs(mem.keys, chains[0], mem.keys[node], k);
      prev := if x == HEAD then Null else To(x);
    }

    /** FindLessThan. */
    method FindLessThan(key: int) returns (x: nat)
      requires Valid()
      ensures IsPlace(mem, chains[0], 0, key, x)
    {
      var level: nat := mem.maxHeight - 1;
      x := HEAD;
      ghost var k: nat := 0;
      while true
        invariant level < mem.maxHeight && At(mem, chains, level, x, key, k)
        decreases level, |chains[level]| - k
      {
        var next := Next(x, level, key, k);
        if !KeyIsAfterNode(mem, key, next) {
          if level == 0 {
            return;
          }
          k := Lower(mem, chains, level, level - 1, x, key);
          level := level - 1;
        } else {
          x, k := next.node, k + 1;
        }
      }
    }
  }

  /** prev, with the head for the levels above the list, is where the key goes. */
  lemma PrevIsPlaces(mem: Mem, chains: seq<Chain>, prev: seq<nat>, key: int, height: nat, places: seq<nat>)
    requires MemOk(mem, chains) && Filled(mem, chains, prev, 0, key) && height <= MAX_HEIGHT && |places| == height
    requires forall l :: 0 <= l < height ==> places[l] == if l < |prev| then prev[l] else HEAD
    ensures places == Places(mem, chains, key, height)
  {
    forall l | 0 <= l < height ensures places[l] == Places(mem, chains, key, height)[l] {
      assert l < mem.maxHeight ==> IsPlace(mem, chains[l], l, key, prev[l]);
    }
  }

  lemma NotInKeys(mem: Mem, chains: seq<Chain>, key: int)
    requires MemOk(mem, chains) && Ascending(mem.keys, chains[0]) && key !in KeySet(mem, chains[0])
    ensures Absent(mem, chains[0], key)
  {
    forall n | n in chains[0] ensures n < |mem.keys| && mem.keys[n] != key {
      var k :| 0 <= k < |chains[0]| && chains[0][k] == n;
      assert mem.keys[chains[0][k]] in KeySet(mem, chains[0]);
    }
  }

  /** `x` is the k-th node from the head on its level, and no node up to it reaches `key`. */
  ghost predicate At(mem: Mem, chains: seq<Chain>, l: nat, x: nat, key: int, k: nat) {
    && l < |chains| && k <= |chains[l]| && x == Before(chains[l], k) && Ascending(mem.keys, chains[l])
    && k <= Rank(mem.keys, chains[l], key)
  }

  /** `x` is the last node of the level before `key`. */
  ghost predicate IsPlace(mem: Mem, chain: Chain, l: nat, key: int, x: nat) {
    LevelOk(mem, chain, l) && x == Before(chain, Rank(mem.keys, chain, key))
  }

  ghost predicate Filled(mem: Mem, chains: seq<Chain>, prev: seq<nat>, from: nat, key: int) {
    && |prev| == mem.maxHeight <= |chains|
    && forall l :: from <= l < mem.maxHeight ==> IsPlace(mem, chains[l], l, key, prev[l])
  }

  lemma FillOne(mem: Mem, chains: seq<Chain>, prev: seq<nat>, l: nat, from: nat, key: int, x: nat)
    requires from == l + 1 <= mem.maxHeight && Filled(mem, chains, prev, from, key)
      && IsPlace(mem, chains[l], l, key, x)
    ensures Filled(mem, chains, prev[l := x], l, key)
  {}

  lemma SamePlaceBelow(mem: Mem, chains: seq<Chain>, l: nat, l': nat, x: nat) returns (k: nat)
    requires MemOk(mem, chains) && l' + 1 == l < MAX_HEIGHT && (x == HEAD || x in chains[l])
    ensures k <= |chains[l']| && x == Before(chains[l'], k)
  {
    assert Sublist(chains[l], chains[l']);
    if x == HEAD {
      k := 0;
    } else {
      var j :| 0 <= j < |chains[l']| && chains[l'][j] == x;
      k := j + 1;
    }
  }

  lemma Lower(mem: Mem, chains: seq<Chain>, l: nat, l': nat, x: nat, key: int) returns (k: nat)
    requires MemOk(mem, chains) && l' + 1 == l < MAX_HEIGHT && Standing(mem, chains[l], x, key)
    ensures At(mem, chains, l', x, key, k)
  {
    DropLevel(mem, chains, l, x, key);
    assert LevelOk(mem, chains[l'], l');
    k := StandsBefore(mem, chains[l'], l', x, key);
  }
}
