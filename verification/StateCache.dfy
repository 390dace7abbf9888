/** The shared state cache: one map of values for the best block, and a short list of recently
    committed blocks with the keys each of them changed. A read at any block may use the map only
    when the list shows that no block between it and the best chain touched the key.
  */
module StateCache {
  import opened ChainTree
  import opened LruMaps

  const STATE_CACHE_BLOCKS: nat := 12

  /** The keys that one committed block changed. */
  datatype BlockChanges = BlockChanges(
    number: nat, hash: Hash, parent: Hash, storage: set<StateKey>, childStorage: set<StateKey>, isCanon: bool)

  predicate Touches(m: BlockChanges, k: StateKey) {
    if k.Top? then k in m.storage else k in m.childStorage
  }

  /** The contents of the cache: top-trie entries, child-trie entries, recent blocks. */
  datatype View = View(top: seq<Entry>, child: seq<Entry>, mods: seq<BlockChanges>)

  datatype Limits = Limits(top: nat, child: nat)

  const EMPTY := View([], [], [])

  /** The first recorded change of block `h`, or the length when there is none. */
  function Find(mods: seq<BlockChanges>, h: Hash): (i: nat)
    ensures i <= |mods|
    ensures i < |mods| ==> mods[i].hash == h
    ensures forall j | 0 <= j < i :: mods[j].hash != h
  {
    if mods == [] || mods[0].hash == h then 0 else 1 + Find(mods[1..], h)
  }

  // ------------------------------------------------------------ synchronization

  /** One enacted or retracted block: flag it and drop the keys it changed. Fails when it is unknown. */
  function Marked(v: View, h: Hash, canon: bool): Option<View> {
    var i := Find(v.mods, h);
    if i == |v.mods| then None
    else
      var m := v.mods[i];
      Some(View(WithoutAll(v.top, m.storage), WithoutAll(v.child, m.childStorage), v.mods[i := m.(isCanon := canon)]))
  }

  function MarkedAll(v: View, hs: seq<Hash>, canon: bool): Option<View> {
    if hs == [] then Some(v)
    else
      var n := |hs| - 1;
      match MarkedAll(v, hs[..n], canon)
      case None => None
      case Some(w) => Marked(w, hs[n], canon)
  }

  /** After a reorganization. One unknown block wipes everything. */
  function Synced(v: View, enacted: seq<Hash>, retracted: seq<Hash>): View {
    match MarkedAll(v, enacted, true)
    case None => EMPTY
    case Some(w) =>
      match MarkedAll(w, retracted, false)
      case None => EMPTY
      case Some(x) => x
  }

  /** The hashes of `hs` other than `h`. */
  function Except(hs: seq<Hash>, h: Hash): (r: seq<Hash>)
    ensures h !in hs ==> r == hs
  {
    if hs == [] then [] else (if hs[0] == h then [] else [hs[0]]) + Except(hs[1..], h)
  }

  /** The position of a block in the list: before the first one with a smaller number. */
  function InsertAt(mods: seq<BlockChanges>, number: nat): (i: nat)
    ensures i <= |mods|
    ensures forall j | 0 <= j < i :: mods[j].number >= number
    ensures i < |mods| ==> mods[i].number < number
  {
    if mods == [] || mods[0].number < number then 0 else 1 + InsertAt(mods[1..], number)
  }

  function Recorded(mods: seq<BlockChanges>, m: BlockChanges): seq<BlockChanges> {
    var kept := if |mods| == STATE_CACHE_BLOCKS then mods[..|mods| - 1] else mods;
    var i := InsertAt(kept, m.number);
    kept[..i] + [m] + kept[i..]
  }

  datatype Commit = Commit(hash: Hash, number: nat)

  function KeysOf(batch: seq<Entry>): set<StateKey> { set e | e in batch :: e.key }

  /** A commit of the block that is already listed counts as enacting or retracting it. */
  function EnactedWith(v: View, enacted: seq<Hash>, commit: Option<Commit>, isBest: bool): seq<Hash> {
    match commit
    case None => enacted
    case Some(c) =>
      var i := Find(v.mods, c.hash);
      Except(enacted, c.hash) + (if i < |v.mods| && v.mods[i].isCanon != isBest && isBest then [c.hash] else [])
  }

  function RetractedWith(v: View, retracted: seq<Hash>, commit: Option<Commit>, isBest: bool): seq<Hash> {
    match commit
    case None => retracted
    case Some(c) =>
      var i := Find(v.mods, c.hash);
      retracted + (if i < |v.mods| && v.mods[i].isCanon != isBest && !isBest then [c.hash] else [])
  }

  /** Propagation of a state's local values and of a committed block's changes into the cache. */
  function SyncedCache(lim: Limits, v: View, parent: Option<Hash>, localTop: seq<Entry>, localChild: seq<Entry>,
                       enacted: seq<Hash>, retracted: seq<Hash>, changes: seq<Entry>, childChanges: seq<Entry>,
                       commit: Option<Commit>, isBest: bool): View
  {
    var v1 := Synced(v, EnactedWith(v, enacted, commit, isBest), RetractedWith(v, retracted, commit, isBest));
    var v2 := if parent.Some? && isBest
      then View(AddedAll(v1.top, lim.top, localTop), AddedAll(v1.child, lim.child, localChild), v1.mods) else v1;
    if parent.Some? && commit.Some? then
      View(
        if isBest then AddedAll(v2.top, lim.top, changes) else v2.top,
        if isBest then AddedAll(v2.child, lim.child, childChanges) else v2.child,
        Recorded(v2.mods, BlockChanges(commit.value.number, commit.value.hash, parent.value,
                                       KeysOf(changes), KeysOf(childChanges), isBest)))
    else v2
  }

  // ------------------------------------------------------------ reading

  /** Whether the value cached for `k` may be used by a state on top of `parent`. */
  function Allowed(k: StateKey, parent: Hash, mods: seq<BlockChanges>): bool
    decreases mods
  {
    if mods == [] then false
    else if mods[0].hash == parent && mods[0].isCanon then true
    else if Touches(mods[0], k) then false
    else Allowed(k, if mods[0].hash == parent then mods[0].parent else parent, mods[1..])
  }

  function MapFor(v: View, k: StateKey): seq<Entry> { if k.Top? then v.top else v.child }

  /** The shared value for `k`, when there is one and it may be used. */
  function SharedValue(v: View, parent: Option<Hash>, k: StateKey): Option<StateValue> {
    if parent.Some? && Allowed(k, parent.value, v.mods) then Lookup(MapFor(v, k), k) else None
  }

  /** The cache after `k` was found in it: the entry is young again. */
  function Used(v: View, k: StateKey): View {
    if k.Top? then v.(top := Refreshed(v.top, k)) else v.(child := Refreshed(v.child, k))
  }

  // ------------------------------------------------------------ the state of a block

  type Delta = map<StateKey, StateValue>

  /** The value of `k` in the state of block `h`: the last change on the way from genesis to `h`. */
  ghost function StateAt(t: Tree, g: Hash, d: map<Hash, Delta>, h: Hash, k: StateKey): StateValue
    requires Rooted(t, g) && t.Keys <= d.Keys && h in t
    decreases t[h].number
  {
    if k in d[h] then d[h][k]
    else if h == g then None
    else
      assert LinkedToParent(t, h);
      StateAt(t, g, d, t[h].parent, k)
  }

  /** No block above `c` up to `h` changes `k`. */
  ghost predicate Untouched(t: Tree, g: Hash, d: map<Hash, Delta>, c: Hash, h: Hash, k: StateKey)
    requires Rooted(t, g) && t.Keys <= d.Keys && OnChain(t, g, c, h)
  {
    forall n | t[c].number < n <= t[h].number :: k !in d[Ancestor(t, g, h, n)]
  }

  lemma {:induction false} UntouchedKeepsValue(t: Tree, g: Hash, d: map<Hash, Delta>, c: Hash, h: Hash, k: StateKey)
    requires Rooted(t, g) && t.Keys <= d.Keys && OnChain(t, g, c, h) && Untouched(t, g, d, c, h, k)
    ensures StateAt(t, g, d, h, k) == StateAt(t, g, d, c, k)
    decreases t[h].number
  {
    if c != h {
      assert h != g;
      OnChainParent(t, g, c, h);
      assert Ancestor(t, g, h, t[h].number) == h;
      forall n | t[c].number < n <= t[t[h].parent].number ensures k !in d[Ancestor(t, g, t[h].parent, n)] {
        assert Ancestor(t, g, h, n) == Ancestor(t, g, t[h].parent, n);
      }
      UntouchedKeepsValue(t, g, d, c, t[h].parent, k);
    }
  }

  lemma {:induction false} StateAtExtends(t: Tree, t': Tree, g: Hash, d: map<Hash, Delta>, d': map<Hash, Delta>,
                                          h: Hash, k: StateKey)
    requires Rooted(t, g) && Rooted(t', g) && Extends(t, t') && h in t
    requires t.Keys <= d.Keys && t'.Keys <= d'.Keys && forall x | x in t :: d'[x] == d[x]
    ensures StateAt(t', g, d', h, k) == StateAt(t, g, d, h, k)
    decreases t[h].number
  {
    if h != g {
      assert LinkedToParent(t, h) && LinkedToParent(t', h);
      StateAtExtends(t, t', g, d, d', t[h].parent, k);
    }
  }

  // ------------------------------------------------------------ what the cache knows about the chain

  /** The imported blocks, what each changed, and the best one. */
  datatype Chain = Chain(tree: Tree, genesis: Hash, deltas: map<Hash, Delta>, best: Hash) {
    ghost predicate Valid() {
      Rooted(tree, genesis) && tree.Keys <= deltas.Keys && best in tree
    }

    ghost function Value(h: Hash, k: StateKey): StateValue
      requires Valid() && h in tree
    {
      StateAt(tree, genesis, deltas, h, k)
    }

    ghost predicate Canonical(h: Hash)
      requires Valid()
    {
      OnChain(tree, genesis, h, best)
    }
  }

  /** The record `m` describes a block of the chain and all the keys it changed. */
  ghost predicate Describes(c: Chain, m: BlockChanges)
    requires c.Valid()
  {
    && m.hash in c.tree && m.hash != c.genesis
    && m.number == c.tree[m.hash].number && m.parent == c.tree[m.hash].parent
    && forall k :: Touches(m, k) <==> k in c.deltas[m.hash]
  }

  /** `h` is recorded before position `i`. */
  ghost predicate Listed(mods: seq<BlockChanges>, i: nat, h: Hash)
    requires i <= |mods|
  {
    exists j | 0 <= j < i :: mods[j].hash == h
  }

  ghost predicate Sorted(mods: seq<BlockChanges>) {
    && (forall i, j | 0 <= i < j < |mods| :: mods[i].number >= mods[j].number)
    && (forall i, j | 0 <= i < j < |mods| :: mods[i].hash != mods[j].hash)
  }

  ghost predicate FlagsExact(c: Chain, mods: seq<BlockChanges>)
    requires c.Valid()
  {
    forall i | 0 <= i < |mods| :: Describes(c, mods[i]) && (mods[i].isCanon <==> c.Canonical(mods[i].hash))
  }

  /** A canonical record has every canonical block above it recorded before it. */
  ghost predicate Closed(c: Chain, mods: seq<BlockChanges>)
    requires c.Valid()
  {
    forall i, n {:trigger Listed(mods, i, Ancestor(c.tree, c.genesis, c.best, n))} |
      0 <= i < |mods| && mods[i].isCanon && mods[i].number < n <= c.tree[c.best].number ::
      Listed(mods, i, Ancestor(c.tree, c.genesis, c.best, n))
  }

  ghost predicate ModsOk(c: Chain, mods: seq<BlockChanges>)
    requires c.Valid()
  {
    |mods| <= STATE_CACHE_BLOCKS && Sorted(mods) && FlagsExact(c, mods) && Closed(c, mods)
  }

  /** Every entry holds the best block's value of a key of its trie. */
  ghost predicate Coherent(c: Chain, es: seq<Entry>, top: bool)
    requires c.Valid()
  {
    Distinct(es) && forall e | e in es :: e.key.Top? == top && e.value == c.Value(c.best, e.key)
  }

  ghost predicate CacheOk(c: Chain, v: View)
    requires c.Valid()
  {
    ModsOk(c, v.mods) && Coherent(c, v.top, true) && Coherent(c, v.child, false)
  }

  /** The scan is sound: when it says yes, the block and the best block agree on the key. */
  lemma {:induction false} AllowedSound(c: Chain, mods: seq<BlockChanges>, i: nat, p: Hash, k: StateKey)
    requires c.Valid() && ModsOk(c, mods) && i <= |mods| && p in c.tree
    requires forall j | 0 <= j < i :: !Touches(mods[j], k)
    requires Allowed(k, p, mods[i..])
    ensures c.Value(p, k) == c.Value(c.best, k)
    decreases |mods| - i
  {
    var m := mods[i];
    assert mods[i..][0] == m && mods[i..][1..] == mods[i + 1..];
    assert Describes(c, m);
    if m.hash == p && m.isCanon {
      forall n | c.tree[p].number < n <= c.tree[c.best].number
        ensures k !in c.deltas[Ancestor(c.tree, c.genesis, c.best, n)]
      {
        assert Listed(mods, i, Ancestor(c.tree, c.genesis, c.best, n));
        var j :| 0 <= j < i && mods[j].hash == Ancestor(c.tree, c.genesis, c.best, n);
        assert Describes(c, mods[j]);
      }
      UntouchedKeepsValue(c.tree, c.genesis, c.deltas, p, c.best, k);
    } else if m.hash == p {
      assert LinkedToParent(c.tree, p);
      AllowedSound(c, mods, i + 1, m.parent, k);
    } else {
      AllowedSound(c, mods, i + 1, p, k);
    }
  }

  /** A usable shared value is the value at the reading block. */
  lemma SharedValueSound(c: Chain, v: View, p: Hash, k: StateKey)
    requires c.Valid() && CacheOk(c, v) && p in c.tree
    ensures SharedValue(v, Some(p), k).Some? ==> SharedValue(v, Some(p), k).value == c.Value(p, k)
  {
    if Allowed(k, p, v.mods) {
      assert v.mods[0..] == v.mods;
      AllowedSound(c, v.mods, 0, p, k);
    }
  }

  // ------------------------------------------------------------ moving the head

  /** `mods'` is `mods` with the flags of the blocks of `hs` set to `canon`. */
  ghost predicate FlagsSet(mods: seq<BlockChanges>, mods': seq<BlockChanges>, hs: seq<Hash>, canon: bool) {
    && |mods'| == |mods|
    && forall i | 0 <= i < |mods| ::
         mods'[i] == mods[i].(isCanon := if mods[i].hash in hs then canon else mods[i].isCanon)
  }

  lemma FlagsSetStep(mods: seq<BlockChanges>, mods': seq<BlockChanges>, hs: seq<Hash>, h: Hash, canon: bool)
    requires Sorted(mods) && FlagsSet(mods, mods', hs, canon) && Find(mods', h) < |mods'|
    ensures var i := Find(mods', h);
      && mods[i].hash == h
      && FlagsSet(mods, mods'[i := mods'[i].(isCanon := canon)], hs + [h], canon)
  {
    var i := Find(mods', h);
    assert mods[i].hash == h;
    forall j | 0 <= j < |mods|
      ensures mods'[i := mods'[i].(isCanon := canon)][j]
           == mods[j].(isCanon := if mods[j].hash in hs + [h] then canon else mods[j].isCanon)
    {
      assert mods'[j] == mods[j].(isCanon := if mods[j].hash in hs then canon else mods[j].isCanon);
      assert j != i ==> mods[j].hash != h;
    }
  }

  lemma {:induction false} MarkedAllFlags(v: View, hs: seq<Hash>, canon: bool)
    requires Sorted(v.mods) && MarkedAll(v, hs, canon).Some?
    ensures FlagsSet(v.mods, MarkedAll(v, hs, canon).value.mods, hs, canon)
    ensures forall h | h in hs :: Listed(v.mods, |v.mods|, h)
    decreases |hs|
  {
    if hs != [] {
      var n := |hs| - 1;
      MarkedAllFlags(v, hs[..n], canon);
      FlagsSetStep(v.mods, MarkedAll(v, hs[..n], canon).value.mods, hs[..n], hs[n], canon);
      assert hs == hs[..n] + [hs[n]];
    }
  }

  /** What survives a round of marking was not changed by any of the marked blocks. */
  lemma {:induction false} MarkedAllEntries(v: View, hs: seq<Hash>, canon: bool, e: Entry, m: BlockChanges)
    requires Sorted(v.mods) && MarkedAll(v, hs, canon).Some? && Distinct(v.top) && Distinct(v.child)
    ensures var w := MarkedAll(v, hs, canon).value;
      && Distinct(w.top) && Distinct(w.child)
      && (e in w.top ==> e in v.top && (m in v.mods && m.hash in hs ==> e.key !in m.storage))
      && (e in w.child ==> e in v.child && (m in v.mods && m.hash in hs ==> e.key !in m.childStorage))
    decreases |hs|
  {
    if hs != [] {
      var n := |hs| - 1;
      MarkedAllEntries(v, hs[..n], canon, e, m);
      MarkedAllFlags(v, hs[..n], canon);
      var w := MarkedAll(v, hs[..n], canon).value;
      var i := Find(w.mods, hs[n]);
      WithoutAllDistinct(w.top, w.mods[i].storage);
      WithoutAllDistinct(w.child, w.mods[i].childStorage);
      WithoutAllMembers(w.top, w.mods[i].storage, e);
      WithoutAllMembers(w.child, w.mods[i].childStorage, e);
      if m in v.mods && m.hash == hs[n] {
        var j :| 0 <= j < |v.mods| && v.mods[j] == m;
        assert v.mods[i].hash == v.mods[j].hash;
        assert j == i;
      }
    }
  }

  /** A key that no block of the route changed has one value at both its ends. */
  lemma RouteUntouched(c: Chain, to: Hash, k: StateKey)
    requires c.Valid() && to in c.tree
    requires var r := RouteOf(c.tree, c.genesis, c.best, to);
      (forall h | h in r.retracted :: k !in c.deltas[h]) && (forall h | h in r.enacted :: k !in c.deltas[h])
    ensures c.Value(to, k) == c.Value(c.best, k)
  {
    var t, g := c.tree, c.genesis;
    var r := RouteOf(t, g, c.best, to);
    forall n | t[r.common].number < n <= t[c.best].number ensures k !in c.deltas[Ancestor(t, g, c.best, n)] {
      AncestorOnChain(t, g, c.best, n);
      BranchMembers(t, g, r.common, c.best, Ancestor(t, g, c.best, n));
    }
    UntouchedKeepsValue(t, g, c.deltas, r.common, c.best, k);
    forall n | t[r.common].number < n <= t[to].number ensures k !in c.deltas[Ancestor(t, g, to, n)] {
      AncestorOnChain(t, g, to, n);
      BranchMembers(t, g, r.common, to, Ancestor(t, g, to, n));
    }
    UntouchedKeepsValue(t, g, c.deltas, r.common, to, k);
  }

  /** The records after a head move without a wipe: flags as the route says. */
  ghost predicate Reflagged(c: Chain, to: Hash, mods: seq<BlockChanges>, mods': seq<BlockChanges>)
    requires c.Valid() && to in c.tree
  {
    var r := RouteOf(c.tree, c.genesis, c.best, to);
    && |mods'| == |mods|
    && (forall i | 0 <= i < |mods| :: mods'[i] == mods[i].(isCanon :=
          if mods[i].hash in r.retracted then false else if mods[i].hash in r.enacted then true else mods[i].isCanon))
    && (forall h | h in r.enacted :: Listed(mods, |mods|, h))
    && (forall h | h in r.retracted :: Listed(mods, |mods|, h))
  }

  lemma ReflaggedFlags(c: Chain, to: Hash, mods: seq<BlockChanges>, mods': seq<BlockChanges>)
    requires c.Valid() && to in c.tree && ModsOk(c, mods) && Reflagged(c, to, mods, mods')
    ensures Sorted(mods') && FlagsExact(c.(best := to), mods')
  {
    forall i | 0 <= i < |mods'|
      ensures Describes(c.(best := to), mods'[i])
      ensures mods'[i].isCanon <==> c.(best := to).Canonical(mods'[i].hash)
    {
      assert Describes(c, mods[i]);
      forall k ensures Touches(mods'[i], k) <==> k in c.deltas[mods[i].hash] {
        assert Touches(mods'[i], k) == Touches(mods[i], k);
      }
      RouteSplitsChains(c.tree, c.genesis, c.best, to, mods[i].hash);
    }
  }

  lemma ReflaggedClosed(c: Chain, to: Hash, mods: seq<BlockChanges>, mods': seq<BlockChanges>)
    requires c.Valid() && to in c.tree && ModsOk(c, mods) && Reflagged(c, to, mods, mods')
    ensures Closed(c.(best := to), mods')
  {
    var t, g := c.tree, c.genesis;
    ReflaggedFlags(c, to, mods, mods');
    forall i, n | 0 <= i < |mods'| && mods'[i].isCanon && mods'[i].number < n <= t[to].number
      ensures Listed(mods', i, Ancestor(t, g, to, n))
    {
      var a := Ancestor(t, g, to, n);
      AncestorOnChain(t, g, to, n);
      RouteSplitsChains(t, g, c.best, to, a);
      assert Describes(c, mods[i]);
      if OnChain(t, g, a, c.best) {
        OnChainLinear(t, g, mods[i].hash, a, to);
        OnChainTransitive(t, g, mods[i].hash, a, c.best);
        assert mods[i].isCanon;
        assert Listed(mods, i, Ancestor(t, g, c.best, n));
        var j :| 0 <= j < i && mods[j].hash == a;
        assert mods'[j].hash == a;
      } else {
        assert Listed(mods, |mods|, a);
        var j :| 0 <= j < |mods| && mods[j].hash == a;
        assert Describes(c, mods[j]);
        assert mods'[j].hash == a;
      }
    }
  }

  lemma SurvivorsCoherent(c: Chain, to: Hash, mods: seq<BlockChanges>, es: seq<Entry>, es': seq<Entry>, top: bool)
    requires c.Valid() && to in c.tree && ModsOk(c, mods) && Coherent(c, es, top) && Distinct(es')
    requires var r := RouteOf(c.tree, c.genesis, c.best, to);
      && (forall h | h in r.enacted :: Listed(mods, |mods|, h))
      && (forall h | h in r.retracted :: Listed(mods, |mods|, h))
      && (forall e, m | e in es' && m in mods && (m.hash in r.enacted || m.hash in r.retracted) :: !Touches(m, e.key))
    requires forall e | e in es' :: e in es
    ensures Coherent(c.(best := to), es', top)
  {
    var r := RouteOf(c.tree, c.genesis, c.best, to);
    forall e | e in es' ensures e.value == c.Value(to, e.key) {
      forall h | h in r.enacted || h in r.retracted ensures e.key !in c.deltas[h] {
        assert Listed(mods, |mods|, h);
        var j :| 0 <= j < |mods| && mods[j].hash == h;
        assert Describes(c, mods[j]) && mods[j] in mods;
      }
      RouteUntouched(c, to, e.key);
    }
  }

  lemma SyncedMods(c: Chain, v: View, to: Hash, w: View, x: View)
    requires c.Valid() && CacheOk(c, v) && to in c.tree
    requires var r := RouteOf(c.tree, c.genesis, c.best, to);
      MarkedAll(v, r.enacted, true) == Some(w) && MarkedAll(w, r.retracted, false) == Some(x)
    ensures Reflagged(c, to, v.mods, x.mods)
  {
    var r := RouteOf(c.tree, c.genesis, c.best, to);
    MarkedAllFlags(v, r.enacted, true);
    MarkedAllFlags(w, r.retracted, false);
    forall h | h in r.retracted ensures Listed(v.mods, |v.mods|, h) {
      assert Listed(w.mods, |w.mods|, h);
      var j :| 0 <= j < |w.mods| && w.mods[j].hash == h;
      assert v.mods[j].hash == h;
    }
  }

  lemma SyncedEntries(c: Chain, v: View, to: Hash, w: View, x: View, e: Entry, m: BlockChanges)
    requires c.Valid() && CacheOk(c, v) && to in c.tree && m in v.mods
    requires var r := RouteOf(c.tree, c.genesis, c.best, to);
      MarkedAll(v, r.enacted, true) == Some(w) && MarkedAll(w, r.retracted, false) == Some(x)
    ensures var r := RouteOf(c.tree, c.genesis, c.best, to);
      var onRoute := m.hash in r.enacted || m.hash in r.retracted;
      && (e in x.top ==> e in v.top && (onRoute ==> !Touches(m, e.key)))
      && (e in x.child ==> e in v.child && (onRoute ==> !Touches(m, e.key)))
  {
    var r := RouteOf(c.tree, c.genesis, c.best, to);
    MarkedAllEntries(v, r.enacted, true, e, m);
    MarkedAllFlags(v, r.enacted, true);
    var j :| 0 <= j < |v.mods| && v.mods[j] == m;
    MarkedAllEntries(w, r.retracted, false, e, w.mods[j]);
  }

  lemma SyncedDistinct(v: View, enacted: seq<Hash>, retracted: seq<Hash>, w: View, x: View, e: Entry)
    requires Sorted(v.mods) && Distinct(v.top) && Distinct(v.child)
    requires MarkedAll(v, enacted, true) == Some(w) && MarkedAll(w, retracted, false) == Some(x)
    ensures Distinct(x.top) && Distinct(x.child)
    ensures (e in x.top ==> e in v.top) && (e in x.child ==> e in v.child)
  {
    var m := BlockChanges(0, 0, 0, {}, {}, false);
    MarkedAllEntries(v, enacted, true, e, m);
    MarkedAllFlags(v, enacted, true);
    MarkedAllEntries(w, retracted, false, e, m);
  }

  /** Synchronizing along the route to the new head keeps the cache correct for it. */
  lemma SyncedSound(c: Chain, v: View, to: Hash)
    requires c.Valid() && CacheOk(c, v) && to in c.tree
    ensures var r := RouteOf(c.tree, c.genesis, c.best, to);
      CacheOk(c.(best := to), Synced(v, r.enacted, r.retracted))
  {
    var r := RouteOf(c.tree, c.genesis, c.best, to);
    var w := MarkedAll(v, r.enacted, true);
    if w.Some? && MarkedAll(w.value, r.retracted, false).Some? {
      var x := MarkedAll(w.value, r.retracted, false).value;
      SyncedMods(c, v, to, w.value, x);
      ReflaggedFlags(c, to, v.mods, x.mods);
      ReflaggedClosed(c, to, v.mods, x.mods);
      forall e ensures Distinct(x.top) && Distinct(x.child) && (e in x.top ==> e in v.top)
        && (e in x.child ==> e in v.child)
      {
        SyncedDistinct(v, r.enacted, r.retracted, w.value, x, e);
      }
      forall e, m | m in v.mods && (m.hash in r.enacted || m.hash in r.retracted)
        ensures e in x.top ==> !Touches(m, e.key)
        ensures e in x.child ==> !Touches(m, e.key)
      {
        SyncedEntries(c, v, to, w.value, x, e, m);
      }
      SurvivorsCoherent(c, to, v.mods, v.top, x.top, true);
      SurvivorsCoherent(c, to, v.mods, v.child, x.child, false);
    }
  }
}
