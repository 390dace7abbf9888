/** Runs of the client against the shared state cache: opening states at blocks, reading, dropping
    states, committing best and other blocks, switching the head. In every run, every read answers
    with the state of the block it was made at.
  */
module StateCacheRuns {
  import opened ChainTree
  import opened LruMaps
  import opened StateCache

  // ------------------------------------------------------------ committing a block

  /** The chain after importing block `h` on top of `p`. */
  ghost function Grown(c: Chain, h: Hash, p: Hash, delta: Delta, isBest: bool): Chain
    requires c.Valid() && p in c.tree
  {
    Chain(c.tree[h := Header(c.tree[p].number + 1, p, None)], c.genesis, c.deltas[h := delta],
          if isBest then h else c.best)
  }

  lemma GrownValid(c: Chain, h: Hash, p: Hash, delta: Delta, isBest: bool)
    requires c.Valid() && p in c.tree && h !in c.tree
    ensures Grown(c, h, p, delta, isBest).Valid() && Extends(c.tree, Grown(c, h, p, delta, isBest).tree)
  {
    RootedAdd(c.tree, c.genesis, h, Header(c.tree[p].number + 1, p, None));
  }

  lemma GrownValue(c: Chain, h: Hash, p: Hash, delta: Delta, isBest: bool, x: Hash, k: StateKey)
    requires c.Valid() && p in c.tree && h !in c.tree && x in c.tree
    ensures var c' := Grown(c, h, p, delta, isBest); c'.Valid() && c'.Value(x, k) == c.Value(x, k)
    ensures var c' := Grown(c, h, p, delta, isBest);
      c'.Value(h, k) == if k in delta then delta[k] else c.Value(p, k)
  {
    GrownValid(c, h, p, delta, isBest);
    var c' := Grown(c, h, p, delta, isBest);
    StateAtExtends(c.tree, c'.tree, c.genesis, c.deltas, c'.deltas, x, k);
    StateAtExtends(c.tree, c'.tree, c.genesis, c.deltas, c'.deltas, p, k);
  }

  /** Canonical blocks after the import; `c` already has `p` as its head when the block is the best. */
  lemma GrownCanonical(c: Chain, h: Hash, p: Hash, delta: Delta, isBest: bool, x: Hash)
    requires c.Valid() && p in c.tree && h !in c.tree && x in c.tree
    requires isBest ==> c.best == p
    ensures var c' := Grown(c, h, p, delta, isBest); c'.Valid() && (c'.Canonical(x) <==> c.Canonical(x))
    ensures var c' := Grown(c, h, p, delta, isBest); c'.Canonical(h) <==> isBest
  {
    GrownValid(c, h, p, delta, isBest);
    var c' := Grown(c, h, p, delta, isBest);
    OnChainExtends(c.tree, c'.tree, c.genesis, x, c.best);
    OnChainExtends(c.tree, c'.tree, c.genesis, h, c.best);
    OnChainParent(c'.tree, c.genesis, x, h);
  }

  lemma InsertedSorted(kept: seq<BlockChanges>, m: BlockChanges, i: nat, r: seq<BlockChanges>)
    requires Sorted(kept) && i <= |kept| && r == kept[..i] + [m] + kept[i..]
    requires forall j | 0 <= j < |kept| ::
      kept[j].hash != m.hash && (if j < i then kept[j].number >= m.number else kept[j].number < m.number)
    ensures Sorted(r)
  {
    forall a, b | 0 <= a < b < |r| ensures r[a].number >= r[b].number && r[a].hash != r[b].hash {
      if b < i {
        assert r[a] == kept[a] && r[b] == kept[b];
      } else if b == i {
        assert r[a] == kept[a] && r[b] == m;
      } else if a < i {
        assert r[a] == kept[a] && r[b] == kept[b - 1];
      } else if a == i {
        assert r[a] == m && r[b] == kept[b - 1];
      } else {
        assert r[a] == kept[a - 1] && r[b] == kept[b - 1];
      }
    }
  }

  lemma RecordedSorted(mods: seq<BlockChanges>, m: BlockChanges)
    requires |mods| <= STATE_CACHE_BLOCKS && Sorted(mods) && forall x | x in mods :: x.hash != m.hash
    ensures Sorted(Recorded(mods, m)) && |Recorded(mods, m)| <= STATE_CACHE_BLOCKS
  {
    var kept := if |mods| == STATE_CACHE_BLOCKS then mods[..|mods| - 1] else mods;
    var i := InsertAt(kept, m.number);
    forall j | 0 <= j < |kept|
      ensures kept[j].hash != m.hash && (if j < i then kept[j].number >= m.number else kept[j].number < m.number)
    {
      assert kept[j] == mods[j] && mods[j] in mods;
      assert i < j ==> kept[i].number >= kept[j].number;
    }
    InsertedSorted(kept, m, i, Recorded(mods, m));
  }

  /** Where the entries of the new list come from. */
  lemma RecordedIndex(mods: seq<BlockChanges>, m: BlockChanges, x: nat)
    requires |mods| <= STATE_CACHE_BLOCKS && x < |Recorded(mods, m)|
    ensures var r := Recorded(mods, m);
      || r[x] == m
      || (x < |mods| && r[x] == mods[x] && mods[x].number >= m.number && (forall j | 0 <= j < x :: r[j] == mods[j]))
      || (0 < x <= |mods| && r[x] == mods[x - 1] && m in r[..x] && (forall j | 0 <= j < x - 1 :: mods[j] in r[..x]))
  {
    var kept := if |mods| == STATE_CACHE_BLOCKS then mods[..|mods| - 1] else mods;
    var i := InsertAt(kept, m.number);
    InsertedIndex(kept, m, i, x, Recorded(mods, m));
  }

  lemma InsertedIndex(kept: seq<BlockChanges>, m: BlockChanges, i: nat, x: nat, r: seq<BlockChanges>)
    requires i <= |kept| && r == kept[..i] + [m] + kept[i..] && x < |r|
    ensures x < i ==> r[x] == kept[x] && (forall j | 0 <= j < x :: r[j] == kept[j])
    ensures x == i ==> r[x] == m
    ensures x > i ==> r[x] == kept[x - 1] && m in r[..x] && (forall j | 0 <= j < x - 1 :: kept[j] in r[..x])
  {
    if x > i {
      assert r[..x][i] == m;
      forall j | 0 <= j < x - 1 ensures kept[j] in r[..x] {
        assert r[..x][if j < i then j else j + 1] == kept[j];
      }
    }
  }

  ghost predicate DescribesNew(c: Chain, m: BlockChanges, h: Hash, p: Hash, delta: Delta, isBest: bool)
    requires c.Valid() && p in c.tree
  {
    && m.hash == h && m.number == c.tree[p].number + 1 && m.parent == p && m.isCanon == isBest
    && forall k :: Touches(m, k) <==> k in delta
  }

  lemma RecordedFlags(c: Chain, mods: seq<BlockChanges>, m: BlockChanges, h: Hash, p: Hash, delta: Delta, isBest: bool)
    requires c.Valid() && ModsOk(c, mods) && p in c.tree && h !in c.tree && (isBest ==> c.best == p)
    requires DescribesNew(c, m, h, p, delta, isBest)
    ensures var c' := Grown(c, h, p, delta, isBest); c'.Valid() && FlagsExact(c', Recorded(mods, m))
    ensures Sorted(Recorded(mods, m)) && |Recorded(mods, m)| <= STATE_CACHE_BLOCKS
  {
    GrownValid(c, h, p, delta, isBest);
    var c', r := Grown(c, h, p, delta, isBest), Recorded(mods, m);
    forall x | x in mods ensures Describes(c, x) && x.hash != h {
      var j :| 0 <= j < |mods| && mods[j] == x;
    }
    RecordedSorted(mods, m);
    forall x | 0 <= x < |r| ensures Describes(c', r[x]) && (r[x].isCanon <==> c'.Canonical(r[x].hash)) {
      RecordedIndex(mods, m, x);
      if r[x] == m {
        GrownCanonical(c, h, p, delta, isBest, p);
      } else {
        var j := if x < |mods| && r[x] == mods[x] then x else x - 1;
        assert r[x] == mods[j] && Describes(c, mods[j]);
        GrownCanonical(c, h, p, delta, isBest, r[x].hash);
      }
    }
  }

  lemma GrownAncestor(c: Chain, h: Hash, p: Hash, delta: Delta, isBest: bool, n: nat)
    requires c.Valid() && p in c.tree && h !in c.tree && (isBest ==> c.best == p) && n <= c.tree[c.best].number
    ensures var c' := Grown(c, h, p, delta, isBest);
      c'.Valid() && n <= c'.tree[c'.best].number
      && Ancestor(c'.tree, c.genesis, c'.best, n) == Ancestor(c.tree, c.genesis, c.best, n)
  {
    GrownValid(c, h, p, delta, isBest);
    AncestorExtends(c.tree, Grown(c, h, p, delta, isBest).tree, c.genesis, c.best, n);
  }

  lemma RecordedClosed(c: Chain, mods: seq<BlockChanges>, m: BlockChanges, h: Hash, p: Hash, delta: Delta, isBest: bool)
    requires c.Valid() && ModsOk(c, mods) && p in c.tree && h !in c.tree && (isBest ==> c.best == p)
    requires DescribesNew(c, m, h, p, delta, isBest)
    ensures var c' := Grown(c, h, p, delta, isBest); c'.Valid() && Closed(c', Recorded(mods, m))
  {
    GrownValid(c, h, p, delta, isBest);
    var c', r := Grown(c, h, p, delta, isBest), Recorded(mods, m);
    forall x, n | 0 <= x < |r| && r[x].isCanon && r[x].number < n <= c'.tree[c'.best].number
      ensures Listed(r, x, Ancestor(c'.tree, c.genesis, c'.best, n))
    {
      RecordedIndex(mods, m, x);
      assert r[x] != m;
      var j := if x < |mods| && r[x] == mods[x] && mods[x].number >= m.number then x else x - 1;
      assert r[x] == mods[j] && Describes(c, mods[j]);
      if n <= c.tree[c.best].number {
        GrownAncestor(c, h, p, delta, isBest, n);
        assert Listed(mods, j, Ancestor(c.tree, c.genesis, c.best, n));
        var i :| 0 <= i < j && mods[i].hash == Ancestor(c.tree, c.genesis, c.best, n);
        assert mods[i] in r[..x];
      } else {
        assert m in r[..x];
      }
    }
  }

  lemma {:induction false} BindingsFromBatch(batch: seq<Entry>, k: StateKey)
    ensures k in Bindings(batch) <==> k in KeysOf(batch)
    ensures k in Bindings(batch) ==> Entry(k, Bindings(batch)[k]) in batch
    decreases |batch|
  {
    if batch != [] {
      var n := |batch| - 1;
      BindingsFromBatch(batch[..n], k);
      assert batch == batch[..n] + [batch[n]];
    }
  }

  /** The values in `batch` are those of block `p`, for keys of the given trie. */
  ghost predicate ValuesAt(c: Chain, batch: seq<Entry>, p: Hash, top: bool)
    requires c.Valid() && p in c.tree
  {
    forall e | e in batch :: e.key.Top? == top && e.value == c.Value(p, e.key)
  }

  lemma LocalValuesCoherent(c: Chain, es: seq<Entry>, limit: nat, batch: seq<Entry>, top: bool)
    requires c.Valid() && Coherent(c, es, top) && ValuesAt(c, batch, c.best, top)
    ensures Coherent(c, AddedAll(es, limit, batch), top)
  {
    var r := AddedAll(es, limit, batch);
    AddedAllMembers(es, limit, batch, Entry(Top([]), None));
    forall e | e in r ensures e.key.Top? == top && e.value == c.Value(c.best, e.key) {
      AddedAllMembers(es, limit, batch, e);
      BindingsFromBatch(batch, e.key);
    }
  }

  /** What a block changes: its top-trie changes and its child-trie changes. */
  function DeltaOf(changes: seq<Entry>, childChanges: seq<Entry>): Delta {
    Bindings(changes) + Bindings(childChanges)
  }

  predicate OfTrie(batch: seq<Entry>, top: bool) {
    forall e | e in batch :: e.key.Top? == top
  }

  lemma DeltaSplits(changes: seq<Entry>, childChanges: seq<Entry>, k: StateKey)
    requires OfTrie(changes, true) && OfTrie(childChanges, false)
    ensures var own := Bindings(if k.Top? then changes else childChanges); var d := DeltaOf(changes, childChanges);
      (k in d <==> k in own) && (k in d ==> d[k] == own[k])
    ensures k in DeltaOf(changes, childChanges) <==> k in KeysOf(if k.Top? then changes else childChanges)
  {
    BindingsFromBatch(changes, k);
    BindingsFromBatch(childChanges, k);
  }

  lemma ChangesCoherent(c: Chain, es: seq<Entry>, limit: nat, batch: seq<Entry>, top: bool, h: Hash, delta: Delta)
    requires c.Valid() && Coherent(c, es, top) && h !in c.tree && OfTrie(batch, top)
    requires forall k: StateKey | k.Top? == top ::
      (k in delta <==> k in Bindings(batch)) && (k in delta ==> delta[k] == Bindings(batch)[k])
    ensures var c' := Grown(c, h, c.best, delta, true); c'.Valid() && Coherent(c', AddedAll(es, limit, batch), top)
  {
    var c' := Grown(c, h, c.best, delta, true);
    GrownValid(c, h, c.best, delta, true);
    AddedAllMembers(es, limit, batch, Entry(Top([]), None));
    forall e | e in AddedAll(es, limit, batch) ensures e.key.Top? == top && e.value == c'.Value(h, e.key) {
      AddedAllMembers(es, limit, batch, e);
      BindingsFromBatch(batch, e.key);
      GrownValue(c, h, c.best, delta, true, c.best, e.key);
    }
  }

  lemma SideBlockCoherent(c: Chain, es: seq<Entry>, top: bool, h: Hash, p: Hash, delta: Delta)
    requires c.Valid() && Coherent(c, es, top) && h !in c.tree && p in c.tree
    ensures var c' := Grown(c, h, p, delta, false); c'.Valid() && Coherent(c', es, top)
  {
    GrownValid(c, h, p, delta, false);
    forall e | e in es ensures e.value == Grown(c, h, p, delta, false).Value(c.best, e.key) {
      GrownValue(c, h, p, delta, false, c.best, e.key);
    }
  }

  /** A fresh block changes nothing about which blocks are enacted and retracted. */
  lemma FreshCommit(c: Chain, v: View, h: Hash, number: nat, hs: seq<Hash>, isBest: bool)
    requires c.Valid() && CacheOk(c, v) && h !in c.tree && h !in hs
    ensures EnactedWith(v, hs, Some(Commit(h, number)), isBest) == hs
    ensures RetractedWith(v, hs, Some(Commit(h, number)), isBest) == hs
  {
    forall i | 0 <= i < |v.mods| ensures v.mods[i].hash != h { assert Describes(c, v.mods[i]); }
  }

  /** The route that a commit of a child of `p` hands to the cache. */
  ghost function CommitRoute(c: Chain, p: Hash, isBest: bool): (r: Route)
    requires c.Valid() && p in c.tree
  {
    if isBest then RouteOf(c.tree, c.genesis, c.best, p) else Route([], c.best, [])
  }

  lemma RouteInTree(c: Chain, p: Hash, isBest: bool, x: Hash)
    requires c.Valid() && p in c.tree
    ensures var r := CommitRoute(c, p, isBest); x in r.enacted || x in r.retracted ==> x in c.tree
  {
    if isBest { RouteSplitsChains(c.tree, c.genesis, c.best, p, x); }
  }

  function NewRecord(n: nat, h: Hash, p: Hash, changes: seq<Entry>, childChanges: seq<Entry>,
                     isBest: bool): BlockChanges
  {
    BlockChanges(n, h, p, KeysOf(changes), KeysOf(childChanges), isBest)
  }

  /** A commit of an unlisted block: synchronize, add local values, add changes, record. */
  lemma SyncedCacheShape(lim: Limits, v: View, p: Hash, n: nat, h: Hash, localTop: seq<Entry>, localChild: seq<Entry>,
                         enacted: seq<Hash>, retracted: seq<Hash>, changes: seq<Entry>, childChanges: seq<Entry>,
                         isBest: bool)
    requires EnactedWith(v, enacted, Some(Commit(h, n)), isBest) == enacted
    requires RetractedWith(v, retracted, Some(Commit(h, n)), isBest) == retracted
    ensures var v1 := Synced(v, enacted, retracted);
      SyncedCache(lim, v, Some(p), localTop, localChild, enacted, retracted, changes, childChanges,
                  Some(Commit(h, n)), isBest) ==
        View(if isBest then AddedAll(AddedAll(v1.top, lim.top, localTop), lim.top, changes) else v1.top,
             if isBest then AddedAll(AddedAll(v1.child, lim.child, localChild), lim.child, childChanges) else v1.child,
             Recorded(v1.mods, NewRecord(n, h, p, changes, childChanges, isBest)))
  {
  }

  lemma CommitModsSound(c: Chain, mods: seq<BlockChanges>, p: Hash, h: Hash,
                        changes: seq<Entry>, childChanges: seq<Entry>, isBest: bool)
    requires c.Valid() && ModsOk(c, mods) && p in c.tree && h !in c.tree && (isBest ==> c.best == p)
    requires OfTrie(changes, true) && OfTrie(childChanges, false)
    ensures var c' := Grown(c, h, p, DeltaOf(changes, childChanges), isBest);
      c'.Valid() && ModsOk(c', Recorded(mods, NewRecord(c.tree[p].number + 1, h, p, changes, childChanges, isBest)))
  {
    var m := NewRecord(c.tree[p].number + 1, h, p, changes, childChanges, isBest);
    var delta := DeltaOf(changes, childChanges);
    forall k ensures Touches(m, k) <==> k in delta { DeltaSplits(changes, childChanges, k); }
    RecordedFlags(c, mods, m, h, p, delta, isBest);
    RecordedClosed(c, mods, m, h, p, delta, isBest);
  }

  lemma CommitEntriesSound(lim: Limits, c: Chain, v: View, h: Hash, localTop: seq<Entry>, localChild: seq<Entry>,
                           changes: seq<Entry>, childChanges: seq<Entry>)
    requires c.Valid() && CacheOk(c, v) && h !in c.tree
    requires ValuesAt(c, localTop, c.best, true) && ValuesAt(c, localChild, c.best, false)
    requires OfTrie(changes, true) && OfTrie(childChanges, false)
    ensures var c' := Grown(c, h, c.best, DeltaOf(changes, childChanges), true);
      && c'.Valid()
      && Coherent(c', AddedAll(AddedAll(v.top, lim.top, localTop), lim.top, changes), true)
      && Coherent(c', AddedAll(AddedAll(v.child, lim.child, localChild), lim.child, childChanges), false)
  {
    var delta := DeltaOf(changes, childChanges);
    forall k: StateKey ensures var own := Bindings(if k.Top? then changes else childChanges);
      (k in delta <==> k in own) && (k in delta ==> delta[k] == own[k]) { DeltaSplits(changes, childChanges, k); }
    LocalValuesCoherent(c, v.top, lim.top, localTop, true);
    LocalValuesCoherent(c, v.child, lim.child, localChild, false);
    ChangesCoherent(c, AddedAll(v.top, lim.top, localTop), lim.top, changes, true, h, delta);
    ChangesCoherent(c, AddedAll(v.child, lim.child, localChild), lim.child, childChanges, false, h, delta);
  }

  lemma BestCommitSound(lim: Limits, c: Chain, v1: View, p: Hash, h: Hash, localTop: seq<Entry>, localChild: seq<Entry>,
                        changes: seq<Entry>, childChanges: seq<Entry>)
    requires c.Valid() && c.best == p && CacheOk(c, v1) && h !in c.tree
    requires ValuesAt(c, localTop, p, true) && ValuesAt(c, localChild, p, false)
    requires OfTrie(changes, true) && OfTrie(childChanges, false)
    ensures var c' := Grown(c, h, p, DeltaOf(changes, childChanges), true);
      c'.Valid() && CacheOk(c', View(AddedAll(AddedAll(v1.top, lim.top, localTop), lim.top, changes),
                                     AddedAll(AddedAll(v1.child, lim.child, localChild), lim.child, childChanges),
                                     Recorded(v1.mods, NewRecord(c.tree[p].number + 1, h, p, changes, childChanges,
                                                                 true))))
  {
    CommitModsSound(c, v1.mods, p, h, changes, childChanges, true);
    CommitEntriesSound(lim, c, v1, h, localTop, localChild, changes, childChanges);
  }

  lemma SideCommitSound(c: Chain, v: View, p: Hash, h: Hash, changes: seq<Entry>, childChanges: seq<Entry>)
    requires c.Valid() && CacheOk(c, v) && p in c.tree && h !in c.tree
    requires OfTrie(changes, true) && OfTrie(childChanges, false)
    ensures var c' := Grown(c, h, p, DeltaOf(changes, childChanges), false);
      c'.Valid() && CacheOk(c', View(v.top, v.child,
                                     Recorded(v.mods, NewRecord(c.tree[p].number + 1, h, p, changes, childChanges,
                                                                false))))
  {
    CommitModsSound(c, v.mods, p, h, changes, childChanges, false);
    SideBlockCoherent(c, v.top, true, h, p, DeltaOf(changes, childChanges));
    SideBlockCoherent(c, v.child, false, h, p, DeltaOf(changes, childChanges));
  }

  lemma CommitShape(lim: Limits, c: Chain, v: View, p: Hash, h: Hash, localTop: seq<Entry>, localChild: seq<Entry>,
                    changes: seq<Entry>, childChanges: seq<Entry>, isBest: bool, r: Route, n: nat)
    requires c.Valid() && CacheOk(c, v) && p in c.tree && h !in c.tree && r == CommitRoute(c, p, isBest)
    ensures var v1 := Synced(v, r.enacted, r.retracted);
      SyncedCache(lim, v, Some(p), localTop, localChild, r.enacted, r.retracted, changes, childChanges,
                  Some(Commit(h, n)), isBest) ==
        View(if isBest then AddedAll(AddedAll(v1.top, lim.top, localTop), lim.top, changes) else v1.top,
             if isBest then AddedAll(AddedAll(v1.child, lim.child, localChild), lim.child, childChanges) else v1.child,
             Recorded(v1.mods, NewRecord(n, h, p, changes, childChanges, isBest)))
  {
    RouteInTree(c, p, isBest, h);
    FreshCommit(c, v, h, n, r.enacted, isBest);
    FreshCommit(c, v, h, n, r.retracted, isBest);
    SyncedCacheShape(lim, v, p, n, h, localTop, localChild, r.enacted, r.retracted, changes, childChanges, isBest);
  }

  /** The cache after a commit. */
  ghost predicate CommitKeeps(lim: Limits, c: Chain, v: View, p: Hash, h: Hash, localTop: seq<Entry>,
                              localChild: seq<Entry>,
                              changes: seq<Entry>, childChanges: seq<Entry>, isBest: bool)
    requires c.Valid() && p in c.tree
  {
    var c' := Grown(c, h, p, DeltaOf(changes, childChanges), isBest);
    var r := CommitRoute(c, p, isBest);
    && c'.Valid()
    && CacheOk(c', SyncedCache(lim, v, Some(p), localTop, localChild, r.enacted, r.retracted, changes, childChanges,
                               Some(Commit(h, c.tree[p].number + 1)), isBest))
  }

  lemma NewHeadKeeps(lim: Limits, c: Chain, v: View, p: Hash, h: Hash, localTop: seq<Entry>, localChild: seq<Entry>,
                     changes: seq<Entry>, childChanges: seq<Entry>)
    requires c.Valid() && CacheOk(c, v) && p in c.tree && h !in c.tree
    requires ValuesAt(c, localTop, p, true) && ValuesAt(c, localChild, p, false)
    requires OfTrie(changes, true) && OfTrie(childChanges, false)
    ensures CommitKeeps(lim, c, v, p, h, localTop, localChild, changes, childChanges, true)
  {
    hide Synced, AddedAll, Recorded, MarkedAll, SyncedCache, Bindings, KeysOf, Down, Up, CommonAncestor, StateAt,
         Ancestor, Sorted, Closed, FlagsExact, Distinct, Coherent, OfTrie;
    var r, c1 := CommitRoute(c, p, true), c.(best := p);
    SyncedSound(c, v, p);
    assert ValuesAt(c1, localTop, p, true) && ValuesAt(c1, localChild, p, false);
    BestCommitSound(lim, c1, Synced(v, r.enacted, r.retracted), p, h, localTop, localChild, changes, childChanges);
    CommitShape(lim, c, v, p, h, localTop, localChild, changes, childChanges, true, r, c.tree[p].number + 1);
  }

  /** Committing a block keeps the cache correct, whether it becomes the head, reorganizes, or neither. */
  lemma CommitSound(lim: Limits, c: Chain, v: View, p: Hash, h: Hash, localTop: seq<Entry>, localChild: seq<Entry>,
                    changes: seq<Entry>, childChanges: seq<Entry>, isBest: bool)
    requires c.Valid() && CacheOk(c, v) && p in c.tree && h !in c.tree
    requires ValuesAt(c, localTop, p, true) && ValuesAt(c, localChild, p, false)
    requires OfTrie(changes, true) && OfTrie(childChanges, false)
    ensures CommitKeeps(lim, c, v, p, h, localTop, localChild, changes, childChanges, isBest)
  {
    if isBest {
      NewHeadKeeps(lim, c, v, p, h, localTop, localChild, changes, childChanges);
    } else {
      SideCommitSound(c, v, p, h, changes, childChanges);
      CommitShape(lim, c, v, p, h, localTop, localChild, changes, childChanges, false, CommitRoute(c, p, false),
                  c.tree[p].number + 1);
      assert Synced(v, [], []) == v;
    }
  }

  // ------------------------------------------------------------ runs

  /** A state opened at a block, or the empty state (`None`), with the values it has read so far. */
  datatype OpenState = OpenState(at: Option<Hash>, local: map<StateKey, StateValue>)

  datatype System = System(chain: Chain, cache: View, open: map<nat, OpenState>)

  /** `top` and `child` are the orders in which a state's two local hash maps yield their entries. */
  datatype Drain = Drain(top: seq<Entry>, child: seq<Entry>)

  datatype Step =
    | Open(id: nat, at: Option<Hash>)
    | Read(id: nat, key: StateKey)
    | Drop(id: nat, drain: Drain)
    | Discard(id: nat)
    | CommitBlock(id: nat, hash: Hash, changes: seq<Entry>, childChanges: seq<Entry>, isBest: bool, drain: Drain)
    | SetHead(to: Hash)

  ghost predicate Drains(d: Drain, local: map<StateKey, StateValue>) {
    && OfTrie(d.top, true) && OfTrie(d.child, false) && Distinct(d.top) && Distinct(d.child)
    && forall k, v :: (Entry(k, v) in d.top || Entry(k, v) in d.child) <==> k in local && local[k] == v
  }

  /** The value of `k` in the state opened at `at`. */
  ghost function TrueValue(c: Chain, at: Option<Hash>, k: StateKey): StateValue
    requires c.Valid() && (at.Some? ==> at.value in c.tree)
  {
    if at.Some? then c.Value(at.value, k) else None
  }

  /** What a read returns: the state's own copy, else a usable shared value, else the backing state. */
  ghost function Answer(s: System, id: nat, k: StateKey): StateValue
    requires s.chain.Valid() && id in s.open && (s.open[id].at.Some? ==> s.open[id].at.value in s.chain.tree)
  {
    var o := s.open[id];
    if k in o.local then o.local[k]
    else match SharedValue(s.cache, o.at, k)
      case Some(v) => v
      case None => TrueValue(s.chain, o.at, k)
  }

  ghost predicate Enabled(s: System, step: Step)
    requires s.chain.Valid()
  {
    match step
    case Open(id, at) => id !in s.open && (at.Some? ==> at.value in s.chain.tree)
    case Read(id, _) => id in s.open && (s.open[id].at.Some? ==> s.open[id].at.value in s.chain.tree)
    case Drop(id, drain) => id in s.open && Drains(drain, s.open[id].local)
    case Discard(id) => id in s.open
    case CommitBlock(id, hash, changes, childChanges, _, drain) =>
      && id in s.open && s.open[id].at.Some? && s.open[id].at.value in s.chain.tree && hash !in s.chain.tree
      && OfTrie(changes, true) && OfTrie(childChanges, false) && Drains(drain, s.open[id].local)
    case SetHead(to) => to in s.chain.tree
  }

  ghost function Next(lim: Limits, s: System, step: Step): System
    requires s.chain.Valid() && Enabled(s, step)
  {
    match step
    case Open(id, at) => s.(open := s.open[id := OpenState(at, map[])])
    case Read(id, k) =>
      var o := s.open[id];
      if k in o.local then s
      else if SharedValue(s.cache, o.at, k).Some? then
        s.(cache := Used(s.cache, k))
      else
        s.(open := s.open[id := o.(local := o.local[k := TrueValue(s.chain, o.at, k)])])
    case Drop(id, drain) =>
      var o := s.open[id];
      System(s.chain,
             if o.at.None? then s.cache
             else SyncedCache(lim, s.cache, o.at, drain.top, drain.child, [], [], [], [], None,
                              s.chain.best == o.at.value),
             s.open - {id})
    case Discard(id) => s.(open := s.open - {id})
    case CommitBlock(id, h, changes, childChanges, isBest, drain) =>
      var p := s.open[id].at.value;
      var r := CommitRoute(s.chain, p, isBest);
      System(Grown(s.chain, h, p, DeltaOf(changes, childChanges), isBest),
             SyncedCache(lim, s.cache, Some(p), drain.top, drain.child, r.enacted, r.retracted, changes, childChanges,
                         Some(Commit(h, s.chain.tree[p].number + 1)), isBest),
             s.open - {id})
    case SetHead(to) =>
      var r := RouteOf(s.chain.tree, s.chain.genesis, s.chain.best, to);
      s.(chain := s.chain.(best := to), cache := Synced(s.cache, r.enacted, r.retracted))
  }

  ghost predicate LocalOk(c: Chain, o: OpenState)
    requires c.Valid()
  {
    && (o.at.Some? ==> o.at.value in c.tree)
    && forall k | k in o.local :: o.local[k] == TrueValue(c, o.at, k)
  }

  ghost predicate Inv(s: System) {
    && s.chain.Valid() && CacheOk(s.chain, s.cache)
    && forall id | id in s.open :: LocalOk(s.chain, s.open[id])
  }

  /** Genesis alone, nothing cached, nothing open. */
  ghost predicate Initial(s: System) {
    && s.chain.Valid() && s.chain.tree.Keys == {s.chain.genesis} && s.cache == EMPTY && s.open == map[]
  }

  /** In every state the invariant describes, a read is answered with the block's own value. */
  lemma AnswerIsTrue(s: System, id: nat, k: StateKey)
    requires Inv(s) && id in s.open
    ensures LocalOk(s.chain, s.open[id])
    ensures Answer(s, id, k) == TrueValue(s.chain, s.open[id].at, k)
  {
    var o := s.open[id];
    assert LocalOk(s.chain, o);
    if k !in o.local && o.at.Some? {
      SharedValueSound(s.chain, s.cache, o.at.value, k);
    }
  }

  lemma DrainedValues(c: Chain, o: OpenState, d: Drain)
    requires c.Valid() && LocalOk(c, o) && o.at.Some? && Drains(d, o.local)
    ensures ValuesAt(c, d.top, o.at.value, true) && ValuesAt(c, d.child, o.at.value, false)
  {
    forall e | e in d.top || e in d.child ensures e.value == c.Value(o.at.value, e.key) {
      assert e == Entry(e.key, e.value);
    }
  }

  lemma ReadKeepsCache(c: Chain, es: seq<Entry>, k: StateKey, top: bool)
    requires c.Valid() && Coherent(c, es, top)
    ensures Coherent(c, Refreshed(es, k), top)
  {
    RefreshedMembers(es, k, Entry(k, None));
    forall e | e in Refreshed(es, k) ensures e in es { RefreshedMembers(es, k, e); }
  }

  lemma DropKeepsCache(lim: Limits, c: Chain, v: View, o: OpenState, d: Drain)
    requires c.Valid() && CacheOk(c, v) && LocalOk(c, o) && o.at.Some? && Drains(d, o.local)
    ensures CacheOk(c, SyncedCache(lim, v, o.at, d.top, d.child, [], [], [], [], None, c.best == o.at.value))
  {
    assert Synced(v, [], []) == v;
    if c.best == o.at.value {
      DrainedValues(c, o, d);
      LocalValuesCoherent(c, v.top, lim.top, d.top, true);
      LocalValuesCoherent(c, v.child, lim.child, d.child, false);
    }
  }

  lemma OtherStatesGrow(c: Chain, o: OpenState, h: Hash, p: Hash, delta: Delta, isBest: bool)
    requires c.Valid() && LocalOk(c, o) && p in c.tree && h !in c.tree
    ensures var c' := Grown(c, h, p, delta, isBest); c'.Valid() && LocalOk(c', o)
  {
    GrownValid(c, h, p, delta, isBest);
    if o.at.Some? {
      forall k ensures Grown(c, h, p, delta, isBest).Value(o.at.value, k) == c.Value(o.at.value, k) {
        GrownValue(c, h, p, delta, isBest, o.at.value, k);
      }
    }
  }

  lemma NextKeepsInv(lim: Limits, s: System, step: Step)
    requires Inv(s) && Enabled(s, step)
    ensures Inv(Next(lim, s, step))
  {
    hide Synced, AddedAll, SyncedCache, Refreshed, CommonAncestor, Ancestor, StateAt, Sorted, Closed, FlagsExact,
         RouteOf;
    var c, s' := s.chain, Next(lim, s, step);
    match step
    case Open(id, at) =>
    case Read(id, k) =>
      AnswerIsTrue(s, id, k);
      ReadKeepsCache(c, s.cache.top, k, true);
      ReadKeepsCache(c, s.cache.child, k, false);
    case Drop(id, drain) =>
      assert LocalOk(c, s.open[id]);
      if s.open[id].at.Some? { DropKeepsCache(lim, c, s.cache, s.open[id], drain); }
    case Discard(id) =>
    case CommitBlock(id, h, changes, childChanges, isBest, drain) =>
      var p := s.open[id].at.value;
      assert LocalOk(c, s.open[id]);
      DrainedValues(c, s.open[id], drain);
      CommitSound(lim, c, s.cache, p, h, drain.top, drain.child, changes, childChanges, isBest);
      forall x | x in s'.open ensures LocalOk(s'.chain, s'.open[x]) {
        assert LocalOk(c, s.open[x]);
        OtherStatesGrow(c, s.open[x], h, p, DeltaOf(changes, childChanges), isBest);
      }
    case SetHead(to) =>
      SyncedSound(c, s.cache, to);
      forall x | x in s'.open ensures LocalOk(s'.chain, s'.open[x]) {
        assert LocalOk(c, s.open[x]);
      }
  }

  /** A run: the states it goes through and the steps between them. */
  ghost predicate IsRun(lim: Limits, ss: seq<System>, steps: seq<Step>) {
    && |ss| == |steps| + 1 && Initial(ss[0])
    && forall i | 0 <= i < |steps| ::
         ss[i].chain.Valid() && Enabled(ss[i], steps[i]) && ss[i + 1] == Next(lim, ss[i], steps[i])
  }

  lemma {:induction false} RunInv(lim: Limits, ss: seq<System>, steps: seq<Step>, i: nat)
    requires IsRun(lim, ss, steps) && i < |ss|
    ensures Inv(ss[i])
  {
    if i > 0 {
      hide Inv, Next, Enabled;
      RunInv(lim, ss, steps, i - 1);
      NextKeepsInv(lim, ss[i - 1], steps[i - 1]);
    }
  }

  /** Every read of every run returns the value that the block it was made at has for the key. */
  lemma ReadsAreCoherent(lim: Limits, ss: seq<System>, steps: seq<Step>, i: nat)
    requires IsRun(lim, ss, steps) && i < |steps| && steps[i].Read?
    ensures var s, id := ss[i], steps[i].id;
      Answer(s, id, steps[i].key) == TrueValue(s.chain, s.open[id].at, steps[i].key)
  {
    RunInv(lim, ss, steps, i);
    AnswerIsTrue(ss[i], steps[i].id, steps[i].key);
  }

  /** Every state of every run has a short, sorted, exactly flagged and upward closed list of blocks. */
  lemma ModificationsExact(lim: Limits, ss: seq<System>, steps: seq<Step>, i: nat)
    requires IsRun(lim, ss, steps) && i < |ss|
    ensures var c, mods := ss[i].chain, ss[i].cache.mods;
      && c.Valid() && |mods| <= STATE_CACHE_BLOCKS && Sorted(mods) && Closed(c, mods)
      && forall j | 0 <= j < |mods| :: mods[j].isCanon <==> c.Canonical(mods[j].hash)
  {
    RunInv(lim, ss, steps, i);
  }
}
