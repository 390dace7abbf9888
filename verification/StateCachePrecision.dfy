/** How much the shared cache keeps and serves: exactly when a cached value may be used, and exactly which
    values a reorganization drops.
  */
module StateCachePrecision {
  import opened ChainTree
  import opened LruMaps
  import opened StateCache

  /** The block a reader looks for after passing the first `i` recorded blocks. */
  function Followed(mods: seq<BlockChanges>, p: Hash, i: nat): Hash
    requires i <= |mods|
  {
    if i == 0 then p
    else
      var q := Followed(mods, p, i - 1);
      if mods[i - 1].hash == q then mods[i - 1].parent else q
  }

  lemma {:induction false} FollowedShifts(mods: seq<BlockChanges>, p: Hash, i: nat)
    requires mods != [] && i < |mods|
    ensures Followed(mods, p, i + 1) == Followed(mods[1..], if mods[0].hash == p then mods[0].parent else p, i)
  {
    if i > 0 { FollowedShifts(mods, p, i - 1); }
    else { assert Followed(mods, p, 1) == if mods[0].hash == Followed(mods, p, 0) then mods[0].parent else p; }
  }

  /** Entry `i` is where the reader's line meets the best chain, and no entry before it changed `k`. */
  ghost predicate Meets(mods: seq<BlockChanges>, p: Hash, k: StateKey, i: nat) {
    && i < |mods| && mods[i].hash == Followed(mods, p, i) && mods[i].isCanon
    && forall j | 0 <= j < i :: !Touches(mods[j], k)
  }

  lemma MeetsShifts(mods: seq<BlockChanges>, p: Hash, k: StateKey, i: nat)
    requires mods != [] && !Touches(mods[0], k)
    ensures Meets(mods, p, k, i + 1) <==> Meets(mods[1..], if mods[0].hash == p then mods[0].parent else p, k, i)
  {
    if i + 1 < |mods| { FollowedShifts(mods, p, i); }
    assert forall j | 0 < j < |mods| :: mods[1..][j - 1] == mods[j];
  }

  /** A value may be used exactly when the reader's line of listed blocks meets the best chain before any
      listed block that changed the key. */
  lemma {:induction false} AllowedExact(k: StateKey, p: Hash, mods: seq<BlockChanges>)
    ensures Allowed(k, p, mods) <==> exists i: nat :: Meets(mods, p, k, i)
    decreases mods
  {
    if mods != [] {
      var q := if mods[0].hash == p then mods[0].parent else p;
      if mods[0].hash == p && mods[0].isCanon {
        assert Meets(mods, p, k, 0);
      } else if !Touches(mods[0], k) {
        AllowedExact(k, q, mods[1..]);
        assert !Meets(mods, p, k, 0);
        if exists i: nat :: Meets(mods[1..], q, k, i) {
          var i: nat :| Meets(mods[1..], q, k, i);
          MeetsShifts(mods, p, k, i);
        }
        if exists i: nat :: Meets(mods, p, k, i) {
          var i: nat :| Meets(mods, p, k, i);
          MeetsShifts(mods, p, k, i - 1);
        }
      }
    }
  }

  /** While the head is the newest recorded block, every value in the cache serves reads at the head. */
  lemma HeadReadsAreServed(c: Chain, v: View, k: StateKey)
    requires c.Valid() && CacheOk(c, v) && v.mods != [] && v.mods[0].hash == c.best
    ensures SharedValue(v, Some(c.best), k) == Lookup(MapFor(v, k), k)
  {
    assert c.Canonical(c.best);
  }

  /** So every value held, for a top-level or a child key, is what a read at the head gets. */
  lemma CachedIsServed(c: Chain, v: View, e: Entry)
    requires c.Valid() && CacheOk(c, v) && v.mods != [] && v.mods[0].hash == c.best && (e in v.top || e in v.child)
    ensures SharedValue(v, Some(c.best), e.key) == Some(e.value)
  {
    HeadReadsAreServed(c, v, e.key);
    LookupExact(v.top, e.key, e.value);
    LookupExact(v.child, e.key, e.value);
  }

  /** A value that is read becomes the youngest of its map, the others keep their order, and the other map and the
      records stay. */
  lemma UsedExact(v: View, k: StateKey, e: Entry)
    requires Distinct(v.top) && Distinct(v.child) && e.key == k && (if k.Top? then e in v.top else e in v.child)
    ensures Used(v, k) == if k.Top? then v.(top := Without(v.top, k) + [e]) else v.(child := Without(v.child, k) + [e])
  {
    var es := if k.Top? then v.top else v.child;
    LookupExact(es, k, e.value);
    RefreshedOrder(es, k);
  }

  /** Marking succeeds exactly when all the blocks are recorded. */
  lemma {:induction false} MarkedWhenListed(v: View, hs: seq<Hash>, canon: bool)
    ensures MarkedAll(v, hs, canon).Some? <==> forall h | h in hs :: Listed(v.mods, |v.mods|, h)
    ensures MarkedAll(v, hs, canon).Some? ==> SameBlocks(v.mods, MarkedAll(v, hs, canon).value.mods)
    decreases |hs|
  {
    if hs != [] {
      var n := |hs| - 1;
      MarkedWhenListed(v, hs[..n], canon);
      assert hs == hs[..n] + [hs[n]];
      if MarkedAll(v, hs[..n], canon).Some? {
        SameListed(v.mods, MarkedAll(v, hs[..n], canon).value.mods, hs[n]);
      }
    }
  }

  /** The same blocks with the same changes; only flags may differ. */
  ghost predicate SameBlocks(a: seq<BlockChanges>, b: seq<BlockChanges>) {
    |a| == |b| && forall i | 0 <= i < |a| :: a[i].(isCanon := true) == b[i].(isCanon := true)
  }

  lemma SameListed(a: seq<BlockChanges>, b: seq<BlockChanges>, h: Hash)
    requires SameBlocks(a, b)
    ensures Listed(a, |a|, h) <==> Listed(b, |b|, h)
    ensures Listed(b, |b|, h) <==> Find(b, h) < |b|
  {
    forall i | 0 <= i < |a| ensures a[i].hash == b[i].hash
    {
      assert a[i].(isCanon := true).hash == b[i].(isCanon := true).hash;
    }
  }

  /** One of the blocks `hs` is recorded as having changed the top-level key. */
  ghost predicate TopTouched(mods: seq<BlockChanges>, hs: seq<Hash>, k: StateKey) {
    exists i | 0 <= i < |mods| :: mods[i].hash in hs && k in mods[i].storage
  }

  ghost predicate ChildTouched(mods: seq<BlockChanges>, hs: seq<Hash>, k: StateKey) {
    exists i | 0 <= i < |mods| :: mods[i].hash in hs && k in mods[i].childStorage
  }

  lemma TouchedStep(a: seq<BlockChanges>, b: seq<BlockChanges>, hs: seq<Hash>, h: Hash, k: StateKey)
    requires Sorted(a) && SameBlocks(a, b) && Find(b, h) < |b|
    ensures TopTouched(a, hs + [h], k) <==> TopTouched(a, hs, k) || k in b[Find(b, h)].storage
    ensures ChildTouched(a, hs + [h], k) <==> ChildTouched(a, hs, k) || k in b[Find(b, h)].childStorage
  {
    var i := Find(b, h);
    assert forall j | 0 <= j < |a| :: a[j].(isCanon := true) == b[j].(isCanon := true);
    assert a[i].hash == b[i].hash && a[i].storage == b[i].storage && a[i].childStorage == b[i].childStorage;
    forall j | 0 <= j < |a| && a[j].hash == h ensures j == i {}
    assert forall j | 0 <= j < |a| :: a[j].hash in hs + [h] <==> a[j].hash in hs || a[j].hash == h;
    if k in b[i].storage { assert a[i].hash in hs + [h] && k in a[i].storage; }
    if k in b[i].childStorage { assert a[i].hash in hs + [h] && k in a[i].childStorage; }
  }

  lemma {:induction false} MarkedExact(v: View, hs: seq<Hash>, canon: bool, e: Entry)
    requires Sorted(v.mods) && MarkedAll(v, hs, canon).Some?
    ensures var w := MarkedAll(v, hs, canon).value;
      && (e in w.top <==> e in v.top && !TopTouched(v.mods, hs, e.key))
      && (e in w.child <==> e in v.child && !ChildTouched(v.mods, hs, e.key))
    decreases |hs|
  {
    if hs != [] {
      hide TopTouched, ChildTouched, Sorted;
      var n := |hs| - 1;
      MarkedExact(v, hs[..n], canon, e);
      MarkedWhenListed(v, hs[..n], canon);
      var w := MarkedAll(v, hs[..n], canon).value;
      var i := Find(w.mods, hs[n]);
      WithoutAllMembers(w.top, w.mods[i].storage, e);
      WithoutAllMembers(w.child, w.mods[i].childStorage, e);
      TouchedStep(v.mods, w.mods, hs[..n], hs[n], e.key);
      assert hs == hs[..n] + [hs[n]];
    }
  }

  lemma SameTouched(a: seq<BlockChanges>, b: seq<BlockChanges>, hs: seq<Hash>, k: StateKey)
    requires SameBlocks(a, b)
    ensures TopTouched(a, hs, k) <==> TopTouched(b, hs, k)
    ensures ChildTouched(a, hs, k) <==> ChildTouched(b, hs, k)
  {
    forall i | 0 <= i < |a|
      ensures a[i].hash == b[i].hash && a[i].storage == b[i].storage && a[i].childStorage == b[i].childStorage
    {
      assert a[i].(isCanon := true) == b[i].(isCanon := true);
    }
  }

  lemma SameSorted(a: seq<BlockChanges>, b: seq<BlockChanges>)
    requires SameBlocks(a, b) && Sorted(a)
    ensures Sorted(b)
  {
    forall i | 0 <= i < |a| ensures a[i].hash == b[i].hash && a[i].number == b[i].number {
      assert a[i].(isCanon := true) == b[i].(isCanon := true);
    }
  }

  /** A reorganization along recorded blocks drops exactly the values those blocks changed;
      one along an unrecorded block drops everything. */
  lemma SyncedExact(v: View, enacted: seq<Hash>, retracted: seq<Hash>, e: Entry)
    requires Sorted(v.mods)
    ensures (exists h | h in enacted || h in retracted :: !Listed(v.mods, |v.mods|, h)) ==>
      Synced(v, enacted, retracted) == EMPTY
    ensures (forall h | h in enacted || h in retracted :: Listed(v.mods, |v.mods|, h)) ==>
      var w := Synced(v, enacted, retracted);
      && SameBlocks(v.mods, w.mods)
      && (e in w.top <==> e in v.top && !TopTouched(v.mods, enacted, e.key) && !TopTouched(v.mods, retracted, e.key))
      && (e in w.child <==>
            e in v.child && !ChildTouched(v.mods, enacted, e.key) && !ChildTouched(v.mods, retracted, e.key))
  {
    hide TopTouched, ChildTouched, Sorted;
    MarkedWhenListed(v, enacted, true);
    var w := MarkedAll(v, enacted, true);
    if w.Some? {
      SameSorted(v.mods, w.value.mods);
      MarkedExact(v, enacted, true, e);
      MarkedWhenListed(w.value, retracted, false);
      forall h ensures Listed(v.mods, |v.mods|, h) <==> Listed(w.value.mods, |w.value.mods|, h) {
        SameListed(v.mods, w.value.mods, h);
      }
      if MarkedAll(w.value, retracted, false).Some? {
        MarkedExact(w.value, retracted, false, e);
        SameTouched(v.mods, w.value.mods, retracted, e.key);
      }
    }
  }
}
