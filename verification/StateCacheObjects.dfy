/** The shared state cache and the states that use it, as the objects they are in the client. Each
    method is proved to do exactly what the functions of `StateCache` say.
  */
module StateCacheObjects {
  import opened ChainTree
  import opened LruMaps
  import opened StateCache

  lemma {:induction false} WithoutAllUnused(es: seq<Entry>, keys: set<StateKey>, k: StateKey)
    requires forall e | e in es :: e.key != k
    ensures WithoutAll(es, keys + {k}) == WithoutAll(es, keys)
  {
    if es != [] { WithoutAllUnused(es[1..], keys, k); }
  }

  /** Removing keys one at a time is removing them together. */
  lemma {:induction false} WithoutAllStep(es: seq<Entry>, keys: set<StateKey>, k: StateKey)
    requires Distinct(es)
    ensures Without(WithoutAll(es, keys), k) == WithoutAll(es, keys + {k})
  {
    if es != [] {
      var e, rest := es[0], es[1..];
      var kept := WithoutAll(rest, keys);
      WithoutAllStep(rest, keys, k);
      var kept' := WithoutAll(rest, keys + {k});
      assert ([e] + kept)[1..] == kept;
      assert WithoutAll(es, keys) == if e.key in keys then kept else [e] + kept;
      assert WithoutAll(es, keys + {k}) == if e.key in keys + {k} then kept' else [e] + kept';
      if e.key == k { WithoutAllUnused(rest, keys, k); }
    }
  }

  method RemoveKeys(m: LRUMap, keys: set<StateKey>)
    requires m.Valid()
    modifies m
    ensures m.Valid() && m.entries == WithoutAll(old(m.entries), keys)
  {
    var todo := keys;
    ghost var done: set<StateKey> := {};
    WithoutNone(m.entries);
    while todo != {}
      invariant m.Valid() && done + todo == keys && m.entries == WithoutAll(old(m.entries), done)
      decreases todo
    {
      var k :| k in todo;
      WithoutAllStep(old(m.entries), done, k);
      m.Remove(k);
      todo, done := todo - {k}, done + {k};
    }
    assert done == keys;
  }

  lemma {:induction false} WithoutNone(es: seq<Entry>)
    ensures WithoutAll(es, {}) == es
  {
    if es != [] { WithoutNone(es[1..]); }
  }

  method AddAll(m: LRUMap, batch: seq<Entry>)
    requires m.Valid()
    modifies m
    ensures m.Valid() && m.entries == AddedAll(old(m.entries), m.limit, batch)
  {
    for i := 0 to |batch|
      invariant m.Valid() && m.entries == AddedAll(old(m.entries), m.limit, batch[..i])
    {
      assert batch[..i + 1][..i] == batch[..i];
      m.Add(batch[i].key, batch[i].value);
    }
    assert batch[..|batch|] == batch;
  }

  class Cache {
    const lruStorage: LRUMap
    const lruChildStorage: LRUMap
    var modifications: seq<BlockChanges>

    ghost predicate Valid()
      reads this, lruStorage, lruChildStorage
    {
      lruStorage != lruChildStorage && lruStorage.Valid() && lruChildStorage.Valid()
    }

    ghost function Contents(): View
      reads this, lruStorage, lruChildStorage
    {
      View(lruStorage.entries, lruChildStorage.entries, modifications)
    }

    ghost function Budget(): Limits { Limits(lruStorage.limit, lruChildStorage.limit) }

    constructor (size: nat, childRatio: (nat, nat))
      requires 0 < childRatio.1
      ensures Valid() && Contents() == EMPTY && fresh(lruStorage) && fresh(lruChildStorage)
      ensures childRatio.0 <= childRatio.1 ==> Budget().top + Budget().child <= size
    {
      SharedLimitsFit(size, childRatio);
      var limits := SharedLimits(size, childRatio);
      lruStorage := new LRUMap(limits.0);
      lruChildStorage := new LRUMap(limits.1);
      modifications := [];
    }

    /** The bytes that both value maps hold together. */
    method UsedStorageCacheSize() returns (n: nat)
      requires Valid()
      ensures n == TotalSize(Contents().top) + TotalSize(Contents().child)
      ensures n <= Budget().top + Budget().child
    {
      n := lruStorage.used + lruChildStorage.used;
    }

    /** The common body of the two loops of `Sync`. */
    method Mark(blocks: seq<Hash>, canon: bool, alreadyClear: bool) returns (clear: bool)
      requires Valid()
      modifies this, lruStorage, lruChildStorage
      ensures Valid()
      ensures clear <==> alreadyClear || MarkedAll(old(Contents()), blocks, canon).None?
      ensures !clear ==> MarkedAll(old(Contents()), blocks, canon) == Some(Contents())
    {
      clear := alreadyClear;
      for i := 0 to |blocks|
        invariant Valid()
        invariant clear <==> alreadyClear || MarkedAll(old(Contents()), blocks[..i], canon).None?
        invariant !clear ==> MarkedAll(old(Contents()), blocks[..i], canon) == Some(Contents())
      {
        assert blocks[..i + 1][..i] == blocks[..i];
        if !clear {
          var j := Find(modifications, blocks[i]);
          if j < |modifications| {
            var m := modifications[j];
            modifications := modifications[j := m.(isCanon := canon)];
            RemoveKeys(lruStorage, m.storage);
            RemoveKeys(lruChildStorage, m.childStorage);
          } else {
            clear := true;
          }
        }
      }
      assert blocks[..|blocks|] == blocks;
    }

    method Sync(enacted: seq<Hash>, retracted: seq<Hash>)
      requires Valid()
      modifies this, lruStorage, lruChildStorage
      ensures Valid() && Contents() == Synced(old(Contents()), enacted, retracted)
    {
      var clear := Mark(enacted, true, false);
      clear := Mark(retracted, false, clear);
      if clear {
        lruStorage.Clear();
        lruChildStorage.Clear();
        modifications := [];
      }
    }

    /** Propagates a state's local values (in the order its maps yield them) and a commit. */
    method SyncCache(parent: Option<Hash>, localTop: seq<Entry>, localChild: seq<Entry>,
                     enacted: seq<Hash>, retracted: seq<Hash>, changes: seq<Entry>, childChanges: seq<Entry>,
                     commit: Option<Commit>, isBest: bool)
      requires Valid()
      modifies this, lruStorage, lruChildStorage
      ensures Valid()
      ensures Contents() == SyncedCache(Budget(), old(Contents()), parent, localTop, localChild, enacted, retracted,
                                        changes, childChanges, commit, isBest)
    {
      var enacted', retracted' := enacted, retracted;
      if commit.Some? {
        enacted' := Except(enacted, commit.value.hash);
        var i := Find(modifications, commit.value.hash);
        if i < |modifications| && modifications[i].isCanon != isBest {
          if isBest {
            enacted' := enacted' + [commit.value.hash];
          } else {
            retracted' := retracted' + [commit.value.hash];
          }
        }
      }
      assert enacted' == EnactedWith(Contents(), enacted, commit, isBest);
      assert retracted' == RetractedWith(Contents(), retracted, commit, isBest);
      Sync(enacted', retracted');
      if parent.Some? && isBest {
        AddAll(lruStorage, localTop);
        AddAll(lruChildStorage, localChild);
      }
      if parent.Some? && commit.Some? {
        if |modifications| == STATE_CACHE_BLOCKS {
          modifications := modifications[..|modifications| - 1];
        }
        if isBest {
          AddAll(lruChildStorage, childChanges);
          AddAll(lruStorage, changes);
        }
        var m := BlockChanges(commit.value.number, commit.value.hash, parent.value, KeysOf(changes),
                              KeysOf(childChanges), isBest);
        var at := InsertAt(modifications, m.number);
        modifications := modifications[..at] + [m] + modifications[at..];
      }
    }

    /** The scan of the recent blocks, newest first. */
    method IsAllowed(k: StateKey, parentHash: Option<Hash>) returns (allowed: bool)
      ensures allowed <==> parentHash.Some? && Allowed(k, parentHash.value, modifications)
    {
      if parentHash.None? { return false; }
      var parent := parentHash.value;
      for i := 0 to |modifications|
        invariant Allowed(k, parentHash.value, modifications) == Allowed(k, parent, modifications[i..])
      {
        var m := modifications[i];
        assert modifications[i..][0] == m && modifications[i..][1..] == modifications[i + 1..];
        if m.hash == parent {
          if m.isCanon { return true; }
          parent := m.parent;
        }
        if Touches(m, k) { return false; }
      }
      return false;
    }
  }

  /** A state on top of a block (`None`: the empty state), with the values it has read so far. */
  class CachingState {
    const shared: Cache
    const parentHash: Option<Hash>
    var local: map<StateKey, StateValue>

    constructor (shared: Cache, parentHash: Option<Hash>)
      ensures this.shared == shared && this.parentHash == parentHash && local == map[]
    {
      this.shared, this.parentHash, local := shared, parentHash, map[];
    }

    /** `storage` and `child_storage`; `backing` is what the state below the caches answers, `None` when it fails. */
    method Storage(k: StateKey, backing: Option<StateValue>) returns (v: Option<StateValue>)
      requires shared.Valid()
      modifies this, shared.lruStorage, shared.lruChildStorage
      ensures shared.Valid() && shared.modifications == old(shared.modifications)
      ensures k in old(local) ==>
        v == Some(old(local)[k]) && local == old(local) && shared.Contents() == old(shared.Contents())
      ensures k !in old(local) ==>
        match SharedValue(old(shared.Contents()), parentHash, k)
        case Some(w) => v == Some(w) && local == old(local) && shared.Contents() == Used(old(shared.Contents()), k)
        case None =>
          && v == backing && shared.Contents() == old(shared.Contents())
          && local == if backing.Some? then old(local)[k := backing.value] else old(local)
    {
      if k in local { return Some(local[k]); }
      var allowed := shared.IsAllowed(k, parentHash);
      if allowed {
        var entry := Option<StateValue>.None;
        if k.Top? { entry := shared.lruStorage.Get(k); } else { entry := shared.lruChildStorage.Get(k); }
        if entry.Some? { return entry; }
      }
      if backing.Some? { local := local[k := backing.value]; }
      return backing;
    }
  }
}
