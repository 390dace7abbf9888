/** What the shared cache holds after an operation, beyond being correct: which blocks stay recorded, which routes a
    repeated commit takes, and which values can be read back.
  */
module StateCacheLists {
  import opened ChainTree
  import opened LruMaps
  import opened StateCache
  import opened StateCacheRuns

  // ------------------------------------------------------------ recorded blocks

  /** Recording a block gives up the last record of a full list of twelve and no other; the rest keeps its order around
      the new record, which stands behind those of its number or a higher one and before all lower ones. */
  lemma RecordedExact(mods: seq<BlockChanges>, m: BlockChanges) returns (i: nat)
    requires |mods| <= 12
    ensures var r := Recorded(mods, m);
      && |r| == (if |mods| == 12 then 12 else |mods| + 1)
      && i < |r| && r[i] == m
      && (forall j | 0 <= j < i :: r[j] == mods[j] && mods[j].number >= m.number)
      && (forall j | i < j < |r| :: r[j] == mods[j - 1])
      && (i < |r| - 1 ==> mods[i].number < m.number)
  {
    var kept := if |mods| == 12 then mods[..11] else mods;
    i := InsertAt(kept, m.number);
  }

  lemma {:induction false} ExceptMembers(hs: seq<Hash>, h: Hash, x: Hash)
    ensures x in Except(hs, h) <==> x in hs && x != h
  {
    if hs != [] { ExceptMembers(hs[1..], h, x); }
  }

  /** The block is recorded with the other flag. */
  ghost predicate Flips(mods: seq<BlockChanges>, h: Hash, isBest: bool) {
    exists i | 0 <= i < |mods| :: mods[i].hash == h && mods[i].isCanon != isBest
  }

  /** A commit of a recorded block whose flag changes counts as enacting or retracting it, and only for that reason is
      the commit's own block among the enacted ones. */
  lemma RecommitRoutes(v: View, enacted: seq<Hash>, retracted: seq<Hash>, c: Commit, isBest: bool, h: Hash)
    requires Sorted(v.mods)
    ensures h in EnactedWith(v, enacted, Some(c), isBest) <==>
      (h in enacted && h != c.hash) || (h == c.hash && isBest && Flips(v.mods, h, isBest))
    ensures h in RetractedWith(v, retracted, Some(c), isBest) <==>
      h in retracted || (h == c.hash && !isBest && Flips(v.mods, h, isBest))
  {
    ExceptMembers(enacted, c.hash, h);
    var i := Find(v.mods, c.hash);
    assert h == c.hash ==> (Flips(v.mods, h, isBest) <==> i < |v.mods| && v.mods[i].isCanon != isBest);
  }

  // ------------------------------------------------------------ a growing chain

  /** Not a head switch, and a commit only of a new best block on top of the head. */
  ghost predicate GrowsBy(s: System, step: Step) {
    && !step.SetHead?
    && (step.CommitBlock? ==> step.isBest && step.id in s.open && s.open[step.id].at == Some(s.chain.best))
  }

  /** No recorded block is higher than the head, as on a chain without side blocks. */
  ghost predicate NoneAboveHead(s: System)
    requires s.chain.Valid()
  {
    forall j | 0 <= j < |s.cache.mods| :: s.cache.mods[j].number <= s.chain.tree[s.chain.best].number
  }

  /** The blocks committed by a list of steps, oldest first. */
  function Commits(steps: seq<Step>): seq<Hash> {
    if steps == [] then []
    else
      var n := |steps| - 1;
      Commits(steps[..n]) + if steps[n].CommitBlock? then [steps[n].hash] else []
  }

  /** The newest of the blocks `hs`, newest first, and behind them the records `older`, twelve in all. */
  ghost predicate NewestListed(mods: seq<BlockChanges>, hs: seq<Hash>, older: seq<BlockChanges>) {
    && |mods| == (if |hs| + |older| < 12 then |hs| + |older| else 12)
    && (forall j | 0 <= j < |mods| && j < |hs| :: mods[j].hash == hs[|hs| - 1 - j])
    && (forall j | |hs| <= j < |mods| :: mods[j] == older[j - |hs|])
  }

  lemma OtherStepsKeepMods(lim: Limits, s: System, step: Step)
    requires Inv(s) && Enabled(s, step) && !step.SetHead? && !step.CommitBlock?
    ensures Next(lim, s, step).cache.mods == s.cache.mods && Next(lim, s, step).chain == s.chain
  {
    hide AddedAll, Refreshed, Coherent, ModsOk;
  }

  lemma RouteToSelf(t: Tree, g: Hash, h: Hash)
    requires Rooted(t, g) && h in t
    ensures RouteOf(t, g, h, h) == Route([], h, [])
  {
  }

  /** A best commit on top of the head puts its record first. */
  lemma CommitOnHead(lim: Limits, s: System, step: Step)
    requires Inv(s) && Enabled(s, step) && step.CommitBlock? && GrowsBy(s, step) && NoneAboveHead(s)
    ensures var mods, s' := s.cache.mods, Next(lim, s, step);
      && s'.cache.mods != [] && s'.cache.mods[0].hash == step.hash
      && |s'.cache.mods| == (if |mods| == 12 then 12 else |mods| + 1)
      && (forall j | 0 < j < |s'.cache.mods| :: s'.cache.mods[j] == mods[j - 1])
      && s'.chain.Valid() && NoneAboveHead(s')
  {
    hide AddedAll, Coherent, Closed, Recorded, SyncedCache, RouteOf;
    var c, v, p := s.chain, s.cache, s.chain.best;
    RouteToSelf(c.tree, c.genesis, p);
    var n := c.tree[p].number + 1;
    CommitShape(lim, c, v, p, step.hash, step.drain.top, step.drain.child, step.changes, step.childChanges, true,
                CommitRoute(c, p, true), n);
    var m := NewRecord(n, step.hash, p, step.changes, step.childChanges, true);
    assert Synced(v, [], []) == v;
    assert Next(lim, s, step).cache.mods == Recorded(v.mods, m);
    var i := RecordedExact(v.mods, m);
    GrownValid(c, step.hash, p, DeltaOf(step.changes, step.childChanges), true);
  }

  /** While the chain grows at its head, the list is the newest committed blocks, and what was listed before them. */
  lemma {:induction false} GrowthIsRecorded(lim: Limits, ss: seq<System>, steps: seq<Step>, i: nat, j: nat)
    requires IsRun(lim, ss, steps) && i <= j < |ss| && ss[i].chain.Valid() && NoneAboveHead(ss[i])
    requires forall k | i <= k < j :: GrowsBy(ss[k], steps[k])
    ensures ss[j].chain.Valid() && NoneAboveHead(ss[j])
    ensures NewestListed(ss[j].cache.mods, Commits(steps[i..j]), ss[i].cache.mods)
    decreases j
  {
    hide Next, Inv, Enabled, NoneAboveHead, NewestListed, GrowsBy;
    if i == j {
      assert steps[i..j] == [];
      RunInv(lim, ss, steps, i);
      NothingCommitted(ss[i]);
    } else {
      GrowthIsRecorded(lim, ss, steps, i, j - 1);
      RunInv(lim, ss, steps, j - 1);
      GrowthStep(lim, ss[j - 1], steps[j - 1], Commits(steps[i..j - 1]), ss[i].cache.mods);
      CommitsStep(steps, i, j);
    }
  }

  lemma NothingCommitted(s: System)
    requires Inv(s)
    ensures NewestListed(s.cache.mods, [], s.cache.mods)
  {
    hide Coherent;
  }

  lemma CommitsStep(steps: seq<Step>, i: nat, j: nat)
    requires i < j <= |steps|
    ensures Commits(steps[i..j]) ==
      Commits(steps[i..j - 1]) + if steps[j - 1].CommitBlock? then [steps[j - 1].hash] else []
  {
    assert steps[i..j][..j - 1 - i] == steps[i..j - 1];
  }

  lemma GrowthStep(lim: Limits, s: System, step: Step, hs: seq<Hash>, older: seq<BlockChanges>)
    requires Inv(s) && Enabled(s, step) && GrowsBy(s, step) && NoneAboveHead(s)
    requires NewestListed(s.cache.mods, hs, older)
    ensures Next(lim, s, step).chain.Valid() && NoneAboveHead(Next(lim, s, step))
    ensures NewestListed(Next(lim, s, step).cache.mods, hs + if step.CommitBlock? then [step.hash] else [], older)
  {
    hide Next, Enabled, NoneAboveHead, NewestListed, CacheOk, LocalOk;
    if step.CommitBlock? {
      CommitOnHead(lim, s, step);
      NewestStep(s.cache.mods, hs, older, Next(lim, s, step).cache.mods, step.hash);
    } else {
      StepKeepsList(lim, s, step);
      assert hs + [] == hs;
    }
  }

  lemma NewestStep(mods: seq<BlockChanges>, hs: seq<Hash>, older: seq<BlockChanges>, mods': seq<BlockChanges>, h: Hash)
    requires NewestListed(mods, hs, older) && mods' != [] && mods'[0].hash == h
    requires |mods'| == (if |mods| == 12 then 12 else |mods| + 1)
    requires forall j | 0 < j < |mods'| :: mods'[j] == mods[j - 1]
    ensures NewestListed(mods', hs + [h], older)
  {
  }

  lemma StepKeepsList(lim: Limits, s: System, step: Step)
    requires Inv(s) && Enabled(s, step) && !step.SetHead? && !step.CommitBlock? && NoneAboveHead(s)
    ensures Next(lim, s, step).cache.mods == s.cache.mods
    ensures Next(lim, s, step).chain.Valid() && NoneAboveHead(Next(lim, s, step))
  {
    hide Next;
    OtherStepsKeepMods(lim, s, step);
  }

  /** After any number of best commits on top of each other from genesis on, the newest twelve of them are listed. */
  lemma NewestTwelve(lim: Limits, ss: seq<System>, steps: seq<Step>, j: nat)
    requires IsRun(lim, ss, steps) && j < |ss| && forall k | 0 <= k < j :: GrowsBy(ss[k], steps[k])
    ensures NewestListed(ss[j].cache.mods, Commits(steps[..j]), [])
  {
    hide Next, Enabled, GrowsBy;
    RunInv(lim, ss, steps, 0);
    GrowthIsRecorded(lim, ss, steps, 0, j);
    assert steps[0..j] == steps[..j];
  }

  // ------------------------------------------------------------ values that can be read back

  /** Dropping a state at the best block puts all its values into the cache, if they fit; at another block, nothing. */
  lemma DropServes(lim: Limits, v: View, p: Hash, localTop: seq<Entry>, localChild: seq<Entry>, isBest: bool,
                   k: StateKey)
    requires Distinct(v.top) && Distinct(v.child)
    requires TotalSize(v.top) + TotalSize(localTop) <= lim.top
    requires TotalSize(v.child) + TotalSize(localChild) <= lim.child
    ensures var r := SyncedCache(lim, v, Some(p), localTop, localChild, [], [], [], [], None, isBest);
      && (!isBest ==> r == v) && r.mods == v.mods
      && (isBest ==>
            Lookup(r.top, k) == if k in Bindings(localTop) then Some(Bindings(localTop)[k]) else Lookup(v.top, k))
      && (isBest ==>
            Lookup(r.child, k) == if k in Bindings(localChild) then Some(Bindings(localChild)[k])
              else Lookup(v.child, k))
  {
    hide AddedAll, Lookup, Bindings;
    assert Synced(v, [], []) == v;
    AddedAllServes(v.top, lim.top, localTop, k);
    AddedAllServes(v.child, lim.child, localChild, k);
  }

  /** After a best commit the cache answers with the block's changes, then the state's own values, then what the
      synchronization kept, if they fit. A commit beside the best chain adds no value. */
  lemma CommitServes(lim: Limits, c: Chain, v: View, p: Hash, h: Hash, localTop: seq<Entry>, localChild: seq<Entry>,
                     changes: seq<Entry>, childChanges: seq<Entry>, isBest: bool, k: StateKey)
    requires c.Valid() && CacheOk(c, v) && p in c.tree && h !in c.tree
    requires var r := CommitRoute(c, p, isBest); var v1 := Synced(v, r.enacted, r.retracted);
      && Distinct(v1.top) && TotalSize(v1.top) + TotalSize(localTop) + TotalSize(changes) <= lim.top
      && Distinct(v1.child) && TotalSize(v1.child) + TotalSize(localChild) + TotalSize(childChanges) <= lim.child
    ensures var r := CommitRoute(c, p, isBest); var v1 := Synced(v, r.enacted, r.retracted);
      var w := SyncedCache(lim, v, Some(p), localTop, localChild, r.enacted, r.retracted, changes, childChanges,
                           Some(Commit(h, c.tree[p].number + 1)), isBest);
      && (!isBest ==> w.top == v1.top && w.child == v1.child)
      && (isBest ==>
            Lookup(w.top, k) == if k in Bindings(changes) then Some(Bindings(changes)[k])
              else if k in Bindings(localTop) then Some(Bindings(localTop)[k]) else Lookup(v1.top, k))
      && (isBest ==>
            Lookup(w.child, k) == if k in Bindings(childChanges) then Some(Bindings(childChanges)[k])
              else if k in Bindings(localChild) then Some(Bindings(localChild)[k]) else Lookup(v1.child, k))
  {
    hide AddedAll, Lookup, Bindings, Synced, SyncedCache, CacheOk, Recorded, TotalSize, Distinct;
    var r := CommitRoute(c, p, isBest);
    var v1 := Synced(v, r.enacted, r.retracted);
    CommitShape(lim, c, v, p, h, localTop, localChild, changes, childChanges, isBest, r, c.tree[p].number + 1);
    AddedAllServes(v1.top, lim.top, localTop, k);
    AddedAllServes(AddedAll(v1.top, lim.top, localTop), lim.top, changes, k);
    AddedAllServes(v1.child, lim.child, localChild, k);
    AddedAllServes(AddedAll(v1.child, lim.child, localChild), lim.child, childChanges, k);
  }

  /** A state without a parent block only synchronizes: it leaves no values and no record. */
  lemma NoParentOnlySyncs(lim: Limits, v: View, localTop: seq<Entry>, localChild: seq<Entry>, enacted: seq<Hash>,
                          retracted: seq<Hash>, changes: seq<Entry>, childChanges: seq<Entry>, isBest: bool)
    ensures SyncedCache(lim, v, None, localTop, localChild, enacted, retracted, changes, childChanges, None, isBest)
         == Synced(v, enacted, retracted)
  {
  }
}
