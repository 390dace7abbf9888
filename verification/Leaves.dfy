/** The set of leaves of the block tree, kept incrementally: heights with the hashes of the leaves there.
    Over any history of imports and finalizations it is exactly the leaves of the imported tree that
    finalization has not displaced, and finalizations can be undone.
  */
module Leaves {
  import opened ChainTree

  type LeafMap = map<nat, seq<Hash>>

  function Without(hs: seq<Hash>, h: Hash): (r: seq<Hash>)
    ensures h !in r && |r| <= |hs|
    ensures forall x :: x in r <==> x in hs && x != h
    ensures h !in hs ==> r == hs
  {
    if hs == [] then [] else (if hs[0] == h then [] else [hs[0]]) + Without(hs[1..], h)
  }

  function Inserted(m: LeafMap, n: nat, h: Hash): LeafMap {
    m[n := (if n in m then m[n] else []) + [h]]
  }

  /** `remove_leaf`: drops the hash, and the height when no hash is left. */
  function Removed(m: LeafMap, n: nat, h: Hash): LeafMap {
    if n !in m then m
    else
      var rest := Without(m[n], h);
      if h in m[n] && rest == [] then m - {n} else m[n := rest]
  }

  predicate Contains(m: LeafMap, n: nat, h: Hash) { n in m && h in m[n] }

  /** `import`: the parent stops being a leaf, the block becomes one. */
  function Imported(m: LeafMap, h: Hash, n: nat, parent: Hash): LeafMap {
    Inserted(if n != 0 then Removed(m, n - 1, parent) else m, n, h)
  }

  /** The leaves that `finalize_height(n)` displaces: those below `n`. */
  function Displaced(m: LeafMap, n: nat): LeafMap { map k | k in m && k < n :: m[k] }

  function Remaining(m: LeafMap, n: nat): LeafMap { map k | k in m && k >= n :: m[k] }

  /** `FinalizationDisplaced::merge`: on a common height the newer list wins. */
  function Merged(a: LeafMap, b: LeafMap): LeafMap { a + b }

  /** `undo_finalization`. */
  function UndoneFinalization(m: LeafMap, displaced: LeafMap): LeafMap { m + displaced }

  /** `undo_import`, as it is written: the displaced parent goes back at the height of its child. */
  function UndoneImport(m: LeafMap, h: Hash, n: nat, parent: Hash): LeafMap {
    Inserted(Removed(m, n, h), n, parent)
  }

  // ------------------------------------------------------------ histories

  datatype Event = Import(hash: Hash, number: nat, parent: Hash) | FinalizeHeight(number: nat)

  function Replay(events: seq<Event>): LeafMap {
    if events == [] then map[]
    else
      var n := |events| - 1;
      var m := Replay(events[..n]);
      match events[n]
      case Import(h, number, parent) => Imported(m, h, number, parent)
      case FinalizeHeight(number) => Remaining(m, number)
  }

  /** Every block is imported once, before its children, and a child's number is one more than its parent's. */
  ghost predicate ParentFirst(events: seq<Event>) {
    && (forall i, j | 0 <= i < j < |events| && events[i].Import? && events[j].Import? ::
          events[i].hash != events[j].hash && events[i].parent != events[j].hash)
    && (forall i | 0 <= i < |events| && events[i].Import? :: events[i].parent != events[i].hash)
    && (forall i, j | 0 <= i < j < |events| && events[i].Import? && events[j].Import?
                      && events[j].parent == events[i].hash ::
          events[j].number == events[i].number + 1)
  }

  ghost predicate HasChild(events: seq<Event>, h: Hash) {
    exists j | 0 <= j < |events| :: events[j].Import? && events[j].parent == h
  }

  ghost predicate DisplacedAfter(events: seq<Event>, i: nat, n: nat) {
    exists j | i < j < |events| :: events[j].FinalizeHeight? && events[j].number > n
  }

  /** Block `h` was imported at height `n`, has no child, and was not displaced since. */
  ghost predicate IsLeaf(events: seq<Event>, h: Hash, n: nat) {
    && !HasChild(events, h)
    && exists i | 0 <= i < |events| :: ImportedAt(events, i, h, n) && !DisplacedAfter(events, i, n)
  }

  ghost predicate ImportedAt(events: seq<Event>, i: nat, h: Hash, n: nat)
    requires i < |events|
  {
    events[i].Import? && events[i].hash == h && events[i].number == n
  }

  ghost predicate Distinct(hs: seq<Hash>) { forall i, j | 0 <= i < j < |hs| :: hs[i] != hs[j] }

  /** No height is kept without leaves, and no leaf is kept twice. */
  ghost predicate Tidy(m: LeafMap) { forall n | n in m :: m[n] != [] && Distinct(m[n]) }

  lemma {:induction false} WithoutDistinct(hs: seq<Hash>, h: Hash)
    requires Distinct(hs)
    ensures Distinct(Without(hs, h))
  {
    if hs != [] {
      var rest := Without(hs[1..], h);
      WithoutDistinct(hs[1..], h);
      assert hs[0] !in hs[1..];
      forall i, j | 0 <= i < j < |Without(hs, h)| ensures Without(hs, h)[i] != Without(hs, h)[j] {
        if hs[0] != h { assert Without(hs, h) == [hs[0]] + rest; assert rest[j - 1] in rest; }
      }
    }
  }

  lemma RemovedTidy(m: LeafMap, n: nat, h: Hash)
    requires Tidy(m)
    ensures Tidy(Removed(m, n, h))
    ensures forall k: nat, x: Hash :: Contains(Removed(m, n, h), k, x) <==> Contains(m, k, x) && !(k == n && x == h)
  {
    if n in m { WithoutDistinct(m[n], h); }
  }

  lemma InsertedTidy(m: LeafMap, n: nat, h: Hash)
    requires Tidy(m) && !Contains(m, n, h)
    ensures Tidy(Inserted(m, n, h))
    ensures forall k: nat, x: Hash :: Contains(Inserted(m, n, h), k, x) <==> Contains(m, k, x) || (k == n && x == h)
  {
  }

  lemma HasChildStep(events: seq<Event>, e: Event, x: Hash)
    ensures HasChild(events + [e], x) <==> HasChild(events, x) || (e.Import? && e.parent == x)
  {
    var all := events + [e];
    assert all[|events|] == e;
    assert forall i | 0 <= i < |events| :: all[i] == events[i];
  }

  lemma DisplacedStep(events: seq<Event>, e: Event, i: nat, n: nat)
    requires i < |events|
    ensures DisplacedAfter(events + [e], i, n) <==> DisplacedAfter(events, i, n) || (e.FinalizeHeight? && e.number > n)
  {
    var all := events + [e];
    assert all[|events|] == e;
    assert forall i | 0 <= i < |events| :: all[i] == events[i];
  }

  /** What one more event does to the leaves of a history. */
  lemma LeafStep(events: seq<Event>, e: Event, x: Hash, n: nat)
    requires ParentFirst(events + [e])
    ensures e.FinalizeHeight? ==> (IsLeaf(events + [e], x, n) <==> IsLeaf(events, x, n) && n >= e.number)
    ensures e.Import? ==>
      (IsLeaf(events + [e], x, n) <==> (x == e.hash && n == e.number) || (IsLeaf(events, x, n) && x != e.parent))
  {
    var all := events + [e];
    assert all[|events|] == e;
    assert forall i | 0 <= i < |events| :: all[i] == events[i];
    HasChildStep(events, e, x);
    forall i | 0 <= i < |events| ensures ImportedAt(all, i, x, n) == ImportedAt(events, i, x, n)
      ensures DisplacedAfter(all, i, n) <==> DisplacedAfter(events, i, n) || (e.FinalizeHeight? && e.number > n)
    {
      DisplacedStep(events, e, i, n);
    }
    if e.Import? && x == e.hash && n == e.number {
      assert ImportedAt(all, |events|, x, n) && !DisplacedAfter(all, |events|, n);
    }
  }

  /** A leaf's children would have its number plus one, so the parent of a block can only be found just below it. */
  lemma ParentBelow(events: seq<Event>, e: Event, n: nat)
    requires ParentFirst(events + [e]) && e.Import? && IsLeaf(events, e.parent, n)
    ensures e.number == n + 1
  {
    var all := events + [e];
    var i :| 0 <= i < |events| && ImportedAt(events, i, e.parent, n) && !DisplacedAfter(events, i, n);
    assert all[i] == events[i] && all[|events|] == e;
  }

  lemma FreshIsNoLeaf(events: seq<Event>, e: Event, n: nat)
    requires ParentFirst(events + [e]) && e.Import?
    ensures !IsLeaf(events, e.hash, n)
  {
    var all := events + [e];
    assert all[|events|] == e;
    assert forall i | 0 <= i < |events| :: all[i] == events[i];
  }

  lemma PrefixParentFirst(events: seq<Event>, n: nat)
    requires ParentFirst(events) && n <= |events|
    ensures ParentFirst(events[..n])
  {
  }

  /** Over every history the set holds exactly the undisplaced leaves, each once and at its own height. */
  lemma {:induction false} LeavesExact(events: seq<Event>)
    requires ParentFirst(events)
    ensures Tidy(Replay(events))
    ensures forall n: nat, h: Hash :: Contains(Replay(events), n, h) <==> IsLeaf(events, h, n)
  {
    if events != [] {
      var before, e := events[..|events| - 1], events[|events| - 1];
      assert events == before + [e];
      PrefixParentFirst(events, |events| - 1);
      LeavesExact(before);
      LastEventExact(before, e);
    }
  }

  lemma ImportedTidy(m: LeafMap, h: Hash, n: nat, parent: Hash)
    requires Tidy(m) && !Contains(m, n, h)
    ensures Tidy(Imported(m, h, n, parent))
    ensures forall k: nat, x: Hash :: Contains(Imported(m, h, n, parent), k, x) <==>
      (Contains(m, k, x) && !(k == n - 1 && x == parent)) || (k == n && x == h)
  {
    hide Removed, Inserted, Tidy;
    var without := if n != 0 then Removed(m, n - 1, parent) else m;
    if n != 0 { RemovedTidy(m, n - 1, parent); }
    InsertedTidy(without, n, h);
  }

  lemma LastEventExact(before: seq<Event>, e: Event)
    requires ParentFirst(before + [e]) && Tidy(Replay(before))
    requires forall n: nat, h: Hash :: Contains(Replay(before), n, h) <==> IsLeaf(before, h, n)
    ensures Tidy(Replay(before + [e]))
    ensures forall n: nat, h: Hash :: Contains(Replay(before + [e]), n, h) <==> IsLeaf(before + [e], h, n)
  {
    hide Imported, ParentFirst, IsLeaf;
    var m, events := Replay(before), before + [e];
    assert events[..|events| - 1] == before;
    if e.Import? {
      FreshIsNoLeaf(before, e, e.number);
      ImportedTidy(m, e.hash, e.number, e.parent);
    }
    forall n: nat, h: Hash ensures Contains(Replay(events), n, h) <==> IsLeaf(events, h, n) {
      LeafStep(before, e, h, n);
      if e.Import? && h == e.parent && IsLeaf(before, h, n) { ParentBelow(before, e, n); }
    }
  }

  // ------------------------------------------------------------ the order at one height

  ghost predicate ImportedBefore(events: seq<Event>, x: Hash, y: Hash) {
    exists a, b | 0 <= a < b < |events| ::
      events[a].Import? && events[a].hash == x && events[b].Import? && events[b].hash == y
  }

  ghost predicate InOrder(events: seq<Event>, hs: seq<Hash>) {
    forall i, j | 0 <= i < j < |hs| :: ImportedBefore(events, hs[i], hs[j])
  }

  lemma InOrderLater(events: seq<Event>, e: Event, hs: seq<Hash>)
    requires InOrder(events, hs)
    ensures InOrder(events + [e], hs)
  {
    var all := events + [e];
    forall i, j | 0 <= i < j < |hs| ensures ImportedBefore(all, hs[i], hs[j]) {
      assert ImportedBefore(events, hs[i], hs[j]);
      var a, b :| 0 <= a < b < |events|
        && events[a].Import? && events[a].hash == hs[i] && events[b].Import? && events[b].hash == hs[j];
      assert all[a] == events[a] && all[b] == events[b];
    }
  }

  lemma {:induction false} WithoutInOrder(events: seq<Event>, hs: seq<Hash>, h: Hash)
    requires InOrder(events, hs)
    ensures InOrder(events, Without(hs, h))
  {
    if hs != [] {
      hide ImportedBefore;
      var rest := Without(hs[1..], h);
      WithoutInOrder(events, hs[1..], h);
      forall y | y in rest ensures ImportedBefore(events, hs[0], y) {
        var j :| 0 <= j < |hs[1..]| && hs[1..][j] == y;
        assert hs[j + 1] == y;
      }
      if hs[0] != h {
        assert Without(hs, h) == [hs[0]] + rest;
      } else {
        assert Without(hs, h) == rest;
      }
    }
  }

  lemma AppendInOrder(events: seq<Event>, e: Event, hs: seq<Hash>)
    requires e.Import? && InOrder(events, hs)
    requires forall x | x in hs :: exists a | 0 <= a < |events| :: events[a].Import? && events[a].hash == x
    ensures InOrder(events + [e], hs + [e.hash])
  {
    var all, hs' := events + [e], hs + [e.hash];
    InOrderLater(events, e, hs);
    forall i, j | 0 <= i < j < |hs'| ensures ImportedBefore(all, hs'[i], hs'[j]) {
      if j == |hs| {
        assert hs[i] in hs;
        var a :| 0 <= a < |events| && events[a].Import? && events[a].hash == hs[i];
        assert all[a] == events[a] && all[|events|] == e;
      } else {
        assert ImportedBefore(all, hs[i], hs[j]);
      }
    }
  }

  /** At each height the leaves stand in the order of their import. */
  lemma {:induction false} LeavesInOrder(events: seq<Event>, n: nat)
    requires ParentFirst(events) && n in Replay(events)
    ensures InOrder(events, Replay(events)[n])
    decreases |events|
  {
    var last := |events| - 1;
    var before, e := events[..last], events[last];
    var m := Replay(before);
    assert events == before + [e];
    PrefixParentFirst(events, last);
    var kept: seq<Hash> := if n in m then m[n] else [];
    if n in m {
      LeavesInOrder(before, n);
      InOrderLater(before, e, kept);
    }
    if e.Import? {
      hide ParentFirst, InOrder, Tidy, Replay;
      LeavesExact(before);
      ReplayImport(before, e);
      var less := if n in m && n == e.number - 1 then Without(kept, e.parent) else kept;
      if n in m && n == e.number - 1 { WithoutInOrder(events, kept, e.parent); }
      if n == e.number {
        forall x | x in kept ensures exists a | 0 <= a < |before| :: before[a].Import? && before[a].hash == x {
          assert Contains(m, n, x) && IsLeaf(before, x, n);
        }
        EmptyInOrder(before);
        AppendInOrder(before, e, kept);
      }
    }
  }

  lemma EmptyInOrder(events: seq<Event>)
    ensures InOrder(events, [])
  {
  }

  lemma ReplayImport(before: seq<Event>, e: Event)
    requires e.Import?
    ensures Replay(before + [e]) == Imported(Replay(before), e.hash, e.number, e.parent)
  {
    assert (before + [e])[..|before|] == before;
  }

  // ------------------------------------------------------------ undoing finalizations

  function RemainingAll(m: LeafMap, heights: seq<nat>): LeafMap {
    if heights == [] then m else Remaining(RemainingAll(m, heights[..|heights| - 1]), heights[|heights| - 1])
  }

  /** What a run of finalizations displaces, merged in the order of the calls. */
  function DisplacedAll(m: LeafMap, heights: seq<nat>): LeafMap {
    if heights == [] then map[]
    else
      var n := |heights| - 1;
      Merged(DisplacedAll(m, heights[..n]), Displaced(RemainingAll(m, heights[..n]), heights[n]))
  }

  ghost predicate Splits(m: LeafMap, kept: LeafMap, gone: LeafMap) {
    && kept.Keys !! gone.Keys
    && kept.Keys + gone.Keys == m.Keys
    && (forall k | k in kept :: kept[k] == m[k])
    && (forall k | k in gone :: gone[k] == m[k])
  }

  lemma SplitAgain(m: LeafMap, kept: LeafMap, gone: LeafMap, n: nat)
    requires Splits(m, kept, gone)
    ensures Splits(m, Remaining(kept, n), Merged(gone, Displaced(kept, n)))
    ensures gone.Keys !! Displaced(kept, n).Keys
  {
    var displaced := Displaced(kept, n);
    assert displaced.Keys <= kept.Keys;
    assert Merged(gone, displaced).Keys == gone.Keys + displaced.Keys;
    forall k | k in m ensures k in Remaining(kept, n).Keys + (gone.Keys + displaced.Keys) {}
  }

  lemma {:induction false} RunSplits(m: LeafMap, heights: seq<nat>)
    ensures Splits(m, RemainingAll(m, heights), DisplacedAll(m, heights))
  {
    if heights != [] {
      var n := |heights| - 1;
      RunSplits(m, heights[..n]);
      SplitAgain(m, RemainingAll(m, heights[..n]), DisplacedAll(m, heights[..n]), heights[n]);
    }
  }

  /** However the heights are ordered, no merge covers an earlier record, and undoing the merged record
      gives back the set as it was before the first call. */
  lemma UndoRestores(m: LeafMap, heights: seq<nat>)
    ensures UndoneFinalization(RemainingAll(m, heights), DisplacedAll(m, heights)) == m
    ensures heights != [] ==>
      var before := heights[..|heights| - 1];
      DisplacedAll(m, before).Keys !! Displaced(RemainingAll(m, before), heights[|heights| - 1]).Keys
  {
    RunSplits(m, heights);
    if heights != [] {
      var before := heights[..|heights| - 1];
      RunSplits(m, before);
      SplitAgain(m, RemainingAll(m, before), DisplacedAll(m, before), heights[|heights| - 1]);
    }
  }

  /** The remaining heights are those at or above every finalized height. */
  lemma {:induction false} RemainingAllExact(m: LeafMap, heights: seq<nat>, n: nat)
    ensures n in RemainingAll(m, heights) <==> n in m && forall i | 0 <= i < |heights| :: heights[i] <= n
    ensures n in RemainingAll(m, heights) ==> RemainingAll(m, heights)[n] == m[n]
  {
    if heights != [] { RemainingAllExact(m, heights[..|heights| - 1], n); }
  }

  // ------------------------------------------------------------ undoing imports

  function Hashes(m: LeafMap): set<Hash> { set n, h | n in m && h in m[n] :: h }

  /** The hashes of the set come back, but the parent is filed one height too high: the set itself never comes back. */
  lemma UndoneImportMisfiles(m: LeafMap, h: Hash, n: nat, parent: Hash)
    requires Tidy(m) && n > 0 && Contains(m, n - 1, parent) && h !in Hashes(m)
    requires forall k: nat :: Contains(m, k, parent) ==> k == n - 1
    ensures var undone := UndoneImport(Imported(m, h, n, parent), h, n, parent);
      && Hashes(undone) == Hashes(m)
      && undone != m
      && Contains(undone, n, parent) && !Contains(undone, n - 1, parent)
  {
    hide Removed, Inserted, Tidy, Hashes;
    var less := Removed(m, n - 1, parent);
    RemovedTidy(m, n - 1, parent);
    HashesOf(m);
    assert !Contains(m, n, h);
    InsertedTidy(less, n, h);
    var more := Inserted(less, n, h);
    RemovedTidy(more, n, h);
    var gone := Removed(more, n, h);
    assert !Contains(gone, n, parent);
    InsertedTidy(gone, n, parent);
    var undone := Inserted(gone, n, parent);
    assert undone == UndoneImport(Imported(m, h, n, parent), h, n, parent);
    HashesOf(undone);
    forall x ensures x in Hashes(undone) <==> x in Hashes(m) {
      if x in Hashes(m) {
        var k: nat :| Contains(m, k, x);
        assert Contains(undone, if x == parent then n else k, x);
      }
      if x in Hashes(undone) {
        var k: nat :| Contains(undone, k, x);
        assert Contains(m, if x == parent then n - 1 else k, x);
      }
    }
  }

  lemma HashesOf(m: LeafMap)
    ensures forall h :: h in Hashes(m) <==> exists n: nat :: Contains(m, n, h)
  {
    forall h, n: nat | Contains(m, n, h) ensures h in Hashes(m) {}
    forall h | h in Hashes(m) ensures exists n: nat :: Contains(m, n, h) {
      var n :| n in m && h in m[n];
      assert Contains(m, n, h);
    }
  }

  // ------------------------------------------------------------ the set itself

  /** `revert`: the leaves above the target go, and the target is a leaf. */
  function Reverted(m: LeafMap, best: Hash, number: nat): LeafMap {
    var kept := map k | k in m && k <= number :: m[k];
    if Contains(kept, number, best) then kept else Inserted(kept, number, best)
  }

  lemma RevertedExact(m: LeafMap, best: Hash, number: nat)
    requires Tidy(m)
    ensures Tidy(Reverted(m, best, number))
    ensures forall n: nat, h: Hash ::
      Contains(Reverted(m, best, number), n, h) <==> (Contains(m, n, h) && n <= number) || (n == number && h == best)
  {
    var kept := map k | k in m && k <= number :: m[k];
    if !Contains(kept, number, best) { InsertedTidy(kept, number, best); }
  }

  lemma WithoutStep(hs: seq<Hash>, i: nat, h: Hash, rest: seq<Hash>)
    requires i < |hs|
    ensures rest + Without(hs[i..], h) == (if hs[i] == h then rest else rest + [hs[i]]) + Without(hs[i + 1..], h)
  {
    assert hs[i..][1..] == hs[i + 1..];
    var tail := Without(hs[i + 1..], h);
    assert Without(hs[i..], h) == (if hs[i] == h then [] else [hs[i]]) + tail;
    assert rest + ([hs[i]] + tail) == (rest + [hs[i]]) + tail;
  }

  method Retain(hs: seq<Hash>, h: Hash) returns (rest: seq<Hash>, found: bool)
    ensures rest == Without(hs, h) && (found <==> h in hs)
  {
    hide Without;
    rest, found := [], false;
    assert hs[0..] == hs && rest + Without(hs, h) == Without(hs, h);
    for i := 0 to |hs|
      invariant rest + Without(hs[i..], h) == Without(hs, h)
      invariant found <==> h in hs[..i]
    {
      WithoutStep(hs, i, h, rest);
      if hs[i] == h { found := true; } else { rest := rest + [hs[i]]; }
      assert hs[..i + 1] == hs[..i] + [hs[i]];
    }
    assert hs[..|hs|] == hs;
    assert |Without(hs[|hs|..], h)| == 0;
  }

  class LeafSet {
    var storage: LeafMap

    constructor ()
      ensures storage == map[]
    {
      storage := map[];
    }

    method InsertLeaf(n: nat, h: Hash)
      modifies this
      ensures storage == Inserted(old(storage), n, h)
    {
      if n !in storage { storage := storage[n := []]; }
      storage := storage[n := storage[n] + [h]];
    }

    method RemoveLeaf(n: nat, h: Hash) returns (removed: bool)
      modifies this
      ensures storage == Removed(old(storage), n, h)
      ensures removed <==> Contains(old(storage), n, h)
    {
      removed := false;
      if n in storage {
        var rest: seq<Hash>;
        rest, removed := Retain(storage[n], h);
        storage := storage[n := rest];
        if removed && rest == [] {
          storage := storage - {n};
          assert storage == Removed(old(storage), n, h);
        }
      }
    }

    /** The block replaces its parent; the displaced parent is returned with its height. */
    method Import(h: Hash, n: nat, parent: Hash) returns (displaced: Option<(Hash, nat)>)
      modifies this
      ensures storage == Imported(old(storage), h, n, parent)
      ensures displaced ==
        if n != 0 && Contains(old(storage), n - 1, parent) then Some((parent, n - 1)) else None
    {
      displaced := None;
      if n != 0 {
        var removed := RemoveLeaf(n - 1, parent);
        if removed { displaced := Some((parent, n - 1)); }
      }
      InsertLeaf(n, h);
    }

    method FinalizeHeight(n: nat) returns (displaced: LeafMap)
      modifies this
      ensures storage == Remaining(old(storage), n) && displaced == Displaced(old(storage), n)
    {
      if n == 0 {
        displaced := map[];
      } else {
        var boundary: nat := n - 1;
        displaced := map k | k in storage && k <= boundary :: storage[k];
        storage := map k | k in storage && k > boundary :: storage[k];
      }
    }

    method UndoFinalization(displaced: LeafMap)
      modifies this
      ensures storage == UndoneFinalization(old(storage), displaced)
    {
      storage := storage + displaced;
    }

    method UndoImport(h: Hash, displaced: (Hash, nat))
      modifies this
      ensures storage == UndoneImport(old(storage), h, displaced.1 + 1, displaced.0)
    {
      var _ := RemoveLeaf(displaced.1 + 1, h);
      InsertLeaf(displaced.1 + 1, displaced.0);
    }

    /** Removes one height, leaf by leaf; every leaf of the list is still there when its turn comes. */
    method RemoveHeight(n: nat)
      requires Tidy(storage) && n in storage
      modifies this
      ensures storage == old(storage) - {n}
    {
      var items := storage[n];
      for i := 0 to |items|
        invariant i < |items| ==> storage == old(storage)[n := items[i..]]
        invariant i == |items| ==> storage == old(storage) - {n}
      {
        assert items[i..][1..] == items[i + 1..];
        assert items[i] !in items[i + 1..];
        assert Without(items[i..], items[i]) == items[i + 1..];
        var removed := RemoveLeaf(n, items[i]);
        assert removed;
      }
    }

    method Revert(best: Hash, number: nat)
      requires Tidy(storage)
      modifies this
      ensures storage == Reverted(old(storage), best, number) && Tidy(storage)
    {
      var heights := storage.Keys;
      while heights != {}
        invariant heights <= storage.Keys
        invariant Tidy(storage)
        invariant forall k :: k in storage <==> k in old(storage) && (k <= number || k in heights)
        invariant forall k | k in storage :: storage[k] == old(storage)[k]
        decreases |heights|
      {
        var n :| n in heights;
        heights := heights - {n};
        if n > number { RemoveHeight(n); }
      }
      RevertedExact(old(storage), best, number);
      assert storage == map k | k in old(storage) && k <= number :: old(storage)[k];
      if !(number in storage && best in storage[number]) { InsertLeaf(number, best); }
    }
  }
}
