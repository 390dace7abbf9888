/** Runs of committed operations on a full node: finality is one chain that is never retracted, and
    body pruning removes exactly the bodies that it promises to remove.
  */
module NodeRuns {
  import opened ChainTree
  import opened Keys
  import opened NodeState

  // ------------------------------------------------------------ finality

  /** The blocks that the listed ids finalize. */
  function Finalizing(s: Node, ids: seq<BlockId>): seq<Hash>
    requires FinalizedAll(s, ids).Ok?
  {
    if ids == [] then []
    else Finalizing(s, ids[..|ids| - 1]) + [Resolve(s, ids[|ids| - 1]).value]
  }

  /** All the blocks that a successful operation finalizes, in order. */
  function Newly(s: Node, op: Operation): seq<Hash>
    requires FinalizedAll(s, op.finalize).Ok?
  {
    Finalizing(s, op.finalize)
      + (if op.pending.Some? && op.pending.value.Finalizes() then [op.pending.value.hash] else [])
  }

  /** Blocks finalized by ids are the path from the last finalized block to the new one. */
  lemma {:induction false} FinalizingIsPath(s: Node, ids: seq<BlockId>)
    requires NodeOk(s) && FinalizedAll(s, ids).Ok?
    ensures var last := FinalizedAll(s, ids).value.last;
      OnChain(s.tree, s.genesis, s.finalized, last) && Finalizing(s, ids) == Up(s.tree, s.genesis, s.finalized, last)
    decreases |ids|
  {
    if ids != [] {
      var n := |ids| - 1;
      FinalizingIsPath(s, ids[..n]);
      var h, prev := Resolve(s, ids[n]).value, FinalizedAll(s, ids[..n]).value.last;
      ChildPath(s.tree, s.genesis, s.finalized, prev, h);
    }
  }

  lemma ChildPath(t: Tree, g: Hash, a: Hash, p: Hash, h: Hash)
    requires Rooted(t, g) && OnChain(t, g, a, p) && h in t && t[h].parent == p && h != g
    ensures OnChain(t, g, a, h) && Up(t, g, a, h) == Up(t, g, a, p) + [h]
  {
    assert LinkedToParent(t, h);
  }

  lemma {:induction false} UpExtends(t: Tree, t': Tree, g: Hash, a: Hash, h: Hash)
    requires Rooted(t, g) && Rooted(t', g) && Extends(t, t') && OnChain(t, g, a, h)
    ensures OnChain(t', g, a, h) && Up(t', g, a, h) == Up(t, g, a, h)
    decreases t[h].number
  {
    OnChainExtends(t, t', g, a, h);
    if a != h {
      assert LinkedToParent(t, h) && LinkedToParent(t', h);
      UpExtends(t, t', g, a, t[h].parent);
    }
  }

  /** What one operation finalizes is the parent-linked path from the old finalized block to the new one. */
  lemma NewlyIsPath(s: Node, op: Operation)
    requires NodeOk(s) && Proper(s, op) && TryCommit(s, op).Ok?
    ensures var s' := TryCommit(s, op).value;
      && Rooted(s'.tree, s'.genesis) && s'.genesis == s.genesis
      && OnChain(s'.tree, s'.genesis, s.finalized, s'.finalized)
      && Newly(s, op) == Up(s'.tree, s'.genesis, s.finalized, s'.finalized)
  {
    CommitKeepsNode(s, op);
    FinalizingIsPath(s, op.finalize);
    var s', last := TryCommit(s, op).value, FinalizedAll(s, op.finalize).value.last;
    CommitFields(s, op);
    UpExtends(s.tree, s'.tree, s.genesis, s.finalized, last);
    if op.pending.Some? && op.pending.value.Finalizes() {
      ChildPath(s'.tree, s.genesis, s.finalized, last, op.pending.value.hash);
    }
  }

  /** The finalized block, the head and the tree that a successful operation ends with. */
  lemma CommitFields(s: Node, op: Operation)
    requires NodeOk(s) && Proper(s, op) && TryCommit(s, op).Ok?
    ensures FinalizedAll(s, op.finalize).Ok?
    ensures var s' := TryCommit(s, op).value; var last := FinalizedAll(s, op.finalize).value.last;
      && s'.tree == (if op.pending.Some? then s.tree[op.pending.value.hash := op.pending.value.header] else s.tree)
      && (if op.pending.Some? && op.pending.value.Finalizes()
          then s'.finalized == op.pending.value.hash && op.pending.value.header.parent == last
          else s'.finalized == last)
      && s'.best == EndHead(s, op)
      && (op.setHead.Some? ==> Resolve(s, op.setHead.value).Ok?)
      && s.finalized !in HeadRoute(s, op).retracted
  {
    hide RouteOf;
  }

  /** The head that a successful operation ends with. */
  function EndHead(s: Node, op: Operation): Hash {
    if op.setHead.Some? && Resolve(s, op.setHead.value).Ok? then Resolve(s, op.setHead.value).value
    else if op.pending.Some? && op.pending.value.leaf.IsBest() then op.pending.value.hash
    else s.best
  }

  /** The route along which it moves the head. */
  ghost function HeadRoute(s: Node, op: Operation): Route
    requires NodeOk(s) && Proper(s, op)
  {
    if op.setHead.Some? && Resolve(s, op.setHead.value).Ok? then
      RouteOf(s.tree, s.genesis, s.best, Resolve(s, op.setHead.value).value)
    else if op.pending.Some? && op.pending.value.leaf.IsBest() then
      RouteOf(s.tree, s.genesis, s.best, op.pending.value.header.parent)
    else Route([], s.best, [])
  }

  /** What a successful operation ends with, told from what it was given. A pending block becomes final exactly when it
      is marked final and comes with its state, and otherwise the last listed block is final. The head is the block
      it is set to, else a pending block marked best or final, else the old head. */
  lemma CommitEnds(s: Node, op: Operation)
    requires NodeOk(s) && Proper(s, op) && TryCommit(s, op).Ok?
    ensures var s' := TryCommit(s, op).value; var p := op.pending;
      && (p.Some? ==> (s'.finalized == p.value.hash <==> p.value.leaf == Final && p.value.commitState))
      && (!(p.Some? && p.value.leaf == Final && p.value.commitState) ==>
            && (op.finalize == [] ==> s'.finalized == s.finalized)
            && (op.finalize != [] ==> Resolve(s, op.finalize[|op.finalize| - 1]) == Ok(s'.finalized)))
      && (op.setHead.Some? ==> Resolve(s, op.setHead.value) == Ok(s'.best))
      && (op.setHead.None? && p.Some? && (p.value.leaf == Best || p.value.leaf == Final) ==> s'.best == p.value.hash)
      && (op.setHead.None? && !(p.Some? && (p.value.leaf == Best || p.value.leaf == Final)) ==> s'.best == s.best)
      && s'.tree == (if p.Some? then s.tree[p.value.hash := p.value.header] else s.tree)
  {
    hide TryCommit, FinalizedAll, RouteOf;
    CommitKeepsNode(s, op);
    CommitFields(s, op);
    FinalizesSequentially(s, op.finalize);
    FinalizedAllTree(s, op.finalize);
    LastListed(s, op.finalize);
  }

  lemma LastListed(s: Node, ids: seq<BlockId>)
    requires FinalizedAll(s, ids).Ok?
    ensures ids == [] ==> FinalizedAll(s, ids).value.last == s.finalized
    ensures ids != [] ==> Resolve(s, ids[|ids| - 1]) == Ok(FinalizedAll(s, ids).value.last)
  {
  }

  /** A successful operation never moves the head off the block that was finalized before it began. */
  lemma FinalizedIsNotRetracted(s: Node, op: Operation)
    requires NodeOk(s) && Proper(s, op) && TryCommit(s, op).Ok? && OnChain(s.tree, s.genesis, s.finalized, s.best)
    ensures var s' := TryCommit(s, op).value;
      Rooted(s'.tree, s'.genesis) && OnChain(s'.tree, s'.genesis, s.finalized, s'.best)
  {
    hide RouteOf, TryCommit;
    CommitKeepsNode(s, op);
    CommitFields(s, op);
    var s' := TryCommit(s, op).value;
    var t, t', g := s.tree, s'.tree, s.genesis;
    if op.setHead.Some? {
      var h := s'.best;
      RouteSplitsChains(t, g, s.best, h, s.finalized);
      OnChainExtends(t, t', g, s.finalized, h);
    } else if op.pending.Some? && op.pending.value.leaf.IsBest() {
      var p := op.pending.value.header.parent;
      RouteSplitsChains(t, g, s.best, p, s.finalized);
      OnChainExtends(t, t', g, s.finalized, p);
      OnChainParent(t', g, s.finalized, s'.best);
    } else {
      OnChainExtends(t, t', g, s.finalized, s.best);
    }
  }

  /** Every listed block is known and is a child of the one before it, the first one of the finalized block. */
  ghost predicate Sequential(s: Node, ids: seq<BlockId>) {
    forall i | 0 <= i < |ids| ::
      && Resolve(s, ids[i]).Ok?
      && s.tree[Resolve(s, ids[i]).value].parent == LastOf(s, ids[..i])
  }

  /** The last of the listed blocks, or the finalized block when there is none. */
  function LastOf(s: Node, ids: seq<BlockId>): Hash {
    if ids == [] || Resolve(s, ids[|ids| - 1]).Err? then s.finalized else Resolve(s, ids[|ids| - 1]).value
  }

  lemma {:induction false} FinalizesSequentially(s: Node, ids: seq<BlockId>)
    ensures FinalizedAll(s, ids).Ok? <==> Sequential(s, ids)
    ensures FinalizedAll(s, ids).Ok? ==> FinalizedAll(s, ids).value.last == LastOf(s, ids)
    decreases |ids|
  {
    if ids != [] {
      var n := |ids| - 1;
      FinalizesSequentially(s, ids[..n]);
      assert forall i | 0 <= i < n :: ids[..n][i] == ids[i] && ids[..n][..i] == ids[..i];
    }
  }

  /** The head can move to exactly the descendants of the finalized block. */
  lemma HeadMoves(s: Node, index: map<nat, Hash>, to: Hash, number: nat, best: Hash)
    requires NodeOk(s) && OnChain(s.tree, s.genesis, s.finalized, s.best) && number <= U32_MAX
    ensures MovedHead(s, index, to, number, best).Ok? <==> to in s.tree && OnChain(s.tree, s.genesis, s.finalized, to)
  {
    if to in s.tree { RouteSplitsChains(s.tree, s.genesis, s.best, to, s.finalized); }
  }

  /** Why a head move is refused: an unknown target, a target off the finalized block's chain, a number beyond 32
      bits. */
  lemma HeadRefusal(s: Node, index: map<nat, Hash>, to: Hash, number: nat, best: Hash)
    requires NodeOk(s) && OnChain(s.tree, s.genesis, s.finalized, s.best)
    ensures var r := MovedHead(s, index, to, number, best);
      && (r == Err(UnknownBlock) <==> to !in s.tree)
      && (r == Err(NotInFinalizedChain) <==> to in s.tree && !OnChain(s.tree, s.genesis, s.finalized, to))
      && (r == Err(NumberTooLarge) <==>
            to in s.tree && OnChain(s.tree, s.genesis, s.finalized, to) && number >= 0x1_0000_0000)
  {
    if to in s.tree { RouteSplitsChains(s.tree, s.genesis, s.best, to, s.finalized); }
  }

  /** Why finalization is refused: the first listed block that is unknown or no child of the one before it decides. */
  lemma {:induction false} FinalizeRefusal(s: Node, ids: seq<BlockId>, i: nat)
    requires i < |ids| && Sequential(s, ids[..i]) && !Sequential(s, ids[..i + 1])
    ensures FinalizedAll(s, ids) ==
      if Resolve(s, ids[i]).Err? then Err(Resolve(s, ids[i]).error) else Err(NonSequentialFinalization)
    decreases |ids|
  {
    var n := |ids| - 1;
    if i == n {
      assert ids[..n + 1] == ids;
      FinalizesSequentially(s, ids[..n]);
      FinalizesSequentially(s, ids);
    } else {
      assert ids[..n][..i] == ids[..i] && ids[..n][..i + 1] == ids[..i + 1] && ids[..n][i] == ids[i];
      FinalizeRefusal(s, ids[..n], i);
    }
  }

  /** A hash resolves to itself exactly when its block is known. */
  lemma ResolveByHash(s: Node, h: Hash)
    ensures Resolve(s, ByHash(h)) == if h in s.tree then Ok(h) else Err(UnknownBlock)
  {
  }

  /** An operation succeeds exactly when it finalizes children one after the other and moves the head only to
      descendants of the block that was finalized before it began. */
  lemma CommitSucceeds(s: Node, op: Operation)
    requires NodeOk(s) && Proper(s, op) && OnChain(s.tree, s.genesis, s.finalized, s.best)
    ensures TryCommit(s, op).Ok? <==>
      && Sequential(s, op.finalize)
      && (op.pending.Some? ==>
            var p := op.pending.value;
            && p.header.number <= U32_MAX
            && (p.leaf.IsBest() ==> OnChain(s.tree, s.genesis, s.finalized, p.header.parent))
            && (p.Finalizes() ==> p.header.parent == LastOf(s, op.finalize)))
      && (op.setHead.Some? ==>
            && Resolve(s, op.setHead.value).Ok?
            && OnChain(s.tree, s.genesis, s.finalized, Resolve(s, op.setHead.value).value))
  {
    hide MovedHead, FinalizedAll, Sequential, LastOf, OnChain;
    FinalizesSequentially(s, op.finalize);
    if op.pending.Some? && op.pending.value.header.number <= U32_MAX {
      var p := op.pending.value;
      HeadMoves(s, s.index, p.header.parent, p.header.number, p.hash);
    }
    forall index | op.setHead.Some? && Resolve(s, op.setHead.value).Ok?
      ensures var h := Resolve(s, op.setHead.value).value;
        MovedHead(s, index, h, s.tree[h].number, h).Ok? <==> OnChain(s.tree, s.genesis, s.finalized, h)
    {
      var h := Resolve(s, op.setHead.value).value;
      HeadMoves(s, index, h, s.tree[h].number, h);
    }
  }

  /** The known block that the operation's head is, or is a new child of. */
  function HeadTarget(s: Node, op: Operation): Hash {
    if op.setHead.Some? && Resolve(s, op.setHead.value).Ok? then Resolve(s, op.setHead.value).value
    else if op.pending.Some? && op.pending.value.leaf.IsBest() then op.pending.value.header.parent
    else s.best
  }

  /** The operation imports a final block, or the last block it finalizes is an ancestor of where its head goes. */
  ghost predicate FinalizesOwnChain(s: Node, op: Operation)
    requires NodeOk(s)
  {
    || (op.pending.Some? && op.pending.value.Finalizes())
    || OnChain(s.tree, s.genesis, LastOf(s, op.finalize), HeadTarget(s, op))
  }

  /** The finalized block is on the best chain after an operation exactly when the operation finalizes its own chain,
      which can be told before it is committed. */
  lemma FinalityOnHead(s: Node, op: Operation)
    requires NodeOk(s) && Proper(s, op) && TryCommit(s, op).Ok?
    ensures var s' := TryCommit(s, op).value;
      && Rooted(s'.tree, s'.genesis)
      && (OnChain(s'.tree, s'.genesis, s'.finalized, s'.best) <==> FinalizesOwnChain(s, op))
  {
    hide RouteOf, TryCommit, FinalizedAll, LastOf;
    CommitKeepsNode(s, op);
    CommitFields(s, op);
    FinalizesSequentially(s, op.finalize);
    FinalizedAllTree(s, op.finalize);
    var s', last := TryCommit(s, op).value, LastOf(s, op.finalize);
    OnChainExtends(s.tree, s'.tree, s.genesis, last, HeadTarget(s, op));
    if op.pending.Some? && op.pending.value.leaf.IsBest() {
      OnChainParent(s'.tree, s.genesis, last, op.pending.value.hash);
    }
  }

  /** Nothing in the commit prevents an operation from finalizing a block beside its best chain. */
  lemma SideBlockCanBeFinalized()
    ensures exists s: Node, op: Operation ::
      && NodeOk(s) && Proper(s, op) && OnChain(s.tree, s.genesis, s.finalized, s.best)
      && TryCommit(s, op).Ok?
      && (CommitKeepsNode(s, op); var s' := TryCommit(s, op).value;
        !OnChain(s'.tree, s'.genesis, s'.finalized, s'.best))
  {
    var t: Tree := map[1 := Header(0, 0, None), 2 := Header(1, 1, None), 3 := Header(1, 1, None)];
    var s := Node(t, 1, map[0 := 1, 1 := 2], map[], 2, 1, None);
    assert LinkedToParent(t, 2) && LinkedToParent(t, 3);
    assert Ancestor(t, 1, 2, 0) == 1 && Ancestor(t, 1, 2, 1) == 2;
    assert NodeOk(s);
    var op := Operation([ByHash(3)], None, None);
    assert op.finalize[..0] == [];
    assert FinalizedAll(s, op.finalize) == Ok(Progress(3, map[]));
    CommitKeepsNode(s, op);
    var s' := TryCommit(s, op).value;
    assert !OnChain(s'.tree, s'.genesis, s'.finalized, s'.best);
  }

  // ------------------------------------------------------------ bodies

  /** The bodies of at least one finalized block are kept. */
  function KeepCount(k: nat): (n: nat)
    ensures n >= k && n >= 1 && (n == k || n == 1)
  {
    if k > 1 then k else 1
  }

  /** The bodies that are given up once `last` is finalized: those at least `KeepCount` blocks below it. */
  ghost predicate GivenUp(t: Tree, g: Hash, keep: Option<nat>, last: Hash, h: Hash)
    requires Rooted(t, g)
  {
    keep.Some? && OnChain(t, g, h, last) && t[h].number + KeepCount(keep.value) <= t[last].number
  }

  /** The body of `h`, if ever given, is stored unchanged until it is given up. */
  ghost predicate BodyExact(t: Tree, g: Hash, keep: Option<nat>, last: Hash, given: map<Hash, Body>,
                            bodies: map<Hash, Body>, h: Hash)
    requires Rooted(t, g)
  {
    && (h in bodies ==> h in given && bodies[h] == given[h] && !GivenUp(t, g, keep, last, h))
    && (h in given && h !in bodies ==> GivenUp(t, g, keep, last, h))
  }

  /** `bodies` holds, of all the bodies ever given, exactly those not given up, unchanged. */
  ghost predicate BodiesExact(t: Tree, g: Hash, keep: Option<nat>, last: Hash, given: map<Hash, Body>,
                              bodies: map<Hash, Body>)
    requires Rooted(t, g)
  {
    forall h: Hash :: BodyExact(t, g, keep, last, given, bodies, h)
  }

  /** The heights of the bodies that leave the window while finality rises from `low` to `high`. */
  predicate LeavesWindow(keep: Option<nat>, low: nat, high: nat, n: nat) {
    keep.Some? && low < n + KeepCount(keep.value) <= high
  }

  /** What pruning takes away meanwhile: the blocks of the best chain committed before the operation. */
  ghost predicate PrunedAway(s: Node, low: nat, high: nat, h: Hash)
    requires NodeOk(s)
  {
    OnChain(s.tree, s.genesis, h, s.best) && LeavesWindow(s.keep, low, high, s.tree[h].number)
  }

  /** One call of `prune_blocks` takes away the best chain's body at one height. */
  lemma PrunedOnce(s: Node, bodies: map<Hash, Body>, f: nat, h: Hash)
    requires NodeOk(s) && f > 0 && (h in bodies && h in s.tree ==> h in s.bodies)
    ensures var after := PrunedBodies(s, bodies, f);
      && (h in after <==> h in bodies && !PrunedAway(s, f - 1, f, h))
      && (h in after ==> after[h] == bodies[h])
  {
    if s.keep.Some? && KeepCount(s.keep.value) <= f && f - KeepCount(s.keep.value) in s.index {
      AncestorOnChain(s.tree, s.genesis, s.best, f - KeepCount(s.keep.value));
    }
  }

  /** Finalizing listed blocks takes away exactly the best chain's bodies that leave the window. */
  lemma {:induction false} FinalizedAllBodies(s: Node, ids: seq<BlockId>, h: Hash)
    requires NodeOk(s) && FinalizedAll(s, ids).Ok?
    ensures var p := FinalizedAll(s, ids).value;
      && p.last in s.tree && s.tree[s.finalized].number <= s.tree[p.last].number
      && (h in p.bodies <==> h in s.bodies && !PrunedAway(s, s.tree[s.finalized].number, s.tree[p.last].number, h))
      && (h in p.bodies ==> p.bodies[h] == s.bodies[h])
    decreases |ids|
  {
    FinalizedAllTree(s, ids);
    if ids != [] {
      hide PrunedBodies, OnChain;
      var n := |ids| - 1;
      var f := Resolve(s, ids[n]).value;
      FinalizedAllBodies(s, ids[..n], h);
      var p := FinalizedAll(s, ids[..n]).value;
      assert LinkedToParent(s.tree, f);
      PrunedOnce(s, p.bodies, s.tree[f].number, h);
    }
  }

  /** The bodies given up to and including an operation. */
  function GivenAfter(given: map<Hash, Body>, op: Operation): map<Hash, Body> {
    if op.pending.Some? && op.pending.value.body.Some?
    then given[op.pending.value.hash := op.pending.value.body.value] else given
  }

  /** The bodies that a successful operation leaves, before and after the pending block's own finalization. */
  lemma CommitBodies(s: Node, op: Operation)
    requires NodeOk(s) && Proper(s, op) && TryCommit(s, op).Ok?
    ensures var s' := TryCommit(s, op).value; var p := FinalizedAll(s, op.finalize).value;
      var with := GivenAfter(p.bodies, op);
      s'.bodies == if op.pending.Some? && op.pending.value.Finalizes()
                   then PrunedBodies(s, with, op.pending.value.header.number) else with
  {
    hide RouteOf;
  }

  /** The height of the finalized block after the operation. */
  function FinalHeight(s: Node, op: Operation): nat
    requires NodeOk(s) && LastOf(s, op.finalize) in s.tree
  {
    s.tree[LastOf(s, op.finalize)].number + if op.pending.Some? && op.pending.value.Finalizes() then 1 else 0
  }

  /** A successful operation stores the bodies there were and the one it brings, except for those of the old best
      chain that leave the window. */
  lemma CommitPrunes(s: Node, op: Operation, h: Hash)
    requires NodeOk(s) && Proper(s, op) && TryCommit(s, op).Ok? && s.bodies.Keys <= s.tree.Keys
    ensures LastOf(s, op.finalize) in s.tree
    ensures var bodies, with := TryCommit(s, op).value.bodies, GivenAfter(s.bodies, op);
      && (h in bodies <==> h in with && !PrunedAway(s, s.tree[s.finalized].number, FinalHeight(s, op), h))
      && (h in bodies ==> bodies[h] == with[h])
  {
    hide TryCommit, PrunedBodies, FinalizedAll, LastOf, OnChain;
    CommitKeepsNode(s, op);
    CommitFields(s, op);
    CommitBodies(s, op);
    FinalizesSequentially(s, op.finalize);
    FinalizedAllBodies(s, op.finalize, h);
    var p := FinalizedAll(s, op.finalize).value;
    if op.pending.Some? {
      NewIsOffChain(s, op.pending.value.hash);
      if op.pending.value.Finalizes() { PrunedOnce(s, GivenAfter(p.bodies, op), op.pending.value.header.number, h); }
    }
  }

  lemma NewIsOffChain(s: Node, h: Hash)
    requires NodeOk(s) && h !in s.tree
    ensures !OnChain(s.tree, s.genesis, h, s.best)
  {
  }

  /** What is given up by the operation's end and was not before: the blocks of the finalized chain that leave the
      window. */
  lemma NewlyGivenUp(s: Node, op: Operation, h: Hash)
    requires NodeOk(s) && Proper(s, op) && TryCommit(s, op).Ok?
    ensures LastOf(s, op.finalize) in s.tree
    ensures var s' := TryCommit(s, op).value;
      && Rooted(s'.tree, s'.genesis)
      && (GivenUp(s'.tree, s'.genesis, s'.keep, s'.finalized, h) <==>
            || GivenUp(s.tree, s.genesis, s.keep, s.finalized, h)
            || (OnChain(s.tree, s.genesis, h, LastOf(s, op.finalize))
                && LeavesWindow(s.keep, s.tree[s.finalized].number, FinalHeight(s, op), s.tree[h].number)))
  {
    hide RouteOf, TryCommit, FinalizedAll, LastOf, Ancestor;
    CommitKeepsNode(s, op);
    CommitFields(s, op);
    FinalizesSequentially(s, op.finalize);
    FinalizedAllTree(s, op.finalize);
    FinalizingIsPath(s, op.finalize);
    var s', last := TryCommit(s, op).value, LastOf(s, op.finalize);
    OnChainExtends(s.tree, s'.tree, s.genesis, h, last);
    if op.pending.Some? { OnChainParent(s'.tree, s.genesis, h, op.pending.value.hash); }
    BelowFinalized(s, last, h);
  }

  /** Below the finalized block, its chain and the chain of a descendant are one. */
  lemma BelowFinalized(s: Node, last: Hash, h: Hash)
    requires NodeOk(s) && OnChain(s.tree, s.genesis, s.finalized, last)
    ensures h in s.tree && s.tree[h].number <= s.tree[s.finalized].number ==>
      (OnChain(s.tree, s.genesis, h, last) <==> OnChain(s.tree, s.genesis, h, s.finalized))
  {
    if h in s.tree && s.tree[h].number <= s.tree[s.finalized].number {
      AncestorOfAncestor(s.tree, s.genesis, last, s.tree[s.finalized].number, s.tree[h].number);
    }
  }

  /** A body that leaves the window is on the old best chain, where pruning looks for it, exactly when it is on the
      finalized chain. */
  ghost predicate PrunedRightly(s: Node, op: Operation, h: Hash)
    requires NodeOk(s) && LastOf(s, op.finalize) in s.tree
  {
    && h in s.bodies && h in s.tree
    && LeavesWindow(s.keep, s.tree[s.finalized].number, FinalHeight(s, op), s.tree[h].number) ==>
      (OnChain(s.tree, s.genesis, h, s.best) <==> OnChain(s.tree, s.genesis, h, LastOf(s, op.finalize)))
  }

  ghost predicate PrunesOwnChain(s: Node, op: Operation)
    requires NodeOk(s) && LastOf(s, op.finalize) in s.tree
  {
    forall h: Hash :: PrunedRightly(s, op, h)
  }

  lemma BodyStaysExact(s: Node, op: Operation, given: map<Hash, Body>, h: Hash)
    requires NodeOk(s) && Proper(s, op) && TryCommit(s, op).Ok?
    requires BodiesExact(s.tree, s.genesis, s.keep, s.finalized, given, s.bodies) && given.Keys <= s.tree.Keys
    ensures LastOf(s, op.finalize) in s.tree
    ensures var s' := TryCommit(s, op).value;
      && Rooted(s'.tree, s'.genesis)
      && (BodyExact(s'.tree, s'.genesis, s'.keep, s'.finalized, GivenAfter(given, op), s'.bodies, h)
          <==> PrunedRightly(s, op, h))
  {
    hide TryCommit, LastOf, FinalHeight, Ancestor;
    forall x | x in s.bodies ensures x in s.tree {
      assert BodyExact(s.tree, s.genesis, s.keep, s.finalized, given, s.bodies, x);
    }
    CommitKeepsNode(s, op);
    CommitPrunes(s, op, h);
    NewlyGivenUp(s, op, h);
    assert BodyExact(s.tree, s.genesis, s.keep, s.finalized, given, s.bodies, h);
  }

  /** The stored bodies stay exactly those the window promises if and only if the operation prunes its own chain,
      which can be told before it is committed. */
  lemma CommitKeepsBodies(s: Node, op: Operation, given: map<Hash, Body>)
    requires NodeOk(s) && Proper(s, op) && TryCommit(s, op).Ok?
    requires BodiesExact(s.tree, s.genesis, s.keep, s.finalized, given, s.bodies) && given.Keys <= s.tree.Keys
    ensures LastOf(s, op.finalize) in s.tree
    ensures var s' := TryCommit(s, op).value;
      && Rooted(s'.tree, s'.genesis)
      && GivenAfter(given, op).Keys <= s'.tree.Keys
      && (BodiesExact(s'.tree, s'.genesis, s'.keep, s'.finalized, GivenAfter(given, op), s'.bodies)
          <==> PrunesOwnChain(s, op))
  {
    hide TryCommit, LastOf, BodyExact, PrunedRightly;
    CommitKeepsNode(s, op);
    CommitFields(s, op);
    BodyStaysExact(s, op, given, s.genesis);
    var s' := TryCommit(s, op).value;
    forall h: Hash ensures
      BodyExact(s'.tree, s'.genesis, s'.keep, s'.finalized, GivenAfter(given, op), s'.bodies, h) <==>
        PrunedRightly(s, op, h)
    {
      BodyStaysExact(s, op, given, h);
    }
  }

  /** Finalizing blocks of the old best chain, and then perhaps the operation's own new block, prunes rightly. */
  lemma BestChainPrunesRightly(s: Node, op: Operation)
    requires NodeOk(s) && OnChain(s.tree, s.genesis, LastOf(s, op.finalize), s.best)
    ensures PrunesOwnChain(s, op)
  {
    var last := LastOf(s, op.finalize);
    forall h: Hash ensures PrunedRightly(s, op, h) {
      if h in s.tree && s.tree[h].number <= s.tree[last].number {
        AncestorOfAncestor(s.tree, s.genesis, s.best, s.tree[last].number, s.tree[h].number);
      }
    }
  }

  /** Two branches 1-2-4 and 1-3-5 from genesis, the first one best, one body to be kept. */
  function Fork(): Node {
    var t: Tree := map[1 := Header(0, 0, None), 2 := Header(1, 1, None), 4 := Header(2, 2, None),
                       3 := Header(1, 1, None), 5 := Header(2, 3, None)];
    Node(t, 1, map[0 := 1, 1 := 2, 2 := 4], map[2 := [], 3 := []], 4, 1, Some(1))
  }

  /** Finalizes the second branch and moves the head onto it. */
  function SwitchBranch(): Operation { Operation([ByHash(3), ByHash(5)], None, Some(ByHash(5))) }

  lemma ForkOk()
    ensures NodeOk(Fork()) && Proper(Fork(), SwitchBranch())
    ensures var t := Fork().tree;
      && OnChain(t, 1, 1, 4) && OnChain(t, 1, 2, 4) && !OnChain(t, 1, 3, 4)
      && OnChain(t, 1, 1, 5) && !OnChain(t, 1, 2, 5)
      && OnChain(t, 1, 5, 5) && !OnChain(t, 1, 2, 1) && !OnChain(t, 1, 3, 1)
  {
    var t := Fork().tree;
    assert LinkedToParent(t, 2) && LinkedToParent(t, 3) && LinkedToParent(t, 4) && LinkedToParent(t, 5);
    assert Rooted(t, 1);
    forall n: nat | n <= 2 ensures Ancestor(t, 1, 4, n) == (if n == 0 then 1 else if n == 1 then 2 else 4) {
      assert n <= 1 ==> Ancestor(t, 1, 4, n) == Ancestor(t, 1, 2, n);
    }
    forall n: nat | n <= 2 ensures Ancestor(t, 1, 5, n) == (if n == 0 then 1 else if n == 1 then 3 else 5) {
      assert n <= 1 ==> Ancestor(t, 1, 5, n) == Ancestor(t, 1, 3, n);
    }
  }

  lemma SwitchSucceeds()
    ensures NodeOk(Fork()) && TryCommit(Fork(), SwitchBranch()).Ok? && LastOf(Fork(), SwitchBranch().finalize) == 5
  {
    hide NodeOk, OnChain;
    ForkOk();
    var s, ids := Fork(), SwitchBranch().finalize;
    assert ids[..0] == [] && ids[..1] == [ByHash(3)];
    assert Sequential(s, ids);
    FinalizedOnBest();
    CommitSucceeds(s, SwitchBranch());
  }

  lemma FinalizedOnBest()
    ensures NodeOk(Fork()) && OnChain(Fork().tree, Fork().genesis, Fork().finalized, Fork().best)
  {
    ForkOk();
  }

  /** A branch finalized together with the head move onto it: pruning takes the body of the retracted block 2 and
      leaves the body of the finalized block 3, though only one body is to be kept. */
  lemma WrongBranchCanBePruned()
    ensures var s, op := Fork(), SwitchBranch();
      && NodeOk(s) && Proper(s, op) && TryCommit(s, op).Ok? && LastOf(s, op.finalize) in s.tree
      && BodiesExact(s.tree, s.genesis, s.keep, s.finalized, s.bodies, s.bodies)
      && FinalizesOwnChain(s, op) && !PrunesOwnChain(s, op)
      && 2 in s.bodies && 3 in s.bodies
      && var s' := TryCommit(s, op).value;
         s'.best == 5 && s'.finalized == 5 && 2 !in s'.bodies && 3 in s'.bodies
  {
    hide NodeOk, OnChain, TryCommit;
    var s, op := Fork(), SwitchBranch();
    ForkOk();
    SwitchSucceeds();
    CommitFields(s, op);
    CommitPrunes(s, op, 2);
    CommitPrunes(s, op, 3);
    assert !PrunedRightly(s, op, 2);
  }

  // ------------------------------------------------------------ runs

  /** What is asked of the caller: a new block is a new child, and what succeeds finalizes its own chain. */
  ghost predicate Sound(s: Node, op: Operation)
    requires NodeOk(s)
  {
    Proper(s, op) && (TryCommit(s, op).Ok? ==> FinalizesOwnChain(s, op))
  }

  /** A node with genesis alone. */
  ghost predicate Initial(s: Node, given: map<Hash, Body>) {
    && s.tree.Keys == {s.genesis} && s.tree[s.genesis].number == 0 && s.tree[s.genesis].parent == DEFAULT_HASH
    && s.genesis != DEFAULT_HASH && s.best == s.genesis && s.finalized == s.genesis
    && s.index == map[0 := s.genesis] && s.bodies == given && given.Keys <= {s.genesis}
  }

  ghost function After(s: Node, op: Operation): Node
    requires NodeOk(s)
  {
    if TryCommit(s, op).Ok? then TryCommit(s, op).value else s
  }

  /** A run of operations, failed ones included, with the bodies given and the blocks finalized so far. */
  datatype Moment = Moment(node: Node, given: map<Hash, Body>, finalized: seq<Hash>)

  ghost predicate IsRun(ms: seq<Moment>, ops: seq<Operation>) {
    && |ms| == |ops| + 1 && Initial(ms[0].node, ms[0].given) && ms[0].finalized == []
    && forall i | 0 <= i < |ops| :: IsStep(ms[i], ops[i], ms[i + 1])
  }

  ghost predicate IsStep(m: Moment, op: Operation, m': Moment) {
    && NodeOk(m.node) && Sound(m.node, op)
    && m'.node == After(m.node, op)
    && (if TryCommit(m.node, op).Ok?
        then m'.given == GivenAfter(m.given, op) && m'.finalized == m.finalized + Newly(m.node, op)
        else m'.given == m.given && m'.finalized == m.finalized)
  }

  /** Everything finalized so far is the path from genesis to the finalized block, which is on the best chain. */
  ghost predicate MomentOk(m: Moment) {
    var s := m.node;
    && NodeOk(s) && OnChain(s.tree, s.genesis, s.finalized, s.best)
    && OnChain(s.tree, s.genesis, s.genesis, s.finalized)
    && m.finalized == Up(s.tree, s.genesis, s.genesis, s.finalized)
  }

  lemma InitialOk(m: Moment)
    requires Initial(m.node, m.given) && m.finalized == []
    ensures MomentOk(m)
  {
  }

  lemma StepKeeps(m: Moment, op: Operation, m': Moment)
    requires MomentOk(m) && IsStep(m, op, m')
    ensures MomentOk(m')
  {
    if TryCommit(m.node, op).Ok? {
      hide TryCommit, FinalizesOwnChain;
      CommitKeepsNode(m.node, op);
      FinalityOnHead(m.node, op);
      NewlyIsPath(m.node, op);
      var g, t, t' := m.node.genesis, m.node.tree, m'.node.tree;
      UpExtends(t, t', g, g, m.node.finalized);
      UpJoins(t', g, g, m.node.finalized, m'.node.finalized);
    }
  }

  lemma {:induction false} UpJoins(t: Tree, g: Hash, a: Hash, b: Hash, c: Hash)
    requires Rooted(t, g) && OnChain(t, g, a, b) && OnChain(t, g, b, c)
    ensures OnChain(t, g, a, c) && Up(t, g, a, c) == Up(t, g, a, b) + Up(t, g, b, c)
    decreases t[c].number
  {
    OnChainTransitive(t, g, a, b, c);
    if b != c {
      assert LinkedToParent(t, c);
      UpJoins(t, g, a, b, t[c].parent);
    }
  }

  lemma {:induction false} RunInvariant(ms: seq<Moment>, ops: seq<Operation>, i: nat)
    requires IsRun(ms, ops) && i < |ms|
    ensures MomentOk(ms[i])
  {
    hide MomentOk, IsStep;
    if i == 0 {
      InitialOk(ms[0]);
    } else {
      RunInvariant(ms, ops, i - 1);
      StepKeeps(ms[i - 1], ops[i - 1], ms[i]);
    }
  }

  /** Over a whole run, everything ever finalized is one parent-linked path up from genesis, and all of it is still
      on the best chain. */
  lemma FinalityNeverReverts(ms: seq<Moment>, ops: seq<Operation>, i: nat, b: Hash)
    requires IsRun(ms, ops) && i < |ms| && b in ms[i].finalized
    ensures var s := ms[i].node;
      && NodeOk(s) && OnChain(s.tree, s.genesis, s.genesis, s.finalized)
      && ms[i].finalized == Up(s.tree, s.genesis, s.genesis, s.finalized)
      && OnChain(s.tree, s.genesis, b, s.best)
      && s.index[s.tree[b].number] == b
  {
    RunInvariant(ms, ops, i);
    var s := ms[i].node;
    BranchMembers(s.tree, s.genesis, s.genesis, s.finalized, b);
    OnChainTransitive(s.tree, s.genesis, b, s.finalized, s.best);
  }

  /** Every operation that succeeds prunes its own chain. */
  ghost predicate PrunesRightly(ms: seq<Moment>, ops: seq<Operation>)
    requires IsRun(ms, ops)
  {
    forall i | 0 <= i < |ops| :: StepPrunes(ms[i].node, ops[i])
  }

  ghost predicate StepPrunes(s: Node, op: Operation) {
    NodeOk(s) && (TryCommit(s, op).Ok? ==> LastOf(s, op.finalize) in s.tree && PrunesOwnChain(s, op))
  }

  ghost predicate BodiesOk(m: Moment) {
    var s := m.node;
    && NodeOk(s) && m.given.Keys <= s.tree.Keys
    && BodiesExact(s.tree, s.genesis, s.keep, s.finalized, m.given, s.bodies)
  }

  lemma StepKeepsBodies(m: Moment, op: Operation, m': Moment)
    requires BodiesOk(m) && IsStep(m, op, m')
    ensures BodiesOk(m') <==> StepPrunes(m.node, op)
  {
    if TryCommit(m.node, op).Ok? {
      hide TryCommit, BodiesExact, PrunesOwnChain, FinalizesOwnChain;
      CommitKeepsNode(m.node, op);
      CommitKeepsBodies(m.node, op, m.given);
    }
  }

  lemma {:induction false} RunKeepsBodies(ms: seq<Moment>, ops: seq<Operation>, i: nat)
    requires IsRun(ms, ops) && PrunesRightly(ms, ops) && i < |ms|
    ensures BodiesOk(ms[i])
  {
    hide IsStep, StepPrunes;
    if i > 0 {
      RunKeepsBodies(ms, ops, i - 1);
      StepKeepsBodies(ms[i - 1], ops[i - 1], ms[i]);
    }
  }

  /** The bodies are exact throughout a run if and only if every operation of it prunes its own chain. */
  lemma BodiesExactlyWhen(ms: seq<Moment>, ops: seq<Operation>)
    requires IsRun(ms, ops)
    ensures PrunesRightly(ms, ops) <==> forall i | 0 <= i < |ms| :: BodiesOk(ms[i])
  {
    hide IsStep, StepPrunes, BodiesOk;
    if PrunesRightly(ms, ops) {
      forall i | 0 <= i < |ms| ensures BodiesOk(ms[i]) { RunKeepsBodies(ms, ops, i); }
    }
    if forall i | 0 <= i < |ms| :: BodiesOk(ms[i]) {
      forall i | 0 <= i < |ops| ensures StepPrunes(ms[i].node, ops[i]) {
        assert BodiesOk(ms[i]) && BodiesOk(ms[i + 1]);
        StepKeepsBodies(ms[i], ops[i], ms[i + 1]);
      }
    }
  }

  /** Over a whole run whose operations prune their own chains, the canonical bodies at least `KeepCount` below the
      finalized block are gone and every other canonical body that was given is still there. */
  lemma BodiesOverRuns(ms: seq<Moment>, ops: seq<Operation>, i: nat, n: nat)
    requires IsRun(ms, ops) && PrunesRightly(ms, ops) && i < |ms|
    ensures var s := ms[i].node;
      && NodeOk(s)
      && (n in s.index && s.keep.Some? ==>
            (s.index[n] in s.bodies <==>
              s.index[n] in ms[i].given && n + KeepCount(s.keep.value) > s.tree[s.finalized].number))
      && (s.keep.None? ==> s.bodies == ms[i].given)
  {
    hide IsStep, PrunesRightly;
    RunInvariant(ms, ops, i);
    RunKeepsBodies(ms, ops, i);
    var m, s := ms[i], ms[i].node;
    if s.keep.None? {
      forall h: Hash ensures h in s.bodies <==> h in m.given
        ensures h in s.bodies ==> s.bodies[h] == m.given[h]
      {
        assert BodyExact(s.tree, s.genesis, s.keep, s.finalized, m.given, s.bodies, h);
      }
    } else if n in s.index {
      assert BodyExact(s.tree, s.genesis, s.keep, s.finalized, m.given, s.bodies, s.index[n]);
      AncestorOnChain(s.tree, s.genesis, s.best, n);
      if n <= s.tree[s.finalized].number { OnChainLinear(s.tree, s.genesis, s.index[n], s.finalized, s.best); }
    }
  }
}
