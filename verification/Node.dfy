/** What a full node remembers about its chain, and what one committed operation does to it: the
    tree of headers, the number index, the stored bodies, the best and the finalized block.
  */
module NodeState {
  import opened ChainTree
  import opened Keys

  type Body = seq<nat>

  datatype Result<+T> = Ok(value: T) | Err(error: Error)

  datatype Error =
    | UnknownBlock
    | NotInFinalizedChain
    | NonSequentialFinalization
    | NumberTooLarge
    | MissingHashForCht
    | MissingCht
    | AboveAnchor
    | MissingConfiguration
    | MissingEntry

  datatype BlockId = ByHash(hash: Hash) | ByNumber(number: nat)

  datatype LeafState = Normal | Best | Final {
    predicate IsBest() { this != Normal }
    predicate IsFinal() { this == Final }
  }

  /** A block to be imported. `commitState` says that its state comes with it. */
  datatype Pending = Pending(hash: Hash, header: Header, body: Option<Body>, leaf: LeafState, commitState: bool) {
    /** Whether importing the block finalizes it. */
    predicate Finalizes() { commitState && (header.number == 0 || leaf.IsFinal()) }
  }

  datatype Operation = Operation(finalize: seq<BlockId>, pending: Option<Pending>, setHead: Option<BlockId>)

  /** `keep` is the number of finalized bodies to keep; `None` keeps all of them. */
  datatype Node = Node(tree: Tree, genesis: Hash, index: map<nat, Hash>, bodies: map<Hash, Body>,
                       best: Hash, finalized: Hash, keep: Option<nat>)

  // ------------------------------------------------------------ one operation

  function Resolve(s: Node, id: BlockId): (r: Result<Hash>)
    ensures r.Ok? ==> r.value in s.tree
  {
    match id
    case ByHash(h) => if h in s.tree then Ok(h) else Err(UnknownBlock)
    case ByNumber(n) =>
      if n > U32_MAX then Err(NumberTooLarge)
      else if n in s.index && s.index[n] in s.tree then Ok(s.index[n])
      else Err(UnknownBlock)
  }

  /** The index without the numbers of the given blocks. */
  function Unindexed(t: Tree, index: map<nat, Hash>, hs: seq<Hash>): map<nat, Hash>
    requires forall h | h in hs :: h in t
  {
    if hs == [] then index
    else var n := |hs| - 1; Unindexed(t, index, hs[..n]) - {t[hs[n]].number}
  }

  /** The index with the given blocks written at their numbers. */
  function Indexed(t: Tree, index: map<nat, Hash>, hs: seq<Hash>): map<nat, Hash>
    requires forall h | h in hs :: h in t
  {
    if hs == [] then index
    else var n := |hs| - 1; Indexed(t, index, hs[..n])[t[hs[n]].number := hs[n]]
  }

  lemma RouteKnown(t: Tree, g: Hash, from: Hash, to: Hash)
    requires Rooted(t, g) && from in t && to in t
    ensures var r := RouteOf(t, g, from, to);
      (forall h | h in r.retracted :: h in t) && (forall h | h in r.enacted :: h in t)
  {
    var r := RouteOf(t, g, from, to);
    forall h | h in r.retracted ensures h in t { RouteSplitsChains(t, g, from, to, h); }
    forall h | h in r.enacted ensures h in t { RouteSplitsChains(t, g, from, to, h); }
  }

  /** Moves the head to `best`, which is `routeTo` or a new child of it. Refuses to retract the finalized block. */
  ghost function MovedHead(s: Node, index: map<nat, Hash>, routeTo: Hash, number: nat,
                           best: Hash): Result<map<nat, Hash>>
    requires Rooted(s.tree, s.genesis) && s.best in s.tree
  {
    if routeTo !in s.tree then Err(UnknownBlock)
    else
      var r := RouteOf(s.tree, s.genesis, s.best, routeTo);
      if s.finalized in r.retracted then Err(NotInFinalizedChain)
      else if number > U32_MAX then Err(NumberTooLarge)
      else
        RouteKnown(s.tree, s.genesis, s.best, routeTo);
        Ok(Indexed(s.tree, Unindexed(s.tree, index, r.retracted), r.enacted)[number := best])
  }

  /** The bodies after finalizing height `f`; the index is the one committed before the operation. */
  function PrunedBodies(s: Node, bodies: map<Hash, Body>, f: nat): map<Hash, Body> {
    match s.keep
    case None => bodies
    case Some(k) =>
      var keep := if k > 1 then k else 1;
      if f < keep then bodies
      else if f - keep in s.index && s.index[f - keep] in s.bodies then bodies - {s.index[f - keep]}
      else bodies
  }

  /** The last finalized block and the bodies, while an operation is under way. */
  datatype Progress = Progress(last: Hash, bodies: map<Hash, Body>)

  /** Finalizes the listed blocks in order; each must be a child of the one before. */
  function FinalizedAll(s: Node, ids: seq<BlockId>): Result<Progress> {
    if ids == [] then Ok(Progress(s.finalized, s.bodies))
    else
      var n := |ids| - 1;
      match FinalizedAll(s, ids[..n])
      case Err(e) => Err(e)
      case Ok(p) =>
        match Resolve(s, ids[n])
        case Err(e) => Err(e)
        case Ok(h) =>
          if s.tree[h].parent != p.last then Err(NonSequentialFinalization)
          else Ok(Progress(h, PrunedBodies(s, p.bodies, s.tree[h].number)))
  }

  /** Imports the pending block on top of what was finalized so far. */
  ghost function Imported(s: Node, p: Pending, done: Progress): Result<Node>
    requires Rooted(s.tree, s.genesis) && s.best in s.tree
  {
    if p.header.number > U32_MAX then Err(NumberTooLarge)
    else
      var moved := if p.leaf.IsBest() then MovedHead(s, s.index, p.header.parent, p.header.number, p.hash)
        else Ok(s.index);
      match moved
      case Err(e) => Err(e)
      case Ok(index) =>
        var bodies := if p.body.Some? then done.bodies[p.hash := p.body.value] else done.bodies;
        if p.Finalizes() && p.header.parent != done.last then Err(NonSequentialFinalization)
        else Ok(s.(tree := s.tree[p.hash := p.header], index := index,
                   bodies := if p.Finalizes() then PrunedBodies(s, bodies, p.header.number) else bodies,
                   best := if p.leaf.IsBest() then p.hash else s.best,
                   finalized := if p.Finalizes() then p.hash else done.last))
  }

  /** One committed operation: finalize, import, set the head. An error leaves nothing behind. */
  ghost function TryCommit(s: Node, op: Operation): Result<Node>
    requires Rooted(s.tree, s.genesis) && s.best in s.tree
  {
    match FinalizedAll(s, op.finalize)
    case Err(e) => Err(e)
    case Ok(done) =>
      var imported := if op.pending.Some? then Imported(s, op.pending.value, done)
                      else Ok(s.(bodies := done.bodies, finalized := done.last));
      match imported
      case Err(e) => Err(e)
      case Ok(s1) =>
        match op.setHead
        case None => Ok(s1)
        case Some(id) =>
          match Resolve(s, id)
          case Err(e) => Err(e)
          case Ok(h) =>
            match MovedHead(s, s1.index, h, s.tree[h].number, h)
            case Err(e) => Err(e)
            case Ok(index) => Ok(s1.(index := index, best := h))
  }

  // ------------------------------------------------------------ the number index

  /** The index is the path from the best block back to genesis, and nothing else. */
  ghost predicate IndexExact(t: Tree, g: Hash, best: Hash, index: map<nat, Hash>)
    requires Rooted(t, g) && best in t
  {
    && (forall n: nat :: n in index <==> n <= t[best].number)
    && (forall n: nat | n <= t[best].number :: index[n] == Ancestor(t, g, best, n))
  }

  lemma {:induction false} UnindexedAt(t: Tree, index: map<nat, Hash>, hs: seq<Hash>, n: nat)
    requires forall h | h in hs :: h in t
    ensures n in Unindexed(t, index, hs) <==> n in index && forall h | h in hs :: t[h].number != n
    ensures n in Unindexed(t, index, hs) ==> Unindexed(t, index, hs)[n] == index[n]
    decreases |hs|
  {
    if hs != [] {
      var m := |hs| - 1;
      UnindexedAt(t, index, hs[..m], n);
      assert hs == hs[..m] + [hs[m]];
    }
  }

  lemma {:induction false} IndexedAt(t: Tree, index: map<nat, Hash>, hs: seq<Hash>, n: nat)
    requires forall h | h in hs :: h in t
    requires forall i, j | 0 <= i < j < |hs| :: t[hs[i]].number != t[hs[j]].number
    ensures n in Indexed(t, index, hs) <==> n in index || exists h | h in hs :: t[h].number == n
    ensures forall h | h in hs && t[h].number == n :: Indexed(t, index, hs)[n] == h
    ensures (forall h | h in hs :: t[h].number != n) && n in index ==> Indexed(t, index, hs)[n] == index[n]
    decreases |hs|
  {
    if hs != [] {
      var m := |hs| - 1;
      IndexedAt(t, index, hs[..m], n);
      assert hs == hs[..m] + [hs[m]];
    }
  }

  /** Removing the retracted numbers and writing the enacted ones turns one path into the other. */
  lemma RouteReindexes(t: Tree, g: Hash, from: Hash, to: Hash, index: map<nat, Hash>)
    requires Rooted(t, g) && from in t && to in t && IndexExact(t, g, from, index)
    ensures var r := RouteOf(t, g, from, to);
      && (forall h | h in r.retracted :: h in t) && (forall h | h in r.enacted :: h in t)
      && IndexExact(t, g, to, Indexed(t, Unindexed(t, index, r.retracted), r.enacted))
  {
    var r := RouteOf(t, g, from, to);
    RouteKnown(t, g, from, to);
    var cut := Unindexed(t, index, r.retracted);
    var made := Indexed(t, cut, r.enacted);
    forall n: nat
      ensures n in made <==> n <= t[to].number
      ensures n <= t[to].number ==> made[n] == Ancestor(t, g, to, n)
    {
      UnindexedAt(t, index, r.retracted, n);
      IndexedAt(t, cut, r.enacted, n);
      RouteNumbers(t, g, from, to, n);
    }
  }

  lemma DownNumbers(t: Tree, g: Hash, h: Hash, c: Hash, n: nat)
    requires Rooted(t, g) && OnChain(t, g, c, h)
    ensures forall x | x in Down(t, g, h, c) :: x in t
    ensures (exists x | x in Down(t, g, h, c) :: t[x].number == n) <==> t[c].number < n <= t[h].number
  {
    var d := Down(t, g, h, c);
    if t[c].number < n <= t[h].number {
      assert d[t[h].number - n] in d;
    }
  }

  lemma UpNumbers(t: Tree, g: Hash, c: Hash, h: Hash, n: nat)
    requires Rooted(t, g) && OnChain(t, g, c, h)
    ensures forall x | x in Up(t, g, c, h) :: x in t
    ensures (exists x | x in Up(t, g, c, h) :: t[x].number == n) <==> t[c].number < n <= t[h].number
    ensures forall x | x in Up(t, g, c, h) && t[x].number == n :: n <= t[h].number && x == Ancestor(t, g, h, n)
    ensures var u := Up(t, g, c, h); forall i, j | 0 <= i < j < |u| :: t[u[i]].number != t[u[j]].number
  {
    var u := Up(t, g, c, h);
    if t[c].number < n <= t[h].number {
      assert u[n - t[c].number - 1] in u;
    }
  }

  /** Which heights a route takes away and which it writes. */
  lemma RouteNumbers(t: Tree, g: Hash, from: Hash, to: Hash, n: nat)
    requires Rooted(t, g) && from in t && to in t
    ensures var r := RouteOf(t, g, from, to); var c := t[r.common].number;
      && (forall h | h in r.retracted :: h in t) && (forall h | h in r.enacted :: h in t)
      && ((exists h | h in r.retracted :: t[h].number == n) <==> c < n <= t[from].number)
      && ((exists h | h in r.enacted :: t[h].number == n) <==> c < n <= t[to].number)
      && (forall h | h in r.enacted && t[h].number == n :: n <= t[to].number && h == Ancestor(t, g, to, n))
      && (n <= c ==> Ancestor(t, g, from, n) == Ancestor(t, g, to, n))
      && (forall i, j | 0 <= i < j < |r.enacted| :: t[r.enacted[i]].number != t[r.enacted[j]].number)
  {
    var c := CommonAncestor(t, g, from, to);
    DownNumbers(t, g, from, c, n);
    UpNumbers(t, g, c, to, n);
    if n <= t[c].number {
      AncestorOfAncestor(t, g, from, t[c].number, n);
      AncestorOfAncestor(t, g, to, t[c].number, n);
    }
  }

  // ------------------------------------------------------------ what every operation keeps

  ghost predicate NodeOk(s: Node) {
    && Rooted(s.tree, s.genesis) && s.best in s.tree && s.finalized in s.tree
    && s.tree[s.genesis].parent == DEFAULT_HASH && DEFAULT_HASH !in s.tree
    && IndexExact(s.tree, s.genesis, s.best, s.index)
    && forall h | h in s.tree :: s.tree[h].number <= U32_MAX
  }

  /** The blocks that an operation brings are new children of known blocks, and it moves the head at most once. */
  ghost predicate Proper(s: Node, op: Operation) {
    && (op.pending.Some? ==>
          var p := op.pending.value;
          p.hash !in s.tree && p.hash != DEFAULT_HASH && p.header.parent in s.tree
            && p.header.number == s.tree[p.header.parent].number + 1)
    && !(op.pending.Some? && op.pending.value.leaf.IsBest() && op.setHead.Some?)
  }

  lemma IndexExactExtends(t: Tree, t': Tree, g: Hash, best: Hash, index: map<nat, Hash>)
    requires Rooted(t, g) && Rooted(t', g) && Extends(t, t') && best in t && IndexExact(t, g, best, index)
    ensures IndexExact(t', g, best, index)
  {
    forall n: nat | n <= t[best].number ensures index[n] == Ancestor(t', g, best, n)
    {
      AncestorExtends(t, t', g, best, n);
    }
  }

  lemma IndexExactChild(t: Tree, t': Tree, g: Hash, h: Hash, hd: Header, index: map<nat, Hash>)
    requires Rooted(t, g) && h !in t && hd.parent in t && hd.number == t[hd.parent].number + 1 && t' == t[h := hd]
    requires IndexExact(t, g, hd.parent, index)
    ensures Rooted(t', g) && IndexExact(t', g, h, index[hd.number := h])
  {
    RootedAdd(t, g, h, hd);
    var made := index[hd.number := h];
    forall n: nat | n <= hd.number ensures made[n] == Ancestor(t', g, h, n) {
      if n < hd.number {
        assert LinkedToParent(t', h);
        AncestorExtends(t, t', g, hd.parent, n);
      }
    }
  }

  /** Moving the head to a known block leaves exactly the path to it in the index. */
  lemma MovedHeadExact(s: Node, h: Hash)
    requires NodeOk(s) && h in s.tree
    requires MovedHead(s, s.index, h, s.tree[h].number, h).Ok?
    ensures IndexExact(s.tree, s.genesis, h, MovedHead(s, s.index, h, s.tree[h].number, h).value)
  {
    RouteReindexes(s.tree, s.genesis, s.best, h, s.index);
  }

  lemma {:induction false} FinalizedAllTree(s: Node, ids: seq<BlockId>)
    requires NodeOk(s) && FinalizedAll(s, ids).Ok?
    ensures var p := FinalizedAll(s, ids).value; p.last in s.tree
    decreases |ids|
  {
    if ids != [] { FinalizedAllTree(s, ids[..|ids| - 1]); }
  }

  lemma ImportedKeeps(s: Node, p: Pending, done: Progress)
    requires NodeOk(s) && done.last in s.tree && Imported(s, p, done).Ok?
    requires p.hash !in s.tree && p.hash != DEFAULT_HASH && p.header.parent in s.tree
    requires p.header.number == s.tree[p.header.parent].number + 1
    ensures var s1 := Imported(s, p, done).value; NodeOk(s1) && Extends(s.tree, s1.tree)
  {
    RootedAdd(s.tree, s.genesis, p.hash, p.header);
    var s1 := Imported(s, p, done).value;
    if p.leaf.IsBest() {
      RouteReindexes(s.tree, s.genesis, s.best, p.header.parent, s.index);
      var r := RouteOf(s.tree, s.genesis, s.best, p.header.parent);
      IndexExactChild(s.tree, s1.tree, s.genesis, p.hash, p.header,
                      Indexed(s.tree, Unindexed(s.tree, s.index, r.retracted), r.enacted));
    } else {
      IndexExactExtends(s.tree, s1.tree, s.genesis, s.best, s.index);
    }
  }

  /** After every successful operation the number index is exactly the path from the best block to genesis. */
  lemma CommitKeepsNode(s: Node, op: Operation)
    requires NodeOk(s) && Proper(s, op) && TryCommit(s, op).Ok?
    ensures var s' := TryCommit(s, op).value;
      NodeOk(s') && Extends(s.tree, s'.tree) && s'.genesis == s.genesis && s'.keep == s.keep
  {
    hide RouteOf, CommonAncestor, Indexed, Unindexed, IndexExact, Ancestor, MovedHead, Imported;
    FinalizedAllTree(s, op.finalize);
    var done := FinalizedAll(s, op.finalize).value;
    var s1 := if op.pending.Some? then Imported(s, op.pending.value, done).value
              else s.(bodies := done.bodies, finalized := done.last);
    if op.pending.Some? { ImportedKeeps(s, op.pending.value, done); ImportedFields(s, op.pending.value, done); }
    if op.setHead.Some? {
      var h := Resolve(s, op.setHead.value).value;
      assert s1.index == s.index;
      MovedHeadExact(s, h);
      IndexExactExtends(s.tree, s1.tree, s.genesis, h, MovedHead(s, s.index, h, s.tree[h].number, h).value);
    }
  }

  lemma ImportedFields(s: Node, p: Pending, done: Progress)
    requires Rooted(s.tree, s.genesis) && s.best in s.tree && Imported(s, p, done).Ok?
    ensures var s1 := Imported(s, p, done).value;
      && s1.genesis == s.genesis && s1.keep == s.keep && s1.tree == s.tree[p.hash := p.header]
      && (!p.leaf.IsBest() ==> s1.index == s.index && s1.best == s.best) && (p.leaf.IsBest() ==> s1.best == p.hash)
      && s1.finalized == (if p.Finalizes() then p.hash else done.last)
  {
  }

  /** `status` of a height only compares with the best number; that agrees with the index. */
  predicate KnownHeight(s: Node, n: nat)
    requires s.best in s.tree
  {
    n <= s.tree[s.best].number
  }

  lemma StatusAgreesWithIndex(s: Node, n: nat)
    requires NodeOk(s)
    ensures KnownHeight(s, n) <==> Resolve(s, ByNumber(n)).Ok?
    ensures KnownHeight(s, n) ==> Resolve(s, ByNumber(n)).value == Ancestor(s.tree, s.genesis, s.best, n)
  {
  }
}
