/** The disk backend of a full node: operations build a transaction over the byte columns and commit it.
    Its contents always stand for the node that `NodeState` describes, and `TryCommitOperation` does to it
    exactly what `TryCommit` says.
  */
module Backend {
  import opened ChainTree
  import opened Keys
  import opened NodeState
  import opened NodeRuns
  import opened Database

  /** Every header of the tree, and no other, can be read by its hash. */
  ghost predicate Readable(db: Db, t: Tree) {
    && (forall h | h in t :: t[h].number <= U32_MAX)
    && forall h: Hash :: HeaderByHash(db, h) == if h in t then Some(t[h]) else None
  }

  lemma HeldByHash(db: Db, t: Tree, h: Hash)
    requires HashesHeld(db.lookup, t) && HeadersHeld(db.headers, t)
    ensures ReadHeader(db, ByHash(h)) == Ok(if h in t then Some(Stored(h, t[h])) else None)
  {
    hide HashKey, LongKey;
    if h in t { assert db.lookup[HashKey(h)] == LongKey(t[h].number, h); }
  }

  lemma HeldByNumber(db: Db, t: Tree, index: map<nat, Hash>, n: nat)
    requires NumbersHeld(db.lookup, index) && HeadersHeld(db.headers, t)
    requires n in index ==> index[n] in t && t[index[n]].number == n
    ensures ReadHeader(db, ByNumber(n)) ==
      if n > U32_MAX then Err(NumberTooLarge) else Ok(if n in index then Some(Stored(index[n], t[index[n]])) else None)
  {
    if n <= U32_MAX {
      assert NumberIndexKey(n) == Some(NumKey(n));
      hide NumKey, LongKey;
      if n in index { assert db.lookup[NumKey(n)] == LongKey(n, index[n]); }
    }
  }

  lemma HeldReadable(db: Db, t: Tree)
    requires HashesHeld(db.lookup, t) && HeadersHeld(db.headers, t)
    ensures Readable(db, t)
  {
    forall h: Hash ensures HeaderByHash(db, h) == if h in t then Some(t[h]) else None { HeldByHash(db, t, h); }
  }

  /** The first loop of `set_head_with_transaction`: forget the numbers of the retracted blocks,
      unless one of them is the finalized block. */
  method Uncanonicalize(db: Db, tx: Transaction, retracted: seq<Hash>, finalized: Hash, ghost t: Tree, ghost im: Image)
    returns (ok: bool, tx': Transaction)
    requires Stands(db, tx, im)
    requires Readable(db, t) && forall h | h in retracted :: h in t
    ensures ok <==> finalized !in retracted
    ensures ok ==> Stands(db, tx', im.(index := Unindexed(t, im.index, retracted)))
  {
    hide Stands, HeaderByHash;
    tx' := tx;
    ghost var ix := im.index;
    for i := 0 to |retracted|
      invariant finalized !in retracted[..i]
      invariant ix == Unindexed(t, im.index, retracted[..i])
      invariant Stands(db, tx', im.(index := ix))
    {
      var h := retracted[i];
      if h == finalized { return false, tx'; }
      var n := HeaderByHash(db, h).value.number;
      tx' := RemoveNumber(db, tx', n, im.(index := ix));
      assert retracted[..i + 1][..i] == retracted[..i];
      ix := ix - {n};
    }
    assert retracted[..|retracted|] == retracted;
    ok := true;
  }

  /** The second loop: write the numbers of the enacted blocks. */
  method Canonicalize(db: Db, tx: Transaction, enacted: seq<Hash>, ghost t: Tree, ghost im: Image)
    returns (tx': Transaction)
    requires Stands(db, tx, im)
    requires Readable(db, t) && forall h | h in enacted :: h in t
    ensures Stands(db, tx', im.(index := Indexed(t, im.index, enacted)))
  {
    hide Stands, HeaderByHash;
    tx' := tx;
    ghost var ix := im.index;
    for i := 0 to |enacted|
      invariant ix == Indexed(t, im.index, enacted[..i])
      invariant Stands(db, tx', im.(index := ix))
    {
      var h := enacted[i];
      var n := HeaderByHash(db, h).value.number;
      tx' := InsertNumber(db, tx', n, h, im.(index := ix));
      assert enacted[..i + 1][..i] == enacted[..i];
      ix := ix[n := h];
    }
    assert enacted[..|enacted|] == enacted;
  }

  /** A transaction under construction, with the route it moves the head along. */
  datatype HeadMove = HeadMove(tx: Transaction, enacted: seq<Hash>, retracted: seq<Hash>)

  /** The tree route over the stored headers; it fails exactly when the target is unknown. */
  method FindRoute(db: Db, best: Hash, routeTo: Hash, ghost t: Tree, ghost g: Hash) returns (r: Option<Route>)
    requires Rooted(t, g) && best in t && Readable(db, t)
    ensures r.Some? <==> routeTo in t
    ensures r.Some? ==> r.value == RouteOf(t, g, best, routeTo)
  {
    hide HeaderByHash, RouteOf, RouteReadable;
    if HeaderByHash(db, routeTo).None? { return None; }
    var read := (h: Hash) => HeaderByHash(db, h);
    AllReadable(read, t, g, best, routeTo);
    r := TreeRoute(read, best, routeTo, t, g);
  }

  lemma AllReadable(read: HeaderReader, t: Tree, g: Hash, from: Hash, to: Hash)
    requires Rooted(t, g) && from in t && to in t && forall h | h in t :: read(h) == Some(t[h])
    ensures RouteReadable(read, t, g, from, to)
  {
    RouteKnown(t, g, from, to);
  }

  /** Appends the index changes of a head move to `tx`, which so far stands for `im`. */
  method SetHeadWithTransaction(db: Db, bestHash: Hash, finalizedHash: Hash, tx: Transaction,
                                routeTo: Hash, number: nat, best: Hash, ghost s: Node, ghost im: Image)
    returns (r: Result<HeadMove>)
    requires Rooted(s.tree, s.genesis) && s.best in s.tree && bestHash == s.best && finalizedHash == s.finalized
    requires Readable(db, s.tree) && Stands(db, tx, im)
    ensures r.Ok? <==> MovedHead(s, im.index, routeTo, number, best).Ok?
    ensures r.Err? ==> r.error == MovedHead(s, im.index, routeTo, number, best).error
    ensures r.Ok? ==>
      && Stands(db, r.value.tx, im.(index := MovedHead(s, im.index, routeTo, number, best).value))
      && r.value.enacted == RouteOf(s.tree, s.genesis, s.best, routeTo).enacted
      && r.value.retracted == RouteOf(s.tree, s.genesis, s.best, routeTo).retracted
  {
    hide Stands, RouteOf, Indexed, Unindexed, Readable;
    var found := FindRoute(db, bestHash, routeTo, s.tree, s.genesis);
    if found.None? { return Err(UnknownBlock); }
    var route := found.value;
    RouteKnown(s.tree, s.genesis, s.best, routeTo);
    var ok, tx1 := Uncanonicalize(db, tx, route.retracted, finalizedHash, s.tree, im);
    if !ok { return Err(NotInFinalizedChain); }
    ghost var im1 := im.(index := Unindexed(s.tree, im.index, route.retracted));
    var tx2 := Canonicalize(db, tx1, route.enacted, s.tree, im1);
    if number > U32_MAX { return Err(NumberTooLarge); }
    var tx3 := InsertNumber(db, tx2, number, best, im1.(index := Indexed(s.tree, im1.index, route.enacted)));
    return Ok(HeadMove(tx3, route.enacted, route.retracted));
  }

  /** What the committed columns say about the node, as far as finalization reads them. */
  ghost predicate Indexes(db: Db, s: Node) {
    && NumbersHeld(db.lookup, s.index) && BodiesHeld(db.bodies, s.tree, s.bodies)
    && forall n | n in s.index :: s.index[n] in s.tree && s.tree[s.index[n]].number == n
  }

  /** `prune_blocks`: give up the body that falls out of the window when height `f` is finalized. */
  method PruneBlocks(db: Db, keep: Option<nat>, tx: Transaction, f: nat, ghost s: Node, ghost im: Image)
    returns (tx': Transaction)
    requires Indexes(db, s) && Stands(db, tx, im) && Extends(s.tree, im.tree) && keep == s.keep && f <= U32_MAX
    ensures Stands(db, tx', im.(bodies := PrunedBodies(s, im.bodies, f)))
  {
    hide Stands, LongKey, NumKey;
    tx' := tx;
    if keep.None? { return; }
    var k := if keep.value > 1 then keep.value else 1;
    if f < k { return; }
    var n := f - k;
    var found := LookupKeyOf(db, ByNumber(n));
    assert NumberIndexKey(n) == Some(NumKey(n)) by { NumKeyIs(n); }
    if found.value.Some? {
      var key := found.value.value;
      assert n in s.index && key == LongKey(n, s.index[n]);
      if key in db.bodies {
        tx' := RemoveBodyAt(db, tx, key, s.index[n], im);
      }
    }
  }

  lemma NumKeyIs(n: nat)
    requires n <= U32_MAX
    ensures NumberIndexKey(n) == Some(NumKey(n))
  {
  }

  /** `expect_block_hash_from_id`, with the header that goes with the hash. */
  method ExpectBlock(db: Db, id: BlockId, ghost s: Node) returns (r: Result<Stored>)
    requires Indexes(db, s) && HashesHeld(db.lookup, s.tree) && HeadersHeld(db.headers, s.tree)
    ensures r.Ok? <==> Resolve(s, id).Ok?
    ensures r.Ok? ==> r.value.hash == Resolve(s, id).value && r.value.hash in s.tree
                      && r.value.header == s.tree[r.value.hash] && r.value.header.number <= U32_MAX
    ensures r.Err? ==> r.error == Resolve(s, id).error
  {
    if id.ByHash? { HeldByHash(db, s.tree, id.hash); } else { HeldByNumber(db, s.tree, s.index, id.number); }
    hide ReadHeader, NumbersHeld, BodiesHeld, HashesHeld, HeadersHeld;
    match ReadHeader(db, id) {
      case Err(e) => return Err(e);
      case Ok(None) => return Err(UnknownBlock);
      case Ok(Some(found)) => return Ok(found);
    }
  }

  /** The loop over the blocks that an operation finalizes; each must be a child of the one before. */
  method FinalizeBlocks(db: Db, keep: Option<nat>, finalizedHash: Hash, finalizedNumber: nat, ids: seq<BlockId>,
                        tx: Transaction, ghost s: Node)
    returns (r: Result<(Transaction, Hash, nat)>)
    requires Indexes(db, s) && HashesHeld(db.lookup, s.tree) && HeadersHeld(db.headers, s.tree)
    requires keep == s.keep && finalizedHash == s.finalized && Stands(db, tx, Image(s.tree, s.index, s.bodies))
    requires s.finalized in s.tree && finalizedNumber == s.tree[s.finalized].number
    ensures r.Ok? <==> FinalizedAll(s, ids).Ok?
    ensures r.Err? ==> r.error == FinalizedAll(s, ids).error
    ensures r.Ok? ==> r.value.1 == FinalizedAll(s, ids).value.last
                      && r.value.1 in s.tree && r.value.2 == s.tree[r.value.1].number
                      && Stands(db, r.value.0, Image(s.tree, s.index, FinalizedAll(s, ids).value.bodies))
  {
    hide Stands, Indexes, HashesHeld, PrunedBodies, Resolve;
    var tx', last, number := tx, finalizedHash, finalizedNumber;
    for i := 0 to |ids|
      invariant last in s.tree && number == s.tree[last].number
      invariant FinalizedAll(s, ids[..i]).Ok? && last == FinalizedAll(s, ids[..i]).value.last
      invariant Stands(db, tx', Image(s.tree, s.index, FinalizedAll(s, ids[..i]).value.bodies))
    {
      assert ids[..i + 1][..i] == ids[..i];
      var block := ExpectBlock(db, ids[i], s);
      if block.Err? { FinalizedAllFails(s, ids, i + 1); return Err(block.error); }
      if block.value.header.parent != last { FinalizedAllFails(s, ids, i + 1); return Err(NonSequentialFinalization); }
      ghost var im := Image(s.tree, s.index, FinalizedAll(s, ids[..i]).value.bodies);
      tx' := PruneBlocks(db, keep, tx', block.value.header.number, s, im);
      last, number := block.value.hash, block.value.header.number;
    }
    assert ids[..|ids|] == ids;
    return Ok((tx', last, number));
  }

  /** A failure in a prefix of the list is the failure of the list. */
  lemma {:induction false} FinalizedAllFails(s: Node, ids: seq<BlockId>, i: nat)
    requires i <= |ids| && FinalizedAll(s, ids[..i]).Err?
    ensures FinalizedAll(s, ids) == FinalizedAll(s, ids[..i])
    decreases |ids|
  {
    if i == |ids| {
      assert ids[..i] == ids;
    } else {
      var n := |ids| - 1;
      assert ids[..n][..i] == ids[..i];
      FinalizedAllFails(s, ids[..n], i);
    }
  }

  /** The image of a node: what the columns hold when it is committed. */
  ghost function ImageOf(s: Node): Image { Image(s.tree, s.index, s.bodies) }

  /** The part of `try_commit_operation` that imports the pending block. */
  method ImportPending(db: Db, keep: Option<nat>, bestHash: Hash, finalizedHash: Hash, p: Pending, tx: Transaction,
                       last: Hash, ghost s: Node, ghost done: Progress)
    returns (r: Result<Transaction>)
    requires Rooted(s.tree, s.genesis) && s.best in s.tree && bestHash == s.best
    requires finalizedHash == s.finalized && keep == s.keep
    requires Readable(db, s.tree) && Indexes(db, s) && p.hash !in s.tree && last == done.last
    requires Stands(db, tx, Image(s.tree, s.index, done.bodies))
    ensures r.Ok? <==> Imported(s, p, done).Ok?
    ensures r.Err? ==> r.error == Imported(s, p, done).error
    ensures r.Ok? ==> Stands(db, r.value, ImageOf(Imported(s, p, done).value))
  {
    hide Stands, Indexes, Readable, MovedHead, PrunedBodies;
    if p.header.number > U32_MAX { return Err(NumberTooLarge); }
    var tx' := tx;
    ghost var im := Image(s.tree, s.index, done.bodies);
    if p.leaf.IsBest() {
      var moved := SetHeadWithTransaction(db, bestHash, finalizedHash, tx', p.header.parent, p.header.number, p.hash,
                                          s, im);
      if moved.Err? { return Err(moved.error); }
      tx' := moved.value.tx;
      im := im.(index := MovedHead(s, im.index, p.header.parent, p.header.number, p.hash).value);
    }
    tx' := InsertBlock(db, tx', p.hash, p.header, p.body, im);
    im := Image(im.tree[p.hash := p.header], im.index,
                if p.body.Some? then im.bodies[p.hash := p.body.value] else im.bodies);
    if p.Finalizes() {
      if p.header.parent != last { return Err(NonSequentialFinalization); }
      tx' := PruneBlocks(db, keep, tx', p.header.number, s, im);
    }
    return Ok(tx');
  }

  /** The last part: an explicit head. */
  method MoveToHead(db: Db, bestHash: Hash, finalizedHash: Hash, id: BlockId, tx: Transaction, ghost s: Node,
                    ghost im: Image)
    returns (r: Result<(Transaction, Stored)>)
    requires Rooted(s.tree, s.genesis) && s.best in s.tree && bestHash == s.best && finalizedHash == s.finalized
    requires Readable(db, s.tree) && Indexes(db, s) && HashesHeld(db.lookup, s.tree) && HeadersHeld(db.headers, s.tree)
    requires Stands(db, tx, im)
    ensures r.Ok? ==>
      && Resolve(s, id).Ok?
      && var h := Resolve(s, id).value; var moved := MovedHead(s, im.index, h, s.tree[h].number, h);
         && h in s.tree && moved.Ok? && r.value.1 == Stored(h, s.tree[h])
         && Stands(db, r.value.0, im.(index := moved.value))
    ensures r.Err? ==>
      || (Resolve(s, id).Err? && r.error == Resolve(s, id).error)
      || (Resolve(s, id).Ok? && var h := Resolve(s, id).value;
        var moved := MovedHead(s, im.index, h, s.tree[h].number, h);
          moved.Err? && r.error == moved.error)
  {
    hide Stands, Indexes, Readable, MovedHead, HashesHeld, HeadersHeld;
    var block := ExpectBlock(db, id, s);
    if block.Err? { return Err(block.error); }
    var h := block.value.hash;
    var moved := SetHeadWithTransaction(db, bestHash, finalizedHash, tx, h, block.value.header.number, h, s, im);
    if moved.Err? { return Err(moved.error); }
    return Ok((moved.value.tx, block.value));
  }

  /** All that `try_commit_operation` does before it writes: the transaction, and the blocks it ends with. */
  datatype Prepared = Prepared(tx: Transaction, last: Hash, lastNumber: nat, head: Option<Stored>)

  method Prepare(db: Db, keep: Option<nat>, bestHash: Hash, finalizedHash: Hash, finalizedNumber: nat, op: Operation,
                 ghost s: Node)
    returns (r: Result<Prepared>)
    requires Rooted(s.tree, s.genesis) && s.best in s.tree && bestHash == s.best
    requires finalizedHash == s.finalized && keep == s.keep
    requires Readable(db, s.tree) && Indexes(db, s) && HashesHeld(db.lookup, s.tree) && HeadersHeld(db.headers, s.tree)
    requires Stands(db, [], ImageOf(s)) && (op.pending.Some? ==> op.pending.value.hash !in s.tree)
    requires s.finalized in s.tree && finalizedNumber == s.tree[s.finalized].number
    ensures r.Ok? <==> TryCommit(s, op).Ok?
    ensures r.Err? ==> r.error == TryCommit(s, op).error
    ensures r.Ok? ==>
      && Stands(db, r.value.tx, ImageOf(TryCommit(s, op).value))
      && r.value.last == FinalizedAll(s, op.finalize).value.last
      && r.value.last in s.tree && r.value.lastNumber == s.tree[r.value.last].number
      && (r.value.head.Some? <==> op.setHead.Some?)
      && (r.value.head.Some? ==> Resolve(s, op.setHead.value) == Ok(r.value.head.value.hash)
                                 && r.value.head.value.hash in s.tree
                                 && r.value.head.value.header == s.tree[r.value.head.value.hash])
  {
    hide Stands, Indexes, Readable, MovedHead, Imported, FinalizedAll, HashesHeld, HeadersHeld, Resolve;
    var finalized := FinalizeBlocks(db, keep, finalizedHash, finalizedNumber, op.finalize, [], s);
    if finalized.Err? { return Err(finalized.error); }
    var (tx, last, number) := finalized.value;
    ghost var done := FinalizedAll(s, op.finalize).value;
    ghost var s1 := s.(bodies := done.bodies, finalized := done.last);
    if op.pending.Some? {
      var imported := ImportPending(db, keep, bestHash, finalizedHash, op.pending.value, tx, last, s, done);
      if imported.Err? { return Err(imported.error); }
      tx, s1 := imported.value, Imported(s, op.pending.value, done).value;
    }
    if op.setHead.None? { return Ok(Prepared(tx, last, number, None)); }
    var head := MoveToHead(db, bestHash, finalizedHash, op.setHead.value, tx, s, ImageOf(s1));
    if head.Err? { return Err(head.error); }
    return Ok(Prepared(head.value.0, last, number, Some(head.value.1)));
  }

  /** The in-memory copy of the chain's ends. */
  datatype Meta = Meta(bestHash: Hash, bestNumber: nat, finalizedHash: Hash, finalizedNumber: nat)

  ghost function MetaOf(s: Node): Meta
    requires NodeOk(s)
  {
    Meta(s.best, s.tree[s.best].number, s.finalized, s.tree[s.finalized].number)
  }

  /** `update_meta` for a block above genesis. */
  function UpdatedMeta(m: Meta, hash: Hash, number: nat, isBest: bool, isFinalized: bool): Meta {
    var m1 := if isBest then m.(bestHash := hash, bestNumber := number) else m;
    if isFinalized then m1.(finalizedHash := hash, finalizedNumber := number) else m1
  }

  /** The updates that follow the commit, in the source's order. */
  method FinalMeta(meta: Meta, op: Operation, done: Prepared, ghost s: Node) returns (m: Meta)
    requires NodeOk(s) && Proper(s, op) && TryCommit(s, op).Ok? && meta == MetaOf(s)
    requires done.last in s.tree && done.lastNumber == s.tree[done.last].number
    requires done.last == FinalizedAll(s, op.finalize).value.last
    requires done.head.Some? <==> op.setHead.Some?
    requires done.head.Some? ==> Resolve(s, op.setHead.value) == Ok(done.head.value.hash)
                                 && done.head.value.hash in s.tree
                                 && done.head.value.header == s.tree[done.head.value.hash]
    ensures NodeOk(TryCommit(s, op).value) && m == MetaOf(TryCommit(s, op).value)
  {
    CommitKeepsNode(s, op);
    CommitFields(s, op);
    hide TryCommit, FinalizedAll, Resolve, IndexExact, HeadRoute;
    m := UpdatedMeta(meta, done.last, done.lastNumber, false, true);
    if op.pending.Some? {
      var p := op.pending.value;
      m := UpdatedMeta(m, p.hash, p.header.number, p.leaf.IsBest(), p.Finalizes());
    }
    if done.head.Some? {
      m := UpdatedMeta(m, done.head.value.hash, done.head.value.header.number, true, false);
    }
  }

  lemma HeldParts(db: Db, s: Node)
    requires NodeOk(s) && Holds(db, s.tree, s.index, s.bodies)
    ensures Readable(db, s.tree) && Indexes(db, s) && HashesHeld(db.lookup, s.tree) && HeadersHeld(db.headers, s.tree)
    ensures Stands(db, [], ImageOf(s))
  {
    hide NumbersHeld, BodiesHeld, HashesHeld, HeadersHeld, Readable;
    HeldReadable(db, s.tree);
  }

  /** The new contents of the columns and of the meta data, or the reason why there are none. */
  method Write(db: Db, meta: Meta, keep: Option<nat>, op: Operation, ghost s: Node) returns (r: Result<(Db, Meta)>)
    requires NodeOk(s) && Holds(db, s.tree, s.index, s.bodies) && meta == MetaOf(s) && keep == s.keep && Proper(s, op)
    ensures Rooted(s.tree, s.genesis) && s.best in s.tree
    ensures r.Ok? <==> TryCommit(s, op).Ok?
    ensures r.Err? ==> r.error == TryCommit(s, op).error
    ensures r.Ok? ==> var s' := TryCommit(s, op).value;
      NodeOk(s') && Holds(r.value.0, s'.tree, s'.index, s'.bodies) && r.value.1 == MetaOf(s') && s'.keep == keep
  {
    HeldParts(db, s);
    hide Holds, Stands, Indexes, Readable, HashesHeld, HeadersHeld, IndexExact, TryCommit, Resolve, FinalizedAll;
    var prepared := Prepare(db, keep, meta.bestHash, meta.finalizedHash, meta.finalizedNumber, op, s);
    if prepared.Err? { return Err(prepared.error); }
    var m := FinalMeta(meta, op, prepared.value, s);
    StandsCommitted(db, prepared.value.tx, TryCommit(s, op).value);
    CommitKeepsNode(s, op);
    return Ok((Committed(db, prepared.value.tx), m));
  }

  function GenesisNode(genesis: Hash, header: Header, body: Option<Body>, keep: Option<nat>): Node {
    Node(map[genesis := header], genesis, map[0 := genesis],
         if body.Some? then map[genesis := body.value] else map[], genesis, genesis, keep)
  }

  lemma GenesisOk(genesis: Hash, header: Header, body: Option<Body>, keep: Option<nat>)
    requires genesis != DEFAULT_HASH && header.number == 0 && header.parent == DEFAULT_HASH
    ensures var s := GenesisNode(genesis, header, body, keep);
      NodeOk(s) && Initial(s, s.bodies) && MetaOf(s) == Meta(genesis, 0, genesis, 0)
  {
  }

  lemma EmptyHolds()
    ensures Stands(Db(map[], map[], map[]), [], Image(map[], map[], map[]))
  {
  }

  /** The columns with the genesis block alone. */
  method GenesisDb(genesis: Hash, header: Header, body: Option<Body>, ghost keep: Option<nat>) returns (db: Db)
    requires header.number == 0
    ensures var s := GenesisNode(genesis, header, body, keep); Holds(db, s.tree, s.index, s.bodies)
  {
    hide Holds, Stands, Committed;
    EmptyHolds();
    var empty := Db(map[], map[], map[]);
    var tx := InsertBlock(empty, [], genesis, header, body, Image(map[], map[], map[]));
    ghost var s := GenesisNode(genesis, header, body, keep);
    assert Image(s.tree, map[], s.bodies)
        == Image(map[][genesis := header], map[], if body.Some? then map[][genesis := body.value] else map[]);
    tx := InsertNumber(empty, tx, 0, genesis, Image(s.tree, map[], s.bodies));
    assert Image(s.tree, map[][0 := genesis], s.bodies) == ImageOf(s);
    StandsCommitted(empty, tx, s);
    db := Committed(empty, tx);
  }

  class Backend {
    var db: Db
    var meta: Meta
    const keepBlocks: Option<nat>
    /** The node that the fields stand for. */
    ghost var node: Node

    ghost predicate Valid()
      reads this
    {
      NodeOk(node) && Holds(db, node.tree, node.index, node.bodies) && meta == MetaOf(node) && keepBlocks == node.keep
    }

    /** Opens on a database with the genesis block alone. */
    constructor (genesis: Hash, header: Header, body: Option<Body>, keepBlocks: Option<nat>)
      requires genesis != DEFAULT_HASH && header.number == 0 && header.parent == DEFAULT_HASH
      ensures Valid() && this.keepBlocks == keepBlocks
      ensures node == GenesisNode(genesis, header, body, keepBlocks) && Initial(node, node.bodies)
    {
      hide Holds, NodeOk;
      GenesisOk(genesis, header, body, keepBlocks);
      var columns := GenesisDb(genesis, header, body, keepBlocks);
      db, meta, node := columns, Meta(genesis, 0, genesis, 0), GenesisNode(genesis, header, body, keepBlocks);
      this.keepBlocks := keepBlocks;
    }

    /** `status` of a number: no lookup, only a comparison, and yet right. */
    method StatusOfNumber(n: nat) returns (inChain: bool)
      requires Valid()
      ensures inChain <==> ReadHeader(db, ByNumber(n)).Ok? && ReadHeader(db, ByNumber(n)).value.Some?
    {
      HeldByNumber(db, node.tree, node.index, n);
      return n <= meta.bestNumber;
    }

    /** `header` of a number: the block of the best chain at that height. */
    method HeaderOfNumber(n: nat) returns (r: Result<Option<Stored>>)
      requires Valid()
      ensures n > U32_MAX ==> r == Err(NumberTooLarge)
      ensures n <= U32_MAX && n > node.tree[node.best].number ==> r == Ok(None)
      ensures n <= node.tree[node.best].number ==>
        var h := Ancestor(node.tree, node.genesis, node.best, n); r == Ok(Some(Stored(h, node.tree[h])))
    {
      HeldByNumber(db, node.tree, node.index, n);
      return ReadHeader(db, ByNumber(n));
    }

    /** `try_commit_operation`: all of the operation, or nothing. */
    method TryCommitOperation(op: Operation) returns (r: Result<()>)
      requires Valid() && Proper(node, op)
      modifies this
      ensures Valid()
      ensures r.Ok? <==> TryCommit(old(node), op).Ok?
      ensures r.Ok? ==> node == TryCommit(old(node), op).value
      ensures r.Err? ==>
        && r.error == TryCommit(old(node), op).error
        && db == old(db) && meta == old(meta) && node == old(node)
    {
      hide NodeOk, Holds, TryCommit, MetaOf, Proper;
      var written := Write(db, meta, keepBlocks, op, node);
      if written.Err? { return Err(written.error); }
      db, meta, node := written.value.0, written.value.1, TryCommit(node, op).value;
      return Ok(());
    }
  }

  lemma StandsCommitted(db: Db, tx: Transaction, s: Node)
    requires Stands(db, tx, ImageOf(s))
    ensures Holds(Committed(db, tx), s.tree, s.index, s.bodies)
  {
  }
}
