/** The database under a full node: one byte-keyed map for each column, changed by transactions, and
    what it means for the columns to hold a node's tree, number index and bodies.
  */
module Database {
  import opened ChainTree
  import opened Keys
  import opened NodeState

  /** A decoded header; its hash comes with it. */
  datatype Stored = Stored(hash: Hash, header: Header)

  /** `lookup` maps number keys and hash keys to the long keys under which headers and bodies are filed. */
  datatype Db = Db(lookup: map<Bytes, Bytes>, headers: map<Bytes, Stored>, bodies: map<Bytes, Body>)

  datatype Change =
    | SetLookup(key: Bytes, to: Bytes)
    | RemoveLookup(key: Bytes)
    | SetHeader(key: Bytes, stored: Stored)
    | SetBody(key: Bytes, body: Body)
    | RemoveBody(key: Bytes)

  type Transaction = seq<Change>

  function Applied(db: Db, c: Change): Db {
    match c
    case SetLookup(k, v) => db.(lookup := db.lookup[k := v])
    case RemoveLookup(k) => db.(lookup := db.lookup - {k})
    case SetHeader(k, v) => db.(headers := db.headers[k := v])
    case SetBody(k, v) => db.(bodies := db.bodies[k := v])
    case RemoveBody(k) => db.(bodies := db.bodies - {k})
  }

  /** The changes of a transaction take effect in order. */
  function Committed(db: Db, tx: Transaction): Db {
    if tx == [] then db else Applied(Committed(db, tx[..|tx| - 1]), tx[|tx| - 1])
  }

  lemma CommittedAppend(db: Db, tx: Transaction, c: Change)
    ensures Committed(db, tx + [c]) == Applied(Committed(db, tx), c)
  {
    assert (tx + [c])[..|tx|] == tx;
  }

  // ------------------------------------------------------------ reading

  /** `block_id_to_lookup_key`. */
  function LookupKeyOf(db: Db, id: BlockId): Result<Option<Bytes>> {
    match id
    case ByHash(h) => Ok(if HashKey(h) in db.lookup then Some(db.lookup[HashKey(h)]) else None)
    case ByNumber(n) =>
      match NumberIndexKey(n)
      case None => Err(NumberTooLarge)
      case Some(k) => Ok(if k in db.lookup then Some(db.lookup[k]) else None)
  }

  /** `read_header`. */
  function ReadHeader(db: Db, id: BlockId): Result<Option<Stored>> {
    match LookupKeyOf(db, id)
    case Err(e) => Err(e)
    case Ok(None) => Ok(None)
    case Ok(Some(k)) => Ok(if k in db.headers then Some(db.headers[k]) else None)
  }

  /** `header_metadata`, without the caches in front of it. */
  function HeaderByHash(db: Db, h: Hash): Option<Header> {
    match ReadHeader(db, ByHash(h))
    case Ok(Some(s)) => Some(s.header)
    case _ => None
  }

  // ------------------------------------------------------------ what the columns hold

  ghost predicate NumbersHeld(lookup: map<Bytes, Bytes>, index: map<nat, Hash>) {
    && (forall n | n in index :: n <= U32_MAX)
    && (forall n: nat | n <= U32_MAX ::
          (NumKey(n) in lookup <==> n in index) && (n in index ==> lookup[NumKey(n)] == LongKey(n, index[n])))
  }

  ghost predicate HashesHeld(lookup: map<Bytes, Bytes>, t: Tree) {
    && (forall h | h in t :: t[h].number <= U32_MAX)
    && (forall h: Hash ::
          (HashKey(h) in lookup <==> h in t) && (h in t ==> lookup[HashKey(h)] == LongKey(t[h].number, h)))
  }

  ghost predicate HeadersHeld(headers: map<Bytes, Stored>, t: Tree) {
    && (forall h | h in t :: t[h].number <= U32_MAX)
    && (forall h | h in t :: LongKey(t[h].number, h) in headers && headers[LongKey(t[h].number, h)] == Stored(h, t[h]))
  }

  ghost predicate BodiesHeld(column: map<Bytes, Body>, t: Tree, bodies: map<Hash, Body>) {
    && (forall h | h in t :: t[h].number <= U32_MAX)
    && (forall h | h in bodies :: h in t && LongKey(t[h].number, h) in column)
    && (forall n: nat, h: Hash | n <= U32_MAX && LongKey(n, h) in column ::
          h in bodies && h in t && t[h].number == n && column[LongKey(n, h)] == bodies[h])
  }

  ghost predicate Holds(db: Db, t: Tree, index: map<nat, Hash>, bodies: map<Hash, Body>) {
    && NumbersHeld(db.lookup, index) && HashesHeld(db.lookup, t)
    && HeadersHeld(db.headers, t) && BodiesHeld(db.bodies, t, bodies)
  }

  lemma RemoveNumberHeld(lookup: map<Bytes, Bytes>, t: Tree, index: map<nat, Hash>, n: nat)
    requires NumbersHeld(lookup, index) && HashesHeld(lookup, t) && n <= U32_MAX
    ensures NumbersHeld(lookup - {NumKey(n)}, index - {n}) && HashesHeld(lookup - {NumKey(n)}, t)
  {
    KeysSeparate();
    hide NumKey, HashKey, LongKey;
  }

  lemma SetNumberHeld(lookup: map<Bytes, Bytes>, t: Tree, index: map<nat, Hash>, n: nat, h: Hash)
    requires NumbersHeld(lookup, index) && HashesHeld(lookup, t) && n <= U32_MAX
    ensures var lookup' := lookup[NumKey(n) := LongKey(n, h)];
      NumbersHeld(lookup', index[n := h]) && HashesHeld(lookup', t)
  {
    KeysSeparate();
    hide NumKey, HashKey, LongKey;
  }

  lemma NewHashHeld(lookup: map<Bytes, Bytes>, t: Tree, index: map<nat, Hash>, h: Hash, hd: Header)
    requires NumbersHeld(lookup, index) && HashesHeld(lookup, t) && hd.number <= U32_MAX
    ensures var lookup' := lookup[HashKey(h) := LongKey(hd.number, h)];
      NumbersHeld(lookup', index) && HashesHeld(lookup', t[h := hd])
  {
    KeysSeparate();
    hide NumKey, HashKey, LongKey;
  }

  lemma NewHeaderHeld(headers: map<Bytes, Stored>, t: Tree, h: Hash, hd: Header)
    requires HeadersHeld(headers, t) && hd.number <= U32_MAX
    ensures HeadersHeld(headers[LongKey(hd.number, h) := Stored(h, hd)], t[h := hd])
  {
    KeysSeparate();
    hide NumKey, HashKey, LongKey;
  }

  lemma NewBodyHeld(column: map<Bytes, Body>, t: Tree, bodies: map<Hash, Body>, h: Hash, hd: Header, body: Option<Body>)
    requires BodiesHeld(column, t, bodies) && hd.number <= U32_MAX && h !in t
    ensures var key := LongKey(hd.number, h);
      BodiesHeld(if body.Some? then column[key := body.value] else column, t[h := hd],
                 if body.Some? then bodies[h := body.value] else bodies)
  {
    KeysSeparate();
    hide NumKey, HashKey, LongKey;
  }

  /** The writes that file a new block: hash key, header, and the body if there is one. */
  lemma HoldsNewBlock(db: Db, t: Tree, index: map<nat, Hash>, bodies: map<Hash, Body>, h: Hash, hd: Header,
                      body: Option<Body>)
    requires Holds(db, t, index, bodies) && hd.number <= U32_MAX && h !in t
    ensures var key := LongKey(hd.number, h);
      var db1 := Applied(Applied(db, SetLookup(HashKey(h), key)), SetHeader(key, Stored(h, hd)));
      var db2 := if body.Some? then Applied(db1, SetBody(key, body.value)) else db1;
      Holds(db2, t[h := hd], index, if body.Some? then bodies[h := body.value] else bodies)
  {
    NewHashHeld(db.lookup, t, index, h, hd);
    NewHeaderHeld(db.headers, t, h, hd);
    NewBodyHeld(db.bodies, t, bodies, h, hd, body);
  }

  lemma RemoveBodyHeld(column: map<Bytes, Body>, t: Tree, bodies: map<Hash, Body>, h: Hash)
    requires BodiesHeld(column, t, bodies) && h in t
    ensures BodiesHeld(column - {LongKey(t[h].number, h)}, t, bodies - {h})
  {
    KeysSeparate();
    hide NumKey, HashKey, LongKey;
  }

  /** What a database with a pending transaction will hold. */
  datatype Image = Image(tree: Tree, index: map<nat, Hash>, bodies: map<Hash, Body>)

  ghost predicate Stands(db: Db, tx: Transaction, im: Image) {
    Holds(Committed(db, tx), im.tree, im.index, im.bodies)
  }

  /** `remove_number_to_key_mapping`. */
  method RemoveNumber(db: Db, tx: Transaction, n: nat, ghost im: Image) returns (tx': Transaction)
    requires Stands(db, tx, im) && n <= U32_MAX
    ensures Stands(db, tx', im.(index := im.index - {n}))
  {
    hide BodiesHeld, NumbersHeld, HashesHeld, HeadersHeld, NumKey, Committed;
    RemoveNumberHeld(Committed(db, tx).lookup, im.tree, im.index, n);
    CommittedAppend(db, tx, RemoveLookup(NumKey(n)));
    tx' := tx + [RemoveLookup(NumKey(n))];
  }

  /** `insert_number_to_key_mapping`. */
  method InsertNumber(db: Db, tx: Transaction, n: nat, h: Hash, ghost im: Image) returns (tx': Transaction)
    requires Stands(db, tx, im) && n <= U32_MAX
    ensures Stands(db, tx', im.(index := im.index[n := h]))
  {
    hide BodiesHeld, NumbersHeld, HashesHeld, HeadersHeld, NumKey, LongKey, Committed;
    SetNumberHeld(Committed(db, tx).lookup, im.tree, im.index, n, h);
    CommittedAppend(db, tx, SetLookup(NumKey(n), LongKey(n, h)));
    tx' := tx + [SetLookup(NumKey(n), LongKey(n, h))];
  }

  /** Files a new block: its hash mapping, its header, its body. */
  method InsertBlock(db: Db, tx: Transaction, h: Hash, hd: Header, body: Option<Body>, ghost im: Image)
    returns (tx': Transaction)
    requires Stands(db, tx, im) && hd.number <= U32_MAX && h !in im.tree
    ensures Stands(db, tx',
                   Image(im.tree[h := hd], im.index, if body.Some? then im.bodies[h := body.value] else im.bodies))
  {
    hide BodiesHeld, NumbersHeld, HashesHeld, HeadersHeld, HashKey, LongKey, Committed;
    var key := LongKey(hd.number, h);
    var c1, c2 := SetLookup(HashKey(h), key), SetHeader(key, Stored(h, hd));
    HoldsNewBlock(Committed(db, tx), im.tree, im.index, im.bodies, h, hd, body);
    CommittedAppend(db, tx, c1);
    CommittedAppend(db, tx + [c1], c2);
    tx' := tx + [c1] + [c2];
    if body.Some? {
      CommittedAppend(db, tx', SetBody(key, body.value));
      tx' := tx' + [SetBody(key, body.value)];
    }
  }

  /** `remove_from_db` on the body column. */
  method RemoveBodyAt(db: Db, tx: Transaction, key: Bytes, ghost h: Hash, ghost im: Image) returns (tx': Transaction)
    requires Stands(db, tx, im) && h in im.tree && key == LongKey(im.tree[h].number, h)
    ensures Stands(db, tx', im.(bodies := im.bodies - {h}))
  {
    hide BodiesHeld, NumbersHeld, HashesHeld, HeadersHeld, LongKey, Committed;
    RemoveBodyHeld(Committed(db, tx).bodies, im.tree, im.bodies, h);
    CommittedAppend(db, tx, RemoveBody(key));
    tx' := tx + [RemoveBody(key)];
  }
}
