/** The light node's storage as an object: each operation collects its changes and then writes them,
    and does exactly what the functions of `Light` say.
  */
module LightObjects {
  import opened ChainTree
  import opened Keys
  import opened NodeState
  import opened Cht
  import opened Light

  /** The two loops of `set_head_with_transaction`. */
  method Reindex(index: map<nat, Hash>, headers: Tree, route: Route, ghost t: Tree) returns (made: map<nat, Hash>)
    requires forall h | h in route.retracted || h in route.enacted :: h in headers && h in t && headers[h] == t[h]
    ensures made == Indexed(t, Unindexed(t, index, route.retracted), route.enacted)
  {
    made := index;
    for i := 0 to |route.retracted|
      invariant made == Unindexed(t, index, route.retracted[..i])
    {
      assert route.retracted[..i + 1][..i] == route.retracted[..i];
      made := made - {headers[route.retracted[i]].number};
    }
    assert route.retracted[..|route.retracted|] == route.retracted;
    ghost var less := made;
    for i := 0 to |route.enacted|
      invariant made == Indexed(t, less, route.enacted[..i])
    {
      assert route.enacted[..i + 1][..i] == route.enacted[..i];
      made := made[headers[route.enacted[i]].number := route.enacted[i]];
    }
    assert route.enacted[..|route.enacted|] == route.enacted;
  }

  lemma NotReadable(s: Storage, routeTo: Hash)
    requires Rooted(s.tree, s.genesis) && s.best in s.tree && routeTo in s.tree && routeTo !in s.headers
    ensures !RouteReadable(HeaderReaderOf(s), s.tree, s.genesis, s.best, routeTo)
  {
    var c := CommonAncestor(s.tree, s.genesis, s.best, routeTo);
    BranchMembers(s.tree, s.genesis, c, routeTo, routeTo);
  }

  class LightStorage {
    const size: nat
    var headers: Tree
    var index: map<nat, Hash>
    var roots: map<nat, Pairs>
    var changesRoots: map<nat, Pairs>
    var bestHash: Hash
    var finalizedHash: Hash
    var finalizedNumber: nat
    /** Every header ever imported, and which one was first. */
    ghost var tree: Tree
    ghost const genesis: Hash

    ghost function Contents(): Storage
      reads this
    {
      Storage(size, tree, genesis, headers, index, roots, changesRoots, bestHash, finalizedHash)
    }

    ghost predicate Valid()
      reads this
    {
      && size > 0 && Rooted(tree, genesis) && bestHash in tree && finalizedHash in tree
      && finalizedNumber == tree[finalizedHash].number && Extends(headers, tree)
    }

    /** A storage with genesis alone. */
    constructor (size: nat, genesisHash: Hash, header: Header)
      requires size > 0 && header.number == 0
      ensures Valid() && this.size == size
      ensures Contents() == Storage(size, map[genesisHash := header], genesisHash, map[genesisHash := header],
                                    map[0 := genesisHash], map[], map[], genesisHash, genesisHash)
    {
      this.size, genesis, tree, headers := size, genesisHash, map[genesisHash := header], map[genesisHash := header];
      index, roots, changesRoots := map[0 := genesisHash], map[], map[];
      bestHash, finalizedHash, finalizedNumber := genesisHash, genesisHash, 0;
    }

    function Number(n: nat): (h: Option<Hash>)
      reads this
      ensures h == HashAt(Contents(), n)
    {
      if n in index && index[n] in headers then Some(index[n]) else None
    }

    /** `set_head_with_transaction`. */
    method MoveHead(routeTo: Hash, number: nat, best: Hash) returns (r: Result<map<nat, Hash>>)
      requires Valid()
      ensures r == MovedLightHead(Contents(), routeTo, number, best)
    {
      if number > U32_MAX { return Err(NumberTooLarge); }
      ghost var s := Contents();
      if routeTo !in headers {
        if routeTo in tree { NotReadable(s, routeTo); }
        return Err(UnknownBlock);
      }
      var stored := headers;
      var read: HeaderReader := (h: Hash) => if h in stored then Some(stored[h]) else None;
      SameReader(s, read, routeTo);
      var route := TreeRoute(read, bestHash, routeTo, tree, genesis);
      if route.None? { return Err(UnknownBlock); }
      RouteKnown(tree, genesis, bestHash, routeTo);
      var made := Reindex(index, headers, route.value, tree);
      return Ok(made[number := best]);
    }

    /** `note_finalized` up to the pruning: the CHTs to write. */
    method NoteFinalized(header: Header) returns (r: Result<Noted>)
      requires Valid()
      ensures r == NotedFinal(Contents(), header)
    {
      if finalizedHash != header.parent { return Err(NonSequentialFinalization); }
      if header.number > U32_MAX { return Err(NumberTooLarge); }
      var due := IsBuildRequired(size, header.number);
      if due.None? { return Ok(Noted(None, None, 0)); }
      var hashes := CollectHashes(due.value);
      if hashes.None? { return Err(MissingHashForCht); }
      if header.changesTrieRoot.None? { return Ok(Noted(hashes, None, due.value)); }
      var changes := CollectChanges(due.value);
      if changes.None? { return Err(MissingHashForCht); }
      return Ok(Noted(hashes, changes, due.value));
    }

    method CollectHashes(cht: nat) returns (r: Option<Pairs>)
      requires size > 0
      ensures r == Collected(HashReader(Contents()), StartNumber(size, cht), size)
    {
      var ix, stored := index, headers;
      var read := (n: nat) => if n in ix && ix[n] in stored then Some(ix[n]) else None;
      r := BuildPairs(size, cht, read);
      SameCollected(read, HashReader(Contents()), StartNumber(size, cht), size);
    }

    method CollectChanges(cht: nat) returns (r: Option<Pairs>)
      requires size > 0
      ensures r == Collected(ChangesReader(Contents()), StartNumber(size, cht), size)
    {
      var ix, stored := index, headers;
      var read := (n: nat) => if n in ix && ix[n] in stored then stored[ix[n]].changesTrieRoot else None;
      r := BuildPairs(size, cht, read);
      SameCollected(read, ChangesReader(Contents()), StartNumber(size, cht), size);
    }

    /** The pruning loop of `note_finalized`: from the first to the last height of the new CHT. */
    method PruneReplaced(cht: nat, index1: map<nat, Hash>, headers1: Tree)
      returns (index2: map<nat, Hash>, headers2: Tree)
      requires size > 0
      ensures index2 == index1 - Replaced(Contents(), cht)
      ensures headers2 == headers1 - ReplacedHashes(Contents(), cht)
    {
      index2, headers2 := index1, headers1;
      var n := StartNumber(size, cht);
      ghost var gone: set<nat>, hashes: set<Hash> := {}, {};
      while n <= EndNumber(size, cht)
        invariant StartNumber(size, cht) <= n <= EndNumber(size, cht) + 1
        invariant gone == set m: nat | StartNumber(size, cht) <= m < n && HashAt(Contents(), m).Some?
        invariant hashes == set m | m in gone :: HashAt(Contents(), m).value
        invariant index2 == index1 - gone && headers2 == headers1 - hashes
      {
        var h := Number(n);
        if h.Some? {
          index2, headers2 := index2 - {n}, headers2 - {h.value};
          gone, hashes := gone + {n}, hashes + {h.value};
        }
        n := n + 1;
      }
      assert gone == Replaced(Contents(), cht);
    }

    /** Finds the block that an id means, if its header is stored. */
    method Find(id: BlockId) returns (r: Result<Hash>)
      ensures r == Resolved(Contents(), id)
    {
      match id
      case ByHash(h) => return if h in headers then Ok(h) else Err(UnknownBlock);
      case ByNumber(n) =>
        if n > U32_MAX { return Err(NumberTooLarge); }
        var h := Number(n);
        return if h.Some? then Ok(h.value) else Err(UnknownBlock);
    }

    /** Writes what `NoteFinalized` decided, on top of an index and headers already changed by the same operation. */
    method WriteFinal(h: Hash, number: nat, note: Noted, index1: map<nat, Hash>, headers1: Tree)
      requires size > 0
      modifies this`index, this`headers, this`roots, this`changesRoots, this`finalizedHash, this`finalizedNumber
      ensures finalizedNumber == number
      ensures Contents() == Finalized(old(Contents()), old(Contents()).(index := index1, headers := headers1), h, note)
    {
      var index2, headers2 := index1, headers1;
      if note.root.Some? {
        index2, headers2 := PruneReplaced(note.cht, index1, headers1);
        roots := roots[note.cht := note.root.value];
        if note.changesRoot.Some? { changesRoots := changesRoots[note.cht := note.changesRoot.value]; }
      }
      index, headers, finalizedHash, finalizedNumber := index2, headers2, h, number;
    }

    /** `import_header` for a new child of a known block. */
    method ImportHeader(h: Hash, header: Header, leaf: LeafState) returns (r: Result<()>)
      requires Valid() && h !in tree && header.parent in tree && header.number == tree[header.parent].number + 1
      modifies this
      ensures Valid()
      ensures r.Ok? <==> ImportedHeader(old(Contents()), h, header, leaf).Ok?
      ensures Contents() == if r.Ok? then ImportedHeader(old(Contents()), h, header, leaf).value else old(Contents())
      ensures r.Err? ==> r.error == ImportedHeader(old(Contents()), h, header, leaf).error
    {
      hide MovedLightHead, NotedFinal, Replaced, ReplacedHashes;
      RootedAdd(tree, genesis, h, header);
      if header.number > U32_MAX { return Err(NumberTooLarge); }
      var index1 := index;
      if leaf.IsBest() {
        var moved := MoveHead(header.parent, header.number, h);
        if moved.Err? { return Err(moved.error); }
        index1 := moved.value;
      }
      var note := Noted(None, None, 0);
      if leaf.IsFinal() {
        var noted := NoteFinalized(header);
        if noted.Err? { return Err(noted.error); }
        note := noted.value;
      }
      var headers1 := headers[h := header];
      if leaf.IsFinal() {
        WriteFinal(h, header.number, note, index1, headers1);
      } else {
        index, headers := index1, headers1;
      }
      tree := tree[h := header];
      if leaf.IsBest() { bestHash := h; }
      return Ok(());
    }

    /** `set_head`. */
    method SetHead(id: BlockId) returns (r: Result<()>)
      requires Valid()
      modifies this`index, this`bestHash
      ensures Valid()
      ensures r.Ok? <==> HeadSet(old(Contents()), id).Ok?
      ensures Contents() == if r.Ok? then HeadSet(old(Contents()), id).value else old(Contents())
      ensures r.Err? ==> r.error == HeadSet(old(Contents()), id).error
    {
      var h := Find(id);
      if h.Err? { return Err(h.error); }
      var moved := MoveHead(h.value, headers[h.value].number, h.value);
      if moved.Err? { return Err(moved.error); }
      index, bestHash := moved.value, h.value;
      return Ok(());
    }

    /** `finalize_header`. */
    method FinalizeHeader(id: BlockId) returns (r: Result<()>)
      requires Valid()
      modifies this
      ensures Valid()
      ensures r.Ok? <==> HeaderFinalized(old(Contents()), id).Ok?
      ensures Contents() == if r.Ok? then HeaderFinalized(old(Contents()), id).value else old(Contents())
      ensures r.Err? ==> r.error == HeaderFinalized(old(Contents()), id).error
    {
      var h := Find(id);
      if h.Err? { return Err(h.error); }
      var header := headers[h.value];
      var noted := NoteFinalized(header);
      if noted.Err? { return Err(noted.error); }
      ghost var before := Contents();
      WriteFinal(h.value, header.number, noted.value, index, headers);
      assert before.(index := before.index, headers := before.headers) == before;
      return Ok(());
    }

    /** `read_cht_root` of the header CHTs. */
    method HeaderChtRoot(block: nat) returns (r: Result<Option<Pairs>>)
      requires Valid()
      ensures r == ReadChtRoot(size, roots, tree[finalizedHash].number, block)
    {
      var max := MaxChtNumber(size, finalizedNumber);
      var cht := BlockToCht(size, block);
      if cht.None? { return Err(MissingCht); }
      if max.None? || cht.value > max.value { return Ok(None); }
      if cht.value !in roots { return Err(MissingCht); }
      return Ok(Some(roots[cht.value]));
    }
  }

  lemma {:induction false} SameCollected(a: nat -> Option<Hash>, b: nat -> Option<Hash>, start: nat, count: nat)
    requires forall n :: a(n) == b(n)
    ensures Collected(a, start, count) == Collected(b, start, count)
    decreases count
  {
    if count > 0 { SameCollected(a, b, start, count - 1); }
  }

  lemma SameReader(s: Storage, read: HeaderReader, to: Hash)
    requires Rooted(s.tree, s.genesis) && s.best in s.tree && to in s.tree && forall h :: read(h) == StoredHeader(s, h)
    ensures RouteReadable(read, s.tree, s.genesis, s.best, to) <==>
      RouteReadable(HeaderReaderOf(s), s.tree, s.genesis, s.best, to)
  {
  }
}
