/** The storage of a light node: recent headers, and CHTs in place of the old ones. Whatever it
    finalizes along its best chain, every canonical block stays reachable in exactly one of the two ways.
  */
module Light {
  import opened ChainTree
  import opened Keys
  import opened NodeState
  import opened Cht

  /** `tree` remembers every header ever imported; `headers` are those still stored. A CHT root is a function
      of the entries of its trie, so the entries stand for it. */
  datatype Storage = Storage(size: nat, tree: Tree, genesis: Hash, headers: Tree, index: map<nat, Hash>,
                             roots: map<nat, Pairs>, changesRoots: map<nat, Pairs>, best: Hash, finalized: Hash)

  // ------------------------------------------------------------ the operations

  function StoredHeader(s: Storage, h: Hash): Option<Header> {
    if h in s.headers then Some(s.headers[h]) else None
  }

  function HeaderReaderOf(s: Storage): HeaderReader { (h: Hash) => StoredHeader(s, h) }

  /** `hash(number)`: through the index and the stored header. */
  function HashAt(s: Storage, n: nat): Option<Hash> {
    if n in s.index && s.index[n] in s.headers then Some(s.index[n]) else None
  }

  function ChangesRootAt(s: Storage, n: nat): Option<Hash> {
    match HashAt(s, n)
    case None => None
    case Some(h) => s.headers[h].changesTrieRoot
  }

  function HashReader(s: Storage): nat -> Option<Hash> { (n: nat) => HashAt(s, n) }

  function ChangesReader(s: Storage): nat -> Option<Hash> { (n: nat) => ChangesRootAt(s, n) }

  function Resolved(s: Storage, id: BlockId): Result<Hash> {
    match id
    case ByHash(h) => if h in s.headers then Ok(h) else Err(UnknownBlock)
    case ByNumber(n) =>
      if n > U32_MAX then Err(NumberTooLarge)
      else match HashAt(s, n)
        case None => Err(UnknownBlock)
        case Some(h) => Ok(h)
  }

  /** Moves the head. Only the headers on the route are needed, but all of those. */
  ghost function MovedLightHead(s: Storage, routeTo: Hash, number: nat, best: Hash): Result<map<nat, Hash>>
    requires Rooted(s.tree, s.genesis) && s.best in s.tree
  {
    if number > U32_MAX then Err(NumberTooLarge)
    else if routeTo !in s.tree || !RouteReadable(HeaderReaderOf(s), s.tree, s.genesis, s.best, routeTo)
    then Err(UnknownBlock)
    else
      RouteKnown(s.tree, s.genesis, s.best, routeTo);
      var r := RouteOf(s.tree, s.genesis, s.best, routeTo);
      Ok(Indexed(s.tree, Unindexed(s.tree, s.index, r.retracted), r.enacted)[number := best])
  }

  /** What finalizing a block adds and removes. */
  datatype Noted = Noted(root: Option<Pairs>, changesRoot: Option<Pairs>, cht: nat)

  /** `note_finalized`: refuses a block that is not a child of the finalized one, and builds a CHT when it is time. */
  function NotedFinal(s: Storage, header: Header): Result<Noted>
    requires s.size > 0
  {
    if s.finalized != header.parent then Err(NonSequentialFinalization)
    else if header.number > U32_MAX then Err(NumberTooLarge)
    else match IsBuildRequired(s.size, header.number)
      case None => Ok(Noted(None, None, 0))
      case Some(c) =>
        var start := StartNumber(s.size, c);
        match Collected(HashReader(s), start, s.size)
        case None => Err(MissingHashForCht)
        case Some(pairs) =>
          if header.changesTrieRoot.None? then Ok(Noted(Some(pairs), None, c))
          else match Collected(ChangesReader(s), start, s.size)
            case None => Err(MissingHashForCht)
            case Some(changes) => Ok(Noted(Some(pairs), Some(changes), c))
  }

  /** The heights whose headers a new CHT replaces. */
  function Replaced(s: Storage, cht: nat): set<nat> {
    set n: nat | StartNumber(s.size, cht) <= n <= EndNumber(s.size, cht) && HashAt(s, n).Some?
  }

  /** The blocks that go with them. */
  function ReplacedHashes(s: Storage, cht: nat): set<Hash> {
    set n | n in Replaced(s, cht) :: HashAt(s, n).value
  }

  /** The storage `s1` after the effects of finalizing `h` are written to it. `s` is what was committed before. */
  function Finalized(s: Storage, s1: Storage, h: Hash, note: Noted): Storage {
    if note.root.None? then s1.(finalized := h)
    else
      s1.(finalized := h,
          index := s1.index - Replaced(s, note.cht),
          headers := s1.headers - ReplacedHashes(s, note.cht),
          roots := s1.roots[note.cht := note.root.value],
          changesRoots := if note.changesRoot.Some? then s1.changesRoots[note.cht := note.changesRoot.value]
            else s1.changesRoots)
  }

  /** `import_header` for a block above genesis. */
  ghost function ImportedHeader(s: Storage, h: Hash, header: Header, leaf: LeafState): Result<Storage>
    requires s.size > 0 && Rooted(s.tree, s.genesis) && s.best in s.tree
  {
    if header.number > U32_MAX then Err(NumberTooLarge)
    else
      var moved := if leaf.IsBest() then MovedLightHead(s, header.parent, header.number, h) else Ok(s.index);
      match moved
      case Err(e) => Err(e)
      case Ok(index) =>
        var s1 := s.(tree := s.tree[h := header], headers := s.headers[h := header], index := index,
                     best := if leaf.IsBest() then h else s.best);
        if !leaf.IsFinal() then Ok(s1)
        else match NotedFinal(s, header)
          case Err(e) => Err(e)
          case Ok(note) => Ok(Finalized(s, s1, h, note))
  }

  /** `set_head`. */
  ghost function HeadSet(s: Storage, id: BlockId): Result<Storage>
    requires Rooted(s.tree, s.genesis) && s.best in s.tree
  {
    match Resolved(s, id)
    case Err(e) => Err(e)
    case Ok(h) =>
      match MovedLightHead(s, h, s.headers[h].number, h)
      case Err(e) => Err(e)
      case Ok(index) => Ok(s.(index := index, best := h))
  }

  /** `finalize_header`. */
  function HeaderFinalized(s: Storage, id: BlockId): Result<Storage>
    requires s.size > 0
  {
    match Resolved(s, id)
    case Err(e) => Err(e)
    case Ok(h) =>
      match NotedFinal(s, s.headers[h])
      case Err(e) => Err(e)
      case Ok(note) => Ok(Finalized(s, s, h, note))
  }

  /** `read_cht_root`. */
  function ReadChtRoot(size: nat, roots: map<nat, Pairs>, finalizedNumber: nat, block: nat): Result<Option<Pairs>>
    requires size > 0
  {
    match BlockToCht(size, block)
    case None => Err(MissingCht)
    case Some(c) =>
      match MaxChtNumber(size, finalizedNumber)
      case None => Ok(None)
      case Some(m) => if c > m then Ok(None) else if c in roots then Ok(Some(roots[c])) else Err(MissingCht)
  }

  // ------------------------------------------------------------ what the storage keeps

  ghost function Chts(s: Storage): nat
    requires s.size > 0 && s.finalized in s.tree
  {
    ChtCount(s.size, s.tree[s.finalized].number)
  }

  /** The heights that have been handed over to CHTs are 1 to `Cut`. */
  ghost function Cut(s: Storage): nat
    requires s.size > 0 && s.finalized in s.tree
  {
    Chts(s) * s.size
  }

  predicate Above(cut: nat, n: nat) { n == 0 || n > cut }

  /** The index is the path to `best`, without the heights 1 to `cut`. */
  ghost predicate IndexAbove(t: Tree, g: Hash, best: Hash, index: map<nat, Hash>, cut: nat)
    requires Rooted(t, g) && best in t
  {
    && (forall n: nat :: n in index <==> n <= t[best].number && Above(cut, n))
    && (forall n: nat | n <= t[best].number && Above(cut, n) :: index[n] == Ancestor(t, g, best, n))
  }

  /** Every header is stored, except those of the finalized chain at the heights 1 to `cut`. */
  ghost predicate HeadersAbove(t: Tree, g: Hash, finalized: Hash, headers: Tree, cut: nat)
    requires Rooted(t, g)
  {
    && Extends(headers, t)
    && (forall h | h in t :: h in headers <==> !OnChain(t, g, h, finalized) || Above(cut, t[h].number))
  }

  /** A CHT's entries are the canonical hashes of its range. */
  ghost predicate CanonicalPairs(t: Tree, g: Hash, finalized: Hash, size: nat, cht: nat, pairs: Pairs)
    requires Rooted(t, g) && finalized in t
  {
    && |pairs| == size && EndNumber(size, cht) <= t[finalized].number
    && forall i | 0 <= i < size ::
         pairs[i].0 == StartNumber(size, cht) + i && pairs[i].0 <= t[finalized].number
         && pairs[i].1 == Ancestor(t, g, finalized, pairs[i].0)
  }

  ghost predicate RootsExact(t: Tree, g: Hash, finalized: Hash, size: nat, roots: map<nat, Pairs>, chts: nat)
    requires Rooted(t, g) && finalized in t
  {
    && (forall c: nat :: c in roots <==> c < chts)
    && (forall c | c in roots :: CanonicalPairs(t, g, finalized, size, c, roots[c]))
  }

  ghost predicate Wf(s: Storage) {
    && s.size > 0 && Rooted(s.tree, s.genesis) && s.best in s.tree && s.finalized in s.tree
    && s.tree[s.genesis].parent == DEFAULT_HASH && DEFAULT_HASH !in s.tree
    && OnChain(s.tree, s.genesis, s.finalized, s.best)
    && forall h | h in s.tree :: s.tree[h].number <= U32_MAX
  }

  ghost predicate LightOk(s: Storage) {
    && Wf(s)
    && IndexAbove(s.tree, s.genesis, s.best, s.index, Cut(s))
    && HeadersAbove(s.tree, s.genesis, s.finalized, s.headers, Cut(s))
    && RootsExact(s.tree, s.genesis, s.finalized, s.size, s.roots, Chts(s))
  }

  /** Every canonical block above genesis is either stored or covered by a CHT, and never both. */
  lemma EveryBlockOnce(s: Storage, n: nat)
    requires LightOk(s) && 1 <= n <= s.tree[s.best].number
    ensures HashAt(s, n).Some? <==> BlockToCht(s.size, n).value !in s.roots
    ensures HashAt(s, n).Some? ==> HashAt(s, n).value == Ancestor(s.tree, s.genesis, s.best, n)
    ensures BlockToCht(s.size, n).value in s.roots ==>
      var c := BlockToCht(s.size, n).value; var i := n - StartNumber(s.size, c);
      0 <= i < |s.roots[c]| && s.roots[c][i] == (n, Ancestor(s.tree, s.genesis, s.best, n))
  {
    var c, a := BlockToCht(s.size, n).value, Ancestor(s.tree, s.genesis, s.best, n);
    BlockInItsCht(s.size, n, c);
    CutSeparates(s.size, n, c, Chts(s));
    AncestorOnChain(s.tree, s.genesis, s.best, n);
    if c in s.roots {
      assert CanonicalPairs(s.tree, s.genesis, s.finalized, s.size, c, s.roots[c]);
      Distributes(c, 1, s.size);
      AncestorOfAncestor(s.tree, s.genesis, s.best, s.tree[s.finalized].number, n);
    }
  }

  lemma CutSeparates(size: nat, n: nat, c: nat, chts: nat)
    requires size > 0 && StartNumber(size, c) <= n <= EndNumber(size, c)
    ensures n <= chts * size <==> c < chts
  {
    Distributes(c, 1, size);
    if c < chts { ProductGrows(c + 1, chts, size); } else { ProductGrows(chts, c, size); }
  }

  /** Genesis is never given up. */
  lemma GenesisStays(s: Storage)
    requires LightOk(s)
    ensures HashAt(s, 0) == Some(s.genesis)
  {
    GenesisOnChain(s.tree, s.genesis, s.best);
    assert Ancestor(s.tree, s.genesis, s.best, 0) == s.genesis;
  }

  lemma RootReadable(size: nat, roots: map<nat, Pairs>, finalizedNumber: nat, block: nat)
    requires size > 0 && block > 0
    requires forall c: nat :: c in roots <==> c < ChtCount(size, finalizedNumber)
    ensures var c := BlockToCht(size, block).value;
      ReadChtRoot(size, roots, finalizedNumber, block) ==
        if block <= ChtCount(size, finalizedNumber) * size then Ok(Some(roots[c])) else Ok(None)
    ensures block <= ChtCount(size, finalizedNumber) * size ==> BlockToCht(size, block).value in roots
  {
    var c := BlockToCht(size, block).value;
    BlockInItsCht(size, block, c);
    CutSeparates(size, block, c, ChtCount(size, finalizedNumber));
  }

  /** Reading the CHT root of a block never fails above genesis, and finds one exactly for the blocks not stored. */
  lemma ChtRootsReadable(s: Storage, block: nat)
    requires LightOk(s)
    ensures block > 0 && block <= Cut(s) ==> BlockToCht(s.size, block).value in s.roots
    ensures ReadChtRoot(s.size, s.roots, s.tree[s.finalized].number, block) ==
      if block == 0 then Err(MissingCht)
      else if block <= Cut(s) then Ok(Some(s.roots[BlockToCht(s.size, block).value]))
      else Ok(None)
  {
    hide ChtCount, MaxChtNumber, CanonicalPairs, IndexAbove, HeadersAbove, Ancestor;
    if block > 0 { RootReadable(s.size, s.roots, s.tree[s.finalized].number, block); }
  }
}
