/** What every operation of a light node keeps: the invariant `LightOk`, for any run of imports, head
    switches and finalizations along the best chain.
  */
module LightRuns {
  import opened ChainTree
  import opened Keys
  import opened NodeState
  import opened Cht
  import opened Light

  // ------------------------------------------------------------ moving the head

  lemma AboveFinal(s: Storage, n: nat)
    requires Wf(s) && n >= s.tree[s.finalized].number
    ensures Above(Cut(s), n)
  {
    CoveredBelowFinal(s.size, s.tree[s.finalized].number);
  }

  /** Between two descendants of the finalized block, the route stays at or above it. */
  lemma RouteAboveFinal(t: Tree, g: Hash, f: Hash, from: Hash, to: Hash, h: Hash)
    requires Rooted(t, g) && OnChain(t, g, f, from) && OnChain(t, g, f, to)
    ensures var r := RouteOf(t, g, from, to);
      t[r.common].number >= t[f].number && (h in r.retracted || h in r.enacted ==> h in t && t[h].number > t[f].number)
  {
    CommonAncestorIsLowest(t, g, from, to, f);
    var c := CommonAncestor(t, g, from, to);
    BranchMembers(t, g, c, from, h);
    BranchMembers(t, g, c, to, h);
  }

  /** So all its headers are still stored. */
  lemma RouteStillStored(s: Storage, to: Hash)
    requires LightOk(s) && OnChain(s.tree, s.genesis, s.finalized, to)
    ensures RouteReadable(HeaderReaderOf(s), s.tree, s.genesis, s.best, to)
  {
    var r := RouteOf(s.tree, s.genesis, s.best, to);
    forall h | h == r.common || h in r.retracted || h in r.enacted ensures h in s.headers {
      RouteAboveFinal(s.tree, s.genesis, s.finalized, s.best, to, h);
      AboveFinal(s, s.tree[h].number);
    }
  }

  /** The route re-indexes the heights above the cut. */
  lemma RouteReindexesAbove(t: Tree, g: Hash, from: Hash, to: Hash, index: map<nat, Hash>, cut: nat)
    requires Rooted(t, g) && from in t && to in t && IndexAbove(t, g, from, index, cut)
    requires cut <= t[CommonAncestor(t, g, from, to)].number
    ensures var r := RouteOf(t, g, from, to);
      && (forall h | h in r.retracted :: h in t) && (forall h | h in r.enacted :: h in t)
      && IndexAbove(t, g, to, Indexed(t, Unindexed(t, index, r.retracted), r.enacted), cut)
  {
    var r := RouteOf(t, g, from, to);
    RouteKnown(t, g, from, to);
    var less := Unindexed(t, index, r.retracted);
    var made := Indexed(t, less, r.enacted);
    forall n: nat
      ensures n in made <==> n <= t[to].number && Above(cut, n)
      ensures n <= t[to].number && Above(cut, n) ==> made[n] == Ancestor(t, g, to, n)
    {
      RouteNumbers(t, g, from, to, n);
      UnindexedAt(t, index, r.retracted, n);
      IndexedAt(t, less, r.enacted, n);
    }
  }

  lemma IndexAboveExtends(t: Tree, t': Tree, g: Hash, best: Hash, index: map<nat, Hash>, cut: nat)
    requires Rooted(t, g) && Rooted(t', g) && Extends(t, t') && best in t && IndexAbove(t, g, best, index, cut)
    ensures IndexAbove(t', g, best, index, cut)
  {
    forall n: nat | n <= t[best].number && Above(cut, n) ensures index[n] == Ancestor(t', g, best, n) {
      AncestorExtends(t, t', g, best, n);
    }
  }

  lemma IndexAboveChild(t: Tree, t': Tree, g: Hash, h: Hash, hd: Header, index: map<nat, Hash>, cut: nat)
    requires Rooted(t, g) && h !in t && hd.parent in t && hd.number == t[hd.parent].number + 1 && t' == t[h := hd]
    requires IndexAbove(t, g, hd.parent, index, cut) && Above(cut, hd.number)
    ensures Rooted(t', g) && IndexAbove(t', g, h, index[hd.number := h], cut)
  {
    RootedAdd(t, g, h, hd);
    var made := index[hd.number := h];
    forall n: nat | n <= hd.number && Above(cut, n) ensures made[n] == Ancestor(t', g, h, n) {
      if n < hd.number {
        assert LinkedToParent(t', h);
        AncestorExtends(t, t', g, hd.parent, n);
      }
    }
  }

  lemma HeadersAboveChild(t: Tree, t': Tree, g: Hash, f: Hash, h: Hash, hd: Header, headers: Tree, cut: nat)
    requires Rooted(t, g) && Rooted(t', g) && h !in t && t' == t[h := hd] && f in t
    requires HeadersAbove(t, g, f, headers, cut)
    ensures HeadersAbove(t', g, f, headers[h := hd], cut)
  {
    forall x | x in t' ensures x in headers[h := hd] <==> !OnChain(t', g, x, f) || Above(cut, t'[x].number) {
      OnChainExtends(t, t', g, x, f);
    }
  }

  /** CHT entries stay canonical when the tree grows and finality moves on. */
  lemma CanonicalPairsMove(t: Tree, t': Tree, g: Hash, f: Hash, f': Hash, size: nat, c: nat, pairs: Pairs)
    requires Rooted(t, g) && Rooted(t', g) && Extends(t, t') && f in t && OnChain(t', g, f, f')
    requires CanonicalPairs(t, g, f, size, c, pairs)
    ensures CanonicalPairs(t', g, f', size, c, pairs)
  {
    forall i | 0 <= i < size ensures pairs[i].1 == Ancestor(t', g, f', pairs[i].0) {
      AncestorExtends(t, t', g, f, pairs[i].0);
      AncestorOfAncestor(t', g, f', t[f].number, pairs[i].0);
    }
  }

  lemma RootsExactMove(t: Tree, t': Tree, g: Hash, f: Hash, f': Hash, size: nat, roots: map<nat, Pairs>, chts: nat)
    requires Rooted(t, g) && Rooted(t', g) && Extends(t, t') && f in t && OnChain(t', g, f, f')
    requires RootsExact(t, g, f, size, roots, chts)
    ensures RootsExact(t', g, f', size, roots, chts)
  {
    hide CanonicalPairs;
    forall c | c in roots ensures CanonicalPairs(t', g, f', size, c, roots[c]) {
      CanonicalPairsMove(t, t', g, f, f', size, c, roots[c]);
    }
  }

  // ------------------------------------------------------------ finalizing

  /** `s1` is `s` with a grown tree and a moved head, about to finalize the child `f` of the finalized block. */
  ghost predicate Ready(s: Storage, s1: Storage, f: Hash) {
    && LightOk(s) && Wf(s1) && Extends(s.tree, s1.tree) && s1.genesis == s.genesis && s1.size == s.size
    && s1.finalized == s.finalized && s1.roots == s.roots
    && IndexAbove(s1.tree, s.genesis, s1.best, s1.index, Cut(s))
    && HeadersAbove(s1.tree, s.genesis, s.finalized, s1.headers, Cut(s))
    && f in s1.tree && f != s.genesis && s1.tree[f].parent == s.finalized && OnChain(s1.tree, s.genesis, f, s1.best)
  }

  /** The number of the block about to be finalized. */
  lemma ReadyNumber(s: Storage, s1: Storage, f: Hash)
    requires Ready(s, s1, f)
    ensures s.size > 0 && s.finalized in s.tree && f in s1.tree && s1.tree[f].parent == s.finalized
    ensures s1.tree[f].number == s.tree[s.finalized].number + 1 && s1.tree[f].number <= U32_MAX
    ensures Rooted(s1.tree, s.genesis)
  {
    assert LinkedToParent(s1.tree, f);
  }

  /** The heights above the cut up to the finalized block: every header is still stored. */
  lemma StoredFinalized(s: Storage, s1: Storage, f: Hash, n: nat)
    requires Ready(s, s1, f) && Cut(s) < n <= s.tree[s.finalized].number
    ensures n <= s1.tree[f].number && HashAt(s, n) == Some(Ancestor(s1.tree, s.genesis, f, n))
  {
    assert LinkedToParent(s1.tree, f);
    AncestorOfAncestor(s.tree, s.genesis, s.best, s.tree[s.finalized].number, n);
    AncestorOnChain(s.tree, s.genesis, s.best, n);
    AncestorExtends(s.tree, s1.tree, s.genesis, s.finalized, n);
  }

  /** The header CHT never lacks a hash. */
  lemma HeaderChtComplete(s: Storage, s1: Storage, f: Hash)
    requires Ready(s, s1, f) && IsBuildRequired(s.size, s1.tree[f].number).Some?
    ensures StartNumber(s.size, IsBuildRequired(s.size, s1.tree[f].number).value) == Cut(s) + 1
    ensures IsBuildRequired(s.size, s1.tree[f].number).value == Chts(s)
    ensures Collected(HashReader(s), Cut(s) + 1, s.size).Some?
  {
    hide Ready, IsBuildRequired, Collected, HashAt, ChtCount;
    ReadyNumber(s, s1, f);
    NextCht(s.size, s.tree[s.finalized].number);
    CollectedExact(HashReader(s), Cut(s) + 1, s.size);
    forall n: nat | Cut(s) + 1 <= n < Cut(s) + 1 + s.size ensures HashReader(s)(n).Some?
    {
      StoredFinalized(s, s1, f, n);
    }
  }

  /** Only a missing changes trie root in the range of the new CHT can stop the next block's finalization. */
  lemma FinalizationSucceeds(s: Storage, s1: Storage, f: Hash)
    requires Ready(s, s1, f)
    ensures NotedFinal(s, s1.tree[f]).Ok? <==>
      (IsBuildRequired(s.size, s1.tree[f].number).Some? && s1.tree[f].changesTrieRoot.Some? ==>
         forall n: nat | Cut(s) < n <= Cut(s) + s.size :: ChangesReader(s)(n).Some?)
    ensures NotedFinal(s, s1.tree[f]).Ok? ==> var note := NotedFinal(s, s1.tree[f]).value;
      && (note.root.Some? <==> IsBuildRequired(s.size, s1.tree[f].number).Some?)
      && (note.root.Some? ==> note.cht == Chts(s) && note.root == Collected(HashReader(s), Cut(s) + 1, s.size))
  {
    hide Ready, IsBuildRequired, Collected, HashReader, ChangesReader, ChtCount;
    ReadyNumber(s, s1, f);
    if IsBuildRequired(s.size, s1.tree[f].number).Some? {
      HeaderChtComplete(s, s1, f);
      CollectedExact(ChangesReader(s), Cut(s) + 1, s.size);
    }
  }

  /** Which blocks are on the chain of the new finalized block. */
  lemma OnNewFinal(s: Storage, s1: Storage, f: Hash, h: Hash)
    requires Ready(s, s1, f)
    ensures OnChain(s1.tree, s.genesis, h, f) <==> h == f || OnChain(s1.tree, s.genesis, h, s.finalized)
  {
    OnChainParent(s1.tree, s.genesis, h, f);
  }

  /** Without a new CHT nothing but the finalized block changes. */
  lemma FinalizedQuietly(s: Storage, s1: Storage, f: Hash)
    requires Ready(s, s1, f) && IsBuildRequired(s.size, s1.tree[f].number).None?
    ensures LightOk(s1.(finalized := f))
  {
    var s' := s1.(finalized := f);
    ReadyNumber(s, s1, f);
    ChtCountStep(s.size, s.tree[s.finalized].number);
    AboveFinal(s, s1.tree[f].number);
    hide IsBuildRequired, ChtCount, Ancestor;
    assert Cut(s') == Cut(s);
    forall h | h in s1.tree
      ensures h in s1.headers <==> !OnChain(s1.tree, s.genesis, h, f) || Above(Cut(s), s1.tree[h].number)
    {
      OnNewFinal(s, s1, f, h);
    }
    OnNewFinal(s, s1, f, s.finalized);
    OnNewFinal(s, s1, f, f);
    RootsExactMove(s.tree, s1.tree, s.genesis, s.finalized, f, s.size, s.roots, Chts(s));
  }

  /** The new CHT replaces exactly the heights of its range. */
  lemma ReplacedRange(s: Storage, s1: Storage, f: Hash, n: nat)
    requires Ready(s, s1, f) && IsBuildRequired(s.size, s1.tree[f].number) == Some(Chts(s))
    ensures n in Replaced(s, Chts(s)) <==> Cut(s) < n <= Cut(s) + s.size
  {
    hide Ready, IsBuildRequired, ChtCount, Ancestor, HashAt;
    ReadyNumber(s, s1, f);
    NextCht(s.size, s.tree[s.finalized].number);
    if Cut(s) < n <= Cut(s) + s.size { StoredFinalized(s, s1, f, n); }
  }

  /** The blocks whose headers go with it. */
  lemma ReplacedBlocks(s: Storage, s1: Storage, f: Hash, h: Hash)
    requires Ready(s, s1, f) && IsBuildRequired(s.size, s1.tree[f].number) == Some(Chts(s))
    ensures h in ReplacedHashes(s, Chts(s)) <==>
      OnChain(s1.tree, s.genesis, h, f) && Cut(s) < s1.tree[h].number <= Cut(s) + s.size
  {
    hide Ready, IsBuildRequired, ChtCount, HashAt;
    ReadyNumber(s, s1, f);
    NextCht(s.size, s.tree[s.finalized].number);
    if OnChain(s1.tree, s.genesis, h, f) && Cut(s) < s1.tree[h].number <= Cut(s) + s.size {
      var n := s1.tree[h].number;
      ReplacedRange(s, s1, f, n);
      StoredFinalized(s, s1, f, n);
    }
    if h in ReplacedHashes(s, Chts(s)) {
      var n :| n in Replaced(s, Chts(s)) && HashAt(s, n).value == h;
      ReplacedRange(s, s1, f, n);
      StoredFinalized(s, s1, f, n);
      AncestorOnChain(s1.tree, s.genesis, f, n);
    }
  }

  lemma IndexAfterCht(s: Storage, s1: Storage, f: Hash)
    requires Ready(s, s1, f) && IsBuildRequired(s.size, s1.tree[f].number) == Some(Chts(s))
    ensures IndexAbove(s1.tree, s.genesis, s1.best, s1.index - Replaced(s, Chts(s)), Cut(s) + s.size)
  {
    hide IsBuildRequired, ChtCount, Replaced, Ancestor;
    forall n: nat ensures n in Replaced(s, Chts(s)) <==> Cut(s) < n <= Cut(s) + s.size { ReplacedRange(s, s1, f, n); }
  }

  lemma HeadersAfterCht(s: Storage, s1: Storage, f: Hash)
    requires Ready(s, s1, f) && IsBuildRequired(s.size, s1.tree[f].number) == Some(Chts(s))
    ensures HeadersAbove(s1.tree, s.genesis, f, s1.headers - ReplacedHashes(s, Chts(s)), Cut(s) + s.size)
  {
    hide IsBuildRequired, ChtCount, ReplacedHashes, Ancestor, OnChain;
    ReadyNumber(s, s1, f);
    NextCht(s.size, s.tree[s.finalized].number);
    AboveFinal(s, s1.tree[f].number);
    var gone := ReplacedHashes(s, Chts(s));
    forall h | h in s1.tree
      ensures h in s1.headers - gone <==>
        !OnChain(s1.tree, s.genesis, h, f) || Above(Cut(s) + s.size, s1.tree[h].number)
    {
      ReplacedBlocks(s, s1, f, h);
      OnNewFinal(s, s1, f, h);
    }
  }

  lemma NewPairsCanonical(s: Storage, s1: Storage, f: Hash, pairs: Pairs)
    requires Ready(s, s1, f) && IsBuildRequired(s.size, s1.tree[f].number) == Some(Chts(s))
    requires Collected(HashReader(s), Cut(s) + 1, s.size) == Some(pairs)
    ensures CanonicalPairs(s1.tree, s.genesis, f, s.size, Chts(s), pairs)
  {
    hide Ready, IsBuildRequired, ChtCount, Collected, HashAt;
    ReadyNumber(s, s1, f);
    NextCht(s.size, s.tree[s.finalized].number);
    CollectedExact(HashReader(s), Cut(s) + 1, s.size);
    forall i | 0 <= i < s.size ensures pairs[i].1 == Ancestor(s1.tree, s.genesis, f, pairs[i].0) {
      StoredFinalized(s, s1, f, pairs[i].0);
    }
  }

  lemma RootsAfterCht(s: Storage, s1: Storage, f: Hash, pairs: Pairs)
    requires Ready(s, s1, f) && IsBuildRequired(s.size, s1.tree[f].number) == Some(Chts(s))
    requires Collected(HashReader(s), Cut(s) + 1, s.size) == Some(pairs)
    ensures RootsExact(s1.tree, s.genesis, f, s.size, s.roots[Chts(s) := pairs], Chts(s) + 1)
  {
    hide IsBuildRequired, ChtCount, Collected, HashAt, CanonicalPairs, IndexAbove, HeadersAbove;
    NewPairsCanonical(s, s1, f, pairs);
    OnNewFinal(s, s1, f, s.finalized);
    RootsExactMove(s.tree, s1.tree, s.genesis, s.finalized, f, s.size, s.roots, Chts(s));
  }

  /** Finalizing the next block keeps the storage exact. */
  lemma FinalizedKeeps(s: Storage, s1: Storage, f: Hash)
    requires Ready(s, s1, f) && NotedFinal(s, s1.tree[f]).Ok?
    ensures LightOk(Finalized(s, s1, f, NotedFinal(s, s1.tree[f]).value))
  {
    hide Ready, NotedFinal, IsBuildRequired, Collected, LightOk, ChtCount;
    ReadyNumber(s, s1, f);
    FinalizationSucceeds(s, s1, f);
    var note := NotedFinal(s, s1.tree[f]).value;
    if note.root.None? {
      FinalizedQuietly(s, s1, f);
    } else {
      HeaderChtComplete(s, s1, f);
      FinalizedWithCht(s, s1, f, note);
    }
  }

  lemma WfAfter(s: Storage, s1: Storage, f: Hash, s': Storage)
    requires Ready(s, s1, f)
    requires s'.size == s1.size && s'.tree == s1.tree && s'.genesis == s1.genesis
    requires s'.best == s1.best && s'.finalized == f
    ensures Wf(s')
  {
  }

  lemma FinalizedWithCht(s: Storage, s1: Storage, f: Hash, note: Noted)
    requires Ready(s, s1, f) && IsBuildRequired(s.size, s1.tree[f].number) == Some(Chts(s))
    requires note.root.Some? && note.cht == Chts(s) && note.root == Collected(HashReader(s), Cut(s) + 1, s.size)
    ensures LightOk(Finalized(s, s1, f, note))
  {
    hide Ready, IsBuildRequired, Collected, ChtCount, ReplacedHashes, Replaced, IndexAbove, HeadersAbove, RootsExact,
         LightOk, Wf;
    ReadyShares(s, s1, f);
    ReadyNumber(s, s1, f);
    NextCht(s.size, s.tree[s.finalized].number);
    IndexAfterCht(s, s1, f);
    HeadersAfterCht(s, s1, f);
    RootsAfterCht(s, s1, f, note.root.value);
    var s' := Finalized(s, s1, f, note);
    WfAfter(s, s1, f, s');
    Assemble(s', Cut(s) + s.size, Chts(s) + 1);
  }

  lemma Assemble(s: Storage, cut: nat, chts: nat)
    requires Wf(s) && Chts(s) == chts && cut == chts * s.size
    requires IndexAbove(s.tree, s.genesis, s.best, s.index, cut)
    requires HeadersAbove(s.tree, s.genesis, s.finalized, s.headers, cut)
    requires RootsExact(s.tree, s.genesis, s.finalized, s.size, s.roots, chts)
    ensures LightOk(s)
  {
  }

  lemma ReadyShares(s: Storage, s1: Storage, f: Hash)
    requires Ready(s, s1, f)
    ensures s1.genesis == s.genesis && s1.size == s.size && s1.roots == s.roots && s1.best in s1.tree
  {
  }

  // ------------------------------------------------------------ the three operations

  /** A new child of a known block; a new head descends from the finalized block. */
  ghost predicate ProperImport(s: Storage, h: Hash, header: Header, leaf: LeafState)
    requires Rooted(s.tree, s.genesis)
  {
    && h !in s.tree && h != DEFAULT_HASH && header.parent in s.tree && header.number == s.tree[header.parent].number + 1
    && (leaf.IsBest() ==> OnChain(s.tree, s.genesis, s.finalized, header.parent))
  }

  lemma MovedHeadAbove(s: Storage, to: Hash)
    requires LightOk(s) && OnChain(s.tree, s.genesis, s.finalized, to)
    ensures var r := RouteOf(s.tree, s.genesis, s.best, to);
      && (forall h | h in r.retracted :: h in s.tree) && (forall h | h in r.enacted :: h in s.tree)
      && IndexAbove(s.tree, s.genesis, to, Indexed(s.tree, Unindexed(s.tree, s.index, r.retracted), r.enacted), Cut(s))
  {
    hide IndexAbove, HeadersAbove, RootsExact;
    CommonAncestorIsLowest(s.tree, s.genesis, s.best, to, s.finalized);
    CoveredBelowFinal(s.size, s.tree[s.finalized].number);
    RouteReindexesAbove(s.tree, s.genesis, s.best, to, s.index, Cut(s));
  }

  /** The storage after the header is filed and the head moved, before it is finalized. */
  ghost function Filed(s: Storage, h: Hash, header: Header, leaf: LeafState, index: map<nat, Hash>): Storage {
    s.(tree := s.tree[h := header], headers := s.headers[h := header], index := index,
       best := if leaf.IsBest() then h else s.best)
  }

  lemma FiledWf(s: Storage, h: Hash, header: Header, leaf: LeafState, index: map<nat, Hash>)
    requires Wf(s) && ProperImport(s, h, header, leaf) && header.number <= U32_MAX
    ensures Wf(Filed(s, h, header, leaf, index)) && Extends(s.tree, s.tree[h := header])
  {
    var t' := s.tree[h := header];
    RootedAdd(s.tree, s.genesis, h, header);
    OnChainExtends(s.tree, t', s.genesis, s.finalized, s.best);
    if leaf.IsBest() {
      OnChainExtends(s.tree, t', s.genesis, s.finalized, header.parent);
      OnChainParent(t', s.genesis, s.finalized, h);
    }
  }

  lemma FiledIndex(s: Storage, h: Hash, header: Header, leaf: LeafState, index: map<nat, Hash>)
    requires LightOk(s) && ProperImport(s, h, header, leaf) && header.number <= U32_MAX
    requires leaf.IsBest() ==> MovedLightHead(s, header.parent, header.number, h) == Ok(index)
    requires !leaf.IsBest() ==> index == s.index
    ensures var s1 := Filed(s, h, header, leaf, index);
      && Rooted(s1.tree, s1.genesis) && s1.best in s1.tree
      && IndexAbove(s1.tree, s1.genesis, s1.best, index, Cut(s))
  {
    hide HeadersAbove, RootsExact, RouteReadable;
    FiledWf(s, h, header, leaf, index);
    if leaf.IsBest() {
      MovedHeadAbove(s, header.parent);
      AboveFinal(s, header.number);
      var r := RouteOf(s.tree, s.genesis, s.best, header.parent);
      IndexAboveChild(s.tree, s.tree[h := header], s.genesis, h, header,
                      Indexed(s.tree, Unindexed(s.tree, s.index, r.retracted), r.enacted), Cut(s));
    } else {
      IndexAboveExtends(s.tree, s.tree[h := header], s.genesis, s.best, s.index, Cut(s));
    }
  }

  lemma FiledOk(s: Storage, h: Hash, header: Header, leaf: LeafState, index: map<nat, Hash>)
    requires LightOk(s) && ProperImport(s, h, header, leaf) && header.number <= U32_MAX
    requires leaf.IsBest() ==> MovedLightHead(s, header.parent, header.number, h) == Ok(index)
    requires !leaf.IsBest() ==> index == s.index
    ensures LightOk(Filed(s, h, header, leaf, index))
    ensures leaf.IsFinal() && header.parent == s.finalized ==> Ready(s, Filed(s, h, header, leaf, index), h)
  {
    hide MovedLightHead, IndexAbove, HeadersAbove, RootsExact, ChtCount;
    FiledWf(s, h, header, leaf, index);
    FiledIndex(s, h, header, leaf, index);
    var t' := s.tree[h := header];
    HeadersAboveChild(s.tree, t', s.genesis, s.finalized, h, header, s.headers, Cut(s));
    RootsExactMove(s.tree, t', s.genesis, s.finalized, s.finalized, s.size, s.roots, Chts(s));
  }

  /** Importing a header keeps the storage exact. It fails only for a number too large for the index, or a block to
      be final that is not a child of the finalized block or lacks a changes trie root below it. */
  lemma ImportKeeps(s: Storage, h: Hash, header: Header, leaf: LeafState)
    requires LightOk(s) && ProperImport(s, h, header, leaf)
    ensures ImportedHeader(s, h, header, leaf).Ok? ==> LightOk(ImportedHeader(s, h, header, leaf).value)
    ensures ImportedHeader(s, h, header, leaf).Ok? <==>
      header.number <= U32_MAX && (leaf.IsFinal() ==> NotedFinal(s, header).Ok?)
  {
    hide IndexAbove, HeadersAbove, RootsExact, RouteReadable, NotedFinal, Finalized, Indexed, Unindexed, RouteOf;
    if header.number <= U32_MAX {
      if leaf.IsBest() { RouteStillStored(s, header.parent); }
      var index := if leaf.IsBest() then MovedLightHead(s, header.parent, header.number, h).value else s.index;
      FiledOk(s, h, header, leaf, index);
      if leaf.IsFinal() && NotedFinal(s, header).Ok? {
        NotedParent(s, header);
        FinalizedKeeps(s, Filed(s, h, header, leaf, index), h);
      }
    }
  }

  lemma NotedParent(s: Storage, header: Header)
    requires s.size > 0 && NotedFinal(s, header).Ok?
    ensures header.parent == s.finalized
  {
  }

  lemma ResolvedStored(s: Storage, id: BlockId)
    requires LightOk(s) && Resolved(s, id).Ok?
    ensures var h := Resolved(s, id).value; h in s.tree && h in s.headers && s.headers[h] == s.tree[h]
  {
  }

  /** Switching the head to a descendant of the finalized block always succeeds, and keeps the storage exact. */
  lemma HeadSetKeeps(s: Storage, id: BlockId)
    requires LightOk(s) && Resolved(s, id).Ok? && OnChain(s.tree, s.genesis, s.finalized, Resolved(s, id).value)
    ensures HeadSet(s, id).Ok? && LightOk(HeadSet(s, id).value)
  {
    hide IndexAbove, HeadersAbove, RootsExact, RouteReadable, Indexed, Unindexed, RouteOf, Resolved;
    var h := Resolved(s, id).value;
    ResolvedStored(s, id);
    RouteStillStored(s, h);
    MovedHeadAbove(s, h);
    var r := RouteOf(s.tree, s.genesis, s.best, h);
    var made := Indexed(s.tree, Unindexed(s.tree, s.index, r.retracted), r.enacted);
    OwnEntry(s, h, made);
  }

  /** The head's own entry is already in place when the route ends at it. */
  lemma OwnEntry(s: Storage, h: Hash, index: map<nat, Hash>)
    requires Wf(s) && OnChain(s.tree, s.genesis, s.finalized, h) && IndexAbove(s.tree, s.genesis, h, index, Cut(s))
    ensures index[s.tree[h].number := h] == index
  {
    AboveFinal(s, s.tree[h].number);
  }

  /** Finalizing the next block of the best chain keeps the storage exact. */
  lemma FinalizeKeeps(s: Storage, id: BlockId)
    requires LightOk(s) && HeaderFinalized(s, id).Ok? && OnChain(s.tree, s.genesis, Resolved(s, id).value, s.best)
    ensures LightOk(HeaderFinalized(s, id).value)
  {
    var h := Resolved(s, id).value;
    assert h in s.tree && s.headers[h] == s.tree[h];
    NotedParent(s, s.headers[h]);
    hide IndexAbove, HeadersAbove, RootsExact, NotedFinal, Resolved, Finalized;
    FinalizedKeeps(s, s, h);
  }

  // ------------------------------------------------------------ runs

  datatype Action = Import(hash: Hash, header: Header, leaf: LeafState) | SetHead(id: BlockId) | Finalize(id: BlockId)

  // ------------------------------------------------------------ what an operation ends with

  /** The due changes-trie CHT: one entry for each height of the range, with the root in the header stored there. */
  ghost predicate ChangesCollected(s: Storage, c: nat, pairs: Pairs) {
    |pairs| == s.size && forall i | 0 <= i < s.size ::
      pairs[i].0 == StartNumber(s.size, c) + i && Some(pairs[i].1) == ChangesRootAt(s, pairs[i].0)
  }

  /** A finalized header is the resolved one, a child of the block finalized before; head and tree stay. A changes-trie
      CHT is written exactly when one is due and the header has a changes trie root. */
  lemma FinalizeEnds(s: Storage, id: BlockId)
    requires s.size > 0 && HeaderFinalized(s, id).Ok?
    ensures var s' := HeaderFinalized(s, id).value;
      && Resolved(s, id) == Ok(s'.finalized) && s'.finalized in s.headers
      && s.headers[s'.finalized].parent == s.finalized
      && s'.best == s.best && s'.tree == s.tree && s'.genesis == s.genesis && s'.size == s.size
      && ChangesWritten(s, s.headers[s'.finalized], s'.changesRoots)
  {
    var h := Resolved(s, id).value;
    NotedChanges(s, s.headers[h]);
  }

  ghost predicate ChangesWritten(s: Storage, header: Header, changesRoots: map<nat, Pairs>)
    requires s.size > 0
  {
    match IsBuildRequired(s.size, header.number)
    case None => changesRoots == s.changesRoots
    case Some(c) =>
      if header.changesTrieRoot.None? then changesRoots == s.changesRoots
      else
        && c in changesRoots && changesRoots == s.changesRoots[c := changesRoots[c]]
        && ChangesCollected(s, c, changesRoots[c])
  }

  lemma NotedChanges(s: Storage, header: Header)
    requires s.size > 0 && NotedFinal(s, header).Ok?
    ensures var note := NotedFinal(s, header).value;
      ChangesWritten(s, header, if note.root.Some? && note.changesRoot.Some?
                                then s.changesRoots[note.cht := note.changesRoot.value] else s.changesRoots)
  {
    var due := IsBuildRequired(s.size, header.number);
    if due.Some? && header.changesTrieRoot.Some? {
      CollectedExact(ChangesReader(s), StartNumber(s.size, due.value), s.size);
    }
  }

  /** Only a block that is no child of the finalized one is refused as out of sequence. */
  lemma NotedRefusal(s: Storage, header: Header)
    requires s.size > 0
    ensures NotedFinal(s, header) == Err(NonSequentialFinalization) <==> header.parent != s.finalized
    ensures NotedFinal(s, header) == Err(NumberTooLarge) <==>
      header.parent == s.finalized && header.number >= 0x1_0000_0000
  {
  }

  /** A head that is set is the resolved block; nothing but the index changes with it. */
  lemma HeadEnds(s: Storage, id: BlockId)
    requires Rooted(s.tree, s.genesis) && s.best in s.tree && HeadSet(s, id).Ok?
    ensures var s' := HeadSet(s, id).value;
      && Resolved(s, id) == Ok(s'.best)
      && s' == s.(best := s'.best, index := s'.index)
  {
    hide MovedLightHead;
  }

  /** An imported header is stored under its hash. It becomes the head exactly when it is marked best or final, and
      the finalized block exactly when it is marked final; no other header goes unless it is final. */
  lemma ImportEnds(s: Storage, h: Hash, header: Header, leaf: LeafState)
    requires s.size > 0 && Rooted(s.tree, s.genesis) && s.best in s.tree && s.finalized in s.tree && h !in s.tree
    requires s.headers.Keys <= s.tree.Keys && ImportedHeader(s, h, header, leaf).Ok?
    ensures var s' := ImportedHeader(s, h, header, leaf).value;
      && s'.tree == s.tree[h := header] && h in s'.headers && s'.headers[h] == header
      && s'.best == (if leaf == Best || leaf == Final then h else s.best)
      && s'.finalized == (if leaf == Final then h else s.finalized)
      && (leaf == Normal ==> s'.index == s.index)
      && (leaf != Final ==>
            && s'.headers == s.headers[h := header] && s'.roots == s.roots
            && s'.changesRoots == s.changesRoots)
      && (leaf == Final ==> header.parent == s.finalized && ChangesWritten(s, header, s'.changesRoots))
  {
    hide MovedLightHead, NotedFinal, ChangesWritten;
    if leaf == Final {
      NotedParent(s, header);
      NotedChanges(s, header);
      assert h !in s.headers;
      assert h !in ReplacedHashes(s, NotedFinal(s, header).value.cht);
    }
  }

  /** The assumptions of a run: real new blocks, heads on descendants of the finalized block, finality along the best
      chain. */
  ghost predicate Allowed(s: Storage, a: Action)
    requires Wf(s)
  {
    match a
    case Import(h, header, leaf) => ProperImport(s, h, header, leaf)
    case SetHead(id) => Resolved(s, id).Ok? ==> OnChain(s.tree, s.genesis, s.finalized, Resolved(s, id).value)
    case Finalize(id) => Resolved(s, id).Ok? ==> OnChain(s.tree, s.genesis, Resolved(s, id).value, s.best)
  }

  ghost function Outcome(s: Storage, a: Action): Result<Storage>
    requires Wf(s)
  {
    match a
    case Import(h, header, leaf) => ImportedHeader(s, h, header, leaf)
    case SetHead(id) => HeadSet(s, id)
    case Finalize(id) => HeaderFinalized(s, id)
  }

  /** A failed action leaves the storage as it was. */
  ghost function After(s: Storage, a: Action): Storage
    requires Wf(s)
  {
    if Outcome(s, a).Ok? then Outcome(s, a).value else s
  }

  lemma ActionKeeps(s: Storage, a: Action)
    requires LightOk(s) && Allowed(s, a)
    ensures LightOk(After(s, a))
  {
    hide IndexAbove, HeadersAbove, RootsExact, ImportedHeader, HeadSet, Resolved;
    match a
    case Import(h, header, leaf) => ImportKeeps(s, h, header, leaf);
    case SetHead(id) => if HeadSet(s, id).Ok? { ResolvedIfSet(s, id); HeadSetKeeps(s, id); }
    case Finalize(id) => if HeaderFinalized(s, id).Ok? { FinalizeKeeps(s, id); }
  }

  lemma ResolvedIfSet(s: Storage, id: BlockId)
    requires Wf(s) && HeadSet(s, id).Ok?
    ensures Resolved(s, id).Ok?
  {
  }

  ghost predicate IsRun(ss: seq<Storage>, actions: seq<Action>) {
    && |ss| == |actions| + 1 && Initial(ss[0])
    && forall i | 0 <= i < |actions| :: Wf(ss[i]) && Allowed(ss[i], actions[i]) && ss[i + 1] == After(ss[i], actions[i])
  }

  /** A storage with genesis alone. */
  ghost predicate Initial(s: Storage) {
    && s.size > 0 && s.tree.Keys == {s.genesis} && s.tree[s.genesis].number == 0
    && s.tree[s.genesis].parent == DEFAULT_HASH
    && s.genesis != DEFAULT_HASH && s.best == s.genesis && s.finalized == s.genesis
    && s.headers == s.tree && s.index == map[0 := s.genesis] && s.roots == map[] && s.changesRoots == map[]
  }

  lemma InitialOk(s: Storage)
    requires Initial(s)
    ensures LightOk(s)
  {
  }

  lemma {:induction false} RunKeeps(ss: seq<Storage>, actions: seq<Action>, i: nat)
    requires IsRun(ss, actions) && i < |ss|
    ensures LightOk(ss[i])
  {
    if i == 0 {
      InitialOk(ss[0]);
    } else {
      RunKeeps(ss, actions, i - 1);
      ActionKeeps(ss[i - 1], actions[i - 1]);
    }
  }

  /** In every state of every run, a canonical height above genesis is stored, or covered by a CHT that holds its
      canonical hash, but not both; the CHTs are exactly those up to the newest one; genesis is there. */
  lemma CoverageIsExact(ss: seq<Storage>, actions: seq<Action>, i: nat, n: nat)
    requires IsRun(ss, actions) && i < |ss|
    ensures var s := ss[i];
      && Wf(s) && HashAt(s, 0) == Some(s.genesis)
      && (forall c: nat :: c in s.roots <==> MaxChtNumber(s.size, s.tree[s.finalized].number).Some?
                                             && c <= MaxChtNumber(s.size, s.tree[s.finalized].number).value)
      && (1 <= n <= s.tree[s.best].number ==>
            var c := BlockToCht(s.size, n).value; var a := Ancestor(s.tree, s.genesis, s.best, n);
            && (HashAt(s, n).Some? <==> c !in s.roots)
            && (HashAt(s, n).Some? ==> HashAt(s, n).value == a)
            && (c in s.roots ==> (n, a) in s.roots[c]))
  {
    RunKeeps(ss, actions, i);
    var s := ss[i];
    CountIsMaxPlusOne(s.size, s.tree[s.finalized].number);
    GenesisStays(s);
    if 1 <= n <= s.tree[s.best].number { EveryBlockOnce(s, n); }
  }

  lemma CountIsMaxPlusOne(size: nat, block: nat)
    requires size > 0
    ensures ChtCount(size, block) == if MaxChtNumber(size, block).None? then 0 else MaxChtNumber(size, block).value + 1
  {
  }
}
