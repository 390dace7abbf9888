/** Changes tries: which header an anchored lookup reads, and the loop that prunes old digest ranges. */
module ChangesTries {
  import opened ChainTree
  import opened Keys
  import opened NodeState

  // ------------------------------------------------------------ anchored lookup

  datatype Anchor = Anchor(hash: Hash, number: nat)

  /** The parent walk: follow `steps` parent links, every header on the way being known. */
  function Walk(s: Node, h: Hash, steps: nat): Result<Hash>
    decreases steps
  {
    if steps == 0 then Ok(h)
    else if h !in s.tree then Err(UnknownBlock)
    else Walk(s, s.tree[h].parent, steps - 1)
  }

  lemma {:induction false} WalkIsAncestor(s: Node, h: Hash, n: nat)
    requires Rooted(s.tree, s.genesis) && h in s.tree && n <= s.tree[h].number
    ensures Walk(s, h, s.tree[h].number - n) == Ok(Ancestor(s.tree, s.genesis, h, n))
    decreases s.tree[h].number
  {
    if n < s.tree[h].number {
      assert LinkedToParent(s.tree, h);
      WalkIsAncestor(s, s.tree[h].parent, n);
    }
  }

  method WalkBack(s: Node, anchor: Anchor, block: nat) returns (r: Result<Hash>)
    requires block <= anchor.number
    ensures r == Walk(s, anchor.hash, anchor.number - block)
  {
    var currentNumber, currentHash := anchor.number, anchor.hash;
    while currentNumber != block
      invariant block <= currentNumber <= anchor.number
      invariant Walk(s, currentHash, currentNumber - block) == Walk(s, anchor.hash, anchor.number - block)
      decreases currentNumber
    {
      if currentHash !in s.tree { return Err(UnknownBlock); }
      currentHash := s.tree[currentHash].parent;
      currentNumber := currentNumber - 1;
    }
    r := Ok(currentHash);
  }

  /** The anchor names a known block with its number, a descendant of the finalized block, which is itself on the best
      chain. */
  ghost predicate Anchored(s: Node, anchor: Anchor)
    requires NodeOk(s)
  {
    && anchor.hash in s.tree && s.tree[anchor.hash].number == anchor.number
    && OnChain(s.tree, s.genesis, s.finalized, s.best)
    && OnChain(s.tree, s.genesis, s.finalized, anchor.hash)
  }

  lemma IndexedIsAncestor(s: Node, n: nat)
    requires NodeOk(s) && n <= s.tree[s.best].number
    ensures Resolve(s, ByNumber(n)) == Ok(Ancestor(s.tree, s.genesis, s.best, n))
  {
  }

  /** At a finalized height the best chain and the anchor's chain have the same block. */
  lemma FinalizedHeight(s: Node, anchor: Anchor, block: nat)
    requires NodeOk(s) && Anchored(s, anchor) && block <= s.tree[s.finalized].number
    ensures Resolve(s, ByNumber(block)) == Ok(Ancestor(s.tree, s.genesis, anchor.hash, block))
  {
    IndexedIsAncestor(s, block);
    AncestorOfAncestor(s.tree, s.genesis, s.best, s.tree[s.finalized].number, block);
    AncestorOfAncestor(s.tree, s.genesis, anchor.hash, s.tree[s.finalized].number, block);
  }

  /** An anchor found at its own height in the index is on the best chain, and so are its ancestors. */
  lemma CanonicalAnchor(s: Node, anchor: Anchor, block: nat)
    requires NodeOk(s) && anchor.hash in s.tree && s.tree[anchor.hash].number == anchor.number && block <= anchor.number
    requires Resolve(s, ByNumber(anchor.number)) == Ok(anchor.hash)
    ensures Resolve(s, ByNumber(block)) == Ok(Ancestor(s.tree, s.genesis, anchor.hash, block))
  {
    IndexedIsAncestor(s, anchor.number);
    IndexedIsAncestor(s, block);
    AncestorOfAncestor(s.tree, s.genesis, s.best, anchor.number, block);
  }

  /** The block whose header a lookup at height `block` under `anchor` reads: by number where the block is final
      or the anchor canonical, and by the parent walk otherwise. */
  function RootBlock(s: Node, anchor: Anchor, block: nat): Result<Hash>
    requires s.finalized in s.tree
  {
    if block > anchor.number then Err(AboveAnchor)
    else if block <= s.tree[s.finalized].number then Resolve(s, ByNumber(block))
    else
      match Resolve(s, ByNumber(anchor.number))
      case Err(e) => Err(e)
      case Ok(canonical) =>
        if canonical == anchor.hash then Resolve(s, ByNumber(block))
        else
          match Walk(s, anchor.hash, anchor.number - block)
          case Err(e) => Err(e)
          case Ok(h) => Resolve(s, ByHash(h))
  }

  /** Both fast paths and the walk lead to the anchor's ancestor. A lookup above the finalized height needs an
      anchor no higher than the best block. */
  lemma RootIsAncestor(s: Node, anchor: Anchor, block: nat)
    requires NodeOk(s) && Anchored(s, anchor) && block <= anchor.number
    ensures RootBlock(s, anchor, block) ==
      if block <= s.tree[s.finalized].number || anchor.number <= s.tree[s.best].number
      then Ok(Ancestor(s.tree, s.genesis, anchor.hash, block)) else Err(UnknownBlock)
  {
    if block <= s.tree[s.finalized].number {
      FinalizedHeight(s, anchor, block);
    } else if anchor.number <= s.tree[s.best].number {
      IndexedIsAncestor(s, anchor.number);
      if Resolve(s, ByNumber(anchor.number)).value == anchor.hash {
        CanonicalAnchor(s, anchor, block);
      } else {
        WalkIsAncestor(s, anchor.hash, block);
      }
    }
  }

  /** Genesis 1 with the best block 2 and a longer side chain 3-4: the ancestor of 4 at height 1 is known, and the
      lookup under the anchor 4 fails. */
  lemma KnownAncestorCanBeMissed()
    ensures exists s: Node, anchor: Anchor, block: nat ::
      && NodeOk(s) && Anchored(s, anchor) && block <= anchor.number
      && Ancestor(s.tree, s.genesis, anchor.hash, block) in s.tree
      && RootBlock(s, anchor, block) == Err(UnknownBlock)
  {
    var t: Tree := map[1 := Header(0, 0, None), 2 := Header(1, 1, None), 3 := Header(1, 1, None),
                       4 := Header(2, 3, None)];
    var s := Node(t, 1, map[0 := 1, 1 := 2], map[], 2, 1, None);
    assert LinkedToParent(t, 2) && LinkedToParent(t, 3) && LinkedToParent(t, 4);
    assert Ancestor(t, 1, 2, 0) == 1 && Ancestor(t, 1, 2, 1) == 2;
    assert Ancestor(t, 1, 3, 0) == 1 && Ancestor(t, 1, 4, 0) == Ancestor(t, 1, 3, 0);
    assert NodeOk(s) && Anchored(s, Anchor(4, 2));
    RootIsAncestor(s, Anchor(4, 2), 1);
    assert RootBlock(s, Anchor(4, 2), 1) == Err(UnknownBlock);
  }

  /** `root`: the changes trie root in the header of the block looked up. */
  method Root(s: Node, anchor: Anchor, block: nat) returns (r: Result<Option<Hash>>)
    requires NodeOk(s)
    ensures match RootBlock(s, anchor, block)
      case Err(e) => r == Err(e)
      case Ok(h) => h in s.tree && r == Ok(s.tree[h].changesTrieRoot)
    ensures block <= anchor.number && Anchored(s, anchor) && r.Ok? ==>
      r.value == s.tree[Ancestor(s.tree, s.genesis, anchor.hash, block)].changesTrieRoot
  {
    if block <= anchor.number && Anchored(s, anchor) { RootIsAncestor(s, anchor, block); }
    if block > anchor.number { return Err(AboveAnchor); }
    var id: BlockId;
    if block <= s.tree[s.finalized].number {
      id := ByNumber(block);
    } else {
      var atAnchor := Resolve(s, ByNumber(anchor.number));
      if atAnchor.Err? { return Err(atAnchor.error); }
      if atAnchor.value == anchor.hash {
        id := ByNumber(block);
      } else {
        var walked := WalkBack(s, anchor, block);
        if walked.Err? { return Err(walked.error); }
        id := ByHash(walked.value);
      }
    }
    var found := Resolve(s, id);
    if found.Err? { return Err(found.error); }
    r := Ok(s.tree[found.value].changesTrieRoot);
  }

  // ------------------------------------------------------------ digest ranges

  datatype Configuration = Configuration(digestInterval: nat, digestLevels: nat)

  /** The fields are 32 bits wide. */
  type Config = c: Configuration | c.digestInterval <= U32_MAX && c.digestLevels <= U32_MAX witness Configuration(0, 0)

  predicate IsDigestBuildEnabled(c: Config) { c.digestInterval > 1 && c.digestLevels > 0 }

  function Pow(b: nat, e: nat): nat { if e == 0 then 1 else b * Pow(b, e - 1) }

  lemma {:induction false} PowPositive(b: nat, e: nat)
    requires b > 0
    ensures Pow(b, e) > 0
  {
    if e > 0 { PowPositive(b, e - 1); }
  }

  /** The interval of the highest digest level, at most `level`, that fits in 32 bits. */
  function MaxInterval(c: Config, level: nat): nat
    requires level > 0
  {
    if level == 1 || Pow(c.digestInterval, level) <= U32_MAX then Pow(c.digestInterval, level)
    else MaxInterval(c, level - 1)
  }

  /** It is a power of the interval, fits, and no higher level up to the configured one does. */
  lemma {:induction false} MaxIntervalIsHighest(c: Config, level: nat) returns (l: nat)
    requires IsDigestBuildEnabled(c) && level > 0
    ensures 0 < l <= level && MaxInterval(c, level) == Pow(c.digestInterval, l)
    ensures 0 < Pow(c.digestInterval, l) <= U32_MAX
    ensures forall k | l < k <= level :: Pow(c.digestInterval, k) > U32_MAX
  {
    PowPositive(c.digestInterval, level);
    if level == 1 || Pow(c.digestInterval, level) <= U32_MAX {
      l := level;
      assert Pow(c.digestInterval, 1) == c.digestInterval * Pow(c.digestInterval, 0);
    } else {
      l := MaxIntervalIsHighest(c, level - 1);
    }
  }

  method MaxDigestInterval(c: Config) returns (r: nat)
    ensures r == if IsDigestBuildEnabled(c) then MaxInterval(c, c.digestLevels) else 1
    ensures 0 < r <= U32_MAX
  {
    if !IsDigestBuildEnabled(c) { return 1; }
    var currentLevel := c.digestLevels;
    ghost var highest := MaxIntervalIsHighest(c, c.digestLevels);
    while Pow(c.digestInterval, currentLevel) > U32_MAX
      invariant highest <= currentLevel <= c.digestLevels
      invariant MaxInterval(c, currentLevel) == MaxInterval(c, c.digestLevels)
      decreases currentLevel
    {
      currentLevel := currentLevel - 1;
    }
    r := Pow(c.digestInterval, currentLevel);
  }

  lemma DigestsBelow(d: nat, interval: nat)
    requires interval > 0
    ensures (d / interval) * interval <= d < (d / interval) * interval + interval
    ensures d / interval >= 1 <==> d >= interval
    ensures d / interval >= 1 ==> (d / interval - 1) * interval == (d / interval) * interval - interval
  {
    assert d == (d / interval) * interval + d % interval;
  }

  /** The range of `interval` blocks, counted from `zero`, that covers `block`. */
  function RangeOf(zero: nat, block: nat, interval: nat): (nat, nat)
    requires zero < block && interval > 0
  {
    DigestsBelow(block - zero, interval);
    var digests := (block - zero) / interval;
    if digests == 0 then (zero + 1, zero + interval)
    else
      var last := zero + digests * interval;
      if block == last then (block - interval + 1, block) else (last + 1, last + interval)
  }

  /** The range of blocks, both ends included, of the highest digest that covers `at`. */
  function NextMaxLevelDigestRange(c: Config, zero: nat, at: nat): Option<(nat, nat)> {
    if !IsDigestBuildEnabled(c) then None
    else
      MaxIntervalPositive(c);
      Some(RangeOf(zero, if at <= zero then zero + 1 else at, MaxInterval(c, c.digestLevels)))
  }

  lemma MaxIntervalPositive(c: Config)
    requires IsDigestBuildEnabled(c)
    ensures 0 < MaxInterval(c, c.digestLevels) <= U32_MAX
  {
    var _ := MaxIntervalIsHighest(c, c.digestLevels);
  }

  function Times(k: nat, interval: nat): nat { k * interval }

  ghost predicate Aligned(zero: nat, begin: nat, interval: nat)
  {
    exists k: nat :: begin == zero + Times(k, interval) + 1
  }

  /** The range has the length of the interval, starts a whole number of intervals after `zero`, and covers
      the block. */
  lemma RangeCovers(zero: nat, block: nat, interval: nat)
    requires zero < block && interval > 0
    ensures var (begin, end) := RangeOf(zero, block, interval);
      zero < begin <= block <= end && end - begin + 1 == interval && Aligned(zero, begin, interval)
  {
    DigestsBelow(block - zero, interval);
    var digests := (block - zero) / interval;
    var k: nat := if digests != 0 && block == zero + digests * interval then digests - 1 else digests;
    assert RangeOf(zero, block, interval).0 == zero + Times(k, interval) + 1;
  }

  // ------------------------------------------------------------ the list of configurations

  /** A block named by number and hash. */
  datatype BlockRef = BlockRef(number: nat, hash: Hash)

  /** A value of the list as it is stored, and as it is found: the entry before it, the block it is valid from. */
  datatype StorageEntry = StorageEntry(prev: Option<BlockRef>, value: Option<Config>)
  datatype Entry = Entry(validFrom: BlockRef, value: Option<Config>)

  type EntryStore = map<BlockRef, StorageEntry>

  /** Entries point back to entries of earlier blocks. */
  ghost predicate Linked(store: EntryStore) {
    forall id | id in store && store[id].prev.Some? :: store[id].prev.value.number < id.number
  }

  /** What a search finds: an entry, and the block from which the next one is valid. */
  datatype Found = Found(entry: Entry, next: Option<BlockRef>)

  /** The way back in time from `current`, after passing `next`. */
  function Searched(store: EntryStore, current: BlockRef, next: Option<BlockRef>, block: nat): Result<Option<Found>>
    requires Linked(store)
    decreases current.number
  {
    if current !in store then Err(MissingEntry)
    else if block >= current.number then Ok(Some(Found(Entry(current, store[current].value), next)))
    else
      match store[current].prev
      case None => Ok(None)
      case Some(prev) => Searched(store, prev, Some(current), block)
  }

  /** `search_best_before`: the youngest entry of the list under `head` that is valid at `block`. */
  function BestBefore(store: EntryStore, head: Entry, block: nat): Result<Option<Found>>
    requires Linked(store)
  {
    if block >= head.validFrom.number then Ok(Some(Found(head, None)))
    else Searched(store, head.validFrom, None, block)
  }

  /** `block` lies between the entry found and the one after it, which is its neighbour in the list. */
  ghost predicate Straddles(store: EntryStore, found: Found, block: nat) {
    && found.entry.validFrom.number <= block
    && (found.next.Some? ==>
          && block < found.next.value.number
          && found.next.value in store && store[found.next.value].prev == Some(found.entry.validFrom))
  }

  lemma {:induction false} SearchedStraddles(store: EntryStore, current: BlockRef, next: Option<BlockRef>, block: nat)
    requires Linked(store) && Searched(store, current, next, block).Ok?
    requires Searched(store, current, next, block).value.Some?
    requires next.Some? ==> next.value in store && store[next.value].prev == Some(current) && block < next.value.number
    ensures Straddles(store, Searched(store, current, next, block).value.value, block)
    ensures Searched(store, current, next, block).value.value.entry.validFrom.number <= current.number
    decreases current.number
  {
    if block < current.number { SearchedStraddles(store, store[current].prev.value, Some(current), block); }
  }

  /** A configuration found for a block is valid at it, and the next one is not yet. */
  lemma BestStraddles(store: EntryStore, head: Entry, block: nat)
    requires Linked(store) && BestBefore(store, head, block).Ok? && BestBefore(store, head, block).value.Some?
    ensures Straddles(store, BestBefore(store, head, block).value.value, block)
  {
    if block < head.validFrom.number { SearchedStraddles(store, head.validFrom, None, block); }
  }

  /** `id` is reached from `head` by going back. */
  ghost predicate OnList(store: EntryStore, head: BlockRef, id: BlockRef)
    requires Linked(store)
    decreases head.number
  {
    head == id || (head in store && store[head].prev.Some? && OnList(store, store[head].prev.value, id))
  }

  lemma {:induction false} SearchedOnList(store: EntryStore, current: BlockRef, next: Option<BlockRef>, block: nat)
    requires Linked(store) && Searched(store, current, next, block).Ok?
    requires Searched(store, current, next, block).value.Some?
    ensures OnList(store, current, Searched(store, current, next, block).value.value.entry.validFrom)
    decreases current.number
  {
    if block < current.number { SearchedOnList(store, store[current].prev.value, Some(current), block); }
  }

  lemma {:induction false} SearchedNoOlder(store: EntryStore, current: BlockRef, next: Option<BlockRef>, block: nat,
                                           id: BlockRef)
    requires Linked(store) && OnList(store, current, id) && id.number <= block
    requires Searched(store, current, next, block).Ok? && Searched(store, current, next, block).value.Some?
    ensures id.number <= Searched(store, current, next, block).value.value.entry.validFrom.number
    decreases current.number
  {
    if block < current.number {
      SearchedNoOlder(store, store[current].prev.value, Some(current), block, id);
    } else {
      OnListBelow(store, current, id);
    }
  }

  lemma {:induction false} OnListBelow(store: EntryStore, head: BlockRef, id: BlockRef)
    requires Linked(store) && OnList(store, head, id)
    ensures id.number <= head.number
    decreases head.number
  {
    if head != id { OnListBelow(store, store[head].prev.value, id); }
  }

  /** The search finds the youngest entry: none of the list that is valid at the block is younger. */
  lemma BestIsYoungest(store: EntryStore, head: Entry, block: nat, id: BlockRef)
    requires Linked(store) && BestBefore(store, head, block).Ok? && BestBefore(store, head, block).value.Some?
    ensures OnList(store, head.validFrom, BestBefore(store, head, block).value.value.entry.validFrom)
    ensures OnList(store, head.validFrom, id) && id.number <= block ==>
      id.number <= BestBefore(store, head, block).value.value.entry.validFrom.number
  {
    if block < head.validFrom.number {
      SearchedOnList(store, head.validFrom, None, block);
      if OnList(store, head.validFrom, id) && id.number <= block {
        SearchedNoOlder(store, head.validFrom, None, block, id);
      }
    } else if OnList(store, head.validFrom, id) {
      OnListBelow(store, head.validFrom, id);
    }
  }

  method SearchBestBefore(store: EntryStore, head: Entry, block: nat) returns (r: Result<Option<Found>>)
    requires Linked(store)
    ensures r == BestBefore(store, head, block)
    ensures r.Ok? && r.value.Some? ==> Straddles(store, r.value.value, block)
  {
    if BestBefore(store, head, block).Ok? && BestBefore(store, head, block).value.Some? {
      BestStraddles(store, head, block);
    }
    if block >= head.validFrom.number { return Ok(Some(Found(head, None))); }
    var next: Option<BlockRef>, current := None, head.validFrom;
    while true
      invariant Searched(store, current, next, block) == BestBefore(store, head, block)
      decreases current.number
    {
      if current !in store { return Err(MissingEntry); }
      var entry := store[current];
      if block >= current.number { return Ok(Some(Found(Entry(current, entry.value), next))); }
      next := Some(current);
      if entry.prev.None? { return Ok(None); }
      current := entry.prev.value;
    }
  }

  /** The configuration cache: the stored entries, the youngest final one, and the head of the list to search for
      a block above the cache's last final block. */
  datatype Configurations = Configurations(store: EntryStore, finalizedNumber: nat, finalizedHead: Option<Entry>,
                                           isFinalized: Hash -> bool, headAbove: Hash -> Result<Option<Entry>>)

  /** The list that is searched for the block `h` at height `n`. */
  function HeadFor(c: Configurations, h: Hash, n: nat): Result<Option<Entry>> {
    if n > c.finalizedNumber then c.headAbove(h)
    else if c.isFinalized(h) then Ok(c.finalizedHead)
    else Err(NotInFinalizedChain)
  }

  /** A configuration with the block it counts from and the block from which another one is valid. */
  datatype ConfigurationRange = ConfigurationRange(zero: nat, end: Option<nat>, config: Option<Config>)

  /** `configuration_at`. */
  function ConfigurationAt(s: Node, c: Configurations, h: Hash): Result<ConfigurationRange>
    requires Linked(c.store)
  {
    if h !in s.tree then Err(UnknownBlock)
    else
      match HeadFor(c, h, s.tree[h].number)
      case Err(e) => Err(e)
      case Ok(None) => Err(MissingConfiguration)
      case Ok(Some(head)) =>
        match BestBefore(c.store, head, s.tree[h].number)
        case Err(e) => Err(e)
        case Ok(None) => Err(MissingConfiguration)
        case Ok(Some(found)) =>
          var end := if found.next.Some? then Some(found.next.value.number) else None;
          Ok(ConfigurationRange(found.entry.validFrom.number, end, found.entry.value))
  }

  lemma ConfigurationStraddles(s: Node, c: Configurations, h: Hash)
    requires Linked(c.store) && ConfigurationAt(s, c, h).Ok?
    ensures h in s.tree
    ensures var r := ConfigurationAt(s, c, h).value;
      r.zero <= s.tree[h].number && (r.end.Some? ==> s.tree[h].number < r.end.value)
  {
    BestStraddles(c.store, HeadFor(c, h, s.tree[h].number).value.value, s.tree[h].number);
  }

  // ------------------------------------------------------------ pruning

  /** The finalization of block `hash` at height `block`: the node before it, the configuration cache, and the block's
      own header and configuration when the same transaction imports it. */
  datatype Finalization = Finalization(node: Node, configs: Configurations, block: nat, hash: Hash,
                                       newHeader: Option<Header>, newConfig: Option<Option<Config>>)

  datatype TriesMeta = TriesMeta(oldest: Option<(nat, nat)>, prunedEnd: nat)

  /** The block is known at its height, or is a new child of a known one. */
  ghost predicate Wf(f: Finalization) {
    && NodeOk(f.node) && Linked(f.configs.store)
    && match f.newHeader
       case None => f.hash in f.node.tree && f.node.tree[f.hash].number == f.block
       case Some(header) =>
         header.number == f.block && header.parent in f.node.tree && f.node.tree[header.parent].number + 1 == f.block
  }

  function NextConfig(f: Finalization, start: nat): Result<ConfigurationRange>
    requires Wf(f)
  {
    match if f.block == start then Ok(f.hash) else Resolve(f.node, ByNumber(start))
    case Err(e) => Err(e)
    case Ok(h) =>
      if f.newHeader.Some? && f.newHeader.value.number == start then
        if f.newConfig.Some? then Ok(ConfigurationRange(f.block, None, f.newConfig.value))
        else ConfigurationAt(f.node, f.configs, f.newHeader.value.parent)
      else ConfigurationAt(f.node, f.configs, h)
  }

  /** The configuration found for a start counts from it or from an earlier block and is still valid there. */
  lemma ConfigurationReaches(f: Finalization, start: nat)
    requires Wf(f) && NextConfig(f, start).Ok?
    ensures var c := NextConfig(f, start).value; c.zero <= start && (c.end.Some? ==> start <= c.end.value)
    ensures f.newHeader.None? || start != f.block ==>
      var c := NextConfig(f, start).value; c.end.Some? ==> start < c.end.value
  {
    if f.newHeader.Some? && start == f.block {
      if f.newConfig.None? { ConfigurationStraddles(f.node, f.configs, f.newHeader.value.parent); }
    } else {
      var h := if f.block == start then f.hash else Resolve(f.node, ByNumber(start)).value;
      assert f.node.tree[h].number == start;
      ConfigurationStraddles(f.node, f.configs, h);
    }
  }

  /** The next range to keep from `start` on; `Ok(None)` where changes tries are switched off. */
  function NextRange(f: Finalization, start: nat): Result<Option<(nat, nat)>>
    requires Wf(f)
  {
    match NextConfig(f, start)
    case Err(e) => Err(e)
    case Ok(c) =>
      if c.config.None? then Ok(None)
      else
        var digest := NextMaxLevelDigestRange(c.config.value, c.zero, start);
        var range := if digest.Some? then digest.value else (start, start);
        Ok(Some(if c.end.Some? && c.end.value < range.1 then (range.0, c.end.value) else range))
  }

  lemma DigestRange(f: Finalization, start: nat)
    requires Wf(f) && NextRange(f, start).Ok? && NextRange(f, start).value.Some?
    ensures var r, c := NextRange(f, start).value.value, NextConfig(f, start).value;
      && c.config.Some? && c.zero <= start <= r.1 && r.0 <= r.1
      && (if IsDigestBuildEnabled(c.config.value) && c.zero == start then r.0 == start + 1 else r.0 <= start)
      && (r.0 == start || c.zero < r.0)
  {
    hide Wf;
    var c := NextConfig(f, start).value;
    ConfigurationReaches(f, start);
    if IsDigestBuildEnabled(c.config.value) {
      MaxIntervalPositive(c.config.value);
      RangeCovers(c.zero, if start <= c.zero then c.zero + 1 else start,
                  MaxInterval(c.config.value, c.config.value.digestLevels));
      NewConfigurationIsOpen(f, start);
    }
  }

  /** A configuration that begins at the asked block does not end there. */
  lemma NewConfigurationIsOpen(f: Finalization, start: nat)
    requires Wf(f) && NextConfig(f, start).Ok?
    ensures var c := NextConfig(f, start).value; c.zero == start && c.end.Some? ==> start < c.end.value
  {
    ConfigurationReaches(f, start);
    if f.newHeader.Some? && start == f.block && f.newConfig.None? {
      ConfigurationStraddles(f.node, f.configs, f.newHeader.value.parent);
    }
  }

  /** What the next range is. Where digests are made it starts a whole number of the highest level's intervals after the
      block the configuration counts from and has that interval's length, unless the configuration ends before; where
      none are made it is the asked block alone; where tries are switched off there is none. */
  lemma NextRangeExact(f: Finalization, start: nat) returns (level: nat)
    requires Wf(f)
    ensures NextRange(f, start).Err? <==> NextConfig(f, start).Err?
    ensures NextRange(f, start).Err? ==> NextRange(f, start).error == NextConfig(f, start).error
    ensures NextRange(f, start) == Ok(None) <==> NextConfig(f, start).Ok? && NextConfig(f, start).value.config.None?
    ensures NextRange(f, start).Ok? && NextRange(f, start).value.Some? ==>
      var (begin, end), c := NextRange(f, start).value.value, NextConfig(f, start).value;
      var config := c.config.value;
      if !(config.digestInterval > 1 && config.digestLevels > 0) then begin == start && end == start
      else
        var interval := Pow(config.digestInterval, level);
        && 0 < level <= config.digestLevels && interval <= U32_MAX
        && (forall k | level < k <= config.digestLevels :: Pow(config.digestInterval, k) > U32_MAX)
        && Aligned(c.zero, begin, interval)
        && end == (if c.end.Some? && c.end.value < begin + interval - 1 then c.end.value else begin + interval - 1)
  {
    hide Wf;
    level := 0;
    var next := NextConfig(f, start);
    if next.Ok? && next.value.config.Some? {
      var c := next.value;
      ConfigurationReaches(f, start);
      if IsDigestBuildEnabled(c.config.value) {
        level := MaxIntervalIsHighest(c.config.value, c.config.value.digestLevels);
        RangeCovers(c.zero, if start <= c.zero then c.zero + 1 else start,
                    MaxInterval(c.config.value, c.config.value.digestLevels));
      }
    }
  }

  /** Where the configuration for a start comes from: from the new block itself if it sets one, from the new block's
      parent otherwise, and for any other start from the block of the best chain at that height. */
  lemma ConfigurationSource(f: Finalization, start: nat)
    requires Wf(f)
    ensures f.newHeader.Some? && start == f.block && f.newConfig.Some? ==>
      NextConfig(f, start) == Ok(ConfigurationRange(start, None, f.newConfig.value))
    ensures f.newHeader.Some? && start == f.block && f.newConfig.None? ==>
      NextConfig(f, start) == ConfigurationAt(f.node, f.configs, f.newHeader.value.parent)
    ensures f.newHeader.None? && start == f.block ==> NextConfig(f, start) == ConfigurationAt(f.node, f.configs, f.hash)
    ensures start != f.block && start <= U32_MAX && start <= f.node.tree[f.node.best].number ==>
      NextConfig(f, start) ==
        ConfigurationAt(f.node, f.configs, Ancestor(f.node.tree, f.node.genesis, f.node.best, start))
    ensures start != f.block && start > f.node.tree[f.node.best].number ==> NextConfig(f, start).Err?
  {
    if start != f.block && start <= f.node.tree[f.node.best].number { IndexedIsAncestor(f.node, start); }
  }

  /** What a configuration lookup returns: the value and the first block of the youngest entry that is valid at the
      block, on the list searched for it, and the first block of the entry after it. */
  lemma ConfigurationFound(s: Node, c: Configurations, h: Hash) returns (head: Entry, entry: BlockRef)
    requires Linked(c.store) && ConfigurationAt(s, c, h).Ok?
    ensures h in s.tree && (s.tree[h].number <= c.finalizedNumber ==> c.isFinalized(h) && c.finalizedHead == Some(head))
    ensures s.tree[h].number > c.finalizedNumber ==> c.headAbove(h) == Ok(Some(head))
    ensures OnList(c.store, head.validFrom, entry) && entry.number <= s.tree[h].number
    ensures forall id | OnList(c.store, head.validFrom, id) && id.number <= s.tree[h].number ::
      id.number <= entry.number
    ensures var r := ConfigurationAt(s, c, h).value;
      && r.zero == entry.number
      && (if entry == head.validFrom then r.end == None && r.config == head.value
          else entry in c.store && r.config == c.store[entry].value && r.end.Some?)
  {
    var n := s.tree[h].number;
    head := HeadFor(c, h, n).value.value;
    var found := BestBefore(c.store, head, n).value.value;
    entry := found.entry.validFrom;
    BestStraddles(c.store, head, n);
    forall id | OnList(c.store, head.validFrom, id) && id.number <= n ensures id.number <= entry.number {
      BestIsYoungest(c.store, head, n, id);
    }
    BestIsYoungest(c.store, head, n, entry);
    if n < head.validFrom.number { SearchedValue(c.store, head.validFrom, None, n); }
  }

  lemma {:induction false} SearchedNext(store: EntryStore, current: BlockRef, next: Option<BlockRef>, block: nat)
    requires Linked(store) && Searched(store, current, next, block).Ok?
    requires Searched(store, current, next, block).value.Some? && next.Some?
    ensures Searched(store, current, next, block).value.value.next.Some?
    decreases current.number
  {
    if block < current.number { SearchedNext(store, store[current].prev.value, Some(current), block); }
  }

  lemma {:induction false} SearchedValue(store: EntryStore, current: BlockRef, next: Option<BlockRef>, block: nat)
    requires Linked(store) && Searched(store, current, next, block).Ok?
    requires Searched(store, current, next, block).value.Some?
    ensures var found := Searched(store, current, next, block).value.value;
      && found.entry.validFrom in store && found.entry.value == store[found.entry.validFrom].value
      && found.entry.validFrom.number <= block
      && (block < current.number ==> found.next.Some?)
    decreases current.number
  {
    if block < current.number {
      SearchedValue(store, store[current].prev.value, Some(current), block);
      SearchedNext(store, store[current].prev.value, Some(current), block);
    }
  }

  /** The next range reaches the asked start, which is why pruning gets on and ends. */
  lemma NextRangeReaches(f: Finalization, start: nat)
    requires Wf(f) && NextRange(f, start).Ok? && NextRange(f, start).value.Some?
    ensures NextRange(f, start).value.value.0 <= NextRange(f, start).value.value.1
    ensures NextRange(f, start).value.value.1 >= start
  {
    DigestRange(f, start);
  }

  /** No configuration with digests begins at the block `start`. */
  predicate CoversStart(f: Finalization, start: nat)
    requires Wf(f)
  {
    var c := NextConfig(f, start);
    !(c.Ok? && c.value.config.Some? && IsDigestBuildEnabled(c.value.config.value) && c.value.zero == start)
  }

  /** The next range leaves out the asked start exactly when a configuration with digests begins there. */
  lemma NextRangeBegins(f: Finalization, start: nat)
    requires Wf(f) && NextRange(f, start).Ok? && NextRange(f, start).value.Some?
    ensures NextRange(f, start).value.value.0 <= start <==> CoversStart(f, start)
    ensures !CoversStart(f, start) ==> NextRange(f, start).value.value.0 == start + 1
  {
    DigestRange(f, start);
  }

  datatype Outcome = Outcome(meta: TriesMeta, removed: seq<(nat, nat)>, result: Result<()>)

  function Remaining(m: TriesMeta, f: Finalization): nat {
    if m.oldest.None? then 1 else if m.oldest.value.1 >= f.block then 0 else f.block - m.oldest.value.1
  }

  predicate Kept(m: TriesMeta, keep: nat, f: Finalization) {
    m.oldest.Some? && (f.block <= m.oldest.value.1 || f.block - m.oldest.value.1 <= keep)
  }

  /** What `prune` does: ranges that are old enough are removed one after the other. */
  function Pruning(m: TriesMeta, keep: nat, f: Finalization): Outcome
    requires Wf(f)
    decreases Remaining(m, f)
  {
    if Kept(m, keep, f) then Outcome(m, [], Ok(()))
    else
      var removed := if m.oldest.Some? then [m.oldest.value] else [];
      var m' := if m.oldest.Some? then m.(prunedEnd := m.oldest.value.1) else m;
      var start := if m.oldest.Some? then m.oldest.value.1 + 1 else f.block;
      match NextRange(f, start)
      case Err(e) => Outcome(m', removed, Err(e))
      case Ok(None) => Outcome(m'.(oldest := None), removed, Ok(()))
      case Ok(Some(next)) =>
        NextRangeReaches(f, start);
        var rest := Pruning(m'.(oldest := Some(next)), keep, f);
        Outcome(rest.meta, removed + rest.removed, rest.result)
  }

  lemma PruningUnfolds(m: TriesMeta, keep: nat, f: Finalization)
    requires Wf(f)
    ensures Kept(m, keep, f) ==> Pruning(m, keep, f) == Outcome(m, [], Ok(()))
    ensures !Kept(m, keep, f) ==>
      var removed := if m.oldest.Some? then [m.oldest.value] else [];
      var m' := if m.oldest.Some? then m.(prunedEnd := m.oldest.value.1) else m;
      var next := NextRange(f, if m.oldest.Some? then m.oldest.value.1 + 1 else f.block);
      && (next.Err? ==> Pruning(m, keep, f) == Outcome(m', removed, Err(next.error)))
      && (next.Ok? && next.value.None? ==> Pruning(m, keep, f) == Outcome(m'.(oldest := None), removed, Ok(())))
      && (next.Ok? && next.value.Some? ==>
            var rest := Pruning(m'.(oldest := next.value), keep, f);
            Pruning(m, keep, f) == Outcome(rest.meta, removed + rest.removed, rest.result))
  {
  }

  /** What is known of the metadata when `last` was the last finalized block. */
  ghost predicate MetaOk(m: TriesMeta, last: nat) {
    && m.prunedEnd <= last
    && (m.oldest.Some? ==> m.prunedEnd <= m.oldest.value.1 && m.oldest.value.0 <= m.oldest.value.1)
  }

  /** Nothing within `keep` blocks of the finalized block is removed, the ranges come in order,
      what is left after a success is young enough, and the pruned end only moves up. */
  lemma {:induction false} PruningSafe(m: TriesMeta, keep: nat, f: Finalization)
    requires Wf(f) && MetaOk(m, f.block)
    ensures var o := Pruning(m, keep, f);
      && (forall i | 0 <= i < |o.removed| :: o.removed[i].1 + keep < f.block)
      && (forall i, j | 0 <= i < j < |o.removed| :: o.removed[i].1 < o.removed[j].1)
      && (o.result.Ok? && o.meta.oldest.Some? ==> Kept(o.meta, keep, f))
      && o.meta.prunedEnd == (if o.removed == [] then m.prunedEnd else o.removed[|o.removed| - 1].1)
      && m.prunedEnd <= o.meta.prunedEnd && MetaOk(o.meta, f.block)
      && (m.oldest.Some? && o.removed != [] ==> o.removed[0] == m.oldest.value)
      && (m.oldest.None? ==> o.removed == [])
    decreases Remaining(m, f)
  {
    hide Pruning, NextRange, Wf;
    PruningUnfolds(m, keep, f);
    if !Kept(m, keep, f) {
      var m' := if m.oldest.Some? then m.(prunedEnd := m.oldest.value.1) else m;
      var start := if m.oldest.Some? then m.oldest.value.1 + 1 else f.block;
      var next := NextRange(f, start);
      if next.Ok? && next.value.Some? {
        NextRangeReaches(f, start);
        PruningSafe(m'.(oldest := next.value), keep, f);
      }
    }
  }

  /** Range `i` is the one that follows range `i - 1`. */
  ghost predicate Follows(f: Finalization, removed: seq<(nat, nat)>, i: nat)
    requires Wf(f) && 0 < i < |removed|
  {
    NextRange(f, removed[i - 1].1 + 1) == Ok(Some(removed[i]))
  }

  /** No configuration with digests begins right after range `i - 1`. */
  ghost predicate Touches(f: Finalization, removed: seq<(nat, nat)>, i: nat)
    requires Wf(f) && 0 < i < |removed|
  {
    CoversStart(f, removed[i - 1].1 + 1)
  }

  /** The removed ranges follow one another, and so does the range that is kept after them. */
  lemma {:induction false} PruningFollows(m: TriesMeta, keep: nat, f: Finalization)
    requires Wf(f)
    ensures var o := Pruning(m, keep, f);
      && (forall i | 0 < i < |o.removed| :: Follows(f, o.removed, i))
      && (m.oldest.Some? && o.removed != [] ==> o.removed[0] == m.oldest.value)
      && (m.oldest.Some? && o.removed != [] && o.result.Ok? ==> NextRange(f, o.meta.prunedEnd + 1) == Ok(o.meta.oldest))
      && (o.removed == [] ==> o.meta.prunedEnd == m.prunedEnd && (m.oldest.Some? ==> o.meta.oldest == m.oldest))
      && (m.oldest.None? && o.result.Ok? ==> NextRange(f, f.block) == Ok(o.meta.oldest))
      && (m.oldest.None? && o.result.Err? ==> NextRange(f, f.block) == Err(o.result.error) && o.meta == m)
      && (m.oldest.Some? && o.result.Err? ==> NextRange(f, o.meta.prunedEnd + 1) == Err(o.result.error))
    decreases Remaining(m, f)
  {
    hide Pruning, NextRange, Wf;
    PruningUnfolds(m, keep, f);
    if !Kept(m, keep, f) {
      var m' := if m.oldest.Some? then m.(prunedEnd := m.oldest.value.1) else m;
      var start := if m.oldest.Some? then m.oldest.value.1 + 1 else f.block;
      var next := NextRange(f, start);
      if next.Ok? && next.value.Some? {
        NextRangeReaches(f, start);
        PruningFollows(m'.(oldest := next.value), keep, f);
        if m.oldest.None? { PruningUnfolds(m'.(oldest := next.value), keep, f); }
        var rest := Pruning(m'.(oldest := next.value), keep, f).removed;
        FollowsPrepended(f, m.oldest, rest);
        assert Pruning(m, keep, f).removed == Prepended(m.oldest, rest);
      }
    }
  }

  function Prepended(first: Option<(nat, nat)>, rest: seq<(nat, nat)>): seq<(nat, nat)> {
    if first.Some? then [first.value] + rest else rest
  }

  lemma FollowsPrepended(f: Finalization, first: Option<(nat, nat)>, rest: seq<(nat, nat)>)
    requires Wf(f) && forall i | 0 < i < |rest| :: Follows(f, rest, i)
    requires first.Some? && rest != [] ==> NextRange(f, first.value.1 + 1) == Ok(Some(rest[0]))
    ensures forall i | 0 < i < |Prepended(first, rest)| :: Follows(f, Prepended(first, rest), i)
  {
    hide Wf, NextRange;
    var all := Prepended(first, rest);
    forall i | 0 < i < |all| ensures Follows(f, all, i) {
      if first.Some? && i > 1 {
        assert Follows(f, rest, i - 1);
        assert all[i] == rest[i - 1] && all[i - 1] == rest[i - 2];
      }
      if first.None? { assert Follows(f, rest, i); assert all == rest; }
    }
  }

  /** Each removed range, and the one that is kept after them, begins no later than right after the range before it
      exactly when no configuration with digests begins there. */
  lemma PruningGaps(m: TriesMeta, keep: nat, f: Finalization)
    requires Wf(f)
    ensures var o := Pruning(m, keep, f);
      && (forall i | 0 < i < |o.removed| :: o.removed[i].0 <= o.removed[i - 1].1 + 1 <==> Touches(f, o.removed, i))
      && (m.oldest.Some? && o.removed != [] && o.result.Ok? && o.meta.oldest.Some? ==>
            (o.meta.oldest.value.0 <= o.meta.prunedEnd + 1 <==> CoversStart(f, o.meta.prunedEnd + 1)))
  {
    hide Pruning, NextRange, Wf, CoversStart;
    PruningFollows(m, keep, f);
    var o := Pruning(m, keep, f);
    forall i | 0 < i < |o.removed| ensures o.removed[i].0 <= o.removed[i - 1].1 + 1 <==> Touches(f, o.removed, i) {
      assert Follows(f, o.removed, i);
      NextRangeBegins(f, o.removed[i - 1].1 + 1);
    }
    if m.oldest.Some? && o.removed != [] && o.result.Ok? && o.meta.oldest.Some? {
      NextRangeBegins(f, o.meta.prunedEnd + 1);
    }
  }

  ghost predicate InRange(removed: seq<(nat, nat)>, b: nat) {
    exists i | 0 <= i < |removed| :: removed[i].0 <= b <= removed[i].1
  }

  /** Every block from the beginning of the oldest range up to the pruned end is in a removed range. */
  ghost predicate LeavesNothing(o: Outcome) {
    o.removed != [] ==> forall b: nat | o.removed[0].0 <= b <= o.meta.prunedEnd :: InRange(o.removed, b)
  }

  /** No configuration with digests begins right after a removed range, up to the last one. */
  ghost predicate AllTouch(f: Finalization, removed: seq<(nat, nat)>)
    requires Wf(f)
  {
    forall i | 0 < i < |removed| :: Touches(f, removed, i)
  }

  /** Ranges that touch leave nothing between them. */
  lemma TouchingLeavesNothing(m: TriesMeta, keep: nat, f: Finalization, b: nat)
    requires Wf(f) && MetaOk(m, f.block) && AllTouch(f, Pruning(m, keep, f).removed)
    requires var o := Pruning(m, keep, f); o.removed != [] && o.removed[0].0 <= b <= o.meta.prunedEnd
    ensures InRange(Pruning(m, keep, f).removed, b)
  {
    hide Pruning, Wf, Touches;
    PruningSafe(m, keep, f);
    PruningGaps(m, keep, f);
    var removed := Pruning(m, keep, f).removed;
    var i := 0;
    while removed[i].1 < b
      invariant 0 <= i < |removed| && removed[i].0 <= b
      invariant b <= removed[|removed| - 1].1
    {
      i := i + 1;
      assert Touches(f, removed, i);
    }
  }

  /** The entry found for height `n` is on the list that is searched for height `m`. */
  ghost predicate SameHistory(f: Finalization, n: nat, m: nat)
    requires Wf(f)
  {
    n <= m < f.block && NextConfig(f, n).Ok? && NextConfig(f, m).Ok? ==>
      OnList(f.configs.store, HeadAt(f, m).validFrom, FoundAt(f, n).entry.validFrom)
  }

  /** The head of the list searched for a height below the finalized block, and what is found there. */
  ghost function HeadAt(f: Finalization, n: nat): Entry
    requires Wf(f) && n < f.block && NextConfig(f, n).Ok?
  {
    HeadFor(f.configs, Resolve(f.node, ByNumber(n)).value, n).value.value
  }

  ghost function FoundAt(f: Finalization, n: nat): Found
    requires Wf(f) && n < f.block && NextConfig(f, n).Ok?
  {
    BestBefore(f.configs.store, HeadAt(f, n), n).value.value
  }

  /** The lists that are searched along the finalized chain are parts of one history of configurations. */
  ghost predicate OneHistory(f: Finalization)
    requires Wf(f)
  {
    forall n: nat, m: nat :: SameHistory(f, n, m)
  }

  /** So they are, being one list, where the cache knows the blocks below the finalized one as final. */
  lemma FinalBlocksShareHistory(f: Finalization)
    requires Wf(f) && f.block <= f.configs.finalizedNumber + 1
    ensures OneHistory(f)
  {
    forall n: nat, m: nat ensures SameHistory(f, n, m) {
      if n <= m < f.block && NextConfig(f, n).Ok? && NextConfig(f, m).Ok? {
        BestIsYoungest(f.configs.store, HeadAt(f, n), n, HeadAt(f, n).validFrom);
      }
    }
  }

  lemma ZeroMonotone(f: Finalization, n: nat, m: nat)
    requires Wf(f) && OneHistory(f) && n <= m < f.block && NextConfig(f, n).Ok? && NextConfig(f, m).Ok?
    ensures NextConfig(f, n).value.zero <= NextConfig(f, m).value.zero
  {
    assert SameHistory(f, n, m);
    BestStraddles(f.configs.store, HeadAt(f, n), n);
    BestIsYoungest(f.configs.store, HeadAt(f, m), m, FoundAt(f, n).entry.validFrom);
  }

  /** The block between two ranges that do not touch is in none of the later ranges either. */
  lemma SkippedForGood(m: TriesMeta, keep: nat, f: Finalization, i: nat, k: nat)
    requires Wf(f) && OneHistory(f) && MetaOk(m, f.block)
    requires var o := Pruning(m, keep, f); 0 < i <= k < |o.removed| && !Touches(f, o.removed, i)
    ensures var o := Pruning(m, keep, f); o.removed[i - 1].1 + 1 < o.removed[k].0
  {
    hide Pruning, Wf, NextRange, NextConfig, OneHistory;
    PruningSafe(m, keep, f);
    PruningFollows(m, keep, f);
    var removed := Pruning(m, keep, f).removed;
    assert Follows(f, removed, i) && Follows(f, removed, k);
    var b, start := removed[i - 1].1 + 1, removed[k - 1].1 + 1;
    DigestRange(f, b);
    DigestRange(f, start);
    RangeHasConfig(f, b);
    RangeHasConfig(f, start);
    ZeroMonotone(f, b, start);
  }

  lemma RangeHasConfig(f: Finalization, start: nat)
    requires Wf(f) && NextRange(f, start).Ok?
    ensures NextConfig(f, start).Ok?
  {
  }

  /** A call leaves nothing behind if and only if no configuration with digests begins right after a range that it
      removes and before another one. */
  lemma NothingLeftBehind(m: TriesMeta, keep: nat, f: Finalization)
    requires Wf(f) && OneHistory(f) && MetaOk(m, f.block)
    ensures LeavesNothing(Pruning(m, keep, f)) <==> AllTouch(f, Pruning(m, keep, f).removed)
  {
    hide Pruning, Wf, Touches, OneHistory;
    var o := Pruning(m, keep, f);
    PruningSafe(m, keep, f);
    if AllTouch(f, o.removed) {
      forall b: nat | o.removed != [] && o.removed[0].0 <= b <= o.meta.prunedEnd ensures InRange(o.removed, b) {
        TouchingLeavesNothing(m, keep, f, b);
      }
    } else {
      var i :| 0 < i < |o.removed| && !Touches(f, o.removed, i);
      OldestIsRange(m, keep, f);
      forall k | 0 <= k < |o.removed| ensures !(o.removed[k].0 <= o.removed[i - 1].1 + 1 <= o.removed[k].1) {
        if k >= i { SkippedForGood(m, keep, f, i, k); }
        else { assert k == i - 1 || o.removed[k].1 < o.removed[i - 1].1; }
      }
      assert !InRange(o.removed, o.removed[i - 1].1 + 1);
      assert o.removed[0].0 <= o.removed[i - 1].1 + 1 <= o.removed[i].1 <= o.meta.prunedEnd;
    }
  }

  lemma OldestIsRange(m: TriesMeta, keep: nat, f: Finalization)
    requires Wf(f) && MetaOk(m, f.block) && Pruning(m, keep, f).removed != []
    ensures Pruning(m, keep, f).removed[0].0 <= Pruning(m, keep, f).removed[0].1
  {
    hide Pruning, Wf;
    PruningSafe(m, keep, f);
  }

  /** Metadata over a run of finalizations at rising heights. */
  ghost predicate IsRun(ms: seq<TriesMeta>, keep: nat, fs: seq<Finalization>) {
    && |ms| == |fs| + 1
    && ms[0] == TriesMeta(None, 0)
    && (forall i | 0 <= i < |fs| :: Wf(fs[i]) && ms[i + 1] == Pruning(ms[i], keep, fs[i]).meta)
    && (forall i | 0 < i < |fs| :: fs[i - 1].block <= fs[i].block)
  }

  lemma {:induction false} RunMetaOk(ms: seq<TriesMeta>, keep: nat, fs: seq<Finalization>, i: nat)
    requires IsRun(ms, keep, fs) && i < |fs|
    ensures MetaOk(ms[i], fs[i].block)
  {
    if i > 0 {
      RunMetaOk(ms, keep, fs, i - 1);
      PruningSafe(ms[i - 1], keep, fs[i - 1]);
    }
  }

  /** One call removes nothing above the pruned end that it leaves. */
  lemma RemovedBelowEnd(m: TriesMeta, keep: nat, f: Finalization)
    requires Wf(f) && MetaOk(m, f.block)
    ensures var o := Pruning(m, keep, f);
      forall k | 0 <= k < |o.removed| :: o.removed[k].1 <= o.meta.prunedEnd && o.removed[k].1 + keep < f.block
  {
    hide Pruning, Wf;
    PruningSafe(m, keep, f);
  }

  /** Over a run the pruned end never goes down, and every range that a call set out to remove is at or below it. */
  lemma {:induction false} PrunedEndNeverDecreases(ms: seq<TriesMeta>, keep: nat, fs: seq<Finalization>, i: nat, j: nat)
    requires IsRun(ms, keep, fs) && i < j < |ms|
    ensures ms[i].prunedEnd <= ms[j].prunedEnd
    ensures var removed := Pruning(ms[i], keep, fs[i]).removed;
      forall k | 0 <= k < |removed| :: removed[k].1 <= ms[j].prunedEnd && removed[k].1 + keep < fs[i].block
    decreases j
  {
    hide Pruning, Wf;
    RunMetaOk(ms, keep, fs, j - 1);
    PruningSafe(ms[j - 1], keep, fs[j - 1]);
    if j > i + 1 {
      PrunedEndNeverDecreases(ms, keep, fs, i, j - 1);
    } else {
      RemovedBelowEnd(ms[i], keep, fs[i]);
    }
  }

  // ------------------------------------------------------------ a block that is left behind

  /** Heights 0 to 5 in a line, the hash being the height plus one, all but the last finalized. */
  function LineTree(): Tree {
    map[1 := Header(0, 0, None), 2 := Header(1, 1, None), 3 := Header(2, 2, None),
        4 := Header(3, 3, None), 5 := Header(4, 4, None), 6 := Header(5, 5, None)]
  }

  function Line(): Node {
    Node(LineTree(), 1, map[0 := 1, 1 := 2, 2 := 3, 3 := 4, 4 := 5, 5 := 6], map[], 6, 5, None)
  }

  lemma LineRooted()
    ensures Rooted(LineTree(), 1)
  {
    forall h | h in LineTree() && h != 1 ensures LinkedToParent(LineTree(), h) {}
  }

  lemma {:induction false} LineAncestor(h: Hash, n: nat)
    requires 1 <= h <= 6 && n < h
    ensures Rooted(LineTree(), 1) && Ancestor(LineTree(), 1, h, n) == n + 1
    decreases h
  {
    LineRooted();
    if n < h - 1 {
      assert LinkedToParent(LineTree(), h);
      LineAncestor(h - 1, n);
    }
  }

  lemma LineOk()
    ensures NodeOk(Line())
  {
    hide Rooted, Ancestor;
    LineRooted();
    forall n: nat | n <= 5 ensures Line().index[n] == Ancestor(LineTree(), 1, 6, n) { LineAncestor(6, n); }
  }

  /** No digests from genesis on, and digests of two blocks from block 2 on. */
  function TwoConfigurations(): Configurations {
    var first, second := BlockRef(0, 1), BlockRef(2, 3);
    var head := Entry(second, Some(Configuration(2, 1)));
    Configurations(map[first := StorageEntry(None, Some(Configuration(0, 0))),
                       second := StorageEntry(Some(first), head.value)],
                   4, Some(head), (h: Hash) => true, (h: Hash) => Ok(Some(head)))
  }

  /** The finalization of block 5. */
  function LastOfLine(): Finalization { Finalization(Line(), TwoConfigurations(), 5, 6, None, None) }

  lemma LineRanges()
    ensures Wf(LastOfLine())
    ensures NextRange(LastOfLine(), 1) == Ok(Some((1, 1)))
    ensures NextRange(LastOfLine(), 2) == Ok(Some((3, 4))) && !CoversStart(LastOfLine(), 2)
    ensures NextRange(LastOfLine(), 5) == Ok(Some((5, 6)))
  {
    hide NodeOk;
    LineOk();
    var f := LastOfLine();
    assert Pow(2, 1) == 2 * Pow(2, 0);
    assert NextConfig(f, 1) == Ok(ConfigurationRange(0, Some(2), Some(Configuration(0, 0))));
    assert NextConfig(f, 2) == Ok(ConfigurationRange(2, None, Some(Configuration(2, 1))));
    assert NextConfig(f, 5) == Ok(ConfigurationRange(2, None, Some(Configuration(2, 1))));
  }

  /** With no further block to keep, block 1 and the range 3 to 4 are removed, and the tries of block 2, below the
      pruned end 4, are left behind. */
  lemma BlockCanBeLeftBehind()
    ensures var f := LastOfLine();
      && Wf(f) && NextRange(f, 1) == Ok(Some((1, 1)))
      && var o := Pruning(TriesMeta(Some((1, 1)), 0), 0, f);
         && o.removed == [(1, 1), (3, 4)] && o.meta == TriesMeta(Some((5, 6)), 4) && o.result.Ok?
         && !InRange(o.removed, 2) && !LeavesNothing(o)
  {
    hide NextRange, Wf, Pruning;
    LineRanges();
    var f := LastOfLine();
    PruningUnfolds(TriesMeta(Some((1, 1)), 0), 0, f);
    PruningUnfolds(TriesMeta(Some((3, 4)), 1), 0, f);
    PruningUnfolds(TriesMeta(Some((5, 6)), 4), 0, f);
    var o := Pruning(TriesMeta(Some((1, 1)), 0), 0, f);
    assert o.removed == [(1, 1), (3, 4)];
    assert !InRange(o.removed, 2);
  }

  // ------------------------------------------------------------ calls whose transaction is dropped

  /** Nothing at or below `p` will be removed any more. */
  ghost predicate Past(m: TriesMeta, p: nat, block: nat) {
    p < block && (m.oldest.Some? ==> p < m.oldest.value.1)
  }

  lemma {:induction false} PastStays(m: TriesMeta, keep: nat, f: Finalization, p: nat)
    requires Wf(f) && Past(m, p, f.block)
    ensures var o := Pruning(m, keep, f);
      Past(o.meta, p, f.block) && forall i | 0 <= i < |o.removed| :: p < o.removed[i].1
    decreases Remaining(m, f)
  {
    hide Pruning, NextRange, Wf;
    PruningUnfolds(m, keep, f);
    if !Kept(m, keep, f) {
      var m' := if m.oldest.Some? then m.(prunedEnd := m.oldest.value.1) else m;
      var start := if m.oldest.Some? then m.oldest.value.1 + 1 else f.block;
      var next := NextRange(f, start);
      if next.Ok? && next.value.Some? {
        NextRangeReaches(f, start);
        PastStays(m'.(oldest := next.value), keep, f, p);
      }
    }
  }

  /** A call that fails keeps the last range it worked on as the oldest one. */
  lemma {:induction false} FailureKeepsLast(m: TriesMeta, keep: nat, f: Finalization)
    requires Wf(f) && Pruning(m, keep, f).result.Err? && Pruning(m, keep, f).removed != []
    ensures var o := Pruning(m, keep, f); o.meta.oldest == Some(o.removed[|o.removed| - 1])
    decreases Remaining(m, f)
  {
    hide Pruning, NextRange, Wf;
    PruningUnfolds(m, keep, f);
    var m' := if m.oldest.Some? then m.(prunedEnd := m.oldest.value.1) else m;
    var start := if m.oldest.Some? then m.oldest.value.1 + 1 else f.block;
    var next := NextRange(f, start);
    if !Kept(m, keep, f) && next.Ok? && next.value.Some? {
      NextRangeReaches(f, start);
      var rest := Pruning(m'.(oldest := next.value), keep, f);
      if rest.removed != [] { FailureKeepsLast(m'.(oldest := next.value), keep, f); }
      else { FailureRemoves(m'.(oldest := next.value), keep, f); }
    }
  }

  lemma FailureRemoves(m: TriesMeta, keep: nat, f: Finalization)
    requires Wf(f) && Pruning(m, keep, f).result.Err? && m.oldest.Some?
    ensures Pruning(m, keep, f).removed != []
  {
    hide Pruning, NextRange, Wf;
    PruningUnfolds(m, keep, f);
  }

  /** After a call, no later one comes back to its ranges, except for the last range of a call that failed. */
  lemma CallIsPast(m: TriesMeta, keep: nat, f: Finalization, k: nat)
    requires Wf(f) && MetaOk(m, f.block) && k < |Pruning(m, keep, f).removed|
    requires Pruning(m, keep, f).result.Ok? || k < |Pruning(m, keep, f).removed| - 1
    ensures Past(Pruning(m, keep, f).meta, Pruning(m, keep, f).removed[k].1, f.block)
  {
    hide Pruning, NextRange, Wf;
    var o := Pruning(m, keep, f);
    PruningSafe(m, keep, f);
    if o.result.Err? {
      FailureKeepsLast(m, keep, f);
    } else {
      PruningFollows(m, keep, f);
      if o.meta.oldest.Some? { NextRangeReaches(f, o.meta.prunedEnd + 1); }
      assert o.removed[k].1 <= o.meta.prunedEnd;
    }
  }

  lemma {:induction false} RunStaysPast(ms: seq<TriesMeta>, keep: nat, fs: seq<Finalization>, i: nat, j: nat, p: nat)
    requires IsRun(ms, keep, fs) && i < j < |fs| && Past(ms[i + 1], p, fs[i].block)
    ensures Past(ms[j], p, fs[j].block)
    decreases j
  {
    hide Pruning, Wf;
    if j > i + 1 {
      RunStaysPast(ms, keep, fs, i, j - 1, p);
      PastStays(ms[j - 1], keep, fs[j - 1], p);
    }
  }

  /** What is lost when the transaction of call `i` is dropped although the metadata in memory has moved on: if the
      call itself failed, all its ranges but the last, which the next call removes again; if it succeeded and a later
      step of the operation failed, all of them. No later call of the run comes back to those. */
  lemma DroppedRangesAreLost(ms: seq<TriesMeta>, keep: nat, fs: seq<Finalization>, i: nat, j: nat)
    requires IsRun(ms, keep, fs) && i < j < |fs|
    ensures var dropped, later := Pruning(ms[i], keep, fs[i]), Pruning(ms[j], keep, fs[j]);
      && (forall k, l | 0 <= k < |dropped.removed| && 0 <= l < |later.removed|
                        && (dropped.result.Ok? || k < |dropped.removed| - 1) ::
            dropped.removed[k].1 < later.removed[l].1)
      && (j == i + 1 && dropped.result.Err? && dropped.removed != [] ==>
            later.removed != [] && later.removed[0] == dropped.removed[|dropped.removed| - 1])
  {
    hide Pruning, Wf;
    var dropped, later := Pruning(ms[i], keep, fs[i]), Pruning(ms[j], keep, fs[j]);
    RunMetaOk(ms, keep, fs, i);
    forall k, l | 0 <= k < |dropped.removed| && 0 <= l < |later.removed|
                  && (dropped.result.Ok? || k < |dropped.removed| - 1)
      ensures dropped.removed[k].1 < later.removed[l].1
    {
      CallIsPast(ms[i], keep, fs[i], k);
      RunStaysPast(ms, keep, fs, i, j, dropped.removed[k].1);
      PastStays(ms[j], keep, fs[j], dropped.removed[k].1);
    }
    if j == i + 1 && dropped.result.Err? && dropped.removed != [] {
      FailureKeepsLast(ms[i], keep, fs[i]);
      PruningSafe(ms[i], keep, fs[i]);
      RunMetaOk(ms, keep, fs, j);
      PruningSafe(ms[j], keep, fs[j]);
      StillOld(ms[j], keep, fs[j]);
    }
  }

  lemma StillOld(m: TriesMeta, keep: nat, f: Finalization)
    requires Wf(f) && m.oldest.Some? && !Kept(m, keep, f)
    ensures Pruning(m, keep, f).removed != [] && Pruning(m, keep, f).removed[0] == m.oldest.value
  {
    hide Pruning, NextRange, Wf;
    PruningUnfolds(m, keep, f);
  }

  class DbChangesTrieStorage {
    const minBlocksToKeep: Option<nat>
    var oldestDigestRange: Option<(nat, nat)>
    var oldestPrunedDigestRangeEnd: nat

    constructor (minBlocksToKeep: Option<nat>, meta: TriesMeta)
      ensures Meta() == meta && this.minBlocksToKeep == minBlocksToKeep
    {
      this.minBlocksToKeep := minBlocksToKeep;
      oldestDigestRange, oldestPrunedDigestRangeEnd := meta.oldest, meta.prunedEnd;
    }

    function Meta(): TriesMeta
      reads this
    {
      TriesMeta(oldestDigestRange, oldestPrunedDigestRangeEnd)
    }

    /** The ranges whose tries are removed are returned in order; an archive node removes nothing. */
    method Prune(f: Finalization) returns (result: Result<()>, removed: seq<(nat, nat)>)
      requires Wf(f)
      modifies this
      ensures minBlocksToKeep.None? ==> Meta() == old(Meta()) && removed == [] && result == Ok(())
      ensures minBlocksToKeep.Some? ==>
        Outcome(Meta(), removed, result) == Pruning(old(Meta()), minBlocksToKeep.value, f)
    {
      hide NextRange, Wf, Pruning;
      result, removed := Ok(()), [];
      if minBlocksToKeep.None? { return; }
      var keep := minBlocksToKeep.value;
      var start := f.block;
      ghost var all := Pruning(Meta(), keep, f);
      while true
        invariant oldestDigestRange.None? ==> start == f.block
        invariant result == Ok(())
        invariant var rest := Pruning(Meta(), keep, f);
          rest.meta == all.meta && removed + rest.removed == all.removed && rest.result == all.result
        decreases Remaining(Meta(), f)
      {
        PruningUnfolds(Meta(), keep, f);
        if oldestDigestRange.Some? {
          var end := oldestDigestRange.value.1;
          if f.block <= end || f.block - end <= keep { break; }
          oldestPrunedDigestRangeEnd := end;
          removed := removed + [oldestDigestRange.value];
          start := end + 1;
        }
        var next := NextRange(f, start);
        if next.Err? {
          result := Err(next.error);
          return;
        }
        if next.value.None? {
          oldestDigestRange := None;
          return;
        }
        NextRangeReaches(f, start);
        oldestDigestRange := next.value;
      }
    }
  }
}
