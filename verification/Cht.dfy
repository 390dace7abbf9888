/** Canonical hash tries (CHTs): which blocks each one covers, when one is built, and how the blocks of
    one are collected.
  */
module Cht {
  import opened ChainTree

  function StartNumber(size: nat, cht: nat): nat { cht * size + 1 }

  function EndNumber(size: nat, cht: nat): nat { (cht + 1) * size }

  function BlockToCht(size: nat, block: nat): Option<nat>
    requires size > 0
  {
    if block == 0 then None else Some((block - 1) / size)
  }

  /** The CHT to build when `block` becomes final, if any. */
  function IsBuildRequired(size: nat, block: nat): Option<nat>
    requires size > 0
  {
    match BlockToCht(size, block)
    case None => None
    case Some(c) => if c < 2 || StartNumber(size, c) != block then None else Some(c - 2)
  }

  /** The newest CHT that exists once `block` is final, if any. */
  function MaxChtNumber(size: nat, block: nat): Option<nat>
    requires size > 0
  {
    match BlockToCht(size, block)
    case None => None
    case Some(c) => if c < 2 then None else Some(c - 2)
  }

  /** How many CHTs exist once `block` is final. */
  function ChtCount(size: nat, block: nat): nat
    requires size > 0
  {
    match MaxChtNumber(size, block)
    case None => 0
    case Some(m) => m + 1
  }

  // ------------------------------------------------------------ the numbers

  lemma DivisionBounds(x: nat, d: nat)
    requires d > 0
    ensures (x / d) * d <= x < (x / d) * d + d
  {
  }

  lemma Distributes(a: int, b: int, d: int)
    ensures (a + b) * d == a * d + b * d
  {
  }

  lemma QuotientUnique(x: nat, d: nat, q: nat)
    requires d > 0 && q * d <= x < q * d + d
    ensures x / d == q
  {
    DivisionBounds(x, d);
    var p := x / d;
    if p < q { ProductGrows(p + 1, q, d); Distributes(p, 1, d); }
    if p > q { ProductGrows(q + 1, p, d); Distributes(q, 1, d); }
  }

  lemma ProductGrows(a: nat, b: nat, d: nat)
    requires a <= b
    ensures a * d <= b * d
  {
  }

  /** CHTs cut the blocks above genesis into consecutive ranges of `size` blocks. */
  lemma BlockInItsCht(size: nat, block: nat, c: nat)
    requires size > 0 && block > 0
    ensures BlockToCht(size, block) == Some(c) <==> StartNumber(size, c) <= block <= EndNumber(size, c)
  {
    DivisionBounds(block - 1, size);
    Distributes(c, 1, size);
    if StartNumber(size, c) <= block <= EndNumber(size, c) { QuotientUnique(block - 1, size, c); }
  }

  /** The first range begins above genesis, each has `size` blocks, and the next begins where it ends. */
  lemma RangesTile(size: nat, c: nat)
    ensures StartNumber(size, 0) == 1
    ensures EndNumber(size, c) - StartNumber(size, c) + 1 == size && StartNumber(size, c + 1) == EndNumber(size, c) + 1
  {
    Distributes(c, 1, size);
  }

  /** The newest CHT is the one two ranges below the range of the final block. */
  lemma MaxChtAt(size: nat, block: nat, c: nat)
    requires size > 0
    ensures MaxChtNumber(size, block) == Some(c) <==> (c + 2) * size < block <= (c + 3) * size
  {
    if block > 0 { BlockInItsCht(size, block, c + 2); }
  }

  /** A CHT is built exactly when the first block of the next-but-one range becomes final. */
  lemma BuildRequiredAt(size: nat, block: nat, c: nat)
    requires size > 0
    ensures IsBuildRequired(size, block) == Some(c) <==> block == StartNumber(size, c + 2)
  {
    if block > 0 { BlockInItsCht(size, block, c + 2); Distributes(c + 2, 1, size); }
  }

  /** The covered blocks end at least a full range below the final block. */
  lemma CoveredBelowFinal(size: nat, block: nat)
    requires size > 0
    ensures ChtCount(size, block) > 0 ==> ChtCount(size, block) * size + size < block
    ensures ChtCount(size, block) == 0 || block >= 1
  {
    if ChtCount(size, block) > 0 {
      var q := (block - 1) / size;
      DivisionBounds(block - 1, size);
      Distributes(q - 1, 1, size);
    }
  }

  /** One more final block adds the CHT that `IsBuildRequired` names, or none. */
  lemma ChtCountStep(size: nat, block: nat)
    requires size > 0
    ensures var n := block + 1;
      match IsBuildRequired(size, n)
      case None => ChtCount(size, n) == ChtCount(size, block)
      case Some(c) => c == ChtCount(size, block) && ChtCount(size, n) == c + 1
  {
    if block > 0 {
      var q := (block - 1) / size;
      DivisionBounds(block - 1, size);
      Distributes(q, 1, size);
      if block < q * size + size {
        QuotientUnique(block, size, q);
      } else {
        QuotientUnique(block, size, q + 1);
      }
    }
  }

  /** The CHT that is due next starts right above the covered blocks and ends well below the final one. */
  lemma NextCht(size: nat, block: nat)
    requires size > 0 && IsBuildRequired(size, block + 1).Some?
    ensures var c := IsBuildRequired(size, block + 1).value; var cut := ChtCount(size, block) * size;
      && c == ChtCount(size, block) && ChtCount(size, block + 1) == c + 1 && (c + 1) * size == cut + size
      && StartNumber(size, c) == cut + 1 && EndNumber(size, c) == cut + size && cut + size <= block
  {
    ChtCountStep(size, block);
    CoveredBelowFinal(size, block + 1);
    Distributes(ChtCount(size, block), 1, size);
  }

  // ------------------------------------------------------------ collecting the blocks of one CHT

  type Pairs = seq<(nat, Hash)>

  /** The first `count` entries of a CHT that starts at `start`; `None` when a hash is missing. */
  function Collected(read: nat -> Option<Hash>, start: nat, count: nat): Option<Pairs> {
    if count == 0 then Some([])
    else match Collected(read, start, count - 1)
      case None => None
      case Some(pairs) =>
        match read(start + count - 1)
        case None => None
        case Some(h) => Some(pairs + [(start + count - 1, h)])
  }

  /** All the entries are there, in order, exactly when no hash is missing. */
  lemma {:induction false} CollectedExact(read: nat -> Option<Hash>, start: nat, count: nat)
    ensures Collected(read, start, count).Some? <==> forall n: nat | start <= n < start + count :: read(n).Some?
    ensures Collected(read, start, count).Some? ==>
      var pairs := Collected(read, start, count).value;
      |pairs| == count && forall i | 0 <= i < count :: pairs[i].0 == start + i && Some(pairs[i].1) == read(pairs[i].0)
    decreases count
  {
    if count > 0 { CollectedExact(read, start, count - 1); }
  }

  /** `build_pairs`: the loop stops at the first missing hash and after `size` entries. */
  method BuildPairs(size: nat, cht: nat, read: nat -> Option<Hash>) returns (r: Option<Pairs>)
    requires size > 0
    ensures r == Collected(read, StartNumber(size, cht), size)
  {
    var start := StartNumber(size, cht);
    var pairs: Pairs := [];
    while |pairs| < size
      invariant |pairs| <= size && Collected(read, start, |pairs|) == Some(pairs)
    {
      var h := read(start + |pairs|);
      if h.None? {
        CollectedExact(read, start, size);
        return None;
      }
      pairs := pairs + [(start + |pairs|, h.value)];
    }
    return Some(pairs);
  }

  // ------------------------------------------------------------ grouping blocks by CHT

  /** What `for_each_cht_group` ends with: all blocks handed over, a block without a CHT, or blocks out of order. */
  datatype GroupsEnd = AllGrouped | NoCht | OutOfOrder

  datatype Group = Group(cht: nat, blocks: seq<nat>)

  function Joined(gs: seq<Group>): seq<nat> {
    if gs == [] then [] else Joined(gs[..|gs| - 1]) + gs[|gs| - 1].blocks
  }

  ghost predicate OfOneCht(size: nat, g: Group)
    requires size > 0
  {
    g.blocks != [] && forall b | b in g.blocks :: BlockToCht(size, b) == Some(g.cht)
  }

  /** Groups are non-empty, hold blocks of their own CHT only, and come in increasing order. */
  ghost predicate WellGrouped(size: nat, gs: seq<Group>)
    requires size > 0
  {
    && (forall i | 0 <= i < |gs| :: OfOneCht(size, gs[i]))
    && (forall i | 0 < i < |gs| :: gs[i - 1].cht < gs[i].cht)
  }

  lemma GroupAppended(size: nat, gs: seq<Group>, g: Group)
    requires size > 0 && WellGrouped(size, gs) && OfOneCht(size, g)
    requires gs != [] ==> gs[|gs| - 1].cht < g.cht
    ensures WellGrouped(size, gs + [g]) && Joined(gs + [g]) == Joined(gs) + g.blocks
  {
    hide BlockToCht, OfOneCht;
    assert (gs + [g])[..|gs|] == gs;
  }

  ghost predicate Ordered(blocks: seq<nat>) {
    0 !in blocks && forall i | 0 < i < |blocks| :: blocks[i - 1] <= blocks[i]
  }

  /** Hands every maximal run of blocks of one CHT to the caller, in order, once. */
  method ForEachChtGroup(size: nat, blocks: seq<nat>) returns (calls: seq<Group>, end: GroupsEnd)
    requires size > 0
    ensures WellGrouped(size, calls)
    ensures if end == AllGrouped then Joined(calls) == blocks else Joined(calls) <= blocks
    ensures Ordered(blocks) ==> end == AllGrouped
  {
    hide WellGrouped, Joined, BlockToCht;
    assert WellGrouped(size, []) && Joined([]) == [] by { GroupNothing(size); }
    calls, end := [], AllGrouped;
    var current: Option<nat> := None;
    var group: seq<nat> := [];
    for i := 0 to |blocks|
      invariant WellGrouped(size, calls) && Joined(calls) + group == blocks[..i]
      invariant current.None? ==> calls == [] && group == []
      invariant current.Some? ==> group != [] && forall b | b in group :: BlockToCht(size, b) == current
      invariant current.Some? ==> i > 0 && BlockToCht(size, blocks[i - 1]) == current
      invariant current.Some? && calls != [] ==> calls[|calls| - 1].cht < current.value
    {
      var c := BlockToCht(size, blocks[i]);
      GenesisHasNoCht(size, blocks[i]);
      if i > 0 { GenesisHasNoCht(size, blocks[i - 1]); }
      if c.None? { return calls, NoCht; }
      if current.Some? && current != c {
        if c.value <= current.value {
          if blocks[i - 1] <= blocks[i] { ChtMonotone(size, blocks[i - 1], blocks[i]); }
          return calls, OutOfOrder;
        }
        GroupAppended(size, calls, Group(current.value, group));
        calls, group := calls + [Group(current.value, group)], [];
      }
      group, current := group + [blocks[i]], c;
    }
    assert blocks[..|blocks|] == blocks;
    if current.Some? {
      GroupAppended(size, calls, Group(current.value, group));
      calls := calls + [Group(current.value, group)];
    }
  }

  lemma GroupNothing(size: nat)
    requires size > 0
    ensures WellGrouped(size, []) && Joined([]) == []
  {
  }

  lemma GenesisHasNoCht(size: nat, block: nat)
    requires size > 0
    ensures BlockToCht(size, block).None? <==> block == 0
  {
  }

  lemma ChtMonotone(size: nat, a: nat, b: nat)
    requires size > 0 && 0 < a <= b
    ensures BlockToCht(size, a).value <= BlockToCht(size, b).value
  {
    var p, q := (a - 1) / size, (b - 1) / size;
    DivisionBounds(a - 1, size);
    DivisionBounds(b - 1, size);
    if q < p { ProductGrows(q + 1, p, size); Distributes(q, 1, size); }
  }
}
