/** The full node's header cache: readers fill it, also with "no such header", while an importer commits
    blocks to the database and then publishes them in the cache. A step below is what one thread does
    without another being able to come between: the cache lock is held from a miss to its fill, but
    the database is committed without it.
  */
module HeaderCache {
  import opened ChainTree

  const CACHE_HEADERS: nat := 8

  datatype Entry = Entry(hash: Hash, header: Option<Header>)

  // ------------------------------------------------------------ the cache

  ghost predicate Distinct(c: seq<Entry>) { forall i, j | 0 <= i < j < |c| :: c[i].hash != c[j].hash }

  predicate Has(c: seq<Entry>, h: Hash) { exists i | 0 <= i < |c| :: c[i].hash == h }

  function Find(c: seq<Entry>, h: Hash): (i: nat)
    requires Has(c, h)
    ensures i < |c| && c[i].hash == h
  {
    var n := |c| - 1;
    if c[n].hash == h then n
    else
      assert exists i | 0 <= i < n :: c[..n][i].hash == h;
      Find(c[..n], h)
  }

  /** The entries without the one at `h`. */
  function Without(c: seq<Entry>, h: Hash): (r: seq<Entry>)
    ensures forall e :: e in r <==> e in c && e.hash != h
    ensures |r| <= |c|
    ensures Distinct(c) ==> Distinct(r)
  {
    if c == [] then [] else
      var n := |c| - 1;
      var before := Without(c[..n], h);
      if c[n].hash == h then before else before + [c[n]]
  }

  /** The last `CACHE_HEADERS` entries. */
  function Newest(c: seq<Entry>): seq<Entry> { if |c| > CACHE_HEADERS then c[|c| - CACHE_HEADERS..] else c }

  /** `cache_header`: the entry becomes the newest one and the oldest ones go. */
  function Cached(c: seq<Entry>, h: Hash, header: Option<Header>): seq<Entry> {
    Newest(Without(c, h) + [Entry(h, header)])
  }

  /** `get_refresh`: the entry found becomes the newest one. */
  function Refreshed(c: seq<Entry>, h: Hash): seq<Entry>
    requires Has(c, h)
  {
    Without(c, h) + [c[Find(c, h)]]
  }

  /** The cache never holds more than its limit, the new entry is in it, and all others were there before. */
  lemma CachedMembers(c: seq<Entry>, h: Hash, header: Option<Header>)
    requires Distinct(c)
    ensures var r := Cached(c, h, header);
      && Distinct(r) && |r| <= CACHE_HEADERS
      && Entry(h, header) in r
      && (forall e | e in r :: e == Entry(h, header) || (e in c && e.hash != h))
  {
    var all := Without(c, h) + [Entry(h, header)];
    assert all[|all| - 1] == Entry(h, header);
    forall i, j | 0 <= i < j < |all| ensures all[i].hash != all[j].hash {
      assert all[i] in Without(c, h);
    }
    var r := Newest(all);
    assert r[|r| - 1] == all[|all| - 1];
    forall e | e in r ensures e in all {}
  }

  lemma WithoutUnfolds(c: seq<Entry>, h: Hash, n: nat)
    requires |c| == n + 1
    ensures Without(c, h) == if c[n].hash == h then Without(c[..n], h) else Without(c[..n], h) + [c[n]]
  {
  }

  /** The list without position `i`, if it has one. */
  function Cut(c: seq<Entry>, i: nat): seq<Entry> { if i < |c| then c[..i] + c[i + 1..] else c }

  lemma CutUnfolds(c: seq<Entry>, i: nat, n: nat)
    requires |c| == n + 1 && i <= n + 1
    ensures Cut(c, i) == if i == n then c[..n] else Cut(c[..n], if i < n then i else n) + [c[n]]
  {
    if i < n {
      assert c[..n][..i] == c[..i] && c[..n][i + 1..] + [c[n]] == c[i + 1..];
    } else if i == n {
      assert c[..i] + c[i + 1..] == c[..n];
    } else {
      assert c[..n] + [c[n]] == c;
    }
  }

  /** Removing an entry by its hash cuts it out and moves nothing else. */
  lemma {:induction false} WithoutCuts(c: seq<Entry>, h: Hash, i: nat)
    requires i <= |c| && (i < |c| ==> c[i].hash == h)
    requires forall j | 0 <= j < |c| && j != i :: c[j].hash != h
    ensures Without(c, h) == Cut(c, i)
  {
    if c == [] {
      assert |Without(c, h)| == 0;
    } else {
      hide Without, Cut;
      var n := |c| - 1;
      WithoutUnfolds(c, h, n);
      WithoutCuts(c[..n], h, if i < n then i else n);
      CutUnfolds(c, i, n);
      if i == n { NothingCut(c[..n], n); }
    }
  }

  lemma NothingCut(c: seq<Entry>, n: nat)
    requires |c| <= n
    ensures Cut(c, n) == c
  {
  }

  /** The new entry is the youngest, and of the others the youngest seven stay, in their order. */
  lemma CachedOrder(c: seq<Entry>, h: Hash, header: Option<Header>)
    ensures var r, others := Cached(c, h, header), Without(c, h);
      && r != [] && r[|r| - 1] == Entry(h, header)
      && r[..|r| - 1] == (if |others| > 7 then others[|others| - 7..] else others)
  {
  }

  /** An entry that is found becomes the youngest, and the others keep their order. */
  lemma RefreshedOrder(c: seq<Entry>, h: Hash)
    requires Has(c, h)
    ensures var r := Refreshed(c, h); r[..|r| - 1] == Without(c, h) && r[|r| - 1].hash == h && r[|r| - 1] in c
  {
  }

  lemma RefreshedMembers(c: seq<Entry>, h: Hash)
    requires Distinct(c) && Has(c, h)
    ensures var r := Refreshed(c, h);
      && Distinct(r) && |r| <= |c|
      && (forall e :: e in r <==> e in c)
  {
    var i := Find(c, h);
    var rest := Without(c, h);
    WithoutShorter(c, h, i);
    forall a, b | 0 <= a < b < |rest + [c[i]]| ensures (rest + [c[i]])[a].hash != (rest + [c[i]])[b].hash {
      assert (rest + [c[i]])[a] in rest;
    }
    forall e ensures e in rest + [c[i]] <==> e in c {
      if e in c && e.hash == h { var j :| 0 <= j < |c| && c[j] == e; assert j == i; }
    }
  }

  lemma {:induction false} WithoutShorter(c: seq<Entry>, h: Hash, i: nat)
    requires i < |c| && c[i].hash == h
    ensures |Without(c, h)| < |c|
  {
    if i < |c| - 1 { WithoutShorter(c[..|c| - 1], h, i); }
  }

  method Remove(c: seq<Entry>, h: Hash) returns (r: seq<Entry>)
    ensures r == Without(c, h)
  {
    r := [];
    for i := 0 to |c|
      invariant r == Without(c[..i], h)
    {
      assert c[..i + 1][..i] == c[..i];
      if c[i].hash != h { r := r + [c[i]]; }
    }
    assert c[..|c|] == c;
  }

  method CacheHeader(c: seq<Entry>, h: Hash, header: Option<Header>) returns (r: seq<Entry>)
    ensures r == Cached(c, h, header) && |r| <= CACHE_HEADERS
  {
    r := Remove(c, h);
    r := r + [Entry(h, header)];
    ghost var all := r;
    while |r| > CACHE_HEADERS
      invariant |r| <= |all| && r == all[|all| - |r|..]
      invariant |all| > CACHE_HEADERS ==> |r| >= CACHE_HEADERS
      invariant |all| <= CACHE_HEADERS ==> r == all
    {
      r := r[1..];
    }
  }

  // ------------------------------------------------------------ readers and importers

  /** `filling` is the reader that holds the cache lock after a miss, with what it read from the database;
      `unpublished` are the blocks committed to the database and not yet put in the cache. */
  datatype Shared = Shared(db: map<Hash, Header>, cache: seq<Entry>, filling: Option<Entry>, unpublished: set<Hash>)

  datatype Step =
    | Commit(hash: Hash, header: Header)
    | Publish(hash: Hash)
    | Hit(hash: Hash)
    | Miss(hash: Hash)
    | Fill

  function Stored(db: map<Hash, Header>, h: Hash): Option<Header> { if h in db then Some(db[h]) else None }

  predicate Enabled(s: Shared, step: Step) {
    match step
    case Commit(h, _) => h !in s.db
    case Publish(h) => h in s.db && h in s.unpublished && s.filling.None?
    case Hit(h) => s.filling.None? && Has(s.cache, h)
    case Miss(h) => s.filling.None? && !Has(s.cache, h)
    case Fill => s.filling.Some?
  }

  function Next(s: Shared, step: Step): Shared
    requires Enabled(s, step)
  {
    match step
    case Commit(h, header) => s.(db := s.db[h := header], unpublished := s.unpublished + {h})
    case Publish(h) => s.(cache := Cached(s.cache, h, Some(s.db[h])), unpublished := s.unpublished - {h})
    case Hit(h) => s.(cache := Refreshed(s.cache, h))
    case Miss(h) => s.(filling := Some(Entry(h, Stored(s.db, h))))
    case Fill => s.(cache := Cached(s.cache, s.filling.value.hash, s.filling.value.header), filling := None)
  }

  /** What `header` returns when the step ends a call. */
  function Answer(s: Shared, step: Step): Option<Entry>
    requires Enabled(s, step)
  {
    match step
    case Hit(h) => Some(Entry(h, s.cache[Find(s.cache, h)].header))
    case Fill => s.filling
    case _ => None
  }

  /** The block is in the database and its import has ended. */
  predicate Complete(s: Shared, h: Hash) { h in s.db && h !in s.unpublished }

  /** A positive entry is the stored header; a negative one is allowed only while the import has not ended. */
  ghost predicate Sound(s: Shared, e: Entry) {
    (e.header.Some? ==> e.header == Stored(s.db, e.hash)) && (e.header.None? ==> !Complete(s, e.hash))
  }

  ghost predicate Inv(s: Shared) {
    && Distinct(s.cache) && |s.cache| <= CACHE_HEADERS
    && (forall e | e in s.cache :: Sound(s, e))
    && (s.filling.Some? ==> Sound(s, s.filling.value))
  }

  lemma NextKeepsInv(s: Shared, step: Step)
    requires Inv(s) && Enabled(s, step)
    ensures Inv(Next(s, step))
    ensures forall h | Complete(s, h) :: Complete(Next(s, step), h) && Next(s, step).db[h] == s.db[h]
  {
    hide Distinct, Cached, Refreshed;
    match step
    case Commit(_, _) =>
    case Publish(h) => CachedMembers(s.cache, h, Some(s.db[h]));
    case Hit(h) => RefreshedMembers(s.cache, h);
    case Miss(_) =>
    case Fill => CachedMembers(s.cache, s.filling.value.hash, s.filling.value.header);
  }

  ghost predicate IsRun(ss: seq<Shared>, steps: seq<Step>) {
    && |ss| == |steps| + 1
    && ss[0].cache == [] && ss[0].filling == None && ss[0].unpublished == {}
    && forall i | 0 <= i < |steps| :: Enabled(ss[i], steps[i]) && ss[i + 1] == Next(ss[i], steps[i])
  }

  lemma {:induction false} RunInv(ss: seq<Shared>, steps: seq<Step>, i: nat)
    requires IsRun(ss, steps) && i < |ss|
    ensures Inv(ss[i])
  {
    if i > 0 {
      RunInv(ss, steps, i - 1);
      NextKeepsInv(ss[i - 1], steps[i - 1]);
    }
  }

  lemma {:induction false} StaysComplete(ss: seq<Shared>, steps: seq<Step>, i: nat, j: nat, h: Hash)
    requires IsRun(ss, steps) && i <= j < |ss| && Complete(ss[i], h)
    ensures Complete(ss[j], h) && ss[j].db[h] == ss[i].db[h]
  {
    if i < j {
      StaysComplete(ss, steps, i, j - 1, h);
      RunInv(ss, steps, j - 1);
      NextKeepsInv(ss[j - 1], steps[j - 1]);
    }
  }

  /** In every interleaving: once a block's import has ended at step `i`, every later answer for it is its header,
      whatever negative entries were read or cached before. */
  lemma AnswersAreCurrent(ss: seq<Shared>, steps: seq<Step>, i: nat, j: nat, h: Hash)
    requires IsRun(ss, steps) && i <= j < |steps| && Complete(ss[i], h)
    ensures var a := Answer(ss[j], steps[j]); a.Some? && a.value.hash == h ==> a.value.header == Some(ss[i].db[h])
  {
    StaysComplete(ss, steps, i, j, h);
    RunInv(ss, steps, j);
    var s := ss[j];
    if steps[j].Hit? { assert Sound(s, s.cache[Find(s.cache, steps[j].hash)]); }
  }

  /** A header that is returned is the one in the database, in every interleaving. */
  lemma AnswersAreStored(ss: seq<Shared>, steps: seq<Step>, j: nat)
    requires IsRun(ss, steps) && j < |steps|
    ensures var a := Answer(ss[j], steps[j]);
      a.Some? && a.value.header.Some? ==> a.value.hash in ss[j].db && a.value.header == Some(ss[j].db[a.value.hash])
  {
    RunInv(ss, steps, j);
    var s := ss[j];
    if steps[j].Hit? { assert Sound(s, s.cache[Find(s.cache, steps[j].hash)]); }
  }

  /** The cache holds at most eight headers at every moment of every interleaving. */
  lemma CacheIsBounded(ss: seq<Shared>, steps: seq<Step>, i: nat)
    requires IsRun(ss, steps) && i < |ss|
    ensures |ss[i].cache| <= CACHE_HEADERS
  {
    RunInv(ss, steps, i);
  }
}
