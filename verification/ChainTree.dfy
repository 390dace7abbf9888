/** The tree of imported headers and the routes between its blocks.

    Every block except genesis names its parent; `Ancestor` walks those links. `RouteOf` is the
    specification of a tree route (retracted, common ancestor, enacted), and `TreeRoute` is the
    three-loop walk that computes it from whatever headers are still stored.
  */
module ChainTree {

  datatype Option<+T> = None | Some(value: T)

  /** A 256-bit block hash. */
  type Hash = h: int |
    0 <= h < 0x1_0000_0000_0000_0000_0000_0000_0000_0000_0000_0000_0000_0000_0000_0000_0000_0000 witness 0

  /** The all-zero hash, which the client uses for "no block yet". */
  const DEFAULT_HASH: Hash := 0

  /** The part of a header that the client's bookkeeping reads. */
  datatype Header = Header(number: nat, parent: Hash, changesTrieRoot: Option<Hash>)

  type Tree = map<Hash, Header>

  /** `t` is a tree with the single root `g`, and numbers count the distance from it. */
  ghost predicate Rooted(t: Tree, g: Hash) {
    && g in t
    && t[g].number == 0
    && forall h {:trigger LinkedToParent(t, h)} | h in t && h != g :: LinkedToParent(t, h)
  }

  ghost predicate LinkedToParent(t: Tree, h: Hash)
    requires h in t
  {
    t[h].parent in t && t[h].number == t[t[h].parent].number + 1
  }

  /** The block at height `n` on the way from `h` back to genesis. */
  ghost function Ancestor(t: Tree, g: Hash, h: Hash, n: nat): (a: Hash)
    requires Rooted(t, g) && h in t && n <= t[h].number
    ensures a in t && t[a].number == n
    decreases t[h].number - n
  {
    if t[h].number == n then h else
    assert LinkedToParent(t, h);
    Ancestor(t, g, t[h].parent, n)
  }

  /** `a` is `h` or one of its ancestors. */
  ghost predicate OnChain(t: Tree, g: Hash, a: Hash, h: Hash)
    requires Rooted(t, g)
  {
    a in t && h in t && t[a].number <= t[h].number && Ancestor(t, g, h, t[a].number) == a
  }

  lemma {:induction false} AncestorOfAncestor(t: Tree, g: Hash, h: Hash, n: nat, m: nat)
    requires Rooted(t, g) && h in t && m <= n <= t[h].number
    ensures Ancestor(t, g, Ancestor(t, g, h, n), m) == Ancestor(t, g, h, m)
    decreases t[h].number
  {
    if n != t[h].number {
      assert LinkedToParent(t, h);
      AncestorOfAncestor(t, g, t[h].parent, n, m);
    }
  }

  lemma AncestorOnChain(t: Tree, g: Hash, h: Hash, n: nat)
    requires Rooted(t, g) && h in t && n <= t[h].number
    ensures OnChain(t, g, Ancestor(t, g, h, n), h)
  {
  }

  lemma OnChainTransitive(t: Tree, g: Hash, a: Hash, b: Hash, c: Hash)
    requires Rooted(t, g) && OnChain(t, g, a, b) && OnChain(t, g, b, c)
    ensures OnChain(t, g, a, c)
  {
    AncestorOfAncestor(t, g, c, t[b].number, t[a].number);
  }

  /** Two blocks on one chain: the lower one is on the chain of the higher one. */
  lemma OnChainLinear(t: Tree, g: Hash, a: Hash, b: Hash, c: Hash)
    requires Rooted(t, g) && OnChain(t, g, a, c) && OnChain(t, g, b, c) && t[a].number <= t[b].number
    ensures OnChain(t, g, a, b)
  {
    AncestorOfAncestor(t, g, c, t[b].number, t[a].number);
  }

  lemma OnChainParent(t: Tree, g: Hash, a: Hash, h: Hash)
    requires Rooted(t, g) && h in t && h != g
    ensures LinkedToParent(t, h)
    ensures OnChain(t, g, a, h) <==> a == h || OnChain(t, g, a, t[h].parent)
  {
    assert LinkedToParent(t, h);
  }

  lemma {:induction false} GenesisOnChain(t: Tree, g: Hash, h: Hash)
    requires Rooted(t, g) && h in t
    ensures OnChain(t, g, g, h)
    decreases t[h].number
  {
    if h != g {
      assert LinkedToParent(t, h);
      GenesisOnChain(t, g, t[h].parent);
    }
  }

  /** `t'` holds every block of `t`, unchanged. */
  ghost predicate Extends(t: Tree, t': Tree) {
    forall h | h in t :: h in t' && t'[h] == t[h]
  }

  /** Importing more blocks never changes the ancestry of a known block. */
  lemma {:induction false} AncestorExtends(t: Tree, t': Tree, g: Hash, h: Hash, n: nat)
    requires Rooted(t, g) && Rooted(t', g) && Extends(t, t') && h in t && n <= t[h].number
    ensures Ancestor(t', g, h, n) == Ancestor(t, g, h, n)
    decreases t[h].number
  {
    if n != t[h].number {
      assert LinkedToParent(t, h);
      AncestorExtends(t, t', g, t[h].parent, n);
    }
  }

  lemma OnChainExtends(t: Tree, t': Tree, g: Hash, a: Hash, h: Hash)
    requires Rooted(t, g) && Rooted(t', g) && Extends(t, t') && h in t
    ensures OnChain(t', g, a, h) <==> OnChain(t, g, a, h)
  {
    if a in t' && t'[a].number <= t[h].number {
      AncestorExtends(t, t', g, h, t'[a].number);
    }
  }

  /** Adding a child with a fresh hash keeps the tree rooted. */
  lemma RootedAdd(t: Tree, g: Hash, h: Hash, hd: Header)
    requires Rooted(t, g) && h !in t && hd.parent in t && hd.number == t[hd.parent].number + 1
    ensures Rooted(t[h := hd], g) && Extends(t, t[h := hd])
  {
    var t' := t[h := hd];
    forall x | x in t' && x != g ensures LinkedToParent(t', x) {
      if x != h { assert LinkedToParent(t, x); }
    }
  }

  // ---------------------------------------------------------------- routes

  datatype Route = Route(retracted: seq<Hash>, common: Hash, enacted: seq<Hash>)

  /** The lowest common ancestor of two blocks; `CommonAncestorIsLowest` says why the name fits. */
  ghost function CommonAncestor(t: Tree, g: Hash, a: Hash, b: Hash): (c: Hash)
    requires Rooted(t, g) && a in t && b in t
    ensures OnChain(t, g, c, a) && OnChain(t, g, c, b)
    decreases t[a].number + t[b].number
  {
    if a == b then a
    else if t[b].number > t[a].number then
      assert LinkedToParent(t, b);
      CommonAncestor(t, g, a, t[b].parent)
    else if t[a].number > t[b].number then
      assert LinkedToParent(t, a);
      CommonAncestor(t, g, t[a].parent, b)
    else
      assert (a != g ==> LinkedToParent(t, a)) && (b != g ==> LinkedToParent(t, b));
      CommonAncestor(t, g, t[a].parent, t[b].parent)
  }

  lemma {:induction false} CommonAncestorIsLowest(t: Tree, g: Hash, a: Hash, b: Hash, x: Hash)
    requires Rooted(t, g) && OnChain(t, g, x, a) && OnChain(t, g, x, b)
    ensures OnChain(t, g, x, CommonAncestor(t, g, a, b))
    decreases t[a].number + t[b].number
  {
    if a == b {
    } else if t[b].number > t[a].number {
      OnChainParent(t, g, x, b);
      CommonAncestorIsLowest(t, g, a, t[b].parent, x);
    } else if t[a].number > t[b].number {
      OnChainParent(t, g, x, a);
      CommonAncestorIsLowest(t, g, t[a].parent, b, x);
    } else {
      OnChainParent(t, g, x, a);
      OnChainParent(t, g, x, b);
      CommonAncestorIsLowest(t, g, t[a].parent, t[b].parent, x);
    }
  }

  /** The blocks from `h` down to `c`, without `c`: highest first. */
  ghost function Down(t: Tree, g: Hash, h: Hash, c: Hash): (s: seq<Hash>)
    requires Rooted(t, g) && OnChain(t, g, c, h)
    ensures |s| == t[h].number - t[c].number
    ensures forall i | 0 <= i < |s| :: s[i] == Ancestor(t, g, h, t[h].number - i)
    decreases t[h].number
  {
    if h == c then [] else
    assert LinkedToParent(t, h);
    [h] + Down(t, g, t[h].parent, c)
  }

  /** The blocks from `c` up to `h`, without `c`: lowest first. */
  ghost function Up(t: Tree, g: Hash, c: Hash, h: Hash): (s: seq<Hash>)
    requires Rooted(t, g) && OnChain(t, g, c, h)
    ensures |s| == t[h].number - t[c].number
    ensures forall i | 0 <= i < |s| :: s[i] == Ancestor(t, g, h, t[c].number + 1 + i)
    decreases t[h].number
  {
    if h == c then [] else
    assert LinkedToParent(t, h);
    Up(t, g, c, t[h].parent) + [h]
  }

  /** The tree route: down from `from` to the common ancestor, then up to `to`. */
  ghost function RouteOf(t: Tree, g: Hash, from: Hash, to: Hash): (r: Route)
    requires Rooted(t, g) && from in t && to in t
  {
    var c := CommonAncestor(t, g, from, to);
    Route(Down(t, g, from, c), c, Up(t, g, c, to))
  }

  /** What a route means: `from`'s chain minus the retracted blocks plus the enacted ones is `to`'s chain. */
  lemma RouteSplitsChains(t: Tree, g: Hash, from: Hash, to: Hash, x: Hash)
    requires Rooted(t, g) && from in t && to in t
    ensures var r := RouteOf(t, g, from, to);
      && (x in r.retracted <==> OnChain(t, g, x, from) && !OnChain(t, g, x, to))
      && (x in r.enacted <==> OnChain(t, g, x, to) && !OnChain(t, g, x, from))
  {
    var r := RouteOf(t, g, from, to);
    BranchMembers(t, g, r.common, from, x);
    BranchMembers(t, g, r.common, to, x);
    if OnChain(t, g, x, from) && OnChain(t, g, x, to) {
      CommonAncestorIsLowest(t, g, from, to, x);
    } else if OnChain(t, g, x, r.common) {
      OnChainTransitive(t, g, x, r.common, from);
      OnChainTransitive(t, g, x, r.common, to);
    }
  }

  /** Members of a branch above `c`. */
  lemma BranchMembers(t: Tree, g: Hash, c: Hash, h: Hash, x: Hash)
    requires Rooted(t, g) && OnChain(t, g, c, h)
    ensures x in Down(t, g, h, c) <==> OnChain(t, g, x, h) && t[x].number > t[c].number
    ensures x in Up(t, g, c, h) <==> OnChain(t, g, x, h) && t[x].number > t[c].number
    ensures OnChain(t, g, x, h) && t[x].number <= t[c].number <==> OnChain(t, g, x, c)
  {
    var d, u := Down(t, g, h, c), Up(t, g, c, h);
    if OnChain(t, g, x, h) && t[x].number > t[c].number {
      assert d[t[h].number - t[x].number] == x;
      assert u[t[x].number - t[c].number - 1] == x;
    } else if OnChain(t, g, x, h) {
      OnChainLinear(t, g, x, c, h);
    }
    if OnChain(t, g, x, c) { OnChainTransitive(t, g, x, c, h); }
  }

  /** Looks a header up by hash; `None` when it is not (or no longer) there. */
  type HeaderReader = Hash -> Option<Header>

  ghost predicate ReadsFrom(read: HeaderReader, t: Tree) {
    forall h | read(h).Some? :: h in t && read(h).value == t[h]
  }

  /** The headers that the walk from `from` to `to` reads. */
  ghost predicate RouteReadable(read: HeaderReader, t: Tree, g: Hash, from: Hash, to: Hash)
    requires Rooted(t, g) && from in t && to in t
  {
    var r := RouteOf(t, g, from, to);
    && read(r.common).Some?
    && (forall h | h in r.retracted :: read(h).Some?)
    && (forall h | h in r.enacted :: read(h).Some?)
  }

  /** The walk. A header that cannot be read is an error.
      It answers exactly when every header on the route can be read, and then with the route. */
  method TreeRoute(read: HeaderReader, from: Hash, to: Hash, ghost t: Tree, ghost g: Hash) returns (r: Option<Route>)
    requires Rooted(t, g) && ReadsFrom(read, t) && from in t && to in t
    ensures r.Some? <==> RouteReadable(read, t, g, from, to)
    ensures r.Some? ==> r.value == RouteOf(t, g, from, to)
  {
    ghost var c := CommonAncestor(t, g, from, to);
    if read(from).None? || read(to).None? {
      BranchMembers(t, g, c, from, from);
      BranchMembers(t, g, c, to, to);
      return None;
    }
    var f, e := from, to;
    var fromBranch: seq<Hash>, toBranch: seq<Hash> := [], [];
    var ok: bool;
    ok, e, toBranch := WalkDownTo(read, to, read(f).value.number, t, g, c);
    if !ok { return None; }
    ok, f, fromBranch := WalkDownTo(read, from, read(e).value.number, t, g, c);
    if !ok { return None; }
    ok, f, e, fromBranch, toBranch := WalkTogether(read, from, to, f, e, fromBranch, toBranch, t, g, c);
    if !ok { return None; }
    RouteWalked(read, t, g, from, to, e, fromBranch, toBranch);
    return Some(Route(fromBranch, e, Reverse(toBranch)));
  }

  lemma RouteWalked(read: HeaderReader, t: Tree, g: Hash, from: Hash, to: Hash, x: Hash, fb: seq<Hash>, tb: seq<Hash>)
    requires Rooted(t, g) && from in t && to in t
    requires var c := CommonAncestor(t, g, from, to);
      Walked(read, t, g, from, x, c, fb) && Walked(read, t, g, to, x, c, tb)
    ensures RouteOf(t, g, from, to) == Route(fb, x, Reverse(tb))
    ensures RouteReadable(read, t, g, from, to)
  {
    CommonAncestorIsLowest(t, g, from, to, x);
    assert x == CommonAncestor(t, g, from, to);
    UpIsReversedDown(t, g, x, to);
    ReverseMembers(tb);
  }

  lemma {:induction false} UpIsReversedDown(t: Tree, g: Hash, c: Hash, h: Hash)
    requires Rooted(t, g) && OnChain(t, g, c, h)
    ensures Up(t, g, c, h) == Reverse(Down(t, g, h, c))
    decreases t[h].number
  {
    if h != c {
      assert LinkedToParent(t, h);
      UpIsReversedDown(t, g, c, t[h].parent);
      assert Down(t, g, h, c)[1..] == Down(t, g, t[h].parent, c);
    }
  }

  lemma ReverseMembers<T>(s: seq<T>)
    ensures forall x | x in Reverse(s) :: x in s
  {
  }

  /** The source's last loop: both sides stand at one height and step together until they meet. */
  method WalkTogether(read: HeaderReader, from: Hash, to: Hash, f0: Hash, e0: Hash, fb0: seq<Hash>, tb0: seq<Hash>,
                      ghost t: Tree, ghost g: Hash, ghost c: Hash)
    returns (ok: bool, f: Hash, e: Hash, fromBranch: seq<Hash>, toBranch: seq<Hash>)
    requires Rooted(t, g) && ReadsFrom(read, t)
    requires Walked(read, t, g, from, f0, c, fb0) && Walked(read, t, g, to, e0, c, tb0)
    requires t[e0].number == t[f0].number
    ensures ok ==> Walked(read, t, g, from, f, c, fromBranch) && Walked(read, t, g, to, e, c, toBranch) && e == f
    ensures !ok ==> exists x :: read(x).None? && (x == c || x in Up(t, g, c, to) || x in Down(t, g, from, c))
  {
    ok, f, e, fromBranch, toBranch := true, f0, e0, fb0, tb0;
    while e != f
      invariant Walked(read, t, g, from, f, c, fromBranch) && Walked(read, t, g, to, e, c, toBranch)
      invariant t[e].number == t[f].number
      decreases t[f].number
    {
      WalkStep(read, t, g, to, e, c, toBranch);
      WalkStep(read, t, g, from, f, c, fromBranch);
      toBranch := toBranch + [e];
      e := read(e).value.parent;
      if read(e).None? { ok := false; return; }
      fromBranch := fromBranch + [f];
      f := read(f).value.parent;
      if read(f).None? { ok := false; return; }
    }
  }

  /** The source's two single-sided loops: walk from `h` until the number is no longer above `n`. */
  method WalkDownTo(read: HeaderReader, h: Hash, n: nat, ghost t: Tree, ghost g: Hash, ghost c: Hash)
    returns (ok: bool, x: Hash, branch: seq<Hash>)
    requires Rooted(t, g) && ReadsFrom(read, t) && read(h).Some? && OnChain(t, g, c, h) && t[c].number <= n
    ensures ok ==> Walked(read, t, g, h, x, c, branch) && t[x].number == if t[h].number > n then n else t[h].number
    ensures !ok ==> (x == c || (x in Down(t, g, h, c) && x in Up(t, g, c, h))) && read(x).None?
  {
    x, branch, ok := h, [], true;
    while read(x).value.number > n
      invariant Walked(read, t, g, h, x, c, branch)
      invariant t[x].number >= if t[h].number > n then n else t[h].number
      decreases t[x].number
    {
      WalkStep(read, t, g, h, x, c, branch);
      branch := branch + [x];
      x := read(x).value.parent;
      if read(x).None? { return false, x, branch; }
    }
  }

  /** Loop invariant: the walk from `h` stands at `x`, at or above `c`, and has recorded the way. */
  ghost predicate Walked(read: HeaderReader, t: Tree, g: Hash, h: Hash, x: Hash, c: Hash, branch: seq<Hash>)
    requires Rooted(t, g)
  {
    && OnChain(t, g, x, h) && OnChain(t, g, c, x) && OnChain(t, g, c, h)
    && read(x).Some?
    && branch == Down(t, g, h, x)
    && forall y | y in branch :: read(y).Some?
  }

  /** One step of the walk stays on the branch, and the header it needs next lies on the route. */
  lemma WalkStep(read: HeaderReader, t: Tree, g: Hash, h: Hash, x: Hash, c: Hash, branch: seq<Hash>)
    requires Rooted(t, g) && Walked(read, t, g, h, x, c, branch) && x != c
    ensures LinkedToParent(t, x)
    ensures var p := t[x].parent;
      && OnChain(t, g, p, h) && OnChain(t, g, c, p)
      && branch + [x] == Down(t, g, h, p)
      && (p == c || p in Down(t, g, h, c)) && (p == c || p in Up(t, g, c, h))
  {
    assert x != g;
    OnChainParent(t, g, c, x);
    var p := t[x].parent;
    OnChainTransitive(t, g, p, x, h);
    BranchMembers(t, g, c, h, p);
  }

  function Reverse<T>(s: seq<T>): (r: seq<T>)
    ensures |r| == |s|
    ensures forall i | 0 <= i < |s| :: r[i] == s[|s| - 1 - i]
  {
    if s == [] then [] else Reverse(s[1..]) + [s[0]]
  }
}
