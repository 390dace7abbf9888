/** The size-limited map behind the shared state cache: a hash map that remembers the order of its
    entries, a running estimate of the bytes it holds, and a limit that every `Add` restores.
  */
module LruMaps {
  import opened ChainTree
  import opened Keys

  /** A key of the state: in the top trie, or in the child trie named by `trie`. */
  datatype StateKey = Top(key: Bytes) | Child(trie: Bytes, key: Bytes)

  /** `None` records that the key is known to be missing. */
  type StateValue = Option<Bytes>

  datatype Entry = Entry(key: StateKey, value: StateValue)

  function KeySize(k: StateKey): nat {
    match k
    case Top(key) => |key|
    case Child(trie, key) => |trie| + |key|
  }

  function ValueSize(v: StateValue): nat {
    match v
    case Some(bytes) => |bytes|
    case None => 0
  }

  function EntrySize(e: Entry): nat { KeySize(e.key) + ValueSize(e.value) }

  /** The bytes that a list of entries is estimated to hold. */
  function TotalSize(es: seq<Entry>): nat {
    if es == [] then 0 else EntrySize(es[0]) + TotalSize(es[1..])
  }

  /** No two entries share a key. */
  ghost predicate Distinct(es: seq<Entry>) {
    forall i, j | 0 <= i < j < |es| :: es[i].key != es[j].key
  }

  /** The position of the entry for `k`, or the length when there is none. */
  function IndexOf(es: seq<Entry>, k: StateKey): (i: nat)
    ensures i <= |es|
    ensures i < |es| ==> es[i].key == k
    ensures forall j | 0 <= j < i :: es[j].key != k
  {
    if es == [] || es[0].key == k then 0 else 1 + IndexOf(es[1..], k)
  }

  function Lookup(es: seq<Entry>, k: StateKey): Option<StateValue> {
    var i := IndexOf(es, k);
    if i < |es| then Some(es[i].value) else None
  }

  // ------------------------------------------------- the operations on values

  function Without(es: seq<Entry>, k: StateKey): seq<Entry> {
    if es == [] then [] else if es[0].key == k then es[1..] else [es[0]] + Without(es[1..], k)
  }

  function Put(es: seq<Entry>, k: StateKey, v: StateValue): seq<Entry> {
    var i := IndexOf(es, k);
    if i < |es| then es[i := Entry(k, v)] else es + [Entry(k, v)]
  }

  /** Drops entries from the front until the rest fits. */
  function Evict(es: seq<Entry>, limit: nat): seq<Entry> {
    if TotalSize(es) > limit && es != [] then Evict(es[1..], limit) else es
  }

  function Added(es: seq<Entry>, limit: nat, k: StateKey, v: StateValue): seq<Entry> {
    Evict(Put(es, k, v), limit)
  }

  function AddedAll(es: seq<Entry>, limit: nat, batch: seq<Entry>): seq<Entry> {
    if batch == [] then es
    else var n := |batch| - 1; Added(AddedAll(es, limit, batch[..n]), limit, batch[n].key, batch[n].value)
  }

  /** The bindings that a list of writes leaves behind: the last one for a key wins. */
  function Bindings(batch: seq<Entry>): map<StateKey, StateValue> {
    if batch == [] then map[]
    else var n := |batch| - 1; Bindings(batch[..n])[batch[n].key := batch[n].value]
  }

  /** Drops the entries of all the given keys. */
  function WithoutAll(es: seq<Entry>, keys: set<StateKey>): seq<Entry> {
    if es == [] then []
    else (if es[0].key in keys then [] else [es[0]]) + WithoutAll(es[1..], keys)
  }

  function Refreshed(es: seq<Entry>, k: StateKey): seq<Entry> {
    var i := IndexOf(es, k);
    if i < |es| then es[..i] + es[i + 1..] + [es[i]] else es
  }

  // ------------------------------------------------- what the operations do

  lemma {:induction false} TotalSizeConcat(a: seq<Entry>, b: seq<Entry>)
    ensures TotalSize(a + b) == TotalSize(a) + TotalSize(b)
  {
    if a == [] {
      assert a + b == b;
    } else {
      assert (a + b)[1..] == a[1..] + b;
      TotalSizeConcat(a[1..], b);
    }
  }

  lemma {:induction false} TotalSizeSplit(es: seq<Entry>, i: nat)
    requires i < |es|
    ensures TotalSize(es) == TotalSize(es[..i]) + EntrySize(es[i]) + TotalSize(es[i + 1..])
  {
    if i > 0 {
      TotalSizeSplit(es[1..], i - 1);
      assert es[..i][1..] == es[1..][..i - 1];
      assert es[1..][i..] == es[i + 1..];
    }
  }

  /** Removing by key is cutting out the one position that `IndexOf` finds. */
  lemma WithoutIsCut(es: seq<Entry>, k: StateKey)
    ensures var i := IndexOf(es, k); Without(es, k) == if i < |es| then es[..i] + es[i + 1..] else es
  {
    CutAt(es, k, IndexOf(es, k));
  }

  lemma {:induction false} CutAt(es: seq<Entry>, k: StateKey, i: nat)
    requires i <= |es| && (i < |es| ==> es[i].key == k) && forall j | 0 <= j < i :: es[j].key != k
    ensures Without(es, k) == if i < |es| then es[..i] + es[i + 1..] else es
  {
    if i > 0 {
      CutAt(es[1..], k, i - 1);
      CutShift(es, i);
    }
  }

  lemma CutShift(es: seq<Entry>, i: nat)
    requires 0 < i <= |es|
    ensures [es[0]] + es[1..] == es
    ensures i < |es| ==> [es[0]] + (es[1..][..i - 1] + es[1..][i..]) == es[..i] + es[i + 1..]
  {
  }

  lemma {:induction false} WithoutMembers(es: seq<Entry>, k: StateKey, e: Entry)
    requires Distinct(es)
    ensures Distinct(Without(es, k))
    ensures e in Without(es, k) <==> e in es && e.key != k
  {
    if es != [] {
      WithoutMembers(es[1..], k, e);
      forall x | x in Without(es[1..], k) ensures x.key != es[0].key {
        WithoutMembers(es[1..], k, x);
        var j :| 0 <= j < |es[1..]| && es[1..][j] == x;
        assert x == es[j + 1];
      }
    }
  }

  lemma PutMembers(es: seq<Entry>, k: StateKey, v: StateValue, e: Entry)
    requires Distinct(es)
    ensures Distinct(Put(es, k, v))
    ensures e in Put(es, k, v) <==> e == Entry(k, v) || (e in es && e.key != k)
  {
    var i := IndexOf(es, k);
    var r := Put(es, k, v);
    assert r[i] == Entry(k, v);
    if e in es && e.key != k {
      var j :| 0 <= j < |es| && es[j] == e;
      assert r[j] == e;
    }
  }

  /** Eviction keeps the longest suffix that fits: one entry more would break the limit. */
  lemma {:induction false} EvictKeepsLongestSuffix(es: seq<Entry>, limit: nat)
    ensures var kept := Evict(es, limit); var n := |es| - |kept|;
      && 0 <= n && kept == es[n..] && TotalSize(kept) <= limit
      && (n > 0 ==> TotalSize(es[n - 1..]) > limit)
  {
    if TotalSize(es) > limit && es != [] {
      EvictKeepsLongestSuffix(es[1..], limit);
      var n := |es[1..]| - |Evict(es[1..], limit)|;
      assert es[1..][n..] == es[n + 1..];
      if n > 0 { assert es[1..][n - 1..] == es[n..]; } else { assert es[0..] == es; }
    } else {
      assert es[0..] == es;
    }
  }

  lemma EvictMembers(es: seq<Entry>, limit: nat, e: Entry)
    ensures e in Evict(es, limit) ==> e in es
  {
    EvictKeepsLongestSuffix(es, limit);
  }

  /** An add yields the new binding or nothing for its key, never the old one. */
  lemma AddedMembers(es: seq<Entry>, limit: nat, k: StateKey, v: StateValue, e: Entry)
    requires Distinct(es)
    ensures Distinct(Added(es, limit, k, v)) && TotalSize(Added(es, limit, k, v)) <= limit
    ensures e in Added(es, limit, k, v) ==> e == Entry(k, v) || (e in es && e.key != k)
  {
    PutMembers(es, k, v, e);
    EvictMembers(Put(es, k, v), limit, e);
    EvictKeepsLongestSuffix(Put(es, k, v), limit);
  }

  /** A batch of adds: every surviving entry is the batch's last word on its key, or untouched by it. */
  lemma {:induction false} AddedAllMembers(es: seq<Entry>, limit: nat, batch: seq<Entry>, e: Entry)
    requires Distinct(es)
    ensures Distinct(AddedAll(es, limit, batch))
    ensures e in AddedAll(es, limit, batch) ==>
      if e.key in Bindings(batch) then e.value == Bindings(batch)[e.key] else e in es
    decreases |batch|
  {
    if batch != [] {
      var n := |batch| - 1;
      AddedAllMembers(es, limit, batch[..n], e);
      AddedMembers(AddedAll(es, limit, batch[..n]), limit, batch[n].key, batch[n].value, e);
    }
  }

  lemma {:induction false} WithoutAllMembers(es: seq<Entry>, keys: set<StateKey>, e: Entry)
    ensures e in WithoutAll(es, keys) <==> e in es && e.key !in keys
    ensures |WithoutAll(es, keys)| <= |es|
  {
    if es != [] { WithoutAllMembers(es[1..], keys, e); }
  }

  lemma {:induction false} WithoutAllDistinct(es: seq<Entry>, keys: set<StateKey>)
    requires Distinct(es)
    ensures Distinct(WithoutAll(es, keys))
  {
    if es != [] {
      WithoutAllDistinct(es[1..], keys);
      forall e | e in WithoutAll(es[1..], keys) ensures e.key != es[0].key { WithoutAllMembers(es[1..], keys, e); }
    }
  }

  lemma MovedLast(es: seq<Entry>, i: nat, e: Entry)
    requires Distinct(es) && i < |es|
    ensures var r := es[..i] + es[i + 1..] + [es[i]];
      Distinct(r) && (e in r <==> e in es)
  {
    var r := es[..i] + es[i + 1..] + [es[i]];
    assert forall j | 0 <= j < |r| :: r[j] == es[if j < i then j else if j == |es| - 1 then i else j + 1];
    if e in es {
      var j :| 0 <= j < |es| && es[j] == e;
      assert e == r[if j < i then j else if j == i then |es| - 1 else j - 1];
    }
  }

  lemma MovedSize(es: seq<Entry>, i: nat)
    requires i < |es|
    ensures TotalSize(es[..i] + es[i + 1..] + [es[i]]) == TotalSize(es)
  {
    TotalSizeSplit(es, i);
    TotalSizeConcat(es[..i], es[i + 1..]);
    TotalSizeConcat(es[..i] + es[i + 1..], [es[i]]);
    assert TotalSize([es[i]]) == EntrySize(es[i]);
  }

  lemma RefreshedMembers(es: seq<Entry>, k: StateKey, e: Entry)
    requires Distinct(es)
    ensures Distinct(Refreshed(es, k)) && TotalSize(Refreshed(es, k)) == TotalSize(es)
    ensures e in Refreshed(es, k) <==> e in es
  {
    hide TotalSize, Distinct;
    var i := IndexOf(es, k);
    if i < |es| {
      MovedLast(es, i, e);
      MovedSize(es, i);
    }
  }

  // ------------------------------------------------- what is found, what goes next

  /** The bytes that an entry holds: its key, with the child trie's, and its value. */
  function BytesOf(e: Entry): Bytes {
    (match e.key case Top(key) => key case Child(trie, key) => trie + key)
    + if e.value.Some? then e.value.value else []
  }

  /** The estimate of an entry is the number of its bytes. */
  lemma SizeIsBytes(e: Entry)
    ensures EntrySize(e) == |BytesOf(e)|
  {
  }

  /** A held binding is found, and nothing else is. */
  lemma LookupExact(es: seq<Entry>, k: StateKey, v: StateValue)
    requires Distinct(es)
    ensures Lookup(es, k) == Some(v) <==> Entry(k, v) in es
    ensures Lookup(es, k) == None <==> forall e | e in es :: e.key != k
  {
    var i := IndexOf(es, k);
    if i < |es| { assert es[i] in es; }
    if Entry(k, v) in es {
      var j :| 0 <= j < |es| && es[j] == Entry(k, v);
      assert j == i;
    }
  }

  /** A new key becomes the youngest entry; a known one keeps its place, and no other entry moves. */
  lemma PutOrder(es: seq<Entry>, k: StateKey, v: StateValue)
    ensures var r := Put(es, k, v);
      if forall e | e in es :: e.key != k then r == es + [Entry(k, v)]
      else |r| == |es| && forall i | 0 <= i < |es| :: r[i].key == es[i].key && (es[i].key != k ==> r[i] == es[i])
  {
    var i := IndexOf(es, k);
    if i < |es| { assert es[i] in es; }
  }

  /** A key that is read becomes the youngest entry, and the others keep their order. */
  lemma RefreshedOrder(es: seq<Entry>, k: StateKey)
    ensures match Lookup(es, k)
      case Some(v) => Refreshed(es, k) == Without(es, k) + [Entry(k, v)]
      case None => Refreshed(es, k) == es
  {
    hide Without;
    WithoutIsCut(es, k);
  }

  lemma SuffixMembers(es: seq<Entry>, n: nat, i: nat, j: nat)
    requires Distinct(es) && n <= |es| && i <= j < |es| && es[i] in es[n..]
    ensures es[j] in es[n..]
  {
    var x :| 0 <= x < |es| - n && es[n..][x] == es[i];
    assert es[n + x] == es[i];
    assert es[n..][j - n] == es[j];
  }

  /** Entries go in order of age: one that goes takes all older ones along. */
  lemma OldestGoesFirst(es: seq<Entry>, limit: nat, i: nat, j: nat)
    requires Distinct(es) && i <= j < |es| && es[i] in Evict(es, limit)
    ensures es[j] in Evict(es, limit)
  {
    hide Evict, TotalSize, Distinct;
    EvictKeepsLongestSuffix(es, limit);
    SuffixMembers(es, |es| - |Evict(es, limit)|, i, j);
  }

  /** The entry that was read last is the last to go: as long as eviction leaves anything, it leaves that. */
  lemma ReadLastGoesLast(es: seq<Entry>, k: StateKey, limit: nat)
    requires Lookup(es, k).Some? && Evict(Refreshed(es, k), limit) != []
    ensures var kept := Evict(Refreshed(es, k), limit); kept[|kept| - 1] == Entry(k, Lookup(es, k).value)
  {
    hide Evict, Refreshed, Without, Lookup;
    RefreshedOrder(es, k);
    EvictKeepsLongestSuffix(Refreshed(es, k), limit);
  }

  /** Dropping keys keeps the order of the rest. */
  lemma {:induction false} WithoutAllOrder(es: seq<Entry>, keys: set<StateKey>, a: StateKey, b: StateKey)
    requires a !in keys && b !in keys && IndexOf(es, a) < IndexOf(es, b) < |es|
    ensures var r := WithoutAll(es, keys); IndexOf(r, a) < IndexOf(r, b) < |r|
  {
    var rest := WithoutAll(es[1..], keys);
    assert ([es[0]] + rest)[1..] == rest && [] + rest == rest;
    if es[0].key == a {
      WithoutAllHolds(es, keys, b);
    } else {
      WithoutAllOrder(es[1..], keys, a, b);
    }
  }

  lemma {:induction false} WithoutAllHolds(es: seq<Entry>, keys: set<StateKey>, b: StateKey)
    requires b !in keys && IndexOf(es, b) < |es|
    ensures IndexOf(WithoutAll(es, keys), b) < |WithoutAll(es, keys)|
  {
    var rest := WithoutAll(es[1..], keys);
    assert ([es[0]] + rest)[1..] == rest && [] + rest == rest;
    if es[0].key != b { WithoutAllHolds(es[1..], keys, b); }
  }

  lemma PutSize(es: seq<Entry>, k: StateKey, v: StateValue)
    ensures TotalSize(Put(es, k, v)) <= TotalSize(es) + EntrySize(Entry(k, v))
  {
    var i := IndexOf(es, k);
    if i < |es| {
      var r := Put(es, k, v);
      TotalSizeSplit(es, i);
      TotalSizeSplit(r, i);
      assert r[..i] == es[..i] && r[i + 1..] == es[i + 1..];
    } else {
      TotalSizeConcat(es, [Entry(k, v)]);
      assert TotalSize([Entry(k, v)]) == EntrySize(Entry(k, v)) + TotalSize([]);
    }
  }

  /** When everything fits, a batch of adds is found in full, and what it does not mention stays. */
  lemma {:induction false} AddedAllServes(es: seq<Entry>, limit: nat, batch: seq<Entry>, k: StateKey)
    requires Distinct(es) && TotalSize(es) + TotalSize(batch) <= limit
    ensures Distinct(AddedAll(es, limit, batch))
    ensures TotalSize(AddedAll(es, limit, batch)) <= TotalSize(es) + TotalSize(batch)
    ensures Lookup(AddedAll(es, limit, batch), k) ==
      if k in Bindings(batch) then Some(Bindings(batch)[k]) else Lookup(es, k)
    decreases |batch|
  {
    if batch != [] {
      hide TotalSize, Distinct, Lookup, Put;
      var n := |batch| - 1;
      var e := batch[n];
      BatchSize(batch, n);
      AddedAllServes(es, limit, batch[..n], k);
      var before := AddedAll(es, limit, batch[..n]);
      PutSize(before, e.key, e.value);
      NothingEvicted(Put(before, e.key, e.value), limit);
      PutServes(before, e.key, e.value, k);
    }
  }

  lemma BatchSize(batch: seq<Entry>, n: nat)
    requires |batch| == n + 1
    ensures TotalSize(batch) == TotalSize(batch[..n]) + EntrySize(batch[n])
  {
    TotalSizeSplit(batch, n);
    assert batch[n + 1..] == [];
  }

  lemma NothingEvicted(es: seq<Entry>, limit: nat)
    requires TotalSize(es) <= limit
    ensures Evict(es, limit) == es
  {
  }

  lemma PutServes(es: seq<Entry>, k: StateKey, v: StateValue, other: StateKey)
    requires Distinct(es)
    ensures Distinct(Put(es, k, v))
    ensures Lookup(Put(es, k, v), other) == if other == k then Some(v) else Lookup(es, other)
  {
    var r := Put(es, k, v);
    PutMembers(es, k, v, Entry(k, v));
    LookupExact(r, k, v);
    var i := IndexOf(es, other);
    if other != k {
      if i < |es| {
        assert r[i] == es[i];
        assert r[i] in r;
        LookupExact(r, other, es[i].value);
      } else {
        forall e | e in r ensures e.key != other { PutMembers(es, k, v, e); }
        LookupExact(r, other, None);
      }
    }
  }

  /** The map as the source keeps it: entries in order, the running size, the limit. */
  class LRUMap {
    var entries: seq<Entry>
    var used: nat
    const limit: nat

    /** The running counter is the size of what is stored, and within the limit. */
    ghost predicate Valid()
      reads this
    {
      Distinct(entries) && used == TotalSize(entries) && used <= limit
    }

    constructor (limit: nat)
      ensures Valid() && entries == [] && this.limit == limit
    {
      entries, used := [], 0;
      this.limit := limit;
    }

    method Remove(k: StateKey)
      requires Valid()
      modifies this
      ensures Valid() && entries == Without(old(entries), k)
    {
      var i := IndexOf(entries, k);
      WithoutIsCut(entries, k);
      if i < |entries| {
        TotalSizeSplit(entries, i);
        TotalSizeConcat(entries[..i], entries[i + 1..]);
        WithoutMembers(entries, k, entries[i]);
        var v := entries[i].value;
        entries := entries[..i] + entries[i + 1..];
        used := used - KeySize(k);
        used := used - ValueSize(v);
      }
    }

    /** Inserts or replaces, then evicts the oldest entries until the limit holds again. */
    method Add(k: StateKey, v: StateValue)
      requires Valid()
      modifies this
      ensures Valid() && entries == Added(old(entries), limit, k, v)
    {
      PutMembers(entries, k, v, Entry(k, v));
      var i := IndexOf(entries, k);
      used := used + ValueSize(v);
      if i < |entries| {
        TotalSizeSplit(entries, i);
        TotalSizeSplit(entries[i := Entry(k, v)], i);
        used := used - ValueSize(entries[i].value);
        entries := entries[i := Entry(k, v)];
      } else {
        TotalSizeConcat(entries, [Entry(k, v)]);
        assert TotalSize([Entry(k, v)]) == EntrySize(Entry(k, v));
        used := used + KeySize(k);
        entries := entries + [Entry(k, v)];
      }
      ghost var put := Put(old(entries), k, v);
      assert entries == put;
      while used > limit
        invariant Distinct(entries) && used == TotalSize(entries)
        invariant Evict(entries, limit) == Evict(put, limit)
        decreases |entries|
      {
        if entries == [] { break; }
        used := used - KeySize(entries[0].key);
        used := used - ValueSize(entries[0].value);
        entries := entries[1..];
      }
    }

    /** Reads the binding of `k` and moves it to the young end. */
    method Get(k: StateKey) returns (v: Option<StateValue>)
      requires Valid()
      modifies this
      ensures Valid() && entries == Refreshed(old(entries), k) && used == old(used)
      ensures v == Lookup(old(entries), k)
    {
      var i := IndexOf(entries, k);
      if i < |entries| {
        RefreshedMembers(entries, k, entries[i]);
        v := Some(entries[i].value);
        entries := entries[..i] + entries[i + 1..] + [entries[i]];
      } else {
        v := None;
      }
    }

    method Clear()
      modifies this
      ensures Valid() && entries == [] && used == 0
    {
      entries, used := [], 0;
    }
  }

  /** The two limits that `new_shared_cache` splits one budget into. */
  function SharedLimits(size: nat, ratio: (nat, nat)): (int, int)
    requires ratio.1 > 0
  {
    var top := if ratio.1 >= ratio.0 then ratio.1 - ratio.0 else 0;
    (size * top / ratio.1, size * ratio.0 / ratio.1)
  }

  /** The split fits the budget for every child ratio up to one. */
  lemma SharedLimitsFit(size: nat, ratio: (nat, nat))
    requires 0 < ratio.1
    ensures var (top, child) := SharedLimits(size, ratio);
      top >= 0 && child >= 0 && (ratio.0 <= ratio.1 ==> top + child <= size)
  {
    var d := ratio.1;
    var x, y := size * (if d >= ratio.0 then d - ratio.0 else 0), size * ratio.0;
    Quotient(x, d);
    Quotient(y, d);
    if ratio.0 <= d {
      assert x + y == size * d;
      SumFits(x / d, y / d, size, d, x, y);
    }
  }

  /** Each part has its share of the size, rounded down: the child tries theirs by the ratio, the top trie the rest. */
  lemma SharedLimitsShare(size: nat, ratio: (nat, nat))
    requires 0 < ratio.1
    ensures var (top, child) := SharedLimits(size, ratio);
      && child * ratio.1 <= size * ratio.0 < (child + 1) * ratio.1
      && (ratio.0 <= ratio.1 ==> top * ratio.1 <= size * (ratio.1 - ratio.0) < (top + 1) * ratio.1)
      && (ratio.0 > ratio.1 ==> top == 0)
  {
    var (top, child) := SharedLimits(size, ratio);
    RoundedDown(size * ratio.0, ratio.1);
    if ratio.0 <= ratio.1 {
      RoundedDown(size * (ratio.1 - ratio.0), ratio.1);
    } else {
      assert size * 0 == 0;
    }
  }

  lemma RoundedDown(x: nat, d: nat)
    requires d > 0
    ensures (x / d) * d <= x < (x / d + 1) * d
  {
    assert x == (x / d) * d + x % d;
    assert (x / d + 1) * d == (x / d) * d + d;
  }

  lemma Quotient(x: nat, d: nat)
    requires d > 0
    ensures x / d >= 0 && (x / d) * d <= x
  {
  }

  lemma SumFits(a: nat, b: nat, size: nat, d: nat, x: nat, y: nat)
    requires d > 0 && a * d <= x && b * d <= y && x + y == size * d
    ensures a + b <= size
  {
    assert (a + b) * d == a * d + b * d;
    if a + b > size { NoSmallerProduct(size + 1, a + b, d); }
  }

  lemma NoSmallerProduct(m: nat, n: nat, d: nat)
    requires m <= n
    ensures m * d <= n * d
  {
  }
}
