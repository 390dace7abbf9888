/** Storage notifications: one index of who listens to which keys, shared by all subscribers, and one
    pruned event sent to all of them. Nothing that any subscriber asked for is lost on the way.
  */
module Notifications {
  import opened ChainTree
  import opened Keys

  type StorageKey = Bytes
  type Id = nat

  datatype Change = Change(key: StorageKey, value: Option<Bytes>)
  datatype ChildChanges = ChildChanges(child: StorageKey, changes: seq<Change>)

  /** The keys a subscriber asked for; `None` asks for all of them. */
  type Filter = Option<set<StorageKey>>

  /** What a subscriber asked for: top-level keys, and keys of some child storages. */
  datatype Wish = Wish(filter: Filter, children: Option<map<StorageKey, Filter>>)

  /** An event as a subscriber receives it: the shared changes with its own filters. */
  datatype ChangeSet = ChangeSet(hash: Hash, changes: seq<Change>, children: seq<ChildChanges>, wish: Wish)

  /** One storage item of one block, as a subscriber sees it. */
  datatype Item = Item(hash: Hash, child: Option<StorageKey>, key: StorageKey, value: Option<Bytes>)

  // ------------------------------------------------------------ what a subscriber sees

  predicate Asked(f: Filter, k: StorageKey) { f.None? || k in f.value }

  function Filtered(hash: Hash, child: Option<StorageKey>, changes: seq<Change>, f: Filter): seq<Item> {
    if changes == [] then []
    else
      var n := |changes| - 1;
      var before := Filtered(hash, child, changes[..n], f);
      if Asked(f, changes[n].key) then before + [Item(hash, child, changes[n].key, changes[n].value)] else before
  }

  function ChildItems(hash: Hash, children: seq<ChildChanges>, filters: map<StorageKey, Filter>): seq<Item> {
    if children == [] then []
    else
      var n := |children| - 1;
      var before := ChildItems(hash, children[..n], filters);
      var c := children[n];
      if c.child in filters then before + Filtered(hash, Some(c.child), c.changes, filters[c.child]) else before
  }

  /** `StorageChangeSet::iter`. */
  function Iter(e: ChangeSet): seq<Item> {
    Filtered(e.hash, None, e.changes, e.wish.filter)
    + if e.wish.children.Some? then ChildItems(e.hash, e.children, e.wish.children.value) else []
  }

  /** The items made of the changes at `picks`, in order. */
  ghost predicate ItemsAt(items: seq<Item>, picks: seq<nat>, hash: Hash, child: Option<StorageKey>,
                          changes: seq<Change>) {
    && |items| == |picks|
    && (forall k | 0 <= k < |picks| ::
          && picks[k] < |changes|
          && items[k] == Item(hash, child, changes[picks[k]].key, changes[picks[k]].value))
    && (forall k, l | 0 <= k < l < |picks| :: picks[k] < picks[l])
  }

  /** A list of changes is seen as one item for each change asked for, in order, with its key and value. */
  lemma {:induction false} FilteredExact(hash: Hash, child: Option<StorageKey>, changes: seq<Change>, f: Filter)
    returns (picks: seq<nat>)
    ensures ItemsAt(Filtered(hash, child, changes, f), picks, hash, child, changes)
    ensures forall i: nat :: i in picks <==> i < |changes| && (f == None || changes[i].key in f.value)
  {
    picks := [];
    if changes != [] {
      var n := |changes| - 1;
      picks := FilteredExact(hash, child, changes[..n], f);
      if Asked(f, changes[n].key) { picks := picks + [n]; }
    }
  }

  /** The items of child storages stand behind each other, storage by storage; those not asked for are left out. */
  lemma {:induction false} ChildItemsExact(hash: Hash, children: seq<ChildChanges>, filters: map<StorageKey, Filter>)
    returns (parts: seq<seq<Item>>)
    ensures |parts| == |children| && ChildItems(hash, children, filters) == Flattened(parts)
    ensures forall c | 0 <= c < |children| ::
      if children[c].child in filters
      then parts[c] == Filtered(hash, Some(children[c].child), children[c].changes, filters[children[c].child])
      else parts[c] == []
  {
    parts := [];
    if children != [] {
      var n := |children| - 1;
      var c := children[n];
      var before := ChildItemsExact(hash, children[..n], filters);
      parts := before + [if c.child in filters then Filtered(hash, Some(c.child), c.changes, filters[c.child]) else []];
      assert parts[..n] == before;
    }
  }

  function Flattened(parts: seq<seq<Item>>): seq<Item> {
    if parts == [] then [] else Flattened(parts[..|parts| - 1]) + parts[|parts| - 1]
  }

  /** A subscriber sees first the top-level items, then those of the child storages it asked for, and nothing else. */
  lemma IterExact(e: ChangeSet) returns (picks: seq<nat>, parts: seq<seq<Item>>)
    ensures |picks| <= |Iter(e)| && ItemsAt(Iter(e)[..|picks|], picks, e.hash, None, e.changes)
    ensures forall i: nat ::
      i in picks <==> i < |e.changes| && (e.wish.filter == None || e.changes[i].key in e.wish.filter.value)
    ensures Iter(e)[|picks|..] == Flattened(parts)
    ensures e.wish.children.None? ==> parts == []
    ensures e.wish.children.Some? ==> |parts| == |e.children| && forall c | 0 <= c < |e.children| ::
      var k := e.children[c].child;
      parts[c] == if k in e.wish.children.value
                  then Filtered(e.hash, Some(k), e.children[c].changes, e.wish.children.value[k]) else []
  {
    picks := FilteredExact(e.hash, None, e.changes, e.wish.filter);
    parts := [];
    if e.wish.children.Some? { parts := ChildItemsExact(e.hash, e.children, e.wish.children.value); }
    var top := Filtered(e.hash, None, e.changes, e.wish.filter);
    assert Iter(e)[..|picks|] == top;
    assert Iter(e)[|picks|..] == Flattened(parts);
  }

  // ------------------------------------------------------------ the index

  /** The subscribers of single keys and of all keys, for the top level or for one child storage. */
  datatype Listeners = Listeners(keys: map<StorageKey, set<Id>>, wildcards: set<Id>)

  const NOBODY := Listeners(map[], {})

  predicate HasKey(l: Listeners, k: StorageKey, id: Id) { k in l.keys && id in l.keys[k] }

  function FilterOf(keys: Option<seq<StorageKey>>): Filter {
    if keys.None? then None else Some(set k | k in keys.value)
  }

  /** `listen_from`. */
  function ListenedFrom(l: Listeners, id: Id, keys: Option<seq<StorageKey>>): Listeners {
    match keys
    case None => l.(wildcards := l.wildcards + {id})
    case Some(ks) =>
      l.(keys := map k | k in l.keys.Keys + (set k | k in ks) ::
        (if k in l.keys then l.keys[k] else {}) + (if k in ks then {id} else {}))
  }

  /** `remove_subscriber_from`: a key nobody listens to any more leaves the index. */
  function RemovedFrom(l: Listeners, id: Id, f: Filter): Listeners {
    match f
    case None => l.(wildcards := l.wildcards - {id})
    case Some(ks) =>
      l.(keys := map k | k in l.keys && (k in ks ==> l.keys[k] - {id} != {}) ::
        if k in ks then l.keys[k] - {id} else l.keys[k])
  }

  /** The index says of every subscriber exactly what it wants here. */
  ghost predicate Mirrors(l: Listeners, want: map<Id, Filter>) {
    && (forall id :: id in l.wildcards <==> id in want && want[id].None?)
    && (forall k, id :: HasKey(l, k, id) <==> id in want && want[id].Some? && k in want[id].value)
    && (forall k | k in l.keys :: l.keys[k] != {})
  }

  lemma ListenedFromMirrors(l: Listeners, want: map<Id, Filter>, id: Id, keys: Option<seq<StorageKey>>)
    requires Mirrors(l, want) && id !in want
    ensures Mirrors(ListenedFrom(l, id, keys), want[id := FilterOf(keys)])
  {
    var l', want' := ListenedFrom(l, id, keys), want[id := FilterOf(keys)];
    forall k, i ensures HasKey(l', k, i) <==> i in want' && want'[i].Some? && k in want'[i].value {
      assert HasKey(l', k, i) <==> HasKey(l, k, i) || (i == id && keys.Some? && k in keys.value);
      assert !HasKey(l, k, id);
    }
    forall k | k in l'.keys ensures l'.keys[k] != {} {
      if keys.Some? && k in keys.value { assert id in l'.keys[k]; } else { assert l'.keys[k] == l.keys[k]; }
    }
  }

  lemma RemovedFromMirrors(l: Listeners, want: map<Id, Filter>, id: Id)
    requires Mirrors(l, want) && id in want
    ensures Mirrors(RemovedFrom(l, id, want[id]), want - {id})
  {
    var l', want' := RemovedFrom(l, id, want[id]), want - {id};
    forall k, i ensures HasKey(l', k, i) <==> i in want' && want'[i].Some? && k in want'[i].value {
      assert HasKey(l, k, id) <==> want[id].Some? && k in want[id].value;
      if i != id && HasKey(l, k, i) { assert i in l.keys[k] - {id}; }
      assert HasKey(l', k, i) <==> HasKey(l, k, i) && i != id;
      assert HasKey(l, k, i) <==> i in want && want[i].Some? && k in want[i].value;
    }
  }

  // ------------------------------------------------------------ collecting an event

  /** The changes somebody listens to. */
  function Kept(l: Listeners, changes: seq<Change>): seq<Change> {
    if changes == [] then []
    else
      var n := |changes| - 1;
      if l.wildcards != {} || changes[n].key in l.keys then Kept(l, changes[..n]) + [changes[n]]
        else Kept(l, changes[..n])
  }

  /** Those who listen to the key of one of the changes. */
  function KeySubscribers(l: Listeners, changes: seq<Change>): set<Id> {
    if changes == [] then {}
    else
      var n := |changes| - 1;
      KeySubscribers(l, changes[..n]) + if changes[n].key in l.keys then l.keys[changes[n].key] else {}
  }

  function At(children: map<StorageKey, Listeners>, child: StorageKey): Listeners {
    if child in children then children[child] else NOBODY
  }

  function KeptChildren(index: map<StorageKey, Listeners>, children: seq<ChildChanges>): seq<ChildChanges> {
    if children == [] then []
    else
      var n := |children| - 1;
      var before := KeptChildren(index, children[..n]);
      var kept := Kept(At(index, children[n].child), children[n].changes);
      if kept != [] then before + [ChildChanges(children[n].child, kept)] else before
  }

  function ChildSubscribers(index: map<StorageKey, Listeners>, children: seq<ChildChanges>): set<Id> {
    if children == [] then {}
    else
      var n := |children| - 1;
      var l := At(index, children[n].child);
      ChildSubscribers(index, children[..n]) + KeySubscribers(l, children[n].changes)
        + if children[n].changes != [] then l.wildcards else {}
  }

  /** Pruning a list of changes takes away nothing that somebody in the index asked for. */
  lemma {:induction false} KeptLosesNothing(l: Listeners, want: map<Id, Filter>, id: Id, hash: Hash,
                                            child: Option<StorageKey>, changes: seq<Change>)
    requires Mirrors(l, want) && id in want
    ensures Filtered(hash, child, Kept(l, changes), want[id]) == Filtered(hash, child, changes, want[id])
  {
    if changes != [] {
      var n := |changes| - 1;
      KeptLosesNothing(l, want, id, hash, child, changes[..n]);
      var kept := Kept(l, changes[..n]);
      if l.wildcards != {} || changes[n].key in l.keys {
        assert (kept + [changes[n]])[..|kept|] == kept;
      } else {
        assert !HasKey(l, changes[n].key, id) && id !in l.wildcards;
      }
    }
  }

  /** Whoever has an item in a list of changes is among its subscribers. */
  lemma {:induction false} SubscribersComplete(l: Listeners, want: map<Id, Filter>, id: Id, hash: Hash,
                                               child: Option<StorageKey>, changes: seq<Change>)
    requires Mirrors(l, want) && id in want
    ensures Filtered(hash, child, changes, want[id]) != [] <==>
      id in KeySubscribers(l, changes) || (id in l.wildcards && changes != [])
  {
    if changes != [] {
      var n := |changes| - 1;
      SubscribersComplete(l, want, id, hash, child, changes[..n]);
      assert HasKey(l, changes[n].key, id) <==> want[id].Some? && changes[n].key in want[id].value;
    }
  }

  lemma {:induction false} NobodyIsKept(changes: seq<Change>)
    ensures Kept(NOBODY, changes) == [] && KeySubscribers(NOBODY, changes) == {}
  {
    if changes != [] { NobodyIsKept(changes[..|changes| - 1]); }
  }

  // ------------------------------------------------------------ the registry

  /** `inboxes` holds everything ever sent to a subscriber. */
  datatype Registry = Registry(nextId: Id, top: Listeners, children: map<StorageKey, Listeners>,
                               sinks: map<Id, Wish>, inboxes: map<Id, seq<ChangeSet>>)

  function TopWants(sinks: map<Id, Wish>): map<Id, Filter> { map id | id in sinks :: sinks[id].filter }

  predicate WantsChild(w: Wish, child: StorageKey) { w.children.Some? && child in w.children.value }

  function ChildWants(sinks: map<Id, Wish>, child: StorageKey): map<Id, Filter> {
    map id | id in sinks && WantsChild(sinks[id], child) :: sinks[id].children.value[child]
  }

  ghost predicate Valid(s: Registry) {
    && Mirrors(s.top, TopWants(s.sinks))
    && (forall child :: Mirrors(At(s.children, child), ChildWants(s.sinks, child)))
    && (forall id | id in s.sinks :: id <= s.nextId)
    && (forall id | id in s.sinks :: id in s.inboxes)
  }

  lemma {:induction false} ChildrenLoseNothing(s: Registry, id: Id, hash: Hash, children: seq<ChildChanges>)
    requires Valid(s) && id in s.sinks && s.sinks[id].children.Some?
    ensures var filters := s.sinks[id].children.value;
      && ChildItems(hash, KeptChildren(s.children, children), filters) == ChildItems(hash, children, filters)
      && (ChildItems(hash, children, filters) != [] <==> id in ChildSubscribers(s.children, children))
  {
    if children != [] {
      var n := |children| - 1;
      var c := children[n];
      var filters := s.sinks[id].children.value;
      var l, want := At(s.children, c.child), ChildWants(s.sinks, c.child);
      ChildrenLoseNothing(s, id, hash, children[..n]);
      var before, kept := KeptChildren(s.children, children[..n]), Kept(l, c.changes);
      if c.child in filters {
        KeptLosesNothing(l, want, id, hash, Some(c.child), c.changes);
        SubscribersComplete(l, want, id, hash, Some(c.child), c.changes);
      } else {
        StrangerNotSubscribed(l, want, id, c.changes);
      }
      if kept != [] {
        var all := before + [ChildChanges(c.child, kept)];
        assert all[..|before|] == before && all[|before|] == ChildChanges(c.child, kept);
      }
    }
  }

  lemma {:induction false} StrangerNotSubscribed(l: Listeners, want: map<Id, Filter>, id: Id, changes: seq<Change>)
    requires Mirrors(l, want) && id !in want
    ensures id !in KeySubscribers(l, changes) && id !in l.wildcards
  {
    if changes != [] {
      StrangerNotSubscribed(l, want, id, changes[..|changes| - 1]);
      assert !HasKey(l, changes[|changes| - 1].key, id);
    }
  }

  /** Who is sent the event of a block; nobody when the pruned event is empty. */
  function Notified(s: Registry, changes: seq<Change>, children: seq<ChildChanges>): set<Id> {
    if Kept(s.top, changes) == [] && KeptChildren(s.children, children) == [] then {}
    else
      var subscribers := s.top.wildcards + KeySubscribers(s.top, changes) + ChildSubscribers(s.children, children);
      set id | id in s.sinks && id in subscribers
  }

  /** What a subscriber sees through the shared event is what its own filters select from the full changes;
      a subscriber that is not notified would have seen nothing. */
  lemma SharedEventLosesNothing(s: Registry, id: Id, hash: Hash, changes: seq<Change>, children: seq<ChildChanges>)
    requires Valid(s) && id in s.sinks
    ensures var full := Iter(ChangeSet(hash, changes, children, s.sinks[id]));
      && Iter(ChangeSet(hash, Kept(s.top, changes), KeptChildren(s.children, children), s.sinks[id])) == full
      && (id !in Notified(s, changes, children) ==> full == [])
      && (id in Notified(s, changes, children) && full == [] ==> s.sinks[id].filter.None?)
  {
    var want := TopWants(s.sinks);
    KeptLosesNothing(s.top, want, id, hash, None, changes);
    SubscribersComplete(s.top, want, id, hash, None, changes);
    if s.sinks[id].children.Some? {
      ChildrenLoseNothing(s, id, hash, children);
    } else {
      NoChildSubscribed(s, id, children);
    }
  }

  lemma {:induction false} NoChildSubscribed(s: Registry, id: Id, children: seq<ChildChanges>)
    requires Valid(s) && id in s.sinks && s.sinks[id].children.None?
    ensures id !in ChildSubscribers(s.children, children)
  {
    if children != [] {
      var n := |children| - 1;
      NoChildSubscribed(s, id, children[..n]);
      StrangerNotSubscribed(At(s.children, children[n].child), ChildWants(s.sinks, children[n].child), id,
                            children[n].changes);
    }
  }

  // ------------------------------------------------------------ listening and leaving

  datatype ChildKeys = ChildKeys(child: StorageKey, keys: Option<seq<StorageKey>>)

  function ListenedChildren(index: map<StorageKey, Listeners>, id: Id,
                            asked: seq<ChildKeys>): map<StorageKey, Listeners>
  {
    if asked == [] then index
    else
      var n := |asked| - 1;
      var before := ListenedChildren(index, id, asked[..n]);
      before[asked[n].child := ListenedFrom(At(before, asked[n].child), id, asked[n].keys)]
  }

  function ChildFilters(asked: seq<ChildKeys>): map<StorageKey, Filter> {
    if asked == [] then map[]
    else var n := |asked| - 1; ChildFilters(asked[..n])[asked[n].child := FilterOf(asked[n].keys)]
  }

  function WishOf(keys: Option<seq<StorageKey>>, asked: Option<seq<ChildKeys>>): Wish {
    Wish(FilterOf(keys), if asked.Some? then Some(ChildFilters(asked.value)) else None)
  }

  /** `listen`. */
  function Listened(s: Registry, keys: Option<seq<StorageKey>>, asked: Option<seq<ChildKeys>>): Registry {
    var id := s.nextId + 1;
    Registry(id, ListenedFrom(s.top, id, keys),
             if asked.Some? then ListenedChildren(s.children, id, asked.value) else s.children,
             s.sinks[id := WishOf(keys, asked)], s.inboxes[id := []])
  }

  /** The recorded wish is what was asked: the listed keys or all, for the top level and for each listed child
      storage. */
  lemma WishIsAsked(keys: Option<seq<StorageKey>>, asked: Option<seq<ChildKeys>>, k: StorageKey)
    requires asked.Some? ==> DistinctChildren(asked.value)
    ensures var w := WishOf(keys, asked);
      && (Asked(w.filter, k) <==> keys == None || k in keys.value)
      && (w.children.Some? <==> asked.Some?)
      && (asked.Some? ==>
            && (forall child :: WantsChild(w, child) <==> exists i | 0 <= i < |asked.value| ::
              asked.value[i].child == child)
            && (forall i | 0 <= i < |asked.value| ::
                  && asked.value[i].child in w.children.value
                  && (Asked(w.children.value[asked.value[i].child], k) <==>
                        asked.value[i].keys == None || k in asked.value[i].keys.value)))
  {
    if asked.Some? {
      forall child ensures child in ChildFilters(asked.value) <==> exists i | 0 <= i < |asked.value| ::
        asked.value[i].child == child {
        ChildFiltersDomain(asked.value, child);
      }
      forall i | 0 <= i < |asked.value|
        ensures asked.value[i].child in ChildFilters(asked.value)
        ensures ChildFilters(asked.value)[asked.value[i].child] == FilterOf(asked.value[i].keys)
      {
        ChildFilterAt(asked.value, i);
      }
    }
  }

  lemma {:induction false} ChildFilterAt(asked: seq<ChildKeys>, i: nat)
    requires DistinctChildren(asked) && i < |asked|
    ensures asked[i].child in ChildFilters(asked) && ChildFilters(asked)[asked[i].child] == FilterOf(asked[i].keys)
  {
    var n := |asked| - 1;
    if i < n { ChildFilterAt(asked[..n], i); }
  }

  function RemovedChildren(index: map<StorageKey, Listeners>, id: Id,
                           filters: map<StorageKey, Filter>): map<StorageKey, Listeners>
  {
    map c | c in index && (c in filters ==> RemovedFrom(index[c], id, filters[c]) != NOBODY) ::
      if c in filters then RemovedFrom(index[c], id, filters[c]) else index[c]
  }

  /** `remove_subscriber`. */
  function Removed(s: Registry, id: Id): Registry {
    if id !in s.sinks then s
    else
      var w := s.sinks[id];
      s.(top := RemovedFrom(s.top, id, w.filter),
         children := if w.children.Some? then RemovedChildren(s.children, id, w.children.value) else s.children,
         sinks := s.sinks - {id})
  }

  ghost predicate DistinctChildren(asked: seq<ChildKeys>) {
    forall i, j | 0 <= i < j < |asked| :: asked[i].child != asked[j].child
  }

  lemma {:induction false} ChildFiltersDomain(asked: seq<ChildKeys>, child: StorageKey)
    ensures child in ChildFilters(asked) <==> exists i | 0 <= i < |asked| :: asked[i].child == child
  {
    if asked != [] {
      var n := |asked| - 1;
      ChildFiltersDomain(asked[..n], child);
      if i :| 0 <= i < |asked| && asked[i].child == child { assert i < n ==> asked[..n][i].child == child; }
    }
  }

  lemma {:induction false} ListenedChildrenAt(index: map<StorageKey, Listeners>, id: Id, asked: seq<ChildKeys>,
                                              child: StorageKey)
    returns (keys: Option<seq<StorageKey>>)
    requires DistinctChildren(asked)
    ensures child !in ChildFilters(asked) ==> At(ListenedChildren(index, id, asked), child) == At(index, child)
    ensures child in ChildFilters(asked) ==>
      && ChildFilters(asked)[child] == FilterOf(keys)
      && At(ListenedChildren(index, id, asked), child) == ListenedFrom(At(index, child), id, keys)
  {
    keys := None;
    if asked != [] {
      var n := |asked| - 1;
      keys := ListenedChildrenAt(index, id, asked[..n], child);
      if asked[n].child == child {
        ChildFiltersDomain(asked[..n], child);
        keys := asked[n].keys;
      }
    }
  }

  lemma NewChildWant(sinks: map<Id, Wish>, id: Id, w: Wish, child: StorageKey)
    requires id !in sinks
    ensures id !in ChildWants(sinks, child)
    ensures ChildWants(sinks[id := w], child) ==
      if WantsChild(w, child) then ChildWants(sinks, child)[id := w.children.value[child]] else ChildWants(sinks, child)
  {
  }

  lemma ListenKeepsValid(s: Registry, keys: Option<seq<StorageKey>>, asked: Option<seq<ChildKeys>>)
    requires Valid(s) && (asked.Some? ==> DistinctChildren(asked.value))
    ensures Valid(Listened(s, keys, asked))
  {
    hide Mirrors, ListenedFrom, ChildWants, ListenedChildren, FilterOf;
    var s', id := Listened(s, keys, asked), s.nextId + 1;
    ListenedFromMirrors(s.top, TopWants(s.sinks), id, keys);
    assert TopWants(s'.sinks) == TopWants(s.sinks)[id := FilterOf(keys)];
    forall child ensures Mirrors(At(s'.children, child), ChildWants(s'.sinks, child)) {
      var before := ChildWants(s.sinks, child);
      if asked.Some? && child in ChildFilters(asked.value) {
        var ks := ListenedChildrenAt(s.children, id, asked.value, child);
        NewChildWant(s.sinks, id, WishOf(keys, asked), child);
        ListenedFromMirrors(At(s.children, child), before, id, ks);
      } else {
        if asked.Some? { var _ := ListenedChildrenAt(s.children, id, asked.value, child); }
        NewChildWant(s.sinks, id, WishOf(keys, asked), child);
      }
    }
  }

  lemma RemovedChildrenAt(index: map<StorageKey, Listeners>, id: Id, filters: map<StorageKey, Filter>,
                          child: StorageKey)
    ensures At(RemovedChildren(index, id, filters), child) ==
      if child in filters then RemovedFrom(At(index, child), id, filters[child]) else At(index, child)
  {
    if child in filters { assert RemovedFrom(NOBODY, id, filters[child]) == NOBODY; }
  }

  lemma RemoveKeepsValid(s: Registry, id: Id)
    requires Valid(s)
    ensures Valid(Removed(s, id))
  {
    hide Mirrors, RemovedFrom;
    if id in s.sinks {
      var s', w := Removed(s, id), s.sinks[id];
      RemovedFromMirrors(s.top, TopWants(s.sinks), id);
      assert TopWants(s'.sinks) == TopWants(s.sinks) - {id};
      forall child ensures Mirrors(At(s'.children, child), ChildWants(s'.sinks, child)) {
        var before := ChildWants(s.sinks, child);
        if w.children.Some? { RemovedChildrenAt(s.children, id, w.children.value, child); }
        if WantsChild(w, child) {
          RemovedFromMirrors(At(s.children, child), before, id);
          assert ChildWants(s'.sinks, child) == before - {id};
        } else {
          assert ChildWants(s'.sinks, child) == before;
        }
      }
    }
  }

  // ------------------------------------------------------------ triggering

  function RemovedAll(s: Registry, ids: seq<Id>): Registry {
    if ids == [] then s else Removed(RemovedAll(s, ids[..|ids| - 1]), ids[|ids| - 1])
  }

  function Sent(s: Registry, hash: Hash, changes: seq<Change>, children: seq<ChildChanges>, closed: set<Id>): Registry {
    var to := Notified(s, changes, children);
    var kept, keptChildren := Kept(s.top, changes), KeptChildren(s.children, children);
    s.(inboxes := map id | id in s.inboxes ::
      if id in to && id in s.sinks && id !in closed
      then s.inboxes[id] + [ChangeSet(hash, kept, keptChildren, s.sinks[id])]
      else s.inboxes[id])
  }

  predicate EmptyEvent(s: Registry, changes: seq<Change>, children: seq<ChildChanges>) {
    Kept(s.top, changes) == [] && KeptChildren(s.children, children) == []
  }

  /** `trigger`: the event goes to the open sinks that are concerned, and closed sinks are removed, in some order. */
  function Triggered(s: Registry, hash: Hash, changes: seq<Change>, children: seq<ChildChanges>,
                     closed: set<Id>, leaving: seq<Id>): Registry
  {
    if EmptyEvent(s, changes, children) then s else RemovedAll(Sent(s, hash, changes, children, closed), leaving)
  }

  lemma {:induction false} RemovedAllKeeps(s: Registry, ids: seq<Id>)
    requires Valid(s)
    ensures Valid(RemovedAll(s, ids))
    ensures RemovedAll(s, ids).sinks == s.sinks - (set id | id in ids)
    ensures RemovedAll(s, ids).inboxes == s.inboxes && RemovedAll(s, ids).nextId == s.nextId
  {
    hide Valid, RemovedFrom, RemovedChildren;
    if ids == [] {
      assert s.sinks - {} == s.sinks;
    } else {
      var n := |ids| - 1;
      RemovedAllKeeps(s, ids[..n]);
      RemoveKeepsValid(RemovedAll(s, ids[..n]), ids[n]);
      assert (set id | id in ids) == (set id | id in ids[..n]) + {ids[n]};
    }
  }

  lemma SentKeepsValid(s: Registry, hash: Hash, changes: seq<Change>, children: seq<ChildChanges>, closed: set<Id>)
    requires Valid(s)
    ensures Valid(Sent(s, hash, changes, children, closed))
  {
  }

  /** Triggering removes exactly the closed sinks, and those only when there is something to send; a subscriber of
      all top-level keys is then notified in any case. */
  lemma TriggerRemoves(s: Registry, hash: Hash, changes: seq<Change>, children: seq<ChildChanges>, closed: set<Id>,
                       leaving: seq<Id>, id: Id)
    requires Valid(s) && forall i :: i in leaving <==> i in s.sinks && i in closed
    ensures var t := Triggered(s, hash, changes, children, closed, leaving);
      && (id in t.sinks <==> id in s.sinks && (EmptyEvent(s, changes, children) || id !in closed))
      && (id in t.sinks ==> t.sinks[id] == s.sinks[id])
    ensures id in s.sinks && s.sinks[id].filter.None? ==>
      (id in Notified(s, changes, children) <==> !EmptyEvent(s, changes, children))
  {
    SentKeepsValid(s, hash, changes, children, closed);
    SentFrame(s, hash, changes, children, closed);
    RemovedAllKeeps(Sent(s, hash, changes, children, closed), leaving);
    assert Mirrors(s.top, TopWants(s.sinks));
  }

  // ------------------------------------------------------------ histories

  datatype Step =
    | Listen(keys: Option<seq<StorageKey>>, asked: Option<seq<ChildKeys>>)
    | Trigger(hash: Hash, changes: seq<Change>, children: seq<ChildChanges>, closed: set<Id>, leaving: seq<Id>)

  ghost predicate Enabled(s: Registry, step: Step) {
    match step
    case Listen(_, asked) => asked.Some? ==> DistinctChildren(asked.value)
    case Trigger(_, _, _, closed, leaving) => forall id :: id in leaving <==> id in s.sinks && id in closed
  }

  function Next(s: Registry, step: Step): Registry {
    match step
    case Listen(keys, asked) => Listened(s, keys, asked)
    case Trigger(hash, changes, children, closed, leaving) => Triggered(s, hash, changes, children, closed, leaving)
  }

  const EMPTY := Registry(0, NOBODY, map[], map[], map[])

  ghost predicate IsRun(ss: seq<Registry>, steps: seq<Step>) {
    && |ss| == |steps| + 1
    && ss[0] == EMPTY
    && forall i | 0 <= i < |steps| :: Enabled(ss[i], steps[i]) && ss[i + 1] == Next(ss[i], steps[i])
  }

  lemma NextKeepsValid(s: Registry, step: Step)
    requires Valid(s) && Enabled(s, step)
    ensures Valid(Next(s, step)) && s.nextId <= Next(s, step).nextId
    ensures forall id | id in Next(s, step).sinks && id <= s.nextId ::
      id in s.sinks && Next(s, step).sinks[id] == s.sinks[id]
  {
    hide Valid, Sent, Listened, RemovedAll, EmptyEvent;
    match step
    case Listen(keys, asked) =>
      ListenKeepsValid(s, keys, asked);
      ListenFrame(s, keys, asked);
    case Trigger(hash, changes, children, closed, leaving) =>
      SentKeepsValid(s, hash, changes, children, closed);
      SentFrame(s, hash, changes, children, closed);
      RemovedAllKeeps(Sent(s, hash, changes, children, closed), leaving);
  }

  lemma ListenFrame(s: Registry, keys: Option<seq<StorageKey>>, asked: Option<seq<ChildKeys>>)
    ensures Listened(s, keys, asked).nextId == s.nextId + 1
    ensures Listened(s, keys, asked).sinks == s.sinks[s.nextId + 1 := WishOf(keys, asked)]
    ensures Listened(s, keys, asked).inboxes == s.inboxes[s.nextId + 1 := []]
  {
  }

  lemma SentFrame(s: Registry, hash: Hash, changes: seq<Change>, children: seq<ChildChanges>, closed: set<Id>)
    ensures var t := Sent(s, hash, changes, children, closed);
      t.sinks == s.sinks && t.nextId == s.nextId
  {
  }

  lemma {:induction false} RunValid(ss: seq<Registry>, steps: seq<Step>, i: nat)
    requires IsRun(ss, steps) && i < |ss|
    ensures Valid(ss[i])
  {
    if i > 0 {
      RunValid(ss, steps, i - 1);
      NextKeepsValid(ss[i - 1], steps[i - 1]);
    }
  }

  /** Everything a receiver has seen, event by event. */
  function Seen(events: seq<ChangeSet>): seq<Item> {
    if events == [] then [] else Seen(events[..|events| - 1]) + Iter(events[|events| - 1])
  }

  /** What the subscriber's own filters select from all the changes of a history. */
  function Wanted(steps: seq<Step>, w: Wish): seq<Item> {
    if steps == [] then []
    else
      var n := |steps| - 1;
      var before := Wanted(steps[..n], w);
      if steps[n].Trigger? then before + Iter(ChangeSet(steps[n].hash, steps[n].changes, steps[n].children, w))
        else before
  }

  /** One step adds to a live subscriber's inbox exactly what its filters select. */
  lemma StepDelivers(s: Registry, step: Step, id: Id)
    requires Valid(s) && Enabled(s, step) && id in s.sinks && id in Next(s, step).sinks
    ensures id in Next(s, step).inboxes
    ensures Seen(Next(s, step).inboxes[id]) == Seen(s.inboxes[id]) +
      if step.Trigger? then Iter(ChangeSet(step.hash, step.changes, step.children, s.sinks[id])) else []
  {
    hide Iter, Kept, KeptChildren, KeySubscribers, ChildSubscribers, RemovedAll;
    match step
    case Listen(keys, asked) =>
      ListenFrame(s, keys, asked);
    case Trigger(hash, changes, children, closed, leaving) =>
      SharedEventLosesNothing(s, id, hash, changes, children);
      SentKeepsValid(s, hash, changes, children, closed);
      var sent := Sent(s, hash, changes, children, closed);
      RemovedAllKeeps(sent, leaving);
      if !EmptyEvent(s, changes, children) && id in Notified(s, changes, children) {
        var e := ChangeSet(hash, Kept(s.top, changes), KeptChildren(s.children, children), s.sinks[id]);
        assert sent.inboxes[id] == s.inboxes[id] + [e];
        assert sent.inboxes[id][..|s.inboxes[id]|] == s.inboxes[id];
      }
  }

  lemma {:induction false} IdsRise(ss: seq<Registry>, steps: seq<Step>, i: nat, j: nat)
    requires IsRun(ss, steps) && i <= j < |ss|
    ensures ss[i].nextId <= ss[j].nextId
  {
    hide Next, Valid, Enabled;
    if i < j {
      IdsRise(ss, steps, i, j - 1);
      RunValid(ss, steps, j - 1);
      NextKeepsValid(ss[j - 1], steps[j - 1]);
    }
  }

  /** Over any stretch of any history, a subscriber that is still there has received exactly what
      its own filters select from all the changes triggered meanwhile, in order. */
  lemma {:induction false} SubscribersSeeEverything(ss: seq<Registry>, steps: seq<Step>, i: nat, j: nat, id: Id)
    requires IsRun(ss, steps) && i <= j < |ss| && id in ss[i].sinks && id in ss[j].sinks
    ensures ss[j].sinks[id] == ss[i].sinks[id]
    ensures id in ss[i].inboxes && id in ss[j].inboxes
    ensures Seen(ss[j].inboxes[id]) == Seen(ss[i].inboxes[id]) + Wanted(steps[i..j], ss[i].sinks[id])
    decreases j
  {
    hide Next, Iter, Valid, Enabled, Seen;
    RunValid(ss, steps, i);
    SinkIsKnown(ss[i], id);
    if i == j {
      assert steps[i..j] == [];
    } else {
      RunValid(ss, steps, j - 1);
      IdsRise(ss, steps, i, j - 1);
      NextKeepsValid(ss[j - 1], steps[j - 1]);
      SubscribersSeeEverything(ss, steps, i, j - 1, id);
      StepDelivers(ss[j - 1], steps[j - 1], id);
      WantedStep(steps, i, j, ss[i].sinks[id]);
    }
  }

  lemma SinkIsKnown(s: Registry, id: Id)
    requires Valid(s) && id in s.sinks
    ensures id <= s.nextId && id in s.inboxes
  {
  }

  lemma WantedStep(steps: seq<Step>, i: nat, j: nat, w: Wish)
    requires i < j <= |steps|
    ensures var last := steps[j - 1];
      Wanted(steps[i..j], w) == Wanted(steps[i..j - 1], w)
        + if last.Trigger? then Iter(ChangeSet(last.hash, last.changes, last.children, w)) else []
  {
    assert steps[i..j][..j - i - 1] == steps[i..j - 1];
  }
}
