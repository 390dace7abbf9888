/** The notification registry as the object that subscribers share. */
module NotificationObjects {
  import opened ChainTree
  import opened Keys
  import opened Notifications

  method ListenFrom(id: Id, keys: Option<seq<StorageKey>>, l: Listeners) returns (after: Listeners, filter: Filter)
    ensures after == ListenedFrom(l, id, keys) && filter == FilterOf(keys)
  {
    if keys.None? { return l.(wildcards := l.wildcards + {id}), None; }
    var listeners := l.keys;
    var collected: set<StorageKey> := {};
    ListenedNone(l, id);
    for i := 0 to |keys.value|
      invariant listeners == ListenedFrom(l, id, Some(keys.value[..i])).keys
      invariant collected == set k | k in keys.value[..i]
    {
      hide ListenedFrom;
      var k := keys.value[i];
      assert keys.value[..i + 1] == keys.value[..i] + [k];
      ListenedStep(l, id, keys.value[..i], k);
      listeners := listeners[k := (if k in listeners then listeners[k] else {}) + {id}];
      collected := collected + {k};
    }
    assert keys.value[..|keys.value|] == keys.value;
    after, filter := l.(keys := listeners), Some(collected);
  }

  lemma ListenedNone(l: Listeners, id: Id)
    ensures ListenedFrom(l, id, Some([])) == l
  {
    assert forall k | k in l.keys :: l.keys[k] + {} == l.keys[k];
  }

  lemma ListenedStep(l: Listeners, id: Id, ks: seq<StorageKey>, k: StorageKey)
    ensures var before := ListenedFrom(l, id, Some(ks)).keys;
      ListenedFrom(l, id, Some(ks + [k])).keys == before[k := (if k in before then before[k] else {}) + {id}]
  {
    var before, after := ListenedFrom(l, id, Some(ks)).keys, ListenedFrom(l, id, Some(ks + [k])).keys;
    assert k in ks + [k];
    forall x | x in after && x != k ensures x in before && before[x] == after[x] { assert x in ks + [k] <==> x in ks; }
    forall x | x in before ensures x in after { assert x in ks ==> x in ks + [k]; }
    assert after[k] == (if k in l.keys then l.keys[k] else {}) + {id};
    assert (if k in before then before[k] else {}) + {id} == after[k];
  }

  method RemoveSubscriberFrom(id: Id, filter: Filter, l: Listeners) returns (after: Listeners)
    ensures after == RemovedFrom(l, id, filter)
  {
    if filter.None? { return l.(wildcards := l.wildcards - {id}); }
    hide RemovedFrom;
    var listeners := l.keys;
    var todo := filter.value;
    assert filter.value - todo == {};
    RemovedFromNothing(l, id);
    while todo != {}
      invariant todo <= filter.value
      invariant listeners == RemovedFrom(l, id, Some(filter.value - todo)).keys
      decreases |todo|
    {
      var k :| k in todo;
      assert filter.value - (todo - {k}) == (filter.value - todo) + {k};
      RemovedFromMore(l, id, filter.value - todo, k);
      todo := todo - {k};
      if k in listeners {
        var rest := listeners[k] - {id};
        listeners := if rest == {} then listeners - {k} else listeners[k := rest];
      }
    }
    assert filter.value - todo == filter.value;
    RemovedFromKeys(l, id, filter.value);
    after := l.(keys := listeners);
  }

  lemma RemovedFromNothing(l: Listeners, id: Id)
    ensures RemovedFrom(l, id, Some({})) == l
  {
  }

  lemma RemovedFromKeys(l: Listeners, id: Id, ks: set<StorageKey>)
    ensures RemovedFrom(l, id, Some(ks)) == l.(keys := RemovedFrom(l, id, Some(ks)).keys)
  {
  }

  lemma RemovedFromMore(l: Listeners, id: Id, ks: set<StorageKey>, k: StorageKey)
    requires k !in ks
    ensures var before := RemovedFrom(l, id, Some(ks)).keys;
      RemovedFrom(l, id, Some(ks + {k})).keys ==
        if k !in before then before
        else if before[k] - {id} == {} then before - {k}
        else before[k := before[k] - {id}]
  {
  }

  /** One level of an event: the changes somebody listens to, and the listeners of their keys. */
  method Collect(l: Listeners, changes: seq<Change>) returns (subscribers: set<Id>, kept: seq<Change>)
    ensures subscribers == KeySubscribers(l, changes) && kept == Kept(l, changes)
  {
    subscribers, kept := {}, [];
    for i := 0 to |changes|
      invariant subscribers == KeySubscribers(l, changes[..i]) && kept == Kept(l, changes[..i])
    {
      assert changes[..i + 1][..i] == changes[..i];
      var k := changes[i].key;
      if k in l.keys { subscribers := subscribers + l.keys[k]; }
      if l.wildcards != {} || k in l.keys { kept := kept + [changes[i]]; }
    }
    assert changes[..|changes|] == changes;
  }

  method CollectChildren(index: map<StorageKey, Listeners>, children: seq<ChildChanges>)
    returns (subscribers: set<Id>, kept: seq<ChildChanges>)
    ensures subscribers == ChildSubscribers(index, children) && kept == KeptChildren(index, children)
  {
    subscribers, kept := {}, [];
    for i := 0 to |children|
      invariant subscribers == ChildSubscribers(index, children[..i]) && kept == KeptChildren(index, children[..i])
    {
      assert children[..i + 1][..i] == children[..i];
      var c := children[i];
      if c.child in index {
        var ids, changes := Collect(index[c.child], c.changes);
        subscribers := subscribers + ids + if c.changes != [] then index[c.child].wildcards else {};
        if changes != [] { kept := kept + [ChildChanges(c.child, changes)]; }
      } else {
        NobodyIsKept(c.changes);
      }
    }
    assert children[..|children|] == children;
  }

  lemma {:induction false} NoListenersNoEvent(children: seq<ChildChanges>)
    ensures KeptChildren(map[], children) == []
  {
    if children != [] {
      NoListenersNoEvent(children[..|children| - 1]);
      NobodyIsKept(children[|children| - 1].changes);
    }
  }

  lemma RemovedChildrenNone(index: map<StorageKey, Listeners>, id: Id, filters: map<StorageKey, Filter>)
    requires filters == map[]
    ensures RemovedChildren(index, id, filters) == index
  {
  }

  lemma MoreDone(filters: map<StorageKey, Filter>, todo: set<StorageKey>, c: StorageKey)
    requires c in todo && c in filters
    ensures filters - (todo - {c}) == (filters - todo)[c := filters[c]]
  {
  }

  lemma RemovedChildrenMore(index: map<StorageKey, Listeners>, id: Id, filters: map<StorageKey, Filter>,
                            c: StorageKey, f: Filter)
    requires c !in filters
    ensures var before := RemovedChildren(index, id, filters);
      && (c in before <==> c in index) && (c in index ==> before[c] == index[c])
      && RemovedChildren(index, id, filters[c := f]) ==
           (if c !in index then before
            else if RemovedFrom(index[c], id, f) == NOBODY then before - {c}
            else before[c := RemovedFrom(index[c], id, f)])
  {
    hide RemovedFrom;
  }

  /** A concerned subscriber whose channel is open. */
  predicate Goes(id: Id, subscribers: set<Id>, closed: set<Id>) { id in subscribers && id !in closed }

  class StorageNotifications {
    var nextId: Id
    var wildcardListeners: set<Id>
    var listeners: map<StorageKey, set<Id>>
    var childListeners: map<StorageKey, Listeners>
    var sinks: map<Id, Wish>
    var inboxes: map<Id, seq<ChangeSet>>

    function Contents(): Registry
      reads this
    {
      Registry(nextId, Listeners(listeners, wildcardListeners), childListeners, sinks, inboxes)
    }

    constructor ()
      ensures Contents() == EMPTY
    {
      nextId, wildcardListeners, listeners, childListeners, sinks, inboxes := 0, {}, map[], map[], map[], map[];
    }

    method Listen(keys: Option<seq<StorageKey>>, asked: Option<seq<ChildKeys>>) returns (id: Id)
      modifies this
      ensures Contents() == Listened(old(Contents()), keys, asked) && id == nextId
    {
      hide ListenedFrom, FilterOf;
      nextId := nextId + 1;
      id := nextId;
      var top, filter := ListenFrom(id, keys, Listeners(listeners, wildcardListeners));
      listeners, wildcardListeners := top.keys, top.wildcards;
      var filters: Option<map<StorageKey, Filter>> := None;
      if asked.Some? {
        var fs := ListenChildren(id, asked.value);
        filters := Some(fs);
      }
      sinks := sinks[id := Wish(filter, filters)];
      inboxes := inboxes[id := []];
    }

    method ListenChildren(id: Id, asked: seq<ChildKeys>) returns (filters: map<StorageKey, Filter>)
      modifies this`childListeners
      ensures childListeners == ListenedChildren(old(childListeners), id, asked) && filters == ChildFilters(asked)
    {
      hide ListenedFrom, FilterOf;
      filters := map[];
      for i := 0 to |asked|
        invariant childListeners == ListenedChildren(old(childListeners), id, asked[..i])
        invariant filters == ChildFilters(asked[..i])
      {
        assert asked[..i + 1][..i] == asked[..i];
        var c := asked[i];
        if c.child !in childListeners { childListeners := childListeners[c.child := NOBODY]; }
        var l, f := ListenFrom(id, c.keys, childListeners[c.child]);
        childListeners := childListeners[c.child := l];
        filters := filters[c.child := f];
      }
      assert asked[..|asked|] == asked;
    }

    method RemoveSubscriber(id: Id)
      modifies this
      ensures Contents() == Removed(old(Contents()), id)
    {
      hide RemovedFrom;
      if id in sinks {
        var w := sinks[id];
        sinks := sinks - {id};
        var top := RemoveSubscriberFrom(id, w.filter, Listeners(listeners, wildcardListeners));
        listeners, wildcardListeners := top.keys, top.wildcards;
        if w.children.Some? { RemoveFromChildren(id, w.children.value); }
      }
    }

    method RemoveFromChildren(id: Id, filters: map<StorageKey, Filter>)
      modifies this`childListeners
      ensures childListeners == RemovedChildren(old(childListeners), id, filters)
    {
      hide RemovedFrom, RemovedChildren;
      var todo := filters.Keys;
      RemovedChildrenNone(childListeners, id, filters - todo);
      while todo != {}
        invariant todo <= filters.Keys
        invariant childListeners == RemovedChildren(old(childListeners), id, filters - todo)
        decreases |todo|
      {
        var c :| c in todo;
        RemovedChildrenMore(old(childListeners), id, filters - todo, c, filters[c]);
        MoreDone(filters, todo, c);
        todo := todo - {c};
        if c in childListeners {
          var l := RemoveSubscriberFrom(id, filters[c], childListeners[c]);
          childListeners := if l.keys == map[] && l.wildcards == {} then childListeners - {c}
            else childListeners[c := l];
        }
      }
      assert filters - todo == filters;
    }

    /** Sends the event to every open sink concerned and lists the closed ones. */
    method SendAll(subscribers: set<Id>, e: ChangeSet, closed: set<Id>) returns (leaving: seq<Id>)
      requires forall id | id in sinks :: id in inboxes
      modifies this`inboxes
      ensures forall id :: id in leaving <==> id in sinks && id in closed
      ensures inboxes.Keys == old(inboxes).Keys
      ensures forall id | id in inboxes ::
        inboxes[id] == old(inboxes)[id]
          + if id in sinks && Goes(id, subscribers, closed) then [e.(wish := sinks[id])] else []
    {
      leaving := [];
      var todo := sinks.Keys;
      while todo != {}
        invariant todo <= sinks.Keys && inboxes.Keys == old(inboxes).Keys
        invariant forall id :: id in leaving <==> id in sinks && id !in todo && id in closed
        invariant forall id | id in inboxes ::
          inboxes[id] == old(inboxes)[id]
            + if id in sinks && id !in todo && Goes(id, subscribers, closed) then [e.(wish := sinks[id])] else []
        decreases |todo|
      {
        var id :| id in todo;
        todo := todo - {id};
        if id in closed { leaving := leaving + [id]; }
        if Goes(id, subscribers, closed) { inboxes := inboxes[id := inboxes[id] + [e.(wish := sinks[id])]]; }
      }
    }

    /** The removed subscribers are returned in the order of their removal. */
    method Trigger(hash: Hash, changes: seq<Change>, children: seq<ChildChanges>, closed: set<Id>)
      returns (leaving: seq<Id>)
      requires Valid(Contents())
      modifies this
      ensures Contents() == Triggered(old(Contents()), hash, changes, children, closed, leaving)
      ensures !EmptyEvent(old(Contents()), changes, children) ==>
        forall id :: id in leaving <==> id in old(sinks) && id in closed
    {
      hide Mirrors, Kept, KeptChildren, KeySubscribers, ChildSubscribers, Removed;
      leaving := [];
      var top := Listeners(listeners, wildcardListeners);
      if wildcardListeners == {} && listeners == map[] && childListeners == map[] {
        NobodyIsKept(changes);
        NoListenersNoEvent(children);
        return;
      }
      var keyIds, kept := Collect(top, changes);
      var childIds, keptChildren := CollectChildren(childListeners, children);
      if kept == [] && keptChildren == [] { return; }
      var subscribers := wildcardListeners + keyIds + childIds;
      leaving := SendAll(subscribers, ChangeSet(hash, kept, keptChildren, Wish(None, None)), closed);
      ghost var sent := Sent(old(Contents()), hash, changes, children, closed);
      forall id | id in inboxes ensures inboxes[id] == sent.inboxes[id] {
        assert Goes(id, subscribers, closed) <==> id in subscribers && id !in closed;
        assert old(inboxes)[id] + [] == old(inboxes)[id];
      }
      assert inboxes == sent.inboxes;
      RemoveSubscribers(leaving);
    }

    method RemoveSubscribers(ids: seq<Id>)
      modifies this
      ensures Contents() == RemovedAll(old(Contents()), ids)
    {
      hide Removed;
      for i := 0 to |ids|
        invariant Contents() == RemovedAll(old(Contents()), ids[..i])
      {
        assert ids[..i + 1][..i] == ids[..i];
        RemoveSubscriber(ids[i]);
      }
      assert ids[..|ids|] == ids;
    }
  }
}
