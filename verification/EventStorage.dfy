/** The store of events that are not acknowledged, and its index by source node. */
module EventStore {
  import opened NodeIds
  import opened EventSets

  type EventId = nat

  datatype Event = Event(id: EventId, source: NodeId, time: int, acked: bool, payload: int)

  datatype NodeEntry = NodeEntry(events: Tree, observers: set<nat>)

  type Events = map<EventId, Event>

  type Memory = map<Pointer, Event>

  type Entries = map<NodeId, NodeEntry>

  /** Where an object is put, and how a set is laid out each time it changes. */
  datatype World = World(address: Pointer -> int, layout: (nat, seq<Pointer>) -> Tree)

  ghost predicate Sane(w: World) {
    && (forall p, q :: p != q ==> w.address(p) != w.address(q))
    && (forall k, s :: InOrder(w.layout(k, s)) == s)
  }

  /** The stored events by id, the event objects that are not freed, and the sets of the nodes. */
  datatype Store = Store(ids: map<EventId, Pointer>, memory: Memory, entries: Entries, next: nat)

  // ---------------------------------------------------------------- the last writer

  function Applied(events: Events, e: Event): Events {
    if e.acked then events - {e.id} else events[e.id := e]
  }

  function Folded(events: Events, log: seq<Event>): Events {
    if log == [] then events else Applied(Folded(events, log[..|log| - 1]), log[|log| - 1])
  }

  /** The last event of the log with the id, if any. */
  function LastOf(log: seq<Event>, id: EventId): Option<Event> {
    if log == [] then None
    else if log[|log| - 1].id == id then Some(log[|log| - 1])
    else LastOf(log[..|log| - 1], id)
  }

  /** An event is stored exactly when the last word on its id is not an acknowledgement. */
  lemma {:induction false} LastWordCounts(log: seq<Event>, id: EventId)
    ensures id in Folded(map[], log) <==> LastOf(log, id).Some? && !LastOf(log, id).value.acked
    ensures id in Folded(map[], log) ==> Folded(map[], log)[id] == LastOf(log, id).value
  {
    if log != [] {
      LastWordCounts(log[..|log| - 1], id);
    }
  }

  lemma {:induction false} FoldedJoin(events: Events, a: seq<Event>, b: seq<Event>)
    ensures Folded(events, a + b) == Folded(Folded(events, a), b)
  {
    if b == [] {
      assert a + b == a;
    } else {
      FoldedJoin(events, a, b[..|b| - 1]);
      assert (a + b)[..|a + b| - 1] == a + b[..|b| - 1];
    }
  }

  // ---------------------------------------------------------------- what is stored where

  function StoredEvents(s: Store): Events {
    map id | id in s.ids && s.ids[id] in s.memory :: s.memory[s.ids[id]]
  }

  /** The set of a node in its order. */
  function Listing(entries: Entries, n: NodeId): seq<Pointer> {
    if n in entries then InOrder(entries[n].events) else []
  }

  function TreeOf(entries: Entries, n: NodeId): Tree {
    if n in entries then entries[n].events else Leaf
  }

  function Ranked(w: World, memory: Memory): Ranks {
    map p | p in memory :: Rank(memory[p].time, w.address(p))
  }

  /** The object holds a stored event. */
  predicate Live(s: Store, p: Pointer) {
    p in s.memory && s.memory[p].id in s.ids && s.ids[s.memory[p].id] == p
  }

  /** Objects and ids belong together, and no set holds an object twice. */
  ghost predicate Stored(s: Store) {
    && (forall id :: id in s.ids ==> s.ids[id] in s.memory && s.memory[s.ids[id]].id == id)
    && (forall p :: p in s.memory ==> p < s.next)
    && (forall n, p :: p in Listing(s.entries, n) ==> p < s.next)
    && (forall n :: Once(Listing(s.entries, n)))
  }

  /** Each node's set holds exactly the stored events of that source. */
  ghost predicate Indexed(s: Store) {
    && Listing(s.entries, Null) == []
    && (forall n, p :: p in Listing(s.entries, n) ==> Live(s, p) && s.memory[p].source == n)
    && (forall p :: Live(s, p) && s.memory[p].source != Null ==> p in Listing(s.entries, s.memory[p].source))
  }

  /** Each node's set is in order of time. */
  ghost predicate Sorted(w: World, s: Store) {
    forall n :: Ordered(Ranked(w, s.memory), Listing(s.entries, n))
  }

  // ---------------------------------------------------------------- one event

  function WithSet(w: World, s: Store, n: NodeId, order: seq<Pointer>): Store {
    var observers := if n in s.entries then s.entries[n].observers else {};
    s.(entries := s.entries[n := NodeEntry(w.layout(s.next, order), observers)], next := s.next + 1)
  }

  /** An entry that nobody uses goes. */
  function WithLess(w: World, s: Store, n: NodeId, left: seq<Pointer>): (r: Store)
    ensures r.ids == s.ids && r.memory == s.memory && r.next >= s.next
  {
    if left == [] && n in s.entries && s.entries[n].observers == {} then s.(entries := s.entries - {n})
    else WithSet(w, s, n, left)
  }

  /** An event is stored, or written over the one with its id; no result where the new object's way into
      its set meets freed memory. */
  function Added(w: World, s: Store, e: Event): Option<Store> {
    if e.id in s.ids then Some(s.(memory := s.memory[s.ids[e.id] := e]))
    else
      var a := Store(s.ids[e.id := s.next], s.memory[s.next := e], s.entries, s.next + 1);
      if e.source == Null then Some(a)
      else
        var order := Insert(TreeOf(s.entries, e.source), Ranked(w, a.memory), s.next);
        if order.None? then None else Some(WithSet(w, a, e.source, order.value))
  }

  /** The stored event as it is when its set is searched: written over, by the new time. */
  function Overwritten(s: Store, e: Event): Memory
    requires e.id in s.ids
  {
    s.memory[s.ids[e.id] := e]
  }

  function Sought(w: World, s: Store, e: Event): Outcome
    requires e.id in s.ids
  {
    Find(TreeOf(s.entries, e.source), Ranked(w, Overwritten(s, e)), Rank(e.time, w.address(s.ids[e.id])))
  }

  /** The stored event with the id of an acknowledgement goes, and is kept out of the way till the end of
      the batch; no result where the search for it aborts. */
  function Removed(w: World, s: Store, e: Event): Option<Store> {
    if e.id !in s.ids then Some(s)
    else
      var a := s.(ids := s.ids - {e.id}, memory := Overwritten(s, e));
      if e.source == Null || e.source !in s.entries then Some(a)
      else
        var r := Sought(w, s, e);
        if !r.Found? then None
        else Some(WithLess(w, a, e.source, Without(Listing(s.entries, e.source), r.at)))
  }

  function Taken(w: World, s: Store, e: Event): Option<Store> {
    if e.acked then Removed(w, s, e) else Added(w, s, e)
  }

  /** The event names the source that its id has. */
  predicate SameSource(s: Store, e: Event) {
    e.id in s.ids && s.ids[e.id] in s.memory ==> s.memory[s.ids[e.id]].source == e.source
  }

  /** With its new time the stored event ranks where it stands in the set of its source. */
  ghost predicate InPlace(w: World, s: Store, e: Event) {
    e.id in s.ids && e.source != Null ==>
      var here := Listing(s.entries, e.source);
      && s.ids[e.id] in here && InMemory(Ranked(w, Overwritten(s, e)), here)
      && Pivot(Ranked(w, Overwritten(s, e)), here, Position(here, s.ids[e.id]))
  }

  lemma LessOfIds(w: World, s: Store, ids: map<EventId, Pointer>, n: NodeId, left: seq<Pointer>)
    ensures WithLess(w, s.(ids := ids), n, left) == WithLess(w, s, n, left).(ids := ids)
  {
  }

  lemma AddressesApart(w: World, memory: Memory)
    requires Sane(w)
    ensures Apart(Ranked(w, memory))
  {
  }

  lemma ListingWithSet(w: World, s: Store, n: NodeId, order: seq<Pointer>)
    requires Sane(w)
    ensures forall m :: Listing(WithSet(w, s, n, order).entries, m) == if m == n then order else Listing(s.entries, m)
  {
  }

  lemma TreeListing(entries: Entries, n: NodeId)
    ensures InOrder(TreeOf(entries, n)) == Listing(entries, n)
  {
  }

  /** What the steps make of the sets, seen as the order they are in. */
  lemma AddedListings(w: World, s: Store, e: Event)
    requires Sane(w) && Added(w, s, e).Some?
    ensures var now := Added(w, s, e).value;
      && (forall m :: m != e.source || m == Null || e.id in s.ids ==>
           Listing(now.entries, m) == Listing(s.entries, m))
      && (e.id !in s.ids && e.source != Null ==>
           multiset(Listing(now.entries, e.source)) == multiset(Listing(s.entries, e.source)) + multiset{s.next})
  {
    hide Listing, TreeOf, Insert, InOrder;
    if e.id !in s.ids && e.source != Null {
      var a := Store(s.ids[e.id := s.next], s.memory[s.next := e], s.entries, s.next + 1);
      var ranks := Ranked(w, a.memory);
      InsertHolds(TreeOf(s.entries, e.source), ranks, s.next);
      TreeListing(s.entries, e.source);
      ListingWithSet(w, a, e.source, Insert(TreeOf(s.entries, e.source), ranks, s.next).value);
    }
  }

  /** The search ends at the object it is for, or not at all. */
  lemma SoughtIsStored(w: World, s: Store, e: Event)
    requires Sane(w) && e.id in s.ids && Sought(w, s, e).Found?
    ensures Sought(w, s, e).at == s.ids[e.id] && s.ids[e.id] in Listing(s.entries, e.source)
  {
    var p, q := s.ids[e.id], Sought(w, s, e).at;
    TreeListing(s.entries, e.source);
    assert w.address(p) == w.address(q);
  }

  lemma RemovedListings(w: World, s: Store, e: Event)
    requires Sane(w) && e.id in s.ids && Removed(w, s, e).Some?
    ensures var now := Removed(w, s, e).value;
      && (forall m :: m != e.source || m == Null || m !in s.entries ==>
           Listing(now.entries, m) == Listing(s.entries, m))
      && (e.source != Null && e.source in s.entries ==>
           && s.ids[e.id] in Listing(s.entries, e.source)
           && Listing(now.entries, e.source) == Without(Listing(s.entries, e.source), s.ids[e.id]))
  {
    if e.source != Null && e.source in s.entries {
      var a := s.(ids := s.ids - {e.id}, memory := Overwritten(s, e));
      SoughtIsStored(w, s, e);
      ListingWithSet(w, a, e.source, Without(Listing(s.entries, e.source), s.ids[e.id]));
    }
  }

  lemma OnceMore(s: seq<Pointer>, r: seq<Pointer>, p: Pointer)
    requires Once(s) && p !in s && multiset(r) == multiset(s) + multiset{p}
    ensures Once(r) && forall q :: q in r <==> q in s || q == p
  {
    OnceCounted(s);
    OnceCounted(r);
    forall q ensures q in r <==> q in s || q == p {
      assert q in multiset(r) <==> q in multiset(s) || q == p;
    }
  }

  lemma OnceLess(s: seq<Pointer>, p: Pointer)
    requires Once(s) && p in s
    ensures Once(Without(s, p)) && forall q :: q in Without(s, p) <==> q in s && q != p
  {
    OnceCounted(s);
    OnceCounted(Without(s, p));
    forall q ensures q in Without(s, p) <==> q in s && q != p {
      assert q in multiset(Without(s, p)) <==> q in multiset(s) && q != p;
    }
  }

  lemma AddedFields(w: World, s: Store, e: Event)
    requires Added(w, s, e).Some?
    ensures var now := Added(w, s, e).value;
      if e.id in s.ids then now == s.(memory := Overwritten(s, e))
      else
        && now.ids == s.ids[e.id := s.next] && now.memory == s.memory[s.next := e]
        && now.next > s.next && (e.source == Null ==> now.entries == s.entries)
  {
    hide Insert;
  }

  lemma RemovedFields(w: World, s: Store, e: Event)
    requires Removed(w, s, e).Some?
    ensures var now := Removed(w, s, e).value;
      if e.id !in s.ids then now == s
      else now.ids == s.ids - {e.id} && now.memory == Overwritten(s, e) && now.next >= s.next
  {
    hide Find, Listing, WithLess;
  }

  lemma AddedStored(w: World, s: Store, e: Event)
    requires Sane(w) && Stored(s) && !e.acked && Added(w, s, e).Some?
    ensures Stored(Added(w, s, e).value)
    ensures StoredEvents(Added(w, s, e).value) == Applied(StoredEvents(s), e)
  {
    hide Listing, Added, Once, Sane;
    AddedFields(w, s, e);
    AddedListings(w, s, e);
    var now := Added(w, s, e).value;
    if e.id !in s.ids && e.source != Null {
      OnceMore(Listing(s.entries, e.source), Listing(now.entries, e.source), s.next);
    }
  }

  lemma RemovedStored(w: World, s: Store, e: Event)
    requires Sane(w) && Stored(s) && e.acked && Removed(w, s, e).Some?
    ensures Stored(Removed(w, s, e).value)
    ensures StoredEvents(Removed(w, s, e).value) == Applied(StoredEvents(s), e)
  {
    hide Listing, Removed, Once, Sane;
    RemovedFields(w, s, e);
    if e.id in s.ids {
      RemovedListings(w, s, e);
      if e.source != Null && e.source in s.entries {
        OnceLess(Listing(s.entries, e.source), s.ids[e.id]);
      }
    }
  }

  // ---------------------------------------------------------------- what one event keeps

  lemma IndexedInMemory(w: World, s: Store, n: NodeId, memory: Memory)
    requires Indexed(s) && forall p :: p in s.memory ==> p in memory
    ensures InMemory(Ranked(w, memory), Listing(s.entries, n))
  {
    var here := Listing(s.entries, n);
    forall i | 0 <= i < |here| ensures here[i] in memory {
      assert here[i] in Listing(s.entries, n);
      assert Live(s, here[i]);
    }
  }

  /** Storing an event never fails in an index. */
  lemma AddedGoesOn(w: World, s: Store, e: Event)
    requires Indexed(s)
    ensures Added(w, s, e).Some?
  {
    hide Indexed;
    if e.id !in s.ids && e.source != Null {
      var ranks := Ranked(w, s.memory[s.next := e]);
      IndexedInMemory(w, s, e.source, s.memory[s.next := e]);
      TreeListing(s.entries, e.source);
      InsertHolds(TreeOf(s.entries, e.source), ranks, s.next);
    }
  }

  /** Storing an event keeps the index exactly when its id keeps its source. */
  lemma AddedIndexed(w: World, s: Store, e: Event)
    requires Sane(w) && Stored(s) && Indexed(s)
    ensures Added(w, s, e).Some? && (Indexed(Added(w, s, e).value) <==> SameSource(s, e))
  {
    hide Listing, Added, Sane;
    AddedGoesOn(w, s, e);
    AddedFields(w, s, e);
    AddedListings(w, s, e);
    var now := Added(w, s, e).value;
    if e.id in s.ids {
      var p := s.ids[e.id];
      assert Live(s, p) && Live(now, p);
      assert forall q :: q != p ==> (Live(now, q) <==> Live(s, q));
    } else {
      if e.source != Null {
        OnceMore(Listing(s.entries, e.source), Listing(now.entries, e.source), s.next);
      }
      assert forall q :: Live(now, q) <==> Live(s, q) || q == s.next;
    }
  }

  /** The removal goes on exactly when nothing is searched, or the source is that of the id and the
      search by the new time finds the object. */
  lemma RemovalGoesOn(w: World, s: Store, e: Event)
    requires Sane(w) && Stored(s) && Indexed(s)
    ensures Removed(w, s, e).Some? <==>
      || e.id !in s.ids || e.source == Null || e.source !in s.entries
      || (SameSource(s, e) && Sought(w, s, e) == Found(s.ids[e.id]))
  {
    hide Listing, Find;
    if e.id in s.ids && Sought(w, s, e).Found? {
      SoughtIsStored(w, s, e);
    }
  }

  function Relaid(s: Store, n: NodeId, t: Tree): Store {
    if n in s.entries then s.(entries := s.entries[n := s.entries[n].(events := t)]) else s
  }

  /** However the set is laid out, the removal goes on: exactly when nothing is searched, or the source
      is that of the id and the new time still ranks where the event stands. */
  lemma FindableWhen(w: World, s: Store, e: Event)
    requires Sane(w) && Stored(s) && Indexed(s)
    ensures (forall t :: InOrder(t) == Listing(s.entries, e.source) ==> Removed(w, Relaid(s, e.source, t), e).Some?)
      <==> e.id !in s.ids || e.source == Null || e.source !in s.entries || (SameSource(s, e) && InPlace(w, s, e))
  {
    hide Removed;
    var here := Listing(s.entries, e.source);
    forall t | InOrder(t) == here ensures Removed(w, Relaid(s, e.source, t), e).Some? <==>
      || e.id !in s.ids || e.source == Null || e.source !in s.entries
      || (SameSource(s, e)
          && Find(t, Ranked(w, Overwritten(s, e)), Rank(e.time, w.address(s.ids[e.id]))) == Found(s.ids[e.id]))
    {
      RelaidIsIndexed(s, e.source, t);
      RemovalGoesOn(w, Relaid(s, e.source, t), e);
    }
    if e.id in s.ids && e.source != Null && e.source in s.entries && SameSource(s, e) {
      var ranks := Ranked(w, Overwritten(s, e));
      assert Live(s, s.ids[e.id]);
      var i := Position(here, s.ids[e.id]);
      IndexedInMemory(w, s, e.source, Overwritten(s, e));
      AddressesApart(w, Overwritten(s, e));
      FoundIff(ranks, here, i);
      assert ranks[here[i]] == Rank(e.time, w.address(s.ids[e.id]));
    }
    assert InOrder(TreeOf(s.entries, e.source)) == here;
  }

  lemma RelaidIsIndexed(s: Store, n: NodeId, t: Tree)
    requires Stored(s) && Indexed(s) && InOrder(t) == Listing(s.entries, n)
    ensures Stored(Relaid(s, n, t)) && Indexed(Relaid(s, n, t))
    ensures forall m :: Listing(Relaid(s, n, t).entries, m) == Listing(s.entries, m)
  {
    hide Once, InOrder;
    var now := Relaid(s, n, t);
    forall m ensures Listing(now.entries, m) == Listing(s.entries, m) {}
    assert forall p :: Live(now, p) <==> Live(s, p);
    forall p | Live(now, p) && now.memory[p].source != Null
      ensures p in Listing(now.entries, now.memory[p].source)
    {
      assert Live(s, p);
    }
  }

  lemma RemovedKeepsIndex(w: World, s: Store, e: Event)
    requires Sane(w) && Stored(s) && Indexed(s) && Removed(w, s, e).Some? && e.id in s.ids
    requires s.memory[s.ids[e.id]].source == e.source || s.memory[s.ids[e.id]].source == Null
    ensures Indexed(Removed(w, s, e).value)
  {
    hide Listing, Removed, Sane, Once, Without;
    RemovedFields(w, s, e);
    RemovedListings(w, s, e);
    var now, p := Removed(w, s, e).value, s.ids[e.id];
    assert Live(s, p) && !Live(now, p);
    assert forall q :: q != p ==> (Live(now, q) <==> Live(s, q));
    if e.source != Null && e.source in s.entries {
      OnceLess(Listing(s.entries, e.source), p);
    }
    ListedHasEntry(s.entries, s.memory[p].source, p);
  }

  /** Removing an event keeps the index exactly when it names the source of its id, or that id has none. */
  lemma RemovedIndexed(w: World, s: Store, e: Event)
    requires Sane(w) && Stored(s) && Indexed(s) && Removed(w, s, e).Some?
    ensures Indexed(Removed(w, s, e).value) <==>
      SameSource(s, e) || s.memory[s.ids[e.id]].source == Null
  {
    hide Listing, Removed, Sane, Once, Without;
    RemovedFields(w, s, e);
    if e.id in s.ids {
      var now, p := Removed(w, s, e).value, s.ids[e.id];
      var filed := s.memory[p].source;
      if filed == e.source || filed == Null {
        RemovedKeepsIndex(w, s, e);
      } else {
        RemovedListings(w, s, e);
        assert Live(s, p) && !Live(now, p);
        assert p in Listing(now.entries, filed);
      }
    }
  }

  lemma ListedHasEntry(entries: Entries, n: NodeId, p: Pointer)
    ensures p in Listing(entries, n) ==> n in entries
  {
  }

  /** Writing over an event keeps the order of its set exactly when its new time ranks where it stands;
      a new event is put where it ranks. */
  lemma AddedSorted(w: World, s: Store, e: Event)
    requires Sane(w) && Stored(s) && Indexed(s) && Sorted(w, s) && SameSource(s, e)
    ensures Added(w, s, e).Some? && (Sorted(w, Added(w, s, e).value) <==> InPlace(w, s, e))
  {
    hide Listing, Added, Sane, Ordered;
    AddedGoesOn(w, s, e);
    AddedFields(w, s, e);
    AddedListings(w, s, e);
    var now := Added(w, s, e).value;
    var was, later := Ranked(w, s.memory), Ranked(w, now.memory);
    forall n | n != e.source || n == Null ensures Ordered(later, Listing(now.entries, n)) {
      NoneMoved(was, later, Listing(s.entries, n));
    }
    if e.source != Null {
      var here := Listing(s.entries, e.source);
      if e.id in s.ids {
        assert Live(s, s.ids[e.id]);
        var i := Position(here, s.ids[e.id]);
        IndexedInMemory(w, s, e.source, now.memory);
        OneMoved(was, later, here, i);
      } else {
        AddedInOrder(w, s, e);
      }
    }
  }

  lemma AddedInOrder(w: World, s: Store, e: Event)
    requires Sane(w) && Stored(s) && Indexed(s) && Sorted(w, s) && e.id !in s.ids && e.source != Null
    requires Added(w, s, e).Some?
    ensures Ordered(Ranked(w, Added(w, s, e).value.memory), Listing(Added(w, s, e).value.entries, e.source))
  {
    hide Listing, Ordered, Indexed;
    var a := Store(s.ids[e.id := s.next], s.memory[s.next := e], s.entries, s.next + 1);
    var ranks := Ranked(w, a.memory);
    IndexedInMemory(w, s, e.source, s.memory);
    NoneMoved(Ranked(w, s.memory), ranks, Listing(s.entries, e.source)) by {
      forall p | p in Listing(s.entries, e.source) ensures p in ranks && ranks[p] == Ranked(w, s.memory)[p] {
        var i := Position(Listing(s.entries, e.source), p);
      }
    }
    AddressesApart(w, a.memory);
    TreeListing(s.entries, e.source);
    InsertKeepsOrder(TreeOf(s.entries, e.source), ranks, s.next);
    ListingWithSet(w, a, e.source, Insert(TreeOf(s.entries, e.source), ranks, s.next).value);
  }

  /** Removing an event under its own source keeps the order of all sets. */
  lemma RemovedSorted(w: World, s: Store, e: Event)
    requires Sane(w) && Stored(s) && Indexed(s) && Sorted(w, s) && SameSource(s, e) && Removed(w, s, e).Some?
    ensures Sorted(w, Removed(w, s, e).value)
  {
    hide Listing, Removed, Sane, Ordered;
    RemovedFields(w, s, e);
    if e.id in s.ids {
      RemovedListings(w, s, e);
      var now, p := Removed(w, s, e).value, s.ids[e.id];
      var was, later := Ranked(w, s.memory), Ranked(w, now.memory);
      assert Live(s, p);
      forall n ensures Ordered(later, Listing(now.entries, n)) {
        if n == e.source && n != Null && n in s.entries {
          OnceLess(Listing(s.entries, n), p);
          WithoutKeepsOrder(was, Listing(s.entries, n), p);
          NoneMoved(was, later, Listing(now.entries, n));
        } else {
          ListedHasEntry(s.entries, n, p);
          NoneMoved(was, later, Listing(s.entries, n));
        }
      }
    }
  }

  /** In a set in order, the new time ranks where the event stands exactly when it ranks between those of
      the neighbours. */
  lemma BetweenNeighbours(w: World, s: Store, e: Event)
    requires Sane(w) && Stored(s) && Indexed(s) && Sorted(w, s) && SameSource(s, e)
    requires e.id in s.ids && e.source != Null
    ensures s.ids[e.id] in Listing(s.entries, e.source)
    ensures var here, ranks := Listing(s.entries, e.source), Ranked(w, Overwritten(s, e));
      var i := Position(here, s.ids[e.id]);
      && InMemory(ranks, here)
      && (InPlace(w, s, e) <==>
          && (i > 0 ==> Less(ranks[here[i - 1]], ranks[here[i]]))
          && (i < |here| - 1 ==> Less(ranks[here[i]], ranks[here[i + 1]])))
  {
    hide Listing, Ordered, InMemory, Position, Pivot, Less, Once, Sane, Sorted;
    assert Live(s, s.ids[e.id]);
    var here, ranks := Listing(s.entries, e.source), Ranked(w, Overwritten(s, e));
    IndexedInMemory(w, s, e.source, Overwritten(s, e));
    RestInOrder(w, s, e);
    PivotByNeighbours(ranks, here, Position(here, s.ids[e.id]));
  }

  lemma RestInOrder(w: World, s: Store, e: Event)
    requires Sane(w) && Stored(s) && Indexed(s) && Sorted(w, s)
    requires e.id in s.ids && s.ids[e.id] in Listing(s.entries, e.source)
    ensures Ordered(Ranked(w, Overwritten(s, e)), Without(Listing(s.entries, e.source), s.ids[e.id]))
  {
    hide Listing, Ordered, InMemory, Without, Once;
    var here, was, ranks := Listing(s.entries, e.source), Ranked(w, s.memory), Ranked(w, Overwritten(s, e));
    WithoutKeepsOrder(was, here, s.ids[e.id]);
    OnceLess(here, s.ids[e.id]);
    NoneMoved(was, ranks, Without(here, s.ids[e.id]));
  }

  /** An acknowledgement that moves the event before the one it stands after aborts in every layout. */
  lemma EarlyAcknowledgementAborts(w: World, s: Store, e: Event)
    requires Sane(w) && Stored(s) && Indexed(s) && e.id in s.ids && e.source != Null && SameSource(s, e) && e.acked
    requires s.ids[e.id] in Listing(s.entries, e.source) && Position(Listing(s.entries, e.source), s.ids[e.id]) > 0
    requires var q := Listing(s.entries, e.source)[Position(Listing(s.entries, e.source), s.ids[e.id]) - 1];
      q in s.memory && q != s.ids[e.id] && e.time < s.memory[q].time
    ensures Taken(w, s, e).None?
  {
    hide Find, Position, Listing;
    var here, ranks := Listing(s.entries, e.source), Ranked(w, Overwritten(s, e));
    var i := Position(here, s.ids[e.id]);
    ListedHasEntry(s.entries, e.source, s.ids[e.id]);
    TreeListing(s.entries, e.source);
    IndexedInMemory(w, s, e.source, Overwritten(s, e));
    RemovalGoesOn(w, s, e);
    if Sought(w, s, e) == Found(s.ids[e.id]) {
      NotBeforePredecessor(TreeOf(s.entries, e.source), ranks, i);
    }
  }

  /** The event says of its id the source and the time that are stored. */
  predicate Steady(events: Events, e: Event) {
    e.id in events ==> events[e.id].source == e.source && events[e.id].time == e.time
  }

  lemma SteadyInPlace(w: World, s: Store, e: Event)
    requires Stored(s) && Indexed(s) && Sorted(w, s) && Steady(StoredEvents(s), e)
    ensures SameSource(s, e) && InPlace(w, s, e)
  {
    hide Listing;
    if e.id in s.ids && e.source != Null {
      assert StoredEvents(s)[e.id] == s.memory[s.ids[e.id]];
      assert Live(s, s.ids[e.id]);
      assert Ranked(w, Overwritten(s, e)) == Ranked(w, s.memory);
    }
  }

  // ---------------------------------------------------------------- a batch

  function Run(w: World, s: Store, batch: seq<Event>): Option<Store> {
    if batch == [] then Some(s)
    else
      var before := Run(w, s, batch[..|batch| - 1]);
      if before.None? then None else Taken(w, before.value, batch[|batch| - 1])
  }

  lemma RunStep(w: World, s: Store, batch: seq<Event>, k: nat)
    requires k < |batch|
    ensures Run(w, s, batch[..k + 1])
      == if Run(w, s, batch[..k]).None? then None else Taken(w, Run(w, s, batch[..k]).value, batch[k])
  {
    assert batch[..k + 1][..k] == batch[..k];
  }

  lemma TakenStored(w: World, s: Store, e: Event)
    requires Sane(w) && Stored(s) && Taken(w, s, e).Some?
    ensures Stored(Taken(w, s, e).value)
    ensures StoredEvents(Taken(w, s, e).value) == Applied(StoredEvents(s), e)
  {
    if e.acked {
      RemovedStored(w, s, e);
    } else {
      AddedStored(w, s, e);
    }
  }

  /** Whatever the order of the sets, what is stored is the last word on each id. */
  lemma {:induction false} RunStored(w: World, s: Store, batch: seq<Event>)
    requires Sane(w) && Stored(s) && Run(w, s, batch).Some?
    ensures Stored(Run(w, s, batch).value)
    ensures StoredEvents(Run(w, s, batch).value) == Folded(StoredEvents(s), batch)
  {
    hide Taken, Stored, StoredEvents, Sane;
    if batch != [] {
      RunStored(w, s, batch[..|batch| - 1]);
      TakenStored(w, Run(w, s, batch[..|batch| - 1]).value, batch[|batch| - 1]);
    }
  }

  lemma {:induction false} RunPrefix(w: World, s: Store, batch: seq<Event>, k: nat)
    requires Run(w, s, batch).Some? && k <= |batch|
    ensures Run(w, s, batch[..k]).Some?
  {
    if k < |batch| {
      RunPrefix(w, s, batch[..|batch| - 1], k);
      assert batch[..|batch| - 1][..k] == batch[..k];
    } else {
      assert batch[..k] == batch;
    }
  }

  /** The event keeps to the source of its id, or acknowledges one that is filed nowhere. */
  predicate KeepsSource(s: Store, e: Event) {
    SameSource(s, e) || (e.acked && e.id in s.ids && s.ids[e.id] in s.memory && s.memory[s.ids[e.id]].source == Null)
  }

  /** In a batch that goes through, the sets are an index after each event exactly when each event keeps
      to its source. */
  lemma {:induction false} BatchIndexed(w: World, s: Store, batch: seq<Event>)
    requires Sane(w) && Stored(s) && Indexed(s) && Run(w, s, batch).Some?
    ensures (forall k :: 0 <= k <= |batch| ==> RunIndexed(w, s, batch, k))
      <==> (forall k :: 0 <= k < |batch| ==> RunKeepsSource(w, s, batch, k))
  {
    hide Sane, Stored, Indexed, KeepsSource;
    if forall k :: 0 <= k < |batch| ==> RunKeepsSource(w, s, batch, k) {
      forall k | 0 <= k <= |batch| ensures RunIndexed(w, s, batch, k) {
        IndexedUpTo(w, s, batch, k);
      }
    }
    if forall k :: 0 <= k <= |batch| ==> RunIndexed(w, s, batch, k) {
      forall k | 0 <= k < |batch| ensures RunKeepsSource(w, s, batch, k) {
        assert RunIndexed(w, s, batch, k) && RunIndexed(w, s, batch, k + 1);
        RunIndexedStep(w, s, batch, k);
      }
    }
  }

  ghost predicate RunIndexed(w: World, s: Store, batch: seq<Event>, k: nat)
    requires k <= |batch|
  {
    Run(w, s, batch[..k]).Some? && Indexed(Run(w, s, batch[..k]).value)
  }

  ghost predicate RunKeepsSource(w: World, s: Store, batch: seq<Event>, k: nat)
    requires k < |batch|
  {
    Run(w, s, batch[..k]).Some? && KeepsSource(Run(w, s, batch[..k]).value, batch[k])
  }

  lemma RunIndexedStep(w: World, s: Store, batch: seq<Event>, k: nat)
    requires Sane(w) && Stored(s) && k < |batch| && Run(w, s, batch).Some? && RunIndexed(w, s, batch, k)
    ensures RunIndexed(w, s, batch, k + 1) <==> RunKeepsSource(w, s, batch, k)
  {
    hide Sane, Stored, Indexed, Added, Removed;
    RunPrefix(w, s, batch, k);
    RunPrefix(w, s, batch, k + 1);
    RunStep(w, s, batch, k);
    RunStored(w, s, batch[..k]);
    var before := Run(w, s, batch[..k]).value;
    if batch[k].acked {
      RemovedIndexed(w, before, batch[k]);
      SourceOfStored(before, batch[k].id);
    } else {
      AddedIndexed(w, before, batch[k]);
    }
  }

  lemma SourceOfStored(s: Store, id: EventId)
    requires Stored(s)
    ensures id in s.ids ==> s.ids[id] in s.memory
  {
  }

  lemma {:induction false} IndexedUpTo(w: World, s: Store, batch: seq<Event>, k: nat)
    requires Sane(w) && Stored(s) && Indexed(s) && Run(w, s, batch).Some? && k <= |batch|
    requires forall i :: 0 <= i < |batch| ==> RunKeepsSource(w, s, batch, i)
    ensures RunIndexed(w, s, batch, k)
  {
    hide Sane, Stored, Indexed, RunKeepsSource;
    if k == 0 {
      assert batch[..0] == [];
    } else {
      IndexedUpTo(w, s, batch, k - 1);
      RunIndexedStep(w, s, batch, k - 1);
    }
  }

  /** An event that keeps its source and its place goes through, and index and order stay. */
  lemma PlacedGoesOn(w: World, s: Store, e: Event)
    requires Sane(w) && Stored(s) && Indexed(s) && Sorted(w, s) && SameSource(s, e) && InPlace(w, s, e)
    ensures Taken(w, s, e).Some?
    ensures Indexed(Taken(w, s, e).value) && Sorted(w, Taken(w, s, e).value)
  {
    hide Sane, Stored, Indexed, Sorted, Added, Removed, Listing, SameSource, InPlace;
    if e.acked {
      FindableWhen(w, s, e);
      SameLayout(s, e.source);
      RemovedIndexed(w, s, e);
      RemovedSorted(w, s, e);
    } else {
      AddedIndexed(w, s, e);
      AddedSorted(w, s, e);
    }
  }

  lemma SameLayout(s: Store, n: NodeId)
    ensures InOrder(TreeOf(s.entries, n)) == Listing(s.entries, n) && Relaid(s, n, TreeOf(s.entries, n)) == s
  {
  }

  /** Events that change neither the source nor the time of their ids go through in every layout, and all
      sets stay an index in order. */
  lemma {:induction false} SteadyBatch(w: World, s: Store, batch: seq<Event>)
    requires Sane(w) && Stored(s) && Indexed(s) && Sorted(w, s)
    requires forall k :: 0 <= k < |batch| ==> Steady(Folded(StoredEvents(s), batch[..k]), batch[k])
    ensures Run(w, s, batch).Some? && Stored(Run(w, s, batch).value)
    ensures Indexed(Run(w, s, batch).value) && Sorted(w, Run(w, s, batch).value)
  {
    hide Sane, Stored, Indexed, Sorted, Taken, Steady, StoredEvents;
    if batch != [] {
      var init, last := batch[..|batch| - 1], batch[|batch| - 1];
      forall k | 0 <= k < |init| ensures Steady(Folded(StoredEvents(s), init[..k]), init[k]) {
        assert init[..k] == batch[..k];
      }
      SteadyBatch(w, s, init);
      RunStored(w, s, init);
      var before := Run(w, s, init).value;
      SteadyInPlace(w, before, last);
      PlacedGoesOn(w, before, last);
      TakenStored(w, before, last);
    }
  }

  /** The objects of removed events are freed when the batch is done. */
  function Freed(s: Store): Store {
    s.(memory := map p | p in s.memory && Live(s, p) :: s.memory[p])
  }

  /** That leaves no set of an index with a pointer to freed memory. */
  lemma FreedKeeps(w: World, s: Store)
    requires Stored(s)
    ensures Stored(Freed(s)) && StoredEvents(Freed(s)) == StoredEvents(s)
    ensures Indexed(s) ==> Indexed(Freed(s)) && (Sorted(w, s) ==> Sorted(w, Freed(s)))
  {
    hide Listing;
    assert forall p :: Live(Freed(s), p) <==> Live(s, p);
    if Indexed(s) && Sorted(w, s) {
      hide Ordered;
      forall n ensures Ordered(Ranked(w, Freed(s).memory), Listing(s.entries, n)) {
        NoneMoved(Ranked(w, s.memory), Ranked(w, Freed(s).memory), Listing(s.entries, n));
      }
    }
  }

  /** What a batch tells the observers: every event that is not acknowledged, and every acknowledgement of
      one that is stored then, in order. */
  function Noticed(events: Events, batch: seq<Event>): seq<EventId> {
    if batch == [] then []
    else
      var init, last := batch[..|batch| - 1], batch[|batch| - 1];
      Noticed(events, init) + if last.acked && last.id !in Folded(events, init) then [] else [last.id]
  }

  lemma NoticedStep(events: Events, batch: seq<Event>, k: nat)
    requires k < |batch|
    ensures Noticed(events, batch[..k + 1]) == Noticed(events, batch[..k])
      + if batch[k].acked && batch[k].id !in Folded(events, batch[..k]) then [] else [batch[k].id]
  {
    assert batch[..k + 1][..k] == batch[..k];
  }

  /** An id is noticed exactly when some event of the batch bears it that is news at its place. */
  lemma {:induction false} NoticedWhen(events: Events, batch: seq<Event>, id: EventId)
    ensures id in Noticed(events, batch) <==>
      exists k :: 0 <= k < |batch| && batch[k].id == id && (batch[k].acked ==> id in Folded(events, batch[..k]))
  {
    if batch != [] {
      var n := |batch| - 1;
      var init, last := batch[..n], batch[n];
      NoticedWhen(events, init, id);
      assert forall k :: 0 <= k < n ==> init[k] == batch[k] && init[..k] == batch[..k];
    }
  }

  // ---------------------------------------------------------------- inputs for which it fails

  function Balanced(s: seq<Pointer>): (t: Tree)
    ensures InOrder(t) == s
  {
    if s == [] then Leaf
    else
      var mid := |s| / 2;
      Node(Balanced(s[..mid]), s[mid], Balanced(s[mid + 1..]))
  }

  /** All sets are laid out evenly. */
  ghost predicate Even(w: World) {
    Sane(w) && forall k, s :: w.layout(k, s) == Balanced(s)
  }

  const EMPTY := Store(map[], map[], map[], 0)

  function Alone(p: Pointer): Tree {
    Node(Leaf, p, Leaf)
  }

  lemma BalancedSmall(x: Pointer, y: Pointer, z: Pointer)
    ensures Balanced([x]) == Alone(x) && Balanced([x, y]) == Node(Alone(x), y, Leaf)
    ensures Balanced([x, y, z]) == Node(Alone(x), y, Alone(z))
  {
    assert [x, y][..1] == [x] && [x, y, z][..1] == [x] && [x, y, z][2..] == [z];
  }

  lemma InsertThree(ranks: Ranks)
    ensures 0 in ranks ==> Insert(Leaf, ranks, 0) == Some([0])
    ensures 0 in ranks && 2 in ranks && Less(ranks[0], ranks[2]) ==> Insert(Alone(0), ranks, 2) == Some([0, 2])
    ensures 2 in ranks && 4 in ranks && Less(ranks[2], ranks[4]) ==>
      Insert(Node(Alone(0), 2, Leaf), ranks, 4) == Some([0, 2, 4])
  {
    assert InOrder(Leaf) + [0] + [2] == [0, 2] && InOrder(Alone(0)) + [2] + [4] == [0, 2, 4];
  }

  lemma AddedEvenly(w: World, s: Store, e: Event, order: seq<Pointer>)
    requires Even(w)
    requires e.id !in s.ids && e.source != Null
    requires Insert(TreeOf(s.entries, e.source), Ranked(w, s.memory[s.next := e]), s.next) == Some(order)
    requires e.source in s.entries ==> s.entries[e.source].observers == {}
    ensures Added(w, s, e) == Some(Store(s.ids[e.id := s.next], s.memory[s.next := e],
                                            s.entries[e.source := NodeEntry(Balanced(order), {})], s.next + 2))
  {
  }

  /** The store after the first, the second and the third event of a node. */
  function One(x: Event): Store {
    Store(map[x.id := 0], map[0 := x], map[x.source := NodeEntry(Alone(0), {})], 2)
  }

  function Two(x: Event, y: Event): Store {
    Store(map[x.id := 0, y.id := 2], map[0 := x, 2 := y], map[x.source := NodeEntry(Node(Alone(0), 2, Leaf), {})], 4)
  }

  function Three(x: Event, y: Event, z: Event): Store {
    Store(map[x.id := 0, y.id := 2, z.id := 4], map[0 := x, 2 := y, 4 := z],
          map[x.source := NodeEntry(Node(Alone(0), 2, Alone(4)), {})], 6)
  }

  lemma ThreeSteps(w: World, x: Event, y: Event, z: Event)
    requires Even(w) && x.id == 1 && y.id == 2 && z.id == 3 && x.source == y.source == z.source != Null
    requires x.time < y.time < z.time
    ensures Added(w, EMPTY, x) == Some(One(x)) && Added(w, One(x), y) == Some(Two(x, y))
    ensures Added(w, Two(x, y), z) == Some(Three(x, y, z))
  {
    hide Insert, Balanced, Added;
    var one, two, three, a := One(x), Two(x, y), Three(x, y, z), x.source;
    BalancedSmall(0, 2, 4);
    InsertThree(Ranked(w, one.memory));
    InsertThree(Ranked(w, two.memory));
    InsertThree(Ranked(w, three.memory));
    assert EMPTY.memory[0 := x] == one.memory && one.memory[2 := y] == two.memory && two.memory[4 := z] == three.memory;
    AddedEvenly(w, EMPTY, x, [0]);
    AddedEvenly(w, one, y, [0, 2]);
    AddedEvenly(w, two, z, [0, 2, 4]);
    assert EMPTY.entries[a := one.entries[a]] == one.entries && one.entries[a := two.entries[a]] == two.entries;
    assert two.entries[a := three.entries[a]] == three.entries;
    assert EMPTY.ids[1 := 0] == one.ids && one.ids[2 := 2] == two.ids && two.ids[3 := 4] == three.ids;
  }

  /** The store after three events of one node. */
  lemma ThreeStored(w: World, x: Event, y: Event, z: Event)
    requires Even(w) && x.id == 1 && y.id == 2 && z.id == 3 && x.source == y.source == z.source != Null
    requires x.time < y.time < z.time && !x.acked && !y.acked && !z.acked
    ensures Run(w, EMPTY, [x, y, z]) == Some(Three(x, y, z))
  {
    hide Added;
    ThreeSteps(w, x, y, z);
    var batch := [x, y, z];
    RunStep(w, EMPTY, batch, 0);
    RunStep(w, EMPTY, batch, 1);
    RunStep(w, EMPTY, batch, 2);
    assert batch[..0] == [] && batch[..3] == batch;
  }

  lemma MissedInThree(ranks: Ranks, key: Rank)
    requires 0 in ranks && 2 in ranks && 4 in ranks
    requires (Less(ranks[2], key) && Less(ranks[4], key)) || (Less(key, ranks[2]) && Less(ranks[0], key))
    ensures Find(Node(Alone(0), 2, Alone(4)), ranks, key) == Missing
  {
    assert LowerBound(Alone(4), ranks, key, Missing) == if Less(ranks[4], key) then Missing else Found(4);
    assert Less(key, ranks[2]) && Less(ranks[0], key) ==> LowerBound(Alone(0), ranks, key, Found(2)) == Found(2);
  }

  /** The first of three events, acknowledged with a time after the others, is not found. */
  lemma LateAcknowledgementAborts(w: World, x: Event, y: Event, z: Event, late: Event)
    requires Even(w)
    requires x.id == 1 && y.id == 2 && z.id == 3 && x.source == y.source == z.source != Null
    requires x.time < y.time < z.time && !x.acked && !y.acked && !z.acked
    requires late.id == 1 && late.source == x.source && z.time < late.time && late.acked
    ensures Run(w, EMPTY, [x, y, z]).Some? && Run(w, EMPTY, [x, y, z, late]).None?
  {
    ThreeStored(w, x, y, z);
    assert [x, y, z, late][..3] == [x, y, z];
    MissedInThree(Ranked(w, Overwritten(Three(x, y, z), late)), Rank(late.time, w.address(0)));
  }

  /** An event replaced with a time after the next one hides that one, although it did not change. */
  lemma ReplacedEventHidesNext(w: World, x: Event, y: Event, z: Event, later: Event, done: Event)
    requires Even(w)
    requires x.id == 1 && y.id == 2 && z.id == 3 && x.source == y.source == z.source != Null
    requires x.time < y.time < z.time && !x.acked && !y.acked && !z.acked
    requires later.id == 2 && later.source == x.source && z.time < later.time && !later.acked
    requires done == z.(acked := true)
    ensures Run(w, EMPTY, [x, y, z, later]).Some? && Run(w, EMPTY, [x, y, z, later, done]).None?
  {
    hide Insert, Balanced, Find, Listing;
    ThreeStored(w, x, y, z);
    assert [x, y, z, later][..3] == [x, y, z] && [x, y, z, later, done][..4] == [x, y, z, later];
    var now := Three(x, y, z).(memory := map[0 := x, 2 := later, 4 := z]);
    assert Three(x, y, z).memory[2 := later] == now.memory;
    assert Added(w, Three(x, y, z), later) == Some(now);
    MissedInThree(Ranked(w, Overwritten(now, done)), Rank(done.time, w.address(4)));
  }

  lemma OneStored(w: World, x: Event)
    requires Even(w)
    requires x.source != Null && !x.acked
    ensures Run(w, EMPTY, [x]) == Some(One(x))
  {
    BalancedSmall(0, 2, 4);
    InsertThree(Ranked(w, map[0 := x]));
    assert EMPTY.memory[0 := x] == map[0 := x];
    AddedEvenly(w, EMPTY, x, [0]);
    assert [x][..0] == [] && EMPTY.entries[x.source := NodeEntry(Alone(0), {})] == One(x).entries;
    assert EMPTY.ids[x.id := 0] == One(x).ids;
  }

  /** An acknowledgement that names another node with events of its own aborts, however it is laid out. */
  lemma MovedEventAborts(w: World, s: Store, e: Event)
    requires Sane(w) && Stored(s) && Indexed(s) && e.id in s.ids && e.acked
    requires e.source != Null && e.source in s.entries && s.memory[s.ids[e.id]].source != e.source
    ensures Taken(w, s, e).None?
  {
    RemovalGoesOn(w, s, e);
  }

  lemma MovedSteps(w: World, x: Event, moved: Event, done: Event)
    requires x.source != Null && moved.source != Null && x.source != moved.source
    requires moved.id == x.id && done == moved.(acked := true)
    ensures var two := One(x).(memory := map[0 := moved]);
      && Added(w, One(x), moved) == Some(two)
      && Removed(w, two, done) == Some(Store(map[], map[0 := done], two.entries, 2))
  {
    hide Insert, Find;
    var two := One(x).(memory := map[0 := moved]);
    assert One(x).memory[0 := moved] == two.memory;
    assert two.memory[0 := done] == map[0 := done] && two.ids - {x.id} == map[];
  }

  /** An event replaced under another source and then acknowledged there leaves a pointer to freed memory
      in the first set, and the next event of that node runs into it. */
  lemma MovedEventDangles(w: World, x: Event, moved: Event, done: Event, next: Event)
    requires Even(w)
    requires x.source != Null && moved.source != Null && x.source != moved.source && !x.acked && !moved.acked
    requires moved.id == x.id && done == moved.(acked := true) && next.id != x.id
    requires next.source == x.source && !next.acked
    ensures Run(w, EMPTY, [x, moved]).Some? && Run(w, EMPTY, [x, moved, done]).Some?
    ensures !Indexed(Run(w, EMPTY, [x, moved]).value)
    ensures Run(w, Freed(Run(w, EMPTY, [x, moved, done]).value), [next]).None?
  {
    hide Added, Removed, Even;
    OneStored(w, x);
    MovedSteps(w, x, moved, done);
    var batch := [x, moved, done];
    RunStep(w, EMPTY, batch, 1);
    RunStep(w, EMPTY, batch, 2);
    assert batch[..1] == [x] && batch[..2] == [x, moved] && batch[..3] == batch;
    var two := One(x).(memory := map[0 := moved]);
    assert 0 in Listing(two.entries, x.source) && two.memory[0].source != x.source;
    var three := Store(map[], map[0 := done], two.entries, 2);
    assert Freed(three) == three.(memory := map[]);
    FreedIsMet(w, three.(memory := map[]), next);
    RunStep(w, Freed(three), [next], 0);
    assert [next][..0] == [] && [next][..1] == [next];
  }

  lemma FreedIsMet(w: World, s: Store, e: Event)
    requires e.id !in s.ids && e.source != Null && e.source in s.entries && s.entries[e.source].events == Alone(0)
    requires s.memory == map[] && s.next > 0
    ensures Added(w, s, e).None?
  {
  }

  // ---------------------------------------------------------------- the store

  class EventStorage {
    const world: World
    var ids: map<EventId, Pointer>
    var memory: Memory
    var nodeEvents: Entries
    var next: nat
    var alerting: bool
    /** What came in since the last clearing, and what was last reported of each node's set. */
    ghost var log: seq<Event>
    ghost var told: map<NodeId, seq<Pointer>>

    function View(): Store
      reads `ids, `memory, `nodeEvents, `next
    {
      Store(ids, memory, nodeEvents, next)
    }

    /** The stored events are what the log makes of them. */
    ghost predicate Counted()
      reads this
    {
      && Sane(world) && Stored(View()) && StoredEvents(View()) == Folded(map[], log)
      && alerting == (ids != map[])
    }

    /** All sets are an index in order. */
    ghost predicate Valid()
      reads this
    {
      Counted() && Indexed(View()) && Sorted(world, View())
    }

    /** Who remembers the last report of a node knows its set. */
    ghost predicate UpToDate(n: NodeId)
      reads this`told, this`nodeEvents
    {
      n in told ==> told[n] == Listing(nodeEvents, n)
    }

    /** Every set that changed was reported. */
    twostate predicate Reported()
      reads this`told, this`nodeEvents
    {
      && (forall n :: old(UpToDate(n)) ==> UpToDate(n))
      && (forall n :: n in old(told) || Listing(nodeEvents, n) != old(Listing(nodeEvents, n)) ==> n in told)
    }

    constructor (world: World)
      requires Sane(world)
      ensures Valid() && this.world == world && View() == EMPTY && log == [] && told == map[]
    {
      this.world := world;
      ids, memory, nodeEvents, next, alerting, log, told := map[], map[], map[], 0, false, [], map[];
    }

    method UpdateAlerting()
      modifies this`alerting
      ensures alerting == (ids != map[])
    {
      var now := ids != map[];
      if alerting == now {
        return;
      }
      alerting := now;
    }

    /** `NodeEventsChanged` */
    method Change(n: NodeId, order: seq<Pointer>)
      requires Sane(world)
      modifies this`nodeEvents, this`next, this`told
      ensures View() == WithSet(world, old(View()), n, order)
      ensures Reported() && UpToDate(n)
    {
      var observers := if n in nodeEvents then nodeEvents[n].observers else {};
      nodeEvents := nodeEvents[n := NodeEntry(world.layout(next, order), observers)];
      next := next + 1;
      told := told[n := order];
    }

    method Shrink(n: NodeId, left: seq<Pointer>)
      requires Sane(world)
      modifies this`nodeEvents, this`next, this`told
      ensures View() == WithLess(world, old(View()), n, left)
      ensures Reported()
    {
      if left == [] && n in nodeEvents && nodeEvents[n].observers == {} {
        ListingGone(nodeEvents, n);
        nodeEvents, told := nodeEvents - {n}, told[n := []];
      } else {
        Change(n, left);
      }
    }

    method Add(e: Event) returns (went: bool)
      requires Sane(world)
      modifies this`ids, this`memory, this`nodeEvents, this`next, this`alerting, this`told
      ensures went <==> Added(world, old(View()), e).Some?
      ensures went ==> View() == Added(world, old(View()), e).value && alerting == (ids != map[])
      ensures went ==> Reported()
    {
      hide Insert, Listing, Sane, InOrder;
      if e.id in ids {
        memory := memory[ids[e.id] := e];
      } else {
        var p := next;
        ids, memory, next := ids[e.id := p], memory[p := e], next + 1;
        if e.source != Null {
          var order := Insert(TreeOf(nodeEvents, e.source), Ranked(world, memory), p);
          if order.None? {
            return false;
          }
          Change(e.source, order.value);
        }
      }
      UpdateAlerting();
      went := true;
    }

    method Remove(e: Event) returns (found: bool, went: bool)
      requires Sane(world)
      modifies this`ids, this`memory, this`nodeEvents, this`next, this`alerting, this`told
      ensures found == (e.id in old(ids))
      ensures went <==> Removed(world, old(View()), e).Some?
      ensures went ==> View() == Removed(world, old(View()), e).value
      ensures went && found ==> alerting == (ids != map[])
      ensures !found ==> went && unchanged(this)
      ensures went ==> Reported()
    {
      hide Find, Listing, InOrder, Without, Sane, WithLess;
      found, went := e.id in ids, true;
      if !found {
        return;
      }
      var p := ids[e.id];
      memory := memory[p := e];
      if e.source != Null && e.source in nodeEvents {
        var r := Find(nodeEvents[e.source].events, Ranked(world, memory), Rank(e.time, world.address(p)));
        // Check(j != entry.events.end())
        if !r.Found? {
          return found, false;
        }
        assert r == Sought(world, old(View()), e);
        TreeListing(nodeEvents, e.source);
        LessOfIds(world, View(), ids - {e.id}, e.source, Without(Listing(nodeEvents, e.source), r.at));
        Shrink(e.source, Without(Listing(nodeEvents, e.source), r.at));
      }
      ids := ids - {e.id};
      UpdateAlerting();
    }

    /** One event of a batch: whether it is for the observers, and whether the step goes through. */
    method Take(e: Event) returns (found: bool, went: bool)
      requires Sane(world) && Stored(View()) && alerting == (ids != map[])
      modifies this`ids, this`memory, this`nodeEvents, this`next, this`alerting, this`told
      ensures went <==> Taken(world, old(View()), e).Some?
      ensures went ==>
        && View() == Taken(world, old(View()), e).value && Reported() && alerting == (ids != map[])
        && Stored(View()) && StoredEvents(View()) == Applied(StoredEvents(old(View())), e)
        && (!found ==> StoredEvents(View()) == StoredEvents(old(View())))
      ensures found <==> !e.acked || e.id in StoredEvents(old(View()))
    {
      hide Added, Removed, Stored, Sane, Reported;
      ghost var was := View();
      if e.acked {
        found, went := Remove(e);
      } else {
        found := true;
        went := Add(e);
      }
      NoneWithoutId(was, e);
      if went {
        TakenStored(world, was, e);
      }
    }

    /** `Update`: reports every event that is stored, and every acknowledgement of one that was. It ends
        early where a step aborts. */
    method Update(batch: seq<Event>) returns (notified: seq<EventId>, done: nat)
      requires Counted()
      modifies this
      ensures done <= |batch| && Run(world, old(View()), batch[..done]).Some?
      ensures notified == Noticed(StoredEvents(old(View())), batch[..done])
      ensures done < |batch| ==> Taken(world, Run(world, old(View()), batch[..done]).value, batch[done]).None?
      ensures done == |batch| ==>
        && Counted() && log == old(log) + batch && View() == Freed(Run(world, old(View()), batch[..done]).value)
        && Reported()
        && forall id :: Changed(old(StoredEvents(View())), StoredEvents(View()), id) ==> id in notified
    {
      hide Taken, Stored, Sane, Listing, StoredEvents;
      notified, done := [], 0;
      ghost var was := View();
      assert batch[..0] == [];
      while done < |batch|
        invariant done <= |batch| && log == old(log) && alerting == (ids != map[])
        invariant Run(world, was, batch[..done]) == Some(View()) && Sane(world) && Stored(View())
        invariant Reported()
        invariant notified == Noticed(StoredEvents(was), batch[..done])
        invariant StoredEvents(View()) == Folded(StoredEvents(was), batch[..done])
        invariant forall id :: Changed(StoredEvents(was), StoredEvents(View()), id) ==> id in notified
      {
        var e := batch[done];
        RunStep(world, was, batch, done);
        NoticedStep(StoredEvents(was), batch, done);
        assert batch[..done + 1][..done] == batch[..done];
        var found, went := Take(e);
        if !went {
          return;
        }
        if found {
          notified := notified + [e.id];
        }
        done := done + 1;
      }
      assert batch[..|batch|] == batch;
      RunStored(world, was, batch);
      FoldedJoin(map[], log, batch);
      FreedKeeps(world, View());
      memory := map p | p in memory && Live(View(), p) :: memory[p];
      log := log + batch;
    }

    /** The loop of `Clear`. */
    method ClearSets()
      modifies this`nodeEvents, this`told
      ensures forall n :: n in nodeEvents <==> n in old(nodeEvents) && old(nodeEvents)[n].observers != {}
      ensures forall n :: n in nodeEvents ==>
        nodeEvents[n] == NodeEntry(Leaf, old(nodeEvents)[n].observers) && n in told && told[n] == []
      ensures forall n :: n !in nodeEvents ==> (n in told <==> n in old(told))
      ensures forall n :: n !in nodeEvents && n in told ==> told[n] == old(told)[n]
    {
      var todo := nodeEvents.Keys;
      while todo != {}
        invariant todo <= nodeEvents.Keys <= old(nodeEvents).Keys
        invariant forall n :: n in todo ==> nodeEvents[n] == old(nodeEvents)[n]
        invariant forall n :: n in old(nodeEvents) && n !in todo ==>
          (n in nodeEvents <==> old(nodeEvents)[n].observers != {})
        invariant forall n :: n in nodeEvents && n !in todo ==>
          nodeEvents[n] == NodeEntry(Leaf, old(nodeEvents)[n].observers) && n in told && told[n] == []
        invariant forall n :: n in todo || n !in nodeEvents ==> (n in told <==> n in old(told))
        invariant forall n :: (n in todo || n !in nodeEvents) && n in old(told) ==> told[n] == old(told)[n]
        decreases todo
      {
        var n :| n in todo;
        if nodeEvents[n].observers == {} {
          nodeEvents := nodeEvents - {n};
        } else {
          nodeEvents := nodeEvents[n := nodeEvents[n].(events := Leaf)];
          told := told[n := []];
        }
        todo := todo - {n};
      }
    }

    /** Sets without observers of their own vanish unreported, the others are reported empty. */
    method Clear()
      requires Counted()
      modifies this
      ensures Valid() && ids == map[] && log == []
      ensures forall n :: n in nodeEvents <==> n in old(nodeEvents) && old(nodeEvents)[n].observers != {}
      ensures forall n :: n in nodeEvents ==> nodeEvents[n] == NodeEntry(Leaf, old(nodeEvents)[n].observers)
      ensures forall n :: old(UpToDate(n)) ==> (UpToDate(n) <==>
        n !in old(told) || old(told)[n] == [] || n in nodeEvents)
    {
      hide Sane, Stored;
      ClearSets();
      ids, memory := map[], map[];
      UpdateAlerting();
      log := [];
      NothingStored(world, View());
    }

    /** The entry of a node comes with its first observer. */
    method AddNodeObserver(n: NodeId, observer: nat)
      requires Counted()
      modifies this`nodeEvents
      ensures Counted() && n in nodeEvents && (old(Valid()) ==> Valid())
      ensures forall m :: Listing(nodeEvents, m) == Listing(old(nodeEvents), m)
      ensures forall m :: m != n ==> (m in nodeEvents <==> m in old(nodeEvents))
      ensures forall m :: m != n && m in nodeEvents ==> nodeEvents[m] == old(nodeEvents)[m]
      ensures nodeEvents[n].observers
        == (if n in old(nodeEvents) then old(nodeEvents)[n].observers else {}) + {observer}
    {
      hide Ordered, Sane;
      ghost var was := View();
      if n !in nodeEvents {
        nodeEvents := nodeEvents[n := NodeEntry(Leaf, {})];
      }
      nodeEvents := nodeEvents[n := nodeEvents[n].(observers := nodeEvents[n].observers + {observer})];
      forall m ensures Listing(nodeEvents, m) == Listing(was.entries, m) {}
      SameListings(world, was, View());
    }

    /** `GetNodeEvents`: in order of time, the stored events of the node. */
    method GetNodeEvents(n: NodeId) returns (r: Option<Tree>)
      requires Valid()
      ensures r.Some? ==> Ordered(Ranked(world, memory), InOrder(r.value))
      ensures r.Some? ==> TimesRise(memory, InOrder(r.value))
      ensures forall id :: id in ids && r.Some? && ids[id] in InOrder(r.value) <==>
        id in StoredEvents(View()) && StoredEvents(View())[id].source == n && n != Null
    {
      hide Ordered, TimesRise;
      r := if n in nodeEvents then Some(nodeEvents[n].events) else None;
      assert Ordered(Ranked(world, memory), Listing(nodeEvents, n));
      OrderedRises(world, memory, Listing(nodeEvents, n));
      forall id ensures id in StoredEvents(View()) && StoredEvents(View())[id].source == n && n != Null
        <==> id in ids && ids[id] in Listing(nodeEvents, n)
      {
        assert id in ids ==> Live(View(), ids[id]);
      }
    }
  }

  /** Earlier events stand before later ones. */
  ghost predicate TimesRise(memory: Memory, s: seq<Pointer>) {
    forall i, j :: 0 <= i < j < |s| ==>
      s[i] in memory && s[j] in memory && memory[s[i]].time <= memory[s[j]].time
  }

  lemma OrderedRises(w: World, memory: Memory, s: seq<Pointer>)
    requires Ordered(Ranked(w, memory), s)
    ensures TimesRise(memory, s)
  {
  }

  lemma NothingStored(w: World, s: Store)
    requires s.ids == map[] && s.memory == map[] && forall n :: n in s.entries ==> s.entries[n].events == Leaf
    ensures Stored(s) && StoredEvents(s) == map[] && Indexed(s) && Sorted(w, s)
  {
  }

  lemma SameListings(w: World, was: Store, now: Store)
    requires Stored(was) && now == was.(entries := now.entries)
    requires forall m :: Listing(now.entries, m) == Listing(was.entries, m)
    ensures Stored(now) && StoredEvents(now) == StoredEvents(was)
    ensures Indexed(was) ==> Indexed(now) && (Sorted(w, was) ==> Sorted(w, now))
  {
    hide Listing, Ordered;
    assert forall p :: Live(now, p) <==> Live(was, p);
  }

  /** An event of a node that nobody observes: after a clearing its last report is out of date. */
  method StaleAfterClear(w: World, e: Event) returns (store: EventStorage)
    requires Even(w) && e.source != Null && !e.acked
    ensures store.Valid() && !store.UpToDate(e.source)
  {
    store := new EventStorage(w);
    OneStored(w, e);
    assert [e][..0] == [] && [e][..1] == [e];
    RunStep(w, EMPTY, [e], 0);
    var notified, done := store.Update([e]);
    assert Listing(store.nodeEvents, e.source) == [0] && Listing(EMPTY.entries, e.source) == [];
    assert store.UpToDate(e.source) && e.source in store.told;
    store.Clear();
  }

  /** The two stores say different things of the id. */
  predicate Changed(was: Events, now: Events, id: EventId) {
    (id in was) != (id in now) || (id in was && id in now && was[id] != now[id])
  }

  lemma ListingGone(entries: Entries, n: NodeId)
    ensures forall m :: Listing(entries - {n}, m) == if m == n then [] else Listing(entries, m)
  {
  }

  lemma NoneWithoutId(s: Store, e: Event)
    requires Stored(s)
    ensures e.id in StoredEvents(s) <==> e.id in s.ids
    ensures e.acked && e.id !in s.ids ==> Applied(StoredEvents(s), e) == StoredEvents(s)
  {
  }
}
