/**
 * When a chain stays within the event limit that the walk is held to, although events
 * of the start's chainId are added to what the walk found.
 */
module ChainLimits {
  import opened Models
  import opened Ordering
  import opened Graph
  import opened GraphExactness
  import opened Correlator
  import opened Chains
  import opened BackendChains

  /** The ids of the stored events that carry a chainId. */
  ghost function IdsOfChain(store: map<string, StoredEvent>, chainID: string): set<string> {
    set id | id in store && store[id].chainID == chainID
  }

  /** The ids that share the chainId of a stored event. */
  ghost function Siblings(store: map<string, StoredEvent>, startID: string): set<string>
    requires startID in store
  {
    IdsOfChain(store, store[startID].chainID)
  }

  ghost function IdsIn(events: set<StoredEvent>): set<string> {
    set e | e in events :: e.id
  }

  lemma {:induction false} StoredIdsCount(store: map<string, StoredEvent>, events: set<StoredEvent>)
    requires forall e :: e in events ==> e.id in store && store[e.id] == e
    ensures |IdsIn(events)| == |events|
  {
    if events != {} {
      var x :| x in events;
      var rest := events - {x};
      StoredIdsCount(store, rest);
      assert IdsIn(events) == IdsIn(rest) + {x.id};
      assert x.id !in IdsIn(rest);
    }
  }

  lemma MemberIds(store: map<string, StoredEvent>, linked: seq<StoredEvent>, chainID: string)
    requires KeyedById(store)
    ensures IdsIn(Elements(linked) + EventsOfChain(store, chainID)) == IdsOf(linked) + IdsOfChain(store, chainID)
  {
    var members := Elements(linked) + EventsOfChain(store, chainID);
    forall id | id in IdsOf(linked) ensures id in IdsIn(members) {
      var i :| 0 <= i < |linked| && linked[i].id == id;
      assert linked[i] in members;
    }
    forall id | id in IdsOfChain(store, chainID) ensures id in IdsIn(members) {
      assert store[id] in members;
    }
    forall id | id in IdsIn(members) ensures id in IdsOf(linked) + IdsOfChain(store, chainID) {
      var e :| e in members && e.id == id;
      if e in linked {
        var i :| 0 <= i < |linked| && linked[i] == e;
        assert linked[i].id in IdsOf(linked);
      }
    }
  }

  lemma EqualBySize<T>(a: set<T>, b: set<T>)
    requires a <= b && |a| == |b|
    ensures a == b
  {
    assert b == a + (b - a);
    assert |b - a| == 0;
  }

  lemma WalkIds(store: map<string, StoredEvent>, startID: string, maxDepth: nat, maxEvents: nat,
                linked: seq<StoredEvent>)
    requires ExactWalk(store, startID, maxDepth, maxEvents, linked)
    ensures |IdsOf(linked)| == |linked| == Min(maxEvents, |Reachable(store, startID, maxDepth)|)
    ensures IdsOf(linked) <= Reachable(store, startID, maxDepth)
    ensures forall e :: e in Elements(linked) ==> e.id in store && store[e.id] == e
    ensures |Reachable(store, startID, maxDepth)| <= maxEvents ==> IdsOf(linked) == Reachable(store, startID, maxDepth)
  {
    hide NoFarther, Within;
    IdsCount(linked);
    if |Reachable(store, startID, maxDepth)| <= maxEvents {
      EqualBySize(IdsOf(linked), Reachable(store, startID, maxDepth));
    }
  }

  /** The chain has one event for each id that the walk found or that shares the chainId. */
  lemma ChainIds(store: map<string, StoredEvent>, siblingsOf: string -> Result<seq<StoredEvent>>,
                 startID: string, maxDepth: nat, maxEvents: nat)
      returns (linked: seq<StoredEvent>)
    requires KeyedById(store) && startID in store && ListsChains(store, siblingsOf)
    requires store[startID].chainID != ""
    ensures var walk := Traverse(Snapshot(store), 1, startID, maxDepth, maxEvents);
            walk.Ok? && linked == walk.value.result
    ensures ExactWalk(store, startID, maxDepth, maxEvents, linked)
    ensures var r := ChainOf(Snapshot(store), siblingsOf, startID, maxDepth, maxEvents);
            r.Ok? && |r.value.events| == |IdsOf(linked) + Siblings(store, startID)|
  {
    hide ExactWalk, ChainOf, StrictlySorted, EventRank, ListsChains, IsRootCause;
    var ordered;
    linked, ordered := ChainOverStore(store, siblingsOf, startID, maxDepth, maxEvents);
    WalkIds(store, startID, maxDepth, maxEvents, linked);
    StrictlySortedCount(ordered);
    StoredIdsCount(store, Elements(ordered));
    MemberIds(store, linked, store[startID].chainID);
  }

  /**
   * If the walk is not cut off, the chain is what is within reach together with what
   * shares the chainId, and stays within the limit exactly when there are few enough of
   * those in the store.
   */
  lemma UncutChainLimitIff(store: map<string, StoredEvent>, siblingsOf: string -> Result<seq<StoredEvent>>,
                           startID: string, maxDepth: nat, maxEvents: nat)
    requires KeyedById(store) && startID in store && ListsChains(store, siblingsOf)
    requires store[startID].chainID != "" && |Reachable(store, startID, maxDepth)| <= maxEvents
    ensures var r := ChainOf(Snapshot(store), siblingsOf, startID, maxDepth, maxEvents);
            var ids := Reachable(store, startID, maxDepth) + Siblings(store, startID);
            r.Ok? && |r.value.events| == |ids| && (|r.value.events| <= maxEvents <==> |ids| <= maxEvents)
  {
    hide ExactWalk, ChainOf, Reachable;
    var linked := ChainIds(store, siblingsOf, startID, maxDepth, maxEvents);
    WalkIds(store, startID, maxDepth, maxEvents, linked);
  }

  /** If the walk fills the limit, the chain stays within it exactly when the walk leaves no sibling out. */
  lemma CutChainLimitIff(store: map<string, StoredEvent>, siblingsOf: string -> Result<seq<StoredEvent>>,
                         startID: string, maxDepth: nat, maxEvents: nat)
      returns (linked: seq<StoredEvent>)
    requires KeyedById(store) && startID in store && ListsChains(store, siblingsOf)
    requires store[startID].chainID != "" && |Reachable(store, startID, maxDepth)| >= maxEvents
    ensures var walk := Traverse(Snapshot(store), 1, startID, maxDepth, maxEvents);
            walk.Ok? && linked == walk.value.result
    ensures ExactWalk(store, startID, maxDepth, maxEvents, linked)
    ensures var r := ChainOf(Snapshot(store), siblingsOf, startID, maxDepth, maxEvents);
            r.Ok? && (|r.value.events| <= maxEvents <==> Siblings(store, startID) <= IdsOf(linked))
  {
    hide ExactWalk, ChainOf, Reachable;
    linked := ChainIds(store, siblingsOf, startID, maxDepth, maxEvents);
    WalkIds(store, startID, maxDepth, maxEvents, linked);
    var ids, all := IdsOf(linked), IdsOf(linked) + Siblings(store, startID);
    if Siblings(store, startID) <= ids {
      assert all == ids;
    } else {
      SubsetCount(ids, all);
      if |all| <= maxEvents { EqualBySize(ids, all); }
    }
  }

  /** A walk held to a limit that everything within d links fits into finds all of that. */
  lemma NearFound(store: map<string, StoredEvent>, startID: string, maxDepth: nat, maxEvents: nat,
                  linked: seq<StoredEvent>, d: nat, o: string)
    requires ExactWalk(store, startID, maxDepth, maxEvents, linked) && d <= maxDepth
    requires |Reachable(store, startID, d)| <= maxEvents && o in Reachable(store, startID, d)
    ensures o in IdsOf(linked)
  {
    hide Within;
    WalkIds(store, startID, maxDepth, maxEvents, linked);
    WithinMonotone(store, startID, d, maxDepth);
    if o !in IdsOf(linked) {
      forall id | id in IdsOf(linked) ensures id in Reachable(store, startID, d) {
        var i :| 0 <= i < |linked| && linked[i].id == id;
        assert NoFarther(store, startID, linked[i].id, o);
      }
      SubsetCount(IdsOf(linked) + {o}, Reachable(store, startID, d));
      EqualBySize(IdsOf(linked), Reachable(store, startID, d));
    }
  }

  /** A walk whose limit is reached within d links finds nothing farther. */
  lemma FarNotFound(store: map<string, StoredEvent>, startID: string, maxDepth: nat, maxEvents: nat,
                    linked: seq<StoredEvent>, d: nat, o: string)
    requires ExactWalk(store, startID, maxDepth, maxEvents, linked) && d <= maxDepth
    requires |Reachable(store, startID, d)| >= maxEvents && o in IdsOf(linked)
    ensures o in Within(store, startID, d)
  {
    hide Within;
    WalkIds(store, startID, maxDepth, maxEvents, linked);
    var near := Reachable(store, startID, d);
    if x :| x in near && x !in IdsOf(linked) {
      WithinMonotone(store, startID, d, maxDepth);
      var i :| 0 <= i < |linked| && linked[i].id == o;
      assert NoFarther(store, startID, linked[i].id, x);
    } else {
      SubsetCount(near, IdsOf(linked));
      EqualBySize(near, IdsOf(linked));
    }
  }

  /** A walk whose limit is reached within d links is as long as the limit. */
  lemma WalkFilled(store: map<string, StoredEvent>, startID: string, maxDepth: nat, maxEvents: nat,
                   linked: seq<StoredEvent>, d: nat)
    requires ExactWalk(store, startID, maxDepth, maxEvents, linked) && d <= maxDepth
    requires |Reachable(store, startID, d)| >= maxEvents
    ensures |IdsOf(linked)| == maxEvents
  {
    hide ExactWalk, Within;
    WalkIds(store, startID, maxDepth, maxEvents, linked);
    WithinMonotone(store, startID, d, maxDepth);
    SubsetCount(Reachable(store, startID, d), Reachable(store, startID, maxDepth));
  }

  lemma OneMore(ids: set<string>, siblings: set<string>, o: string)
    requires o in siblings && o !in ids
    ensures |ids + siblings| > |ids|
  {
    SubsetCount(ids + {o}, ids + siblings);
  }

  /**
   * The limit by link distance, for any distance d up to the depth limit. The chain stays
   * within the limit if everything within d links fits into it and no sibling is farther
   * than that. It does not if what is within d links fills the limit and a sibling is
   * farther. So where just that much is within d links, it does exactly when no sibling
   * is farther.
   */
  lemma ChainLimitByDistance(store: map<string, StoredEvent>, siblingsOf: string -> Result<seq<StoredEvent>>,
                             startID: string, maxDepth: nat, maxEvents: nat, d: nat)
    requires KeyedById(store) && startID in store && ListsChains(store, siblingsOf)
    requires store[startID].chainID != "" && d <= maxDepth
    ensures var r := ChainOf(Snapshot(store), siblingsOf, startID, maxDepth, maxEvents);
            var near, siblings := Within(store, startID, d), Siblings(store, startID);
            && r.Ok?
            && (|Reachable(store, startID, d)| <= maxEvents && siblings <= near ==> |r.value.events| <= maxEvents)
            && (|Reachable(store, startID, d)| >= maxEvents && !(siblings <= near) ==> |r.value.events| > maxEvents)
            && (|Reachable(store, startID, d)| == maxEvents ==> (|r.value.events| <= maxEvents <==> siblings <= near))
  {
    hide ExactWalk, ChainOf, Within, IdsOf;
    var linked := ChainIds(store, siblingsOf, startID, maxDepth, maxEvents);
    WalkIds(store, startID, maxDepth, maxEvents, linked);
    var near, siblings := Within(store, startID, d), Siblings(store, startID);
    if siblings <= near && |Reachable(store, startID, d)| <= maxEvents {
      forall o | o in siblings ensures o in IdsOf(linked) {
        NearFound(store, startID, maxDepth, maxEvents, linked, d, o);
      }
      assert IdsOf(linked) + siblings == IdsOf(linked);
    }
    if !(siblings <= near) && |Reachable(store, startID, d)| >= maxEvents {
      WalkFilled(store, startID, maxDepth, maxEvents, linked, d);
      var o :| o in siblings && o !in near;
      if o in IdsOf(linked) { FarNotFound(store, startID, maxDepth, maxEvents, linked, d, o); }
      OneMore(IdsOf(linked), siblings, o);
    }
  }

  function Unlinked(id: string, chainID: string): StoredEvent {
    StoredEvent(id, "", "", 0, "", "", chainID, [], "", None)
  }

  function Pair(a: string, b: string, chainID: string): map<string, StoredEvent> {
    map[a := Unlinked(a, chainID), b := Unlinked(b, chainID)]
  }

  lemma PairIds(a: string, b: string, chainID: string)
    requires a != b && chainID != ""
    ensures var store := Pair(a, b, chainID);
            && KeyedById(store) && store.Keys == {a, b} && store[a].chainID != "" && Siblings(store, a) == {a, b}
  {
  }

  lemma PairChain(a: string, b: string, chainID: string, maxDepth: nat)
    requires a != b && chainID != ""
    ensures var store := Pair(a, b, chainID);
            var r := ChainOf(Snapshot(store), MemorySiblings(store), a, maxDepth, 1);
            r.Ok? && |r.value.events| == 2
  {
    hide ChainOf, Within, MemorySiblings, ExactWalk, ListsChains, Pair, Siblings, KeyedById, IdsOf;
    var store := Pair(a, b, chainID);
    PairIds(a, b, chainID);
    MemoryListsChains(store);
    var linked := ChainIds(store, MemorySiblings(store), a, maxDepth, 1);
    WalkIds(store, a, maxDepth, 1, linked);
    assert IdsOf(linked) + {a, b} == {a, b};
  }

  /** Two events without links that share a chainId make a chain of two under a limit of one. */
  lemma SiblingsExceedLimit()
    ensures var store := Pair("a", "b", "c");
            var r := ChainOf(Snapshot(store), MemorySiblings(store), "a", 32, 1);
            r.Ok? && |r.value.events| == 2
  {
    hide ChainOf, MemorySiblings, Pair;
    PairChain("a", "b", "c", 32);
  }
}
