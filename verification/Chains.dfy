/** What a chain built over a store that stays fixed contains. */
module Chains {
  import opened Models
  import opened Ordering
  import opened Graph
  import opened GraphLimits
  import opened GraphExactness
  import opened Correlator

  /** siblingsOf lists every chain of the store, each in any order. */
  ghost predicate ListsChains(store: map<string, StoredEvent>, siblingsOf: string -> Result<seq<StoredEvent>>) {
    forall c :: c != "" ==> siblingsOf(c).Ok? && Elements(siblingsOf(c).value) == EventsOfChain(store, c)
  }

  /** The events the chain of startID is made of. */
  ghost function ChainMembers(store: map<string, StoredEvent>, startID: string, linked: seq<StoredEvent>)
      : set<StoredEvent>
    requires startID in store
  {
    Elements(linked) + (if store[startID].chainID != "" then EventsOfChain(store, store[startID].chainID) else {})
  }

  ghost predicate Backed(store: map<string, StoredEvent>, m: map<string, StoredEvent>) {
    forall id :: id in m ==> id in store && m[id] == store[id]
  }

  ghost predicate AllStored(store: map<string, StoredEvent>, events: seq<StoredEvent>) {
    forall i :: 0 <= i < |events| ==> events[i].id in store && store[events[i].id] == events[i]
  }

  lemma {:induction false} KeyByIdStored(store: map<string, StoredEvent>, events: seq<StoredEvent>)
    requires AllStored(store, events)
    ensures Backed(store, KeyById(events)) && KeyById(events).Values == Elements(events)
  {
    if events != [] {
      var front, last := events[..|events| - 1], events[|events| - 1];
      KeyByIdStored(store, front);
      var m := KeyById(events);
      assert events == front + [last];
      forall e | e in front ensures e in m.Values {
        assert e in KeyById(front).Values;
        var id :| id in KeyById(front) && KeyById(front)[id] == e;
        assert m[id] == e;
      }
      assert last.id in m && m[last.id] == last;
      forall e | e in m.Values ensures e in events {
        var id :| id in m && m[id] == e;
        if id != last.id {
          assert e in KeyById(front).Values;
          assert e in Elements(front);
        }
      }
    }
  }

  lemma {:induction false} AddMissingStored(store: map<string, StoredEvent>, m: map<string, StoredEvent>,
                                            events: seq<StoredEvent>)
    requires Backed(store, m) && AllStored(store, events)
    ensures Backed(store, AddMissing(m, events))
    ensures AddMissing(m, events).Values == m.Values + Elements(events)
    decreases |events|
  {
    if events != [] {
      var head := events[0];
      var m1 := if head.id in m then m else m[head.id := head];
      assert events == [head] + events[1..];
      assert m1.Values == m.Values + {head} by {
        assert head.id in m1 && m1[head.id] == head;
        forall e | e in m.Values ensures e in m1.Values {
          var id :| id in m && m[id] == e;
          assert m1[id] == e;
        }
      }
      AddMissingStored(store, m1, events[1..]);
    }
  }

  /** The map that BuildChain merges holds exactly the members of the chain. */
  lemma MergedMembers(store: map<string, StoredEvent>, siblingsOf: string -> Result<seq<StoredEvent>>,
                      startID: string, linked: seq<StoredEvent>)
      returns (members: map<string, StoredEvent>)
    requires KeyedById(store) && startID in store && ListsChains(store, siblingsOf) && AllStored(store, linked)
    ensures KeyedById(members) && members.Values == ChainMembers(store, startID, linked)
    ensures members == if store[startID].chainID == "" then KeyById(linked)
                       else AddMissing(KeyById(linked), siblingsOf(store[startID].chainID).value)
  {
    KeyByIdStored(store, linked);
    members := KeyById(linked);
    var c := store[startID].chainID;
    if c != "" {
      var siblings := siblingsOf(c).value;
      forall i | 0 <= i < |siblings| ensures siblings[i].id in store && store[siblings[i].id] == siblings[i] {
        assert siblings[i] in Elements(siblings);
      }
      AddMissingStored(store, members, siblings);
      members := AddMissing(members, siblings);
    }
  }

  /**
   * Over a fixed store, BuildChain answers with what the walk returned, which are the
   * nearest linked events (ExactWalk), united with every event that shares the start's chainId, each once, newest first
   * with ties by id, and with the root cause of that set. Neither the order in which
   * the store lists a chain nor that of a map shows in the answer.
   */
  lemma ChainOverStore(store: map<string, StoredEvent>, siblingsOf: string -> Result<seq<StoredEvent>>,
                       startID: string, maxDepth: nat, maxEvents: nat)
      returns (linked: seq<StoredEvent>, ordered: seq<StoredEvent>)
    requires KeyedById(store) && startID in store && ListsChains(store, siblingsOf)
    ensures var walk := Traverse(Snapshot(store), 1, startID, maxDepth, maxEvents);
            walk.Ok? && linked == walk.value.result
    ensures ExactWalk(store, startID, maxDepth, maxEvents, linked)
    ensures StrictlySorted(EventRank, ordered) && Elements(ordered) == ChainMembers(store, startID, linked)
    ensures maxEvents > 0 || store[startID].chainID != "" ==> store[startID] in ordered
    ensures var r := ChainOf(Snapshot(store), siblingsOf, startID, maxDepth, maxEvents);
            && r.Ok?
            && r.value.chainID == store[startID].chainID && r.value.startEvent == startID
            && r.value.events == MapSeq(ToChainEvent, ordered)
            && IsRootCause(Elements(ordered), r.value.rootCause)
            && ShowsChain(r.value, ordered)
  {
    TraversalExact(store, 1, startID, maxDepth, maxEvents);
    StartFirst(Snapshot(store), 1, startID, maxDepth, maxEvents);
    linked := Traverse(Snapshot(store), 1, startID, maxDepth, maxEvents).value.result;
    var members := MergedMembers(store, siblingsOf, startID, linked);
    ordered := NewestFirst(members);
    RootCauseOfSet(ordered);
    AssembledShows(startID, store[startID].chainID, members);
    assert linked != [] ==> linked[0] in Elements(linked);
    assert store[startID].chainID != "" ==> store[startID] in EventsOfChain(store, store[startID].chainID);
    assert maxEvents > 0 || store[startID].chainID != "" ==> store[startID] in Elements(ordered);
  }

  lemma {:induction false} StrictlySortedCount(events: seq<StoredEvent>)
    requires StrictlySorted(EventRank, events)
    ensures |Elements(events)| == |events|
  {
    if events != [] {
      var front, last := events[..|events| - 1], events[|events| - 1];
      StrictlySortedCount(front);
      assert events == front + [last];
      assert Elements(events) == Elements(front) + {last};
      forall i | 0 <= i < |front| ensures front[i] != last {
        BeforeTotal(EventRank(events[i]), EventRank(last));
      }
      assert last !in Elements(front);
    }
  }

  /** The event limit bounds a chain whose start has no chainId. */
  lemma UnlabelledChainBounded(store: map<string, StoredEvent>, siblingsOf: string -> Result<seq<StoredEvent>>,
                               startID: string, maxDepth: nat, maxEvents: nat)
    requires KeyedById(store) && startID in store && ListsChains(store, siblingsOf)
    requires store[startID].chainID == ""
    ensures var r := ChainOf(Snapshot(store), siblingsOf, startID, maxDepth, maxEvents);
            r.Ok? && |r.value.events| <= maxEvents
  {
    hide StrictlySorted, Reachable, NoFarther, ChainOf, IsRootCause, EventRank, ListsChains, KeyedById, Traverse;
    var linked, ordered := ChainOverStore(store, siblingsOf, startID, maxDepth, maxEvents);
    StrictlySortedCount(ordered);
    ElementsCount(linked);
  }

  lemma LinkedCount(linked: seq<StoredEvent>)
    requires forall i, j :: 0 <= i < j < |linked| ==> linked[i].id != linked[j].id
    ensures |Elements(linked)| == |linked|
  {
    ElementsCount(linked);
    IdsCount(linked);
    IdsFromElements(linked);
  }

  lemma {:induction false} IdsFromElements(events: seq<StoredEvent>)
    ensures |IdsOf(events)| <= |Elements(events)|
  {
    var ids := set e | e in Elements(events) :: e.id;
    assert IdsOf(events) == ids by {
      forall e | e in Elements(events) ensures e.id in IdsOf(events) {
        var i :| 0 <= i < |events| && events[i] == e;
      }
      forall id | id in IdsOf(events) ensures id in ids {
        var i :| 0 <= i < |events| && events[i].id == id;
        assert events[i] in Elements(events);
      }
    }
    ImageCount(Elements(events));
  }

  lemma {:induction false} ImageCount(events: set<StoredEvent>)
    ensures |set e | e in events :: e.id| <= |events|
  {
    if events != {} {
      var x :| x in events;
      var rest := events - {x};
      ImageCount(rest);
      assert (set e | e in events :: e.id) == (set e | e in rest :: e.id) + {x.id};
    }
  }

  lemma UnionCount(linked: seq<StoredEvent>, ordered: seq<StoredEvent>, siblings: set<StoredEvent>)
    requires forall i, j :: 0 <= i < j < |linked| ==> linked[i].id != linked[j].id
    requires StrictlySorted(EventRank, ordered) && Elements(ordered) == Elements(linked) + siblings
    ensures |ordered| == |linked| + |siblings - Elements(linked)|
  {
    StrictlySortedCount(ordered);
    LinkedCount(linked);
    assert Elements(ordered) == Elements(linked) + (siblings - Elements(linked));
  }

  /**
   * With a chainId, the chain holds every event that shares it as well, however many and
   * far apart they are. What that means for the event limit, in terms of the store
   * alone, is in module ChainLimits.
   */
  lemma LabelledChainSize(store: map<string, StoredEvent>, siblingsOf: string -> Result<seq<StoredEvent>>,
                          startID: string, maxDepth: nat, maxEvents: nat)
      returns (linked: seq<StoredEvent>)
    requires KeyedById(store) && startID in store && ListsChains(store, siblingsOf)
    requires store[startID].chainID != ""
    ensures var walk := Traverse(Snapshot(store), 1, startID, maxDepth, maxEvents);
            walk.Ok? && linked == walk.value.result
    ensures ExactWalk(store, startID, maxDepth, maxEvents, linked)
    ensures var r := ChainOf(Snapshot(store), siblingsOf, startID, maxDepth, maxEvents);
            var unlinked := EventsOfChain(store, store[startID].chainID) - Elements(linked);
            r.Ok? && |r.value.events| == |linked| + |unlinked|
  {
    var ordered;
    linked, ordered := ChainOverStore(store, siblingsOf, startID, maxDepth, maxEvents);
    UnionCount(linked, ordered, EventsOfChain(store, store[startID].chainID));
  }

  lemma {:induction false} ElementsCount<T>(s: seq<T>)
    ensures |Elements(s)| <= |s|
  {
    if s != [] {
      ElementsCount(s[..|s| - 1]);
      assert Elements(s) == Elements(s[..|s| - 1]) + {s[|s| - 1]};
    }
  }
}
