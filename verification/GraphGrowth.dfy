/**
 * The walk over a store that gains events while it is walked and never changes one: what
 * the ingestion of events with unique ids does to it.
 */
module GraphGrowth {
  import opened Models
  import opened Graph
  import opened GraphLimits
  import opened GraphExactness

  /** The store at the time of each read. */
  type Stores = nat -> map<string, StoredEvent>

  function Changing(stores: Stores): Source {
    (n: nat, id: string) => if id in stores(n) then Found(stores(n)[id]) else Missing
  }

  ghost predicate Grows(stores: Stores) {
    && (forall n :: KeyedById(stores(n)))
    && (forall n, m, id :: n <= m && id in stores(n) ==> id in stores(m) && stores(m)[id] == stores(n)[id])
  }

  /** The result holds events of the last store, each once, and every taken id that was there from the first. */
  ghost predicate Gathered(first: map<string, StoredEvent>, last: map<string, StoredEvent>,
                           w: Walk, depth: map<string, nat>) {
    && (forall i :: 0 <= i < |w.result| ==>
          w.result[i].id in depth && w.result[i].id !in Queued(w.queue) &&
          w.result[i].id in last && last[w.result[i].id] == w.result[i])
    && (forall i, j :: 0 <= i < j < |w.result| ==> w.result[i].id != w.result[j].id)
    && (forall v :: v in depth && v !in Queued(w.queue) && v in first ==> v in IdsOf(w.result))
  }

  /** Depths are those of links in the last store; ids of the first store are expanded once taken. */
  ghost predicate Growing(first: map<string, StoredEvent>, last: map<string, StoredEvent>, start: string,
                          levels: seq<set<string>>, w: Walk, depth: map<string, nat>, lo: nat, open: set<string>) {
    && start in depth && depth[start] == 0
    && Layered(first, levels, w, depth, lo, open)
    && Gathered(first, last, w, depth)
  }

  lemma PopLayers(store: map<string, StoredEvent>, levels: seq<set<string>>, w: Walk, popped: Walk,
                  depth: map<string, nat>, lo: nat)
    requires w.queue != [] && Layered(store, levels, w, depth, lo, {})
    requires popped.visited == w.visited && popped.queue == w.queue[1..]
    ensures Layered(store, levels, popped, depth, w.queue[0].depth, {w.queue[0].id})
    ensures w.queue[0].id in depth && depth[w.queue[0].id] == w.queue[0].depth
  {
    QueuedPop(w.queue);
  }

  lemma PopGathered(first: map<string, StoredEvent>, last: map<string, StoredEvent>, w: Walk, popped: Walk,
                    depth: map<string, nat>, lo: nat)
    requires w.queue != [] && QueueOrder(w.queue, depth, lo) && Gathered(first, last, w, depth)
    requires popped.queue == w.queue[1..] && popped.result == w.result && w.queue[0].id !in first
    ensures Gathered(first, last, popped, depth)
  {
    QueuedPop(w.queue);
  }

  lemma TakeGathered(first: map<string, StoredEvent>, last: map<string, StoredEvent>, w: Walk, taken: Walk,
                     depth: map<string, nat>, lo: nat)
    requires w.queue != [] && QueueOrder(w.queue, depth, lo) && Gathered(first, last, w, depth)
    requires w.queue[0].id in last && last[w.queue[0].id].id == w.queue[0].id
    requires taken.queue == w.queue[1..] && taken.result == w.result + [last[w.queue[0].id]]
    ensures Gathered(first, last, taken, depth)
  {
    QueuedPop(w.queue);
    hide Queued;
    var cur := w.queue[0].id;
    assert taken.result[|w.result|].id == cur;
    forall v | v in depth && v !in Queued(taken.queue) && v in first ensures v in IdsOf(taken.result) {
      if v != cur {
        var i :| 0 <= i < |w.result| && w.result[i].id == v;
        assert taken.result[i].id == v;
      }
    }
  }

  lemma QueueOneGathered(first: map<string, StoredEvent>, last: map<string, StoredEvent>, w: Walk,
                         depth: map<string, nat>, t: string, d: nat)
    requires t !in depth && Gathered(first, last, w, depth)
    ensures Gathered(first, last, Queue1(w, t, d), depth[t := d])
  {
    QueuedAppend(w.queue, Item(t, d));
  }

  lemma QueueOneGrowing(first: map<string, StoredEvent>, last: map<string, StoredEvent>, start: string,
                        levels: seq<set<string>>, w: Walk, depth: map<string, nat>, cur: string, t: string)
    requires cur in depth && depth[cur] < |levels| - 1
    requires Growing(first, last, start, levels, w, depth, depth[cur], {cur})
    requires t !in depth && t in levels[depth[cur] + 1]
    ensures Growing(first, last, start, levels, Queue1(w, t, depth[cur] + 1), depth[t := depth[cur] + 1],
                    depth[cur], {cur})
  {
    hide Depths, QueueOrder, Closed, Gathered;
    QueueOneVisited(levels, w.visited, depth, t, depth[cur] + 1);
    QueueOneOrder(w.queue, depth, depth[cur], t);
    QueueOneClosed(first, |levels| - 1, w.queue, depth, {cur}, t, depth[cur] + 1);
    QueueOneGathered(first, last, w, depth, t, depth[cur] + 1);
  }

  /** Queueing the links of the id just taken keeps all that. */
  lemma {:induction false} EnqueueGrowing(first: map<string, StoredEvent>, last: map<string, StoredEvent>,
                                          start: string, levels: seq<set<string>>, w: Walk,
                                          depth: map<string, nat>, cur: string, k: nat)
      returns (depth': map<string, nat>)
    requires IsLevels(last, start, levels) && cur in last && k <= |last[cur].links|
    requires cur in depth && depth[cur] < |levels| - 1
    requires Growing(first, last, start, levels, w, depth, depth[cur], {cur})
    requires Expanded(last[cur].links[..k], depth[cur], depth)
    ensures Growing(first, last, start, levels, Enqueue(last[cur].links[k..], depth[cur] + 1, w), depth',
                    depth[cur], {cur})
    ensures cur in depth' && depth'[cur] == depth[cur] && Expanded(last[cur].links, depth[cur], depth')
    decreases |last[cur].links| - k
  {
    hide QueueOrder, Closed, Gathered, Expanded;
    var links := last[cur].links;
    if k == |links| {
      assert links[..k] == links && links[k..] == [];
      depth' := depth;
    } else {
      var t := links[k].linkID;
      assert links[k..][1..] == links[k + 1..];
      if t == "" || t in w.visited {
        if t != "" { VisitedDepth(w.queue, depth, depth[cur], t); }
        ExpandedGrow(links, k, depth[cur], depth, depth);
        depth' := EnqueueGrowing(first, last, start, levels, w, depth, cur, k + 1);
      } else {
        var depth1 := depth[t := depth[cur] + 1];
        QueueOneDepths(last, start, levels, w.visited, depth, cur, k);
        QueueOneGrowing(first, last, start, levels, w, depth, cur, t);
        ExpandedGrow(links, k, depth[cur], depth, depth1);
        depth' := EnqueueGrowing(first, last, start, levels, Queue1(w, t, depth[cur] + 1), depth1, cur, k + 1);
      }
    }
  }

  /** One round, with the answer that the store gives then. */
  lemma StepGrowing(first: map<string, StoredEvent>, now: map<string, StoredEvent>, last: map<string, StoredEvent>,
                    start: string, levels: seq<set<string>>, w: Walk, depth: map<string, nat>, lo: nat)
      returns (depth': map<string, nat>)
    requires IsLevels(last, start, levels) && KeyedById(last) && Part(first, now) && Part(now, last)
    requires w.queue != [] && Growing(first, last, start, levels, w, depth, lo, {})
    ensures var fetched := if w.queue[0].id in now then Found(now[w.queue[0].id]) else Missing;
            Growing(first, last, start, levels, Step(w, fetched, |levels| - 1), depth', w.queue[0].depth, {})
  {
    hide QueueOrder, Closed, Gathered, Depths;
    var cur, popped := w.queue[0].id, w.(queue := w.queue[1..], fetches := w.fetches + 1);
    PopLayers(first, levels, w, popped, depth, lo);
    depth' := depth;
    if cur !in now {
      PopGathered(first, last, w, popped, depth, lo);
      CloseLayers(first, levels, popped, depth, depth[cur], cur);
    } else {
      var links := last[cur].links;
      var taken := popped.(result := w.result + [last[cur]]);
      TakeGathered(first, last, w, taken, depth, lo);
      PopLayers(first, levels, w, taken, depth, lo);
      if depth[cur] < |levels| - 1 {
        assert links[..0] == [] && links[0..] == links;
        depth' := EnqueueGrowing(first, last, start, levels, taken, depth, cur, 0);
        CloseLayers(first, levels, Enqueue(links, depth[cur] + 1, taken), depth', depth[cur], cur);
      } else {
        CloseLayers(first, levels, taken, depth, depth[cur], cur);
      }
    }
  }

  /** Every event of the one store is in the other. */
  ghost predicate Part(small: map<string, StoredEvent>, large: map<string, StoredEvent>) {
    forall id :: id in small ==> id in large && large[id] == small[id]
  }

  lemma {:induction false} FetchesGrow(source: Source, maxDepth: nat, maxEvents: nat, w: Walk)
    ensures var r := Run(source, maxDepth, maxEvents, w); r.Ok? ==> w.fetches <= r.value.fetches
    decreases Room(w, maxEvents), |w.queue|
  {
    if Active(w, maxEvents) {
      var fetched := source(w.fetches, w.queue[0].id);
      if !fetched.Failed? {
        StepShape(w, fetched, maxDepth);
        FetchesGrow(source, maxDepth, maxEvents, Step(w, fetched, maxDepth));
      }
    }
  }

  lemma ReadWithin(source: Source, maxDepth: nat, maxEvents: nat, w: Walk)
    requires Active(w, maxEvents) && Run(source, maxDepth, maxEvents, w).Ok?
    ensures w.fetches < Run(source, maxDepth, maxEvents, w).value.fetches
  {
    var fetched := source(w.fetches, w.queue[0].id);
    StepShape(w, fetched, maxDepth);
    FetchesGrow(source, maxDepth, maxEvents, Step(w, fetched, maxDepth));
  }

  lemma RoundGrowing(stores: Stores, firstRead: nat, bound: nat, start: string, levels: seq<set<string>>,
                     w: Walk, depth: map<string, nat>, lo: nat)
      returns (depth': map<string, nat>)
    requires |levels| > 0 && Grows(stores) && IsLevels(stores(bound), start, levels)
    requires firstRead <= w.fetches <= bound && w.queue != []
    requires Growing(stores(firstRead), stores(bound), start, levels, w, depth, lo, {})
    ensures var fetched := Changing(stores)(w.fetches, w.queue[0].id);
            && !fetched.Failed?
            && Growing(stores(firstRead), stores(bound), start, levels, Step(w, fetched, |levels| - 1), depth',
                       w.queue[0].depth, {})
  {
    hide Growing, IsLevels, Step;
    depth' := StepGrowing(stores(firstRead), stores(w.fetches), stores(bound), start, levels, w, depth, lo);
  }

  /** The walk as it stands when the loop ends, at a read no later than the bound. */
  lemma {:induction false} RunGrowing(stores: Stores, firstRead: nat, bound: nat, start: string,
                                      levels: seq<set<string>>, maxEvents: nat,
                                      w: Walk, depth: map<string, nat>, lo: nat)
      returns (depth': map<string, nat>, lo': nat)
    requires |levels| > 0 && Grows(stores) && IsLevels(stores(bound), start, levels) && firstRead <= w.fetches
    requires Growing(stores(firstRead), stores(bound), start, levels, w, depth, lo, {}) && |w.result| <= maxEvents
    requires var r := Run(Changing(stores), |levels| - 1, maxEvents, w); r.Ok? && r.value.fetches <= bound
    ensures var end := Run(Changing(stores), |levels| - 1, maxEvents, w).value;
            && Growing(stores(firstRead), stores(bound), start, levels, end, depth', lo', {})
            && |end.result| <= maxEvents && (end.queue == [] || |end.result| == maxEvents)
    decreases Room(w, maxEvents), |w.queue|
  {
    hide Growing, IsLevels, Grows, Step, Changing;
    if Active(w, maxEvents) {
      ReadWithin(Changing(stores), |levels| - 1, maxEvents, w);
      var depth1 := RoundGrowing(stores, firstRead, bound, start, levels, w, depth, lo);
      var fetched := Changing(stores)(w.fetches, w.queue[0].id);
      StepShape(w, fetched, |levels| - 1);
      var next := Step(w, fetched, |levels| - 1);
      depth', lo' := RunGrowing(stores, firstRead, bound, start, levels, maxEvents, next, depth1, w.queue[0].depth);
    } else {
      depth', lo' := depth, lo;
    }
  }

  lemma {:induction false} NeverFails(stores: Stores, maxDepth: nat, maxEvents: nat, w: Walk)
    ensures Run(Changing(stores), maxDepth, maxEvents, w).Ok?
    decreases Room(w, maxEvents), |w.queue|
  {
    if Active(w, maxEvents) {
      var fetched := Changing(stores)(w.fetches, w.queue[0].id);
      StepShape(w, fetched, maxDepth);
      NeverFails(stores, maxDepth, maxEvents, Step(w, fetched, maxDepth));
    }
  }

  /** With nothing left in the queue, everything within reach in the first store has been visited. */
  lemma {:induction false} DrainedComplete(first: map<string, StoredEvent>, start: string, maxDepth: nat,
                                           depth: map<string, nat>, k: nat)
    requires start in depth && depth[start] == 0 && Closed(first, maxDepth, [], depth, {}) && k <= maxDepth
    ensures forall v :: v in Within(first, start, k) ==> v in depth && depth[v] <= k
    decreases k
  {
    if k > 0 {
      DrainedComplete(first, start, maxDepth, depth, k - 1);
      forall v | v in Targets(first, Within(first, start, k - 1)) ensures v in depth && depth[v] <= k {
        var u, j :| u in Within(first, start, k - 1) && u in first && 0 <= j < |first[u].links|
                    && first[u].links[j].linkID != "" && v == first[u].links[j].linkID;
        assert u !in Queued([]);
        assert Expanded(first[u].links, depth[u], depth);
      }
    }
  }

  lemma GrowingFromStart(first: map<string, StoredEvent>, last: map<string, StoredEvent>, start: string,
                         levels: seq<set<string>>, firstRead: nat)
    requires IsLevels(last, start, levels)
    ensures Growing(first, last, start, levels, Start(start, firstRead), map[start := 0], 0, {})
  {
    assert [] + [Item(start, 0)] == Start(start, firstRead).queue;
    QueuedAppend([], Item(start, 0));
  }

  lemma ResultWithinLast(first: map<string, StoredEvent>, last: map<string, StoredEvent>, start: string,
                         levels: seq<set<string>>, w: Walk, depth: map<string, nat>, lo: nat, i: nat)
    requires |levels| > 0 && levels == LevelsOf(last, start, |levels| - 1)
    requires Growing(first, last, start, levels, w, depth, lo, {}) && i < |w.result|
    ensures w.result[i].id in Reachable(last, start, |levels| - 1) && last[w.result[i].id] == w.result[i]
  {
    hide QueueOrder, Closed;
    WithinMonotone(last, start, depth[w.result[i].id], |levels| - 1);
  }

  lemma DrainedHasFirst(first: map<string, StoredEvent>, last: map<string, StoredEvent>, start: string,
                        levels: seq<set<string>>, w: Walk, depth: map<string, nat>, lo: nat, v: string)
    requires |levels| > 0 && Growing(first, last, start, levels, w, depth, lo, {}) && w.queue == []
    requires v in Reachable(first, start, |levels| - 1)
    ensures v in IdsOf(w.result)
  {
    DrainedComplete(first, start, |levels| - 1, depth, |levels| - 1);
    assert v in depth && v !in Queued(w.queue);
  }

  /** What a walk over a growing store returns, between the store at its first read and the one at its end. */
  ghost predicate BetweenStores(first: map<string, StoredEvent>, last: map<string, StoredEvent>, start: string,
                                maxDepth: nat, maxEvents: nat, end: Walk) {
    && |end.result| <= maxEvents
    && (forall i, j :: 0 <= i < j < |end.result| ==> end.result[i].id != end.result[j].id)
    && (forall i :: 0 <= i < |end.result| ==>
          end.result[i].id in Reachable(last, start, maxDepth) && last[end.result[i].id] == end.result[i])
    && (|end.result| < maxEvents ==> end.queue == [])
    && (end.queue == [] ==> Reachable(first, start, maxDepth) <= IdsOf(end.result))
  }

  /**
   * Over a store that only gains events, the walk returns distinct events that are within
   * reach in the store at its end. Unless the event limit cuts it off, it returns all that
   * were within reach when it began, whatever is added meanwhile.
   */
  lemma GrowingStoreWalk(stores: Stores, firstRead: nat, start: string, maxDepth: nat, maxEvents: nat)
    requires Grows(stores)
    ensures var r := Traverse(Changing(stores), firstRead, start, maxDepth, maxEvents);
            && r.Ok? && r.value.fetches >= firstRead
            && BetweenStores(stores(firstRead), stores(r.value.fetches), start, maxDepth, maxEvents, r.value)
  {
    hide Run, IsLevels, Layered, Reachable, IdsOf;
    var w0 := Start(start, firstRead);
    NeverFails(stores, maxDepth, maxEvents, w0);
    FetchesGrow(Changing(stores), maxDepth, maxEvents, w0);
    var end := Run(Changing(stores), maxDepth, maxEvents, w0).value;
    var first, last, levels := stores(firstRead), stores(end.fetches), LevelsOf(stores(end.fetches), start, maxDepth);
    GrowingFromStart(first, last, start, levels, firstRead);
    var depth, lo := RunGrowing(stores, firstRead, end.fetches, start, levels, maxEvents, w0, map[start := 0], 0);
    forall i | 0 <= i < |end.result|
      ensures end.result[i].id in Reachable(last, start, maxDepth) && last[end.result[i].id] == end.result[i]
    {
      ResultWithinLast(first, last, start, levels, end, depth, lo, i);
    }
    if end.queue == [] {
      forall v | v in Reachable(first, start, maxDepth) ensures v in IdsOf(end.result) {
        DrainedHasFirst(first, last, start, levels, end, depth, lo, v);
      }
    }
  }
}
