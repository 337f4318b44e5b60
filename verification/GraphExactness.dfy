/**
 * What the walk returns over a store that stays fixed: the nearest events by link
 * distance, up to both limits. The proof follows the queue: ids come off it in order
 * of depth, depths are link distances, and the queue never spans more than two depths.
 */
module GraphExactness {
  import opened Models
  import opened Graph
  import opened GraphLimits

  /** The ids that links of the stored events among ids point at. */
  ghost function Targets(store: map<string, StoredEvent>, ids: set<string>): set<string> {
    set id, k | id in ids && id in store && 0 <= k < |store[id].links| && store[id].links[k].linkID != ""
      :: store[id].links[k].linkID
  }

  /** The ids at most d links away from start, whether stored or dangling. */
  ghost function Within(store: map<string, StoredEvent>, start: string, d: nat): set<string> {
    if d == 0 then {start}
    else Within(store, start, d - 1) + Targets(store, Within(store, start, d - 1))
  }

  /** The stored ids at most d links away: what a walk of depth d can return at best. */
  ghost function Reachable(store: map<string, StoredEvent>, start: string, d: nat): set<string> {
    Within(store, start, d) * store.Keys
  }

  /** a is at most as many links away from start as b. */
  ghost predicate NoFarther(store: map<string, StoredEvent>, start: string, a: string, b: string) {
    forall d: nat :: b in Within(store, start, d) ==> a in Within(store, start, d)
  }

  ghost function IdsOf(events: seq<StoredEvent>): set<string> {
    set i | 0 <= i < |events| :: events[i].id
  }

  /** levels[d] is Within d, for every d up to the depth limit. */
  ghost predicate IsLevels(store: map<string, StoredEvent>, start: string, levels: seq<set<string>>) {
    && |levels| > 0 && levels[0] == {start}
    && (forall d :: 0 <= d < |levels| - 1 ==> levels[d + 1] == levels[d] + Targets(store, levels[d]))
  }

  lemma {:induction false} WithinMonotone(store: map<string, StoredEvent>, start: string, d: nat, e: nat)
    requires d <= e
    ensures Within(store, start, d) <= Within(store, start, e)
    decreases e
  {
    if d < e { WithinMonotone(store, start, d, e - 1); }
  }

  ghost function Queued(queue: seq<Item>): set<string> {
    set i | 0 <= i < |queue| :: queue[i].id
  }

  /** The links of v lead to visited ids at most one deeper. */
  ghost predicate Expanded(links: seq<Link>, d: nat, depth: map<string, nat>) {
    forall k :: 0 <= k < |links| && links[k].linkID != "" ==>
      links[k].linkID in depth && depth[links[k].linkID] <= d + 1
  }

  /** `depth` records the depth at which each visited id was found; a link path that long exists. */
  ghost predicate Depths(levels: seq<set<string>>, visited: set<string>, depth: map<string, nat>) {
    && depth.Keys == visited
    && (forall v :: v in depth ==> depth[v] < |levels| && v in levels[depth[v]])
  }

  /** Queued ids are distinct and lo or lo + 1 deep, in order; ids off the queue are at most lo deep. */
  ghost predicate QueueOrder(queue: seq<Item>, depth: map<string, nat>, lo: nat) {
    && (forall i :: 0 <= i < |queue| ==>
          queue[i].id in depth && depth[queue[i].id] == queue[i].depth && lo <= queue[i].depth <= lo + 1)
    && (forall i, j :: 0 <= i < j < |queue| ==>
          queue[i].id != queue[j].id && queue[i].depth <= queue[j].depth)
    && (forall v :: v in depth && v !in Queued(queue) ==> depth[v] <= lo)
  }

  /** Ids taken off the queue, other than those in `open`, have had their links queued. */
  ghost predicate Closed(store: map<string, StoredEvent>, maxDepth: int,
                         queue: seq<Item>, depth: map<string, nat>, open: set<string>) {
    forall v :: v in depth && v !in Queued(queue) && v !in open && v in store && depth[v] < maxDepth ==>
      Expanded(store[v].links, depth[v], depth)
  }

  ghost predicate Layered(store: map<string, StoredEvent>, levels: seq<set<string>>,
                          w: Walk, depth: map<string, nat>, lo: nat, open: set<string>) {
    && Depths(levels, w.visited, depth)
    && QueueOrder(w.queue, depth, lo)
    && Closed(store, |levels| - 1, w.queue, depth, open)
  }

  /** The result holds the taken ids that are stored, each once, in order of depth. */
  ghost predicate Collected(store: map<string, StoredEvent>, w: Walk, depth: map<string, nat>) {
    && (forall i :: 0 <= i < |w.result| ==>
          w.result[i].id in depth && w.result[i].id !in Queued(w.queue) &&
          w.result[i].id in store && store[w.result[i].id] == w.result[i])
    && (forall i, j :: 0 <= i < j < |w.result| ==>
          w.result[i].id != w.result[j].id && depth[w.result[i].id] <= depth[w.result[j].id])
    && (forall v :: v in depth && v !in Queued(w.queue) && v in store ==> v in IdsOf(w.result))
  }

  /** Depths below every queued one are exact and everything that near has been visited. */
  lemma {:induction false} LayersComplete(store: map<string, StoredEvent>, start: string, levels: seq<set<string>>,
                                          w: Walk, depth: map<string, nat>, lo: nat, k: nat)
    requires IsLevels(store, start, levels) && start in depth && depth[start] == 0
    requires Layered(store, levels, w, depth, lo, {})
    requires k < |levels| && forall i :: 0 <= i < |w.queue| ==> k <= w.queue[i].depth
    ensures forall v :: v in levels[k] ==> v in depth && depth[v] <= k
    decreases k
  {
    if k > 0 {
      LayersComplete(store, start, levels, w, depth, lo, k - 1);
      assert levels[(k - 1) + 1] == levels[k - 1] + Targets(store, levels[k - 1]);
      forall v | v in Targets(store, levels[k - 1]) ensures v in depth && depth[v] <= k {
        var u, j :| u in levels[k - 1] && u in store && 0 <= j < |store[u].links|
                    && store[u].links[j].linkID != "" && v == store[u].links[j].linkID;
        assert depth[u] <= k - 1;
        assert u !in Queued(w.queue);
        assert Expanded(store[u].links, depth[u], depth);
      }
    }
  }

  /** The walk and depths after queueing a new target t of cur. */
  ghost function Queue1(w: Walk, t: string, d: nat): Walk {
    w.(visited := w.visited + {t}, queue := w.queue + [Item(t, d)])
  }

  lemma QueueOneDepths(store: map<string, StoredEvent>, start: string, levels: seq<set<string>>,
                       visited: set<string>, depth: map<string, nat>, cur: string, k: nat)
    requires IsLevels(store, start, levels) && Depths(levels, visited, depth)
    requires cur in depth && cur in store && depth[cur] < |levels| - 1 && k < |store[cur].links|
    requires store[cur].links[k].linkID != ""
    ensures store[cur].links[k].linkID in levels[depth[cur] + 1]
  {
    assert levels[depth[cur] + 1] == levels[depth[cur]] + Targets(store, levels[depth[cur]]);
    assert store[cur].links[k].linkID in Targets(store, levels[depth[cur]]);
  }

  lemma QueueOneOrder(queue: seq<Item>, depth: map<string, nat>, lo: nat, t: string)
    requires t !in depth && QueueOrder(queue, depth, lo)
    ensures QueueOrder(queue + [Item(t, lo + 1)], depth[t := lo + 1], lo)
  {
    QueuedAppend(queue, Item(t, lo + 1));
  }

  lemma QueueOneClosed(store: map<string, StoredEvent>, maxDepth: int,
                       queue: seq<Item>, depth: map<string, nat>, open: set<string>, t: string, d: nat)
    requires t !in depth && Closed(store, maxDepth, queue, depth, open)
    ensures Closed(store, maxDepth, queue + [Item(t, d)], depth[t := d], open)
  {
    var depth1 := depth[t := d];
    QueuedAppend(queue, Item(t, d));
    forall v | v in depth1 && v !in Queued((queue + [Item(t, d)])) && v !in open && v in store && depth1[v] < maxDepth
      ensures Expanded(store[v].links, depth1[v], depth1)
    {
      assert Expanded(store[v].links, depth[v], depth);
    }
  }

  lemma QueueOneCollected(store: map<string, StoredEvent>, w: Walk, depth: map<string, nat>, t: string, d: nat)
    requires t !in depth
    requires Collected(store, w, depth)
    ensures Collected(store, Queue1(w, t, d), depth[t := d])
  {
    QueuedAppend(w.queue, Item(t, d));
  }

  /** A target that is already visited is at most one deeper than the id just taken. */
  lemma VisitedDepth(queue: seq<Item>, depth: map<string, nat>, lo: nat, t: string)
    requires QueueOrder(queue, depth, lo) && t in depth
    ensures depth[t] <= lo + 1
  {
    if t in Queued(queue) {
      var i :| 0 <= i < |queue| && queue[i].id == t;
    }
  }

  lemma ExpandedGrow(links: seq<Link>, k: nat, d: nat, depth: map<string, nat>, depth': map<string, nat>)
    requires k < |links| && Expanded(links[..k], d, depth)
    requires forall v :: v in depth ==> v in depth' && depth'[v] == depth[v]
    requires links[k].linkID != "" ==> links[k].linkID in depth' && depth'[links[k].linkID] <= d + 1
    ensures Expanded(links[..k + 1], d, depth')
  {
    var more := links[..k + 1];
    forall j | 0 <= j < |more| && more[j].linkID != ""
      ensures more[j].linkID in depth' && depth'[more[j].linkID] <= d + 1
    {
      if j < k { assert links[..k][j] == more[j]; }
    }
  }

  /** Everything known while the links of cur are being queued. */
  ghost predicate Opened(store: map<string, StoredEvent>, levels: seq<set<string>>,
                         w: Walk, depth: map<string, nat>, cur: string) {
    && cur in depth && cur in store && depth[cur] < |levels| - 1
    && Layered(store, levels, w, depth, depth[cur], {cur})
    && Collected(store, w, depth)
  }

  lemma QueueOneVisited(levels: seq<set<string>>, visited: set<string>, depth: map<string, nat>, t: string, d: nat)
    requires Depths(levels, visited, depth) && t !in depth && d < |levels| && t in levels[d]
    ensures Depths(levels, visited + {t}, depth[t := d])
  {
  }

  lemma QueueOne(store: map<string, StoredEvent>, levels: seq<set<string>>,
                 w: Walk, depth: map<string, nat>, cur: string, t: string)
    requires Opened(store, levels, w, depth, cur)
    requires t !in depth && t in levels[depth[cur] + 1]
    ensures Opened(store, levels, Queue1(w, t, depth[cur] + 1), depth[t := depth[cur] + 1], cur)
  {
    hide Depths, QueueOrder, Closed, Collected;
    QueueOneVisited(levels, w.visited, depth, t, depth[cur] + 1);
    QueueOneOrder(w.queue, depth, depth[cur], t);
    QueueOneClosed(store, |levels| - 1, w.queue, depth, {cur}, t, depth[cur] + 1);
    QueueOneCollected(store, w, depth, t, depth[cur] + 1);
  }

  /** Queueing the links of the id just taken keeps the layers. */
  lemma {:induction false} EnqueueLayers(store: map<string, StoredEvent>, start: string, levels: seq<set<string>>,
                                         w: Walk, depth: map<string, nat>, cur: string, k: nat)
      returns (depth': map<string, nat>)
    requires IsLevels(store, start, levels)
    requires Opened(store, levels, w, depth, cur) && k <= |store[cur].links|
    requires Expanded(store[cur].links[..k], depth[cur], depth)
    ensures Opened(store, levels, Enqueue(store[cur].links[k..], depth[cur] + 1, w), depth', cur)
    ensures forall v :: v in depth ==> v in depth' && depth'[v] == depth[v]
    ensures Expanded(store[cur].links, depth[cur], depth')
    decreases |store[cur].links| - k
  {
    hide QueueOrder, Closed, Collected, Expanded;
    var links := store[cur].links;
    if k == |links| {
      assert links[..k] == links && links[k..] == [];
      depth' := depth;
    } else {
      var t := links[k].linkID;
      assert links[k..][1..] == links[k + 1..];
      if t == "" || t in w.visited {
        if t != "" { VisitedDepth(w.queue, depth, depth[cur], t); }
        ExpandedGrow(links, k, depth[cur], depth, depth);
        depth' := EnqueueLayers(store, start, levels, w, depth, cur, k + 1);
      } else {
        var depth1 := depth[t := depth[cur] + 1];
        QueueOneDepths(store, start, levels, w.visited, depth, cur, k);
        QueueOne(store, levels, w, depth, cur, t);
        ExpandedGrow(links, k, depth[cur], depth, depth1);
        depth' := EnqueueLayers(store, start, levels, Queue1(w, t, depth[cur] + 1), depth1, cur, k + 1);
      }
    }
  }

  lemma QueuedAppend(queue: seq<Item>, x: Item)
    ensures Queued(queue + [x]) == Queued(queue) + {x.id}
  {
    var q := queue + [x];
    assert q[|queue|] == x;
    forall v | v in Queued(queue) ensures v in Queued(q) {
      var i :| 0 <= i < |queue| && queue[i].id == v;
      assert q[i].id == v;
    }
  }

  lemma QueuedPop(queue: seq<Item>)
    requires queue != [] && forall i, j :: 0 <= i < j < |queue| ==> queue[i].id != queue[j].id
    ensures queue[0].id in Queued(queue)
    ensures Queued(queue[1..]) == Queued(queue) - {queue[0].id}
  {
    assert queue == [queue[0]] + queue[1..];
    forall v | v in Queued(queue) && v != queue[0].id ensures v in Queued(queue[1..]) {
      var i :| 0 <= i < |queue| && queue[i].id == v;
      assert queue[1..][i - 1].id == v;
    }
  }

  /** What holds at the head of the loop over a fixed store. */
  ghost predicate Walking(store: map<string, StoredEvent>, start: string, levels: seq<set<string>>,
                          w: Walk, depth: map<string, nat>, lo: nat) {
    && start in depth && depth[start] == 0
    && Layered(store, levels, w, depth, lo, {})
    && Collected(store, w, depth)
  }

  /** The result grows by the head of the queue, which is no nearer than what it holds. */
  lemma TakeStored(store: map<string, StoredEvent>, w: Walk, depth: map<string, nat>, lo: nat)
    requires w.queue != [] && QueueOrder(w.queue, depth, lo) && Collected(store, w, depth)
    requires w.queue[0].id in store && store[w.queue[0].id].id == w.queue[0].id
    requires w.queue[0].id in Queued(w.queue)
    requires Queued(w.queue[1..]) == Queued(w.queue) - {w.queue[0].id}
    ensures Collected(store, w.(queue := w.queue[1..], fetches := w.fetches + 1,
                                result := w.result + [store[w.queue[0].id]]), depth)
  {
    hide Queued;
    var cur := w.queue[0].id;
    var r := w.result + [store[cur]];
    assert r[|w.result|].id == cur;
    forall i | 0 <= i < |w.result| ensures depth[w.result[i].id] <= lo {
      assert w.result[i].id !in Queued(w.queue);
    }
    forall v | v in depth && v !in Queued(w.queue[1..]) && v in store ensures v in IdsOf(r) {
      if v != cur {
        var i :| 0 <= i < |w.result| && w.result[i].id == v;
        assert r[i].id == v;
      }
    }
  }

  lemma TakeCollected(store: map<string, StoredEvent>, w: Walk, depth: map<string, nat>, lo: nat)
    requires w.queue != [] && QueueOrder(w.queue, depth, lo) && Collected(store, w, depth) && KeyedById(store)
    ensures w.queue[0].id !in store ==>
              Collected(store, w.(queue := w.queue[1..], fetches := w.fetches + 1), depth)
    ensures w.queue[0].id in store ==>
              Collected(store, w.(queue := w.queue[1..], fetches := w.fetches + 1,
                                  result := w.result + [store[w.queue[0].id]]), depth)
  {
    QueuedPop(w.queue);
    if w.queue[0].id in store { TakeStored(store, w, depth, lo); }
  }

  lemma CloseLayers(store: map<string, StoredEvent>, levels: seq<set<string>>,
                    w: Walk, depth: map<string, nat>, lo: nat, cur: string)
    requires cur in depth && Layered(store, levels, w, depth, lo, {cur})
    requires cur in store && depth[cur] < |levels| - 1 ==> Expanded(store[cur].links, depth[cur], depth)
    ensures Layered(store, levels, w, depth, lo, {})
  {
  }

  /** Taking a stored id that is less deep than the limit. */
  lemma ExpandWalking(store: map<string, StoredEvent>, start: string, levels: seq<set<string>>,
                      taken: Walk, depth: map<string, nat>, cur: string)
      returns (depth': map<string, nat>)
    requires IsLevels(store, start, levels) && start in depth && depth[start] == 0
    requires Opened(store, levels, taken, depth, cur)
    ensures Walking(store, start, levels, Enqueue(store[cur].links, depth[cur] + 1, taken), depth', depth[cur])
  {
    var links := store[cur].links;
    assert links[..0] == [] && links[0..] == links;
    depth' := EnqueueLayers(store, start, levels, taken, depth, cur, 0);
    CloseLayers(store, levels, Enqueue(links, depth[cur] + 1, taken), depth', depth[cur], cur);
  }

  /** The walk after the head is off the queue and, if stored, in the result. */
  ghost function Take(store: map<string, StoredEvent>, w: Walk): Walk
    requires w.queue != []
  {
    var popped := w.(queue := w.queue[1..], fetches := w.fetches + 1);
    if w.queue[0].id in store then popped.(result := w.result + [store[w.queue[0].id]]) else popped
  }

  /** Taking the head moves the frontier to its depth and leaves its links to do. */
  lemma TakeLayers(store: map<string, StoredEvent>, levels: seq<set<string>>,
                   w: Walk, depth: map<string, nat>, lo: nat)
    requires KeyedById(store) && w.queue != []
    requires Layered(store, levels, w, depth, lo, {}) && Collected(store, w, depth)
    ensures Layered(store, levels, Take(store, w), depth, w.queue[0].depth, {w.queue[0].id})
    ensures Collected(store, Take(store, w), depth)
    ensures w.queue[0].id in depth && depth[w.queue[0].id] == w.queue[0].depth
  {
    QueuedPop(w.queue);
    TakeCollected(store, w, depth, lo);
  }

  /** Step in terms of Take. */
  lemma StepIsTake(store: map<string, StoredEvent>, w: Walk, maxDepth: nat)
    requires w.queue != []
    ensures var cur := w.queue[0];
            Step(w, Snapshot(store)(w.fetches, cur.id), maxDepth) ==
            if cur.id in store && cur.depth < maxDepth then Enqueue(store[cur.id].links, cur.depth + 1, Take(store, w))
            else Take(store, w)
  {
  }

  lemma StepWalking(store: map<string, StoredEvent>, start: string, levels: seq<set<string>>,
                    w: Walk, depth: map<string, nat>, lo: nat)
      returns (depth': map<string, nat>)
    requires IsLevels(store, start, levels) && KeyedById(store)
    requires Walking(store, start, levels, w, depth, lo) && w.queue != []
    ensures Walking(store, start, levels, Step(w, Snapshot(store)(w.fetches, w.queue[0].id), |levels| - 1),
                    depth', w.queue[0].depth)
  {
    var cur := w.queue[0].id;
    TakeLayers(store, levels, w, depth, lo);
    StepIsTake(store, w, |levels| - 1);
    if cur in store && depth[cur] < |levels| - 1 {
      depth' := ExpandWalking(store, start, levels, Take(store, w), depth, cur);
    } else {
      CloseLayers(store, levels, Take(store, w), depth, depth[cur], cur);
      depth' := depth;
    }
  }

  /** The walk as it stands when the loop ends, with the depths it found. */
  lemma {:induction false} RunWalking(store: map<string, StoredEvent>, start: string, levels: seq<set<string>>,
                                      maxEvents: nat, w: Walk, depth: map<string, nat>, lo: nat)
      returns (end: Walk, depth': map<string, nat>, lo': nat)
    requires IsLevels(store, start, levels) && KeyedById(store)
    requires Walking(store, start, levels, w, depth, lo) && |w.result| <= maxEvents
    ensures Run(Snapshot(store), |levels| - 1, maxEvents, w) == Ok(end)
    ensures Walking(store, start, levels, end, depth', lo') && |end.result| <= maxEvents
    ensures end.queue == [] || |end.result| == maxEvents
    decreases Room(w, maxEvents), |w.queue|
  {
    if Active(w, maxEvents) {
      var fetched := Snapshot(store)(w.fetches, w.queue[0].id);
      StepShape(w, fetched, |levels| - 1);
      var depth1 := StepWalking(store, start, levels, w, depth, lo);
      end, depth', lo' := RunWalking(store, start, levels, maxEvents, Step(w, fetched, |levels| - 1),
                                     depth1, w.queue[0].depth);
    } else {
      end, depth', lo' := w, depth, lo;
    }
  }

  ghost function LevelsOf(store: map<string, StoredEvent>, start: string, maxDepth: nat): (levels: seq<set<string>>)
    ensures |levels| == maxDepth + 1
    ensures forall d :: 0 <= d <= maxDepth ==> levels[d] == Within(store, start, d)
    ensures IsLevels(store, start, levels)
  {
    seq(maxDepth + 1, d requires 0 <= d => Within(store, start, d))
  }

  /** What a caller may rely on about the events of a bounded walk over a fixed store. */
  ghost predicate ExactWalk(store: map<string, StoredEvent>, start: string, maxDepth: nat, maxEvents: nat,
                            events: seq<StoredEvent>) {
    // stored events within the depth limit, each once
    && (forall i :: 0 <= i < |events| ==>
          events[i].id in Reachable(store, start, maxDepth) && store[events[i].id] == events[i])
    && (forall i, j :: 0 <= i < j < |events| ==> events[i].id != events[j].id)
    // the start first, then in order of link distance
    && (events != [] ==> events[0].id == start)
    && (forall i, j :: 0 <= i < j < |events| ==> NoFarther(store, start, events[i].id, events[j].id))
    // as many as both limits allow, and the nearest ones
    && |events| == Min(maxEvents, |Reachable(store, start, maxDepth)|)
    && (forall i, o :: 0 <= i < |events| && o in Reachable(store, start, maxDepth) && o !in IdsOf(events) ==>
          NoFarther(store, start, events[i].id, o))
  }

  function Min(a: nat, b: nat): nat {
    if a <= b then a else b
  }

  /** A visited id at depth at most `near` is no farther than an id whose distance is not below it. */
  lemma NoFartherByDepth(store: map<string, StoredEvent>, start: string, levels: seq<set<string>>,
                         w: Walk, depth: map<string, nat>, lo: nat, a: string, b: string)
    requires |levels| > 0 && levels == LevelsOf(store, start, |levels| - 1)
    requires Walking(store, start, levels, w, depth, lo)
    requires a in depth && forall i :: 0 <= i < |w.queue| ==> depth[a] <= w.queue[i].depth
    requires b in depth ==> depth[a] <= depth[b]
    ensures NoFarther(store, start, a, b)
  {
    forall d: nat | b in Within(store, start, d) ensures a in Within(store, start, d) {
      if depth[a] <= d {
        WithinMonotone(store, start, depth[a], d);
      } else {
        LayersComplete(store, start, levels, w, depth, lo, d);
      }
    }
  }

  lemma QueueBehind(queue: seq<Item>, depth: map<string, nat>, lo: nat, a: string)
    requires QueueOrder(queue, depth, lo) && a in depth && a !in Queued(queue)
    ensures forall i :: 0 <= i < |queue| ==> depth[a] <= queue[i].depth
  {
  }

  lemma OutsideResult(store: map<string, StoredEvent>, w: Walk, depth: map<string, nat>, lo: nat, a: string, o: string)
    requires QueueOrder(w.queue, depth, lo) && Collected(store, w, depth)
    requires a in depth && a !in Queued(w.queue)
    requires o in depth && o in store && o !in IdsOf(w.result)
    ensures depth[a] <= depth[o]
  {
    var i :| 0 <= i < |w.queue| && w.queue[i].id == o;
  }

  lemma {:induction false} IdsCount(events: seq<StoredEvent>)
    requires forall i, j :: 0 <= i < j < |events| ==> events[i].id != events[j].id
    ensures |IdsOf(events)| == |events|
  {
    if events != [] {
      var front, last := events[..|events| - 1], events[|events| - 1];
      IdsCount(front);
      assert IdsOf(events) == IdsOf(front) + {last.id};
      assert last.id !in IdsOf(front);
    }
  }

  lemma ResultReachable(store: map<string, StoredEvent>, start: string, levels: seq<set<string>>,
                        w: Walk, depth: map<string, nat>, v: string)
    requires forall d :: 0 <= d < |levels| ==> levels[d] == Within(store, start, d)
    requires Depths(levels, w.visited, depth) && Collected(store, w, depth) && v in IdsOf(w.result)
    ensures |levels| > 0 && v in Reachable(store, start, |levels| - 1)
  {
    hide Within;
    assert v in depth && v in levels[depth[v]];
    WithinMonotone(store, start, depth[v], |levels| - 1);
  }

  /** A walk whose queue runs dry has found everything within the depth limit. */
  lemma DrainedReachable(store: map<string, StoredEvent>, start: string, levels: seq<set<string>>,
                         w: Walk, depth: map<string, nat>, lo: nat, v: string)
    requires |levels| > 0 && levels == LevelsOf(store, start, |levels| - 1)
    requires Walking(store, start, levels, w, depth, lo) && w.queue == []
    requires v in Reachable(store, start, |levels| - 1)
    ensures v in IdsOf(w.result)
  {
    LayersComplete(store, start, levels, w, depth, lo, |levels| - 1);
    assert v in depth && v !in Queued(w.queue);
  }

  lemma ResultDistinct(store: map<string, StoredEvent>, w: Walk, depth: map<string, nat>)
    requires Collected(store, w, depth)
    ensures |IdsOf(w.result)| == |w.result|
  {
    IdsCount(w.result);
  }

  lemma ResultCount(store: map<string, StoredEvent>, start: string, levels: seq<set<string>>,
                    maxEvents: nat, w: Walk, depth: map<string, nat>, lo: nat)
    requires |levels| > 0 && levels == LevelsOf(store, start, |levels| - 1)
    requires Walking(store, start, levels, w, depth, lo)
    requires |w.result| <= maxEvents && (w.queue == [] || |w.result| == maxEvents)
    ensures IdsOf(w.result) <= Reachable(store, start, |levels| - 1)
    ensures |w.result| == Min(maxEvents, |Reachable(store, start, |levels| - 1)|)
  {
    hide Depths, QueueOrder, Closed, Collected, Within, Reachable, IdsOf;
    var ids, reachable := IdsOf(w.result), Reachable(store, start, |levels| - 1);
    ResultDistinct(store, w, depth);
    forall v | v in ids ensures v in reachable {
      ResultReachable(store, start, levels, w, depth, v);
    }
    SubsetCount(ids, reachable);
    if w.queue == [] {
      forall v | v in reachable ensures v in ids {
        DrainedReachable(store, start, levels, w, depth, lo, v);
      }
      assert ids == reachable;
    }
  }

  lemma {:induction false} SubsetCount<T>(a: set<T>, b: set<T>)
    requires a <= b
    ensures |a| <= |b|
  {
    assert b == a + (b - a);
  }

  lemma ResultEntry(store: map<string, StoredEvent>, w: Walk, depth: map<string, nat>, i: nat)
    requires Collected(store, w, depth) && i < |w.result|
    ensures w.result[i].id in depth && w.result[i].id !in Queued(w.queue)
    ensures w.result[i].id in store && store[w.result[i].id] == w.result[i]
    ensures forall j :: i < j < |w.result| ==>
              w.result[i].id != w.result[j].id && w.result[j].id in depth &&
              depth[w.result[i].id] <= depth[w.result[j].id]
  {
  }

  lemma NoFartherInResult(store: map<string, StoredEvent>, start: string, levels: seq<set<string>>,
                          w: Walk, depth: map<string, nat>, lo: nat, i: nat, j: nat)
    requires |levels| > 0 && levels == LevelsOf(store, start, |levels| - 1)
    requires Walking(store, start, levels, w, depth, lo) && i < j < |w.result|
    ensures NoFarther(store, start, w.result[i].id, w.result[j].id)
  {
    hide NoFarther, Depths, QueueOrder, Closed, Collected, Queued;
    ResultEntry(store, w, depth, i);
    QueueBehind(w.queue, depth, lo, w.result[i].id);
    NoFartherByDepth(store, start, levels, w, depth, lo, w.result[i].id, w.result[j].id);
  }

  lemma NoFartherThanOmitted(store: map<string, StoredEvent>, start: string, levels: seq<set<string>>,
                             w: Walk, depth: map<string, nat>, lo: nat, i: nat, o: string)
    requires |levels| > 0 && levels == LevelsOf(store, start, |levels| - 1)
    requires Walking(store, start, levels, w, depth, lo) && i < |w.result|
    requires o in store && o !in IdsOf(w.result)
    ensures NoFarther(store, start, w.result[i].id, o)
  {
    hide NoFarther, Depths, QueueOrder, Closed, Collected, Queued, IdsOf;
    ResultEntry(store, w, depth, i);
    QueueBehind(w.queue, depth, lo, w.result[i].id);
    if o in depth { OutsideResult(store, w, depth, lo, w.result[i].id, o); }
    NoFartherByDepth(store, start, levels, w, depth, lo, w.result[i].id, o);
  }

  lemma WalkingFromStart(store: map<string, StoredEvent>, start: string, levels: seq<set<string>>, firstRead: nat)
    requires IsLevels(store, start, levels)
    ensures Walking(store, start, levels, Start(start, firstRead), map[start := 0], 0)
  {
    assert [] + [Item(start, 0)] == Start(start, firstRead).queue;
    QueuedAppend([], Item(start, 0));
  }

  lemma EndExact(store: map<string, StoredEvent>, start: string, levels: seq<set<string>>,
                 maxEvents: nat, w: Walk, depth: map<string, nat>, lo: nat)
    requires |levels| > 0 && levels == LevelsOf(store, start, |levels| - 1)
    requires Walking(store, start, levels, w, depth, lo)
    requires |w.result| <= maxEvents && (w.queue == [] || |w.result| == maxEvents)
    requires w.result != [] ==> w.result[0].id == start
    ensures ExactWalk(store, start, |levels| - 1, maxEvents, w.result)
  {
    hide Layered, Collected, Within, NoFarther, IsLevels, Min;
    var events := w.result;
    ResultCount(store, start, levels, maxEvents, w, depth, lo);
    forall i | 0 <= i < |events|
      ensures events[i].id in Reachable(store, start, |levels| - 1) && store[events[i].id] == events[i]
      ensures forall j :: i < j < |events| ==> events[i].id != events[j].id
    {
      assert events[i].id in IdsOf(events);
      ResultEntry(store, w, depth, i);
    }
    forall i, j | 0 <= i < j < |events| ensures NoFarther(store, start, events[i].id, events[j].id) {
      NoFartherInResult(store, start, levels, w, depth, lo, i, j);
    }
    forall i, o | 0 <= i < |events| && o in Reachable(store, start, |levels| - 1) && o !in IdsOf(events)
      ensures NoFarther(store, start, events[i].id, o)
    {
      NoFartherThanOmitted(store, start, levels, w, depth, lo, i, o);
    }
  }

  /**
   * The walk over a fixed store returns exactly the nearest events: every stored event
   * within maxDepth links if maxEvents allows, and otherwise maxEvents of them such
   * that none left out is nearer than one returned.
   */
  lemma TraversalExact(store: map<string, StoredEvent>, firstRead: nat, start: string, maxDepth: nat, maxEvents: nat)
    requires KeyedById(store)
    ensures var r := Traverse(Snapshot(store), firstRead, start, maxDepth, maxEvents);
            r.Ok? && ExactWalk(store, start, maxDepth, maxEvents, r.value.result)
  {
    hide Walking, Run, ExactWalk, IsLevels;
    var levels := LevelsOf(store, start, maxDepth);
    WalkingFromStart(store, start, levels, firstRead);
    var w, depth, lo := RunWalking(store, start, levels, maxEvents, Start(start, firstRead), map[start := 0], 0);
    StartFirst(Snapshot(store), firstRead, start, maxDepth, maxEvents);
    EndExact(store, start, levels, maxEvents, w, depth, lo);
  }
}
