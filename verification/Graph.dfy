/**
 * The bounded breadth-first walk over event links (internal/correlator/graph.go).
 *
 * The store is an environment: the answer to a read may depend on how many reads
 * came before it, so a Source covers stores that change or fail between reads. A
 * Snapshot is the special case of a store that stays fixed during the walk.
 */
module Graph {
  import opened Models

  datatype Fetch = Found(event: StoredEvent) | Missing | Failed(error: Error)

  /** The answer to the n-th GetEvent call, for the id it asks about. */
  type Source = (nat, string) -> Fetch

  function Snapshot(store: map<string, StoredEvent>): Source {
    (n: nat, id: string) => if id in store then Found(store[id]) else Missing
  }

  datatype Item = Item(id: string, depth: nat)

  /** The variables of the walk, with the number of reads done so far. */
  datatype Walk = Walk(visited: set<string>, queue: seq<Item>, result: seq<StoredEvent>, fetches: nat)

  function Start(startID: string, firstRead: nat): Walk {
    Walk({startID}, [Item(startID, 0)], [], firstRead)
  }

  /** Queues every unvisited, non-empty target at the given depth, in link order. */
  function Enqueue(links: seq<Link>, depth: nat, w: Walk): Walk {
    if links == [] then w
    else if links[0].linkID == "" || links[0].linkID in w.visited then Enqueue(links[1..], depth, w)
    else
      Enqueue(links[1..], depth,
              w.(visited := w.visited + {links[0].linkID}, queue := w.queue + [Item(links[0].linkID, depth)]))
  }

  /** Takes the head of the queue, given what the store answered for it. */
  function Step(w: Walk, fetched: Fetch, maxDepth: nat): Walk
    requires w.queue != [] && !fetched.Failed?
  {
    var popped := w.(queue := w.queue[1..], fetches := w.fetches + 1);
    if fetched.Missing? then popped
    else
      var taken := popped.(result := w.result + [fetched.event]);
      if w.queue[0].depth >= maxDepth then taken
      else Enqueue(fetched.event.links, w.queue[0].depth + 1, taken)
  }

  lemma {:induction false} EnqueueKeepsResult(links: seq<Link>, depth: nat, w: Walk)
    ensures Enqueue(links, depth, w).result == w.result && Enqueue(links, depth, w).fetches == w.fetches
    decreases |links|
  {
    if links != [] {
      EnqueueKeepsResult(links[1..], depth, w);
      EnqueueKeepsResult(links[1..], depth,
        w.(visited := w.visited + {links[0].linkID}, queue := w.queue + [Item(links[0].linkID, depth)]));
    }
  }

  lemma StepShape(w: Walk, fetched: Fetch, maxDepth: nat)
    requires w.queue != [] && !fetched.Failed?
    ensures Step(w, fetched, maxDepth).fetches == w.fetches + 1
    ensures fetched.Missing? ==>
              Step(w, fetched, maxDepth) == w.(queue := w.queue[1..], fetches := w.fetches + 1)
    ensures fetched.Found? ==> Step(w, fetched, maxDepth).result == w.result + [fetched.event]
  {
    if fetched.Found? {
      EnqueueKeepsResult(fetched.event.links, w.queue[0].depth + 1,
                         w.(queue := w.queue[1..], fetches := w.fetches + 1, result := w.result + [fetched.event]));
    }
  }

  /** Whether the loop goes round once more. */
  predicate Active(w: Walk, maxEvents: nat) {
    w.queue != [] && |w.result| < maxEvents
  }

  /** Room left in the result: with the queue length, what the walk uses up. */
  function Room(w: Walk, maxEvents: nat): nat {
    if |w.result| <= maxEvents then maxEvents - |w.result| else 0
  }

  /** The whole walk from state w on: the reference the loop is proved against. */
  function Run(source: Source, maxDepth: nat, maxEvents: nat, w: Walk): Result<Walk>
    decreases Room(w, maxEvents), |w.queue|
  {
    if !Active(w, maxEvents) then Ok(w)
    else
      var fetched := source(w.fetches, w.queue[0].id);
      if fetched.Failed? then Err(fetched.error)
      else
        StepShape(w, fetched, maxDepth);
        Run(source, maxDepth, maxEvents, Step(w, fetched, maxDepth))
  }

  /** The state in which the loop ends, or in which it does the read that fails. */
  function Stop(source: Source, maxDepth: nat, maxEvents: nat, w: Walk): Walk
    decreases Room(w, maxEvents), |w.queue|
  {
    if !Active(w, maxEvents) || source(w.fetches, w.queue[0].id).Failed? then w
    else
      var fetched := source(w.fetches, w.queue[0].id);
      StepShape(w, fetched, maxDepth);
      Stop(source, maxDepth, maxEvents, Step(w, fetched, maxDepth))
  }

  function Traverse(source: Source, firstRead: nat, startID: string, maxDepth: nat, maxEvents: nat): Result<Walk> {
    Run(source, maxDepth, maxEvents, Start(startID, firstRead))
  }

  /**
   * Collects the events reachable from startID. The loop ends against any source,
   * because each round either adds an event or shortens the queue.
   */
  method TraverseChain(source: Source, firstRead: nat, startID: string, maxDepth: nat, maxEvents: nat)
    returns (r: Result<seq<StoredEvent>>, fetches: nat)
    ensures match Run(source, maxDepth, maxEvents, Start(startID, firstRead))
            case Ok(w) => r == Ok(w.result) && fetches == w.fetches
            case Err(e) =>
              r == Err(e) && fetches == Stop(source, maxDepth, maxEvents, Start(startID, firstRead)).fetches + 1
  {
    var visited := {startID};
    var queue := [Item(startID, 0)];
    var result: seq<StoredEvent> := [];
    fetches := firstRead;
    while queue != [] && |result| < maxEvents
      invariant |result| <= maxEvents
      invariant Run(source, maxDepth, maxEvents, Start(startID, firstRead))
             == Run(source, maxDepth, maxEvents, Walk(visited, queue, result, fetches))
      invariant Stop(source, maxDepth, maxEvents, Start(startID, firstRead))
             == Stop(source, maxDepth, maxEvents, Walk(visited, queue, result, fetches))
      decreases maxEvents - |result|, |queue|
    {
      ghost var before := Walk(visited, queue, result, fetches);
      var current := queue[0];
      var fetched := source(fetches, current.id);
      queue := queue[1..];
      fetches := fetches + 1;
      match fetched {
        case Missing =>
        case Failed(e) => return Err(e), fetches;
        case Found(event) =>
          result := result + [event];
          if current.depth < maxDepth {
            ghost var taken := Walk(visited, queue, result, fetches);
            for i := 0 to |event.links|
              invariant Enqueue(event.links, current.depth + 1, taken)
                     == Enqueue(event.links[i..], current.depth + 1, Walk(visited, queue, result, fetches))
            {
              var target := event.links[i].linkID;
              assert event.links[i..][1..] == event.links[i + 1..];
              if target != "" && target !in visited {
                visited := visited + {target};
                queue := queue + [Item(target, current.depth + 1)];
              }
            }
          }
          StepShape(before, fetched, maxDepth);
          assert Walk(visited, queue, result, fetches) == Step(before, fetched, maxDepth);
      }
    }
    r := Ok(result);
  }
}
