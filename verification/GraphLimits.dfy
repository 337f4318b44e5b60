/**
 * Facts about the walk that hold against any source: how many reads it does, and how
 * its result depends on the two limits.
 */
module GraphLimits {
  import opened Models
  import opened Graph

  /** A later state of the same walk only has more results. */
  lemma {:induction false} RunExtends(source: Source, maxDepth: nat, maxEvents: nat, w: Walk)
    ensures var r := Run(source, maxDepth, maxEvents, w); r.Ok? ==> w.result <= r.value.result
    decreases Room(w, maxEvents), |w.queue|
  {
    if Active(w, maxEvents) {
      var fetched := source(w.fetches, w.queue[0].id);
      if !fetched.Failed? {
        StepShape(w, fetched, maxDepth);
        RunExtends(source, maxDepth, maxEvents, Step(w, fetched, maxDepth));
      }
    }
  }

  /** The first event returned is the answer to the read of the start id. */
  lemma StartFirst(source: Source, firstRead: nat, start: string, maxDepth: nat, maxEvents: nat)
    requires Traverse(source, firstRead, start, maxDepth, maxEvents).Ok?
    ensures var events := Traverse(source, firstRead, start, maxDepth, maxEvents).value.result;
            && (events != [] <==> maxEvents > 0 && source(firstRead, start).Found?)
            && (events != [] ==> source(firstRead, start) == Found(events[0]))
  {
    var w := Start(start, firstRead);
    if Active(w, maxEvents) {
      var fetched := source(firstRead, start);
      StepShape(w, fetched, maxDepth);
      RunExtends(source, maxDepth, maxEvents, Step(w, fetched, maxDepth));
      assert Run(source, maxDepth, maxEvents, w) == Run(source, maxDepth, maxEvents, Step(w, fetched, maxDepth));
    }
  }

  // ---------------------------------------------------------------------------
  // The work done

  function TotalLinks(events: seq<StoredEvent>): nat {
    if events == [] then 0 else TotalLinks(events[..|events| - 1]) + |events[|events| - 1].links|
  }

  /** Every link of every event, by its place. */
  ghost function LinkPlaces(events: seq<StoredEvent>): set<(int, int)> {
    set i, k | 0 <= i < |events| && 0 <= k < |events[i].links| :: (i, k)
  }

  lemma {:induction false} RowSize(i: int, n: nat)
    ensures |set k | 0 <= k < n :: (i, k)| == n
  {
    var row := set k | 0 <= k < n :: (i, k);
    if n == 0 {
      assert row == {};
    } else {
      var less := set k | 0 <= k < n - 1 :: (i, k);
      RowSize(i, n - 1);
      assert (i, n - 1) !in less && row == less + {(i, n - 1)};
    }
  }

  /** The links are counted one by one, repeated ones included. */
  lemma {:induction false} TotalLinksCounts(events: seq<StoredEvent>)
    ensures TotalLinks(events) == |LinkPlaces(events)|
    decreases |events|
  {
    var places := LinkPlaces(events);
    if events == [] {
      assert places == {};
    } else {
      var n := |events| - 1;
      var front := events[..n];
      TotalLinksCounts(front);
      RowSize(n, |events[n].links|);
      var row := set k | 0 <= k < |events[n].links| :: (n, k);
      assert LinkPlaces(front) !! row && places == LinkPlaces(front) + row;
    }
  }

  /** Each id visited is queued once, and each queued id is paid for by one link. */
  lemma {:induction false} EnqueueCounts(links: seq<Link>, depth: nat, w: Walk)
    ensures var w' := Enqueue(links, depth, w);
            && |w'.visited| - |w.visited| == |w'.queue| - |w.queue|
            && 0 <= |w'.queue| - |w.queue| <= |links|
            && w.queue <= w'.queue
    decreases |links|
  {
    if links != [] {
      var t := links[0].linkID;
      if t == "" || t in w.visited {
        EnqueueCounts(links[1..], depth, w);
      } else {
        EnqueueCounts(links[1..], depth,
                      w.(visited := w.visited + {t}, queue := w.queue + [Item(t, depth)]));
      }
    }
  }

  /** Reads done and reads still queued account for every visited id. */
  ghost predicate Accounted(firstRead: nat, w: Walk) {
    && w.fetches + |w.queue| == firstRead + |w.visited|
    && |w.visited| <= 1 + TotalLinks(w.result)
  }

  lemma StepAccounted(firstRead: nat, w: Walk, fetched: Fetch, maxDepth: nat)
    requires w.queue != [] && !fetched.Failed? && Accounted(firstRead, w)
    ensures Accounted(firstRead, Step(w, fetched, maxDepth))
  {
    if fetched.Found? {
      var r := w.result + [fetched.event];
      assert r[..|r| - 1] == w.result;
      var taken := w.(queue := w.queue[1..], fetches := w.fetches + 1, result := r);
      EnqueueCounts(fetched.event.links, w.queue[0].depth + 1, taken);
      EnqueueKeepsResult(fetched.event.links, w.queue[0].depth + 1, taken);
    }
  }

  /**
   * The store is read at most once for each visited id, hence at most 1 + the number
   * of links of the events collected, whatever the store answers.
   */
  lemma {:induction false} ReadsBounded(source: Source, maxDepth: nat, maxEvents: nat, firstRead: nat, w: Walk)
    requires Accounted(firstRead, w) && |w.result| <= maxEvents
    ensures var stop := Stop(source, maxDepth, maxEvents, w);
            Accounted(firstRead, stop) && |stop.result| <= maxEvents
    decreases Room(w, maxEvents), |w.queue|
  {
    if Active(w, maxEvents) {
      var fetched := source(w.fetches, w.queue[0].id);
      if !fetched.Failed? {
        StepShape(w, fetched, maxDepth);
        StepAccounted(firstRead, w, fetched, maxDepth);
        ReadsBounded(source, maxDepth, maxEvents, firstRead, Step(w, fetched, maxDepth));
      }
    }
  }

  /** The walk ends where it stops, or fails on the read that it does there. */
  lemma {:induction false} RunStops(source: Source, maxDepth: nat, maxEvents: nat, w: Walk)
    ensures var stop := Stop(source, maxDepth, maxEvents, w);
            match Run(source, maxDepth, maxEvents, w)
            case Ok(end) => end == stop
            case Err(e) => Active(stop, maxEvents) && source(stop.fetches, stop.queue[0].id) == Failed(e)
    decreases Room(w, maxEvents), |w.queue|
  {
    if Active(w, maxEvents) {
      var fetched := source(w.fetches, w.queue[0].id);
      if !fetched.Failed? {
        StepShape(w, fetched, maxDepth);
        RunStops(source, maxDepth, maxEvents, Step(w, fetched, maxDepth));
      }
    }
  }

  /** The reads that the walk does, the one that fails included. */
  function ReadsDone(source: Source, firstRead: nat, start: string, maxDepth: nat, maxEvents: nat): int {
    var failing := if Traverse(source, firstRead, start, maxDepth, maxEvents).Err? then 1 else 0;
    Stop(source, maxDepth, maxEvents, Start(start, firstRead)).fetches + failing - firstRead
  }

  /**
   * Whatever the store answers, and whether or not a read fails in the end: before each
   * read, reads done and reads still queued account for the visited ids, so that there
   * are no more reads than 1 + the number of links of the events collected until then.
   */
  lemma TraverseReadsBounded(source: Source, firstRead: nat, start: string, maxDepth: nat, maxEvents: nat)
    ensures var stop := Stop(source, maxDepth, maxEvents, Start(start, firstRead));
            && (match Traverse(source, firstRead, start, maxDepth, maxEvents)
                case Ok(end) => end == stop
                case Err(e) => Active(stop, maxEvents) && source(stop.fetches, stop.queue[0].id) == Failed(e))
            && stop.fetches + |stop.queue| == firstRead + |stop.visited|
            && |stop.visited| <= 1 + TotalLinks(stop.result)
            && ReadsDone(source, firstRead, start, maxDepth, maxEvents) <= 1 + TotalLinks(stop.result)
            && |stop.result| <= maxEvents
  {
    RunStops(source, maxDepth, maxEvents, Start(start, firstRead));
    ReadsBounded(source, maxDepth, maxEvents, firstRead, Start(start, firstRead));
  }

  // ---------------------------------------------------------------------------
  // The limits only cut the far end

  /** With a smaller event limit the walk returns the first events of the longer walk. */
  lemma {:induction false} FewerEventsIsPrefix(source: Source, maxDepth: nat, few: nat, many: nat, w: Walk)
    requires |w.result| <= few <= many
    ensures var shorter, longer := Run(source, maxDepth, few, w), Run(source, maxDepth, many, w);
            longer.Ok? ==>
              && shorter.Ok?
              && shorter.value.result <= longer.value.result
              && (|shorter.value.result| < few ==> shorter == longer)
    decreases Room(w, many), |w.queue|
  {
    if Active(w, few) {
      var fetched := source(w.fetches, w.queue[0].id);
      if !fetched.Failed? {
        StepShape(w, fetched, maxDepth);
        FewerEventsIsPrefix(source, maxDepth, few, many, Step(w, fetched, maxDepth));
      }
    } else {
      RunExtends(source, maxDepth, many, w);
    }
  }

  /** Queued depths never decrease and span at most two values. */
  ghost predicate InOrder(queue: seq<Item>) {
    forall i, j :: 0 <= i <= j < |queue| ==> queue[i].depth <= queue[j].depth <= queue[0].depth + 1
  }

  lemma {:induction false} EnqueueInOrder(links: seq<Link>, d: nat, w: Walk)
    requires InOrder(w.queue) && forall i :: 0 <= i < |w.queue| ==> d <= w.queue[i].depth <= d + 1
    ensures InOrder(Enqueue(links, d + 1, w).queue)
    decreases |links|
  {
    if links != [] {
      var t := links[0].linkID;
      if t == "" || t in w.visited {
        EnqueueInOrder(links[1..], d, w);
      } else {
        EnqueueInOrder(links[1..], d,
                       w.(visited := w.visited + {t}, queue := w.queue + [Item(t, d + 1)]));
      }
    }
  }

  lemma StepInOrder(w: Walk, fetched: Fetch, maxDepth: nat)
    requires w.queue != [] && !fetched.Failed? && InOrder(w.queue)
    ensures InOrder(Step(w, fetched, maxDepth).queue)
  {
    var d := w.queue[0].depth;
    assert forall i :: 0 <= i < |w.queue[1..]| ==> w.queue[1..][i] == w.queue[i + 1];
    if fetched.Found? && d < maxDepth {
      EnqueueInOrder(fetched.event.links, d,
                     w.(queue := w.queue[1..], fetches := w.fetches + 1, result := w.result + [fetched.event]));
    }
  }

  /**
   * Two walks that differ only in their depth limits stay in step: the states are
   * equal until the shallow walk stops queueing, and from then on its queue is a
   * prefix of the deep one's.
   */
  ghost predicate InStep(shallow: nat, a: Walk, b: Walk) {
    && a.result == b.result && a.fetches == b.fetches && a.queue <= b.queue
    && ((a == b && InOrder(a.queue)) || (forall i :: 0 <= i < |a.queue| ==> shallow <= a.queue[i].depth))
  }

  lemma StepInStep(shallow: nat, deep: nat, a: Walk, b: Walk, fetched: Fetch)
    requires shallow <= deep && InStep(shallow, a, b) && a.queue != [] && !fetched.Failed?
    ensures b.queue != [] && b.queue[0] == a.queue[0]
    ensures InStep(shallow, Step(a, fetched, shallow), Step(b, fetched, deep))
  {
    var d := a.queue[0].depth;
    assert b.queue[0] == a.queue[0];
    assert a.queue[1..] <= b.queue[1..];
    if d < shallow {
      StepInOrder(a, fetched, shallow);
    } else {
      assert forall i :: 0 <= i < |a.queue[1..]| ==> a.queue[1..][i] == a.queue[i + 1];
      if fetched.Found? {
        var taken := b.(queue := b.queue[1..], fetches := b.fetches + 1, result := b.result + [fetched.event]);
        EnqueueCounts(fetched.event.links, d + 1, taken);
        EnqueueKeepsResult(fetched.event.links, d + 1, taken);
      }
    }
  }

  lemma {:induction false} ShallowerRunIsPrefix(source: Source, shallow: nat, deep: nat, maxEvents: nat,
                                                a: Walk, b: Walk)
    requires shallow <= deep && InStep(shallow, a, b)
    ensures var ra, rb := Run(source, shallow, maxEvents, a), Run(source, deep, maxEvents, b);
            rb.Ok? ==> ra.Ok? && ra.value.result <= rb.value.result
    decreases Room(a, maxEvents), |a.queue|
  {
    if Active(a, maxEvents) {
      var fetched := source(a.fetches, a.queue[0].id);
      assert b.queue[0] == a.queue[0];
      if !fetched.Failed? {
        StepShape(a, fetched, shallow);
        StepInStep(shallow, deep, a, b, fetched);
        ShallowerRunIsPrefix(source, shallow, deep, maxEvents, Step(a, fetched, shallow), Step(b, fetched, deep));
      }
    } else {
      RunExtends(source, deep, maxEvents, b);
    }
  }

  /** Lowering either limit only cuts events off the far end of the result. */
  lemma LowerLimitsArePrefix(source: Source, firstRead: nat, start: string, shallow: nat, deep: nat,
                             few: nat, many: nat)
    requires shallow <= deep && few <= many
    ensures var short := Traverse(source, firstRead, start, shallow, few);
            var long := Traverse(source, firstRead, start, deep, many);
            long.Ok? ==> short.Ok? && short.value.result <= long.value.result
  {
    FewerEventsIsPrefix(source, deep, few, many, Start(start, firstRead));
    ShallowerRunIsPrefix(source, shallow, deep, few, Start(start, firstRead), Start(start, firstRead));
  }
}
