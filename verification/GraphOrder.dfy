/**
 * The order of the events of a walk: that of the links through which they were found
 * first, event by event and, in each, link by link.
 */
module GraphOrder {
  import opened Models
  import opened Graph
  import opened GraphLimits

  /** The store answers for an id with the event of that id, whenever it is asked. */
  ghost predicate AnswersById(source: Source) {
    forall n, id :: source(n, id).Found? ==> source(n, id).event.id == id
  }

  /** Link k of event p comes before link l of event q. */
  predicate Earlier(p: nat, k: nat, q: nat, l: nat) {
    p < q || (p == q && k < l)
  }

  /** The first link of all that leads to the id is link k of event p. */
  ghost predicate FirstLink(events: seq<StoredEvent>, p: nat, k: nat, id: string) {
    && p < |events| && k < |events[p].links| && events[p].links[k].linkID == id
    && forall q: nat, l: nat :: q < |events| && l < |events[q].links| && Earlier(q, l, p, k) ==>
         events[q].links[l].linkID != id
  }

  /** The first link to a comes before the first link to b. */
  ghost predicate LinkedBefore(events: seq<StoredEvent>, a: string, b: string) {
    exists p: nat, k: nat, q: nat, l: nat ::
      FirstLink(events, p, k, a) && FirstLink(events, q, l, b) && Earlier(p, k, q, l)
  }

  /** The first link to the id comes before link k of event p, and is one of the first n events. */
  ghost predicate LinkedWithin(events: seq<StoredEvent>, id: string, p: nat, k: nat, n: int) {
    exists q: nat, l: nat :: FirstLink(events, q, l, id) && Earlier(q, l, p, k) && q < n
  }

  /**
   * Each event but the first is linked to by an event before it, and they come in the
   * order of their first links.
   */
  ghost predicate InLinkOrder(events: seq<StoredEvent>) {
    && (forall i :: 0 < i < |events| ==> LinkedWithin(events, events[i].id, |events|, 0, i))
    && (forall i, j :: 0 < i < j < |events| ==> LinkedBefore(events, events[i].id, events[j].id))
  }

  /** What has been found, in the order of finding: the result and then the queue. */
  ghost function Line(w: Walk): (line: seq<string>)
    ensures |line| == |w.result| + |w.queue|
  {
    seq(|w.result| + |w.queue|, i requires 0 <= i < |w.result| + |w.queue| =>
      if i < |w.result| then w.result[i].id else w.queue[i - |w.result|].id)
  }

  /** Every link before link k of event p has been followed up. */
  ghost predicate Followed(w: Walk, p: nat, k: nat) {
    forall q: nat, l: nat :: q < |w.result| && l < |w.result[q].links| && Earlier(q, l, p, k) &&
                             w.result[q].links[l].linkID != "" ==>
      w.result[q].links[l].linkID in w.visited
  }

  /** The line is in link order, up to link k of event p. */
  ghost predicate Placed(w: Walk, p: nat, k: nat) {
    && (forall i :: 0 < i < |Line(w)| ==>
          LinkedWithin(w.result, Line(w)[i], p, k, if i < |w.result| then i else |w.result|))
    && (forall i, j :: 0 < i < j < |Line(w)| ==> LinkedBefore(w.result, Line(w)[i], Line(w)[j]))
  }

  lemma FirstLinkExtends(events: seq<StoredEvent>, e: StoredEvent, p: nat, k: nat, id: string)
    requires FirstLink(events, p, k, id)
    ensures FirstLink(events + [e], p, k, id)
  {
    var more := events + [e];
    assert forall q :: 0 <= q < |events| ==> more[q] == events[q];
  }

  lemma LinkedWithinExtends(events: seq<StoredEvent>, e: StoredEvent, id: string, p: nat, k: nat, n: int)
    requires LinkedWithin(events, id, p, k, n)
    ensures LinkedWithin(events + [e], id, p, k, n)
  {
    var q: nat, l: nat :| FirstLink(events, q, l, id) && Earlier(q, l, p, k) && q < n;
    FirstLinkExtends(events, e, q, l, id);
  }

  lemma LinkedBeforeExtends(events: seq<StoredEvent>, e: StoredEvent, a: string, b: string)
    requires LinkedBefore(events, a, b)
    ensures LinkedBefore(events + [e], a, b)
  {
    var p: nat, k: nat, q: nat, l: nat :|
      FirstLink(events, p, k, a) && FirstLink(events, q, l, b) && Earlier(p, k, q, l);
    FirstLinkExtends(events, e, p, k, a);
    FirstLinkExtends(events, e, q, l, b);
  }

  lemma LinkedWithinLater(events: seq<StoredEvent>, id: string, p: nat, k: nat, p': nat, k': nat, n: int)
    requires LinkedWithin(events, id, p, k, n) && ((p == p' && k <= k') || p < p')
    ensures LinkedWithin(events, id, p', k', n)
  {
    var q: nat, l: nat :| FirstLink(events, q, l, id) && Earlier(q, l, p, k) && q < n;
    assert Earlier(q, l, p', k');
  }

  lemma PlacedLater(w: Walk, p: nat, k: nat, p': nat, k': nat)
    requires Placed(w, p, k) && ((p == p' && k <= k') || p < p')
    ensures Placed(w, p', k')
  {
    hide LinkedWithin, LinkedBefore;
    forall i | 0 < i < |Line(w)|
      ensures LinkedWithin(w.result, Line(w)[i], p', k', if i < |w.result| then i else |w.result|)
    {
      LinkedWithinLater(w.result, Line(w)[i], p, k, p', k', if i < |w.result| then i else |w.result|);
    }
  }

  /** The link that leads to an id nobody has seen is the first one to it. */
  lemma NewTarget(w: Walk, p: nat, k: nat)
    requires p < |w.result| && k < |w.result[p].links| && Followed(w, p, k)
    requires var t := w.result[p].links[k].linkID; t != "" && t !in w.visited
    ensures FirstLink(w.result, p, k, w.result[p].links[k].linkID)
  {
  }

  /** The walk after link k of the last event has led to something new. */
  lemma QueueOnePlaced(w: Walk, k: nat, d: nat, w': Walk)
    requires w.result != [] && k < |w.result[|w.result| - 1].links|
    requires var p := |w.result| - 1; Followed(w, p, k) && Placed(w, p, k)
    requires var t := w.result[|w.result| - 1].links[k].linkID;
             && t != "" && t !in w.visited
             && w' == w.(visited := w.visited + {t}, queue := w.queue + [Item(t, d)])
    ensures Followed(w', |w.result| - 1, k + 1) && Placed(w', |w.result| - 1, k + 1)
  {
    hide FirstLink;
    var p, n := |w.result| - 1, |Line(w)|;
    var t := w.result[p].links[k].linkID;
    NewTarget(w, p, k);
    assert Line(w') == Line(w) + [t];
    PlacedLater(w, p, k, p, k + 1);
    assert Earlier(p, k, p, k + 1) && LinkedWithin(w.result, t, p, k + 1, |w.result|);
    forall i | 0 < i < n ensures LinkedBefore(w.result, Line(w)[i], t) {
      var q: nat, l: nat :| FirstLink(w.result, q, l, Line(w)[i]) && Earlier(q, l, p, k);
      assert FirstLink(w.result, p, k, t);
    }
    NextFollowed(w, w', k);
  }

  lemma NextFollowed(w: Walk, w': Walk, k: nat)
    requires w.result != [] && k < |w.result[|w.result| - 1].links| && Followed(w, |w.result| - 1, k)
    requires w'.result == w.result && w.visited <= w'.visited
    requires var t := w.result[|w.result| - 1].links[k].linkID; t == "" || t in w'.visited
    ensures Followed(w', |w.result| - 1, k + 1)
  {
  }

  /** Following up the links of the event just taken. */
  lemma {:induction false} EnqueuePlaced(w: Walk, k: nat, d: nat)
    requires w.result != [] && k <= |w.result[|w.result| - 1].links|
    requires Followed(w, |w.result| - 1, k) && Placed(w, |w.result| - 1, k)
    ensures var w' := Enqueue(w.result[|w.result| - 1].links[k..], d, w);
            w'.result == w.result && Followed(w', |w.result|, 0) && Placed(w', |w.result|, 0)
    decreases |w.result[|w.result| - 1].links| - k
  {
    hide Followed, Placed;
    var p := |w.result| - 1;
    var links := w.result[p].links;
    if k == |links| {
      assert links[k..] == [];
      AllFollowed(w);
      PlacedLater(w, p, k, p + 1, 0);
    } else {
      var t := links[k].linkID;
      assert links[k..][1..] == links[k + 1..];
      if t == "" || t in w.visited {
        NextFollowed(w, w, k);
        PlacedLater(w, p, k, p, k + 1);
        EnqueuePlaced(w, k + 1, d);
      } else {
        var next := w.(visited := w.visited + {t}, queue := w.queue + [Item(t, d)]);
        QueueOnePlaced(w, k, d, next);
        EnqueuePlaced(next, k + 1, d);
      }
    }
  }

  lemma AllFollowed(w: Walk)
    requires w.result != [] && Followed(w, |w.result| - 1, |w.result[|w.result| - 1].links|)
    ensures Followed(w, |w.result|, 0)
  {
  }

  /** Dropping an id that is not stored leaves the others in their order. */
  lemma DropPlaced(w: Walk)
    requires w.queue != [] && Placed(w, |w.result|, 0)
    ensures Placed(w.(queue := w.queue[1..], fetches := w.fetches + 1), |w.result|, 0)
  {
    hide LinkedWithin, LinkedBefore;
    var w', n := w.(queue := w.queue[1..], fetches := w.fetches + 1), |w.result|;
    assert forall i :: 0 <= i < |Line(w')| ==> Line(w')[i] == Line(w)[if i < n then i else i + 1];
    forall i | 0 < i < |Line(w')|
      ensures LinkedWithin(w.result, Line(w')[i], n, 0, if i < n then i else n)
    {
      assert Line(w')[i] == Line(w)[if i < n then i else i + 1];
    }
    forall i, j | 0 < i < j < |Line(w')| ensures LinkedBefore(w.result, Line(w')[i], Line(w')[j]) {
      assert Line(w')[i] == Line(w)[if i < n then i else i + 1];
      assert Line(w')[j] == Line(w)[if j < n then j else j + 1];
    }
  }

  /** Taking an event moves it from the queue to the result, and leaves the line as it is. */
  lemma TakePlaced(w: Walk, e: StoredEvent, taken: Walk)
    requires w.queue != [] && e.id == w.queue[0].id && Placed(w, |w.result|, 0)
    requires taken == w.(queue := w.queue[1..], fetches := w.fetches + 1, result := w.result + [e])
    ensures Placed(taken, |w.result|, 0)
  {
    hide LinkedWithin, LinkedBefore;
    var n := |w.result|;
    assert Line(taken) == Line(w);
    forall i | 0 < i < |Line(w)|
      ensures LinkedWithin(taken.result, Line(w)[i], n, 0, if i < n + 1 then i else n + 1)
    {
      LinkedWithinExtends(w.result, e, Line(w)[i], n, 0, if i < n then i else n);
      WithinMore(taken.result, Line(w)[i], n, if i < n then i else n, if i < n + 1 then i else n + 1);
    }
    forall i, j | 0 < i < j < |Line(w)| ensures LinkedBefore(taken.result, Line(w)[i], Line(w)[j]) {
      LinkedBeforeExtends(w.result, e, Line(w)[i], Line(w)[j]);
    }
  }

  lemma WithinMore(events: seq<StoredEvent>, id: string, p: nat, n: int, m: int)
    requires LinkedWithin(events, id, p, 0, n) && n <= m
    ensures LinkedWithin(events, id, p, 0, m)
  {
    var q: nat, l: nat :| FirstLink(events, q, l, id) && Earlier(q, l, p, 0) && q < n;
  }

  lemma TakeFollowed(w: Walk, e: StoredEvent, taken: Walk)
    requires Followed(w, |w.result|, 0) && taken.visited == w.visited && taken.result == w.result + [e]
    ensures Followed(taken, |w.result|, 0)
  {
    assert forall q :: 0 <= q < |w.result| ==> taken.result[q] == w.result[q];
  }

  /** Either every link has been followed up, or none is to be any more. */
  ghost predicate Underway(w: Walk, maxDepth: nat) {
    && Placed(w, |w.result|, 0)
    && ((Followed(w, |w.result|, 0) && InOrder(w.queue)) ||
        forall i :: 0 <= i < |w.queue| ==> w.queue[i].depth >= maxDepth)
  }

  lemma StepUnderway(w: Walk, fetched: Fetch, maxDepth: nat)
    requires w.queue != [] && Underway(w, maxDepth) && !fetched.Failed?
    requires fetched.Found? ==> fetched.event.id == w.queue[0].id
    ensures Underway(Step(w, fetched, maxDepth), maxDepth)
  {
    hide Placed, Followed, InOrder;
    if Followed(w, |w.result|, 0) && InOrder(w.queue) { StepInOrder(w, fetched, maxDepth); }
    if fetched.Missing? {
      DropPlaced(w);
      DropFollowed(w);
    } else {
      var e := fetched.event;
      var taken := w.(queue := w.queue[1..], fetches := w.fetches + 1, result := w.result + [e]);
      TakePlaced(w, e, taken);
      if w.queue[0].depth >= maxDepth {
        if Followed(w, |w.result|, 0) && InOrder(w.queue) { DeepFromHere(w, maxDepth); }
        PlacedLater(taken, |w.result|, 0, |w.result| + 1, 0);
      } else {
        TakeFollowed(w, e, taken);
        assert e.links[0..] == e.links;
        EnqueuePlaced(taken, 0, w.queue[0].depth + 1);
      }
    }
  }

  lemma DropFollowed(w: Walk)
    requires w.queue != []
    ensures Followed(w, |w.result|, 0) ==>
              Followed(w.(queue := w.queue[1..], fetches := w.fetches + 1), |w.result|, 0)
  {
  }

  lemma DeepFromHere(w: Walk, maxDepth: nat)
    requires w.queue != [] && InOrder(w.queue) && w.queue[0].depth >= maxDepth
    ensures forall i :: 0 <= i < |w.queue| ==> w.queue[i].depth >= maxDepth
  {
  }

  lemma {:induction false} RunUnderway(source: Source, maxDepth: nat, maxEvents: nat, w: Walk)
    requires AnswersById(source) && Underway(w, maxDepth)
    ensures var r := Run(source, maxDepth, maxEvents, w); r.Ok? ==> Underway(r.value, maxDepth)
    decreases Room(w, maxEvents), |w.queue|
  {
    hide Underway, Step;
    if Active(w, maxEvents) {
      var fetched := source(w.fetches, w.queue[0].id);
      if !fetched.Failed? {
        StepShape(w, fetched, maxDepth);
        StepUnderway(w, fetched, maxDepth);
        RunUnderway(source, maxDepth, maxEvents, Step(w, fetched, maxDepth));
      }
    }
  }

  lemma UnderwayInOrder(w: Walk)
    requires Placed(w, |w.result|, 0)
    ensures InLinkOrder(w.result)
  {
    hide LinkedWithin, LinkedBefore;
    assert forall i :: 0 <= i < |w.result| ==> Line(w)[i] == w.result[i].id;
  }

  /**
   * Against any store that answers by id, changing or not, the events of a walk come in
   * the order of the first links to them: the events a given event links to come in the
   * order of its links, and before those that only later events link to.
   */
  lemma WalkInLinkOrder(source: Source, firstRead: nat, start: string, maxDepth: nat, maxEvents: nat)
    requires AnswersById(source)
    ensures var r := Traverse(source, firstRead, start, maxDepth, maxEvents);
            r.Ok? ==> InLinkOrder(r.value.result)
  {
    hide InLinkOrder, AnswersById, Run;
    var w := Start(start, firstRead);
    assert Placed(w, 0, 0) && Followed(w, 0, 0) && InOrder(w.queue);
    RunUnderway(source, maxDepth, maxEvents, w);
    var r := Run(source, maxDepth, maxEvents, w);
    if r.Ok? { UnderwayInOrder(r.value); }
  }
}
