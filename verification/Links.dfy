/**
 * Incoming events and the normalisation of their links (internal/cdevents/links.go),
 * and why the graph walk cannot tell normalised links from the raw ones.
 */
module Links {
  import opened Models
  import opened Graph

  datatype EventContext = EventContext(
    version: string,
    id: string,
    source: string,
    eventType: string,
    timestamp: int,
    chainID: string,
    links: seq<Link>)

  datatype EventSubject = EventSubject(id: string, source: string, subjectType: string, content: Fields)

  /** The event as sent by a tool; parsing normalises its links in place. */
  class CDEvent {
    var context: EventContext
    var subject: EventSubject
    var customData: Fields
    var links: seq<Link>

    constructor (context: EventContext, subject: EventSubject, customData: Fields, links: seq<Link>)
      ensures this.context == context && this.subject == subject
      ensures this.customData == customData && this.links == links
    {
      this.context, this.subject, this.customData, this.links := context, subject, customData, links;
    }
  }

  /** The key under which a link counts as seen. */
  function LinkKey(link: Link): string {
    link.linkType + "\0" + link.linkID
  }

  /** Drops links without a target and links whose key is seen or came before. */
  function Dedup(links: seq<Link>, seen: set<string>): seq<Link> {
    if links == [] then []
    else if links[0].linkID == "" || LinkKey(links[0]) in seen then Dedup(links[1..], seen)
    else [links[0]] + Dedup(links[1..], seen + {LinkKey(links[0])})
  }

  function Normalized(links: seq<Link>): seq<Link> {
    Dedup(links, {})
  }

  /** Moves both link lists, merged, into context.links. A nil event is left alone. */
  method NormalizeLinks(event: CDEvent?)
    modifies event
    ensures event != null ==>
              && event.context == old(event.context).(links := Normalized(old(event.context.links + event.links)))
              && event.links == []
              && event.subject == old(event.subject) && event.customData == old(event.customData)
  {
    if event == null { return; }
    var merged: seq<Link> := [];
    var seen: set<string> := {};
    ghost var all := event.context.links + event.links;
    merged, seen := AddLinks(event.context.links, event.links, merged, seen);
    merged, seen := AddLinks(event.links, [], merged, seen);
    assert event.links + [] == event.links && merged == merged + Dedup([], seen);
    assert merged == [] + Dedup(all, {});
    event.context := event.context.(links := merged);
    event.links := [];
  }

  /** One of the two loops of NormalizeLinks; `later` is what is still to come after it. */
  method AddLinks(links: seq<Link>, ghost later: seq<Link>, merged0: seq<Link>, seen0: set<string>)
    returns (merged: seq<Link>, seen: set<string>)
    ensures merged + Dedup(later, seen) == merged0 + Dedup(links + later, seen0)
  {
    merged, seen := merged0, seen0;
    for i := 0 to |links|
      invariant merged + Dedup(links[i..] + later, seen) == merged0 + Dedup(links + later, seen0)
    {
      var link := links[i];
      assert (links[i..] + later)[1..] == links[i + 1..] + later;
      if link.linkID != "" && LinkKey(link) !in seen {
        seen := seen + {LinkKey(link)};
        merged := merged + [link];
      }
    }
    assert links[|links|..] + later == later;
  }

  // ---------------------------------------------------------------------------
  // What normalisation keeps

  /** Link k has a target and no earlier link with a target has its key. */
  ghost predicate FirstOfKey(links: seq<Link>, k: int) {
    && 0 <= k < |links| && links[k].linkID != ""
    && (forall j :: 0 <= j < k && links[j].linkID != "" ==> LinkKey(links[j]) != LinkKey(links[k]))
  }

  /** The links that are the first of their key, in their order. */
  ghost function FirstLinks(links: seq<Link>): seq<Link> {
    if links == [] then []
    else
      var front := FirstLinks(links[..|links| - 1]);
      if FirstOfKey(links, |links| - 1) then front + [links[|links| - 1]] else front
  }

  lemma {:induction false} DedupLast(links: seq<Link>, seen: set<string>, x: Link)
    ensures var isNew := x.linkID != "" && LinkKey(x) !in seen
                         && forall k :: 0 <= k < |links| && links[k].linkID != "" ==> LinkKey(links[k]) != LinkKey(x);
            Dedup(links + [x], seen) == Dedup(links, seen) + (if isNew then [x] else [])
    decreases |links|
  {
    if links != [] {
      var head, tail := links[0], links[1..];
      var dropped := head.linkID == "" || LinkKey(head) in seen;
      assert (links + [x])[1..] == tail + [x];
      assert forall k :: 0 <= k < |tail| ==> tail[k] == links[k + 1];
      DedupLast(tail, if dropped then seen else seen + {LinkKey(head)}, x);
    }
  }

  /** Normalising keeps exactly the first link of each key that has a target, in order. */
  lemma {:induction false} NormalizedIsFirsts(links: seq<Link>)
    ensures Normalized(links) == FirstLinks(links)
    decreases |links|
  {
    if links != [] {
      var front, last := links[..|links| - 1], links[|links| - 1];
      NormalizedIsFirsts(front);
      DedupLast(front, {}, last);
      assert links == front + [last];
    }
  }

  lemma {:induction false} NormalizedMembers(links: seq<Link>, x: Link)
    ensures x in Normalized(links) <==> exists k :: FirstOfKey(links, k) && links[k] == x
    decreases |links|
  {
    NormalizedIsFirsts(links);
    if links != [] {
      var front := links[..|links| - 1];
      NormalizedIsFirsts(front);
      NormalizedMembers(front, x);
      FirstOfKeyFront(links);
      if k :| FirstOfKey(front, k) && front[k] == x { assert FirstOfKey(links, k); }
      if k :| FirstOfKey(links, k) && links[k] == x && k < |front| { assert FirstOfKey(front, k); }
    }
  }

  lemma FirstOfKeyFront(links: seq<Link>)
    requires links != []
    ensures forall k :: 0 <= k < |links| - 1 ==> (FirstOfKey(links[..|links| - 1], k) <==> FirstOfKey(links, k))
  {
    var front := links[..|links| - 1];
    assert forall k :: 0 <= k < |front| ==> front[k] == links[k];
  }

  lemma {:induction false} DedupIdempotent(links: seq<Link>, seen: set<string>)
    ensures Dedup(Dedup(links, seen), seen) == Dedup(links, seen)
    decreases |links|
  {
    if links != [] {
      if links[0].linkID == "" || LinkKey(links[0]) in seen {
        DedupIdempotent(links[1..], seen);
      } else {
        var seen1 := seen + {LinkKey(links[0])};
        DedupIdempotent(links[1..], seen1);
        assert ([links[0]] + Dedup(links[1..], seen1))[1..] == Dedup(links[1..], seen1);
      }
    }
  }

  lemma NormalizedIdempotent(links: seq<Link>)
    ensures Normalized(Normalized(links)) == Normalized(links)
  {
    DedupIdempotent(links, {});
  }

  /** Links that have targets and the same key have the same target. */
  ghost predicate CollisionFree(links: seq<Link>) {
    forall i, j :: 0 <= i < |links| && 0 <= j < |links| && LinkKey(links[i]) == LinkKey(links[j]) &&
                   links[i].linkID != "" && links[j].linkID != "" ==>
      links[i].linkID == links[j].linkID
  }

  lemma {:induction false} FirstOfItsKey(links: seq<Link>, k: nat) returns (j: nat)
    requires k < |links| && links[k].linkID != ""
    ensures j <= k && FirstOfKey(links, j) && LinkKey(links[j]) == LinkKey(links[k])
  {
    j := k;
    if !FirstOfKey(links, k) {
      var i :| 0 <= i < k && links[i].linkID != "" && LinkKey(links[i]) == LinkKey(links[k]);
      j := FirstOfItsKey(links, i);
    }
  }

  lemma SameKeySameTarget(a: Link, b: Link)
    requires LinkKey(a) == LinkKey(b) && a.linkID == b.linkID
    ensures a == b
  {
    assert LinkKey(a)[..|a.linkType|] == a.linkType && LinkKey(b)[..|b.linkType|] == b.linkType;
  }

  /**
   * Normalisation drops nothing but duplicates and links without a target exactly when
   * no two links with different targets share a key. Otherwise the later one is taken
   * for a duplicate of the earlier one.
   */
  lemma OnlyDuplicatesDroppedIff(links: seq<Link>)
    ensures (forall k :: 0 <= k < |links| && links[k].linkID != "" ==> links[k] in Normalized(links))
            <==> CollisionFree(links)
  {
    if CollisionFree(links) {
      forall k | 0 <= k < |links| && links[k].linkID != "" ensures links[k] in Normalized(links) {
        var j := FirstOfItsKey(links, k);
        SameKeySameTarget(links[j], links[k]);
        NormalizedMembers(links, links[k]);
      }
    }
    if forall k :: 0 <= k < |links| && links[k].linkID != "" ==> links[k] in Normalized(links) {
      forall i, j | 0 <= i < |links| && 0 <= j < |links| && LinkKey(links[i]) == LinkKey(links[j]) &&
                    links[i].linkID != "" && links[j].linkID != ""
        ensures links[i].linkID == links[j].linkID
      {
        NormalizedMembers(links, links[i]);
        NormalizedMembers(links, links[j]);
        var a :| FirstOfKey(links, a) && links[a] == links[i];
        var b :| FirstOfKey(links, b) && links[b] == links[j];
        assert a == b;
      }
    }
  }

  lemma LinkKeyInjective(a: Link, b: Link)
    requires Without(a.linkType, '\0') && Without(b.linkType, '\0') && LinkKey(a) == LinkKey(b)
    ensures a == b
  {
    SplitAtFirst(a.linkType, a.linkID, b.linkType, b.linkID, '\0');
  }

  lemma NulFreeIsCollisionFree(links: seq<Link>)
    requires forall i :: 0 <= i < |links| ==> Without(links[i].linkType, '\0')
    ensures CollisionFree(links)
  {
    forall i, j | 0 <= i < |links| && 0 <= j < |links| && LinkKey(links[i]) == LinkKey(links[j])
      ensures links[i].linkID == links[j].linkID
    {
      LinkKeyInjective(links[i], links[j]);
    }
  }

  /** A link type with a NUL in it makes normalisation lose a target. */
  lemma NulTypeLosesTarget()
    ensures var links := [Link("a\0b", "c"), Link("a", "b\0c")];
            Normalized(links) == [links[0]] && links[1].linkID != links[0].linkID
  {
    var links := [Link("a\0b", "c"), Link("a", "b\0c")];
    assert LinkKey(links[0]) == "a\0b\0c" == LinkKey(links[1]);
    assert links[1..][0] == links[1] && links[1..][1..] == [];
    assert Dedup(links[1..], {} + {LinkKey(links[0])}) == [];
    assert links[1].linkID[0] != links[0].linkID[0];
  }

  // ---------------------------------------------------------------------------
  // The walk does not see the difference

  lemma {:induction false} EnqueueDedup(links: seq<Link>, seen: set<string>, depth: nat, w: Walk)
    requires CollisionFree(links)
    requires forall i :: 0 <= i < |links| && links[i].linkID != "" && LinkKey(links[i]) in seen ==>
               links[i].linkID in w.visited
    ensures Enqueue(Dedup(links, seen), depth, w) == Enqueue(links, depth, w)
    decreases |links|
  {
    if links != [] {
      var head, tail := links[0], links[1..];
      assert forall i :: 0 <= i < |tail| ==> tail[i] == links[i + 1];
      if head.linkID == "" || LinkKey(head) in seen {
        EnqueueDedup(tail, seen, depth, w);
      } else {
        var w1 := if head.linkID in w.visited then w
                  else w.(visited := w.visited + {head.linkID}, queue := w.queue + [Item(head.linkID, depth)]);
        var rest := Dedup(tail, seen + {LinkKey(head)});
        assert ([head] + rest)[1..] == rest;
        forall i | 0 <= i < |tail| && tail[i].linkID != "" && LinkKey(tail[i]) in seen + {LinkKey(head)}
          ensures tail[i].linkID in w1.visited
        {
          assert tail[i] == links[i + 1];
        }
        EnqueueDedup(tail, seen + {LinkKey(head)}, depth, w1);
      }
    }
  }

  function NormalizedEvent(e: StoredEvent): StoredEvent {
    e.(links := Normalized(e.links))
  }

  /** The same store with the links of every event normalised. */
  function NormalizedSource(source: Source): Source {
    (n: nat, id: string) => match source(n, id)
      case Found(e) => Found(NormalizedEvent(e))
      case other => other
  }

  function NormalizedWalk(w: Walk): Walk {
    w.(result := MapSeq(NormalizedEvent, w.result))
  }

  ghost predicate SourceCollisionFree(source: Source) {
    forall n, id :: source(n, id).Found? ==> CollisionFree(source(n, id).event.links)
  }

  lemma {:induction false} EnqueueIgnoresResult(links: seq<Link>, depth: nat, w: Walk, result: seq<StoredEvent>)
    ensures Enqueue(links, depth, w.(result := result)) == Enqueue(links, depth, w).(result := result)
    decreases |links|
  {
    if links != [] {
      EnqueueIgnoresResult(links[1..], depth, w, result);
      EnqueueIgnoresResult(links[1..], depth,
        w.(visited := w.visited + {links[0].linkID}, queue := w.queue + [Item(links[0].linkID, depth)]), result);
    }
  }

  lemma StepNormalized(w: Walk, event: StoredEvent, maxDepth: nat)
    requires w.queue != [] && CollisionFree(event.links)
    ensures Step(NormalizedWalk(w), Found(NormalizedEvent(event)), maxDepth)
         == NormalizedWalk(Step(w, Found(event), maxDepth))
  {
    var taken := w.(queue := w.queue[1..], fetches := w.fetches + 1, result := w.result + [event]);
    var mapped := MapSeq(NormalizedEvent, w.result) + [NormalizedEvent(event)];
    assert mapped == MapSeq(NormalizedEvent, w.result + [event]);
    if w.queue[0].depth < maxDepth {
      var d := w.queue[0].depth + 1;
      EnqueueDedup(event.links, {}, d, taken.(result := mapped));
      EnqueueIgnoresResult(event.links, d, taken, mapped);
      EnqueueKeepsResult(event.links, d, taken);
    }
  }

  /**
   * Walking a store with normalised links visits the same events in the same order,
   * and does the same reads, as walking the raw links with their duplicates and empty
   * targets.
   */
  lemma {:induction false} RunNormalized(source: Source, maxDepth: nat, maxEvents: nat, w: Walk)
    requires SourceCollisionFree(source)
    ensures var raw := Run(source, maxDepth, maxEvents, w);
            Run(NormalizedSource(source), maxDepth, maxEvents, NormalizedWalk(w))
            == match raw case Ok(end) => Ok(NormalizedWalk(end)) case Err(e) => Err(e)
    decreases Room(w, maxEvents), |w.queue|
  {
    if Active(w, maxEvents) {
      var fetched := source(w.fetches, w.queue[0].id);
      if !fetched.Failed? {
        StepShape(w, fetched, maxDepth);
        if fetched.Found? { StepNormalized(w, fetched.event, maxDepth); }
        RunNormalized(source, maxDepth, maxEvents, Step(w, fetched, maxDepth));
      }
    }
  }

  lemma TraverseNormalized(source: Source, firstRead: nat, start: string, maxDepth: nat, maxEvents: nat)
    requires SourceCollisionFree(source)
    ensures var raw := Traverse(source, firstRead, start, maxDepth, maxEvents);
            Traverse(NormalizedSource(source), firstRead, start, maxDepth, maxEvents)
            == match raw case Ok(end) => Ok(NormalizedWalk(end)) case Err(e) => Err(e)
  {
    assert NormalizedWalk(Start(start, firstRead)) == Start(start, firstRead);
    RunNormalized(source, maxDepth, maxEvents, Start(start, firstRead));
  }
}
