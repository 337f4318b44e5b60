/**
 * Chain reconstruction: the linked events united with the events of the same chainId,
 * newest first, and the root cause read off that order (internal/correlator/correlator.go).
 */
module Correlator {
  import opened Models
  import opened Ordering
  import opened Graph
  import opened EventTypes
  import opened Parser
  import opened Storage

  datatype ChainEvent = ChainEvent(
    id: string, eventType: string, timestamp: int, summary: string, commit: string, links: seq<Link>)

  datatype RootCause = RootCause(commit: string, author: string, message: string, repository: string)

  datatype EventChain = EventChain(
    chainID: string, startEvent: string, events: seq<ChainEvent>, rootCause: Option<RootCause>)

  // ---------------------------------------------------------------------------
  // The root cause

  function CauseOf(e: StoredEvent): RootCause {
    var info := ExtractChangeInfo(e);
    RootCause(info.commit, info.author, info.message, info.repository)
  }

  /** A merged change that names its commit. */
  predicate NamesMerge(e: StoredEvent) {
    ExtractChangeInfo(e).commit != "" && ShortTypeOf(e.eventType) == KIND_CHANGE_MERGED
  }

  /** A deployment, upgrade or rollback that names its commit. */
  predicate NamesDeployment(e: StoredEvent) {
    ExtractChangeInfo(e).commit != "" && IsDeploymentKind(ShortTypeOf(e.eventType))
  }

  function LastWhere(events: seq<StoredEvent>, p: StoredEvent -> bool): Option<StoredEvent> {
    if events == [] then None
    else if p(events[|events| - 1]) then Some(events[|events| - 1])
    else LastWhere(events[..|events| - 1], p)
  }

  function CauseOfLast(events: seq<StoredEvent>, p: StoredEvent -> bool): Option<RootCause> {
    match LastWhere(events, p)
    case Some(e) => Some(CauseOf(e))
    case None => None
  }

  function RootCauseOf(events: seq<StoredEvent>): Option<RootCause> {
    if LastWhere(events, NamesMerge).Some? then CauseOfLast(events, NamesMerge)
    else CauseOfLast(events, NamesDeployment)
  }

  /** Scans from the oldest event: the first merge wins, the first deployment is kept in reserve. */
  method FindRootCause(events: seq<StoredEvent>) returns (cause: Option<RootCause>)
    ensures cause == RootCauseOf(events)
  {
    var fallback: Option<RootCause> := None;
    var i := |events|;
    assert events[..i] == events;
    while i > 0
      invariant 0 <= i <= |events|
      invariant LastWhere(events, NamesMerge) == LastWhere(events[..i], NamesMerge)
      invariant CauseOfLast(events, NamesDeployment)
             == if fallback.Some? then fallback else CauseOfLast(events[..i], NamesDeployment)
    {
      i := i - 1;
      assert events[..i + 1][..i] == events[..i];
      var event := events[i];
      var info := ExtractChangeInfo(event);
      if info.commit != "" {
        var c := RootCause(info.commit, info.author, info.message, info.repository);
        var kind := ShortType(event.eventType);
        if kind == KIND_CHANGE_MERGED {
          return Some(c);
        } else if IsDeploymentKind(kind) {
          if fallback == None { fallback := Some(c); }
        }
      }
    }
    return fallback;
  }

  /** e is the one that satisfies p and comes last in newest-first order, that is, the earliest. */
  ghost predicate IsEarliest(events: set<StoredEvent>, p: StoredEvent -> bool, e: StoredEvent) {
    e in events && p(e) && forall o :: o in events && p(o) && o != e ==> Before(EventRank(o), EventRank(e))
  }

  /** The root cause as a property of the set of events alone. */
  ghost predicate IsRootCause(events: set<StoredEvent>, cause: Option<RootCause>) {
    if exists e :: e in events && NamesMerge(e) then
      exists e :: IsEarliest(events, NamesMerge, e) && cause == Some(CauseOf(e))
    else if exists e :: e in events && NamesDeployment(e) then
      exists e :: IsEarliest(events, NamesDeployment, e) && cause == Some(CauseOf(e))
    else cause == None
  }

  lemma {:induction false} LastIsEarliest(events: seq<StoredEvent>, p: StoredEvent -> bool)
    requires StrictlySorted(EventRank, events)
    ensures match LastWhere(events, p)
            case Some(e) => IsEarliest(Elements(events), p, e)
            case None => forall e :: e in Elements(events) ==> !p(e)
    decreases |events|
  {
    if events != [] {
      var front, last := events[..|events| - 1], events[|events| - 1];
      assert forall e :: e in events <==> e in front || e == last;
      if !p(last) {
        LastIsEarliest(front, p);
      }
    }
  }

  /** On a chain in newest-first order the scan finds the root cause of its set of events. */
  lemma RootCauseOfSet(events: seq<StoredEvent>)
    requires StrictlySorted(EventRank, events)
    ensures IsRootCause(Elements(events), RootCauseOf(events))
  {
    LastIsEarliest(events, NamesMerge);
    LastIsEarliest(events, NamesDeployment);
  }

  lemma EarliestUnique(events: set<StoredEvent>, p: StoredEvent -> bool, a: StoredEvent, b: StoredEvent)
    requires IsEarliest(events, p, a) && IsEarliest(events, p, b)
    ensures a == b
  {
    BeforeTotal(EventRank(a), EventRank(b));
  }

  /** A set of events has one root cause at most. */
  lemma RootCauseUnique(events: set<StoredEvent>, c: Option<RootCause>, d: Option<RootCause>)
    requires IsRootCause(events, c) && IsRootCause(events, d)
    ensures c == d
  {
    if exists e :: e in events && NamesMerge(e) {
      var a :| IsEarliest(events, NamesMerge, a) && c == Some(CauseOf(a));
      var b :| IsEarliest(events, NamesMerge, b) && d == Some(CauseOf(b));
      EarliestUnique(events, NamesMerge, a, b);
    } else if exists e :: e in events && NamesDeployment(e) {
      var a :| IsEarliest(events, NamesDeployment, a) && c == Some(CauseOf(a));
      var b :| IsEarliest(events, NamesDeployment, b) && d == Some(CauseOf(b));
      EarliestUnique(events, NamesDeployment, a, b);
    }
  }

  /** An event of type change.merged with a commit. */
  predicate IsNamedMerge(e: StoredEvent) {
    ShortTypeOf(e.eventType) == "change.merged" && ExtractChangeInfo(e).commit != ""
  }

  /** A deployed, upgraded or rolled back service with a commit. */
  predicate IsNamedRollout(e: StoredEvent) {
    IsRollout(e.eventType) && ExtractChangeInfo(e).commit != ""
  }

  /** e is the earliest of its sort, and of those at one time the one with the greatest id. */
  ghost predicate EarliestOf(events: set<StoredEvent>, sort: StoredEvent -> bool, e: StoredEvent) {
    && e in events && sort(e)
    && forall o :: o in events && sort(o) ==>
         e.timestamp <= o.timestamp && (e.timestamp == o.timestamp ==> !StringLess(e.id, o.id))
  }

  /** The cause names the change of the earliest merge or, if there is none, of the earliest rollout. */
  ghost predicate CauseInTime(events: set<StoredEvent>, cause: Option<RootCause>) {
    match cause
    case None => forall e :: e in events ==> !IsNamedMerge(e) && !IsNamedRollout(e)
    case Some(c) =>
      exists e :: && (EarliestOf(events, IsNamedMerge, e) ||
                      (EarliestOf(events, IsNamedRollout, e) && forall o :: o in events ==> !IsNamedMerge(o)))
                  && c.commit == ExtractChangeInfo(e).commit && c.author == ExtractChangeInfo(e).author
                  && c.message == ExtractChangeInfo(e).message && c.repository == ExtractChangeInfo(e).repository
  }

  lemma EarliestInTime(events: set<StoredEvent>, p: StoredEvent -> bool, e: StoredEvent)
    requires IsEarliest(events, p, e)
    ensures EarliestOf(events, p, e)
  {
    forall o | o in events && p(o)
      ensures e.timestamp <= o.timestamp && (e.timestamp == o.timestamp ==> !StringLess(e.id, o.id))
    {
      StringLessTotal(e.id, o.id);
      StringLessTotal(e.id, e.id);
    }
  }

  lemma SortsAgree(e: StoredEvent)
    ensures NamesMerge(e) <==> IsNamedMerge(e)
    ensures NamesDeployment(e) <==> IsNamedRollout(e)
  {
    hide ShortTypeOf, ExtractChangeInfo;
  }

  lemma SameEarliest(events: set<StoredEvent>, p: StoredEvent -> bool, q: StoredEvent -> bool, e: StoredEvent)
    requires forall o: StoredEvent :: p(o) <==> q(o)
    requires EarliestOf(events, p, e)
    ensures EarliestOf(events, q, e)
  {
  }

  /** The root cause of a set of events in terms of kinds, commits, times and ids. */
  lemma RootCauseInTime(events: set<StoredEvent>, cause: Option<RootCause>)
    requires IsRootCause(events, cause)
    ensures CauseInTime(events, cause)
  {
    hide ShortTypeOf, ExtractChangeInfo, NamesMerge, NamesDeployment, IsNamedMerge, IsNamedRollout, IsEarliest,
      EarliestOf;
    forall e ensures (NamesMerge(e) <==> IsNamedMerge(e)) && (NamesDeployment(e) <==> IsNamedRollout(e)) {
      SortsAgree(e);
    }
    if exists e :: e in events && NamesMerge(e) {
      var e :| IsEarliest(events, NamesMerge, e) && cause == Some(CauseOf(e));
      EarliestInTime(events, NamesMerge, e);
      SameEarliest(events, NamesMerge, IsNamedMerge, e);
    } else if exists e :: e in events && NamesDeployment(e) {
      var e :| IsEarliest(events, NamesDeployment, e) && cause == Some(CauseOf(e));
      EarliestInTime(events, NamesDeployment, e);
      SameEarliest(events, NamesDeployment, IsNamedRollout, e);
    }
  }

  // ---------------------------------------------------------------------------
  // Building a chain

  function ToChainEvent(e: StoredEvent): ChainEvent {
    var kind := ShortTypeOf(e.eventType);
    ChainEvent(e.id, e.eventType, e.timestamp, e.summary,
               if kind == KIND_CHANGE_MERGED || IsDeploymentKind(kind) then ExtractChangeInfo(e).commit else "",
               e.links)
  }

  /** What a chain shows of an event: the commit only of merges, deployments, upgrades and rollbacks. */
  predicate Shows(c: ChainEvent, e: StoredEvent) {
    && c.id == e.id && c.eventType == e.eventType && c.timestamp == e.timestamp
    && c.summary == e.summary && c.links == e.links
    && c.commit == if ShortTypeOf(e.eventType) == "change.merged" || IsRollout(e.eventType)
                   then ExtractChangeInfo(e).commit else ""
  }

  lemma ChainEventShows(e: StoredEvent)
    ensures Shows(ToChainEvent(e), e)
  {
    hide ShortTypeOf, ExtractChangeInfo;
  }

  /** A chain made of these events: each shown once, latest first, with their root cause. */
  ghost predicate ShowsChain(chain: EventChain, ordered: seq<StoredEvent>) {
    && |chain.events| == |ordered|
    && (forall i :: 0 <= i < |ordered| ==> Shows(chain.events[i], ordered[i]))
    && LatestFirst(ordered)
    && CauseInTime(Elements(ordered), chain.rootCause)
  }

  /** The events by id; the last one with an id wins. */
  function KeyById(events: seq<StoredEvent>): (m: map<string, StoredEvent>)
    ensures KeyedById(m)
  {
    if events == [] then map[]
    else KeyById(events[..|events| - 1])[events[|events| - 1].id := events[|events| - 1]]
  }

  /** Adds the events whose ids are not in m yet; the first one with an id wins. */
  function AddMissing(m: map<string, StoredEvent>, events: seq<StoredEvent>): (r: map<string, StoredEvent>)
    ensures KeyedById(m) ==> KeyedById(r)
    decreases |events|
  {
    if events == [] then m
    else AddMissing(if events[0].id in m then m else m[events[0].id := events[0]], events[1..])
  }

  lemma DistinctIdsSeparate(m: map<string, StoredEvent>, s: seq<StoredEvent>)
    requires KeyedById(m) && Elements(s) == m.Values
    ensures RanksSeparate(EventRank, s)
  {
    forall i, j | 0 <= i < |s| && 0 <= j < |s| && s[i] != s[j] ensures EventRank(s[i]) != EventRank(s[j]) {
      assert s[i] in m.Values && s[j] in m.Values;
    }
  }

  /** The events of m newest first: the one sequence that a sort can give. */
  ghost function NewestFirst(m: map<string, StoredEvent>): (s: seq<StoredEvent>)
    requires KeyedById(m)
    ensures StrictlySorted(EventRank, s) && Elements(s) == m.Values
  {
    DistinctIdsSeparate(m, Listing(m.Values));
    NewestStrict(EventRank, m.Values);
    Newest(EventRank, m.Values)
  }

  /** Any order of going through the map sorts into the same sequence. */
  lemma AnyOrderSortsAlike(m: map<string, StoredEvent>, s: seq<StoredEvent>)
    requires KeyedById(m) && Distinct(s) && Elements(s) == m.Values
    ensures SortBy(EventRank, s) == NewestFirst(m)
  {
    DistinctIdsSeparate(m, s);
    SortIsNewest(EventRank, s);
  }

  ghost function Assemble(startID: string, chainID: string, members: map<string, StoredEvent>): EventChain
    requires KeyedById(members)
  {
    var ordered := NewestFirst(members);
    EventChain(chainID, startID, MapSeq(ToChainEvent, ordered), RootCauseOf(ordered))
  }

  /** What BuildChain answers, with the members of the chain as a map. */
  ghost function ChainOf(source: Source, siblingsOf: string -> Result<seq<StoredEvent>>,
                         eventID: string, maxDepth: nat, maxEvents: nat): Result<EventChain> {
    match source(0, eventID)
    case Failed(e) => Err(e)
    case Missing => Err(NotFound)
    case Found(start) =>
      match Run(source, maxDepth, maxEvents, Start(eventID, 1))
      case Err(e) => Err(e)
      case Ok(w) =>
        if start.chainID == "" then Ok(Assemble(eventID, start.chainID, KeyById(w.result)))
        else
          match siblingsOf(start.chainID)
          case Err(e) => Err(e)
          case Ok(siblings) =>
            Ok(Assemble(eventID, start.chainID, AddMissing(KeyById(w.result), siblings)))
  }

  predicate HasId(events: seq<StoredEvent>, id: string) {
    exists i :: 0 <= i < |events| && events[i].id == id
  }

  predicate LastWithItsId(events: seq<StoredEvent>, e: StoredEvent) {
    exists i :: 0 <= i < |events| && events[i] == e && forall j :: i < j < |events| ==> events[j].id != e.id
  }

  predicate FirstWithItsId(events: seq<StoredEvent>, e: StoredEvent) {
    exists i :: 0 <= i < |events| && events[i] == e && forall j :: 0 <= j < i ==> events[j].id != e.id
  }

  /**
   * One event for each id among the linked ones and the siblings, and nothing else: the
   * last linked one with the id or, if none of those has it, the first sibling.
   */
  ghost predicate United(ordered: seq<StoredEvent>, linked: seq<StoredEvent>, siblings: seq<StoredEvent>) {
    && (forall e :: e in ordered ==>
          LastWithItsId(linked, e) || (FirstWithItsId(siblings, e) && !HasId(linked, e.id)))
    && (forall e :: e in linked || e in siblings ==> exists o :: o in ordered && o.id == e.id)
    && (forall i, j :: 0 <= i < j < |ordered| ==> ordered[i].id != ordered[j].id)
  }

  /**
   * What a caller gets for an event: the failure of a read, "not found" for the event
   * itself, or the chain of what is linked to it and of what shares its chainId, if it has
   * one.
   */
  ghost predicate AnswersFor(source: Source, siblingsOf: string -> Result<seq<StoredEvent>>, eventID: string,
                             maxDepth: nat, maxEvents: nat, r: Result<EventChain>) {
    match source(0, eventID)
    case Failed(e) => r == Err(e)
    case Missing => r == Err(NotFound)
    case Found(start) =>
      match Run(source, maxDepth, maxEvents, Start(eventID, 1))
      case Err(e) => r == Err(e)
      case Ok(w) =>
        match if start.chainID == "" then Ok([]) else siblingsOf(start.chainID)
        case Err(e) => r == Err(e)
        case Ok(siblings) =>
          && r.Ok? && r.value.chainID == start.chainID && r.value.startEvent == eventID
          && exists ordered :: ShowsChain(r.value, ordered) && United(ordered, w.result, siblings)
  }

  lemma LastOfMore(events: seq<StoredEvent>, e: StoredEvent, last: StoredEvent)
    requires e == last || (LastWithItsId(events, e) && e.id != last.id)
    ensures LastWithItsId(events + [last], e)
  {
    var more := events + [last];
    if e == last {
      assert more[|events|] == e;
    } else {
      var i :| 0 <= i < |events| && events[i] == e && forall j :: i < j < |events| ==> events[j].id != e.id;
      assert more[i] == e && forall j :: i < j < |events| ==> more[j] == events[j];
    }
  }

  lemma FirstOfMore(head: StoredEvent, events: seq<StoredEvent>, e: StoredEvent)
    requires e == head || (FirstWithItsId(events, e) && e.id != head.id)
    ensures FirstWithItsId([head] + events, e)
  {
    var more := [head] + events;
    if e == head {
      assert more[0] == e;
    } else {
      var i :| 0 <= i < |events| && events[i] == e && forall j :: 0 <= j < i ==> events[j].id != e.id;
      assert more[i + 1] == e && forall j :: 0 < j < i + 1 ==> more[j] == events[j - 1];
    }
  }

  lemma {:induction false} KeyedEvents(events: seq<StoredEvent>)
    ensures forall e :: e in KeyById(events).Values ==> LastWithItsId(events, e)
    ensures forall e :: e in events ==> e.id in KeyById(events)
  {
    if events != [] {
      hide LastWithItsId;
      var front, last := events[..|events| - 1], events[|events| - 1];
      KeyedEvents(front);
      assert events == front + [last];
      forall e | e in KeyById(events).Values ensures LastWithItsId(events, e) {
        var id :| id in KeyById(events) && KeyById(events)[id] == e;
        if id != last.id { assert e in KeyById(front).Values; }
        LastOfMore(front, e, last);
      }
    }
  }

  lemma {:induction false} AddedEvents(m: map<string, StoredEvent>, events: seq<StoredEvent>)
    ensures forall e :: e in AddMissing(m, events).Values ==>
              e in m.Values || (FirstWithItsId(events, e) && e.id !in m)
    ensures forall e :: e in events ==> e.id in AddMissing(m, events)
    ensures m.Keys <= AddMissing(m, events).Keys
    decreases |events|
  {
    if events != [] {
      hide FirstWithItsId;
      var head := events[0];
      var m1 := if head.id in m then m else m[head.id := head];
      AddedEvents(m1, events[1..]);
      assert events == [head] + events[1..];
      forall e | e in m1.Values ensures e in m.Values || (e == head && e.id !in m) {
        var id :| id in m1 && m1[id] == e;
      }
      forall e | e == head || (FirstWithItsId(events[1..], e) && e.id !in m1) ensures FirstWithItsId(events, e) {
        FirstOfMore(head, events[1..], e);
      }
    }
  }

  lemma AssembledUnited(members: map<string, StoredEvent>, linked: seq<StoredEvent>, siblings: seq<StoredEvent>)
    requires KeyedById(members)
    requires members == AddMissing(KeyById(linked), siblings)
    ensures United(NewestFirst(members), linked, siblings)
  {
    hide StrictlySorted, EventRank, LastWithItsId, FirstWithItsId;
    var ordered := NewestFirst(members);
    KeyedEvents(linked);
    AddedEvents(KeyById(linked), siblings);
    forall i | 0 <= i < |linked| ensures linked[i].id in KeyById(linked) {
      assert linked[i] in linked;
    }
    assert forall e :: e in ordered <==> e in members.Values by {
      assert forall e :: e in ordered <==> e in Elements(ordered);
    }
    forall e | e in linked || e in siblings ensures exists o :: o in ordered && o.id == e.id {
      assert members[e.id] in members.Values;
    }
    forall i, j | 0 <= i < j < |ordered| ensures ordered[i].id != ordered[j].id {
      StrictlyDistinct(ordered, i, j);
      assert ordered[i] in members.Values && ordered[j] in members.Values;
    }
  }

  lemma StrictlyDistinct(s: seq<StoredEvent>, i: nat, j: nat)
    requires StrictlySorted(EventRank, s) && i < j < |s|
    ensures s[i] != s[j]
  {
    BeforeTotal(EventRank(s[i]), EventRank(s[j]));
  }

  lemma AssembledShows(startID: string, chainID: string, members: map<string, StoredEvent>)
    requires KeyedById(members)
    ensures ShowsChain(Assemble(startID, chainID, members), NewestFirst(members))
  {
    hide StrictlySorted, EventRank, Shows, ToChainEvent, CauseInTime, IsRootCause, RootCauseOf, LatestFirst;
    var ordered := NewestFirst(members);
    forall i | 0 <= i < |ordered| ensures Shows(ToChainEvent(ordered[i]), ordered[i]) {
      ChainEventShows(ordered[i]);
    }
    StrictIsLatestFirst(ordered);
    RootCauseOfSet(ordered);
    RootCauseInTime(Elements(ordered), RootCauseOf(ordered));
  }

  /** The reference says just that. */
  lemma ChainAnswers(source: Source, siblingsOf: string -> Result<seq<StoredEvent>>, eventID: string,
                     maxDepth: nat, maxEvents: nat)
    ensures AnswersFor(source, siblingsOf, eventID, maxDepth, maxEvents,
                       ChainOf(source, siblingsOf, eventID, maxDepth, maxEvents))
  {
    hide ShowsChain, United, Assemble, Run;
    if source(0, eventID).Found? && Run(source, maxDepth, maxEvents, Start(eventID, 1)).Ok? {
      var start := source(0, eventID).event;
      var linked := Run(source, maxDepth, maxEvents, Start(eventID, 1)).value.result;
      var listed := if start.chainID == "" then Ok([]) else siblingsOf(start.chainID);
      if listed.Ok? {
        var members := AddMissing(KeyById(linked), listed.value);
        AssembledShows(eventID, start.chainID, members);
        AssembledUnited(members, linked, listed.value);
        AssembledHead(eventID, start.chainID, members);
      }
    }
  }

  lemma AssembledHead(startID: string, chainID: string, members: map<string, StoredEvent>)
    requires KeyedById(members)
    ensures Assemble(startID, chainID, members).chainID == chainID
    ensures Assemble(startID, chainID, members).startEvent == startID
  {
  }

  method IndexById(linked: seq<StoredEvent>) returns (events: map<string, StoredEvent>)
    ensures events == KeyById(linked)
  {
    events := map[];
    for i := 0 to |linked|
      invariant events == KeyById(linked[..i])
    {
      assert linked[..i + 1][..i] == linked[..i];
      events := events[linked[i].id := linked[i]];
    }
    assert linked[..|linked|] == linked;
  }

  method AddSiblings(members: map<string, StoredEvent>, siblings: seq<StoredEvent>)
    returns (events: map<string, StoredEvent>)
    ensures events == AddMissing(members, siblings)
  {
    events := members;
    for i := 0 to |siblings|
      invariant AddMissing(events, siblings[i..]) == AddMissing(members, siblings)
    {
      assert siblings[i..][1..] == siblings[i + 1..];
      if siblings[i].id !in events {
        events := events[siblings[i].id := siblings[i]];
      }
    }
  }

  /** Copies the map's values out, in whatever order they come, and sorts them in place. */
  method OrderMembers(members: map<string, StoredEvent>) returns (ordered: seq<StoredEvent>)
    requires KeyedById(members)
    ensures ordered == NewestFirst(members)
  {
    var values := Records(members);
    AnyOrderSortsAlike(members, values);
    ordered := SortEventsNewestFirst(values);
  }

  method ToChainEvents(ordered: seq<StoredEvent>) returns (events: seq<ChainEvent>)
    ensures events == MapSeq(ToChainEvent, ordered)
  {
    hide ToChainEvent;
    events := [];
    for i := 0 to |ordered|
      invariant events == MapSeq(ToChainEvent, ordered[..i])
    {
      assert MapSeq(ToChainEvent, ordered[..i + 1]) == MapSeq(ToChainEvent, ordered[..i]) + [ToChainEvent(ordered[i])];
      events := events + [ToChainEvent(ordered[i])];
    }
    assert ordered[..|ordered|] == ordered;
  }

  /**
   * Builds the chain behind an event. The map of members is read in any order, yet the
   * chain is a function of what the store answered.
   */
  method BuildChain(source: Source, siblingsOf: string -> Result<seq<StoredEvent>>,
                    eventID: string, maxDepth: nat, maxEvents: nat)
    returns (r: Result<EventChain>)
    ensures r == ChainOf(source, siblingsOf, eventID, maxDepth, maxEvents)
    ensures AnswersFor(source, siblingsOf, eventID, maxDepth, maxEvents, r)
  {
    ChainAnswers(source, siblingsOf, eventID, maxDepth, maxEvents);
    var fetched := source(0, eventID);
    if fetched.Failed? { return Err(fetched.error); }
    if fetched.Missing? { return Err(NotFound); }
    var startEvent := fetched.event;

    var walked, _ := TraverseChain(source, 1, eventID, maxDepth, maxEvents);
    if walked.Err? { return Err(walked.error); }

    var events := IndexById(walked.value);
    if startEvent.chainID != "" {
      var siblings := siblingsOf(startEvent.chainID);
      if siblings.Err? { return Err(siblings.error); }
      events := AddSiblings(events, siblings.value);
    }

    var ordered := OrderMembers(events);
    var cause := FindRootCause(ordered);
    var chainEvents := ToChainEvents(ordered);
    return Ok(EventChain(startEvent.chainID, eventID, chainEvents, cause));
  }
}
