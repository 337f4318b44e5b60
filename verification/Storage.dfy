/**
 * Filtering and ordering of listings (internal/storage/interface.go) and the in-memory
 * backend (internal/storage/memory.go).
 */
module Storage {
  import opened Models
  import opened Ordering

  /** None for `since` is Go's zero time; a limit of zero or less is no limit. */
  datatype ListFilter = ListFilter(environment: string, since: Option<int>, limit: int)

  predicate Matches(filter: ListFilter, d: Deployment) {
    && (filter.environment != "" ==> d.environment == filter.environment)
    && (filter.since.Some? ==> d.deployedAt >= filter.since.value)
  }

  function Select<T(!new)>(p: T -> bool, s: seq<T>): (r: seq<T>)
    ensures forall x :: x in r <==> x in s && p(x)
  {
    if s == [] then []
    else
      var front := Select(p, s[..|s| - 1]);
      assert s == s[..|s| - 1] + [s[|s| - 1]];
      if p(s[|s| - 1]) then front + [s[|s| - 1]] else front
  }

  lemma SelectNext<T(!new)>(p: T -> bool, s: seq<T>, i: nat)
    requires i < |s|
    ensures Select(p, s[..i + 1]) == Select(p, s[..i]) + (if p(s[i]) then [s[i]] else [])
  {
    assert s[..i + 1][..i] == s[..i];
  }

  function ServiceIs(service: string): Deployment -> bool {
    (d: Deployment) => d.service == service
  }

  function Cut<T>(s: seq<T>, limit: int): (r: seq<T>) {
    if limit > 0 && |s| > limit then s[..limit] else s
  }

  function First(s: seq<Deployment>): Result<Deployment> {
    if s == [] then Err(NotFound) else Ok(s[0])
  }

  /** The answer is a most recent deployment of these, the first by name among equally recent ones. */
  ghost predicate MostRecent(items: set<Deployment>, r: Result<Deployment>) {
    match r
    case Ok(d) =>
      d in items && forall e :: e in items ==>
        e.deployedAt <= d.deployedAt && (e.deployedAt == d.deployedAt ==> !NamesAfter(d, e))
    case Err(error) => error == NotFound && items == {}
  }

  lemma FirstIsMostRecent(items: set<Deployment>)
    ensures MostRecent(items, First(Newest(DeploymentRank, items)))
  {
    hide NamesAfter, Newest;
    NewestHead(items);
  }

  lemma SortedFirstIsMostRecent(s: seq<Deployment>)
    ensures MostRecent(Elements(s), First(SortBy(DeploymentRank, s)))
  {
    hide NamesAfter, SortBy, DeploymentRank, Sorted;
    var sorted := SortBy(DeploymentRank, s);
    SortBySorted(DeploymentRank, s);
    SortByElements(DeploymentRank, s);
    assert forall e :: e in s <==> e in sorted by {
      assert forall e :: e in s <==> e in Elements(s);
      assert forall e :: e in sorted <==> e in Elements(sorted);
    }
    if s != [] {
      assert s[0] in sorted && sorted[0] in s;
      forall e | e in s
        ensures e.deployedAt <= sorted[0].deployedAt
        ensures e.deployedAt == sorted[0].deployedAt ==> !NamesAfter(sorted[0], e)
      {
        HeadByTime(sorted, e);
      }
    }
  }

  /** Copies the matching deployments, sorts the copy in place and cuts it to the limit. */
  method ApplyFilter(deployments: seq<Deployment>, filter: ListFilter) returns (page: seq<Deployment>)
    ensures page == Cut(SortBy(DeploymentRank, Select(d => Matches(filter, d), deployments)), filter.limit)
  {
    hide SortBy, DeploymentRank, Matches;
    var kept: seq<Deployment> := [];
    for i := 0 to |deployments|
      invariant kept == Select(d => Matches(filter, d), deployments[..i])
    {
      SelectNext(d => Matches(filter, d), deployments, i);
      if Matches(filter, deployments[i]) { kept := kept + [deployments[i]]; }
    }
    assert deployments[..|deployments|] == deployments;
    var cells := new Deployment[|kept|](i requires 0 <= i < |kept| => kept[i]);
    assert cells[..cells.Length] == kept;
    SortInPlace(DeploymentRank, cells, cells.Length);
    page := cells[..cells.Length];
    if filter.limit > 0 && |page| > filter.limit {
      page := page[..filter.limit];
    }
  }

  /** Sorts the first n candidates in place and returns the newest. */
  method LatestDeployment(candidates: array<Deployment>, n: nat) returns (r: Result<Deployment>)
    requires n <= candidates.Length
    modifies candidates
    ensures r == First(SortBy(DeploymentRank, old(candidates[..n])))
    ensures MostRecent(Elements(old(candidates[..n])), r)
  {
    ghost var before := candidates[..n];
    SortedFirstIsMostRecent(before);
    if n == 0 { return Err(NotFound); }
    SortInPlace(DeploymentRank, candidates, n);
    assert candidates[0] == candidates[..n][0];
    return Ok(candidates[0]);
  }

  /** Sorts a list of events in place, newest first. */
  method SortEventsNewestFirst(events: seq<StoredEvent>) returns (sorted: seq<StoredEvent>)
    ensures sorted == SortBy(EventRank, events)
  {
    var cells := new StoredEvent[|events|](i requires 0 <= i < |events| => events[i]);
    assert cells[..cells.Length] == events;
    SortInPlace(EventRank, cells, cells.Length);
    sorted := cells[..cells.Length];
  }

  function DeploymentKey(service: string, environment: string): string {
    service + "\0" + environment
  }

  function KeyOf(d: Deployment): string {
    DeploymentKey(d.service, d.environment)
  }

  /** Each record sits under the key of its own service and environment. */
  predicate WellKeyed(deployments: map<string, Deployment>) {
    forall k :: k in deployments ==> KeyOf(deployments[k]) == k
  }

  ghost function OfService(deployments: map<string, Deployment>, service: string): set<Deployment> {
    set k | k in deployments && deployments[k].service == service :: deployments[k]
  }

  ghost function Matching(deployments: map<string, Deployment>, filter: ListFilter): set<Deployment> {
    set k | k in deployments && Matches(filter, deployments[k]) :: deployments[k]
  }

  /** The current deployment of a service: the newest over its environments. */
  ghost function Latest(deployments: map<string, Deployment>, service: string): Result<Deployment> {
    First(Newest(DeploymentRank, OfService(deployments, service)))
  }

  /** What is the most recent of a service, in terms of the store. */
  lemma ServiceMostRecent(deployments: map<string, Deployment>, service: string, r: Result<Deployment>)
    requires MostRecent(OfService(deployments, service), r)
    ensures match r
            case Ok(d) =>
              && d in deployments.Values && d.service == service
              && forall e :: e in deployments.Values && e.service == service ==>
                   && e.deployedAt <= d.deployedAt
                   && (e.deployedAt == d.deployedAt ==> !StringLess(e.environment, d.environment))
            case Err(error) =>
              error == NotFound && forall e :: e in deployments.Values ==> e.service != service
  {
    forall e | e in deployments.Values && e.service == service ensures e in OfService(deployments, service) {
      var k :| k in deployments && deployments[k] == e;
    }
  }

  /** A page of a listing, in terms of the records, the filter's fields and times. */
  ghost predicate IsPage(records: set<Deployment>, filter: ListFilter, page: seq<Deployment>) {
    // what matches, latest first with ties by name
    && (forall d :: d in page ==> d in records && Selected(filter, d))
    && (forall i, j :: 0 <= i < j < |page| ==>
          || page[i].deployedAt > page[j].deployedAt
          || (page[i].deployedAt == page[j].deployedAt && NamesAfter(page[j], page[i])))
    // all of it, unless the limit is reached; then what is left out is no later
    && (filter.limit > 0 ==> |page| <= filter.limit)
    && (forall d, o :: o in records && Selected(filter, o) && o !in page ==>
          && 0 < filter.limit == |page|
          && (d in page ==> o.deployedAt <= d.deployedAt))
  }

  /** The environment, if one is asked for, and no earlier than the time asked for. */
  predicate Selected(filter: ListFilter, d: Deployment) {
    && (filter.environment == "" || d.environment == filter.environment)
    && (filter.since.None? || filter.since.value <= d.deployedAt)
  }

  lemma FirstFound(items: set<Deployment>)
    ensures First(Newest(DeploymentRank, items)).Ok? <==> items != {}
  {
    var listed := Listing(items);
    assert |listed| > 0 ==> listed[0] in Elements(listed);
    assert listed == [] <==> items == {};
  }

  lemma DeploymentsSeparate(deployments: map<string, Deployment>, s: seq<Deployment>)
    requires WellKeyed(deployments) && forall i :: 0 <= i < |s| ==> s[i] in deployments.Values
    ensures RanksSeparate(DeploymentRank, s)
  {
  }

  /** Later events first; those of one time by id. */
  ghost predicate LatestFirst(events: seq<StoredEvent>) {
    forall i, j :: 0 <= i < j < |events| ==>
      || events[i].timestamp > events[j].timestamp
      || (events[i].timestamp == events[j].timestamp && StringLess(events[i].id, events[j].id))
  }

  lemma StrictIsLatestFirst(events: seq<StoredEvent>)
    requires StrictlySorted(EventRank, events)
    ensures LatestFirst(events)
  {
    EventsStrictlyByTime(events);
  }

  lemma ChainListing(events: map<string, StoredEvent>, chainID: string)
    requires KeyedById(events)
    ensures var listed := Newest(EventRank, EventsOfChain(events, chainID));
            && LatestFirst(listed)
            && forall e :: e in listed <==> e in events.Values && e.chainID == chainID
  {
    hide StrictlySorted, EventRank, Newest;
    var items := EventsOfChain(events, chainID);
    var unsorted, listed := Listing(items), Newest(EventRank, items);
    forall i | 0 <= i < |unsorted| ensures unsorted[i] in events.Values {
      assert unsorted[i] in Elements(unsorted);
    }
    EventsSeparate(events, unsorted);
    NewestStrict(EventRank, items);
    StrictIsLatestFirst(listed);
    forall e ensures e in listed <==> e in events.Values && e.chainID == chainID {
      assert e in listed <==> e in Elements(listed);
      if e in events.Values {
        var id :| id in events && events[id] == e;
      }
    }
  }

  lemma EventsSeparate(events: map<string, StoredEvent>, s: seq<StoredEvent>)
    requires KeyedById(events) && forall i :: 0 <= i < |s| ==> s[i] in events.Values
    ensures RanksSeparate(EventRank, s)
  {
  }

  /** The in-memory backend. cancelled is the error of a request that was given up. */
  class MemoryStorage {
    var deployments: map<string, Deployment>
    var events: map<string, StoredEvent>

    ghost predicate Valid()
      reads this
    {
      WellKeyed(deployments) && KeyedById(events)
    }

    constructor ()
      ensures Valid() && deployments == map[] && events == map[]
    {
      deployments, events := map[], map[];
    }

    /** None for d is the nil record, which is refused. */
    method SaveDeployment(cancelled: Option<Error>, d: Option<Deployment>) returns (r: Result<()>)
      requires Valid()
      modifies this`deployments
      ensures Valid()
      ensures r.Ok? <==> cancelled.None? && d.Some?
      ensures deployments == if r.Ok? then old(deployments)[KeyOf(d.value) := d.value] else old(deployments)
    {
      if cancelled.Some? { return Err(cancelled.value); }
      if d.None? { return Err(Failure("deployment is nil")); }
      deployments := deployments[KeyOf(d.value) := d.value];
      return Ok(());
    }

    method SaveEvent(cancelled: Option<Error>, event: Option<StoredEvent>) returns (r: Result<()>)
      requires Valid()
      modifies this`events
      ensures Valid()
      ensures r.Ok? <==> cancelled.None? && event.Some?
      ensures events == if r.Ok? then old(events)[event.value.id := event.value] else old(events)
    {
      if cancelled.Some? { return Err(cancelled.value); }
      if event.None? { return Err(Failure("event is nil")); }
      events := events[event.value.id := event.value];
      return Ok(());
    }

    method GetEvent(cancelled: Option<Error>, id: string) returns (r: Result<StoredEvent>)
      ensures cancelled.Some? ==> r == Err(cancelled.value)
      ensures cancelled.None? ==> r == if id in events then Ok(events[id]) else Err(NotFound)
    {
      if cancelled.Some? { return Err(cancelled.value); }
      if id !in events { return Err(NotFound); }
      return Ok(events[id]);
    }

    method GetDeployment(cancelled: Option<Error>, service: string, environment: string)
      returns (r: Result<Deployment>)
      ensures cancelled.Some? ==> r == Err(cancelled.value)
      ensures cancelled.None? ==>
                r == if DeploymentKey(service, environment) in deployments
                     then Ok(deployments[DeploymentKey(service, environment)]) else Err(NotFound)
    {
      if cancelled.Some? { return Err(cancelled.value); }
      var key := DeploymentKey(service, environment);
      if key !in deployments { return Err(NotFound); }
      return Ok(deployments[key]);
    }

    /** Ranges over the map in any order; the answer does not depend on it. */
    method GetLatestDeployment(cancelled: Option<Error>, service: string) returns (r: Result<Deployment>)
      requires Valid()
      ensures cancelled.Some? ==> r == Err(cancelled.value)
      ensures cancelled.None? ==> r == Latest(deployments, service)
      ensures cancelled.None? ==>
                match r
                case Ok(d) =>
                  && d in deployments.Values && d.service == service
                  && forall e :: e in deployments.Values && e.service == service ==>
                       && e.deployedAt <= d.deployedAt
                       && (e.deployedAt == d.deployedAt ==> !StringLess(e.environment, d.environment))
                case Err(error) =>
                  error == NotFound && forall e :: e in deployments.Values ==> e.service != service
    {
      if cancelled.Some? { return Err(cancelled.value); }
      var all := Records(deployments);
      var candidates := Select(ServiceIs(service), all);
      assert Elements(candidates) == OfService(deployments, service) by {
        assert forall d :: d in all <==> d in Elements(all);
      }
      DeploymentsSeparate(deployments, candidates);
      var cells := new Deployment[|candidates|](i requires 0 <= i < |candidates| => candidates[i]);
      assert cells[..cells.Length] == candidates;
      r := LatestDeployment(cells, cells.Length);
      ServiceMostRecent(deployments, service, r);
      if candidates != [] {
        SortHead(DeploymentRank, candidates);
      } else {
        assert OfService(deployments, service) == {};
      }
    }

    method ListDeployments(cancelled: Option<Error>, filter: ListFilter) returns (r: Result<seq<Deployment>>)
      requires Valid()
      ensures cancelled.Some? ==> r == Err(cancelled.value)
      ensures cancelled.None? ==>
                r == Ok(Cut(Newest(DeploymentRank, Matching(deployments, filter)), filter.limit))
      ensures cancelled.None? ==> r.Ok? && IsPage(deployments.Values, filter, r.value)
    {
      if cancelled.Some? { return Err(cancelled.value); }
      var all := Records(deployments);
      var page := ApplyFilter(all, filter);
      ghost var kept := Select(d => Matches(filter, d), all);
      assert Elements(kept) == Matching(deployments, filter) by {
        assert forall d :: d in all <==> d in Elements(all);
      }
      DeploymentsSeparate(deployments, kept);
      SelectDistinct(d => Matches(filter, d), all);
      SortIsNewest(DeploymentRank, kept);
      ListingIsPage(deployments, filter);
      r := Ok(page);
    }

    method GetEventsByChain(cancelled: Option<Error>, chainID: string) returns (r: Result<seq<StoredEvent>>)
      requires Valid()
      ensures cancelled.Some? ==> r == Err(cancelled.value)
      ensures cancelled.None? ==>
                r == Ok(if chainID == "" then [] else Newest(EventRank, EventsOfChain(events, chainID)))
      ensures cancelled.None? ==>
                && r.Ok? && LatestFirst(r.value)
                && forall e :: e in r.value <==> chainID != "" && e in events.Values && e.chainID == chainID
    {
      if cancelled.Some? { return Err(cancelled.value); }
      if chainID == "" { return Ok([]); }
      var all := Records(events);
      var found := Select((e: StoredEvent) => e.chainID == chainID, all);
      assert Elements(found) == EventsOfChain(events, chainID) by {
        assert forall e :: e in all <==> e in Elements(all);
      }
      assert SortBy(EventRank, found) == Newest(EventRank, EventsOfChain(events, chainID)) by {
        EventsSeparate(events, found);
        SelectDistinct((e: StoredEvent) => e.chainID == chainID, all);
        SortIsNewest(EventRank, found);
      }
      var sorted := SortEventsNewestFirst(found);
      ChainListing(events, chainID);
      r := Ok(sorted);
    }
  }

  /** The values of a map that holds no value twice, each once, in any order. */
  method Records<T(==)>(m: map<string, T>) returns (values: seq<T>)
    requires forall j, k :: j in m && k in m && j != k ==> m[j] != m[k]
    ensures Distinct(values) && Elements(values) == m.Values
  {
    values := [];
    ghost var taken: seq<string> := [];
    var rest := m.Keys;
    while rest != {}
      invariant rest <= m.Keys && |taken| == |values|
      invariant forall i :: 0 <= i < |taken| ==> taken[i] in m.Keys - rest && values[i] == m[taken[i]]
      invariant forall k :: k in m.Keys - rest ==> k in taken
      invariant Distinct(taken)
      decreases rest
    {
      var k :| k in rest;
      values, taken := values + [m[k]], taken + [k];
      rest := rest - {k};
    }
    forall v | v in m.Values ensures v in values {
      var k :| k in m && m[k] == v;
      assert k in taken;
    }
  }

  lemma {:induction false} SelectDistinct<T(!new)>(p: T -> bool, s: seq<T>)
    requires Distinct(s)
    ensures Distinct(Select(p, s))
  {
    if s != [] {
      SelectDistinct(p, s[..|s| - 1]);
      assert s[|s| - 1] !in s[..|s| - 1];
    }
  }

  // ---------------------------------------------------------------------------
  // Listings are true top-k pages

  lemma MatchingNewest(deployments: map<string, Deployment>, filter: ListFilter)
    requires WellKeyed(deployments)
    ensures var all := Newest(DeploymentRank, Matching(deployments, filter));
            StrictlySorted(DeploymentRank, all) && Elements(all) == Matching(deployments, filter)
  {
    var listed := Listing(Matching(deployments, filter));
    forall i | 0 <= i < |listed| ensures listed[i] in deployments.Values {
      assert listed[i] in Elements(listed);
    }
    DeploymentsSeparate(deployments, listed);
    NewestStrict(DeploymentRank, Matching(deployments, filter));
  }

  /**
   * A page is strictly ordered, holds only matches, is as long as the limit allows, and
   * every match left out belongs after every record on it. A smaller limit gives a
   * prefix.
   */
  lemma ListingIsTopK(deployments: map<string, Deployment>, filter: ListFilter, smaller: int)
    requires WellKeyed(deployments)
    ensures var page := Cut(Newest(DeploymentRank, Matching(deployments, filter)), filter.limit);
            && StrictlySorted(DeploymentRank, page)
            && Elements(page) <= Matching(deployments, filter)
            && (filter.limit > 0 ==> |page| <= filter.limit)
            && (filter.limit <= 0 || |page| < filter.limit ==> Elements(page) == Matching(deployments, filter))
            && (forall d, o :: d in page && o in Matching(deployments, filter) && o !in page ==>
                  Before(DeploymentRank(d), DeploymentRank(o)))
            && (0 < smaller <= filter.limit || (0 < smaller && filter.limit <= 0) ==>
                  Cut(Newest(DeploymentRank, Matching(deployments, filter)), smaller) <= page)
  {
    hide StrictlySorted, Matching, DeploymentRank, Cut, Before, Newest, WellKeyed;
    MatchingNewest(deployments, filter);
    CutIsTopK(DeploymentRank, Newest(DeploymentRank, Matching(deployments, filter)), filter.limit, smaller);
  }

  /** The first part of a strictly ordered sequence goes before the rest of it. */
  lemma CutIsTopK<T>(rank: T -> Rank, all: seq<T>, limit: int, smaller: int)
    requires StrictlySorted(rank, all)
    ensures var page := Cut(all, limit);
            && StrictlySorted(rank, page)
            && Elements(page) <= Elements(all)
            && (limit > 0 ==> |page| <= limit)
            && (limit <= 0 || |page| < limit ==> page == all)
            && (forall d, o :: d in page && o in Elements(all) && o !in page ==> Before(rank(d), rank(o)))
            && (0 < smaller <= limit || (0 < smaller && limit <= 0) ==> Cut(all, smaller) <= page)
  {
    var page := Cut(all, limit);
    forall d, o | d in page && o in Elements(all) && o !in page ensures Before(rank(d), rank(o)) {
      var i :| 0 <= i < |page| && page[i] == d;
      var j :| 0 <= j < |all| && all[j] == o;
      assert page[i] == all[i];
      assert forall k :: 0 <= k < |page| ==> all[k] == page[k];
    }
  }

  lemma MatchingIsSelected(deployments: map<string, Deployment>, filter: ListFilter, d: Deployment)
    ensures d in Matching(deployments, filter) <==> d in deployments.Values && Selected(filter, d)
  {
    if d in deployments.Values {
      var k :| k in deployments && deployments[k] == d;
    }
  }

  lemma ListingIsPage(deployments: map<string, Deployment>, filter: ListFilter)
    requires WellKeyed(deployments)
    ensures IsPage(deployments.Values, filter,
                   Cut(Newest(DeploymentRank, Matching(deployments, filter)), filter.limit))
  {
    hide StrictlySorted, DeploymentRank, Before, Newest, WellKeyed, NamesAfter, Selected, Matching;
    var page := Cut(Newest(DeploymentRank, Matching(deployments, filter)), filter.limit);
    ListingIsTopK(deployments, filter, 0);
    DeploymentsStrictlyByTime(page);
    forall d ensures d in Matching(deployments, filter) <==> d in deployments.Values && Selected(filter, d) {
      MatchingIsSelected(deployments, filter, d);
    }
    forall d | d in page ensures d in Matching(deployments, filter) {
      assert d in Elements(page);
    }
    forall o | o in Matching(deployments, filter) && o !in page ensures 0 < filter.limit == |page| {
      assert o !in Elements(page);
    }
    forall d, o | d in page && o in Matching(deployments, filter) && o !in page ensures o.deployedAt <= d.deployedAt {
      BeforeIsLater(d, o);
    }
  }

  lemma BeforeIsLater(d: Deployment, o: Deployment)
    requires Before(DeploymentRank(d), DeploymentRank(o))
    ensures o.deployedAt <= d.deployedAt
  {
  }

  const EVERYTHING := ListFilter("", None, 0)

  lemma OfServiceNewest(deployments: map<string, Deployment>, service: string)
    requires WellKeyed(deployments)
    ensures var mine := Newest(DeploymentRank, OfService(deployments, service));
            StrictlySorted(DeploymentRank, mine) && Elements(mine) == OfService(deployments, service)
  {
    var listed := Listing(OfService(deployments, service));
    forall i | 0 <= i < |listed| ensures listed[i] in deployments.Values {
      assert listed[i] in Elements(listed);
    }
    DeploymentsSeparate(deployments, listed);
    NewestStrict(DeploymentRank, OfService(deployments, service));
  }

  /** The first of the records of a service in an ordered list of all records. */
  lemma FirstOfService(all: seq<Deployment>, mine: seq<Deployment>, service: string)
    requires StrictlySorted(DeploymentRank, all) && StrictlySorted(DeploymentRank, mine)
    requires forall d :: d in mine <==> d in all && d.service == service
    ensures match First(mine)
            case Ok(d) => exists i :: && 0 <= i < |all| && all[i] == d && d.service == service
                                      && forall j :: 0 <= j < i ==> all[j].service != service
            case Err(e) => e == NotFound && forall d :: d in all ==> d.service != service
  {
    if mine != [] {
      var d := mine[0];
      assert d in mine;
      var i :| 0 <= i < |all| && all[i] == d;
      forall x | x in all && x.service == service ensures x == d || Before(DeploymentRank(d), DeploymentRank(x)) {
        assert x in mine;
      }
      forall j | 0 <= j < i ensures all[j].service != service {
        BeforeTotal(DeploymentRank(all[j]), DeploymentRank(d));
      }
      assert all[i] == d && d.service == service;
    } else {
      assert forall d :: d in all && d.service == service ==> d in mine;
    }
  }

  lemma FullListing(deployments: map<string, Deployment>)
    requires WellKeyed(deployments)
    ensures var all := Cut(Newest(DeploymentRank, Matching(deployments, EVERYTHING)), EVERYTHING.limit);
            StrictlySorted(DeploymentRank, all) && Elements(all) == deployments.Values
  {
    MatchingNewest(deployments, EVERYTHING);
    forall d | d in deployments.Values ensures d in Matching(deployments, EVERYTHING) {
      var k :| k in deployments && deployments[k] == d;
    }
  }

  /** The current deployment of a service is its first entry in the full listing. */
  lemma LatestIsFirstListed(deployments: map<string, Deployment>, service: string)
    requires WellKeyed(deployments)
    ensures var all := Cut(Newest(DeploymentRank, Matching(deployments, EVERYTHING)), EVERYTHING.limit);
            match Latest(deployments, service)
            case Ok(d) => exists i :: && 0 <= i < |all| && all[i] == d && d.service == service
                                      && forall j :: 0 <= j < i ==> all[j].service != service
            case Err(e) => e == NotFound && forall d :: d in all ==> d.service != service
  {
    FullListing(deployments);
    OfServiceNewest(deployments, service);
    var all := Cut(Newest(DeploymentRank, Matching(deployments, EVERYTHING)), EVERYTHING.limit);
    var mine := Newest(DeploymentRank, OfService(deployments, service));
    SameMembers(deployments, all, mine, service);
    FirstOfService(all, mine, service);
  }

  lemma SameMembers(deployments: map<string, Deployment>, all: seq<Deployment>, mine: seq<Deployment>, service: string)
    requires Elements(all) == deployments.Values && Elements(mine) == OfService(deployments, service)
    ensures forall d :: d in mine <==> d in all && d.service == service
  {
    forall d ensures d in mine <==> d in all && d.service == service {
      assert d in mine <==> d in Elements(mine);
      assert d in all <==> d in Elements(all);
    }
  }
}
