/**
 * The Redis backend (internal/storage/redis.go) over a model of the server: a map from
 * keys to records with deadlines, and a clock.
 */
module Redis {
  import opened Models
  import opened Ordering
  import opened Storage
  import opened RedisKeys

  datatype Record =
    | EventRecord(event: StoredEvent)
    | Members(ids: set<string>)
    | DeploymentRecord(deployment: Deployment)

  /** A deadline of None means that the key is kept for ever. */
  datatype Entry = Entry(record: Record, expiresAt: Option<int>)

  datatype Server = Server(db: map<string, Entry>, now: int)

  predicate Unexpired(now: int, deadline: Option<int>) {
    deadline.None? || now < deadline.value
  }

  /** The deadline of a key written now; a TTL of 0 keeps it for ever. */
  function Deadline(now: int, ttl: nat): Option<int> {
    if ttl == 0 then None else Some(now + ttl)
  }

  /** GET: an expired key is as good as absent. */
  function Get(s: Server, key: string): Option<Record> {
    if key in s.db && Unexpired(s.now, s.db[key].expiresAt) then Some(s.db[key].record) else None
  }

  /** SET with a TTL replaces the record and its deadline. */
  function Set(s: Server, key: string, record: Record, ttl: nat): Server {
    s.(db := s.db[key := Entry(record, Deadline(s.now, ttl))])
  }

  /** SADD adds to a live set and keeps its deadline, or starts a set without one. */
  function SAdd(s: Server, key: string, id: string): Server {
    match Get(s, key)
    case None => s.(db := s.db[key := Entry(Members({id}), None)])
    case Some(Members(ids)) => s.(db := s.db[key := Entry(Members(ids + {id}), s.db[key].expiresAt)])
    case Some(_) => s
  }

  /** EXPIRE moves the deadline of a live key. */
  function Expire(s: Server, key: string, ttl: nat): Server {
    if Get(s, key).Some? then s.(db := s.db[key := s.db[key].(expiresAt := Deadline(s.now, ttl))]) else s
  }

  /** The transaction of SaveEvent. */
  function SavedEvent(s: Server, event: StoredEvent, ttl: nat): Server {
    var s1 := Set(s, EventKey(event.id), EventRecord(event), ttl);
    if event.chainID == "" then s1
    else
      var s2 := SAdd(s1, ChainKey(event.chainID), event.id);
      if ttl > 0 then Expire(s2, ChainKey(event.chainID), ttl) else s2
  }

  function SavedDeployment(s: Server, d: Deployment, ttl: nat): Server {
    Set(s, RedisKeyOf(d), DeploymentRecord(d), ttl)
  }

  function MembersOf(s: Server, chainID: string): set<string> {
    match Get(s, ChainKey(chainID))
    case Some(Members(ids)) => ids
    case _ => {}
  }

  /** The live events among the given ids. */
  ghost function EventsAt(s: Server, ids: set<string>): set<StoredEvent> {
    set id | id in ids && Get(s, EventKey(id)).Some? && Get(s, EventKey(id)).value.EventRecord?
      :: Get(s, EventKey(id)).value.event
  }

  /** The events that the members of a chain set lead to. */
  ghost function ChainRead(s: Server, chainID: string): set<StoredEvent> {
    EventsAt(s, MembersOf(s, chainID))
  }

  /** Keys hold the kind of record that their prefix says. */
  ghost predicate WellTyped(s: Server) {
    && (forall id :: EventKey(id) in s.db ==>
          s.db[EventKey(id)].record.EventRecord? && s.db[EventKey(id)].record.event.id == id)
    && (forall c :: ChainKey(c) in s.db ==> s.db[ChainKey(c)].record.Members?)
    && (forall key :: key in s.db && IsDeploymentKey(key) ==>
          s.db[key].record.DeploymentRecord? && RedisKeyOf(s.db[key].record.deployment) == key)
  }

  /** The live deployments whose key starts with a prefix. */
  ghost function DeploymentsUnder(s: Server, prefix: string): set<Deployment> {
    set key | key in s.db && prefix <= key && Get(s, key).Some? && Get(s, key).value.DeploymentRecord?
      :: Get(s, key).value.deployment
  }

  /** All that is asked of MATCH: a star after a prefix free of glob characters accepts what starts with it. */
  ghost predicate StarMatchesPrefix(matches: (string, string) -> bool) {
    forall prefix, key :: GlobFree(prefix) ==> (matches(prefix + "*", key) <==> prefix <= key)
  }

  /**
   * The states that the server is in while a call reads from it: other clients may write
   * and time may pass between two commands. In a single state the server stands still.
   */
  ghost predicate During(states: set<Server>, first: Server) {
    first in states && forall s :: s in states ==> WellTyped(s)
  }

  /**
   * The pages of a SCAN: only matching keys, every one of them that is live throughout at
   * least once, in any order, repeated ones and expired ones included.
   */
  ghost predicate ScanOf(states: set<Server>, matches: (string, string) -> bool, pattern: string,
                         pages: seq<seq<string>>) {
    && (forall p, i :: 0 <= p < |pages| && 0 <= i < |pages[p]| ==> matches(pattern, pages[p][i]))
    && (forall key :: (forall s :: s in states ==> Get(s, key).Some?) && matches(pattern, key) ==>
          exists p, i :: 0 <= p < |pages| && 0 <= i < |pages[p]| && pages[p][i] == key)
  }

  /** Read i of page p finds the server in one of the states. */
  ghost predicate ReadsIn(states: set<Server>, view: nat -> nat -> Server, pages: seq<seq<string>>) {
    forall p, i :: 0 <= p < |pages| && 0 <= i < |pages[p]| ==> view(p)(i) in states
  }

  /** What was live throughout is found, and what is found was live at some time. */
  ghost predicate FoundDuring(states: set<Server>, prefix: string, found: set<Deployment>) {
    && (forall d :: d in found ==> exists s :: s in states && d in DeploymentsUnder(s, prefix))
    && (forall d :: (forall s :: s in states ==> d in DeploymentsUnder(s, prefix)) ==> d in found)
  }

  ghost predicate LiveThroughout(states: set<Server>, service: string, d: Deployment) {
    forall s :: s in states ==> d in RedisOfService(s, service)
  }

  /** No record of the service that was live throughout is newer than the answer. */
  ghost predicate LatestDuring(states: set<Server>, service: string, r: Result<Deployment>) {
    match r
    case Ok(d) =>
      && (exists s :: s in states && d in RedisOfService(s, service))
      && (forall e :: LiveThroughout(states, service, e) ==>
            e.deployedAt <= d.deployedAt && (e.deployedAt == d.deployedAt ==> !NamesAfter(d, e)))
    case Err(error) =>
      error == NotFound && forall e :: !LiveThroughout(states, service, e)
  }

  /** The live events that reads of the given ids find, each in its own state of the server. */
  ghost function EventsRead(view: string -> Server, ids: set<string>): set<StoredEvent> {
    set id | id in ids && Get(view(id), EventKey(id)).Some? && Get(view(id), EventKey(id)).value.EventRecord?
      :: Get(view(id), EventKey(id)).value.event
  }

  ghost predicate EventsDuring(states: set<Server>, ids: set<string>, found: set<StoredEvent>) {
    && (forall e :: e in found ==>
          e.id in ids && exists s :: s in states && Get(s, EventKey(e.id)) == Some(EventRecord(e)))
    && (forall e: StoredEvent ::
          e.id in ids && (forall s :: s in states ==> Get(s, EventKey(e.id)) == Some(EventRecord(e))) ==> e in found)
  }

  lemma NothingRead(view: string -> Server)
    ensures EventsRead(view, {}) == {}
  {
  }

  lemma HasItsId(s: Server, id: string)
    requires WellTyped(s)
    ensures match Get(s, EventKey(id)) case Some(EventRecord(e)) => e.id == id case _ => true
  {
  }

  lemma EventsReadMore(view: string -> Server, ids: set<string>, id: string)
    ensures EventsRead(view, ids + {id}) == EventsRead(view, ids) +
              match Get(view(id), EventKey(id)) case Some(EventRecord(e)) => {e} case _ => {}
  {
    var more := EventsRead(view, ids + {id});
    forall e | e in EventsRead(view, ids) ensures e in more {
      var k :| k in ids && Get(view(k), EventKey(k)) == Some(EventRecord(e));
      assert k in ids + {id};
    }
    if Get(view(id), EventKey(id)).Some? && Get(view(id), EventKey(id)).value.EventRecord? {
      assert id in ids + {id};
    }
  }

  /** Members that keep their event are found, whatever happens between the reads. */
  lemma ReadsAreDuring(states: set<Server>, first: Server, view: string -> Server, ids: set<string>)
    requires During(states, first) && forall id :: id in ids ==> view(id) in states
    ensures EventsDuring(states, ids, EventsRead(view, ids))
    ensures states == {first} ==> EventsRead(view, ids) == EventsAt(first, ids)
  {
    var found := EventsRead(view, ids);
    forall e | e in found
      ensures e.id in ids && view(e.id) in states && Get(view(e.id), EventKey(e.id)) == Some(EventRecord(e))
    {
      var id :| id in ids && Get(view(id), EventKey(id)) == Some(EventRecord(e));
      assert WellTyped(view(id)) && EventKey(id) in view(id).db;
    }
    forall e: StoredEvent | e.id in ids && (forall s :: s in states ==> Get(s, EventKey(e.id)) == Some(EventRecord(e)))
      ensures e in found
    {
      assert view(e.id) in states;
    }
  }

  // ---------------------------------------------------------------------------
  // What the commands leave behind, key by key

  /** Present, and not past its deadline. */
  predicate Live(s: Server, key: string) {
    key in s.db && (s.db[key].expiresAt.None? || s.now < s.db[key].expiresAt.value)
  }

  lemma GetIsLive(s: Server, key: string)
    ensures Get(s, key) == if Live(s, key) then Some(s.db[key].record) else None
  {
  }

  lemma MembersAreLive(s: Server, chainID: string)
    ensures MembersOf(s, chainID) ==
            if Live(s, "chain:" + chainID) && s.db["chain:" + chainID].record.Members?
            then s.db["chain:" + chainID].record.ids else {}
  {
    KeyLayout("", chainID, "", "");
  }

  /**
   * The event is under its key with a new deadline, and its id is in the set of its chain,
   * next to the ids that were there if the set was live. With a TTL the set gets the same
   * new deadline; without one it keeps what it had. Nothing else changes.
   */
  ghost predicate EventWritten(before: Server, after: Server, e: StoredEvent, ttl: nat) {
    var eventKey, chainKey := "event:" + e.id, "chain:" + e.chainID;
    var deadline := if ttl == 0 then None else Some(before.now + ttl);
    && after.now == before.now
    && eventKey in after.db && after.db[eventKey] == Entry(EventRecord(e), deadline)
    && (e.chainID != "" ==>
          && chainKey in after.db
          && (Live(before, chainKey) ==>
                && before.db[chainKey].record.Members?
                && after.db[chainKey].record == Members(before.db[chainKey].record.ids + {e.id})
                && after.db[chainKey].expiresAt == if ttl == 0 then before.db[chainKey].expiresAt else deadline)
          && (!Live(before, chainKey) ==> after.db[chainKey] == Entry(Members({e.id}), deadline)))
    && (forall key :: key != eventKey && (e.chainID == "" || key != chainKey) ==>
          && (key in after.db <==> key in before.db)
          && (key in before.db ==> after.db[key] == before.db[key]))
  }

  lemma SavedEventWritten(s: Server, e: StoredEvent, ttl: nat)
    requires WellTyped(s)
    ensures EventWritten(s, SavedEvent(s, e, ttl), e, ttl)
  {
    KindsApart();
    KeyLayout(e.id, e.chainID, "", "");
    assert Live(s, ChainKey(e.chainID)) ==> s.db[ChainKey(e.chainID)].record.Members?;
    assert {e.id} == {} + {e.id};
  }

  /** The failure, if any, of one command: of the network, or of encoding or decoding its record. */
  type Fault = Option<string>

  /**
   * The backend. server is the state of the server when a call begins. Each command is
   * given its fault; a command that fails leaves the server as it was. A call that reads
   * more than once is given the state of the server at each further read.
   */
  class RedisStorage {
    const ttl: nat
    var server: Server

    ghost predicate Valid()
      reads this
    {
      WellTyped(server)
    }

    /** Connects to a server that holds nothing yet. */
    constructor (ttl: nat, now: int)
      ensures this.ttl == ttl && server == Server(map[], now) && Valid()
    {
      this.ttl := ttl;
      server := Server(map[], now);
    }

    /** None for event is the nil record, which is refused. */
    method SaveEvent(fault: Fault, event: Option<StoredEvent>) returns (r: Result<()>)
      requires Valid()
      modifies this`server
      ensures Valid() && (r.Ok? <==> event.Some? && fault.None?)
      ensures event.Some? && fault.Some? ==> r == Err(Failure(fault.value))
      ensures server == if r.Ok? then SavedEvent(old(server), event.value, ttl) else old(server)
      ensures r.Ok? ==> EventWritten(old(server), server, event.value, ttl)
    {
      if event.None? { return Err(Failure("event is nil")); }
      if fault.Some? { return Err(Failure(fault.value)); }
      var e := event.value;
      ghost var before := server;
      server := Set(server, EventKey(e.id), EventRecord(e), ttl);
      if e.chainID != "" {
        var chainKey := ChainKey(e.chainID);
        server := SAdd(server, chainKey, e.id);
        if ttl > 0 {
          server := Expire(server, chainKey, ttl);
        }
      }
      SavedEventTyped(before, e, ttl);
      SavedEventWritten(before, e, ttl);
      return Ok(());
    }

    method GetEvent(fault: Fault, id: string) returns (r: Result<StoredEvent>)
      requires Valid()
      ensures fault.Some? ==> r == Err(Failure(fault.value))
      ensures fault.None? ==> r == match Get(server, EventKey(id))
                                   case Some(EventRecord(e)) => Ok(e)
                                   case _ => Err(NotFound)
      ensures fault.None? ==> (r.Ok? <==> Live(server, "event:" + id))
      ensures r.Ok? ==> server.db["event:" + id].record == EventRecord(r.value)
    {
      r := ReadEvent(server, fault, id);
    }

    /**
     * Reads the members in whatever order SMEMBERS gives them and skips those that are
     * gone. The first read that fails ends it.
     */
    method ReadMembers(members: set<string>, faults: string -> Fault, view: string -> Server)
      returns (r: Result<seq<StoredEvent>>)
      requires forall id :: id in members ==> WellTyped(view(id))
      ensures r.Ok? <==> forall id :: id in members ==> faults(id).None?
      ensures r.Err? ==> exists id :: id in members && faults(id).Some? && r == Err(Failure(faults(id).value))
      ensures r.Ok? ==>
                && Distinct(r.value) && RanksSeparate(EventRank, r.value)
                && Elements(r.value) == EventsRead(view, members)
    {
      hide EventsRead, Get, EventKey;
      var events: seq<StoredEvent> := [];
      var rest := members;
      assert EventsRead(view, members - rest) == {} by { NothingRead(view); assert members - rest == {}; }
      while rest != {}
        invariant rest <= members
        invariant forall id :: id in members - rest ==> faults(id).None?
        invariant forall i :: 0 <= i < |events| ==> events[i].id in members - rest
        invariant Elements(events) == EventsRead(view, members - rest)
        invariant forall i, j :: 0 <= i < j < |events| ==> events[i].id != events[j].id
        decreases rest
      {
        var id :| id in rest;
        var found := ReadEvent(view(id), faults(id), id);
        if found.Ok? { HasItsId(view(id), id); }
        if found.Err? && found.error != NotFound { return Err(found.error); }
        EventsReadMore(view, members - rest, id);
        assert members - (rest - {id}) == (members - rest) + {id};
        if found.Ok? {
          assert Elements(events + [found.value]) == Elements(events) + {found.value};
          events := events + [found.value];
        }
        rest := rest - {id};
      }
      assert members - rest == members;
      r := Ok(events);
    }

    /** The events of the members that the chain set has when the call begins. */
    method GetEventsByChain(listing: Fault, faults: string -> Fault, ghost states: set<Server>,
                            view: string -> Server, chainID: string)
      returns (r: Result<seq<StoredEvent>>)
      requires Valid() && During(states, server)
      requires forall id :: id in MembersOf(server, chainID) ==> view(id) in states
      ensures chainID == "" ==> r == Ok([])
      ensures chainID != "" && listing.Some? ==> r == Err(Failure(listing.value))
      ensures chainID != "" && listing.None? ==>
                && (r.Ok? <==> forall id :: id in MembersOf(server, chainID) ==> faults(id).None?)
                && (r.Err? ==> exists id :: id in MembersOf(server, chainID) && faults(id).Some? &&
                                            r == Err(Failure(faults(id).value)))
                && (r.Ok? ==>
                      && r.value == Newest(EventRank, EventsRead(view, MembersOf(server, chainID)))
                      && LatestFirst(r.value)
                      && EventsDuring(states, MembersOf(server, chainID), Elements(r.value))
                      && (states == {server} ==> r.value == Newest(EventRank, ChainRead(server, chainID))))
    {
      if chainID == "" { return Ok([]); }
      if listing.Some? { return Err(Failure(listing.value)); }
      ghost var ids := MembersOf(server, chainID);
      var found := ReadMembers(MembersOf(server, chainID), faults, view);
      if found.Err? { return found; }
      assert SortBy(EventRank, found.value) == Newest(EventRank, EventsRead(view, ids)) by {
        SortIsNewest(EventRank, found.value);
      }
      assert Elements(SortBy(EventRank, found.value)) == EventsRead(view, ids) by {
        SortByElements(EventRank, found.value);
      }
      assert LatestFirst(SortBy(EventRank, found.value)) by {
        SortByStrict(EventRank, found.value);
        StrictIsLatestFirst(SortBy(EventRank, found.value));
      }
      ReadsAreDuring(states, server, view, ids);
      var sorted := SortEventsNewestFirst(found.value);
      return Ok(sorted);
    }

    method SaveDeployment(fault: Fault, d: Option<Deployment>) returns (r: Result<()>)
      requires Valid()
      modifies this`server
      ensures Valid() && (r.Ok? <==> d.Some? && fault.None?)
      ensures d.Some? && fault.Some? ==> r == Err(Failure(fault.value))
      ensures server == if r.Ok? then SavedDeployment(old(server), d.value, ttl) else old(server)
      ensures r.Ok? ==>
                var key := "deployment:" + EscapeKeyPart(d.value.service) + ":" + EscapeKeyPart(d.value.environment);
                var deadline := if ttl == 0 then None else Some(old(server).now + ttl);
                && server.now == old(server).now
                && server.db == old(server).db[key := Entry(DeploymentRecord(d.value), deadline)]
    {
      if d.None? { return Err(Failure("deployment is nil")); }
      if fault.Some? { return Err(Failure(fault.value)); }
      KindsApart();
      server := Set(server, RedisKeyOf(d.value), DeploymentRecord(d.value), ttl);
      return Ok(());
    }

    method GetDeployment(fault: Fault, service: string, environment: string) returns (r: Result<Deployment>)
      requires Valid()
      ensures fault.Some? ==> r == Err(Failure(fault.value))
      ensures fault.None? ==> r == match Get(server, RedisDeploymentKey(service, environment))
                                   case Some(DeploymentRecord(d)) => Ok(d)
                                   case _ => Err(NotFound)
    {
      var key := RedisDeploymentKey(service, environment);
      assert key[..|DEPLOYMENT_PREFIX|] == DEPLOYMENT_PREFIX;
      r := ReadDeployment(server, fault, key);
    }

    /** Reads the keys of one page and skips those that are gone; the first read that fails ends it. */
    method ReadPage(keys: seq<string>, faults: nat -> Fault, view: nat -> Server) returns (r: Result<seq<Deployment>>)
      requires forall i :: 0 <= i < |keys| ==> IsDeploymentKey(keys[i]) && WellTyped(view(i))
      ensures r == match FirstFault(faults, |keys|)
                   case Some(message) => Err(Failure(message))
                   case None => Ok(ReadKeys(view, keys))
    {
      hide ReadKeys, Get, IsDeploymentKey, WellTyped;
      var deployments: seq<Deployment> := [];
      NoKeysRead(view);
      for k := 0 to |keys|
        invariant FirstFault(faults, k).None? && deployments == ReadKeys(view, keys[..k])
      {
        ReadKeysNext(view, keys, k);
        var found := ReadDeployment(view(k), faults(k), keys[k]);
        if found.Err? && found.error != NotFound {
          FirstFaultStays(faults, k + 1, |keys|);
          return Err(found.error);
        }
        if found.Ok? { deployments := deployments + [found.value]; }
      }
      assert keys[..|keys|] == keys;
      r := Ok(deployments);
    }

    /**
     * Follows the cursor through the pages and reads what each key still holds. listings
     * has the faults of the SCAN commands; faults and view have those of the reads of each
     * page and the server at each of them.
     */
    method ScanDeployments(ghost states: set<Server>, ghost matches: (string, string) -> bool, prefix: string,
                           pages: seq<seq<string>>, listings: nat -> Fault, faults: nat -> nat -> Fault,
                           view: nat -> nat -> Server)
      returns (r: Result<seq<Deployment>>)
      requires During(states, server) && ReadsIn(states, view, pages)
      requires StarMatchesPrefix(matches) && GlobFree(prefix) && DEPLOYMENT_PREFIX <= prefix
      requires ScanOf(states, matches, prefix + "*", pages)
      ensures match ScanFault(listings, faults, pages)
              case Some(message) => r == Err(Failure(message))
              case None =>
                && r.Ok? && FoundDuring(states, prefix, Elements(r.value))
                && (states == {server} ==> Elements(r.value) == DeploymentsUnder(server, prefix))
    {
      var deployments: seq<Deployment> := [];
      for p := 0 to |pages|
        invariant ScanFault(listings, faults, pages[..p]).None? && deployments == ReadPages(view, pages[..p])
      {
        assert pages[..p + 1][..p] == pages[..p];
        assert forall i :: 0 <= i < |pages[p]| ==> matches(prefix + "*", pages[p][i]);
        if listings(p).Some? {
          ScanFaultStays(listings, faults, pages, p + 1);
          return Err(Failure(listings(p).value));
        }
        var page := ReadPage(pages[p], faults(p), view(p));
        if page.Err? {
          ScanFaultStays(listings, faults, pages, p + 1);
          return page;
        }
        deployments := deployments + page.value;
      }
      assert pages[..|pages|] == pages;
      ScanFinds(states, server, view, matches, prefix, pages);
      r := Ok(deployments);
    }

    /** Scans the keys of a service, drops in place what belongs to another, and takes the newest. */
    method GetLatestDeployment(ghost states: set<Server>, ghost matches: (string, string) -> bool, service: string,
                               pages: seq<seq<string>>, listings: nat -> Fault, faults: nat -> nat -> Fault,
                               view: nat -> nat -> Server)
      returns (r: Result<Deployment>)
      requires During(states, server) && ReadsIn(states, view, pages) && StarMatchesPrefix(matches)
      requires ScanOf(states, matches, ServicePrefix(service) + "*", pages)
      ensures match ScanFault(listings, faults, pages)
              case Some(message) => r == Err(Failure(message))
              case None =>
                && LatestDuring(states, service, r)
                && (states == {server} ==>
                      r == RedisLatest(server, service) && MostRecent(RedisOfService(server, service), r))
    {
      ServicePrefixGlobFree(service);
      assert ServicePrefix(service)[..|DEPLOYMENT_PREFIX|] == DEPLOYMENT_PREFIX;
      var found := ScanDeployments(states, matches, ServicePrefix(service), pages, listings, faults, view);
      if found.Err? { return Err(found.error); }
      var deployments := new Deployment[|found.value|](i requires 0 <= i < |found.value| => found.value[i]);
      assert deployments[..] == found.value;
      var n := KeepService(deployments, service);
      ghost var candidates := deployments[..n];
      r := LatestDeployment(deployments, n);
      CandidatesDuring(states, service, found.value, candidates);
      if states == {server} {
        CandidatesLatest(server, service, found.value, candidates);
        FirstIsMostRecent(RedisOfService(server, service));
      }
    }
  }

  /** GET and decode, with the server in a given state. */
  method ReadEvent(s: Server, fault: Fault, id: string) returns (r: Result<StoredEvent>)
    requires WellTyped(s)
    ensures fault.Some? ==> r == Err(Failure(fault.value))
    ensures fault.None? ==> r == match Get(s, EventKey(id)) case Some(EventRecord(e)) => Ok(e) case _ => Err(NotFound)
  {
    if fault.Some? { return Err(Failure(fault.value)); }
    var found := Get(s, EventKey(id));
    if found.None? { return Err(NotFound); }
    return Ok(found.value.event);
  }

  method ReadDeployment(s: Server, fault: Fault, key: string) returns (r: Result<Deployment>)
    requires WellTyped(s) && IsDeploymentKey(key)
    ensures fault.Some? ==> r == Err(Failure(fault.value))
    ensures fault.None? ==> r == match Get(s, key) case Some(DeploymentRecord(d)) => Ok(d) case _ => Err(NotFound)
  {
    if fault.Some? { return Err(Failure(fault.value)); }
    var found := Get(s, key);
    if found.None? { return Err(NotFound); }
    return Ok(found.value.deployment);
  }

  /** The fault of the first of n reads that fails. */
  function FirstFault(faults: nat -> Fault, n: nat): Fault {
    if n == 0 then None
    else if FirstFault(faults, n - 1).Some? then FirstFault(faults, n - 1)
    else faults(n - 1)
  }

  lemma {:induction false} FirstFaultStays(faults: nat -> Fault, k: nat, n: nat)
    requires k <= n && FirstFault(faults, k).Some?
    ensures FirstFault(faults, n) == FirstFault(faults, k)
  {
    if k < n { FirstFaultStays(faults, k, n - 1); }
  }

  /** The fault that ends a scan: in each page, the SCAN comes before the reads. */
  function ScanFault(listings: nat -> Fault, faults: nat -> nat -> Fault, pages: seq<seq<string>>): Fault {
    if pages == [] then None
    else
      var last := |pages| - 1;
      var before := ScanFault(listings, faults, pages[..last]);
      if before.Some? then before
      else if listings(last).Some? then listings(last)
      else FirstFault(faults(last), |pages[last]|)
  }

  lemma {:induction false} ScanFaultStays(listings: nat -> Fault, faults: nat -> nat -> Fault,
                                          pages: seq<seq<string>>, p: nat)
    requires p <= |pages| && ScanFault(listings, faults, pages[..p]).Some?
    ensures ScanFault(listings, faults, pages) == ScanFault(listings, faults, pages[..p])
    decreases |pages|
  {
    if p < |pages| {
      var front := pages[..|pages| - 1];
      assert front[..p] == pages[..p];
      ScanFaultStays(listings, faults, front, p);
    } else {
      assert pages[..p] == pages;
    }
  }

  /** The first of n commands that fails, if one does. */
  ghost predicate IsFirstFault(faults: nat -> Fault, n: nat, fault: Fault) {
    match fault
    case None => forall i :: 0 <= i < n ==> faults(i).None?
    case Some(_) => exists i :: 0 <= i < n && faults(i) == fault && forall j :: 0 <= j < i ==> faults(j).None?
  }

  /** All commands of a page go through. */
  ghost predicate PageRead(listings: nat -> Fault, faults: nat -> nat -> Fault, pages: seq<seq<string>>, p: nat)
    requires p < |pages|
  {
    listings(p).None? && forall i :: 0 <= i < |pages[p]| ==> faults(p)(i).None?
  }

  /**
   * A scan fails exactly when one of its commands does, and with the fault of the first
   * one: page by page, the SCAN before the reads.
   */
  lemma {:induction false} ScanFailsIff(listings: nat -> Fault, faults: nat -> nat -> Fault, pages: seq<seq<string>>)
    ensures var fault := ScanFault(listings, faults, pages);
            && (fault.None? <==> forall p: nat :: p < |pages| ==> PageRead(listings, faults, pages, p))
            && (fault.Some? ==>
                  exists p: nat :: && p < |pages|
                    && (forall q: nat :: q < p ==> PageRead(listings, faults, pages, q))
                    && if listings(p).Some? then fault == listings(p)
                       else IsFirstFault(faults(p), |pages[p]|, fault))
    decreases |pages|
  {
    if pages != [] {
      var front, last := pages[..|pages| - 1], |pages| - 1;
      ScanFailsIff(listings, faults, front);
      FirstFaultIsFirst(faults(last), |pages[last]|);
      forall p: nat | p < |front|
        ensures PageRead(listings, faults, front, p) <==> PageRead(listings, faults, pages, p)
      {
        assert front[p] == pages[p];
      }
      assert PageRead(listings, faults, pages, last) <==>
             listings(last).None? && FirstFault(faults(last), |pages[last]|).None?;
    }
  }

  lemma {:induction false} FirstFaultIsFirst(faults: nat -> Fault, n: nat)
    ensures IsFirstFault(faults, n, FirstFault(faults, n))
  {
    if n > 0 { FirstFaultIsFirst(faults, n - 1); }
  }

  /** The deployments that the keys still hold when each is read, in key order. */
  function ReadKeys(view: nat -> Server, keys: seq<string>): seq<Deployment> {
    if keys == [] then []
    else
      var last := |keys| - 1;
      var front := ReadKeys(view, keys[..last]);
      match Get(view(last), keys[last])
      case Some(DeploymentRecord(d)) => front + [d]
      case _ => front
  }

  lemma NoKeysRead(view: nat -> Server)
    ensures ReadKeys(view, []) == []
  {
  }

  lemma ReadKeysNext(view: nat -> Server, keys: seq<string>, k: nat)
    requires k < |keys|
    ensures ReadKeys(view, keys[..k + 1]) == ReadKeys(view, keys[..k]) +
              match Get(view(k), keys[k]) case Some(DeploymentRecord(d)) => [d] case _ => []
  {
    assert keys[..k + 1][..k] == keys[..k];
  }

  function ReadPages(view: nat -> nat -> Server, pages: seq<seq<string>>): seq<Deployment> {
    if pages == [] then []
    else ReadPages(view, pages[..|pages| - 1]) + ReadKeys(view(|pages| - 1), pages[|pages| - 1])
  }

  lemma {:induction false} ReadKeysElements(view: nat -> Server, keys: seq<string>, d: Deployment)
    ensures d in ReadKeys(view, keys) <==>
            exists i :: 0 <= i < |keys| && Get(view(i), keys[i]) == Some(DeploymentRecord(d))
  {
    if keys != [] {
      var front := keys[..|keys| - 1];
      ReadKeysElements(view, front, d);
      assert forall i :: 0 <= i < |front| ==> front[i] == keys[i];
    }
  }

  lemma {:induction false} ReadPagesElements(view: nat -> nat -> Server, pages: seq<seq<string>>, d: Deployment)
    ensures d in ReadPages(view, pages) <==>
            exists p, i :: 0 <= p < |pages| && 0 <= i < |pages[p]| &&
                           Get(view(p)(i), pages[p][i]) == Some(DeploymentRecord(d))
  {
    if pages != [] {
      var front := pages[..|pages| - 1];
      ReadPagesElements(view, front, d);
      ReadKeysElements(view(|pages| - 1), pages[|pages| - 1], d);
      assert forall p :: 0 <= p < |front| ==> front[p] == pages[p];
    }
  }

  lemma UnderItsKey(s: Server, prefix: string, d: Deployment)
    requires WellTyped(s) && DEPLOYMENT_PREFIX <= prefix
    ensures d in DeploymentsUnder(s, prefix) <==>
            prefix <= RedisKeyOf(d) && Get(s, RedisKeyOf(d)) == Some(DeploymentRecord(d))
  {
    hide RedisKeyOf;
    if d in DeploymentsUnder(s, prefix) {
      var key :| key in s.db && prefix <= key && Get(s, key) == Some(DeploymentRecord(d));
      assert key[..|DEPLOYMENT_PREFIX|] == prefix[..|DEPLOYMENT_PREFIX|] == DEPLOYMENT_PREFIX;
    }
  }

  /** What is live throughout the scan is among its pages, and still there when it is read. */
  lemma LiveIsScanned(states: set<Server>, first: Server, view: nat -> nat -> Server,
                      matches: (string, string) -> bool, prefix: string, pages: seq<seq<string>>, d: Deployment)
    requires During(states, first) && ReadsIn(states, view, pages) && DEPLOYMENT_PREFIX <= prefix
    requires StarMatchesPrefix(matches) && GlobFree(prefix) && ScanOf(states, matches, prefix + "*", pages)
    requires forall s :: s in states ==> d in DeploymentsUnder(s, prefix)
    ensures d in ReadPages(view, pages)
  {
    hide DeploymentsUnder, RedisKeyOf, WellTyped;
    forall s | s in states ensures prefix <= RedisKeyOf(d) && Get(s, RedisKeyOf(d)) == Some(DeploymentRecord(d)) {
      UnderItsKey(s, prefix, d);
    }
    assert matches(prefix + "*", RedisKeyOf(d));
    var p, i :| 0 <= p < |pages| && 0 <= i < |pages[p]| && pages[p][i] == RedisKeyOf(d);
    assert view(p)(i) in states;
    ReadPagesElements(view, pages, d);
  }

  /** Whatever the order, the repetitions and the writes in between, a scan finds what is live throughout. */
  lemma ScanFinds(states: set<Server>, first: Server, view: nat -> nat -> Server,
                  matches: (string, string) -> bool, prefix: string, pages: seq<seq<string>>)
    requires During(states, first) && ReadsIn(states, view, pages) && DEPLOYMENT_PREFIX <= prefix
    requires StarMatchesPrefix(matches) && GlobFree(prefix) && ScanOf(states, matches, prefix + "*", pages)
    ensures FoundDuring(states, prefix, Elements(ReadPages(view, pages)))
    ensures states == {first} ==> Elements(ReadPages(view, pages)) == DeploymentsUnder(first, prefix)
  {
    var found := Elements(ReadPages(view, pages));
    forall d | d in found ensures exists s :: s in states && d in DeploymentsUnder(s, prefix) {
      ReadPagesElements(view, pages, d);
      var p, i :| 0 <= p < |pages| && 0 <= i < |pages[p]| && Get(view(p)(i), pages[p][i]) == Some(DeploymentRecord(d));
      assert matches(prefix + "*", pages[p][i]);
      assert view(p)(i) in states && d in DeploymentsUnder(view(p)(i), prefix);
    }
    forall d | forall s :: s in states ==> d in DeploymentsUnder(s, prefix) ensures d in found {
      LiveIsScanned(states, first, view, matches, prefix, pages, d);
    }
    if states == {first} {
      assert forall d :: d in found <==> d in DeploymentsUnder(first, prefix);
    }
  }

  /** Compacts the array in place to the records of one service, in their order. */
  method KeepService(deployments: array<Deployment>, service: string) returns (n: nat)
    modifies deployments
    ensures n <= deployments.Length
    ensures deployments[..n] == Select(ServiceIs(service), old(deployments[..]))
  {
    n := 0;
    ghost var before := deployments[..];
    for i := 0 to deployments.Length
      invariant n <= i
      invariant deployments[..n] == Select(ServiceIs(service), before[..i])
      invariant forall k :: i <= k < deployments.Length ==> deployments[k] == before[k]
    {
      SelectNext(ServiceIs(service), before, i);
      if deployments[i].service == service {
        deployments[n] := deployments[i];
        n := n + 1;
      }
    }
    assert before[..deployments.Length] == before;
  }

  /** The live deployments of a service, found under any key of its prefix. */
  ghost function RedisOfService(s: Server, service: string): set<Deployment> {
    set d | d in DeploymentsUnder(s, ServicePrefix(service)) && d.service == service
  }

  ghost function RedisLatest(s: Server, service: string): Result<Deployment> {
    First(Newest(DeploymentRank, RedisOfService(s, service)))
  }

  /** Records with the same service and environment sit under the same key. */
  lemma CandidatesSeparate(s: Server, service: string, candidates: seq<Deployment>)
    requires WellTyped(s) && Elements(candidates) == RedisOfService(s, service)
    ensures RanksSeparate(DeploymentRank, candidates)
  {
    assert ServicePrefix(service)[..|DEPLOYMENT_PREFIX|] == DEPLOYMENT_PREFIX;
    forall i | 0 <= i < |candidates|
      ensures Get(s, RedisKeyOf(candidates[i])) == Some(DeploymentRecord(candidates[i]))
    {
      assert candidates[i] in Elements(candidates);
    }
    forall i, j | 0 <= i < |candidates| && 0 <= j < |candidates| && candidates[i] != candidates[j]
      ensures DeploymentRank(candidates[i]) != DeploymentRank(candidates[j])
    {
      assert RedisKeyOf(candidates[i]) != RedisKeyOf(candidates[j]);
    }
  }

  lemma CandidatesLatest(s: Server, service: string, found: seq<Deployment>, candidates: seq<Deployment>)
    requires WellTyped(s) && Elements(found) == DeploymentsUnder(s, ServicePrefix(service))
    requires candidates == Select(ServiceIs(service), found)
    ensures First(SortBy(DeploymentRank, candidates)) == RedisLatest(s, service)
  {
    assert Elements(candidates) == RedisOfService(s, service) by {
      assert forall d :: d in found <==> d in Elements(found);
    }
    CandidatesSeparate(s, service, candidates);
    if candidates != [] {
      SortHead(DeploymentRank, candidates);
    }
  }

  lemma CandidatesDuring(states: set<Server>, service: string, found: seq<Deployment>, candidates: seq<Deployment>)
    requires FoundDuring(states, ServicePrefix(service), Elements(found)) && states != {}
    requires candidates == Select(ServiceIs(service), found)
    ensures LatestDuring(states, service, First(SortBy(DeploymentRank, candidates)))
  {
    hide DeploymentsUnder, DeploymentRank, Sorted, NamesAfter;
    var sorted := SortBy(DeploymentRank, candidates);
    SortBySorted(DeploymentRank, candidates);
    SortByElements(DeploymentRank, candidates);
    assert forall d :: d in sorted <==> d in candidates by {
      assert forall d :: d in sorted <==> d in Elements(sorted);
    }
    forall e | LiveThroughout(states, service, e) ensures e in sorted {
      LiveIsCandidate(states, service, found, e);
    }
    if sorted != [] {
      var d := sorted[0];
      assert d in candidates && d in Elements(found);
      var s :| s in states && d in DeploymentsUnder(s, ServicePrefix(service));
      assert d in RedisOfService(s, service);
      forall e | LiveThroughout(states, service, e)
        ensures e.deployedAt <= d.deployedAt && (e.deployedAt == d.deployedAt ==> !NamesAfter(d, e))
      {
        HeadByTime(sorted, e);
      }
    }
  }

  lemma LiveIsCandidate(states: set<Server>, service: string, found: seq<Deployment>, e: Deployment)
    requires FoundDuring(states, ServicePrefix(service), Elements(found)) && states != {}
    requires LiveThroughout(states, service, e)
    ensures e in found && e.service == service
  {
    hide DeploymentsUnder;
    forall s | s in states ensures e in DeploymentsUnder(s, ServicePrefix(service)) {
      assert e in RedisOfService(s, service);
    }
    var s :| s in states;
    assert e in RedisOfService(s, service);
    assert e in Elements(found);
  }

  lemma SetEventTyped(s: Server, event: StoredEvent, ttl: nat)
    requires WellTyped(s)
    ensures WellTyped(Set(s, EventKey(event.id), EventRecord(event), ttl))
  {
    KindsApart();
  }

  lemma SetMembersTyped(s: Server, chainID: string, entry: Entry)
    requires WellTyped(s) && entry.record.Members?
    ensures WellTyped(s.(db := s.db[ChainKey(chainID) := entry]))
  {
    KindsApart();
  }

  lemma SavedEventTyped(s: Server, event: StoredEvent, ttl: nat)
    requires WellTyped(s)
    ensures WellTyped(SavedEvent(s, event, ttl))
  {
    SetEventTyped(s, event, ttl);
    if event.chainID != "" {
      var s1 := Set(s, EventKey(event.id), EventRecord(event), ttl);
      var key := ChainKey(event.chainID);
      var s2 := SAdd(s1, key, event.id);
      SetMembersTyped(s1, event.chainID, s2.db[key]);
      assert s2 == s1.(db := s1.db[key := s2.db[key]]);
      var s3 := Expire(s2, key, ttl);
      SetMembersTyped(s2, event.chainID, s3.db[key]);
      assert s3 == s2.(db := s2.db[key := s3.db[key]]);
    }
  }
}
