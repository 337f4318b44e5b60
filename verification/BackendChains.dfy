/** The chain behind an event is the same on both backends. */
module BackendChains {
  import opened Models
  import opened Ordering
  import opened Graph
  import opened Storage
  import opened Correlator
  import opened Chains
  import opened RedisKeys
  import opened Redis
  import opened RedisRuns

  /** GetEvent of a server that stands still. */
  function RedisSource(s: Server): Source {
    (n: nat, id: string) => match Get(s, EventKey(id))
      case Some(EventRecord(e)) => Found(e)
      case _ => Missing
  }

  /** GetEventsByChain of a server that stands still. */
  ghost function RedisSiblings(s: Server): string -> Result<seq<StoredEvent>> {
    chainID => Ok(if chainID == "" then [] else Newest(EventRank, ChainRead(s, chainID)))
  }

  /** GetEventsByChain of a memory store that stands still. */
  ghost function MemorySiblings(events: map<string, StoredEvent>): string -> Result<seq<StoredEvent>> {
    chainID => Ok(if chainID == "" then [] else Newest(EventRank, EventsOfChain(events, chainID)))
  }

  /** The events of memory that were saved less than the TTL ago. */
  function FreshEvents(m: Memory, ttl: nat): map<string, StoredEvent> {
    map id | id in m.events && id in m.eventSavedAt && Fresh(m.eventSavedAt[id], m.now, ttl) :: m.events[id]
  }

  /** A memory store lists its chains, so what holds of chains over a fixed store holds of it. */
  lemma MemoryListsChains(events: map<string, StoredEvent>)
    requires KeyedById(events)
    ensures ListsChains(events, MemorySiblings(events))
  {
    forall c | c != "" ensures Elements(MemorySiblings(events)(c).value) == EventsOfChain(events, c) {
      var listed := Listing(EventsOfChain(events, c));
      SortByElements(EventRank, listed);
    }
  }

  /** The walk only sees what the source answers. */
  lemma {:induction false} RunCongruent(a: Source, b: Source, maxDepth: nat, maxEvents: nat, w: Walk)
    requires forall n, id :: a(n, id) == b(n, id)
    ensures Run(a, maxDepth, maxEvents, w) == Run(b, maxDepth, maxEvents, w)
    decreases Room(w, maxEvents), |w.queue|
  {
    if Active(w, maxEvents) {
      var fetched := a(w.fetches, w.queue[0].id);
      if !fetched.Failed? {
        StepShape(w, fetched, maxDepth);
        RunCongruent(a, b, maxDepth, maxEvents, Step(w, fetched, maxDepth));
      }
    }
  }

  lemma ChainCongruent(a: Source, b: Source,
                       f: string -> Result<seq<StoredEvent>>, g: string -> Result<seq<StoredEvent>>,
                       startID: string, maxDepth: nat, maxEvents: nat)
    requires forall n, id :: a(n, id) == b(n, id)
    requires forall c :: f(c) == g(c)
    ensures ChainOf(a, f, startID, maxDepth, maxEvents) == ChainOf(b, g, startID, maxDepth, maxEvents)
  {
    RunCongruent(a, b, maxDepth, maxEvents, Start(startID, 1));
  }

  lemma TrackedGet(s: Server, m: Memory, ttl: nat, id: string)
    requires EventsTracked(s, m, ttl)
    ensures Get(s, EventKey(id)) ==
            if id in m.events && Fresh(m.eventSavedAt[id], m.now, ttl) then Some(EventRecord(m.events[id])) else None
  {
    assert EventKey(id) in s.db <==> id in m.events;
  }

  lemma SameReads(s: Server, m: Memory, ttl: nat, n: nat, id: string)
    requires m.events.Keys == m.eventSavedAt.Keys
    requires Get(s, EventKey(id)) ==
             if id in m.events && Fresh(m.eventSavedAt[id], m.now, ttl) then Some(EventRecord(m.events[id])) else None
    ensures RedisSource(s)(n, id) == Snapshot(FreshEvents(m, ttl))(n, id)
  {
  }

  lemma SameSiblings(ops: seq<Op>, ttl: nat, c: string)
    requires ChainsStable(ops)
    ensures RedisSiblings(RedisRun(ops, ttl))(c) == MemorySiblings(FreshEvents(MemoryRun(ops), ttl))(c)
  {
    if c != "" {
      StableChainsAgree(ops, ttl, c);
      FreshOfChainIsChain(MemoryRun(ops), ttl, c);
    }
  }

  lemma FreshOfChainIsChain(m: Memory, ttl: nat, c: string)
    ensures EventsOfChain(FreshEvents(m, ttl), c) == FreshOfChain(m, c, ttl)
  {
    var live := FreshEvents(m, ttl);
    forall e | e in FreshOfChain(m, c, ttl) ensures e in EventsOfChain(live, c) {
      var id :| id in m.events && id in m.eventSavedAt && m.events[id].chainID == c
                && Fresh(m.eventSavedAt[id], m.now, ttl) && e == m.events[id];
      assert id in live && live[id] == e;
    }
  }

  lemma NothingExpires(s: Server, m: Memory)
    requires EventsTracked(s, m, 0)
    ensures FreshEvents(m, 0) == m.events
  {
  }

  lemma SameSource(s: Server, m: Memory, ttl: nat)
    requires EventsTracked(s, m, ttl)
    ensures forall n, id :: RedisSource(s)(n, id) == Snapshot(FreshEvents(m, ttl))(n, id)
  {
    forall n, id ensures RedisSource(s)(n, id) == Snapshot(FreshEvents(m, ttl))(n, id) {
      TrackedGet(s, m, ttl, id);
      SameReads(s, m, ttl, n, id);
    }
  }

  lemma RunTracked(ops: seq<Op>, ttl: nat)
    ensures EventsTracked(RedisRun(ops, ttl), MemoryRun(ops), ttl)
  {
    EveryRunKeepsIndex(ops, ttl);
  }

  /**
   * After every run in which the saves of an id name one chain, BuildChain answers on
   * Redis as it does on a memory store of the live events; without expiry, as it does
   * on memory itself.
   */
  lemma SameChainOnBothBackends(ops: seq<Op>, ttl: nat, startID: string, maxDepth: nat, maxEvents: nat)
    requires ChainsStable(ops)
    ensures var s, live := RedisRun(ops, ttl), FreshEvents(MemoryRun(ops), ttl);
            && ChainOf(RedisSource(s), RedisSiblings(s), startID, maxDepth, maxEvents)
               == ChainOf(Snapshot(live), MemorySiblings(live), startID, maxDepth, maxEvents)
            && (ttl == 0 ==> live == MemoryRun(ops).events)
  {
    RunTracked(ops, ttl);
    forall c ensures RedisSiblings(RedisRun(ops, ttl))(c) == MemorySiblings(FreshEvents(MemoryRun(ops), ttl))(c) {
      SameSiblings(ops, ttl, c);
    }
    var s, live := RedisRun(ops, ttl), FreshEvents(MemoryRun(ops), ttl);
    SameSource(s, MemoryRun(ops), ttl);
    ChainCongruent(RedisSource(s), Snapshot(live), RedisSiblings(s), MemorySiblings(live),
                   startID, maxDepth, maxEvents);
    if ttl == 0 { NothingExpires(RedisRun(ops, ttl), MemoryRun(ops)); }
  }
}
