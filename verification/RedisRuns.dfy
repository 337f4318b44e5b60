/**
 * Runs of saves and clock ticks on the Redis backend, against the same saves on the
 * in-memory backend with the time of each save noted beside it.
 */
module RedisRuns {
  import opened Models
  import opened Ordering
  import opened Storage
  import opened RedisKeys
  import opened Redis

  datatype Op = SaveEvent(event: StoredEvent) | SaveDeployment(deployment: Deployment) | Tick(elapsed: nat)

  function RedisStep(s: Server, op: Op, ttl: nat): Server {
    match op
    case SaveEvent(e) => SavedEvent(s, e, ttl)
    case SaveDeployment(d) => SavedDeployment(s, d, ttl)
    case Tick(elapsed) => s.(now := s.now + elapsed)
  }

  function RedisRun(ops: seq<Op>, ttl: nat): Server {
    if ops == [] then Server(map[], 0) else RedisStep(RedisRun(ops[..|ops| - 1], ttl), ops[|ops| - 1], ttl)
  }

  /** The two maps of MemoryStorage, and when each key was last written. */
  datatype Memory = Memory(
    events: map<string, StoredEvent>,
    deployments: map<string, Deployment>,
    eventSavedAt: map<string, int>,
    deploymentSavedAt: map<string, int>,
    now: int)

  function MemoryStep(m: Memory, op: Op): Memory {
    match op
    case SaveEvent(e) => m.(events := m.events[e.id := e], eventSavedAt := m.eventSavedAt[e.id := m.now])
    case SaveDeployment(d) =>
      m.(deployments := m.deployments[KeyOf(d) := d], deploymentSavedAt := m.deploymentSavedAt[KeyOf(d) := m.now])
    case Tick(elapsed) => m.(now := m.now + elapsed)
  }

  function MemoryRun(ops: seq<Op>): Memory {
    if ops == [] then Memory(map[], map[], map[], map[], 0)
    else MemoryStep(MemoryRun(ops[..|ops| - 1]), ops[|ops| - 1])
  }

  /** Saved less than the TTL ago, or kept for ever. */
  predicate Fresh(savedAt: int, now: int, ttl: nat) {
    Unexpired(now, Deadline(savedAt, ttl))
  }

  ghost predicate SavedUnder(ops: seq<Op>, id: string, chainID: string) {
    exists i :: 0 <= i < |ops| && ops[i].SaveEvent? && ops[i].event.id == id && ops[i].event.chainID == chainID
  }

  // ---------------------------------------------------------------------------
  // How long an event is kept

  /** The time that passes during a run. */
  function Elapsed(ops: seq<Op>): nat {
    if ops == [] then 0
    else Elapsed(ops[..|ops| - 1]) + match ops[|ops| - 1] case Tick(elapsed) => elapsed case _ => 0
  }

  lemma {:induction false} EventStays(ops: seq<Op>, e: StoredEvent, rest: seq<Op>, ttl: nat)
    requires forall i :: 0 <= i < |rest| && rest[i].SaveEvent? ==> rest[i].event.id != e.id
    ensures var s0, s := RedisRun(ops, ttl), RedisRun(ops + [SaveEvent(e)] + rest, ttl);
            && EventKey(e.id) in s.db && s.db[EventKey(e.id)] == Entry(EventRecord(e), Deadline(s0.now, ttl))
            && s.now == s0.now + Elapsed(rest)
    decreases |rest|
  {
    hide EventKey, SavedEvent;
    var saved := ops + [SaveEvent(e)];
    var s := RedisRun(ops, ttl);
    if rest == [] {
      assert saved + rest == saved && saved[..|ops|] == ops;
      EventAfterSave(s, e, ttl);
      SavedNow(s, e, ttl);
    } else {
      var front, last := rest[..|rest| - 1], rest[|rest| - 1];
      EventStays(ops, e, front, ttl);
      assert (saved + rest)[..|saved + rest| - 1] == saved + front;
      var before := RedisRun(saved + front, ttl);
      match last
      case SaveEvent(other) =>
        EventKeyAfterSave(before, other, ttl, e.id);
        SavedNow(before, other, ttl);
      case SaveDeployment(d) => KindsApart();
      case Tick(_) =>
    }
  }

  /**
   * An event can be read for as long as the TTL after its last save, or for ever without
   * one, and no longer, whatever else is saved in the meantime.
   */
  lemma KeptForTtl(ops: seq<Op>, e: StoredEvent, rest: seq<Op>, ttl: nat)
    requires forall i :: 0 <= i < |rest| && rest[i].SaveEvent? ==> rest[i].event.id != e.id
    ensures Get(RedisRun(ops + [SaveEvent(e)] + rest, ttl), EventKey(e.id))
         == if ttl == 0 || Elapsed(rest) < ttl then Some(EventRecord(e)) else None
  {
    hide EventKey;
    EventStays(ops, e, rest, ttl);
  }

  // ---------------------------------------------------------------------------
  // Events and their chain index

  /** Redis holds the last save of every event, with the deadline of that save. */
  ghost predicate EventsTracked(s: Server, m: Memory, ttl: nat) {
    && s.now == m.now && m.events.Keys == m.eventSavedAt.Keys
    && (forall id :: EventKey(id) in s.db <==> id in m.events)
    && (forall id :: id in m.events ==> HoldsEvent(s, id, m.events[id], m.eventSavedAt[id], ttl))
  }

  predicate NoLaterThan(a: Option<int>, b: Option<int>) {
    b.None? || (a.Some? && a.value <= b.value)
  }

  /** A live event with a chainId is a member of its chain set, which does not expire before it. */
  ghost predicate Indexed(s: Server, id: string, chainID: string) {
    && ChainKey(chainID) in s.db && s.db[ChainKey(chainID)].record.Members?
    && id in s.db[ChainKey(chainID)].record.ids
    && EventKey(id) in s.db && NoLaterThan(s.db[EventKey(id)].expiresAt, s.db[ChainKey(chainID)].expiresAt)
  }

  ghost predicate ChainsIndexed(s: Server, m: Memory, ttl: nat) {
    forall id :: id in m.events && m.events[id].chainID != "" && Get(s, EventKey(id)).Some? ==>
      Indexed(s, id, m.events[id].chainID)
  }

  /** Members were put there by a save under that chain. */
  ghost predicate MembersSaved(s: Server, ops: seq<Op>) {
    forall c, id :: id in MembersOf(s, c) ==> SavedUnder(ops, id, c)
  }

  /** What a save leaves under its chain key: the id added, and a deadline no older than its own. */
  lemma ChainAfterSave(s: Server, e: StoredEvent, ttl: nat)
    requires WellTyped(s) && e.chainID != ""
    requires ttl == 0 ==> forall key :: key in s.db ==> s.db[key].expiresAt == None
    ensures var after, key := SavedEvent(s, e, ttl), ChainKey(e.chainID);
            && key in after.db
            && after.db[key] == Entry(Members(MembersOf(s, e.chainID) + {e.id}), Deadline(s.now, ttl))
  {
    KindsApart();
    var s1 := Set(s, EventKey(e.id), EventRecord(e), ttl);
    assert Get(s1, ChainKey(e.chainID)) == Get(s, ChainKey(e.chainID));
    assert {e.id} == {} + {e.id};
  }

  lemma SaveElsewhere(s: Server, e: StoredEvent, ttl: nat, key: string)
    requires key != EventKey(e.id) && (e.chainID != "" ==> key != ChainKey(e.chainID))
    ensures key in SavedEvent(s, e, ttl).db <==> key in s.db
    ensures key in s.db ==> SavedEvent(s, e, ttl).db[key] == s.db[key]
    ensures SavedEvent(s, e, ttl).now == s.now
  {
  }

  lemma EventAfterSave(s: Server, e: StoredEvent, ttl: nat)
    ensures EventKey(e.id) in SavedEvent(s, e, ttl).db
    ensures SavedEvent(s, e, ttl).db[EventKey(e.id)] == Entry(EventRecord(e), Deadline(s.now, ttl))
  {
    KindsApart();
  }

  lemma EventKeyAfterSave(s: Server, e: StoredEvent, ttl: nat, id: string)
    ensures EventKey(id) in SavedEvent(s, e, ttl).db <==> id == e.id || EventKey(id) in s.db
    ensures id != e.id && EventKey(id) in s.db ==> SavedEvent(s, e, ttl).db[EventKey(id)] == s.db[EventKey(id)]
  {
    KindsApart();
    EventAfterSave(s, e, ttl);
    if id != e.id { SaveElsewhere(s, e, ttl, EventKey(id)); }
  }

  /** Redis holds memory's event under its id, with the deadline of its save. */
  ghost predicate HoldsEvent(s: Server, id: string, e: StoredEvent, savedAt: int, ttl: nat) {
    e.id == id && savedAt <= s.now && EventKey(id) in s.db
    && s.db[EventKey(id)] == Entry(EventRecord(e), Deadline(savedAt, ttl))
  }

  lemma SaveTracked(s: Server, m: Memory, e: StoredEvent, ttl: nat)
    requires EventsTracked(s, m, ttl)
    ensures EventsTracked(SavedEvent(s, e, ttl), MemoryStep(m, SaveEvent(e)), ttl)
  {
    hide SavedEvent, Deadline, EventKey;
    var after, m' := SavedEvent(s, e, ttl), MemoryStep(m, SaveEvent(e));
    SavedNow(s, e, ttl);
    EventAfterSave(s, e, ttl);
    forall id
      ensures EventKey(id) in after.db <==> id in m'.events
      ensures id in m'.events ==> HoldsEvent(after, id, m'.events[id], m'.eventSavedAt[id], ttl)
    {
      EventKeyAfterSave(s, e, ttl, id);
    }
  }

  lemma EventsTrackedStep(s: Server, m: Memory, op: Op, ttl: nat)
    requires EventsTracked(s, m, ttl)
    ensures EventsTracked(RedisStep(s, op, ttl), MemoryStep(m, op), ttl)
  {
    match op
    case SaveEvent(e) => SaveTracked(s, m, e, ttl);
    case SaveDeployment(d) => KindsApart();
    case Tick(elapsed) =>
  }

  ghost predicate DeadlinesBounded(s: Server, ttl: nat) {
    forall key :: key in s.db ==> NoLaterThan(s.db[key].expiresAt, Deadline(s.now, ttl))
                                  && (ttl == 0 <==> s.db[key].expiresAt.None?)
  }

  lemma DeadlinesBoundedStep(s: Server, op: Op, ttl: nat)
    requires WellTyped(s) && DeadlinesBounded(s, ttl)
    ensures WellTyped(RedisStep(s, op, ttl)) && DeadlinesBounded(RedisStep(s, op, ttl), ttl)
  {
    KindsApart();
    if op.SaveEvent? {
      var e := op.event;
      SavedEventTyped(s, e, ttl);
      if e.chainID != "" { ChainAfterSave(s, e, ttl); }
      forall key | key in RedisStep(s, op, ttl).db
        ensures NoLaterThan(RedisStep(s, op, ttl).db[key].expiresAt, Deadline(s.now, ttl))
                && (ttl == 0 <==> RedisStep(s, op, ttl).db[key].expiresAt.None?)
      {
        if key != EventKey(e.id) && (e.chainID != "" ==> key != ChainKey(e.chainID)) { SaveElsewhere(s, e, ttl, key); }
      }
    }
  }

  lemma SaveIndexesIt(s: Server, e: StoredEvent, ttl: nat)
    requires WellTyped(s) && DeadlinesBounded(s, ttl) && e.chainID != ""
    ensures Indexed(SavedEvent(s, e, ttl), e.id, e.chainID)
  {
    ChainAfterSave(s, e, ttl);
    EventAfterSave(s, e, ttl);
  }

  /** An event indexed before another event is saved stays indexed while it lives. */
  lemma SaveIndexesOthers(s: Server, e: StoredEvent, ttl: nat, id: string, c: string)
    requires WellTyped(s) && DeadlinesBounded(s, ttl)
    requires id != e.id && Get(s, EventKey(id)).Some? && Indexed(s, id, c)
    ensures Indexed(SavedEvent(s, e, ttl), id, c)
  {
    KindsApart();
    EventKeyAfterSave(s, e, ttl, id);
    if e.chainID != "" && e.chainID == c {
      ChainAfterSave(s, e, ttl);
      assert id in MembersOf(s, c);
    } else {
      SaveElsewhere(s, e, ttl, ChainKey(c));
    }
  }

  lemma SaveChainsIndexed(s: Server, m: Memory, e: StoredEvent, ttl: nat, id: string)
    requires WellTyped(s) && DeadlinesBounded(s, ttl) && ChainsIndexed(s, m, ttl)
    requires id in MemoryStep(m, SaveEvent(e)).events && MemoryStep(m, SaveEvent(e)).events[id].chainID != ""
    requires Get(SavedEvent(s, e, ttl), EventKey(id)).Some?
    ensures Indexed(SavedEvent(s, e, ttl), id, MemoryStep(m, SaveEvent(e)).events[id].chainID)
  {
    if id == e.id {
      SaveIndexesIt(s, e, ttl);
    } else {
      EventKeyAfterSave(s, e, ttl, id);
      SavedNow(s, e, ttl);
      SaveIndexesOthers(s, e, ttl, id, m.events[id].chainID);
    }
  }

  lemma SavedNow(s: Server, e: StoredEvent, ttl: nat)
    ensures SavedEvent(s, e, ttl).now == s.now
  {
  }

  lemma OtherChainsIndexed(s: Server, m: Memory, op: Op, ttl: nat)
    requires ChainsIndexed(s, m, ttl) && !op.SaveEvent?
    ensures ChainsIndexed(RedisStep(s, op, ttl), MemoryStep(m, op), ttl)
  {
    KindsApart();
    var after := RedisStep(s, op, ttl);
    forall id | id in m.events && m.events[id].chainID != "" && Get(after, EventKey(id)).Some?
      ensures Indexed(after, id, m.events[id].chainID)
    {
      assert Indexed(s, id, m.events[id].chainID);
    }
  }

  lemma ChainsIndexedStep(s: Server, m: Memory, op: Op, ttl: nat)
    requires WellTyped(s) && DeadlinesBounded(s, ttl) && EventsTracked(s, m, ttl) && ChainsIndexed(s, m, ttl)
    ensures ChainsIndexed(RedisStep(s, op, ttl), MemoryStep(m, op), ttl)
  {
    if op.SaveEvent? {
      var m' := MemoryStep(m, op);
      forall id | id in m'.events && m'.events[id].chainID != "" && Get(RedisStep(s, op, ttl), EventKey(id)).Some?
        ensures Indexed(RedisStep(s, op, ttl), id, m'.events[id].chainID)
      {
        SaveChainsIndexed(s, m, op.event, ttl, id);
      }
    } else {
      OtherChainsIndexed(s, m, op, ttl);
    }
  }

  lemma SavedUnderMore(ops: seq<Op>, id: string, c: string)
    requires ops != []
    ensures SavedUnder(ops[..|ops| - 1], id, c) ==> SavedUnder(ops, id, c)
  {
    var front := ops[..|ops| - 1];
    if i :| 0 <= i < |front| && front[i].SaveEvent? && front[i].event.id == id && front[i].event.chainID == c {
      assert ops[i] == front[i];
    }
  }

  lemma MembersSavedStep(s: Server, ops: seq<Op>, ttl: nat)
    requires ops != [] && WellTyped(s) && DeadlinesBounded(s, ttl) && MembersSaved(s, ops[..|ops| - 1])
    ensures MembersSaved(RedisStep(s, ops[|ops| - 1], ttl), ops)
  {
    KindsApart();
    var op := ops[|ops| - 1];
    var after := RedisStep(s, op, ttl);
    forall c, id | id in MembersOf(after, c) ensures SavedUnder(ops, id, c) {
      SavedUnderMore(ops, id, c);
      if op.SaveEvent? && op.event.chainID != "" && op.event.chainID == c {
        ChainAfterSave(s, op.event, ttl);
      } else if op.SaveEvent? {
        SaveElsewhere(s, op.event, ttl, ChainKey(c));
      }
    }
  }

  ghost predicate MemorySaved(m: Memory, ops: seq<Op>) {
    forall id :: id in m.events ==> SavedUnder(ops, id, m.events[id].chainID)
  }

  lemma MemorySavedStep(m: Memory, ops: seq<Op>)
    requires ops != [] && MemorySaved(m, ops[..|ops| - 1])
    ensures MemorySaved(MemoryStep(m, ops[|ops| - 1]), ops)
  {
    var op := ops[|ops| - 1];
    forall id | id in MemoryStep(m, op).events ensures SavedUnder(ops, id, MemoryStep(m, op).events[id].chainID) {
      if !(op.SaveEvent? && op.event.id == id) { SavedUnderMore(ops, id, m.events[id].chainID); }
    }
  }

  ghost predicate EventInvariant(s: Server, m: Memory, ops: seq<Op>, ttl: nat) {
    && WellTyped(s) && DeadlinesBounded(s, ttl) && EventsTracked(s, m, ttl)
    && ChainsIndexed(s, m, ttl) && MembersSaved(s, ops) && MemorySaved(m, ops)
  }

  lemma EventInvariantStep(s: Server, m: Memory, ops: seq<Op>, ttl: nat)
    requires ops != [] && EventInvariant(s, m, ops[..|ops| - 1], ttl)
    ensures EventInvariant(RedisStep(s, ops[|ops| - 1], ttl), MemoryStep(m, ops[|ops| - 1]), ops, ttl)
  {
    DeadlinesBoundedStep(s, ops[|ops| - 1], ttl);
    EventsTrackedStep(s, m, ops[|ops| - 1], ttl);
    ChainsIndexedStep(s, m, ops[|ops| - 1], ttl);
    MembersSavedStep(s, ops, ttl);
    MemorySavedStep(m, ops);
  }

  /**
   * After every run, each live event with a chainId is in its live chain set, which never
   * expires before it; Redis holds the last save of each event with that save's deadline.
   */
  lemma {:induction false} EveryRunKeepsIndex(ops: seq<Op>, ttl: nat)
    ensures EventInvariant(RedisRun(ops, ttl), MemoryRun(ops), ops, ttl)
    decreases |ops|
  {
    hide RedisStep, MemoryStep;
    if ops != [] {
      EveryRunKeepsIndex(ops[..|ops| - 1], ttl);
      EventInvariantStep(RedisRun(ops[..|ops| - 1], ttl), MemoryRun(ops[..|ops| - 1]), ops, ttl);
    }
  }

  // ---------------------------------------------------------------------------
  // Chains read alike from both backends

  /** The events of a chain that memory holds and that were saved less than the TTL ago. */
  ghost function FreshOfChain(m: Memory, chainID: string, ttl: nat): set<StoredEvent> {
    set id | id in m.events && id in m.eventSavedAt && m.events[id].chainID == chainID
             && Fresh(m.eventSavedAt[id], m.now, ttl)
      :: m.events[id]
  }

  /** No live member of the chain set has since been saved again under another chain. */
  ghost predicate NoneMoved(s: Server, chainID: string) {
    forall id :: id in MembersOf(s, chainID) && Get(s, EventKey(id)).Some? ==>
      Get(s, EventKey(id)).value.EventRecord? && Get(s, EventKey(id)).value.event.chainID == chainID
  }

  lemma ChainReadFinds(s: Server, m: Memory, ops: seq<Op>, ttl: nat, chainID: string, e: StoredEvent)
    requires EventInvariant(s, m, ops, ttl) && chainID != ""
    ensures e in FreshOfChain(m, chainID, ttl) <==>
            e.id in m.events && m.events[e.id] == e && e.chainID == chainID && Get(s, EventKey(e.id)).Some?
    ensures e in FreshOfChain(m, chainID, ttl) ==> e in ChainRead(s, chainID)
  {
    if e.id in m.events && m.events[e.id] == e && e.chainID == chainID && Get(s, EventKey(e.id)).Some? {
      assert Indexed(s, e.id, chainID);
      assert e.id in MembersOf(s, chainID);
    }
  }

  lemma MemberIsTracked(s: Server, m: Memory, ops: seq<Op>, ttl: nat, chainID: string, id: string)
    requires EventInvariant(s, m, ops, ttl) && chainID != ""
    requires id in MembersOf(s, chainID) && Get(s, EventKey(id)).Some?
    ensures id in m.events && Get(s, EventKey(id)) == Some(EventRecord(m.events[id])) && m.events[id].id == id
    ensures m.events[id] in ChainRead(s, chainID)
  {
    assert EventKey(id) in s.db;
  }

  lemma ChainReadExactAt(s: Server, m: Memory, ops: seq<Op>, ttl: nat, chainID: string)
    requires EventInvariant(s, m, ops, ttl) && chainID != ""
    ensures FreshOfChain(m, chainID, ttl) <= ChainRead(s, chainID)
    ensures ChainRead(s, chainID) == FreshOfChain(m, chainID, ttl) <==> NoneMoved(s, chainID)
  {
    hide EventInvariant, MembersOf, FreshOfChain;
    forall e | e in FreshOfChain(m, chainID, ttl) ensures e in ChainRead(s, chainID) {
      ChainReadFinds(s, m, ops, ttl, chainID, e);
    }
    forall id | id in MembersOf(s, chainID) && Get(s, EventKey(id)).Some?
      ensures id in m.events && Get(s, EventKey(id)) == Some(EventRecord(m.events[id])) && m.events[id].id == id
      ensures m.events[id] in ChainRead(s, chainID)
      ensures m.events[id] in FreshOfChain(m, chainID, ttl) <==> m.events[id].chainID == chainID
    {
      MemberIsTracked(s, m, ops, ttl, chainID, id);
      ChainReadFinds(s, m, ops, ttl, chainID, m.events[id]);
    }
  }

  /**
   * After every run Redis returns every live event of a chain. It returns nothing else,
   * and so answers as memory does over the live events, exactly when no live member of
   * the chain set has been saved again under another chain.
   */
  lemma ChainReadExactIff(ops: seq<Op>, ttl: nat, chainID: string)
    requires chainID != ""
    ensures FreshOfChain(MemoryRun(ops), chainID, ttl) <= ChainRead(RedisRun(ops, ttl), chainID)
    ensures ChainRead(RedisRun(ops, ttl), chainID) == FreshOfChain(MemoryRun(ops), chainID, ttl)
            <==> NoneMoved(RedisRun(ops, ttl), chainID)
  {
    EveryRunKeepsIndex(ops, ttl);
    ChainReadExactAt(RedisRun(ops, ttl), MemoryRun(ops), ops, ttl, chainID);
  }

  /** Every save of an id names the same chain, as unique event ids imply. */
  ghost predicate ChainsStable(ops: seq<Op>) {
    forall id, c, d :: SavedUnder(ops, id, c) && SavedUnder(ops, id, d) ==> c == d
  }

  /** With stable chains, every run leaves both backends with the same chains over the live events. */
  lemma StableChainsAgree(ops: seq<Op>, ttl: nat, chainID: string)
    requires ChainsStable(ops) && chainID != ""
    ensures ChainRead(RedisRun(ops, ttl), chainID) == FreshOfChain(MemoryRun(ops), chainID, ttl)
    ensures ttl == 0 ==> ChainRead(RedisRun(ops, ttl), chainID) == EventsOfChain(MemoryRun(ops).events, chainID)
  {
    var s, m := RedisRun(ops, ttl), MemoryRun(ops);
    EveryRunKeepsIndex(ops, ttl);
    forall id | id in MembersOf(s, chainID) && Get(s, EventKey(id)).Some?
      ensures Get(s, EventKey(id)) == Some(EventRecord(m.events[id])) && m.events[id].chainID == chainID
    {
      assert EventKey(id) in s.db && id in m.events;
      assert SavedUnder(ops, id, chainID) && SavedUnder(ops, id, m.events[id].chainID);
    }
    ChainReadExactIff(ops, ttl, chainID);
    if ttl == 0 {
      assert FreshOfChain(m, chainID, ttl) == EventsOfChain(m.events, chainID);
    }
  }

  lemma TwoSteps(x: Op, y: Op, ttl: nat)
    ensures RedisRun([x, y], ttl) == RedisStep(RedisStep(Server(map[], 0), x, ttl), y, ttl)
    ensures MemoryRun([x, y]) == MemoryStep(MemoryStep(Memory(map[], map[], map[], map[], 0), x), y)
  {
    var ops := [x, y];
    assert ops[..1] == [x] && ops[..1][..0] == [];
    assert RedisRun(ops[..1], ttl) == RedisStep(RedisRun([], ttl), x, ttl);
    assert MemoryRun(ops[..1]) == MemoryStep(MemoryRun([]), x);
  }

  lemma ResaveKeepsMember(s0: Server, a: StoredEvent, b: StoredEvent, ttl: nat)
    requires WellTyped(s0) && DeadlinesBounded(s0, ttl)
    requires a.id == b.id && a.chainID != "" && b.chainID != a.chainID
    ensures var s2 := SavedEvent(SavedEvent(s0, a, ttl), b, ttl);
            && MembersOf(s2, a.chainID) == MembersOf(s0, a.chainID) + {a.id}
            && Get(s2, EventKey(a.id)) == Some(EventRecord(b))
  {
    hide SavedEvent, EventKey, ChainKey;
    KindsApart();
    SavedNow(s0, a, ttl);
    SavedNow(SavedEvent(s0, a, ttl), b, ttl);
    ChainAfterSave(s0, a, ttl);
    SaveElsewhere(SavedEvent(s0, a, ttl), b, ttl, ChainKey(a.chainID));
    EventAfterSave(SavedEvent(s0, a, ttl), b, ttl);
  }

  /**
   * An event saved again under another chain stays in Redis's answer for its old chain,
   * where memory has nothing.
   */
  lemma MovedEventLingers(a: StoredEvent, b: StoredEvent, ttl: nat)
    requires a.id == b.id && a.chainID != "" && b.chainID != a.chainID
    ensures ChainRead(RedisRun([SaveEvent(a), SaveEvent(b)], ttl), a.chainID) == {b}
    ensures EventsOfChain(MemoryRun([SaveEvent(a), SaveEvent(b)]).events, a.chainID) == {}
  {
    hide SavedEvent, EventKey, ChainKey;
    TwoSteps(SaveEvent(a), SaveEvent(b), ttl);
    ResaveKeepsMember(Server(map[], 0), a, b, ttl);
  }

  ghost predicate EventsFrom(ops: seq<Op>, events: set<StoredEvent>) {
    forall i :: 0 <= i < |ops| && ops[i].SaveEvent? ==> ops[i].event in events
  }

  /** Redis answers for every chain with memory's live events of it. */
  ghost predicate SameChains(ops: seq<Op>, ttl: nat) {
    forall c :: c != "" ==> ChainRead(RedisRun(ops, ttl), c) == FreshOfChain(MemoryRun(ops), c, ttl)
  }

  ghost predicate OneChainPerId(events: set<StoredEvent>) {
    forall a, b :: a in events && b in events && a.id == b.id ==> a.chainID == b.chainID
  }

  lemma OneChainIsStable(ops: seq<Op>, events: set<StoredEvent>)
    requires EventsFrom(ops, events) && OneChainPerId(events)
    ensures ChainsStable(ops)
  {
  }

  lemma MovedEventSeparates(a: StoredEvent, b: StoredEvent, ttl: nat)
    requires a.id == b.id && a.chainID != "" && b.chainID != a.chainID
    ensures !SameChains([SaveEvent(a), SaveEvent(b)], ttl)
  {
    var ops := [SaveEvent(a), SaveEvent(b)];
    MovedEventLingers(a, b, ttl);
    assert FreshOfChain(MemoryRun(ops), a.chainID, ttl) <= EventsOfChain(MemoryRun(ops).events, a.chainID);
    assert b in ChainRead(RedisRun(ops, ttl), a.chainID);
  }

  /**
   * Both backends answer alike for every chain after every run of ticks and saves of
   * some events, exactly when no two of the events have one id and different chainIds.
   */
  lemma AlwaysSameChainsIff(events: set<StoredEvent>, ttl: nat)
    ensures (forall ops :: EventsFrom(ops, events) ==> SameChains(ops, ttl)) <==> OneChainPerId(events)
  {
    hide ChainRead, FreshOfChain, RedisRun, MemoryRun;
    if OneChainPerId(events) {
      forall ops | EventsFrom(ops, events) ensures SameChains(ops, ttl) {
        OneChainIsStable(ops, events);
        forall c | c != "" ensures ChainRead(RedisRun(ops, ttl), c) == FreshOfChain(MemoryRun(ops), c, ttl) {
          StableChainsAgree(ops, ttl, c);
        }
      }
    }
    if forall ops :: EventsFrom(ops, events) ==> SameChains(ops, ttl) {
      forall a, b | a in events && b in events && a.id == b.id ensures a.chainID == b.chainID {
        assert EventsFrom([SaveEvent(a), SaveEvent(b)], events);
        assert EventsFrom([SaveEvent(b), SaveEvent(a)], events);
        if a.chainID != b.chainID {
          if a.chainID != "" { MovedEventSeparates(a, b, ttl); } else { MovedEventSeparates(b, a, ttl); }
        }
      }
    }
  }
}
