/** The current deployment of a service, as both backends answer it after the same saves. */
module RedisDeployments {
  import opened Models
  import opened Ordering
  import opened Storage
  import opened RedisKeys
  import opened Redis
  import opened RedisRuns

  ghost predicate Saved(ops: seq<Op>, d: Deployment) {
    exists i :: 0 <= i < |ops| && ops[i] == SaveDeployment(d)
  }

  /** Two saved records share a key in one backend exactly when they share one in the other. */
  ghost predicate KeysAgree(ops: seq<Op>) {
    forall d, e :: Saved(ops, d) && Saved(ops, e) ==> (KeyOf(d) == KeyOf(e) <==> RedisKeyOf(d) == RedisKeyOf(e))
  }

  lemma PlainNamesAgree(ops: seq<Op>)
    requires forall d :: Saved(ops, d) ==> PlainNames(d)
    ensures KeysAgree(ops)
  {
    forall d, e | Saved(ops, d) && Saved(ops, e) ensures KeyOf(d) == KeyOf(e) <==> RedisKeyOf(d) == RedisKeyOf(e) {
      PlainKeysInjective(d, e);
    }
  }

  /** Redis holds memory's record d, with the deadline of its save. */
  ghost predicate Holds(s: Server, d: Deployment, savedAt: int, ttl: nat) {
    RedisKeyOf(d) in s.db && s.db[RedisKeyOf(d)] == Entry(DeploymentRecord(d), Deadline(savedAt, ttl))
  }

  ghost predicate MemoryInRedis(s: Server, m: Memory, ops: seq<Op>, ttl: nat) {
    && m.deployments.Keys == m.deploymentSavedAt.Keys
    && (forall k :: k in m.deployments ==>
          && KeyOf(m.deployments[k]) == k && Saved(ops, m.deployments[k])
          && Holds(s, m.deployments[k], m.deploymentSavedAt[k], ttl))
  }

  /** Every deployment in Redis is the one memory has under its key. */
  ghost predicate RedisInMemory(s: Server, m: Memory) {
    forall key :: key in s.db && IsDeploymentKey(key) ==>
      && s.db[key].record.DeploymentRecord?
      && KeyOf(s.db[key].record.deployment) in m.deployments
      && m.deployments[KeyOf(s.db[key].record.deployment)] == s.db[key].record.deployment
  }

  ghost predicate DeploymentsTracked(s: Server, m: Memory, ops: seq<Op>, ttl: nat) {
    s.now == m.now && MemoryInRedis(s, m, ops, ttl) && RedisInMemory(s, m)
  }

  lemma SavedMore(ops: seq<Op>, d: Deployment)
    requires ops != []
    ensures Saved(ops[..|ops| - 1], d) ==> Saved(ops, d)
  {
    var front := ops[..|ops| - 1];
    if i :| 0 <= i < |front| && front[i] == SaveDeployment(d) {
      assert ops[i] == front[i];
    }
  }

  lemma SavedLast(ops: seq<Op>, d: Deployment)
    requires ops != [] && ops[|ops| - 1] == SaveDeployment(d)
    ensures Saved(ops, d)
  {
  }

  lemma SaveOneHolds(s: Server, d: Deployment, ttl: nat)
    ensures Holds(SavedDeployment(s, d, ttl), d, s.now, ttl)
    ensures forall e, at :: RedisKeyOf(e) != RedisKeyOf(d) && Holds(s, e, at, ttl) ==>
              Holds(SavedDeployment(s, d, ttl), e, at, ttl)
  {
  }

  lemma SaveIntoRedis(s: Server, m: Memory, ops: seq<Op>, d: Deployment, ttl: nat)
    requires ops != [] && ops[|ops| - 1] == SaveDeployment(d) && KeysAgree(ops)
    requires s.now == m.now && MemoryInRedis(s, m, ops[..|ops| - 1], ttl)
    ensures MemoryInRedis(SavedDeployment(s, d, ttl), MemoryStep(m, SaveDeployment(d)), ops, ttl)
  {
    hide RedisKeyOf, KeyOf, SavedDeployment, Holds, Saved;
    var m' := MemoryStep(m, SaveDeployment(d));
    assert Saved(ops, d) by { SavedLast(ops, d); }
    SaveOneHolds(s, d, ttl);
    forall k | k in m'.deployments
      ensures KeyOf(m'.deployments[k]) == k && Saved(ops, m'.deployments[k])
      ensures Holds(SavedDeployment(s, d, ttl), m'.deployments[k], m'.deploymentSavedAt[k], ttl)
    {
      if k != KeyOf(d) {
        SavedMore(ops, m.deployments[k]);
        assert Holds(s, m.deployments[k], m.deploymentSavedAt[k], ttl);
      }
    }
  }

  lemma SaveIntoMemory(s: Server, m: Memory, ops: seq<Op>, d: Deployment, ttl: nat)
    requires ops != [] && ops[|ops| - 1] == SaveDeployment(d) && KeysAgree(ops) && WellTyped(s)
    requires MemoryInRedis(s, m, ops[..|ops| - 1], ttl) && RedisInMemory(s, m)
    ensures RedisInMemory(SavedDeployment(s, d, ttl), MemoryStep(m, SaveDeployment(d)))
  {
    hide RedisKeyOf, KeyOf, Saved, Holds, IsDeploymentKey;
    SavedLast(ops, d);
    forall key | key in s.db && IsDeploymentKey(key) && key != RedisKeyOf(d)
      ensures KeyOf(s.db[key].record.deployment) != KeyOf(d)
    {
      SavedMore(ops, s.db[key].record.deployment);
    }
  }

  lemma OtherOpKeeps(s: Server, op: Op, ttl: nat, key: string)
    requires !op.SaveDeployment? && IsDeploymentKey(key)
    ensures key in RedisStep(s, op, ttl).db <==> key in s.db
    ensures key in s.db ==> RedisStep(s, op, ttl).db[key] == s.db[key]
  {
    KindsApart();
    if op.SaveEvent? { SaveElsewhere(s, op.event, ttl, key); }
  }

  lemma OtherOpTracked(s: Server, m: Memory, ops: seq<Op>, ttl: nat)
    requires ops != [] && !ops[|ops| - 1].SaveDeployment?
    requires DeploymentsTracked(s, m, ops[..|ops| - 1], ttl)
    ensures DeploymentsTracked(RedisStep(s, ops[|ops| - 1], ttl), MemoryStep(m, ops[|ops| - 1]), ops, ttl)
  {
    hide RedisKeyOf, KeyOf, Saved, IsDeploymentKey, RedisStep;
    var op := ops[|ops| - 1];
    var after, m' := RedisStep(s, op, ttl), MemoryStep(m, op);
    forall k | k in m.deployments
      ensures Saved(ops, m.deployments[k]) && Holds(after, m.deployments[k], m.deploymentSavedAt[k], ttl)
    {
      SavedMore(ops, m.deployments[k]);
      DeploymentKeyKind(m.deployments[k]);
      OtherOpKeeps(s, op, ttl, RedisKeyOf(m.deployments[k]));
    }
    forall key | key in after.db && IsDeploymentKey(key) ensures key in s.db && after.db[key] == s.db[key] {
      OtherOpKeeps(s, op, ttl, key);
    }
    OtherOpClock(s, m, op, ttl);
  }

  lemma DeploymentKeyKind(d: Deployment)
    ensures IsDeploymentKey(RedisKeyOf(d))
  {
    KindsApart();
  }

  lemma OtherOpClock(s: Server, m: Memory, op: Op, ttl: nat)
    requires s.now == m.now
    ensures RedisStep(s, op, ttl).now == MemoryStep(m, op).now
  {
  }

  lemma {:induction false} EveryRunTracksDeployments(ops: seq<Op>, ttl: nat)
    requires KeysAgree(ops)
    ensures DeploymentsTracked(RedisRun(ops, ttl), MemoryRun(ops), ops, ttl)
    decreases |ops|
  {
    if ops != [] {
      var front, op := ops[..|ops| - 1], ops[|ops| - 1];
      forall d, e | Saved(front, d) && Saved(front, e)
        ensures KeyOf(d) == KeyOf(e) <==> RedisKeyOf(d) == RedisKeyOf(e)
      {
        SavedMore(ops, d);
        SavedMore(ops, e);
      }
      EveryRunTracksDeployments(front, ttl);
      EveryRunKeepsIndex(front, ttl);
      if op.SaveDeployment? {
        SaveIntoRedis(RedisRun(front, ttl), MemoryRun(front), ops, op.deployment, ttl);
        SaveIntoMemory(RedisRun(front, ttl), MemoryRun(front), ops, op.deployment, ttl);
      } else {
        OtherOpTracked(RedisRun(front, ttl), MemoryRun(front), ops, ttl);
      }
    }
  }

  /** The deployments of a service that memory holds and that were saved less than the TTL ago. */
  ghost function FreshOfService(m: Memory, service: string, ttl: nat): set<Deployment> {
    set k | k in m.deployments && k in m.deploymentSavedAt && m.deployments[k].service == service
            && Fresh(m.deploymentSavedAt[k], m.now, ttl)
      :: m.deployments[k]
  }

  /** Memory's current deployment of a service among those. */
  ghost function FreshLatest(m: Memory, service: string, ttl: nat): Result<Deployment> {
    First(Newest(DeploymentRank, FreshOfService(m, service, ttl)))
  }

  lemma KeyHasServicePrefix(d: Deployment)
    ensures ServicePrefix(d.service) <= RedisKeyOf(d)
  {
    assert RedisKeyOf(d)[..|ServicePrefix(d.service)|] == ServicePrefix(d.service);
  }

  lemma ServicePrefixIsDeployment(service: string, key: string)
    requires ServicePrefix(service) <= key
    ensures IsDeploymentKey(key)
  {
    assert key[..|DEPLOYMENT_PREFIX|] == ServicePrefix(service)[..|DEPLOYMENT_PREFIX|] == DEPLOYMENT_PREFIX;
  }

  lemma RedisFindsFresh(s: Server, m: Memory, ops: seq<Op>, ttl: nat, service: string, d: Deployment)
    requires WellTyped(s) && DeploymentsTracked(s, m, ops, ttl)
    ensures d in RedisOfService(s, service) ==> d in FreshOfService(m, service, ttl)
  {
    if d in RedisOfService(s, service) {
      var key :| key in s.db && ServicePrefix(service) <= key && Get(s, key) == Some(DeploymentRecord(d));
      ServicePrefixIsDeployment(service, key);
      assert m.deployments[KeyOf(d)] == d;
      assert Holds(s, d, m.deploymentSavedAt[KeyOf(d)], ttl);
    }
  }

  lemma FreshIsInRedis(s: Server, m: Memory, ops: seq<Op>, ttl: nat, service: string, d: Deployment)
    requires DeploymentsTracked(s, m, ops, ttl)
    ensures d in FreshOfService(m, service, ttl) ==> d in RedisOfService(s, service)
  {
    if d in FreshOfService(m, service, ttl) {
      KeyHasServicePrefix(d);
      assert Holds(s, d, m.deploymentSavedAt[KeyOf(d)], ttl);
      assert Get(s, RedisKeyOf(d)) == Some(DeploymentRecord(d));
    }
  }

  /**
   * After every run of saves whose keys agree, the scan for a service finds memory's
   * live deployments of it, and so the same current one. Without expiry that is
   * memory's own answer, for every service name asked for.
   */
  lemma BackendsAgree(ops: seq<Op>, ttl: nat, service: string)
    requires KeysAgree(ops)
    ensures RedisOfService(RedisRun(ops, ttl), service) == FreshOfService(MemoryRun(ops), service, ttl)
    ensures RedisLatest(RedisRun(ops, ttl), service)
         == FreshLatest(MemoryRun(ops), service, ttl)
    ensures ttl == 0 ==> RedisLatest(RedisRun(ops, ttl), service) == Latest(MemoryRun(ops).deployments, service)
  {
    var s, m := RedisRun(ops, ttl), MemoryRun(ops);
    EveryRunTracksDeployments(ops, ttl);
    EveryRunKeepsIndex(ops, ttl);
    forall d ensures d in RedisOfService(s, service) <==> d in FreshOfService(m, service, ttl) {
      RedisFindsFresh(s, m, ops, ttl, service, d);
      FreshIsInRedis(s, m, ops, ttl, service, d);
    }
    assert RedisOfService(s, service) == FreshOfService(m, service, ttl);
    if ttl == 0 { NothingExpires(m, service); }
  }

  lemma NothingExpires(m: Memory, service: string)
    requires m.deployments.Keys == m.deploymentSavedAt.Keys
    ensures FreshOfService(m, service, 0) == OfService(m.deployments, service)
  {
  }

  /** What was saved at this very moment is live under any TTL. */
  lemma SavedNowIsFresh(m: Memory, service: string, ttl: nat)
    requires m.deployments.Keys == m.deploymentSavedAt.Keys
    requires forall k :: k in m.deploymentSavedAt ==> m.deploymentSavedAt[k] == m.now
    ensures FreshLatest(m, service, ttl) == Latest(m.deployments, service)
  {
    assert FreshOfService(m, service, ttl) == OfService(m.deployments, service);
  }

  lemma TwoSavesKeysAgree(a: Deployment, b: Deployment)
    requires KeyOf(a) == KeyOf(b) <==> RedisKeyOf(a) == RedisKeyOf(b)
    ensures KeysAgree([SaveDeployment(a), SaveDeployment(b)])
  {
    var ops := [SaveDeployment(a), SaveDeployment(b)];
    assert forall d :: Saved(ops, d) ==> d == a || d == b;
  }

  lemma TwoSavesOfMemory(a: Deployment, b: Deployment, service: string, ttl: nat)
    ensures var m := MemoryRun([SaveDeployment(a), SaveDeployment(b)]);
            && m.deployments == map[KeyOf(a) := a][KeyOf(b) := b]
            && FreshLatest(m, service, ttl) == Latest(m.deployments, service)
  {
    hide KeyOf, FreshLatest;
    TwoSteps(SaveDeployment(a), SaveDeployment(b), ttl);
    SavedNowIsFresh(MemoryRun([SaveDeployment(a), SaveDeployment(b)]), service, ttl);
  }

  /**
   * For two services saved one after the other, both backends answer alike exactly when
   * their keys agree: a key shared in one backend only makes the first service vanish
   * from that one.
   */
  lemma TwoServicesAgreeIff(a: Deployment, b: Deployment, ttl: nat)
    requires a.service != b.service
    ensures SameAnswers([SaveDeployment(a), SaveDeployment(b)], ttl)
            <==> (KeyOf(a) == KeyOf(b) <==> RedisKeyOf(a) == RedisKeyOf(b))
  {
    hide KeyOf, RedisKeyOf, Latest, RedisLatest, FreshLatest;
    var ops := [SaveDeployment(a), SaveDeployment(b)];
    if KeyOf(a) == KeyOf(b) <==> RedisKeyOf(a) == RedisKeyOf(b) {
      TwoSavesKeysAgree(a, b);
      forall service ensures RedisLatest(RedisRun(ops, ttl), service) == FreshLatest(MemoryRun(ops), service, ttl) {
        BackendsAgree(ops, ttl, service);
      }
    } else {
      TwoSteps(SaveDeployment(a), SaveDeployment(b), ttl);
      TwoSavesOfMemory(a, b, a.service, ttl);
      if KeyOf(a) == KeyOf(b) {
        MemoryForgets(RedisRun(ops, ttl), a, b, ttl);
      } else {
        RedisForgets(RedisRun(ops, ttl), a, b, ttl);
      }
    }
  }

  /** A key shared in memory only: memory has lost the first service, Redis has not. */
  lemma MemoryForgets(s: Server, a: Deployment, b: Deployment, ttl: nat)
    requires a.service != b.service
    requires s == SavedDeployment(SavedDeployment(Server(map[], 0), a, ttl), b, ttl)
    requires KeyOf(a) == KeyOf(b) && RedisKeyOf(a) != RedisKeyOf(b)
    ensures RedisLatest(s, a.service).Ok? && Latest(map[KeyOf(a) := a][KeyOf(b) := b], a.service).Err?
  {
    hide RedisKeyOf;
    var deployments := map[KeyOf(a) := a][KeyOf(b) := b];
    FirstFound(RedisOfService(s, a.service));
    FirstFound(OfService(deployments, a.service));
    KeyHasServicePrefix(a);
    assert OfService(deployments, a.service) == {};
    assert Get(s, RedisKeyOf(a)) == Some(DeploymentRecord(a));
    assert a in RedisOfService(s, a.service);
  }

  /** A key shared in Redis only: Redis has lost the first service, memory has not. */
  lemma RedisForgets(s: Server, a: Deployment, b: Deployment, ttl: nat)
    requires a.service != b.service
    requires s == SavedDeployment(SavedDeployment(Server(map[], 0), a, ttl), b, ttl)
    requires KeyOf(a) != KeyOf(b) && RedisKeyOf(a) == RedisKeyOf(b)
    ensures RedisLatest(s, a.service).Err? && Latest(map[KeyOf(a) := a][KeyOf(b) := b], a.service).Ok?
  {
    hide RedisKeyOf;
    var deployments := map[KeyOf(a) := a][KeyOf(b) := b];
    FirstFound(RedisOfService(s, a.service));
    FirstFound(OfService(deployments, a.service));
    assert deployments[KeyOf(a)] == a && a in OfService(deployments, a.service);
    assert s.db == map[RedisKeyOf(b) := Entry(DeploymentRecord(b), Deadline(0, ttl))];
    assert RedisOfService(s, a.service) == {};
  }

  // ---------------------------------------------------------------------------
  // Which records are safe to save in any run

  ghost predicate SavesFrom(ops: seq<Op>, records: set<Deployment>) {
    forall d :: Saved(ops, d) ==> d in records
  }

  /** For every service, Redis has the current deployment that memory has among the live ones. */
  ghost predicate SameAnswers(ops: seq<Op>, ttl: nat) {
    forall service :: RedisLatest(RedisRun(ops, ttl), service) == FreshLatest(MemoryRun(ops), service, ttl)
  }

  ghost predicate KeysAgreeOn(records: set<Deployment>) {
    forall d, e :: d in records && e in records ==> (KeyOf(d) == KeyOf(e) <==> RedisKeyOf(d) == RedisKeyOf(e))
  }

  lemma SavedInPair(a: Deployment, b: Deployment, d: Deployment)
    ensures Saved([SaveDeployment(a), SaveDeployment(b)], d) ==> d == a || d == b
  {
  }

  lemma OnlyRecordIsLatest(d: Deployment)
    ensures First(Newest(DeploymentRank, {d})) == Ok(d)
  {
    var sorted := Newest(DeploymentRank, {d});
    SortByElements(DeploymentRank, Listing({d}));
    assert Elements(sorted) == {d};
    FirstFound({d});
    assert sorted[0] in Elements(sorted);
  }

  /** Under a shared key Redis keeps the last save only. */
  lemma RedisKeepsLast(a: Deployment, b: Deployment, ttl: nat)
    requires RedisKeyOf(a) == RedisKeyOf(b)
    ensures RedisLatest(RedisRun([SaveDeployment(a), SaveDeployment(b)], ttl), b.service) == Ok(b)
  {
    hide RedisKeyOf, Latest;
    TwoSteps(SaveDeployment(a), SaveDeployment(b), ttl);
    var s := RedisRun([SaveDeployment(a), SaveDeployment(b)], ttl);
    KeyHasServicePrefix(b);
    assert s.db == map[RedisKeyOf(b) := Entry(DeploymentRecord(b), Deadline(0, ttl))];
    assert Get(s, RedisKeyOf(b)) == Some(DeploymentRecord(b));
    assert RedisOfService(s, b.service) == {b};
    OnlyRecordIsLatest(b);
  }

  /** Memory ends up the same in whichever order two keys are saved. */
  lemma MemoryOrderFree(a: Deployment, b: Deployment, service: string, ttl: nat)
    requires KeyOf(a) != KeyOf(b)
    ensures FreshLatest(MemoryRun([SaveDeployment(a), SaveDeployment(b)]), service, ttl)
         == FreshLatest(MemoryRun([SaveDeployment(b), SaveDeployment(a)]), service, ttl)
  {
    hide KeyOf, FreshLatest, Latest, MemoryRun;
    TwoSavesOfMemory(a, b, service, ttl);
    TwoSavesOfMemory(b, a, service, ttl);
    assert map[KeyOf(a) := a][KeyOf(b) := b] == map[KeyOf(b) := b][KeyOf(a) := a];
  }

  lemma SharedKeySeparates(a: Deployment, b: Deployment, ttl: nat)
    requires !(KeyOf(a) == KeyOf(b) <==> RedisKeyOf(a) == RedisKeyOf(b))
    ensures !SameAnswers([SaveDeployment(a), SaveDeployment(b)], ttl)
            || !SameAnswers([SaveDeployment(b), SaveDeployment(a)], ttl)
  {
    hide FreshLatest, RedisLatest, RedisRun, MemoryRun;
    if a.service == b.service {
      assert RedisKeyOf(a) == RedisKeyOf(b) && KeyOf(a) != KeyOf(b) by {
        if KeyOf(a) == KeyOf(b) { SameServiceKeys(a, b); }
      }
      RedisKeepsLast(a, b, ttl);
      RedisKeepsLast(b, a, ttl);
      MemoryOrderFree(a, b, a.service, ttl);
    } else {
      TwoServicesAgreeIff(a, b, ttl);
    }
  }

  lemma SameServiceKeys(a: Deployment, b: Deployment)
    requires a.service == b.service && KeyOf(a) == KeyOf(b)
    ensures RedisKeyOf(a) == RedisKeyOf(b)
  {
    var n := |a.service| + 1;
    assert KeyOf(a)[n..] == a.environment && KeyOf(b)[n..] == b.environment;
  }

  /**
   * Redis answers for every service with memory's current live deployment, after every
   * run of ticks and of saves of some records, in any order and with any repetition,
   * exactly when no two of the records share a key in one backend only. Without expiry,
   * all that memory holds is live (BackendsAgree).
   */
  lemma AlwaysAgreeIff(records: set<Deployment>, ttl: nat)
    ensures (forall ops :: SavesFrom(ops, records) ==> SameAnswers(ops, ttl)) <==> KeysAgreeOn(records)
  {
    hide FreshLatest, RedisLatest, RedisRun, MemoryRun, KeyOf, RedisKeyOf;
    if KeysAgreeOn(records) {
      forall ops | SavesFrom(ops, records) ensures SameAnswers(ops, ttl) {
        forall service ensures RedisLatest(RedisRun(ops, ttl), service) == FreshLatest(MemoryRun(ops), service, ttl) {
          BackendsAgree(ops, ttl, service);
        }
      }
    }
    if forall ops :: SavesFrom(ops, records) ==> SameAnswers(ops, ttl) {
      forall d, e | d in records && e in records ensures KeyOf(d) == KeyOf(e) <==> RedisKeyOf(d) == RedisKeyOf(e) {
        forall x ensures Saved([SaveDeployment(d), SaveDeployment(e)], x) ==> x in records
                 ensures Saved([SaveDeployment(e), SaveDeployment(d)], x) ==> x in records
        {
          SavedInPair(d, e, x);
          SavedInPair(e, d, x);
        }
        assert SavesFrom([SaveDeployment(d), SaveDeployment(e)], records);
        assert SavesFrom([SaveDeployment(e), SaveDeployment(d)], records);
        if !(KeyOf(d) == KeyOf(e) <==> RedisKeyOf(d) == RedisKeyOf(e)) { SharedKeySeparates(d, e, ttl); }
      }
    }
  }

  /** "a:b" in "c" and "a" in "b:c" share a Redis key, and memory keeps them apart. */
  lemma ColonsCollide(a: Deployment, b: Deployment)
    requires a.service == "a:b" && a.environment == "c" && b.service == "a" && b.environment == "b:c"
    ensures RedisKeyOf(a) == RedisKeyOf(b) && KeyOf(a) != KeyOf(b)
  {
    hide RedisDeploymentKey;
    assert "a:b" + ":" + "c" == "a" + ":" + "b:c";
    JoinedKey("a:b", "c");
    JoinedKey("a", "b:c");
    assert KeyOf(a)[1] == ':' && KeyOf(b)[1] == '\0';
  }

  lemma JoinedKey(service: string, environment: string)
    requires GlobFree(service) && GlobFree(environment)
    ensures RedisDeploymentKey(service, environment) == DEPLOYMENT_PREFIX + (service + ":" + environment)
  {
    EscapePlain(service);
    EscapePlain(environment);
  }

  lemma {:induction false} EscapePlain(s: string)
    requires GlobFree(s)
    ensures EscapeKeyPart(s) == s
    decreases |s|
  {
    if s != "" {
      EscapePlain(s[1..]);
      assert [s[0]] + s[1..] == s;
    }
  }
}
