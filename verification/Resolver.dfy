/**
 * The caching resolver (pkg/otelbridge/resolver.go), one call at a time, against a
 * reference that remembers every lookup, invalidation and reset.
 */
module Resolver {
  import opened Models

  const DEFAULT_CACHE_TTL := 30_000_000_000
  const DEFAULT_NEGATIVE_TTL := 10_000_000_000

  /** Both TTLs in nanoseconds; options that are not positive leave the defaults. */
  datatype Ttls = Ttls(positive: int, negative: int)

  predicate ValidTtls(ttls: Ttls) {
    ttls.positive > 0 && ttls.negative > 0
  }

  /** An answer worth caching: a deployment, or that there is none. */
  predicate Definitive(answer: Result<Deployment>) {
    answer.Ok? || answer.error == NotFound
  }

  function TtlOf(ttls: Ttls, answer: Result<Deployment>): int {
    if answer.Ok? then ttls.positive else ttls.negative
  }

  datatype CacheEntry = CacheEntry(answer: Result<Deployment>, expiresAt: int)

  type Entries = map<string, CacheEntry>

  function Find(entries: Entries, service: string): Option<CacheEntry> {
    if service in entries then Some(entries[service]) else None
  }

  predicate Hit(entry: Option<CacheEntry>, now: int) {
    entry.Some? && now < entry.value.expiresAt
  }

  /** What a call answers once the inner resolver has, given the entry it saw before. */
  function Settle(entry: Option<CacheEntry>, inner: Result<Deployment>): Result<Deployment> {
    if !Definitive(inner) && entry.Some? && entry.value.answer.Ok? then entry.value.answer else inner
  }

  /** The entries after an inner lookup that started at the given time. */
  function Stored(entries: Entries, ttls: Ttls, service: string, startedAt: int, inner: Result<Deployment>): Entries {
    if Definitive(inner) then entries[service := CacheEntry(inner, startedAt + TtlOf(ttls, inner))] else entries
  }

  class CachedResolver {
    const ttls: Ttls
    var entries: Entries

    constructor (cacheTtl: Option<int>, negativeTtl: Option<int>)
      ensures entries == map[] && ValidTtls(ttls)
      ensures cacheTtl.Some? && cacheTtl.value > 0 ==> ttls.positive == cacheTtl.value
      ensures negativeTtl.Some? && negativeTtl.value > 0 ==> ttls.negative == negativeTtl.value
      ensures cacheTtl.None? || cacheTtl.value <= 0 ==> ttls.positive == 30_000_000_000
      ensures negativeTtl.None? || negativeTtl.value <= 0 ==> ttls.negative == 10_000_000_000
    {
      ttls := Ttls(if cacheTtl.Some? && cacheTtl.value > 0 then cacheTtl.value else DEFAULT_CACHE_TTL,
                   if negativeTtl.Some? && negativeTtl.value > 0 then negativeTtl.value else DEFAULT_NEGATIVE_TTL);
      entries := map[];
    }

    /** inner is what the inner resolver would answer; called tells whether it was asked. */
    method ResolveDeployment(service: string, now: int, inner: Result<Deployment>)
      returns (r: Result<Deployment>, called: bool)
      modifies this`entries
      ensures called <==> !(service in old(entries) && now < old(entries)[service].expiresAt)
      ensures !called ==> r == old(entries)[service].answer && entries == old(entries)
      ensures called && inner.Ok? ==>
                r == inner && entries == old(entries)[service := CacheEntry(inner, now + ttls.positive)]
      ensures called && inner == Err(NotFound) ==>
                r == inner && entries == old(entries)[service := CacheEntry(Err(NotFound), now + ttls.negative)]
      ensures called && inner.Err? && inner.error != NotFound ==>
                && entries == old(entries)
                && r == if service in old(entries) && old(entries)[service].answer.Ok? then old(entries)[service].answer
                        else inner
      ensures (Some(r), entries) == CacheStep(old(entries), ttls, Call.Resolve(service, now, inner))
    {
      var entry := Find(entries, service);
      if entry.Some? && now < entry.value.expiresAt {
        return entry.value.answer, false;
      }
      if inner.Ok? {
        Store(service, CacheEntry(inner, now + ttls.positive));
      } else if inner.error == NotFound {
        Store(service, CacheEntry(Err(NotFound), now + ttls.negative));
      } else if entry.Some? && entry.value.answer.Ok? {
        return entry.value.answer, true;
      }
      return inner, true;
    }

    method Store(service: string, entry: CacheEntry)
      modifies this`entries
      ensures entries == old(entries)[service := entry]
    {
      entries := entries[service := entry];
    }

    method Invalidate(service: string)
      modifies this`entries
      ensures entries == old(entries) - {service} == CacheStep(old(entries), ttls, Call.Invalidate(service)).1
    {
      entries := entries - {service};
    }

    method Reset()
      modifies this`entries
      ensures entries == map[] == CacheStep(old(entries), ttls, Call.Reset).1
    {
      entries := map[];
    }
  }

  // ---------------------------------------------------------------------------
  // Refinement of the full history

  datatype Call = Resolve(service: string, now: int, inner: Result<Deployment>) | Invalidate(service: string) | Reset

  /** One call on the cache: its answer, if it has one, and the entries after it. */
  function CacheStep(entries: Entries, ttls: Ttls, call: Call): (Option<Result<Deployment>>, Entries) {
    match call
    case Resolve(service, now, inner) =>
      var entry := Find(entries, service);
      if Hit(entry, now) then (Some(entry.value.answer), entries)
      else (Some(Settle(entry, inner)), Stored(entries, ttls, service, now, inner))
    case Invalidate(service) => (None, entries - {service})
    case Reset => (None, map[])
  }

  function CacheRun(ttls: Ttls, calls: seq<Call>): Entries {
    if calls == [] then map[] else CacheStep(CacheRun(ttls, calls[..|calls| - 1]), ttls, calls[|calls| - 1]).1
  }

  function CacheAnswer(ttls: Ttls, calls: seq<Call>, last: Call): Option<Result<Deployment>> {
    CacheStep(CacheRun(ttls, calls), ttls, last).0
  }

  /** What really happened, newest last: lookups that reached the inner resolver, and cache clearing. */
  datatype Happened =
    | Looked(service: string, at: int, answer: Result<Deployment>)
    | Cleared(service: string)
    | ClearedAll

  /** The newest definitive lookup of a service since its entry was last cleared. */
  function LastDefinitive(history: seq<Happened>, service: string): Option<Happened> {
    if history == [] then None
    else
      var last, front := history[|history| - 1], history[..|history| - 1];
      match last
      case Looked(s, at, answer) =>
        if s == service && Definitive(answer) then Some(last) else LastDefinitive(front, service)
      case Cleared(s) => if s == service then None else LastDefinitive(front, service)
      case ClearedAll => None
  }

  /** The reference: fresh answers are repeated, stale deployments only cover failures. */
  function Reference(ttls: Ttls, history: seq<Happened>, call: Call): (Option<Result<Deployment>>, seq<Happened>) {
    match call
    case Resolve(service, now, inner) =>
      (match LastDefinitive(history, service)
       case Some(Looked(_, at, answer)) =>
         if now < at + (if answer.Ok? then ttls.positive else ttls.negative) then (Some(answer), history)
         else
           (Some(if !Definitive(inner) && answer.Ok? then answer else inner), history + [Looked(service, now, inner)])
       case _ => (Some(inner), history + [Looked(service, now, inner)]))
    case Invalidate(service) => (None, history + [Cleared(service)])
    case Reset => (None, history + [ClearedAll])
  }

  function ReferenceRun(ttls: Ttls, calls: seq<Call>): seq<Happened> {
    if calls == [] then [] else Reference(ttls, ReferenceRun(ttls, calls[..|calls| - 1]), calls[|calls| - 1]).1
  }

  lemma {:induction false} LastDefinitiveShape(history: seq<Happened>, service: string)
    ensures LastDefinitive(history, service).Some? ==>
              var l := LastDefinitive(history, service).value;
              l.Looked? && l.service == service && Definitive(l.answer) && l in history
    decreases |history|
  {
    if history != [] { LastDefinitiveShape(history[..|history| - 1], service); }
  }

  /** The cache holds, for each service, its newest definitive lookup and nothing else. */
  ghost predicate Represents(ttls: Ttls, entries: Entries, history: seq<Happened>) {
    forall service :: Find(entries, service) == match LastDefinitive(history, service)
      case Some(Looked(_, at, answer)) => Some(CacheEntry(answer, at + TtlOf(ttls, answer)))
      case _ => None
  }

  lemma StepRefines(ttls: Ttls, entries: Entries, history: seq<Happened>, call: Call)
    requires Represents(ttls, entries, history)
    ensures CacheStep(entries, ttls, call).0 == Reference(ttls, history, call).0
    ensures Represents(ttls, CacheStep(entries, ttls, call).1, Reference(ttls, history, call).1)
  {
    var after, history' := CacheStep(entries, ttls, call).1, Reference(ttls, history, call).1;
    if call.Resolve? { LastDefinitiveShape(history, call.service); }
    if history' != history {
      assert history'[..|history'| - 1] == history;
      forall service ensures Find(after, service) == match LastDefinitive(history', service)
                               case Some(Looked(_, at, answer)) => Some(CacheEntry(answer, at + TtlOf(ttls, answer)))
                               case _ => None
      {
        assert Find(entries, service) == match LastDefinitive(history, service)
          case Some(Looked(_, at, answer)) => Some(CacheEntry(answer, at + TtlOf(ttls, answer)))
          case _ => None;
      }
    }
  }

  lemma {:induction false} RunRefines(ttls: Ttls, calls: seq<Call>)
    ensures Represents(ttls, CacheRun(ttls, calls), ReferenceRun(ttls, calls))
    decreases |calls|
  {
    if calls != [] {
      RunRefines(ttls, calls[..|calls| - 1]);
      var front, last := calls[..|calls| - 1], calls[|calls| - 1];
      StepRefines(ttls, CacheRun(ttls, front), ReferenceRun(ttls, front), last);
    }
  }

  /** After any calls, at any clock readings, the next answer is the reference's. */
  lemma CacheRefinesHistory(ttls: Ttls, calls: seq<Call>, last: Call)
    ensures CacheAnswer(ttls, calls, last) == Reference(ttls, ReferenceRun(ttls, calls), last).0
  {
    RunRefines(ttls, calls);
    StepRefines(ttls, CacheRun(ttls, calls), ReferenceRun(ttls, calls), last);
  }

  /**
   * The first resolve after a lookup at a given time, whatever happened before: the answer
   * is repeated while it is younger than the TTL of its kind, the positive one for a
   * deployment and the negative one for "not found", and asked for again from then on. A
   * lookup that fails later on falls back on the deployment only.
   */
  lemma RepeatedUntilTtl(ttls: Ttls, entries: Entries, service: string, at: int, answer: Result<Deployment>,
                         now: int, inner: Result<Deployment>)
    requires !(service in entries && at < entries[service].expiresAt)
    ensures var looked := CacheStep(entries, ttls, Resolve(service, at, answer)).1;
            var next := CacheStep(looked, ttls, Resolve(service, now, inner));
            && (answer.Ok? ==>
                  && (now < at + ttls.positive ==> next == (Some(answer), looked))
                  && (now >= at + ttls.positive ==>
                        next.0 == Some(if inner.Err? && inner.error != NotFound then answer else inner)))
            && (answer == Err(NotFound) ==>
                  && (now < at + ttls.negative ==> next == (Some(answer), looked))
                  && (now >= at + ttls.negative ==> next.0 == Some(inner)))
            && (answer.Err? && answer.error != NotFound ==> looked == entries)
  {
  }

  // ---------------------------------------------------------------------------
  // How often the inner resolver is asked

  /** The number of inner lookups for a service in a run from some entries. */
  function Lookups(ttls: Ttls, entries: Entries, calls: seq<Call>, service: string): nat
    decreases |calls|
  {
    if calls == [] then 0
    else
      var asked := calls[0].Resolve? && calls[0].service == service && !Hit(Find(entries, service), calls[0].now);
      (if asked then 1 else 0) + Lookups(ttls, CacheStep(entries, ttls, calls[0]).1, calls[1..], service)
  }

  /** Resolves only, on a clock that does not go back, between two times, without failures. */
  ghost predicate Steady(calls: seq<Call>, from: int, to: int) {
    && (forall i :: 0 <= i < |calls| ==> calls[i].Resolve? && from <= calls[i].now <= to && Definitive(calls[i].inner))
    && (forall i, j :: 0 <= i < j < |calls| ==> calls[i].now <= calls[j].now)
  }

  function MinTtl(ttls: Ttls): (t: int)
    ensures t <= ttls.positive && t <= ttls.negative && (t == ttls.positive || t == ttls.negative)
  {
    if ttls.positive <= ttls.negative then ttls.positive else ttls.negative
  }

  /**
   * In a steady run over a time T, n inner lookups for a service take at least n - 1
   * times the shorter TTL. An entry that is there at the start puts the first one off
   * until it expires.
   */
  lemma {:induction false} LookupsSpaced(ttls: Ttls, entries: Entries, calls: seq<Call>, service: string,
                                         from: int, to: int)
    requires ValidTtls(ttls) && Steady(calls, from, to)
    ensures var n := Lookups(ttls, entries, calls, service);
            n > 0 ==> && (n - 1) * MinTtl(ttls) <= to - from
                      && (service in entries ==> (n - 1) * MinTtl(ttls) <= to - entries[service].expiresAt)
    decreases |calls|
  {
    hide Steady, CacheStep, MinTtl;
    if calls != [] {
      var call, rest := calls[0], calls[1..];
      var after := CacheStep(entries, ttls, call).1;
      SteadyRest(calls, from, to);
      LookupsSpaced(ttls, after, rest, service, call.now, to);
      CacheStepExpiry(entries, ttls, call, service);
      OneMoreGap(Lookups(ttls, after, rest, service), MinTtl(ttls));
    }
  }

  lemma SteadyRest(calls: seq<Call>, from: int, to: int)
    requires calls != [] && Steady(calls, from, to)
    ensures calls[0].Resolve? && from <= calls[0].now <= to && Definitive(calls[0].inner)
    ensures Steady(calls[1..], calls[0].now, to)
  {
    var rest := calls[1..];
    forall i | 0 <= i < |rest|
      ensures rest[i].Resolve? && calls[0].now <= rest[i].now <= to && Definitive(rest[i].inner)
    {
      assert rest[i] == calls[i + 1];
    }
    assert forall i, j :: 0 <= i < j < |rest| ==> rest[i] == calls[i + 1] && rest[j] == calls[j + 1];
  }

  /** A lookup sets the deadline anew; nothing else touches the entry. */
  lemma CacheStepExpiry(entries: Entries, ttls: Ttls, call: Call, service: string)
    requires call.Resolve? && Definitive(call.inner)
    ensures var after := CacheStep(entries, ttls, call).1;
            if call.service == service && !Hit(Find(entries, service), call.now) then
              service in after && after[service].expiresAt >= call.now + MinTtl(ttls)
            else Find(after, service) == Find(entries, service)
  {
  }

  lemma OneMoreGap(n: nat, gap: int)
    ensures n * gap == (n - 1) * gap + gap
  {
  }
}
