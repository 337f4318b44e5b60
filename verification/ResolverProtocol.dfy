/**
 * Many calls on one caching resolver at once, over the in-memory store. The lock of
 * pkg/otelbridge/resolver.go is let go around the inner lookup, so a call is four
 * steps that others may come between: read the clock, peek at the entry, ask the inner
 * resolver, settle. The log of lookups and saves records what happened and is read by
 * no step.
 */
module ResolverProtocol {
  import opened Models
  import opened Storage
  import opened Resolver
  import opened RedisKeys

  datatype How = FromCache | FromInner | FromStale

  /** Where a call stands; `at` is its own clock reading. */
  datatype Phase =
    | Timed(service: string, at: int)
    | Missed(service: string, at: int, entry: Option<CacheEntry>)
    | Answered(service: string, at: int, entry: Option<CacheEntry>, answer: Result<Deployment>)
    | Done(service: string, at: int, answer: Result<Deployment>, how: How)

  /**
   * An inner lookup: the call that made it, with its clock reading and the entry it had
   * peeked at, and when the store was read, what it held and what the resolver answered.
   */
  datatype Lookup = Lookup(call: nat, service: string, startedAt: int, peeked: Option<CacheEntry>,
                           readAt: int, seen: map<string, Deployment>, answer: Result<Deployment>)

  datatype Save = Save(at: int, deployment: Deployment)

  datatype State = State(now: int, store: map<string, Deployment>, entries: Entries, calls: map<nat, Phase>,
                         lookups: seq<Lookup>, saves: seq<Save>)

  datatype Action =
    | Tick(elapsed: nat)
    | SaveDeployment(deployment: Deployment)
    | Begin(call: nat, service: string)
    | Peek(call: nat)
    | Ask(call: nat, answer: Result<Deployment>)
    | Conclude(call: nat)
    | Invalidate(service: string)
    | Reset

  const INIT := State(0, map[], map[], map[], [], [])

  /** Whether the action is possible; a call number is used once. */
  predicate Enabled(s: State, a: Action) {
    match a
    case Begin(c, _) => c !in s.calls
    case Peek(c) => c in s.calls && s.calls[c].Timed?
    case Ask(c, _) => c in s.calls && s.calls[c].Missed?
    case Conclude(c) => c in s.calls && s.calls[c].Answered?
    case _ => true
  }

  function Finished(p: Phase): Phase
    requires p.Answered?
  {
    var stale := !Definitive(p.answer) && p.entry.Some? && p.entry.value.answer.Ok?;
    Done(p.service, p.at, Settle(p.entry, p.answer), if stale then FromStale else FromInner)
  }

  /** One atomic step. An action that is not possible changes nothing. */
  function Next(ttls: Ttls, s: State, a: Action): State {
    if !Enabled(s, a) then s
    else
      match a
      case Tick(elapsed) => s.(now := s.now + elapsed)
      case SaveDeployment(d) => s.(store := s.store[KeyOf(d) := d], saves := s.saves + [Save(s.now, d)])
      case Begin(c, service) => s.(calls := s.calls[c := Timed(service, s.now)])
      case Peek(c) =>
        var p := s.calls[c];
        var entry := Find(s.entries, p.service);
        s.(calls := s.calls[c := if Hit(entry, p.at) then Done(p.service, p.at, entry.value.answer, FromCache)
                                 else Missed(p.service, p.at, entry)])
      case Ask(c, answer) =>
        var p := s.calls[c];
        s.(calls := s.calls[c := Answered(p.service, p.at, p.entry, answer)],
           lookups := s.lookups + [Lookup(c, p.service, p.at, p.entry, s.now, s.store, answer)])
      case Conclude(c) =>
        var p := s.calls[c];
        s.(calls := s.calls[c := Finished(p)], entries := Stored(s.entries, ttls, p.service, p.at, p.answer))
      case Invalidate(service) => s.(entries := s.entries - {service})
      case Reset => s.(entries := map[])
  }

  function After(ttls: Ttls, actions: seq<Action>): State {
    if actions == [] then INIT else Next(ttls, After(ttls, actions[..|actions| - 1]), actions[|actions| - 1])
  }

  /** A call left to itself from its peek on does what the sequential resolver does. */
  lemma AloneIsSequential(ttls: Ttls, s: State, c: nat, service: string, inner: Result<Deployment>)
    requires c !in s.calls
    ensures var peeked := Next(ttls, Next(ttls, s, Begin(c, service)), Peek(c));
            var end := Next(ttls, Next(ttls, peeked, Ask(c, inner)), Conclude(c));
            && end.calls[c].Done?
            && (Some(end.calls[c].answer), end.entries)
               == CacheStep(s.entries, ttls, Call.Resolve(service, s.now, inner))
  {
  }

  /** So does clearing, and it touches nothing but the entries. */
  lemma ClearingIsSequential(ttls: Ttls, s: State, service: string)
    ensures Next(ttls, s, Action.Invalidate(service))
         == s.(entries := CacheStep(s.entries, ttls, Call.Invalidate(service)).1)
    ensures Next(ttls, s, Action.Reset) == s.(entries := CacheStep(s.entries, ttls, Call.Reset).1)
  {
  }

  // ---------------------------------------------------------------------------
  // Every answer comes from a real and recent lookup

  /** The entry caches the answer of a lookup of its service, for that lookup's TTL. */
  ghost predicate Backed(ttls: Ttls, lookups: seq<Lookup>, service: string, e: CacheEntry) {
    Definitive(e.answer) &&
    exists i :: 0 <= i < |lookups| && lookups[i].service == service && lookups[i].answer == e.answer
                && e.expiresAt == lookups[i].startedAt + TtlOf(ttls, e.answer)
  }

  /** The call's own lookup, made after it had peeked at the given entry. */
  ghost predicate Asked(lookups: seq<Lookup>, c: nat, service: string, at: int, peeked: Option<CacheEntry>,
                        answer: Result<Deployment>) {
    exists i :: 0 <= i < |lookups| && lookups[i].call == c && lookups[i].service == service
                && lookups[i].startedAt == at && lookups[i].peeked == peeked && lookups[i].answer == answer
  }

  /** A lookup whose answer was still within its TTL at the given clock reading. */
  ghost predicate FreshAt(ttls: Ttls, lookups: seq<Lookup>, service: string, at: int, answer: Result<Deployment>) {
    match answer
    case Ok(_) => GivenAfter(lookups, service, answer, at - ttls.positive)
    case Err(error) => error == NotFound && GivenAfter(lookups, service, answer, at - ttls.negative)
  }

  /** A lookup of the service that began after the given time had this answer. */
  ghost predicate GivenAfter(lookups: seq<Lookup>, service: string, answer: Result<Deployment>, since: int) {
    exists i :: 0 <= i < |lookups| && lookups[i].service == service && lookups[i].answer == answer
                && since < lookups[i].startedAt
  }

  /** The call's own lookup failed, and the answer is the expired positive entry it had peeked at. */
  ghost predicate Rescued(ttls: Ttls, lookups: seq<Lookup>, c: nat, service: string, at: int,
                          answer: Result<Deployment>) {
    answer.Ok? &&
    exists peeked: CacheEntry, failure: Result<Deployment> ::
      && Asked(lookups, c, service, at, Some(peeked), failure) && !Definitive(failure)
      && peeked.answer == answer && peeked.expiresAt <= at && Backed(ttls, lookups, service, peeked)
  }

  ghost predicate MissBacked(ttls: Ttls, lookups: seq<Lookup>, service: string, at: int, entry: Option<CacheEntry>) {
    !Hit(entry, at) && (entry.Some? ==> Backed(ttls, lookups, service, entry.value))
  }

  ghost predicate PhaseBacked(ttls: Ttls, lookups: seq<Lookup>, now: int, c: nat, p: Phase) {
    p.at <= now &&
    match p
    case Timed(_, _) => true
    case Missed(service, at, entry) => MissBacked(ttls, lookups, service, at, entry)
    case Answered(service, at, entry, answer) =>
      MissBacked(ttls, lookups, service, at, entry) && Asked(lookups, c, service, at, entry, answer)
    case Done(service, at, answer, FromCache) => FreshAt(ttls, lookups, service, at, answer)
    case Done(service, at, answer, FromInner) => exists peeked :: Asked(lookups, c, service, at, peeked, answer)
    case Done(service, at, answer, FromStale) => Rescued(ttls, lookups, c, service, at, answer)
  }

  ghost predicate AllBacked(ttls: Ttls, s: State) {
    && (forall service :: service in s.entries ==> Backed(ttls, s.lookups, service, s.entries[service]))
    && (forall c :: c in s.calls ==> PhaseBacked(ttls, s.lookups, s.now, c, s.calls[c]))
    && (forall i :: 0 <= i < |s.lookups| ==> s.lookups[i].startedAt <= s.lookups[i].readAt <= s.now)
  }

  lemma BackedMore(ttls: Ttls, lookups: seq<Lookup>, more: Lookup, service: string, e: CacheEntry)
    requires Backed(ttls, lookups, service, e)
    ensures Backed(ttls, lookups + [more], service, e)
  {
    var i :| 0 <= i < |lookups| && lookups[i].service == service && lookups[i].answer == e.answer
             && e.expiresAt == lookups[i].startedAt + TtlOf(ttls, e.answer);
    assert (lookups + [more])[i] == lookups[i];
  }

  lemma AskedMore(lookups: seq<Lookup>, more: Lookup, c: nat, service: string, at: int, peeked: Option<CacheEntry>,
                  answer: Result<Deployment>)
    requires Asked(lookups, c, service, at, peeked, answer)
    ensures Asked(lookups + [more], c, service, at, peeked, answer)
  {
    var i :| 0 <= i < |lookups| && lookups[i].call == c && lookups[i].service == service
             && lookups[i].startedAt == at && lookups[i].peeked == peeked && lookups[i].answer == answer;
    assert (lookups + [more])[i] == lookups[i];
  }

  lemma GivenMore(lookups: seq<Lookup>, more: Lookup, service: string, answer: Result<Deployment>, since: int)
    ensures GivenAfter(lookups, service, answer, since) ==> GivenAfter(lookups + [more], service, answer, since)
  {
    if i :| 0 <= i < |lookups| && lookups[i].service == service && lookups[i].answer == answer
            && since < lookups[i].startedAt {
      assert (lookups + [more])[i] == lookups[i];
    }
  }

  lemma FreshMore(ttls: Ttls, lookups: seq<Lookup>, more: Lookup, service: string, at: int, answer: Result<Deployment>)
    requires FreshAt(ttls, lookups, service, at, answer)
    ensures FreshAt(ttls, lookups + [more], service, at, answer)
  {
    GivenMore(lookups, more, service, answer, at - ttls.positive);
    GivenMore(lookups, more, service, answer, at - ttls.negative);
  }

  lemma PhaseBackedMore(ttls: Ttls, lookups: seq<Lookup>, more: Lookup, now: int, c: nat, p: Phase)
    requires PhaseBacked(ttls, lookups, now, c, p)
    ensures PhaseBacked(ttls, lookups + [more], now, c, p)
  {
    hide Asked, Backed, FreshAt, Hit;
    match p
    case Timed(_, _) =>
    case Missed(service, at, entry) => if entry.Some? { BackedMore(ttls, lookups, more, service, entry.value); }
    case Answered(service, at, entry, answer) =>
      if entry.Some? { BackedMore(ttls, lookups, more, service, entry.value); }
      AskedMore(lookups, more, c, service, at, entry, answer);
    case Done(service, at, answer, FromCache) => FreshMore(ttls, lookups, more, service, at, answer);
    case Done(service, at, answer, FromInner) =>
      var peeked :| Asked(lookups, c, service, at, peeked, answer);
      AskedMore(lookups, more, c, service, at, peeked, answer);
    case Done(service, at, answer, FromStale) =>
      var peeked: CacheEntry, failure: Result<Deployment> :|
        && Asked(lookups, c, service, at, Some(peeked), failure) && !Definitive(failure)
        && peeked.answer == answer && peeked.expiresAt <= at && Backed(ttls, lookups, service, peeked);
      AskedMore(lookups, more, c, service, at, Some(peeked), failure);
      BackedMore(ttls, lookups, more, service, peeked);
  }

  lemma AskBacked(ttls: Ttls, s: State, c: nat, answer: Result<Deployment>)
    requires AllBacked(ttls, s) && Enabled(s, Ask(c, answer))
    ensures AllBacked(ttls, Next(ttls, s, Ask(c, answer)))
  {
    hide Backed, FreshAt, Rescued, Hit;
    var p := s.calls[c];
    var more := Lookup(c, p.service, p.at, p.entry, s.now, s.store, answer);
    var all := s.lookups + [more];
    forall service | service in s.entries ensures Backed(ttls, all, service, s.entries[service]) {
      BackedMore(ttls, s.lookups, more, service, s.entries[service]);
    }
    forall d | d in s.calls ensures PhaseBacked(ttls, all, s.now, d, s.calls[d]) {
      PhaseBackedMore(ttls, s.lookups, more, s.now, d, s.calls[d]);
    }
    assert all[|s.lookups|] == more;
    assert PhaseBacked(ttls, all, s.now, c, Answered(p.service, p.at, p.entry, answer));
  }

  lemma PeekBacked(ttls: Ttls, s: State, c: nat)
    requires AllBacked(ttls, s) && Enabled(s, Peek(c))
    ensures AllBacked(ttls, Next(ttls, s, Peek(c)))
  {
    hide Asked, Rescued;
    var p := s.calls[c];
    var entry := Find(s.entries, p.service);
    if Hit(entry, p.at) {
      assert Backed(ttls, s.lookups, p.service, entry.value);
      assert FreshAt(ttls, s.lookups, p.service, p.at, entry.value.answer);
    }
  }

  lemma FinishedBacked(ttls: Ttls, lookups: seq<Lookup>, now: int, c: nat, p: Phase)
    requires p.Answered? && PhaseBacked(ttls, lookups, now, c, p)
    ensures PhaseBacked(ttls, lookups, now, c, Finished(p))
  {
    hide Asked, Backed, FreshAt;
    if !Definitive(p.answer) && p.entry.Some? && p.entry.value.answer.Ok? {
      assert Asked(lookups, c, p.service, p.at, Some(p.entry.value), p.answer);
      assert Rescued(ttls, lookups, c, p.service, p.at, p.entry.value.answer);
    } else {
      assert Asked(lookups, c, p.service, p.at, p.entry, p.answer);
    }
  }

  lemma ConcludeBacked(ttls: Ttls, s: State, c: nat)
    requires AllBacked(ttls, s) && Enabled(s, Conclude(c))
    ensures AllBacked(ttls, Next(ttls, s, Conclude(c)))
  {
    hide Rescued, FreshAt, MissBacked;
    var p := s.calls[c];
    assert PhaseBacked(ttls, s.lookups, s.now, c, p);
    FinishedBacked(ttls, s.lookups, s.now, c, p);
    if Definitive(p.answer) {
      assert Backed(ttls, s.lookups, p.service, CacheEntry(p.answer, p.at + TtlOf(ttls, p.answer)));
    }
  }

  lemma OtherBacked(ttls: Ttls, s: State, a: Action)
    requires AllBacked(ttls, s) && Enabled(s, a) && !a.Ask? && !a.Peek? && !a.Conclude?
    ensures AllBacked(ttls, Next(ttls, s, a))
  {
    hide Asked, Backed, FreshAt, Rescued, MissBacked;
  }

  lemma {:induction false} EveryRunBacked(ttls: Ttls, actions: seq<Action>)
    ensures AllBacked(ttls, After(ttls, actions))
    decreases |actions|
  {
    if actions != [] {
      var s, a := After(ttls, actions[..|actions| - 1]), actions[|actions| - 1];
      EveryRunBacked(ttls, actions[..|actions| - 1]);
      if Enabled(s, a) {
        match a
        case Ask(c, answer) => AskBacked(ttls, s, c, answer);
        case Peek(c) => PeekBacked(ttls, s, c);
        case Conclude(c) => ConcludeBacked(ttls, s, c);
        case _ => OtherBacked(ttls, s, a);
      }
    }
  }

  /**
   * In every interleaving, an answer from the cache was really given by the inner
   * resolver for that service, in a lookup whose call read the clock less than the
   * matching TTL before this call did, even if slow lookups overwrote newer entries.
   * An answer from the inner resolver is that of the call's own lookup. A stale answer is
   * the expired deployment that the call itself had peeked at before its lookup failed.
   */
  lemma AnswersAreReal(ttls: Ttls, actions: seq<Action>, c: nat)
    requires c in After(ttls, actions).calls && After(ttls, actions).calls[c].Done?
    ensures var s := After(ttls, actions);
            var p := s.calls[c];
            match p.how
            case FromCache =>
              && (p.answer.Ok? ==> GivenAfter(s.lookups, p.service, p.answer, p.at - ttls.positive))
              && (p.answer.Err? ==>
                    p.answer.error == NotFound && GivenAfter(s.lookups, p.service, p.answer, p.at - ttls.negative))
            case FromInner => exists peeked :: Asked(s.lookups, c, p.service, p.at, peeked, p.answer)
            case FromStale => Rescued(ttls, s.lookups, c, p.service, p.at, p.answer)
  {
    hide After, Rescued, Asked, Backed, GivenAfter;
    var s := After(ttls, actions);
    EveryRunBacked(ttls, actions);
    assert PhaseBacked(ttls, s.lookups, s.now, c, s.calls[c]);
  }

  function MaxTtl(ttls: Ttls): (t: int)
    ensures t >= ttls.positive && t >= ttls.negative && (t == ttls.positive || t == ttls.negative)
  {
    if ttls.positive >= ttls.negative then ttls.positive else ttls.negative
  }

  /**
   * In every interleaving, whatever the inner resolver does: a call that does not fall
   * back on a stale entry answers from a read that was made less than the longer of the
   * two TTLs before the call's own clock reading.
   */
  lemma AnswersReadAfter(ttls: Ttls, actions: seq<Action>, c: nat, since: int)
      returns (i: nat)
    requires ValidTtls(ttls) && c in After(ttls, actions).calls
    requires var p := After(ttls, actions).calls[c];
             p.Done? && p.how != FromStale && p.at >= since + MaxTtl(ttls)
    ensures var s := After(ttls, actions);
            && i < |s.lookups| && s.lookups[i].service == s.calls[c].service
            && s.lookups[i].answer == s.calls[c].answer && s.lookups[i].readAt > since
  {
    hide After;
    var s := After(ttls, actions);
    var p := s.calls[c];
    EveryRunBacked(ttls, actions);
    AnswersAreReal(ttls, actions, c);
    if p.how == FromCache {
      i :| 0 <= i < |s.lookups| && s.lookups[i].service == p.service && s.lookups[i].answer == p.answer
           && p.at - MaxTtl(ttls) < s.lookups[i].startedAt;
    } else {
      var peeked :| Asked(s.lookups, c, p.service, p.at, peeked, p.answer);
      i :| 0 <= i < |s.lookups| && s.lookups[i].call == c && s.lookups[i].service == p.service
           && s.lookups[i].startedAt == p.at && s.lookups[i].peeked == peeked && s.lookups[i].answer == p.answer;
    }
  }
}
