/** How often calls at once make a caching resolver ask the inner one. */
module ResolverSpacing {
  import opened Models
  import opened Resolver
  import opened ResolverProtocol

  // ---------------------------------------------------------------------------
  // Calls that do not overlap keep the lookups of a service apart

  /** Between its miss and its end, a call is about to store an entry. */
  predicate Pending(p: Phase, service: string) {
    p.service == service && (p.Missed? || p.Answered?)
  }

  /** A step in which the service is not invalidated and no lookup of it fails. */
  ghost predicate UndisturbedStep(s: State, a: Action, service: string) {
    && !a.Reset? && !(a.Invalidate? && a.service == service)
    && (a.Ask? && Enabled(s, a) && s.calls[a.call].service == service ==> Definitive(a.answer))
  }

  /** Such a step in which, besides, no call for the service misses while another is pending. */
  ghost predicate SerialStep(s: State, a: Action, service: string) {
    && UndisturbedStep(s, a, service)
    && (a.Peek? && Enabled(s, a) && s.calls[a.call].service == service &&
        !Hit(Find(s.entries, service), s.calls[a.call].at) ==>
          forall d :: d in s.calls && d != a.call ==> !Pending(s.calls[d], service))
  }

  ghost predicate Serial(ttls: Ttls, actions: seq<Action>, service: string) {
    forall i :: 0 <= i < |actions| ==> SerialStep(After(ttls, actions[..i]), actions[i], service)
  }

  /** The lookups of a service have clock readings at least the gap apart, in their order. */
  ghost predicate Spaced(lookups: seq<Lookup>, service: string, gap: int) {
    forall i, j :: 0 <= i < j < |lookups| && lookups[i].service == service && lookups[j].service == service ==>
      lookups[i].startedAt + gap <= lookups[j].startedAt
  }

  /** Every lookup of the service started at least the gap before t. */
  ghost predicate AllBefore(lookups: seq<Lookup>, service: string, gap: int, t: int) {
    forall i :: 0 <= i < |lookups| && lookups[i].service == service ==> lookups[i].startedAt + gap <= t
  }

  /** What a call needs for its own part: room for the lookup it is about to make, or has just made. */
  ghost predicate CallSpaced(ttls: Ttls, lookups: seq<Lookup>, service: string, p: Phase) {
    Pending(p, service) ==>
      if p.Missed? then AllBefore(lookups, service, MinTtl(ttls), p.at)
      else Definitive(p.answer) && AllBefore(lookups, service, 0, p.at)
  }

  /** The entry of the service covers every lookup made so far. */
  ghost predicate EntryCovers(ttls: Ttls, s: State, service: string) {
    && (service !in s.entries ==> forall i :: 0 <= i < |s.lookups| ==> s.lookups[i].service != service)
    && (service in s.entries ==> AllBefore(s.lookups, service, MinTtl(ttls), s.entries[service].expiresAt))
  }

  ghost predicate OnePending(s: State, service: string) {
    forall c, d :: c in s.calls && d in s.calls && c != d ==>
      !Pending(s.calls[c], service) || !Pending(s.calls[d], service)
  }

  /** Call c has its answer and is about to store it. */
  predicate Answering(s: State, c: nat, service: string) {
    c in s.calls && s.calls[c].service == service && s.calls[c].Answered?
  }

  ghost predicate Orderly(ttls: Ttls, s: State, service: string) {
    && Spaced(s.lookups, service, MinTtl(ttls))
    && OnePending(s, service)
    && (forall c :: c in s.calls ==> CallSpaced(ttls, s.lookups, service, s.calls[c]))
    && ((exists c :: Answering(s, c, service)) || EntryCovers(ttls, s, service))
  }

  lemma StillAnswering(ttls: Ttls, s: State, a: Action, c: nat, service: string)
    requires Answering(s, c, service) && (a.Conclude? ==> a.call != c)
    ensures Answering(Next(ttls, s, a), c, service)
  {
  }

  lemma PeekOrderly(ttls: Ttls, s: State, c: nat, service: string)
    requires Orderly(ttls, s, service) && SerialStep(s, Peek(c), service) && Enabled(s, Peek(c))
    ensures Orderly(ttls, Next(ttls, s, Peek(c)), service)
  {
    hide Spaced, MinTtl;
    if d :| Answering(s, d, service) {
      StillAnswering(ttls, s, Peek(c), d, service);
      assert Pending(s.calls[d], service);
    }
  }

  /** The log grows by a lookup of another service. */
  lemma OtherLookup(lookups: seq<Lookup>, more: Lookup, service: string, gap: int)
    requires more.service != service
    ensures Spaced(lookups, service, gap) ==> Spaced(lookups + [more], service, gap)
    ensures forall g, t :: AllBefore(lookups, service, g, t) ==> AllBefore(lookups + [more], service, g, t)
  {
  }

  lemma OwnLookup(ttls: Ttls, lookups: seq<Lookup>, more: Lookup)
    requires ValidTtls(ttls) && Spaced(lookups, more.service, MinTtl(ttls))
    requires AllBefore(lookups, more.service, MinTtl(ttls), more.startedAt)
    ensures Spaced(lookups + [more], more.service, MinTtl(ttls))
    ensures AllBefore(lookups + [more], more.service, 0, more.startedAt)
  {
  }

  lemma AskOrderly(ttls: Ttls, s: State, c: nat, answer: Result<Deployment>, service: string)
    requires ValidTtls(ttls) && Orderly(ttls, s, service)
    requires SerialStep(s, Ask(c, answer), service) && Enabled(s, Ask(c, answer))
    ensures Orderly(ttls, Next(ttls, s, Ask(c, answer)), service)
  {
    hide Spaced, AllBefore, MinTtl;
    var p, s' := s.calls[c], Next(ttls, s, Ask(c, answer));
    var more := Lookup(c, p.service, p.at, p.entry, s.now, s.store, answer);
    if p.service == service {
      assert Pending(p, service) && CallSpaced(ttls, s.lookups, service, p);
      OwnLookup(ttls, s.lookups, more);
      assert Answering(s', c, service);
    } else {
      OtherLookup(s.lookups, more, service, MinTtl(ttls));
      if d :| Answering(s, d, service) {
        StillAnswering(ttls, s, Ask(c, answer), d, service);
      } else {
        NoneAdded(s.lookups, more, service);
      }
    }
  }

  lemma NoneAdded(lookups: seq<Lookup>, more: Lookup, service: string)
    requires more.service != service
    ensures (forall i :: 0 <= i < |lookups| ==> lookups[i].service != service) ==>
            forall i :: 0 <= i < |lookups + [more]| ==> (lookups + [more])[i].service != service
  {
  }

  lemma ConcludeOrderly(ttls: Ttls, s: State, c: nat, service: string)
    requires ValidTtls(ttls) && Orderly(ttls, s, service) && Enabled(s, Conclude(c))
    ensures Orderly(ttls, Next(ttls, s, Conclude(c)), service)
  {
    hide Spaced;
    var p := s.calls[c];
    if p.service == service {
      assert Pending(p, service) && CallSpaced(ttls, s.lookups, service, p);
    } else if d :| Answering(s, d, service) {
      StillAnswering(ttls, s, Conclude(c), d, service);
    }
  }

  lemma OtherOrderly(ttls: Ttls, s: State, a: Action, service: string)
    requires Orderly(ttls, s, service) && SerialStep(s, a, service)
    requires !Enabled(s, a) || (!a.Peek? && !a.Ask? && !a.Conclude?)
    ensures Orderly(ttls, Next(ttls, s, a), service)
  {
    hide Spaced, AllBefore, MinTtl;
    if Enabled(s, a) {
      if d :| Answering(s, d, service) { StillAnswering(ttls, s, a, d, service); }
    }
  }

  lemma SerialFront(ttls: Ttls, actions: seq<Action>, service: string)
    requires actions != [] && Serial(ttls, actions, service)
    ensures Serial(ttls, actions[..|actions| - 1], service)
    ensures SerialStep(After(ttls, actions[..|actions| - 1]), actions[|actions| - 1], service)
  {
    hide After, SerialStep;
    var front := actions[..|actions| - 1];
    forall i | 0 <= i < |front| ensures SerialStep(After(ttls, front[..i]), front[i], service) {
      assert front[..i] == actions[..i];
    }
  }

  lemma {:induction false} EverySerialRunOrderly(ttls: Ttls, actions: seq<Action>, service: string)
    requires ValidTtls(ttls) && Serial(ttls, actions, service)
    ensures Orderly(ttls, After(ttls, actions), service)
    decreases |actions|
  {
    hide Orderly, SerialStep, Serial, Next, Enabled;
    if actions == [] {
      NothingAsked(ttls, service);
    } else {
      var s, a := After(ttls, actions[..|actions| - 1]), actions[|actions| - 1];
      SerialFront(ttls, actions, service);
      EverySerialRunOrderly(ttls, actions[..|actions| - 1], service);
      if !Enabled(s, a) {
        OtherOrderly(ttls, s, a, service);
      } else {
        match a
        case Peek(c) => PeekOrderly(ttls, s, c, service);
        case Ask(c, answer) => AskOrderly(ttls, s, c, answer, service);
        case Conclude(c) => ConcludeOrderly(ttls, s, c, service);
        case _ => OtherOrderly(ttls, s, a, service);
      }
    }
  }

  lemma NothingAsked(ttls: Ttls, service: string)
    ensures Orderly(ttls, INIT, service)
  {
  }

  /**
   * In every run in which a service is not invalidated, its lookups do not fail, and no
   * call for it misses while another one is pending, the inner lookups of the service have
   * clock readings at least the shorter TTL apart: one lookup per cache period.
   */
  lemma SerialLookupsSpaced(ttls: Ttls, actions: seq<Action>, service: string)
    requires ValidTtls(ttls) && Serial(ttls, actions, service)
    ensures Spaced(After(ttls, actions).lookups, service, MinTtl(ttls))
  {
    EverySerialRunOrderly(ttls, actions, service);
  }

  // ---------------------------------------------------------------------------
  // Calls that overlap all ask

  /** Call c has missed and has not asked yet. */
  predicate Waits(s: State, c: nat) {
    c in s.calls && s.calls[c].Missed?
  }

  /** A call that has missed still waits, or has its own lookup in the log. */
  ghost predicate AsksOrWaits(s: State, c: nat, service: string, at: int) {
    && c in s.calls && s.calls[c].service == service && s.calls[c].at == at && !s.calls[c].Timed?
    && (s.calls[c].Missed? ||
        exists i :: 0 <= i < |s.lookups| && s.lookups[i].call == c && s.lookups[i].service == service
                    && s.lookups[i].startedAt == at)
  }

  lemma AsksOrWaitsStep(ttls: Ttls, s: State, a: Action, c: nat, service: string, at: int)
    requires AsksOrWaits(s, c, service, at)
    ensures AsksOrWaits(Next(ttls, s, a), c, service, at)
  {
    var s' := Next(ttls, s, a);
    if !s.calls[c].Missed? {
      var i :| 0 <= i < |s.lookups| && s.lookups[i].call == c && s.lookups[i].service == service
               && s.lookups[i].startedAt == at;
      assert s'.lookups[i] == s.lookups[i];
    } else if a.Ask? && a.call == c {
      assert s'.lookups[|s.lookups|].call == c;
    }
  }

  lemma {:induction false} AsksOrWaitsLater(ttls: Ttls, actions: seq<Action>, more: seq<Action>,
                                            c: nat, service: string, at: int)
    requires AsksOrWaits(After(ttls, actions), c, service, at)
    ensures AsksOrWaits(After(ttls, actions + more), c, service, at)
    decreases |more|
  {
    hide AsksOrWaits, Next;
    if more == [] {
      assert actions + more == actions;
    } else {
      var front := more[..|more| - 1];
      AsksOrWaitsLater(ttls, actions, front, c, service, at);
      assert (actions + more)[..|actions + more| - 1] == actions + front;
      AsksOrWaitsStep(ttls, After(ttls, actions + front), more[|more| - 1], c, service, at);
    }
  }

  /** A pending call waits, or its own lookup is in the log. */
  lemma PendingAsksOrWaits(ttls: Ttls, actions: seq<Action>, c: nat, service: string)
    requires c in After(ttls, actions).calls && Pending(After(ttls, actions).calls[c], service)
    ensures AsksOrWaits(After(ttls, actions), c, service, After(ttls, actions).calls[c].at)
    ensures After(ttls, actions).calls[c].at <= After(ttls, actions).now
  {
    hide After, MissBacked;
    var s := After(ttls, actions);
    EveryRunBacked(ttls, actions);
    assert PhaseBacked(ttls, s.lookups, s.now, c, s.calls[c]);
  }

  /**
   * Two calls for one service that are both pending, in any reachable state, both ask:
   * however the run goes on, once neither of them waits any more there are two lookups,
   * one of each, with their clock readings. If those are closer together than the
   * shorter TTL, the run has asked more than once in a cache period.
   */
  lemma PendingTogetherAskBoth(ttls: Ttls, actions: seq<Action>, more: seq<Action>, service: string, c: nat, d: nat)
      returns (i: nat, j: nat)
    requires c != d && c in After(ttls, actions).calls && d in After(ttls, actions).calls
    requires Pending(After(ttls, actions).calls[c], service) && Pending(After(ttls, actions).calls[d], service)
    requires !Waits(After(ttls, actions + more), c) && !Waits(After(ttls, actions + more), d)
    ensures var p, q, t := After(ttls, actions).calls[c], After(ttls, actions).calls[d], After(ttls, actions + more);
            && i != j && i < |t.lookups| && j < |t.lookups|
            && t.lookups[i].call == c && t.lookups[i].service == service && t.lookups[i].startedAt == p.at
            && t.lookups[j].call == d && t.lookups[j].service == service && t.lookups[j].startedAt == q.at
            && (-MinTtl(ttls) < p.at - q.at < MinTtl(ttls) ==> !Spaced(t.lookups, service, MinTtl(ttls)))
  {
    hide After;
    var s, t := After(ttls, actions), After(ttls, actions + more);
    PendingAsksOrWaits(ttls, actions, c, service);
    PendingAsksOrWaits(ttls, actions, d, service);
    AsksOrWaitsLater(ttls, actions, more, c, service, s.calls[c].at);
    AsksOrWaitsLater(ttls, actions, more, d, service, s.calls[d].at);
    i :| 0 <= i < |t.lookups| && t.lookups[i].call == c && t.lookups[i].service == service
         && t.lookups[i].startedAt == s.calls[c].at;
    j :| 0 <= j < |t.lookups| && t.lookups[j].call == d && t.lookups[j].service == service
         && t.lookups[j].startedAt == s.calls[d].at;
    if i < j { assert t.lookups[i].startedAt == s.calls[c].at; } else { assert j < i; }
  }

  /** And nothing stops them: two calls that wait can make their lookups at once. */
  lemma BothCanAsk(ttls: Ttls, actions: seq<Action>, c: nat, d: nat, a: Result<Deployment>, b: Result<Deployment>)
    requires c != d && Waits(After(ttls, actions), c) && Waits(After(ttls, actions), d)
    ensures var s, t := After(ttls, actions), After(ttls, actions + [Ask(c, a), Ask(d, b)]);
            && |t.lookups| == |s.lookups| + 2 && t.lookups[..|s.lookups|] == s.lookups
            && t.lookups[|s.lookups|].call == c && t.lookups[|s.lookups|].answer == a
            && t.lookups[|s.lookups| + 1].call == d && t.lookups[|s.lookups| + 1].answer == b
  {
    hide After;
    assert actions + [Ask(c, a), Ask(d, b)] == actions + [Ask(c, a)] + [Ask(d, b)];
    AfterAppend(ttls, actions, Ask(c, a));
    AfterAppend(ttls, actions + [Ask(c, a)], Ask(d, b));
  }

  // ---------------------------------------------------------------------------
  // Exactly when there is one lookup per cache period

  ghost predicate Undisturbed(ttls: Ttls, actions: seq<Action>, service: string) {
    forall i :: 0 <= i < |actions| ==> UndisturbedStep(After(ttls, actions[..i]), actions[i], service)
  }

  /** No pending call for the service is as old as the shorter TTL. */
  ghost predicate Young(ttls: Ttls, s: State, service: string) {
    forall c :: c in s.calls && Pending(s.calls[c], service) ==> s.now - s.calls[c].at < MinTtl(ttls)
  }

  /** Lookups of the service take less than the shorter TTL, and none is left to make at the end. */
  ghost predicate Prompt(ttls: Ttls, actions: seq<Action>, service: string) {
    && (forall i :: 0 <= i <= |actions| ==> Young(ttls, After(ttls, actions[..i]), service))
    && (forall c :: Waits(After(ttls, actions), c) ==> After(ttls, actions).calls[c].service != service)
  }

  /** No two calls for the service are ever pending at once. */
  ghost predicate NeverTwoPending(ttls: Ttls, actions: seq<Action>, service: string) {
    forall i :: 0 <= i <= |actions| ==> OnePending(After(ttls, actions[..i]), service)
  }

  /** A miss while another call is pending leaves two pending. */
  lemma OverlapPending(ttls: Ttls, s: State, c: nat, d: nat, service: string)
    requires Enabled(s, Peek(c)) && s.calls[c].service == service && !Hit(Find(s.entries, service), s.calls[c].at)
    requires d in s.calls && d != c && Pending(s.calls[d], service)
    ensures !OnePending(Next(ttls, s, Peek(c)), service)
  {
    var s' := Next(ttls, s, Peek(c));
    assert Pending(s'.calls[c], service) && Pending(s'.calls[d], service);
  }

  lemma StepIsSerial(ttls: Ttls, s: State, a: Action, service: string)
    requires UndisturbedStep(s, a, service) && OnePending(Next(ttls, s, a), service)
    ensures SerialStep(s, a, service)
  {
    hide OnePending, Pending, Next;
    if a.Peek? && Enabled(s, a) && s.calls[a.call].service == service &&
       !Hit(Find(s.entries, service), s.calls[a.call].at) {
      forall d | d in s.calls && d != a.call ensures !Pending(s.calls[d], service) {
        if Pending(s.calls[d], service) { OverlapPending(ttls, s, a.call, d, service); }
      }
    }
  }

  lemma OnePendingIsSerial(ttls: Ttls, actions: seq<Action>, service: string)
    requires Undisturbed(ttls, actions, service) && NeverTwoPending(ttls, actions, service)
    ensures Serial(ttls, actions, service)
  {
    hide OnePending, UndisturbedStep, SerialStep, Next;
    forall i | 0 <= i < |actions| ensures SerialStep(After(ttls, actions[..i]), actions[i], service) {
      assert actions[..i + 1][..i] == actions[..i];
      assert OnePending(After(ttls, actions[..i + 1]), service);
      StepIsSerial(ttls, After(ttls, actions[..i]), actions[i], service);
    }
  }

  /** A call that was pending waits no more at the end, and was younger than the shorter TTL. */
  lemma PromptCall(ttls: Ttls, actions: seq<Action>, service: string, k: nat, c: nat)
    requires Prompt(ttls, actions, service) && k <= |actions|
    requires c in After(ttls, actions[..k]).calls && Pending(After(ttls, actions[..k]).calls[c], service)
    ensures !Waits(After(ttls, actions[..k] + actions[k..]), c)
    ensures var s := After(ttls, actions[..k]); s.now - MinTtl(ttls) < s.calls[c].at <= s.now
  {
    hide After, MinTtl, Pending, AsksOrWaits;
    assert actions[..k] + actions[k..] == actions;
    PendingAsksOrWaits(ttls, actions[..k], c, service);
    StillOfService(ttls, actions[..k], actions[k..], c, service);
    assert Young(ttls, After(ttls, actions[..k]), service);
  }

  lemma PairBreaksSpacing(ttls: Ttls, actions: seq<Action>, service: string, k: nat, c: nat, d: nat)
    requires Prompt(ttls, actions, service) && k <= |actions| && c != d
    requires c in After(ttls, actions[..k]).calls && Pending(After(ttls, actions[..k]).calls[c], service)
    requires d in After(ttls, actions[..k]).calls && Pending(After(ttls, actions[..k]).calls[d], service)
    ensures !Spaced(After(ttls, actions).lookups, service, MinTtl(ttls))
  {
    hide After, Spaced, MinTtl, Pending, Prompt, Waits;
    assert actions[..k] + actions[k..] == actions;
    PromptCall(ttls, actions, service, k, c);
    PromptCall(ttls, actions, service, k, d);
    var i, j := PendingTogetherAskBoth(ttls, actions[..k], actions[k..], service, c, d);
  }

  lemma StillOfService(ttls: Ttls, actions: seq<Action>, more: seq<Action>, c: nat, service: string)
    requires c in After(ttls, actions).calls && Pending(After(ttls, actions).calls[c], service)
    ensures c in After(ttls, actions + more).calls && After(ttls, actions + more).calls[c].service == service
  {
    hide After;
    PendingAsksOrWaits(ttls, actions, c, service);
    AsksOrWaitsLater(ttls, actions, more, c, service, After(ttls, actions).calls[c].at);
  }

  /**
   * For every run in which a service is not invalidated, its lookups neither fail nor take
   * as long as the shorter TTL, and all of them have been made at the end: there is one
   * lookup of the service per cache period exactly when no two calls for it were ever
   * pending at once.
   */
  lemma OneLookupPerPeriodIff(ttls: Ttls, actions: seq<Action>, service: string)
    requires ValidTtls(ttls) && Undisturbed(ttls, actions, service) && Prompt(ttls, actions, service)
    ensures Spaced(After(ttls, actions).lookups, service, MinTtl(ttls)) <==> NeverTwoPending(ttls, actions, service)
  {
    hide After, Spaced, MinTtl, Pending, UndisturbedStep, Young;
    if NeverTwoPending(ttls, actions, service) {
      OnePendingIsSerial(ttls, actions, service);
      SerialLookupsSpaced(ttls, actions, service);
    }
    if Spaced(After(ttls, actions).lookups, service, MinTtl(ttls)) {
      forall k, c, d | 0 <= k <= |actions| && c in After(ttls, actions[..k]).calls &&
                       d in After(ttls, actions[..k]).calls && c != d
        ensures !Pending(After(ttls, actions[..k]).calls[c], service) ||
                !Pending(After(ttls, actions[..k]).calls[d], service)
      {
        if Pending(After(ttls, actions[..k]).calls[c], service) &&
           Pending(After(ttls, actions[..k]).calls[d], service) {
          PairBreaksSpacing(ttls, actions, service, k, c, d);
        }
      }
    }
  }

  lemma AfterAppend(ttls: Ttls, actions: seq<Action>, a: Action)
    ensures After(ttls, actions + [a]) == Next(ttls, After(ttls, actions), a)
  {
    assert (actions + [a])[..|actions|] == actions;
  }

  /** Two calls begin at once and both miss: the shortest run with two lookups in one cache period. */
  lemma MissesTogetherAskTwice(ttls: Ttls, service: string, answer: Result<Deployment>)
    ensures var s := After(ttls, [Begin(0, service), Begin(1, service), Peek(0), Peek(1),
                                  Ask(0, answer), Ask(1, answer)]);
            && |s.lookups| == 2 && s.lookups[0].(call := 1) == s.lookups[1]
            && s.lookups[0].service == service && s.lookups[0].startedAt == s.lookups[1].startedAt
  {
    hide After;
    var a1 := [Begin(0, service)];
    var a2 := a1 + [Begin(1, service)];
    var a3 := a2 + [Peek(0)];
    var a4 := a3 + [Peek(1)];
    AfterAppend(ttls, [], Begin(0, service));
    assert [] + [Begin(0, service)] == a1;
    assert After(ttls, []) == INIT by { AfterNothing(ttls); }
    AfterAppend(ttls, a1, Begin(1, service));
    AfterAppend(ttls, a2, Peek(0));
    AfterAppend(ttls, a3, Peek(1));
    assert After(ttls, a4).calls == map[0 := Missed(service, 0, None), 1 := Missed(service, 0, None)];
    AfterAppend(ttls, a4, Ask(0, answer));
    AfterAppend(ttls, a4 + [Ask(0, answer)], Ask(1, answer));
    assert a4 + [Ask(0, answer)] + [Ask(1, answer)]
        == [Begin(0, service), Begin(1, service), Peek(0), Peek(1), Ask(0, answer), Ask(1, answer)];
  }

  lemma AfterNothing(ttls: Ttls)
    ensures After(ttls, []) == INIT
  {
  }
}
