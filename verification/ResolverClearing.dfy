/**
 * Clearing the cache while calls are under way: what Invalidate and Reset promise the
 * calls that begin after them, and exactly when they keep it.
 */
module ResolverClearing {
  import opened Models
  import opened Resolver
  import opened ResolverProtocol

  predicate Clears(a: Action, service: string) {
    a == Action.Invalidate(service) || a == Action.Reset
  }

  /** A lookup of the service, no earlier in the log than number n, had this answer. */
  ghost predicate LookedUpSince(lookups: seq<Lookup>, n: nat, service: string, answer: Result<Deployment>) {
    exists i :: n <= i < |lookups| && lookups[i].service == service && lookups[i].answer == answer
  }

  /** However the run goes on, calls that begin now are answered by lookups made from now on. */
  ghost predicate AsksAnew(ttls: Ttls, actions: seq<Action>, service: string) {
    forall more: seq<Action>, c: nat ::
      LaterAnswer(After(ttls, actions), After(ttls, actions + more), c, service) ==>
        LookedUpSince(After(ttls, actions + more).lookups, |After(ttls, actions).lookups|, service,
                      After(ttls, actions + more).calls[c].answer)
  }

  /** Call c for the service began after the first state and has ended in the second. */
  predicate LaterAnswer(s0: State, s: State, c: nat, service: string) {
    c !in s0.calls && c in s.calls && s.calls[c].Done? && s.calls[c].service == service
  }

  /** The call holds an answer that it has not cached yet: a deployment, or a young "not found". */
  predicate InHand(ttls: Ttls, s: State, d: nat, service: string) {
    && d in s.calls && s.calls[d].Answered? && s.calls[d].service == service
    && (s.calls[d].answer.Ok? || (s.calls[d].answer == Err(NotFound) && s.now < s.calls[d].at + ttls.negative))
  }

  // ---------------------------------------------------------------------------
  // With nothing in hand, the past is forgotten

  ghost predicate EntryRenewed(lookups: seq<Lookup>, n: nat, service: string, since: int, e: CacheEntry) {
    LookedUpSince(lookups, n, service, e.answer) || (e.answer == Err(NotFound) && e.expiresAt <= since)
  }

  /** What a call that began before the clearing may still cache. */
  ghost predicate AnswerRenewed(ttls: Ttls, lookups: seq<Lookup>, n: nat, service: string, since: int, at: int,
                                answer: Result<Deployment>) {
    || LookedUpSince(lookups, n, service, answer) || !Definitive(answer)
    || (answer == Err(NotFound) && at + ttls.negative <= since)
  }

  ghost predicate CallRenewed(ttls: Ttls, lookups: seq<Lookup>, n: nat, service: string, since: int, earlier: bool,
                              p: Phase) {
    if earlier then p.Answered? ==> AnswerRenewed(ttls, lookups, n, service, since, p.at, p.answer)
    else
      p.at >= since &&
      match p
      case Timed(_, _) => true
      case Missed(_, _, entry) => entry.Some? ==> EntryRenewed(lookups, n, service, since, entry.value)
      case Answered(_, _, entry, answer) =>
        && LookedUpSince(lookups, n, service, answer)
        && (entry.Some? ==> EntryRenewed(lookups, n, service, since, entry.value))
      case Done(_, _, answer, _) => LookedUpSince(lookups, n, service, answer)
  }

  ghost predicate Renewed(ttls: Ttls, s0: State, s: State, service: string) {
    var n := |s0.lookups|;
    && s0.now <= s.now && n <= |s.lookups| && s0.calls.Keys <= s.calls.Keys
    && (service in s.entries ==> EntryRenewed(s.lookups, n, service, s0.now, s.entries[service]))
    && (forall c :: c in s.calls && s.calls[c].service == service ==>
          CallRenewed(ttls, s.lookups, n, service, s0.now, c in s0.calls, s.calls[c]))
  }

  lemma LookedUpMore(lookups: seq<Lookup>, more: Lookup, n: nat, service: string, answer: Result<Deployment>)
    requires LookedUpSince(lookups, n, service, answer)
    ensures LookedUpSince(lookups + [more], n, service, answer)
  {
    var i :| n <= i < |lookups| && lookups[i].service == service && lookups[i].answer == answer;
    assert (lookups + [more])[i] == lookups[i];
  }

  lemma EntryRenewedMore(lookups: seq<Lookup>, more: Lookup, n: nat, service: string, since: int, e: CacheEntry)
    requires EntryRenewed(lookups, n, service, since, e)
    ensures EntryRenewed(lookups + [more], n, service, since, e)
  {
    hide LookedUpSince;
    if LookedUpSince(lookups, n, service, e.answer) { LookedUpMore(lookups, more, n, service, e.answer); }
  }

  lemma CallRenewedMore(ttls: Ttls, lookups: seq<Lookup>, more: Lookup, n: nat, service: string, since: int,
                        earlier: bool, p: Phase)
    requires CallRenewed(ttls, lookups, n, service, since, earlier, p)
    ensures CallRenewed(ttls, lookups + [more], n, service, since, earlier, p)
  {
    hide LookedUpSince, EntryRenewed;
    if (p.Answered? || p.Done?) && LookedUpSince(lookups, n, service, p.answer) {
      LookedUpMore(lookups, more, n, service, p.answer);
    }
    if (p.Missed? || p.Answered?) && p.entry.Some? && EntryRenewed(lookups, n, service, since, p.entry.value) {
      EntryRenewedMore(lookups, more, n, service, since, p.entry.value);
    }
  }

  lemma AskRenews(ttls: Ttls, s0: State, s: State, c: nat, answer: Result<Deployment>, service: string)
    requires Renewed(ttls, s0, s, service) && Enabled(s, Ask(c, answer))
    ensures Renewed(ttls, s0, Next(ttls, s, Ask(c, answer)), service)
  {
    hide LookedUpSince, EntryRenewed, CallRenewed;
    var p, n := s.calls[c], |s0.lookups|;
    var more := Lookup(c, p.service, p.at, p.entry, s.now, s.store, answer);
    var all := s.lookups + [more];
    if service in s.entries { EntryRenewedMore(s.lookups, more, n, service, s0.now, s.entries[service]); }
    forall d | d in s.calls && s.calls[d].service == service
      ensures CallRenewed(ttls, all, n, service, s0.now, d in s0.calls, s.calls[d])
    {
      CallRenewedMore(ttls, s.lookups, more, n, service, s0.now, d in s0.calls, s.calls[d]);
    }
    if p.service == service {
      AnsweredRenewed(ttls, s, more, n, service, s0.now, c in s0.calls, p);
    }
  }

  lemma AnsweredRenewed(ttls: Ttls, s: State, more: Lookup, n: nat, service: string, since: int, earlier: bool,
                        p: Phase)
    requires p.Missed? && p.service == service == more.service && n <= |s.lookups|
    requires CallRenewed(ttls, s.lookups + [more], n, service, since, earlier, p)
    ensures CallRenewed(ttls, s.lookups + [more], n, service, since, earlier,
                        Answered(p.service, p.at, p.entry, more.answer))
  {
    var all := s.lookups + [more];
    assert all[|s.lookups|] == more;
    assert LookedUpSince(all, n, service, more.answer);
  }

  lemma OtherRenews(ttls: Ttls, s0: State, s: State, a: Action, service: string)
    requires Renewed(ttls, s0, s, service) && Enabled(s, a) && !a.Ask?
    ensures Renewed(ttls, s0, Next(ttls, s, a), service)
  {
    hide LookedUpSince;
  }

  lemma {:induction false} LaterRenewed(ttls: Ttls, actions: seq<Action>, more: seq<Action>, service: string)
    requires Renewed(ttls, After(ttls, actions), After(ttls, actions), service)
    ensures Renewed(ttls, After(ttls, actions), After(ttls, actions + more), service)
    decreases |more|
  {
    hide Renewed, Next;
    if more == [] {
      assert actions + more == actions;
    } else {
      var front, a := more[..|more| - 1], more[|more| - 1];
      LaterRenewed(ttls, actions, front, service);
      assert actions + more == (actions + front) + [a];
      AfterOne(ttls, actions + front, a);
      var s := After(ttls, actions + front);
      if Enabled(s, a) {
        if a.Ask? { AskRenews(ttls, After(ttls, actions), s, a.call, a.answer, service); }
        else { OtherRenews(ttls, After(ttls, actions), s, a, service); }
      } else {
        NotEnabled(ttls, s, a);
      }
    }
  }

  lemma AfterOne(ttls: Ttls, actions: seq<Action>, a: Action)
    ensures After(ttls, actions + [a]) == Next(ttls, After(ttls, actions), a)
  {
    assert (actions + [a])[..|actions|] == actions;
  }

  lemma NotEnabled(ttls: Ttls, s: State, a: Action)
    requires !Enabled(s, a)
    ensures Next(ttls, s, a) == s
  {
  }

  // ---------------------------------------------------------------------------
  // With something in hand, it is not

  /** A call cached what it had in hand, and a new call is answered with it, stale if need be. */
  function ComesBack(d: nat, c: nat, service: string): seq<Action> {
    [Conclude(d), Begin(c, service), Peek(c), Ask(c, Err(Failure("down"))), Conclude(c)]
  }

  lemma AfterFive(ttls: Ttls, actions: seq<Action>, a: Action, b: Action, c: Action, d: Action, e: Action)
    ensures After(ttls, actions + [a, b, c, d, e]) ==
            Next(ttls, Next(ttls, Next(ttls, Next(ttls, Next(ttls, After(ttls, actions), a), b), c), d), e)
  {
    hide Next, After;
    AfterOne(ttls, actions, a);
    AfterOne(ttls, actions + [a], b);
    AfterOne(ttls, actions + [a] + [b], c);
    AfterOne(ttls, actions + [a] + [b] + [c], d);
    AfterOne(ttls, actions + [a] + [b] + [c] + [d], e);
    assert actions + [a, b, c, d, e] == actions + [a] + [b] + [c] + [d] + [e];
  }

  lemma OldAnswerComesBack(ttls: Ttls, actions: seq<Action>, d: nat, c: nat, service: string)
    requires InHand(ttls, After(ttls, actions), d, service) && c !in After(ttls, actions).calls
    ensures var s0, s := After(ttls, actions), After(ttls, actions + ComesBack(d, c, service));
            && LaterAnswer(s0, s, c, service) && s.calls[c].answer == s0.calls[d].answer
            && !LookedUpSince(s.lookups, |s0.lookups|, service, s.calls[c].answer)
  {
    hide After;
    AfterFive(ttls, actions, Conclude(d), Begin(c, service), Peek(c), Ask(c, Err(Failure("down"))), Conclude(c));
  }

  lemma UnusedCall(calls: set<nat>) returns (c: nat)
    ensures c !in calls && forall x :: x in calls ==> x < c
  {
    c := 0;
    if calls != {} {
      var x :| x in calls;
      c := UnusedCall(calls - {x});
      assert forall y :: y in calls ==> y == x || y in calls - {x};
      if c <= x { c := x + 1; }
    }
  }

  /**
   * Once a service is cleared, every call for it that begins afterwards is answered by a
   * lookup made afterwards, however the run goes on, exactly when no call for the service
   * holds an answer that it has yet to cache: a deployment, or a "not found" still within
   * its TTL.
   */
  lemma ClearedAsksAnewIff(ttls: Ttls, actions: seq<Action>, service: string)
    requires actions != [] && Clears(actions[|actions| - 1], service)
    ensures AsksAnew(ttls, actions, service) <==> forall d :: !InHand(ttls, After(ttls, actions), d, service)
  {
    var s0 := After(ttls, actions);
    hide InHand, LookedUpSince, Renewed;
    if d :| InHand(ttls, s0, d, service) {
      var c := UnusedCall(s0.calls.Keys);
      OldAnswerComesBack(ttls, actions, d, c, service);
    } else {
      NothingInHand(ttls, actions, service);
      forall more: seq<Action>, c: nat | LaterAnswer(s0, After(ttls, actions + more), c, service)
        ensures LookedUpSince(After(ttls, actions + more).lookups, |s0.lookups|, service,
                              After(ttls, actions + more).calls[c].answer)
      {
        LaterRenewed(ttls, actions, more, service);
        RenewedAnswers(ttls, s0, After(ttls, actions + more), c, service);
      }
    }
  }

  /** A lookup that has been answered and not cached outruns the clearing. */
  lemma ClearingOutrun(ttls: Ttls, d: Deployment)
    ensures !AsksAnew(ttls, Outrun(d), d.service)
  {
    hide AsksAnew, LookedUpSince;
    AfterFive(ttls, [], Action.SaveDeployment(d), Begin(0, d.service), Peek(0), Ask(0, Ok(d)),
              Action.Invalidate(d.service));
    assert [] + Outrun(d) == Outrun(d) && After(ttls, []) == INIT;
    assert InHand(ttls, After(ttls, Outrun(d)), 0, d.service);
    ClearedAsksAnewIff(ttls, Outrun(d), d.service);
  }

  function Outrun(d: Deployment): seq<Action> {
    [Action.SaveDeployment(d), Begin(0, d.service), Peek(0), Ask(0, Ok(d)), Action.Invalidate(d.service)]
  }

  lemma NothingInHand(ttls: Ttls, actions: seq<Action>, service: string)
    requires actions != [] && Clears(actions[|actions| - 1], service)
    requires forall d :: !InHand(ttls, After(ttls, actions), d, service)
    ensures Renewed(ttls, After(ttls, actions), After(ttls, actions), service)
  {
    var s0 := After(ttls, actions);
    forall c | c in s0.calls && s0.calls[c].service == service
      ensures CallRenewed(ttls, s0.lookups, |s0.lookups|, service, s0.now, true, s0.calls[c])
    {
      assert !InHand(ttls, s0, c, service);
    }
  }

  lemma RenewedAnswers(ttls: Ttls, s0: State, s: State, c: nat, service: string)
    requires Renewed(ttls, s0, s, service) && LaterAnswer(s0, s, c, service)
    ensures LookedUpSince(s.lookups, |s0.lookups|, service, s.calls[c].answer)
  {
  }
}
