/** When a saved deployment shows in the answers of a caching resolver over the in-memory store. */
module ResolverVisibility {
  import opened Models
  import opened Storage
  import opened Resolver
  import opened ResolverProtocol

  /** The two records do not sit under one key while belonging to different services. */
  predicate Apart(d: Deployment, e: Deployment) {
    KeyOf(d) == KeyOf(e) ==> d.service == e.service
  }

  lemma NulFreeServicesApart(d: Deployment, e: Deployment)
    requires Without(d.service, '\0') && Without(e.service, '\0')
    ensures Apart(d, e)
  {
    if KeyOf(d) == KeyOf(e) {
      SplitAtFirst(d.service, d.environment, e.service, e.environment, '\0');
    }
  }

  /** "a" in "b NUL c" and "a NUL b" in "c" are not apart. */
  lemma NulNamesShareKey(a: Deployment, b: Deployment)
    requires a.service == "a" && a.environment == "b\0c" && b.service == "a\0b" && b.environment == "c"
    ensures !Apart(b, a)
  {
    assert KeyOf(a) == "a\0b\0c" == KeyOf(b);
    assert |a.service| != |b.service|;
  }

  /** The inner resolver reads the store: it answered with the store's latest, or failed. */
  ghost predicate Truthful(s: State) {
    forall i :: 0 <= i < |s.lookups| && Definitive(s.lookups[i].answer) ==>
      s.lookups[i].answer == Latest(s.lookups[i].seen, s.lookups[i].service)
  }

  /** The store has a record of d's service under d's key. */
  ghost predicate Keeps(store: map<string, Deployment>, d: Deployment) {
    KeyOf(d) in store && store[KeyOf(d)].service == d.service
  }

  /** No save after save j took its key over for another service. */
  ghost predicate Unclaimed(saves: seq<Save>, j: nat) {
    j < |saves| && forall k :: j < k < |saves| ==> Apart(saves[k].deployment, saves[j].deployment)
  }

  ghost predicate StoreKeeps(s: State) {
    forall j :: 0 <= j < |s.saves| ==>
      s.saves[j].at <= s.now && (Unclaimed(s.saves, j) ==> Keeps(s.store, s.saves[j].deployment))
  }

  ghost predicate LookupsSee(s: State) {
    && (forall i :: 0 <= i < |s.lookups| ==> s.lookups[i].readAt <= s.now)
    && (forall i, j :: 0 <= i < |s.lookups| && 0 <= j < |s.saves| && s.saves[j].at < s.lookups[i].readAt &&
                       Unclaimed(s.saves, j) ==>
          Keeps(s.lookups[i].seen, s.saves[j].deployment))
  }

  /** A save leaves e's service a record under e's key exactly when it does not take that key over. */
  lemma SaveKeepsIff(store: map<string, Deployment>, d: Deployment, e: Deployment)
    requires Keeps(store, e)
    ensures Keeps(store[KeyOf(d) := d], e) <==> Apart(d, e)
  {
  }

  lemma UnclaimedBefore(saves: seq<Save>, save: Save, j: nat)
    requires j < |saves| && Unclaimed(saves + [save], j)
    ensures Unclaimed(saves, j) && Apart(save.deployment, saves[j].deployment)
  {
    var all := saves + [save];
    assert all[|saves|] == save;
    assert forall k :: 0 <= k < |saves| ==> all[k] == saves[k];
  }

  lemma SaveStep(ttls: Ttls, s: State, d: Deployment)
    requires StoreKeeps(s) && LookupsSee(s)
    ensures StoreKeeps(Next(ttls, s, SaveDeployment(d))) && LookupsSee(Next(ttls, s, SaveDeployment(d)))
  {
    hide Unclaimed, Apart, KeyOf;
    var save := Save(s.now, d);
    var saves := s.saves + [save];
    forall j | 0 <= j < |s.saves| && Unclaimed(saves, j)
      ensures Unclaimed(s.saves, j) && Keeps(s.store[KeyOf(d) := d], s.saves[j].deployment)
    {
      UnclaimedBefore(s.saves, save, j);
      SaveKeepsIff(s.store, d, s.saves[j].deployment);
    }
  }

  lemma AskStep(ttls: Ttls, s: State, c: nat, answer: Result<Deployment>)
    requires StoreKeeps(s) && LookupsSee(s) && Enabled(s, Ask(c, answer))
    ensures StoreKeeps(Next(ttls, s, Ask(c, answer))) && LookupsSee(Next(ttls, s, Ask(c, answer)))
  {
    hide Unclaimed, Keeps;
  }

  lemma OtherStep(ttls: Ttls, s: State, a: Action)
    requires StoreKeeps(s) && LookupsSee(s) && !a.SaveDeployment? && (a.Ask? ==> !Enabled(s, a))
    ensures StoreKeeps(Next(ttls, s, a)) && LookupsSee(Next(ttls, s, a))
  {
    hide Unclaimed, Keeps;
  }

  lemma {:induction false} EveryRunKeeps(ttls: Ttls, actions: seq<Action>)
    ensures StoreKeeps(After(ttls, actions)) && LookupsSee(After(ttls, actions))
    decreases |actions|
  {
    hide StoreKeeps, LookupsSee, Next, Enabled;
    if actions == [] {
      assert StoreKeeps(INIT) && LookupsSee(INIT) by { NothingYet(); }
    } else {
      var s, a := After(ttls, actions[..|actions| - 1]), actions[|actions| - 1];
      EveryRunKeeps(ttls, actions[..|actions| - 1]);
      match a
      case SaveDeployment(d) => SaveStep(ttls, s, d);
      case Ask(c, answer) => if Enabled(s, a) { AskStep(ttls, s, c, answer); } else { OtherStep(ttls, s, a); }
      case _ => OtherStep(ttls, s, a);
    }
  }

  lemma NothingYet()
    ensures StoreKeeps(INIT) && LookupsSee(INIT)
  {
  }

  lemma KeptIsFound(store: map<string, Deployment>, d: Deployment)
    requires Keeps(store, d)
    ensures Latest(store, d.service).Ok?
  {
    assert store[KeyOf(d)] in OfService(store, d.service);
    FirstFound(OfService(store, d.service));
  }

  /**
   * Once a deployment has been saved for the longer of the two TTLs, every call for its
   * service that does not fall back on a stale entry answers from a read of the store
   * made after the save, with the latest deployment at that moment. Unless a later save
   * took its key over for another service, that is never "not found".
   */
  lemma SaveBecomesVisible(ttls: Ttls, actions: seq<Action>, c: nat, j: nat)
      returns (i: nat)
    requires ValidTtls(ttls) && Truthful(After(ttls, actions))
    requires c in After(ttls, actions).calls && j < |After(ttls, actions).saves|
    requires var s := After(ttls, actions);
             var p, save := s.calls[c], s.saves[j];
             p.Done? && p.how != FromStale && p.service == save.deployment.service && p.at >= save.at + MaxTtl(ttls)
    ensures var s := After(ttls, actions);
            var p, save := s.calls[c], s.saves[j];
            && i < |s.lookups| && s.lookups[i].service == p.service && s.lookups[i].answer == p.answer
            && s.lookups[i].readAt > save.at
            && (Definitive(p.answer) ==> p.answer == Latest(s.lookups[i].seen, p.service))
            && (Unclaimed(s.saves, j) ==> Keeps(s.lookups[i].seen, save.deployment) && p.answer != Err(NotFound))
  {
    hide After, Latest, Keeps, Unclaimed;
    var s := After(ttls, actions);
    var save := s.saves[j];
    EveryRunKeeps(ttls, actions);
    i := AnswersReadAfter(ttls, actions, c, save.at);
    if Unclaimed(s.saves, j) {
      assert Keeps(s.lookups[i].seen, save.deployment);
      KeptIsFound(s.lookups[i].seen, save.deployment);
    }
  }

  /** The store has no record of the service. */
  predicate Gone(store: map<string, Deployment>, service: string) {
    forall k :: k in store ==> store[k].service != service
  }

  ghost predicate GoneSince(s: State, n: nat, service: string) {
    Gone(s.store, service) && forall i :: n <= i < |s.lookups| ==> Gone(s.lookups[i].seen, service)
  }

  lemma GoneStep(ttls: Ttls, s: State, a: Action, n: nat, service: string)
    requires GoneSince(s, n, service) && n <= |s.lookups|
    requires a.SaveDeployment? ==> a.deployment.service != service
    ensures GoneSince(Next(ttls, s, a), n, service)
    ensures |s.lookups| <= |Next(ttls, s, a).lookups| && Next(ttls, s, a).lookups[..|s.lookups|] == s.lookups
  {
  }

  lemma {:induction false} GoneLater(ttls: Ttls, actions: seq<Action>, more: seq<Action>, service: string)
    requires Gone(After(ttls, actions).store, service)
    requires forall i :: 0 <= i < |more| && more[i].SaveDeployment? ==> more[i].deployment.service != service
    ensures var s, t := After(ttls, actions), After(ttls, actions + more);
            && GoneSince(t, |s.lookups|, service)
            && |s.lookups| <= |t.lookups| && t.lookups[..|s.lookups|] == s.lookups
    decreases |more|
  {
    hide Gone, Next;
    if more == [] {
      assert actions + more == actions;
    } else {
      var front := more[..|more| - 1];
      GoneLater(ttls, actions, front, service);
      assert (actions + more)[..|actions + more| - 1] == actions + front;
      GoneStep(ttls, After(ttls, actions + front), more[|more| - 1], |After(ttls, actions).lookups|, service);
    }
  }

  lemma GoneIsNotFound(store: map<string, Deployment>, service: string)
    requires Gone(store, service)
    ensures Latest(store, service) == Err(NotFound)
  {
    FirstFound(OfService(store, service));
  }

  /**
   * Once the store has no record of a service, every call for it that reads the clock at
   * least the longer TTL later and does not fall back on a stale entry is refused, until
   * the next save of the service: "not found", or the failure of its lookup.
   */
  lemma HiddenUntilSaved(ttls: Ttls, actions: seq<Action>, more: seq<Action>, service: string, c: nat)
    requires ValidTtls(ttls) && Truthful(After(ttls, actions + more)) && Gone(After(ttls, actions).store, service)
    requires forall i :: 0 <= i < |more| && more[i].SaveDeployment? ==> more[i].deployment.service != service
    requires c in After(ttls, actions + more).calls
    requires var p := After(ttls, actions + more).calls[c];
             p.Done? && p.how != FromStale && p.service == service && p.at >= After(ttls, actions).now + MaxTtl(ttls)
    ensures var p := After(ttls, actions + more).calls[c];
            p.answer == Err(NotFound) || !Definitive(p.answer)
  {
    hide After, Gone, Latest;
    var s, t := After(ttls, actions), After(ttls, actions + more);
    EveryRunKeeps(ttls, actions);
    GoneLater(ttls, actions, more, service);
    var i := AnswersReadAfter(ttls, actions + more, c, s.now);
    assert forall k :: 0 <= k < |s.lookups| ==> t.lookups[k] == s.lookups[k];
    GoneIsNotFound(t.lookups[i].seen, service);
  }

  // ---------------------------------------------------------------------------
  // Which records can be saved without ever hiding one another

  ghost predicate PairwiseApart(records: set<Deployment>) {
    forall d, e :: d in records && e in records ==> Apart(d, e)
  }

  /** The run saved nothing but these records, and its inner resolver read the store. */
  ghost predicate RunOver(s: State, records: set<Deployment>) {
    Truthful(s) && forall j :: 0 <= j < |s.saves| ==> s.saves[j].deployment in records
  }

  /** Nobody was told "not found" about a service with a save that the cache had time to notice. */
  ghost predicate NeverHidden(ttls: Ttls, s: State) {
    forall c, j :: c in s.calls && 0 <= j < |s.saves| && s.calls[c].Done? && s.calls[c].how != FromStale &&
                   s.calls[c].service == s.saves[j].deployment.service &&
                   s.calls[c].at >= s.saves[j].at + MaxTtl(ttls) ==>
      s.calls[c].answer != Err(NotFound)
  }

  lemma ApartNeverHides(ttls: Ttls, actions: seq<Action>, records: set<Deployment>)
    requires ValidTtls(ttls) && PairwiseApart(records) && RunOver(After(ttls, actions), records)
    ensures NeverHidden(ttls, After(ttls, actions))
  {
    hide After, Apart, Truthful;
    var s := After(ttls, actions);
    forall c, j | c in s.calls && 0 <= j < |s.saves| && s.calls[c].Done? && s.calls[c].how != FromStale &&
                  s.calls[c].service == s.saves[j].deployment.service &&
                  s.calls[c].at >= s.saves[j].at + MaxTtl(ttls)
      ensures s.calls[c].answer != Err(NotFound)
    {
      assert Unclaimed(s.saves, j);
      var i := SaveBecomesVisible(ttls, actions, c, j);
    }
  }

  lemma LatestOfOther(d: Deployment, service: string)
    requires d.service != service
    ensures Latest(map[KeyOf(d) := d], service) == Err(NotFound)
  {
    FirstFound(OfService(map[KeyOf(d) := d], service));
  }

  /** Save a, save b, let the longer TTL pass, and resolve a's service. */
  function TakeOver(ttls: Ttls, a: Deployment, b: Deployment): seq<Action>
    requires ValidTtls(ttls)
  {
    [SaveDeployment(a), SaveDeployment(b), Tick(MaxTtl(ttls)),
     Begin(0, a.service), Peek(0), Ask(0, Err(NotFound)), Conclude(0)]
  }

  lemma TakeOverSaves(ttls: Ttls, a: Deployment, b: Deployment)
    requires ValidTtls(ttls) && KeyOf(a) == KeyOf(b)
    ensures After(ttls, TakeOver(ttls, a, b)[..4])
         == State(MaxTtl(ttls), map[KeyOf(b) := b], map[], map[0 := Timed(a.service, MaxTtl(ttls))], [],
                  [Save(0, a), Save(0, b)])
  {
    hide KeyOf, MaxTtl;
    var all := TakeOver(ttls, a, b);
    assert map[KeyOf(a) := a][KeyOf(b) := b] == map[KeyOf(b) := b];
    AfterNext(ttls, all, 0);
    AfterNext(ttls, all, 1);
    AfterNext(ttls, all, 2);
    AfterNext(ttls, all, 3);
  }

  lemma TakeOverRun(ttls: Ttls, a: Deployment, b: Deployment)
    requires ValidTtls(ttls) && KeyOf(a) == KeyOf(b)
    ensures var s, t := After(ttls, TakeOver(ttls, a, b)), MaxTtl(ttls);
            && s.calls == map[0 := Done(a.service, t, Err(NotFound), FromInner)]
            && s.saves == [Save(0, a), Save(0, b)]
            && s.lookups == [Lookup(0, a.service, t, None, t, map[KeyOf(b) := b], Err(NotFound))]
  {
    hide KeyOf, MaxTtl, After;
    var all := TakeOver(ttls, a, b);
    TakeOverSaves(ttls, a, b);
    AfterNext(ttls, all, 4);
    AfterNext(ttls, all, 5);
    AfterNext(ttls, all, 6);
    assert all[..7] == all;
  }

  lemma AfterNext(ttls: Ttls, actions: seq<Action>, k: nat)
    requires k < |actions|
    ensures After(ttls, actions[..k + 1]) == Next(ttls, After(ttls, actions[..k]), actions[k])
    ensures k == 0 ==> After(ttls, actions[..k]) == INIT
  {
    assert actions[..k + 1][..k] == actions[..k];
  }

  /** After the two saves of that run, and until a's service is saved again, nothing finds it (HiddenUntilSaved). */
  lemma TakeOverLeavesNone(ttls: Ttls, a: Deployment, b: Deployment)
    requires ValidTtls(ttls) && !Apart(b, a)
    ensures Gone(After(ttls, TakeOver(ttls, a, b)[..4]).store, a.service)
  {
    hide After, KeyOf;
    TakeOverSaves(ttls, a, b);
  }

  /** In that run a caller is told "not found", although nothing of a's service was ever removed. */
  lemma TakenKeyHides(ttls: Ttls, a: Deployment, b: Deployment)
    requires ValidTtls(ttls) && !Apart(b, a)
    ensures RunOver(After(ttls, TakeOver(ttls, a, b)), {a, b})
    ensures !NeverHidden(ttls, After(ttls, TakeOver(ttls, a, b)))
  {
    hide KeyOf, After, Latest;
    var s := After(ttls, TakeOver(ttls, a, b));
    TakeOverRun(ttls, a, b);
    LatestOfOther(b, a.service);
    assert s.calls[0].at >= s.saves[0].at + MaxTtl(ttls) && s.saves[0].deployment == a;
  }

  ghost predicate NeverHiddenOver(ttls: Ttls, records: set<Deployment>) {
    forall actions :: RunOver(After(ttls, actions), records) ==> NeverHidden(ttls, After(ttls, actions))
  }

  lemma SharedKeyHides(ttls: Ttls, records: set<Deployment>, a: Deployment, b: Deployment)
    requires ValidTtls(ttls) && a in records && b in records && !Apart(b, a)
    ensures !NeverHiddenOver(ttls, records)
  {
    hide After, Apart, NeverHidden, Truthful;
    TakenKeyHides(ttls, a, b);
    assert RunOver(After(ttls, TakeOver(ttls, a, b)), records);
  }

  /**
   * In every run over some records, every answer that is not stale and comes at least
   * the longer TTL after a save of its service is something else than "not found",
   * exactly when no two of the records share a key while belonging to different services.
   */
  lemma NeverHiddenIff(ttls: Ttls, records: set<Deployment>)
    requires ValidTtls(ttls)
    ensures NeverHiddenOver(ttls, records) <==> PairwiseApart(records)
  {
    hide After, Apart, NeverHidden, Truthful;
    if PairwiseApart(records) {
      forall actions | RunOver(After(ttls, actions), records) ensures NeverHidden(ttls, After(ttls, actions)) {
        ApartNeverHides(ttls, actions, records);
      }
      assert NeverHiddenOver(ttls, records);
    }
    if NeverHiddenOver(ttls, records) {
      forall d, e | d in records && e in records ensures Apart(d, e) {
        if !Apart(d, e) { SharedKeyHides(ttls, records, e, d); }
      }
    }
  }
}
