/**
 * Many requests at once on one memory store, with writes that fail at will: what is
 * left in the store whichever way their steps are interleaved.
 */
module IngestProtocol {
  import opened Models
  import opened Storage
  import opened Correlator
  import opened Parser
  import opened EventTypes
  import opened Ingest

  /** Where a request stands. */
  datatype Phase =
    | Checked(post: Post)
    | Between(post: Post)
    | Written(post: Post)
    | Failing(post: Post, reason: Reason)
    | Finished(post: Post, response: Response)

  datatype State = State(records: Records, posts: map<nat, Phase>)

  datatype Action =
    | Arrive(request: nat, post: Post)
    | WriteDeployment(request: nat, ok: bool)
    | WriteEvent(request: nat, ok: bool)
    | Count(request: nat)

  const INIT := State(Records.Records(map[], map[], multiset{}), map[])

  predicate Enabled(s: State, a: Action) {
    match a
    case Arrive(n, post) => n !in s.posts && Coherent(post)
    case WriteDeployment(n, _) =>
      n in s.posts && s.posts[n].Checked? && s.posts[n].post.Good? && s.posts[n].post.deployment.Some?
    case WriteEvent(n, _) =>
      n in s.posts && s.posts[n].post.Good? &&
      (s.posts[n].Between? || (s.posts[n].Checked? && s.posts[n].post.deployment.None?))
    case Count(n) => n in s.posts && ((s.posts[n].Written? && s.posts[n].post.Good?) || s.posts[n].Failing?)
  }

  /** What a request that is done with its writes is told. */
  function ResponseTo(p: Phase): Response
    requires (p.Written? && p.post.Good?) || p.Failing?
  {
    if p.Written? then Accepted(p.post.event.id, p.post.event.eventType) else Refused(p.reason)
  }

  /** One atomic step. An action that is not possible changes nothing. */
  function Next(s: State, a: Action): State {
    if !Enabled(s, a) then s
    else
      match a
      case Arrive(n, post) =>
        s.(posts := s.posts[n := if post.Bad? then Failing(post, post.reason) else Checked(post)])
      case WriteDeployment(n, ok) =>
        var post := s.posts[n].post;
        var d := post.deployment.value;
        if ok then
          s.(records := s.records.(deployments := s.records.deployments[KeyOf(d) := d]),
             posts := s.posts[n := Between(post)])
        else s.(posts := s.posts[n := Failing(post, DeploymentNotSaved)])
      case WriteEvent(n, ok) =>
        var post := s.posts[n].post;
        if ok then
          s.(records := s.records.(events := s.records.events[post.event.id := post.event]),
             posts := s.posts[n := Written(post)])
        else s.(posts := s.posts[n := Failing(post, EventNotSaved)])
      case Count(n) =>
        var response := ResponseTo(s.posts[n]);
        s.(records := s.records.(counters := s.records.counters + multiset{TallyOf(response)}),
           posts := s.posts[n := Finished(s.posts[n].post, response)])
  }

  function After(actions: seq<Action>): State {
    if actions == [] then INIT else Next(After(actions[..|actions| - 1]), actions[|actions| - 1])
  }

  /** The steps of one request that nobody comes between. */
  function Alone(s: State, n: nat, post: Post, deploymentSaved: bool, eventSaved: bool): State {
    var s1 := Next(s, Arrive(n, post));
    var s2 := Next(s1, WriteDeployment(n, deploymentSaved));
    var s3 := Next(s2, WriteEvent(n, eventSaved));
    Next(s3, Count(n))
  }

  /** A request left alone does what the handler does. */
  lemma AloneIsHandler(s: State, n: nat, post: Post, deploymentSaved: bool, eventSaved: bool)
    requires n !in s.posts && Coherent(post)
    ensures var end := Alone(s, n, post, deploymentSaved, eventSaved);
            && n in end.posts && end.posts[n].Finished?
            && (end.records, end.posts[n].response) == Handled(s.records, post, deploymentSaved, eventSaved)
  {
    hide Coherent, KeyOf;
    var s1 := Next(s, Arrive(n, post));
    var s2 := Next(s1, WriteDeployment(n, deploymentSaved));
    var s3 := Next(s2, WriteEvent(n, eventSaved));
    assert post.Bad? ==> s3 == s1;
  }

  // ---------------------------------------------------------------------------
  // What every interleaving keeps

  predicate Stored(p: Phase) {
    p.post.Good? && (p.Written? || (p.Finished? && p.response.Accepted?))
  }

  /** The deployment is written and the event is still to come, or its write has failed. */
  predicate Orphaned(p: Phase) {
    p.Between? || (p.Failing? && p.reason == EventNotSaved) || (p.Finished? && p.response == Refused(EventNotSaved))
  }

  /** The event behind a deployment record is stored, or a request that wrote the record explains its absence. */
  ghost predicate Explained(s: State, d: Deployment) {
    d.eventID in s.records.events ||
    exists n :: n in s.posts && Orphaned(s.posts[n]) && s.posts[n].post.Good? && s.posts[n].post.deployment == Some(d)
  }

  /** The event came from a request that stored it. */
  ghost predicate Sourced(s: State, e: StoredEvent) {
    exists n :: n in s.posts && Stored(s.posts[n]) && s.posts[n].post.event == e
  }

  /** The finished requests that count as the given tally. */
  ghost function Finishing(s: State, tally: Tally): set<nat> {
    set n | n in s.posts && s.posts[n].Finished? && TallyOf(s.posts[n].response) == tally
  }

  ghost function AllFinished(s: State): set<nat> {
    set n | n in s.posts && s.posts[n].Finished?
  }

  /** The request has written its deployment record. */
  predicate Recorded(p: Phase) {
    p.post.Good? && p.post.deployment.Some? && (Orphaned(p) || Stored(p))
  }

  predicate WellFormed(p: Phase) {
    && Coherent(p.post)
    && (p.Checked? || p.Between? || p.Written? ==> p.post.Good?)
    && (p.Finished? && p.response.Accepted? ==> p.post.Good?)
  }

  predicate EventKept(r: Records, post: Post) {
    post.Good? ==> post.event.id in r.events
  }

  predicate RecordKept(r: Records, post: Post) {
    post.Good? && post.deployment.Some? ==> KeyOf(post.deployment.value) in r.deployments
  }

  predicate Backed(r: Records, p: Phase) {
    WellFormed(p) && (Stored(p) ==> EventKept(r, p.post)) && (Recorded(p) ==> RecordKept(r, p.post))
  }

  ghost predicate Sound(s: State) {
    (forall n :: n in s.posts ==> Backed(s.records, s.posts[n])) && KeyedById(s.records.events)
  }

  ghost predicate Traced(s: State) {
    && (forall k :: k in s.records.deployments ==> Explained(s, s.records.deployments[k]))
    && (forall id :: id in s.records.events ==> Sourced(s, s.records.events[id]))
  }

  ghost predicate Counted(s: State) {
    && (forall tally :: s.records.counters[tally] == |Finishing(s, tally)|)
    && |s.records.counters| == |AllFinished(s)|
  }

  lemma KeysKept(s: State, a: Action)
    requires KeyedById(s.records.events)
    ensures KeyedById(Next(s, a).records.events) && s.records.events.Keys <= Next(s, a).records.events.Keys
    ensures s.records.deployments.Keys <= Next(s, a).records.deployments.Keys
  {
    hide Coherent, KeyOf;
  }

  lemma OthersStay(s: State, a: Action, n: nat)
    requires n != a.request || !Enabled(s, a)
    ensures n in Next(s, a).posts <==> n in s.posts
    ensures n in s.posts ==> Next(s, a).posts[n] == s.posts[n]
  {
    hide Coherent, KeyOf;
  }

  /** What the step of one request does to it. */
  lemma MovedPhase(s: State, a: Action)
    requires Enabled(s, a) && (a.request in s.posts ==> Backed(s.records, s.posts[a.request]))
    ensures var n, s' := a.request, Next(s, a);
            && n in s'.posts && Backed(s'.records, s'.posts[n])
            && (n in s.posts ==>
                  && s'.posts[n].post == s.posts[n].post
                  && (Stored(s.posts[n]) ==> Stored(s'.posts[n]))
                  && (Orphaned(s.posts[n]) && s.posts[n].post.Good? ==>
                        Orphaned(s'.posts[n]) || EventKept(s'.records, s.posts[n].post)))
  {
    hide Coherent, KeyOf;
  }

  lemma SoundStep(s: State, a: Action)
    requires Sound(s)
    ensures Sound(Next(s, a))
  {
    hide Next, Enabled, WellFormed, Stored, Recorded, KeyOf, KeyedById;
    var s' := Next(s, a);
    KeysKept(s, a);
    forall n | n in s'.posts ensures Backed(s'.records, s'.posts[n]) {
      if n == a.request && Enabled(s, a) { MovedPhase(s, a); } else { OthersStay(s, a, n); }
    }
  }

  lemma PhaseStep(s: State, a: Action, n: nat)
    requires Sound(s) && n in s.posts
    ensures n in Next(s, a).posts && Next(s, a).posts[n].post == s.posts[n].post
    ensures Stored(s.posts[n]) ==> Stored(Next(s, a).posts[n])
    ensures Orphaned(s.posts[n]) && s.posts[n].post.Good? ==>
              Orphaned(Next(s, a).posts[n]) || EventKept(Next(s, a).records, s.posts[n].post)
  {
    hide Next, Enabled, Stored, Orphaned, EventKept, Backed;
    if n == a.request && Enabled(s, a) { MovedPhase(s, a); } else { OthersStay(s, a, n); }
  }

  lemma ExplainedStep(s: State, a: Action, d: Deployment)
    requires Sound(s) && Explained(s, d)
    ensures Explained(Next(s, a), d)
  {
    hide Next, Enabled, Orphaned, KeyOf, KeyedById, ExtractChangeInfo;
    KeysKept(s, a);
    if d.eventID !in s.records.events {
      var n :| n in s.posts && Orphaned(s.posts[n]) && s.posts[n].post.Good? && s.posts[n].post.deployment == Some(d);
      PhaseStep(s, a, n);
      assert WellFormed(s.posts[n]);
    }
  }

  lemma SourcedStep(s: State, a: Action, e: StoredEvent)
    requires Sound(s) && Sourced(s, e)
    ensures Sourced(Next(s, a), e)
  {
    hide Next, Enabled, Sound;
    var n :| n in s.posts && Stored(s.posts[n]) && s.posts[n].post.event == e;
    PhaseStep(s, a, n);
  }

  /** A record that was not there before is of the request whose step it was. */
  lemma NewRecord(s: State, a: Action, k: string)
    requires k in Next(s, a).records.deployments
    requires k !in s.records.deployments || s.records.deployments[k] != Next(s, a).records.deployments[k]
    ensures Explained(Next(s, a), Next(s, a).records.deployments[k])
  {
    hide Coherent, KeyOf;
    assert Next(s, a).posts[a.request].Between?;
  }

  lemma NewEvent(s: State, a: Action, id: string)
    requires id in Next(s, a).records.events
    requires id !in s.records.events || s.records.events[id] != Next(s, a).records.events[id]
    ensures Sourced(Next(s, a), Next(s, a).records.events[id])
  {
    hide Coherent, KeyOf;
    assert Stored(Next(s, a).posts[a.request]);
  }

  lemma TracedStep(s: State, a: Action)
    requires Sound(s) && Traced(s)
    ensures Traced(Next(s, a))
  {
    hide Next, Sound, Explained, Sourced;
    var s' := Next(s, a);
    forall k | k in s'.records.deployments ensures Explained(s', s'.records.deployments[k]) {
      if k in s.records.deployments && s'.records.deployments[k] == s.records.deployments[k] {
        ExplainedStep(s, a, s.records.deployments[k]);
      } else {
        NewRecord(s, a, k);
      }
    }
    forall id | id in s'.records.events ensures Sourced(s', s'.records.events[id]) {
      if id in s.records.events && s'.records.events[id] == s.records.events[id] {
        SourcedStep(s, a, s.records.events[id]);
      } else {
        NewEvent(s, a, id);
      }
    }
  }

  /** No step but a count finishes a request, and a count finishes just its own. */
  lemma CountStep(s: State, n: nat) returns (tally: Tally)
    requires Enabled(s, Count(n))
    ensures Next(s, Count(n)).records.counters == s.records.counters + multiset{tally}
    ensures n in s.posts && !s.posts[n].Finished?
    ensures FinishesOne(s, Next(s, Count(n)), n, tally)
  {
    hide TallyOf;
    tally := TallyOf(ResponseTo(s.posts[n]));
  }

  /** Request n finishes, with the given tally, and the others stay as they are. */
  ghost predicate FinishesOne(s: State, s': State, n: nat, tally: Tally) {
    && n in s'.posts && s'.posts[n].Finished? && TallyOf(s'.posts[n].response) == tally
    && (forall m :: m != n ==> (m in s'.posts <==> m in s.posts))
    && (forall m :: m in s.posts && m != n ==> s'.posts[m] == s.posts[m])
  }

  lemma OneMoreFinished(s: State, s': State, n: nat, own: Tally)
    requires n in s.posts && !s.posts[n].Finished? && FinishesOne(s, s', n, own)
    ensures |AllFinished(s')| == |AllFinished(s)| + 1
  {
    hide TallyOf;
    assert AllFinished(s') == AllFinished(s) + {n};
  }

  lemma OneMoreFinishing(s: State, s': State, n: nat, own: Tally, tally: Tally)
    requires n in s.posts && !s.posts[n].Finished? && FinishesOne(s, s', n, own)
    ensures |Finishing(s', tally)| == |Finishing(s, tally)| + (if tally == own then 1 else 0)
  {
    hide TallyOf;
    var more := if tally == own then {n} else {};
    forall m ensures m in Finishing(s', tally) <==> m in Finishing(s, tally) || m in more {
    }
    assert Finishing(s', tally) == Finishing(s, tally) + more;
  }

  lemma CountCounted(s: State, n: nat)
    requires Counted(s) && Enabled(s, Count(n))
    ensures Counted(Next(s, Count(n)))
  {
    hide TallyOf, Next, Enabled, Finishing, AllFinished, FinishesOne;
    var s' := Next(s, Count(n));
    var own := CountStep(s, n);
    forall tally ensures s'.records.counters[tally] == |Finishing(s', tally)| {
      OneMoreFinishing(s, s', n, own, tally);
    }
    OneMoreFinished(s, s', n, own);
  }

  lemma OtherStep(s: State, a: Action, n: nat)
    requires !Enabled(s, a) || !a.Count?
    ensures Next(s, a).records.counters == s.records.counters
    ensures n in Next(s, a).posts && Next(s, a).posts[n].Finished? <==> n in s.posts && s.posts[n].Finished?
    ensures n in s.posts && s.posts[n].Finished? ==> Next(s, a).posts[n] == s.posts[n]
  {
    hide Coherent, KeyOf, TallyOf;
  }

  lemma CountedStep(s: State, a: Action)
    requires Counted(s)
    ensures Counted(Next(s, a))
  {
    hide TallyOf, Next, Enabled;
    if a.Count? && Enabled(s, a) {
      CountCounted(s, a.request);
    } else {
      var s' := Next(s, a);
      forall n ensures n in s'.posts && s'.posts[n].Finished? <==> n in s.posts && s.posts[n].Finished?
               ensures n in s.posts && s.posts[n].Finished? ==> s'.posts[n] == s.posts[n]
      {
        OtherStep(s, a, n);
      }
      OtherStep(s, a, 0);
      assert AllFinished(s') == AllFinished(s);
      assert forall tally :: Finishing(s', tally) == Finishing(s, tally);
    }
  }

  lemma {:induction false} EveryRunSound(actions: seq<Action>)
    ensures Sound(After(actions)) && Traced(After(actions)) && Counted(After(actions))
    decreases |actions|
  {
    if actions != [] {
      var s, a := After(actions[..|actions| - 1]), actions[|actions| - 1];
      EveryRunSound(actions[..|actions| - 1]);
      SoundStep(s, a);
      TracedStep(s, a);
      CountedStep(s, a);
    } else {
      assert AllFinished(INIT) == {};
      assert forall tally :: Finishing(INIT, tally) == {};
    }
  }

  /**
   * In every interleaving with any failures: a deployment record names a stored event,
   * or one whose request is between its two writes or failed at the second; every
   * accepted id can be read back, and every stored event came from a request that
   * stored it; the counter of each kind received and each reason for rejection has the
   * number of finished requests that were told so, and all counters together have the
   * number of finished requests.
   */
  lemma IngestInvariant(actions: seq<Action>)
    ensures var s := After(actions);
            && (forall k :: k in s.records.deployments ==> Explained(s, s.records.deployments[k]))
            && (forall n :: n in s.posts && s.posts[n].Finished? && s.posts[n].response.Accepted? ==>
                  s.posts[n].post.Good? && s.posts[n].post.event.id in s.records.events)
            && (forall id :: id in s.records.events ==>
                  s.records.events[id].id == id && Sourced(s, s.records.events[id]))
            && (forall tally :: s.records.counters[tally] == |Finishing(s, tally)|)
            && |s.records.counters| == |AllFinished(s)|
  {
    hide After, Coherent, KeyOf, Explained, Sourced, RecordKept, TallyOf;
    var s := After(actions);
    EveryRunSound(actions);
  }

  /** Some request that did not get its event stored wrote this record. */
  ghost predicate OrphanedBy(s: State, d: Deployment) {
    exists n :: n in s.posts && Orphaned(s.posts[n]) && s.posts[n].post.Good? && s.posts[n].post.deployment == Some(d)
  }

  /** Some request stored an event with this id. */
  ghost predicate StoredBySome(s: State, id: string) {
    exists n :: n in s.posts && Stored(s.posts[n]) && s.posts[n].post.event.id == id
  }

  /**
   * In every interleaving, a record's event is missing exactly when a request that wrote
   * the record is between its writes or failed at the second, and no request has stored
   * an event with that id.
   */
  lemma RecordOrphanedIff(actions: seq<Action>, key: string)
    requires key in After(actions).records.deployments
    ensures var s := After(actions);
            var d := s.records.deployments[key];
            d.eventID !in s.records.events <==> OrphanedBy(s, d) && !StoredBySome(s, d.eventID)
  {
    hide After, Coherent, Orphaned, KeyOf, Recorded, Counted;
    var s := After(actions);
    var d := s.records.deployments[key];
    EveryRunSound(actions);
    assert Explained(s, d);
    if n :| n in s.posts && Stored(s.posts[n]) && s.posts[n].post.event.id == d.eventID {
      assert Backed(s.records, s.posts[n]);
    }
    if d.eventID in s.records.events {
      assert Sourced(s, s.records.events[d.eventID]);
    }
  }

  lemma FallbackOnRecord(r: Records, p: Phase)
    requires Backed(r, p) && Stored(p) && NamesDeployment(p.post.event)
    ensures p.post.deployment.Some?
    ensures var d, cause := p.post.deployment.value, CauseOf(p.post.event);
            && KeyOf(d) in r.deployments && d.eventID == p.post.event.id
            && d.commitSha == cause.commit != "" && d.author == cause.author && d.repository == cause.repository
  {
    hide ExtractChangeInfo, ShortTypeOf, IsDeploymentKind, KeyOf;
  }

  /**
   * In every interleaving, a stored event that can be the fallback root cause was stored
   * by a request that had written a deployment record of it before, with the commit,
   * author and repository that the root cause will name.
   */
  lemma FallbackCauseIsOnRecord(actions: seq<Action>, id: string)
    requires var s := After(actions); id in s.records.events && NamesDeployment(s.records.events[id])
    ensures var s := After(actions);
            var cause := CauseOf(s.records.events[id]);
            exists n :: && n in s.posts && Stored(s.posts[n]) && s.posts[n].post.event == s.records.events[id]
                        && s.posts[n].post.deployment.Some?
                        && var d := s.posts[n].post.deployment.value;
                           && KeyOf(d) in s.records.deployments && d.eventID == id
                           && d.commitSha == cause.commit != "" && d.author == cause.author
                           && d.repository == cause.repository
  {
    hide CauseOf, NamesDeployment, Backed, After, KeyOf;
    var s := After(actions);
    EveryRunSound(actions);
    assert Sourced(s, s.records.events[id]);
    var n :| n in s.posts && Stored(s.posts[n]) && s.posts[n].post.event == s.records.events[id];
    assert Backed(s.records, s.posts[n]);
    FallbackOnRecord(s.records, s.posts[n]);
  }

  /** The orphan can happen: the first write succeeds, the second fails, and the record stays. */
  lemma FailedEventLeavesOrphan(n: nat, event: StoredEvent, d: Deployment)
    requires Coherent(Good(event, Some(d)))
    ensures var s := Alone(INIT, n, Good(event, Some(d)), true, false);
            && KeyOf(d) in s.records.deployments && d.eventID !in s.records.events
            && s.posts[n] == Finished(Good(event, Some(d)), Refused(EventNotSaved))
  {
  }
}
