/**
 * Ingestion of one event (HandlePostEvent in internal/api/handlers.go): a deployment
 * write, an event write and a counter, each of which can be the last thing that happens.
 */
module Ingest {
  import opened Models
  import opened Links
  import opened EventTypes
  import opened Parser
  import opened Storage

  datatype Reason =
    | PayloadTooLarge
    | UnreadableBody
    | ParseFailure
    | ValidationFailure
    | DeploymentNotSaved
    | EventNotSaved

  datatype Response = Accepted(eventID: string, eventType: string) | Refused(reason: Reason)

  /** The two labelled counters: received by kind of event, rejected by reason. */
  datatype Tally = Received(kind: string) | Rejected(reason: string)

  /** The label of a rejection; the two failed writes share one. */
  function LabelOf(reason: Reason): string {
    match reason
    case PayloadTooLarge => "payload_too_large"
    case UnreadableBody => "unreadable_body"
    case ParseFailure => "parse"
    case ValidationFailure => "validation"
    case DeploymentNotSaved => "storage"
    case EventNotSaved => "storage"
  }

  /** What a response counts as. */
  function TallyOf(response: Response): Tally {
    match response
    case Accepted(_, eventType) => Received(ShortTypeOf(eventType))
    case Refused(reason) => Rejected(LabelOf(reason))
  }

  /** A request body after reading and decoding. */
  datatype Body = TooLarge | Unreadable | Malformed | Decoded(event: CDEvent)

  /** Go's zero time. */
  const ZERO_TIME := 0

  /** Validate: the six fields that must be there. */
  predicate IsValid(event: CDEvent)
    reads event
  {
    && event.context.id != "" && event.context.eventType != "" && event.context.source != ""
    && event.context.timestamp != ZERO_TIME && event.subject.id != "" && event.subject.subjectType != ""
  }

  /** What a request amounts to: a refusal, or an event to store and perhaps a deployment. */
  datatype Post = Bad(reason: Reason) | Good(event: StoredEvent, deployment: Option<Deployment>)

  function PostOf(event: CDEvent, artifactVersion: string -> string, summary: string): Post
    reads event
  {
    if !IsValid(event) then Bad(ValidationFailure)
    else Good(StoredOf(event, summary),
              if IsDeploymentKind(ShortTypeOf(event.context.eventType))
              then Some(ToDeployment(event, artifactVersion)) else None)
  }

  /** The record names the event, and names the change that is read back from the stored event. */
  predicate RecordOf(d: Deployment, e: StoredEvent) {
    && d.eventID == e.id
    && d.commitSha == ExtractChangeInfo(e).commit
    && d.author == ExtractChangeInfo(e).author
    && d.repository == ExtractChangeInfo(e).repository
  }

  /** Deployment events, and only those, come with a record, which is the record of the event. */
  predicate Coherent(post: Post) {
    post.Good? ==>
      && (post.deployment.Some? <==> IsDeploymentKind(ShortTypeOf(post.event.eventType)))
      && (post.deployment.Some? ==> RecordOf(post.deployment.value, post.event))
  }

  lemma PostsAreCoherent(event: CDEvent, artifactVersion: string -> string, summary: string)
    ensures Coherent(PostOf(event, artifactVersion, summary))
  {
    hide ExtractChangeInfo, ShortTypeOf, IsDeploymentKind;
    ProjectionsAgree(event, artifactVersion, summary);
  }

  datatype Records = Records(
    deployments: map<string, Deployment>, events: map<string, StoredEvent>, counters: multiset<Tally>)

  function Refuse(r: Records, reason: Reason): (Records, Response) {
    (r.(counters := r.counters + multiset{TallyOf(Refused(reason))}), Refused(reason))
  }

  /** The whole request, given whether each of the two writes succeeds when it is tried. */
  function Handled(r: Records, post: Post, deploymentSaved: bool, eventSaved: bool): (Records, Response) {
    match post
    case Bad(reason) => Refuse(r, reason)
    case Good(event, deployment) =>
      if deployment.Some? && !deploymentSaved then Refuse(r, DeploymentNotSaved)
      else
        var r1 := if deployment.Some? then
                    r.(deployments := r.deployments[KeyOf(deployment.value) := deployment.value])
                  else r;
        if !eventSaved then Refuse(r1, EventNotSaved)
        else
          var response := Accepted(event.id, event.eventType);
          (r1.(events := r1.events[event.id := event], counters := r1.counters + multiset{TallyOf(response)}),
           response)
  }

  function BodyPost(body: Body, artifactVersion: string -> string, summary: string): Post
    reads if body.Decoded? then {body.event} else {}
  {
    match body
    case TooLarge => Bad(PayloadTooLarge)
    case Unreadable => Bad(UnreadableBody)
    case Malformed => Bad(ParseFailure)
    case Decoded(event) => PostOf(event, artifactVersion, summary)
  }

  // ---------------------------------------------------------------------------
  // What a request does, in terms of the event that was sent

  /** All six required fields are there. */
  predicate Complete(context: EventContext, subject: EventSubject) {
    && context.id != "" && context.eventType != "" && context.source != "" && context.timestamp != ZERO_TIME
    && subject.id != "" && subject.subjectType != ""
  }

  /** A refusal is counted under its label and leaves the events alone. */
  ghost predicate RefusedFor(before: Records, after: Records, response: Response, reason: Reason, name: string) {
    && response == Refused(reason)
    && after.counters == before.counters + multiset{Rejected(name)}
    && after.events == before.events
  }

  /** The record of the event takes the place of the one of its service and environment. */
  ghost predicate RecordWritten(before: Records, after: Records, context: EventContext, subject: EventSubject,
                                custom: Fields, artifactVersion: string -> string) {
    exists d :: && RecordAs(d, context, subject, custom, artifactVersion)
                && after.deployments == before.deployments[d.service + "\0" + d.environment := d]
  }

  /** The event takes the place of the one with its id, and is counted under its kind. */
  ghost predicate EventAccepted(before: Records, after: Records, response: Response, context: EventContext,
                                subject: EventSubject, custom: Fields, summary: string) {
    && response == Accepted(context.id, context.eventType)
    && after.counters == before.counters + multiset{Received(ShortTypeOf(context.eventType))}
    && context.id in after.events && StoredAs(after.events[context.id], context, subject, custom, summary)
    && after.events == before.events[context.id := after.events[context.id]]
  }

  /**
   * What comes of an event with these fields, if first and second say whether the writes of
   * the record and of the event can be made.
   */
  ghost predicate Ingested(before: Records, after: Records, response: Response, context: EventContext,
                           subject: EventSubject, custom: Fields, artifactVersion: string -> string, summary: string,
                           first: bool, second: bool) {
    if !Complete(context, subject) then
      RefusedFor(before, after, response, ValidationFailure, "validation") && after.deployments == before.deployments
    else if IsRollout(context.eventType) && !first then
      RefusedFor(before, after, response, DeploymentNotSaved, "storage") && after.deployments == before.deployments
    else
      && (if IsRollout(context.eventType) then RecordWritten(before, after, context, subject, custom, artifactVersion)
          else after.deployments == before.deployments)
      && (if second then EventAccepted(before, after, response, context, subject, custom, summary)
          else RefusedFor(before, after, response, EventNotSaved, "storage"))
  }

  lemma Tallies(id: string, eventType: string)
    ensures TallyOf(Accepted(id, eventType)) == Received(ShortTypeOf(eventType))
    ensures TallyOf(Refused(DeploymentNotSaved)) == TallyOf(Refused(EventNotSaved)) == Rejected("storage")
  {
    hide ShortTypeOf;
  }

  lemma GoodIngests(before: Records, e: StoredEvent, d: Deployment, context: EventContext, subject: EventSubject,
                    custom: Fields, artifactVersion: string -> string, summary: string, first: bool, second: bool)
    requires Complete(context, subject) && e.id == context.id && e.eventType == context.eventType
    requires StoredAs(e, context, subject, custom, summary) && RecordAs(d, context, subject, custom, artifactVersion)
    ensures var out := Handled(before, Good(e, if IsRollout(context.eventType) then Some(d) else None), first, second);
            Ingested(before, out.0, out.1, context, subject, custom, artifactVersion, summary, first, second)
  {
    hide ShortTypeOf, StoredAs, RecordAs, KeyOf, IsRollout, Complete, TallyOf;
    Tallies(e.id, e.eventType);
    var rollout := IsRollout(context.eventType);
    var out := Handled(before, Good(e, if rollout then Some(d) else None), first, second);
    if rollout && first {
      KeyJoins(d);
      assert RecordWritten(before, out.0, context, subject, custom, artifactVersion);
    }
  }

  lemma HandledIngests(event: CDEvent, before: Records, artifactVersion: string -> string, summary: string,
                       first: bool, second: bool)
    ensures var out := Handled(before, PostOf(event, artifactVersion, summary), first, second);
            Ingested(before, out.0, out.1, event.context, event.subject, event.customData, artifactVersion, summary,
                     first, second)
  {
    hide ShortTypeOf, StoredAs, RecordAs, ToDeployment, StoredOf, RecordWritten, EventAccepted;
    if Complete(event.context, event.subject) {
      RecordFields(event, artifactVersion);
      StoredFields(event, summary);
      StoredNames(event, summary);
      GoodIngests(before, StoredOf(event, summary), ToDeployment(event, artifactVersion), event.context, event.subject,
                  event.customData, artifactVersion, summary, first, second);
    }
  }

  lemma StoredNames(event: CDEvent, summary: string)
    ensures StoredOf(event, summary).id == event.context.id
    ensures StoredOf(event, summary).eventType == event.context.eventType
  {
  }

  lemma KeyJoins(d: Deployment)
    ensures KeyOf(d) == d.service + "\0" + d.environment
  {
  }

  class Handler {
    const storage: MemoryStorage
    var counters: multiset<Tally>

    constructor (storage: MemoryStorage)
      ensures this.storage == storage && counters == multiset{}
    {
      this.storage, counters := storage, multiset{};
    }

    function Kept(): Records
      reads this, storage
    {
      Records(storage.deployments, storage.events, counters)
    }

    /** Adds one to a counter. */
    method Count(tally: Tally)
      modifies this`counters
      ensures counters == old(counters) + multiset{tally}
    {
      counters := counters + multiset{tally};
    }

    /**
     * Handles one request. first and second are the errors, if any, of the request's
     * context at the two writes; the event is normalised while it is parsed.
     */
    method HandlePostEvent(body: Body, first: Option<Error>, second: Option<Error>,
                           artifactVersion: string -> string, summary: string)
      returns (response: Response)
      requires storage.Valid()
      modifies this, storage, if body.Decoded? then {body.event} else {}
      ensures storage.Valid()
      ensures (Kept(), response)
           == Handled(old(Kept()), BodyPost(body, artifactVersion, summary), first.None?, second.None?)
      ensures body.Decoded? ==>
                && body.event.subject == old(body.event.subject) && body.event.customData == old(body.event.customData)
                && body.event.links == []
                && body.event.context == old(body.event.context).(
                     links := Normalized(old(body.event.context.links + body.event.links)))
      ensures match body
              case TooLarge => RefusedFor(old(Kept()), Kept(), response, PayloadTooLarge, "payload_too_large")
              case Unreadable => RefusedFor(old(Kept()), Kept(), response, UnreadableBody, "unreadable_body")
              case Malformed => RefusedFor(old(Kept()), Kept(), response, ParseFailure, "parse")
              case Decoded(event) =>
                Ingested(old(Kept()), Kept(), response,
                         old(event.context).(links := Normalized(old(event.context.links + event.links))),
                         old(event.subject), old(event.customData), artifactVersion, summary,
                         first.None?, second.None?)
      ensures !body.Decoded? ==> storage.deployments == old(storage.deployments)
    {
      match body
      case TooLarge =>
        Count(Rejected(LabelOf(PayloadTooLarge)));
        return Refused(PayloadTooLarge);
      case Unreadable =>
        Count(Rejected(LabelOf(UnreadableBody)));
        return Refused(UnreadableBody);
      case Malformed =>
        Count(Rejected(LabelOf(ParseFailure)));
        return Refused(ParseFailure);
      case Decoded(event) =>
        NormalizeLinks(event);
        HandledIngests(event, Kept(), artifactVersion, summary, first.None?, second.None?);
        response := HandleEvent(event, first, second, artifactVersion, summary);
    }

    /** What is left to do once the body is decoded. */
    method HandleEvent(event: CDEvent, first: Option<Error>, second: Option<Error>,
                       artifactVersion: string -> string, summary: string)
      returns (response: Response)
      requires storage.Valid()
      modifies this, storage
      ensures storage.Valid()
      ensures (Kept(), response)
           == Handled(old(Kept()), PostOf(event, artifactVersion, summary), first.None?, second.None?)
    {
      if !IsValid(event) {
        Count(Rejected(LabelOf(ValidationFailure)));
        return Refused(ValidationFailure);
      }
      var kind := ShortType(event.context.eventType);
      var deployment := if IsDeploymentKind(kind) then Some(ToDeployment(event, artifactVersion)) else None;
      var stored := ToStoredEvent(event, summary);
      response := WriteRecords(stored, kind, deployment, first, second);
    }

    /** The two writes, in order, and the count of how they ended. */
    method WriteRecords(event: StoredEvent, kind: string, deployment: Option<Deployment>,
                        first: Option<Error>, second: Option<Error>)
      returns (response: Response)
      requires storage.Valid() && kind == ShortTypeOf(event.eventType)
      modifies this, storage
      ensures storage.Valid()
      ensures (Kept(), response) == Handled(old(Kept()), Good(event, deployment), first.None?, second.None?)
    {
      if deployment.Some? {
        var saved := storage.SaveDeployment(first, deployment);
        if saved.Err? {
          Count(Rejected(LabelOf(DeploymentNotSaved)));
          return Refused(DeploymentNotSaved);
        }
      }
      var written := storage.SaveEvent(second, Some(event));
      if written.Err? {
        Count(Rejected(LabelOf(EventNotSaved)));
        return Refused(EventNotSaved);
      }
      Count(Received(kind));
      return Accepted(event.id, event.eventType);
    }
  }
}
