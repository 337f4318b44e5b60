/** The records that the bridge stores and returns (pkg/models, internal/cdevents/types.go). */
module Models {
  datatype Option<+T> = None | Some(value: T)

  /** The errors callers distinguish: a missing record, or anything else. */
  datatype Error = NotFound | Failure(message: string)

  datatype Result<+T> = Ok(value: T) | Err(error: Error)

  datatype Link = Link(linkType: string, linkID: string)

  /** A decoded JSON value, as far as field lookup tells values apart. */
  datatype Value = Str(s: string) | Obj(fields: map<string, Value>) | Other

  /** Go's map[string]any, where None stands for the nil map. */
  type Fields = Option<map<string, Value>>

  /** Times are integers on one line; only their order and differences matter. */
  datatype StoredEvent = StoredEvent(
    id: string,
    eventType: string,
    source: string,
    timestamp: int,
    subjectID: string,
    subjectType: string,
    chainID: string,
    links: seq<Link>,
    summary: string,
    rawData: Fields)

  datatype Deployment = Deployment(
    id: string,
    service: string,
    version: string,
    environment: string,
    commitSha: string,
    repository: string,
    branch: string,
    author: string,
    pipelineID: string,
    pipelineURL: string,
    deployedAt: int,
    deployedBy: string,
    eventID: string,
    chainID: string,
    links: seq<Link>)

  /** Every event sits under its own id, as in both backends and in BuildChain's map. */
  predicate KeyedById(events: map<string, StoredEvent>) {
    forall id :: id in events ==> events[id].id == id
  }

  /** The events that carry a chainId. */
  ghost function EventsOfChain(events: map<string, StoredEvent>, chainID: string): set<StoredEvent> {
    set id | id in events && events[id].chainID == chainID :: events[id]
  }

  /** c does not occur in s. */
  predicate Without(s: string, c: char) {
    forall i :: 0 <= i < |s| ==> s[i] != c
  }

  /** The first separator splits a joined key in one way only. */
  lemma SplitAtFirst(a: string, x: string, b: string, y: string, sep: char)
    requires Without(a, sep) && Without(b, sep) && a + [sep] + x == b + [sep] + y
    ensures a == b && x == y
  {
    var s := a + [sep] + x;
    var t := b + [sep] + y;
    assert forall i :: 0 <= i < |a| ==> s[i] == a[i];
    assert forall i :: 0 <= i < |b| ==> t[i] == b[i];
    assert s[|a|] == sep && t[|b|] == sep;
    assert |a| == |b|;
    assert a == s[..|a|] && b == t[..|b|];
    assert x == s[|a| + 1..] && y == t[|b| + 1..];
  }

  /** The set of elements of a sequence. */
  function Elements<T>(s: seq<T>): set<T> {
    set x | x in s
  }

  /** Applies f to every element, in order. */
  function MapSeq<T, U>(f: T -> U, s: seq<T>): (r: seq<U>)
    ensures |r| == |s|
    ensures forall i :: 0 <= i < |s| ==> r[i] == f(s[i])
  {
    seq(|s|, i requires 0 <= i < |s| => f(s[i]))
  }
}
