/**
 * Field lookup in loosely typed event data, and the records built from an event
 * (internal/cdevents/fields.go, internal/cdevents/parser.go).
 */
module Parser {
  import opened Models
  import opened Links
  import opened EventTypes

  const COMMIT_KEYS := ["commitSha", "commit", "sha", "gitCommit"]
  const REPOSITORY_KEYS := ["repository", "repo", "repositoryUrl"]
  const AUTHOR_KEYS := ["author", "committer", "actor"]
  const MESSAGE_KEYS := ["message", "commitMessage", "title", "description"]
  const BRANCH_KEYS := ["branch", "ref"]
  const PIPELINE_ID_KEYS := ["pipelineId", "pipelineRunId", "buildId", "runId"]
  const PIPELINE_URL_KEYS := ["pipelineUrl", "buildUrl", "workflowUrl", "runUrl"]
  const DEPLOYER_KEYS := ["deployer", "deployedBy"]
  const SERVICE_KEYS := ["service", "serviceName"]
  const NESTED_IDENTITY_KEYS := ["id", "url", "name"]

  function GetString(m: Fields, key: string): string {
    if m.Some? && key in m.value && m.value[key].Str? then m.value[key].s else ""
  }

  function GetNested(m: Fields, outer: string, inner: string): string {
    if m.Some? && outer in m.value && m.value[outer].Obj? then GetString(Some(m.value[outer].fields), inner) else ""
  }

  /** The first non-empty string that `at` finds under one of the keys, in key order. */
  function SearchOne(at: (Fields, string) -> string, keys: seq<string>, m: Fields): string {
    if keys == [] then ""
    else if at(m, keys[0]) != "" then at(m, keys[0])
    else SearchOne(at, keys[1..], m)
  }

  /** The same over several maps: a map is searched to the end before the next one. */
  function Search(at: (Fields, string) -> string, keys: seq<string>, maps: seq<Fields>): string {
    if maps == [] then ""
    else if SearchOne(at, keys, maps[0]) != "" then SearchOne(at, keys, maps[0])
    else Search(at, keys, maps[1..])
  }

  function StringFrom(keys: seq<string>, maps: seq<Fields>): string {
    Search(GetString, keys, maps)
  }

  /** A value that names something: a string, or an object with an id, url or name. */
  function Identity(v: Value): string {
    match v
    case Str(s) => s
    case Obj(fields) => SearchOne(GetString, NESTED_IDENTITY_KEYS, Some(fields))
    case Other => ""
  }

  function GetIdentity(m: Fields, key: string): string {
    if m.Some? && key in m.value then Identity(m.value[key]) else ""
  }

  function IdentityFrom(keys: seq<string>, maps: seq<Fields>): string {
    Search(GetIdentity, keys, maps)
  }

  function FirstNonEmpty(values: seq<string>): string {
    if values == [] then ""
    else if values[0] != "" then values[0]
    else FirstNonEmpty(values[1..])
  }

  /** (i, j) comes before (p, q) in the order of a search through maps and, in each, through keys. */
  predicate Earlier(i: nat, j: nat, p: nat, q: nat) {
    i < p || (i == p && j < q)
  }

  /** Nothing is found before key q of map p. */
  ghost predicate NothingBefore(at: (Fields, string) -> string, keys: seq<string>, maps: seq<Fields>, p: nat, q: nat) {
    forall i: nat, j: nat :: i < |maps| && j < |keys| && Earlier(i, j, p, q) ==> at(maps[i], keys[j]) == ""
  }

  lemma {:induction false} SearchOneFirst(at: (Fields, string) -> string, keys: seq<string>, m: Fields) returns (q: nat)
    ensures SearchOne(at, keys, m) == "" ==> forall j :: 0 <= j < |keys| ==> at(m, keys[j]) == ""
    ensures SearchOne(at, keys, m) != "" ==>
              && q < |keys| && at(m, keys[q]) == SearchOne(at, keys, m)
              && forall j :: 0 <= j < q ==> at(m, keys[j]) == ""
    decreases |keys|
  {
    q := 0;
    if keys != [] && at(m, keys[0]) == "" {
      q := SearchOneFirst(at, keys[1..], m);
      assert forall j :: 0 < j < |keys| ==> keys[j] == keys[1..][j - 1];
      q := q + 1;
    }
  }

  /**
   * A search yields nothing only if there is nothing under any key in any map, and
   * otherwise the string at the first place that holds a non-empty one: an earlier map
   * wins over a later one, whatever the keys.
   */
  lemma {:induction false} SearchFirst(at: (Fields, string) -> string, keys: seq<string>, maps: seq<Fields>)
      returns (p: nat, q: nat)
    ensures Search(at, keys, maps) == "" ==>
              forall i, j :: 0 <= i < |maps| && 0 <= j < |keys| ==> at(maps[i], keys[j]) == ""
    ensures Search(at, keys, maps) != "" ==>
              && p < |maps| && q < |keys| && at(maps[p], keys[q]) == Search(at, keys, maps)
              && NothingBefore(at, keys, maps, p, q)
    decreases |maps|
  {
    p, q := 0, 0;
    if maps != [] {
      var tail := maps[1..];
      q := SearchOneFirst(at, keys, maps[0]);
      if SearchOne(at, keys, maps[0]) == "" {
        assert forall i :: 0 < i < |maps| ==> maps[i] == tail[i - 1];
        p, q := SearchFirst(at, keys, tail);
        if Search(at, keys, tail) != "" {
          forall i: nat, j: nat | i < |maps| && j < |keys| && Earlier(i, j, p + 1, q)
            ensures at(maps[i], keys[j]) == ""
          {
            if i > 0 { assert Earlier(i - 1, j, p, q); }
          }
        }
        p := p + 1;
      }
    }
  }

  /** r is the first of the values that is not empty; empty if all are. */
  ghost predicate FirstOf(values: seq<string>, r: string) {
    || (r == "" && forall i :: 0 <= i < |values| ==> values[i] == "")
    || exists i :: 0 <= i < |values| && values[i] == r != "" && forall j :: 0 <= j < i ==> values[j] == ""
  }

  /** What is under the keys, map after map. */
  ghost function Places(at: (Fields, string) -> string, keys: seq<string>, maps: seq<Fields>): seq<string> {
    if maps == [] then []
    else MapSeq((key: string) => at(maps[0], key), keys) + Places(at, keys, maps[1..])
  }

  lemma FirstOfAppend(a: seq<string>, b: seq<string>, r: string)
    requires if exists i :: 0 <= i < |a| && a[i] != "" then FirstOf(a, r) else FirstOf(b, r)
    ensures FirstOf(a + b, r)
  {
    if exists i :: 0 <= i < |a| && a[i] != "" {
      var i :| 0 <= i < |a| && a[i] == r != "" && forall j :: 0 <= j < i ==> a[j] == "";
      assert (a + b)[i] == r;
    } else if r != "" {
      var i :| 0 <= i < |b| && b[i] == r && forall j :: 0 <= j < i ==> b[j] == "";
      assert (a + b)[|a| + i] == r;
      assert forall j :: 0 <= j < |a| + i ==> (a + b)[j] == if j < |a| then a[j] else b[j - |a|];
    }
  }

  lemma SearchOneIsFirst(at: (Fields, string) -> string, keys: seq<string>, m: Fields)
    ensures FirstOf(MapSeq((key: string) => at(m, key), keys), SearchOne(at, keys, m))
  {
    var row := MapSeq((key: string) => at(m, key), keys);
    var q := SearchOneFirst(at, keys, m);
    if SearchOne(at, keys, m) != "" {
      assert row[q] == SearchOne(at, keys, m);
    }
  }

  /** A search finds the first value that is not empty, through the maps and, in each, the keys. */
  lemma {:induction false} SearchIsFirst(at: (Fields, string) -> string, keys: seq<string>, maps: seq<Fields>)
    ensures FirstOf(Places(at, keys, maps), Search(at, keys, maps))
    decreases |maps|
  {
    if maps != [] {
      var row := MapSeq((key: string) => at(maps[0], key), keys);
      SearchOneIsFirst(at, keys, maps[0]);
      SearchIsFirst(at, keys, maps[1..]);
      FirstOfAppend(row, Places(at, keys, maps[1..]), Search(at, keys, maps));
    }
  }

  lemma {:induction false} FirstNonEmptyIsFirst(values: seq<string>)
    ensures FirstOf(values, FirstNonEmpty(values))
    decreases |values|
  {
    if values != [] {
      FirstNonEmptyIsFirst(values[1..]);
      assert values == [values[0]] + values[1..];
      FirstOfAppend([values[0]], values[1..], FirstNonEmpty(values));
    }
  }

  /** A string is read where there is one, and nothing anywhere else. */
  lemma StringRead(m: Fields, key: string, s: string)
    ensures GetString(m, key) == s != "" <==> m.Some? && key in m.value && m.value[key] == Str(s) && s != ""
  {
  }

  lemma NestedRead(m: Fields, outer: string, inner: string, s: string)
    ensures GetNested(m, outer, inner) == s != "" <==>
            && m.Some? && outer in m.value && m.value[outer].Obj?
            && inner in m.value[outer].fields && m.value[outer].fields[inner] == Str(s) && s != ""
  {
  }

  /** A name is a string, or the id, url or name of an object, in this order. */
  lemma IdentityRead(m: Fields, key: string)
    ensures m.Some? && key in m.value && m.value[key].Str? ==> GetIdentity(m, key) == m.value[key].s
    ensures m.Some? && key in m.value && m.value[key].Obj? ==>
              var named := Some(m.value[key].fields);
              FirstOf([GetString(named, "id"), GetString(named, "url"), GetString(named, "name")], GetIdentity(m, key))
    ensures m.None? || key !in m.value || m.value[key].Other? ==> GetIdentity(m, key) == ""
  {
    if m.Some? && key in m.value && m.value[key].Obj? {
      var named := Some(m.value[key].fields);
      SearchOneIsFirst(GetString, NESTED_IDENTITY_KEYS, named);
      assert MapSeq((k: string) => GetString(named, k), NESTED_IDENTITY_KEYS)
          == [GetString(named, "id"), GetString(named, "url"), GetString(named, "name")];
    }
  }

  /**
   * The deployment record of an event. artifactVersion stands for the version that
   * versionFromArtifactID derives from an artifact id.
   */
  function ToDeployment(event: CDEvent, artifactVersion: string -> string): Deployment
    reads event
  {
    var content, custom := event.subject.content, event.customData;
    Deployment(
      event.subject.id,
      FirstNonEmpty([GetNested(content, "service", "name"), StringFrom(SERVICE_KEYS, [custom]), event.subject.id]),
      FirstNonEmpty([GetNested(content, "service", "version"), StringFrom(["version"], [custom]),
                     artifactVersion(GetString(content, "artifactId"))]),
      FirstNonEmpty([GetNested(content, "environment", "id"), GetString(content, "environment"),
                     IdentityFrom(["environment"], [custom])]),
      StringFrom(COMMIT_KEYS, [custom, content]),
      IdentityFrom(REPOSITORY_KEYS, [custom, content]),
      StringFrom(BRANCH_KEYS, [custom, content]),
      StringFrom(AUTHOR_KEYS, [custom, content]),
      StringFrom(PIPELINE_ID_KEYS, [custom, content]),
      StringFrom(PIPELINE_URL_KEYS, [custom, content]),
      event.context.timestamp,
      StringFrom(DEPLOYER_KEYS, [custom, content]),
      event.context.id,
      event.context.chainID,
      event.context.links)
  }

  /** Service, version and environment: where each is looked for, in order. */
  ghost predicate PlacedAs(d: Deployment, subject: EventSubject, custom: Fields, artifactVersion: string -> string) {
    var content := subject.content;
    && FirstOf([GetNested(content, "service", "name")] + Places(GetString, ["service", "serviceName"], [custom])
               + [subject.id], d.service)
    && FirstOf([GetNested(content, "service", "version")] + Places(GetString, ["version"], [custom])
               + [artifactVersion(GetString(content, "artifactId"))], d.version)
    && FirstOf([GetNested(content, "environment", "id"), GetString(content, "environment")]
               + Places(GetIdentity, ["environment"], [custom]), d.environment)
  }

  /** The change and the pipeline behind it: customData first, then the content. */
  ghost predicate ChangedBy(d: Deployment, subject: EventSubject, custom: Fields) {
    var maps := [custom, subject.content];
    && FirstOf(Places(GetString, ["commitSha", "commit", "sha", "gitCommit"], maps), d.commitSha)
    && FirstOf(Places(GetIdentity, ["repository", "repo", "repositoryUrl"], maps), d.repository)
    && FirstOf(Places(GetString, ["branch", "ref"], maps), d.branch)
    && FirstOf(Places(GetString, ["author", "committer", "actor"], maps), d.author)
    && FirstOf(Places(GetString, ["pipelineId", "pipelineRunId", "buildId", "runId"], maps), d.pipelineID)
    && FirstOf(Places(GetString, ["pipelineUrl", "buildUrl", "workflowUrl", "runUrl"], maps), d.pipelineURL)
    && FirstOf(Places(GetString, ["deployer", "deployedBy"], maps), d.deployedBy)
  }

  /** The record of an event, field by field. */
  ghost predicate RecordAs(d: Deployment, context: EventContext, subject: EventSubject, custom: Fields,
                           artifactVersion: string -> string) {
    && d.id == subject.id && d.eventID == context.id && d.deployedAt == context.timestamp
    && d.chainID == context.chainID && d.links == context.links
    && PlacedAs(d, subject, custom, artifactVersion) && ChangedBy(d, subject, custom)
  }

  lemma FirstOfJoin(a: seq<string>, b: seq<string>, x: string, y: string)
    requires FirstOf(a, x) && FirstOf(b, y)
    ensures FirstOf(a + b, if x != "" then x else y)
  {
    FirstOfAppend(a, b, if x != "" then x else y);
  }

  lemma FirstOfOne(a: string)
    ensures FirstOf([a], a)
  {
    assert [a][0] == a;
  }

  /** A search between or after single values. */
  lemma FirstAround(a: string, b: seq<string>, found: string, c: string)
    requires FirstOf(b, found)
    ensures FirstOf([a] + b + [c], FirstNonEmpty([a, found, c]))
    ensures FirstOf([a, c] + b, FirstNonEmpty([a, c, found]))
  {
    hide FirstOf;
    FirstOfOne(a);
    FirstOfOne(c);
    FirstOfJoin([a], b, a, found);
    FirstOfJoin([a] + b, [c], if a != "" then a else found, c);
    FirstOfJoin([a], [c], a, c);
    FirstOfJoin([a] + [c], b, if a != "" then a else c, found);
    assert [a] + [c] == [a, c];
    FirstOfThree(a, found, c);
    FirstOfThree(a, c, found);
  }

  lemma FirstOfThree(a: string, b: string, c: string)
    ensures FirstNonEmpty([a, b, c]) == if a != "" then a else if b != "" then b else c
  {
    assert [a, b, c][1..] == [b, c] && [b, c][1..] == [c] && [c][1..] == [];
    assert FirstNonEmpty([c]) == c;
    assert FirstNonEmpty([b, c]) == if b != "" then b else c;
  }

  lemma RecordPlaces(event: CDEvent, artifactVersion: string -> string)
    ensures PlacedAs(ToDeployment(event, artifactVersion), event.subject, event.customData, artifactVersion)
  {
    hide GetString, GetNested, GetIdentity, Search, Places, FirstOf, FirstNonEmpty;
    var content, custom := event.subject.content, event.customData;
    SearchIsFirst(GetString, SERVICE_KEYS, [custom]);
    FirstAround(GetNested(content, "service", "name"), Places(GetString, SERVICE_KEYS, [custom]),
                StringFrom(SERVICE_KEYS, [custom]), event.subject.id);
    SearchIsFirst(GetString, ["version"], [custom]);
    FirstAround(GetNested(content, "service", "version"), Places(GetString, ["version"], [custom]),
                StringFrom(["version"], [custom]), artifactVersion(GetString(content, "artifactId")));
    SearchIsFirst(GetIdentity, ["environment"], [custom]);
    FirstAround(GetNested(content, "environment", "id"), Places(GetIdentity, ["environment"], [custom]),
                IdentityFrom(["environment"], [custom]), GetString(content, "environment"));
  }

  lemma RecordChange(event: CDEvent, artifactVersion: string -> string)
    ensures ChangedBy(ToDeployment(event, artifactVersion), event.subject, event.customData)
  {
    hide GetString, GetNested, GetIdentity, Search, Places, FirstOf, FirstNonEmpty;
    var maps := [event.customData, event.subject.content];
    SearchIsFirst(GetString, COMMIT_KEYS, maps);
    SearchIsFirst(GetIdentity, REPOSITORY_KEYS, maps);
    SearchIsFirst(GetString, BRANCH_KEYS, maps);
    SearchIsFirst(GetString, AUTHOR_KEYS, maps);
    SearchIsFirst(GetString, PIPELINE_ID_KEYS, maps);
    SearchIsFirst(GetString, PIPELINE_URL_KEYS, maps);
    SearchIsFirst(GetString, DEPLOYER_KEYS, maps);
  }

  /** Every field of the record is taken from where it should be. */
  lemma RecordFields(event: CDEvent, artifactVersion: string -> string)
    ensures RecordAs(ToDeployment(event, artifactVersion), event.context, event.subject, event.customData,
                     artifactVersion)
  {
    hide PlacedAs, ChangedBy;
    RecordPlaces(event, artifactVersion);
    RecordChange(event, artifactVersion);
  }

  /** The stored form of an event, field by field. */
  ghost predicate StoredAs(e: StoredEvent, context: EventContext, subject: EventSubject, custom: Fields,
                           summary: string) {
    && e.id == context.id && e.eventType == context.eventType && e.source == context.source
    && e.timestamp == context.timestamp && e.chainID == context.chainID && e.links == context.links
    && e.subjectID == subject.id && e.subjectType == subject.subjectType && e.summary == summary
    // the raw data has what there is of content and customData, and nothing else
    && (e.rawData.None? <==> subject.content.None? && custom.None?)
    && (e.rawData.Some? ==>
          && e.rawData.value.Keys <= {"content", "customData"}
          && ("content" in e.rawData.value <==> subject.content.Some?)
          && (subject.content.Some? ==> e.rawData.value["content"] == Obj(subject.content.value))
          && ("customData" in e.rawData.value <==> custom.Some?)
          && (custom.Some? ==> e.rawData.value["customData"] == Obj(custom.value)))
  }

  lemma StoredFields(event: CDEvent, summary: string)
    ensures StoredAs(StoredOf(event, summary), event.context, event.subject, event.customData, summary)
  {
  }

  /** The raw data kept with a stored event; None when the event carried none. */
  function RawDataOf(content: Fields, customData: Fields): Fields {
    match (content, customData)
    case (None, None) => None
    case (Some(c), None) => Some(map["content" := Obj(c)])
    case (None, Some(d)) => Some(map["customData" := Obj(d)])
    case (Some(c), Some(d)) => Some(map["content" := Obj(c), "customData" := Obj(d)])
  }

  /** The stored record of an event; the summary text is a parameter. */
  method ToStoredEvent(event: CDEvent, summary: string) returns (stored: StoredEvent)
    ensures stored == StoredOf(event, summary)
    ensures StoredAs(stored, event.context, event.subject, event.customData, summary)
  {
    StoredFields(event, summary);
    var rawData: map<string, Value> := map[];
    if event.subject.content.Some? {
      rawData := rawData["content" := Obj(event.subject.content.value)];
    }
    if event.customData.Some? {
      rawData := rawData["customData" := Obj(event.customData.value)];
    }
    assert event.subject.content.Some? ==> "content" in rawData;
    assert event.customData.Some? ==> "customData" in rawData;
    stored := StoredEvent(event.context.id, event.context.eventType, event.context.source,
                          event.context.timestamp, event.subject.id, event.subject.subjectType,
                          event.context.chainID, event.context.links, summary,
                          if |rawData| == 0 then None else Some(rawData));
  }

  function StoredOf(event: CDEvent, summary: string): StoredEvent
    reads event
  {
    StoredEvent(event.context.id, event.context.eventType, event.context.source,
                event.context.timestamp, event.subject.id, event.subject.subjectType,
                event.context.chainID, event.context.links, summary,
                RawDataOf(event.subject.content, event.customData))
  }

  datatype ChangeInfo = ChangeInfo(commit: string, author: string, message: string, repository: string)

  /** The object stored under a key of the raw data. */
  function Section(raw: map<string, Value>, key: string): Fields {
    if key in raw && raw[key].Obj? then Some(raw[key].fields) else None
  }

  function ExtractChangeInfo(event: StoredEvent): ChangeInfo {
    if event.rawData.None? then ChangeInfo("", "", "", "")
    else
      var maps := [Section(event.rawData.value, "customData"), Section(event.rawData.value, "content"), event.rawData];
      ChangeInfo(StringFrom(COMMIT_KEYS, maps), StringFrom(AUTHOR_KEYS, maps),
                 StringFrom(MESSAGE_KEYS, maps), IdentityFrom(REPOSITORY_KEYS, maps))
  }

  /** The change that a stored event tells of: customData first, then the content, then the raw data itself. */
  lemma ChangeInfoFields(event: StoredEvent)
    requires event.rawData.Some?
    ensures var raw, info := event.rawData.value, ExtractChangeInfo(event);
            var maps := [Section(raw, "customData"), Section(raw, "content"), event.rawData];
            && FirstOf(Places(GetString, ["commitSha", "commit", "sha", "gitCommit"], maps), info.commit)
            && FirstOf(Places(GetString, ["author", "committer", "actor"], maps), info.author)
            && FirstOf(Places(GetString, ["message", "commitMessage", "title", "description"], maps), info.message)
            && FirstOf(Places(GetIdentity, ["repository", "repo", "repositoryUrl"], maps), info.repository)
  {
    hide GetString, GetIdentity, Search, Places, FirstOf, Section;
    var raw := event.rawData.value;
    var maps := [Section(raw, "customData"), Section(raw, "content"), event.rawData];
    SearchIsFirst(GetString, COMMIT_KEYS, maps);
    SearchIsFirst(GetString, AUTHOR_KEYS, maps);
    SearchIsFirst(GetString, MESSAGE_KEYS, maps);
    SearchIsFirst(GetIdentity, REPOSITORY_KEYS, maps);
  }

  lemma SectionRead(raw: map<string, Value>, key: string, fields: map<string, Value>)
    ensures Section(raw, key) == Some(fields) <==> key in raw && raw[key] == Obj(fields)
  {
  }

  // ---------------------------------------------------------------------------
  // The deployment record and the stored event agree

  lemma {:induction false} SearchOneAbsent(at: (Fields, string) -> string, keys: seq<string>, m: Fields)
    requires forall i :: 0 <= i < |keys| ==> at(m, keys[i]) == ""
    ensures SearchOne(at, keys, m) == ""
    decreases |keys|
  {
    if keys != [] { SearchOneAbsent(at, keys[1..], m); }
  }

  lemma {:induction false} SearchLast(at: (Fields, string) -> string, keys: seq<string>, maps: seq<Fields>,
                                      last: Fields)
    requires forall i :: 0 <= i < |keys| ==> at(last, keys[i]) == ""
    ensures Search(at, keys, maps + [last]) == Search(at, keys, maps)
    decreases |maps|
  {
    if maps == [] {
      SearchOneAbsent(at, keys, last);
      assert (maps + [last])[1..] == [];
    } else {
      assert (maps + [last])[1..] == maps[1..] + [last];
      SearchLast(at, keys, maps[1..], last);
    }
  }

  lemma RawDataSections(content: Fields, custom: Fields)
    ensures var raw := RawDataOf(content, custom);
            && (raw.None? ==> content.None? && custom.None?)
            && (raw.Some? ==>
                  && Section(raw.value, "customData") == custom && Section(raw.value, "content") == content
                  && forall k :: k in raw.value ==> k == "content" || k == "customData")
  {
  }

  /** Lookup in the raw data of a stored event finds what lookup in the event finds. */
  lemma StoredLookup(at: (Fields, string) -> string, keys: seq<string>, content: Fields, custom: Fields)
    requires forall m: Fields, k :: (m.Some? ==> k !in m.value) ==> at(m, k) == ""
    requires forall i :: 0 <= i < |keys| ==> keys[i] != "content" && keys[i] != "customData"
    ensures var raw := RawDataOf(content, custom);
            if raw.None? then Search(at, keys, [custom, content]) == ""
            else Search(at, keys, [Section(raw.value, "customData"), Section(raw.value, "content"), raw])
                 == Search(at, keys, [custom, content])
  {
    hide RawDataOf, Section, Search;
    var raw := RawDataOf(content, custom);
    RawDataSections(content, custom);
    if raw.Some? {
      assert [custom, content] + [raw] == [custom, content, raw];
      SearchLast(at, keys, [custom, content], raw);
    } else {
      var none: Fields := None;
      SearchLast(at, keys, [], none);
      SearchLast(at, keys, [none], none);
      assert [] + [none] == [none] && [none] + [none] == [none, none];
      assert Search(at, keys, []) == "" by { SearchNowhere(at, keys); }
    }
  }

  lemma SearchNowhere(at: (Fields, string) -> string, keys: seq<string>)
    ensures Search(at, keys, []) == ""
  {
  }

  /**
   * Commit, author and repository read back from the stored event are those of the
   * deployment record built from the same event, so a root cause that falls back to a
   * deployment names the commit on record.
   */
  lemma ProjectionsAgree(event: CDEvent, artifactVersion: string -> string, summary: string)
    ensures var d, info := ToDeployment(event, artifactVersion), ExtractChangeInfo(StoredOf(event, summary));
            d.commitSha == info.commit && d.author == info.author && d.repository == info.repository
  {
    var content, custom := event.subject.content, event.customData;
    StoredLookup(GetString, COMMIT_KEYS, content, custom);
    StoredLookup(GetString, AUTHOR_KEYS, content, custom);
    StoredLookup(GetIdentity, REPOSITORY_KEYS, content, custom);
  }
}
