/** Reduction of versioned CDEvents type strings (internal/cdevents/types.go). */
module EventTypes {
  import opened Models

  const KIND_SERVICE_DEPLOYED := "service.deployed"
  const KIND_SERVICE_UPGRADED := "service.upgraded"
  const KIND_SERVICE_ROLLEDBACK := "service.rolledback"
  const KIND_CHANGE_MERGED := "change.merged"

  /** strings.Split with a one-character separator. */
  function Split(s: string, sep: char): (parts: seq<string>)
    ensures |parts| >= 1
  {
    if s == "" then [""]
    else
      var rest := Split(s[1..], sep);
      if s[0] == sep then [""] + rest else [[s[0]] + rest[0]] + rest[1..]
  }

  /** unicode.IsSpace. */
  predicate IsSpace(c: char) {
    || '\t' <= c <= '\r' || c == ' ' || c == '\U{0085}' || c == '\U{00A0}' || c == '\U{1680}'
    || '\U{2000}' <= c <= '\U{200A}' || c == '\U{2028}' || c == '\U{2029}' || c == '\U{202F}'
    || c == '\U{205F}' || c == '\U{3000}'
  }

  /** strings.TrimSpace. */
  function TrimSpace(s: string): string {
    if s == "" then s
    else if IsSpace(s[0]) then TrimSpace(s[1..])
    else if IsSpace(s[|s| - 1]) then TrimSpace(s[..|s| - 1])
    else s
  }

  predicate AllDigits(s: string) {
    forall i :: 0 <= i < |s| ==> '0' <= s[i] <= '9'
  }

  /** Digits, with a v or V before them or not. */
  predicate IsVersionSegment(s: string) {
    || (s != "" && AllDigits(s))
    || (|s| > 1 && (s[0] == 'v' || s[0] == 'V') && AllDigits(s[1..]))
  }

  /** From place n on there are digits, at least one, and nothing else. */
  predicate DigitsFrom(s: string, n: nat) {
    n < |s| && forall i :: n <= i < |s| ==> s[i] in "0123456789"
  }

  /** One or more digits, alone or after one v or V. */
  predicate IsRelease(s: string) {
    DigitsFrom(s, 0) || (s != "" && s[0] in "vV" && DigitsFrom(s, 1))
  }

  lemma VersionSegmentForm(s: string)
    ensures IsVersionSegment(s) <==> IsRelease(s)
  {
    forall c: char ensures '0' <= c <= '9' <==> c in "0123456789" {
      DigitChars(c);
    }
    if s != "" {
      assert forall i :: 1 <= i < |s| ==> s[1..][i - 1] == s[i];
      assert AllDigits(s[1..]) <==> forall i :: 1 <= i < |s| ==> '0' <= s[i] <= '9';
    }
  }

  lemma DigitChars(c: char)
    ensures '0' <= c <= '9' <==> c in "0123456789"
  {
    if '0' <= c <= '9' {
      assert "0123456789"[c as int - '0' as int] == c;
    }
  }

  /** The white space characters that are removed around a type, one by one. */
  lemma SpaceChars(c: char)
    ensures IsSpace(c) <==>
            || c in [' ', '\t', '\n', '\U{000B}', '\U{000C}', '\r', '\U{0085}', '\U{00A0}', '\U{1680}']
            || c in ['\U{2000}', '\U{2001}', '\U{2002}', '\U{2003}', '\U{2004}', '\U{2005}', '\U{2006}']
            || c in ['\U{2007}', '\U{2008}', '\U{2009}', '\U{200A}', '\U{2028}', '\U{2029}', '\U{202F}']
            || c in ['\U{205F}', '\U{3000}']
  {
  }

  /** Drops version segments from the end while more than two segments are left. */
  function StripVersions(parts: seq<string>): (r: seq<string>)
    ensures |parts| >= 2 ==> |r| >= 2
    ensures |r| <= |parts|
  {
    if |parts| > 2 && IsVersionSegment(parts[|parts| - 1]) then StripVersions(parts[..|parts| - 1]) else parts
  }

  /** The short type made of the segments of a type string. */
  function Reduce(parts: seq<string>, whole: string): string
    requires |parts| >= 1
  {
    if |parts| >= 4 && parts[0] == "dev" && parts[1] == "cdevents" then parts[2] + "." + parts[3]
    else
      var stripped := StripVersions(parts);
      if |stripped| >= 2 then stripped[|stripped| - 2] + "." + stripped[|stripped| - 1] else whole
  }

  function ShortTypeOf(eventType: string): string {
    Reduce(Split(TrimSpace(eventType), '.'), eventType)
  }

  /** Drops the leading v and scans the rest for anything that is not a digit. */
  method ScanVersionSegment(segment: string) returns (version: bool)
    ensures version <==> IsVersionSegment(segment)
    ensures version <==> IsRelease(segment)
  {
    VersionSegmentForm(segment);
    var s := segment;
    if s == "" { return false; }
    if s[0] == 'v' || s[0] == 'V' { s := s[1..]; }
    if s == "" { return false; }
    for i := 0 to |s|
      invariant AllDigits(s[..i])
    {
      if s[i] < '0' || s[i] > '9' { return false; }
    }
    return true;
  }

  method ShortType(eventType: string) returns (short: string)
    ensures short == ShortTypeOf(eventType)
  {
    var parts := Split(TrimSpace(eventType), '.');
    if |parts| >= 4 && parts[0] == "dev" && parts[1] == "cdevents" {
      return parts[2] + "." + parts[3];
    }
    ghost var all := parts;
    while |parts| > 2
      invariant StripVersions(parts) == StripVersions(all)
    {
      var version := ScanVersionSegment(parts[|parts| - 1]);
      if !version { break; }
      parts := parts[..|parts| - 1];
    }
    if |parts| >= 2 {
      return parts[|parts| - 2] + "." + parts[|parts| - 1];
    }
    return eventType;
  }

  predicate IsDeploymentKind(kind: string) {
    kind == KIND_SERVICE_DEPLOYED || kind == KIND_SERVICE_UPGRADED || kind == KIND_SERVICE_ROLLEDBACK
  }

  /** A service deployed, upgraded or rolled back. */
  predicate IsRollout(eventType: string) {
    || ShortTypeOf(eventType) == "service.deployed"
    || ShortTypeOf(eventType) == "service.upgraded"
    || ShortTypeOf(eventType) == "service.rolledback"
  }

  // ---------------------------------------------------------------------------
  // What the reduction depends on

  predicate AllSpace(s: string) {
    forall i :: 0 <= i < |s| ==> IsSpace(s[i])
  }

  /** Nothing for TrimSpace to remove. */
  predicate Trimmed(s: string) {
    s == "" || (!IsSpace(s[0]) && !IsSpace(s[|s| - 1]))
  }

  lemma {:induction false} TrimPadding(left: string, core: string, right: string)
    requires AllSpace(left) && AllSpace(right) && Trimmed(core) && core != ""
    ensures TrimSpace(left + core + right) == core
    decreases |left| + |right|
  {
    var s := left + core + right;
    if left != "" {
      assert s[0] == left[0] && s[1..] == left[1..] + core + right;
      TrimPadding(left[1..], core, right);
    } else {
      assert s[0] == core[0];
      if right != "" {
        assert s[|s| - 1] == right[|right| - 1] && s[..|s| - 1] == left + core + right[..|right| - 1];
        TrimPadding(left, core, right[..|right| - 1]);
      } else {
        assert s == core;
      }
    }
  }

  lemma {:induction false} SplitFree(s: string, sep: char)
    requires Without(s, sep)
    ensures Split(s, sep) == [s]
    decreases |s|
  {
    if s != "" {
      SplitFree(s[1..], sep);
      assert [s[0]] + s[1..] == s;
    }
  }

  /** Splitting after a separator-free segment gives that segment and the rest. */
  lemma {:induction false} SplitSegment(s: string, sep: char, rest: string)
    requires Without(s, sep)
    ensures Split(s + [sep] + rest, sep) == [s] + Split(rest, sep)
    decreases |s|
  {
    var whole := s + [sep] + rest;
    if s == "" {
      assert whole[1..] == rest;
    } else {
      assert whole[1..] == s[1..] + [sep] + rest;
      SplitSegment(s[1..], sep, rest);
      assert [s[0]] + s[1..] == s;
    }
  }

  lemma {:induction false} SplitPartsFree(s: string, sep: char)
    ensures forall k :: 0 <= k < |Split(s, sep)| ==> Without(Split(s, sep)[k], sep)
    decreases |s|
  {
    if s != "" { SplitPartsFree(s[1..], sep); }
  }

  /** strings.Join with a dot. */
  function Join(parts: seq<string>): string
    requires |parts| >= 1
  {
    if |parts| == 1 then parts[0] else parts[0] + "." + Join(parts[1..])
  }

  /** Type segments: none holds a dot, and nothing at the outer ends is white space. */
  ghost predicate Segments(parts: seq<string>) {
    |parts| >= 1 && (forall k :: 0 <= k < |parts| ==> Without(parts[k], '.')) && Trimmed(Join(parts))
  }

  lemma {:induction false} SplitJoin(parts: seq<string>)
    requires |parts| >= 1 && forall k :: 0 <= k < |parts| ==> Without(parts[k], '.')
    ensures Split(Join(parts), '.') == parts
    decreases |parts|
  {
    if |parts| == 1 {
      SplitFree(parts[0], '.');
      assert parts == [parts[0]];
    } else {
      assert Join(parts) == parts[0] + ['.'] + Join(parts[1..]);
      SplitSegment(parts[0], '.', Join(parts[1..]));
      SplitJoin(parts[1..]);
      assert [parts[0]] + parts[1..] == parts;
    }
  }

  lemma SplitPadded(left: string, parts: seq<string>, right: string)
    requires Segments(parts) && |parts| >= 2 && AllSpace(left) && AllSpace(right)
    ensures Split(TrimSpace(left + Join(parts) + right), '.') == parts
  {
    TrimPadding(left, Join(parts), right);
    SplitJoin(parts);
  }

  /**
   * A "dev.cdevents" type reduces to its subject and predicate whatever follows them,
   * be it a schema version or anything else, and whatever white space surrounds it.
   */
  lemma QualifiedTypeReduces(left: string, parts: seq<string>, right: string)
    requires Segments(parts) && |parts| >= 4 && parts[0] == "dev" && parts[1] == "cdevents"
    requires AllSpace(left) && AllSpace(right)
    ensures ShortTypeOf(left + Join(parts) + right) == parts[2] + "." + parts[3]
  {
    SplitPadded(left, parts, right);
  }

  lemma {:induction false} StripAllVersions(parts: seq<string>)
    requires |parts| >= 2 && forall k :: 2 <= k < |parts| ==> IsVersionSegment(parts[k])
    ensures StripVersions(parts) == parts[..2]
    decreases |parts|
  {
    if |parts| > 2 {
      StripAllVersions(parts[..|parts| - 1]);
      assert parts[..|parts| - 1][..2] == parts[..2];
    } else {
      assert parts[..2] == parts;
    }
  }

  lemma ReduceVersions(parts: seq<string>, whole: string)
    requires |parts| >= 2 && forall k :: 2 <= k < |parts| ==> IsVersionSegment(parts[k])
    requires !(|parts| >= 4 && parts[0] == "dev" && parts[1] == "cdevents")
    ensures Reduce(parts, whole) == parts[0] + "." + parts[1]
  {
    StripAllVersions(parts);
    assert parts[..2] == [parts[0], parts[1]];
  }

  /**
   * Any other type reduces to its first two segments when only versions follow them,
   * each made of digits with or without a v or V before them. "dev.cdevents" with two
   * versions or more falls under the rule above instead.
   */
  lemma VersionedTypeReduces(left: string, parts: seq<string>, right: string)
    requires Segments(parts) && |parts| >= 2 && AllSpace(left) && AllSpace(right)
    requires forall k :: 2 <= k < |parts| ==> IsRelease(parts[k])
    requires !(|parts| >= 4 && parts[0] == "dev" && parts[1] == "cdevents")
    ensures ShortTypeOf(left + Join(parts) + right) == parts[0] + "." + parts[1]
  {
    hide IsVersionSegment, IsRelease, Segments;
    SplitPadded(left, parts, right);
    forall k | 2 <= k < |parts| ensures IsVersionSegment(parts[k]) {
      VersionSegmentForm(parts[k]);
    }
    ReduceVersions(parts, left + Join(parts) + right);
  }

  /** A type without a dot is its own short form, as it stands. */
  lemma UndottedKept(eventType: string)
    requires Without(eventType, '.')
    ensures ShortTypeOf(eventType) == eventType
  {
    TrimKeepsFree(eventType);
    SplitFree(TrimSpace(eventType), '.');
  }

  lemma {:induction false} TrimKeepsFree(s: string)
    requires Without(s, '.')
    ensures Without(TrimSpace(s), '.')
    decreases |s|
  {
    if s != "" {
      if IsSpace(s[0]) { TrimKeepsFree(s[1..]); }
      else if IsSpace(s[|s| - 1]) { TrimKeepsFree(s[..|s| - 1]); }
    }
  }

  lemma {:induction false} TrimIsTrimmed(s: string)
    ensures Trimmed(TrimSpace(s))
    ensures Trimmed(s) ==> TrimSpace(s) == s
    decreases |s|
  {
    if s != "" {
      if IsSpace(s[0]) { TrimIsTrimmed(s[1..]); }
      else if IsSpace(s[|s| - 1]) { TrimIsTrimmed(s[..|s| - 1]); }
    }
  }

  /** White space around a dotted pair comes off its outer ends only. */
  lemma {:induction false} TrimPair(a: string, b: string)
    requires Without(a, '.') && Without(b, '.')
    ensures exists a', b' :: Without(a', '.') && Without(b', '.') && TrimSpace(a + "." + b) == a' + "." + b'
    decreases |a| + |b|
  {
    var s := a + "." + b;
    assert !IsSpace('.');
    if a != "" && IsSpace(a[0]) {
      assert s[1..] == a[1..] + "." + b;
      TrimPair(a[1..], b);
    } else if b != "" && IsSpace(b[|b| - 1]) {
      assert s[..|s| - 1] == a + "." + b[..|b| - 1];
      assert !IsSpace(s[0]);
      TrimPair(a, b[..|b| - 1]);
    } else {
      assert TrimSpace(s) == a + "." + b;
    }
  }

  lemma SplitPair(a: string, b: string)
    requires Without(a, '.') && Without(b, '.')
    ensures Split(a + "." + b, '.') == [a, b]
  {
    assert a + "." + b == a + ['.'] + b;
    SplitSegment(a, '.', b);
    SplitFree(b, '.');
    assert [a] + [b] == [a, b];
  }

  /** A reduced pair reduces to itself, apart from the white space at its ends. */
  lemma PairReducesToTrim(a: string, b: string)
    requires Without(a, '.') && Without(b, '.')
    ensures ShortTypeOf(a + "." + b) == TrimSpace(a + "." + b)
  {
    TrimPair(a, b);
    var a', b' :| Without(a', '.') && Without(b', '.') && TrimSpace(a + "." + b) == a' + "." + b';
    SplitPair(a', b');
    ReducePair(a', b', a + "." + b);
  }

  lemma ReducePair(a: string, b: string, whole: string)
    ensures Reduce([a, b], whole) == a + "." + b
  {
  }

  lemma {:induction false} StripVersionsPrefix(parts: seq<string>)
    ensures StripVersions(parts) <= parts
    decreases |parts|
  {
    if |parts| > 2 && IsVersionSegment(parts[|parts| - 1]) { StripVersionsPrefix(parts[..|parts| - 1]); }
  }

  /**
   * Segment k is the predicate that a dotted type keeps, after its subject: the fourth of
   * a "dev.cdevents" type, and otherwise the last one that is no version segment or, if
   * all from the third on are versions, the second.
   */
  ghost predicate IsPredicate(parts: seq<string>, k: nat) {
    if |parts| >= 4 && parts[0] == "dev" && parts[1] == "cdevents" then k == 3
    else
      && 1 <= k < |parts| && (k > 1 ==> !IsRelease(parts[k]))
      && (forall i :: k < i < |parts| ==> IsRelease(parts[i]))
  }

  lemma {:induction false} StripVersionsAt(parts: seq<string>) returns (k: nat)
    requires |parts| >= 2
    ensures 1 <= k < |parts| && (k > 1 ==> !IsRelease(parts[k]))
    ensures forall i :: k < i < |parts| ==> IsRelease(parts[i])
    ensures StripVersions(parts) == parts[..k + 1]
    decreases |parts|
  {
    hide IsVersionSegment, IsRelease;
    VersionSegmentForm(parts[|parts| - 1]);
    if |parts| > 2 && IsVersionSegment(parts[|parts| - 1]) {
      k := StripVersionsAt(parts[..|parts| - 1]);
      assert parts[..|parts| - 1][..k + 1] == parts[..k + 1];
    } else {
      k := |parts| - 1;
      assert parts[..k + 1] == parts;
    }
  }

  /** A dotted type reduces to its subject and its predicate. */
  lemma ReduceKeeps(parts: seq<string>, whole: string) returns (k: nat)
    requires |parts| >= 2
    ensures IsPredicate(parts, k) && 1 <= k < |parts| && Reduce(parts, whole) == parts[k - 1] + "." + parts[k]
    ensures forall j :: IsPredicate(parts, j) ==> j == k
  {
    hide IsRelease;
    if |parts| >= 4 && parts[0] == "dev" && parts[1] == "cdevents" {
      k := 3;
    } else {
      k := StripVersionsAt(parts);
    }
  }

  /**
   * Reducing twice is reducing once exactly when the type has no dot and so is returned
   * as it stands, or its subject does not begin and its predicate does not end with white
   * space. k is where the predicate is; there is one such place (ReduceKeeps).
   */
  lemma ReductionIdempotentIff(eventType: string, k: nat)
    requires var parts := Split(TrimSpace(eventType), '.'); |parts| >= 2 ==> IsPredicate(parts, k)
    ensures var parts := Split(TrimSpace(eventType), '.');
            ShortTypeOf(ShortTypeOf(eventType)) == ShortTypeOf(eventType) <==>
            |parts| == 1 || (!StartsWithSpace(parts[k - 1]) && !EndsWithSpace(parts[k]))
  {
    hide IsRelease, IsVersionSegment, StripVersions, Split, TrimSpace;
    var parts := Split(TrimSpace(eventType), '.');
    SplitPartsFree(TrimSpace(eventType), '.');
    if |parts| == 1 {
      assert ShortTypeOf(eventType) == eventType;
    } else {
      var j := ReduceKeeps(parts, eventType);
      var a, b := parts[k - 1], parts[k];
      assert ShortTypeOf(eventType) == a + "." + b;
      PairReducesToTrim(a, b);
      TrimIsTrimmed(a + "." + b);
      PairTrimmed(a, b);
    }
  }

  lemma SplitTriple(a: string, b: string, c: string)
    requires Without(a, '.') && Without(b, '.') && Without(c, '.')
    ensures Split(a + "." + (b + "." + c), '.') == [a, b, c]
  {
    hide Split;
    assert a + "." + (b + "." + c) == a + ['.'] + (b + "." + c);
    SplitSegment(a, '.', b + "." + c);
    SplitPair(b, c);
    assert [a] + [b, c] == [a, b, c];
  }

  lemma InnerSpaceKept()
    ensures ShortTypeOf("x. a.b") == " a.b"
  {
    hide StripVersions, IsVersionSegment, Split, TrimSpace;
    assert "x. a.b" == "x" + "." + (" a" + "." + "b") && " a.b" == " a" + "." + "b";
    SplitTriple("x", " a", "b");
    TrimIsTrimmed("x. a.b");
    LetterIsNoVersion("b");
    NoVersionToStrip(["x", " a", "b"]);
  }

  lemma LetterIsNoVersion(s: string)
    requires s != "" && !('0' <= s[0] <= '9') && s[0] != 'v' && s[0] != 'V'
    ensures !IsVersionSegment(s)
  {
  }

  lemma NoVersionToStrip(parts: seq<string>)
    requires parts != [] && !IsVersionSegment(parts[|parts| - 1])
    ensures StripVersions(parts) == parts
  {
  }

  /** "x. a.b" reduces to " a.b", and that to "a.b". */
  lemma ReducingTwiceDiffers()
    ensures ShortTypeOf("x. a.b") == " a.b" && ShortTypeOf(" a.b") == "a.b"
  {
    hide ShortTypeOf;
    InnerSpaceKept();
    PairReducesToTrim(" a", "b");
    assert " a" + "." + "b" == " a.b" && " a.b"[1..] == "a.b";
    TrimIsTrimmed("a.b");
  }

  predicate StartsWithSpace(s: string) {
    s != "" && IsSpace(s[0])
  }

  predicate EndsWithSpace(s: string) {
    s != "" && IsSpace(s[|s| - 1])
  }

  lemma PairTrimmed(a: string, b: string)
    ensures Trimmed(a + "." + b) <==> !StartsWithSpace(a) && !EndsWithSpace(b)
  {
    var s := a + "." + b;
    assert s[0] == if a == "" then '.' else a[0];
    assert s[|s| - 1] == if b == "" then '.' else b[|b| - 1];
  }

  lemma {:induction false} SplitKeepsSpaceFree(s: string, sep: char)
    requires forall i :: 0 <= i < |s| ==> !IsSpace(s[i])
    ensures forall k :: 0 <= k < |Split(s, sep)| ==>
              forall i :: 0 <= i < |Split(s, sep)[k]| ==> !IsSpace(Split(s, sep)[k][i])
    decreases |s|
  {
    if s != "" { SplitKeepsSpaceFree(s[1..], sep); }
  }

  /** On types without white space, reducing twice is always reducing once. */
  lemma SpaceFreeIdempotent(eventType: string)
    requires forall i :: 0 <= i < |eventType| ==> !IsSpace(eventType[i])
    ensures ShortTypeOf(ShortTypeOf(eventType)) == ShortTypeOf(eventType)
  {
    hide ShortTypeOf;
    TrimIsTrimmed(eventType);
    SplitKeepsSpaceFree(eventType, '.');
    var parts, k := Split(eventType, '.'), 0;
    if |parts| >= 2 { k := ReduceKeeps(parts, eventType); }
    ReductionIdempotentIff(eventType, k);
  }

  // ---------------------------------------------------------------------------
  // A type as it is sent

  lemma JoinFive(a: string, b: string, c: string, d: string, e: string)
    ensures Join([a, b, c, d, e]) == a + "." + (b + "." + (c + "." + (d + "." + e)))
  {
    var s := [a, b, c, d, e];
    assert s[1..] == [b, c, d, e] && s[1..][1..] == [c, d, e] && s[1..][1..][1..] == [d, e];
    assert Join([d, e]) == d + "." + e;
    assert Join([c, d, e]) == c + "." + Join([d, e]);
    assert Join([b, c, d, e]) == b + "." + Join([c, d, e]);
  }

  lemma FiveSegments(parts: seq<string>, whole: string)
    requires |parts| == 5 && forall k :: 0 <= k < 5 ==> Without(parts[k], '.')
    requires Join(parts) == whole && Trimmed(whole)
    ensures Segments(parts)
  {
    hide Join;
  }

  /** "service.deployed.0.1.1" is "service.deployed". */
  lemma PlainTypeExample()
    ensures ShortTypeOf("service.deployed.0.1.1") == "service.deployed"
  {
    hide ShortTypeOf, Join, Segments;
    var parts := ["service", "deployed", "0", "1", "1"];
    JoinFive("service", "deployed", "0", "1", "1");
    assert "0" + "." + ("1" + "." + "1") == "0.1.1";
    assert "service" + "." + ("deployed" + "." + "0.1.1") == "service.deployed.0.1.1";
    FiveSegments(parts, "service.deployed.0.1.1");
    VersionedTypeReduces("", parts, "");
    assert "" + Join(parts) + "" == "service.deployed.0.1.1";
    assert "service" + "." + "deployed" == "service.deployed";
  }
}
