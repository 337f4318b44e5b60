/** The keys of the Redis backend and what a SCAN pattern built from them matches (internal/storage/redis.go). */
module RedisKeys {
  import opened Models
  import opened Ordering
  import opened Storage

  const DEPLOYMENT_PREFIX := "deployment:"
  const EVENT_PREFIX := "event:"
  const CHAIN_PREFIX := "chain:"

  predicate IsGlob(c: char) {
    c == '*' || c == '?' || c == '[' || c == ']' || c == '\\'
  }

  function EscapeChar(c: char): string {
    match c
    case '*' => "%2A"
    case '?' => "%3F"
    case '[' => "%5B"
    case ']' => "%5D"
    case '\\' => "%5C"
    case _ => [c]
  }

  function EscapeKeyPart(s: string): string {
    if s == "" then "" else EscapeChar(s[0]) + EscapeKeyPart(s[1..])
  }

  function RedisDeploymentKey(service: string, environment: string): string {
    DEPLOYMENT_PREFIX + EscapeKeyPart(service) + ":" + EscapeKeyPart(environment)
  }

  function RedisKeyOf(d: Deployment): string {
    RedisDeploymentKey(d.service, d.environment)
  }

  /** What GetLatestDeployment scans for, before the star. */
  function ServicePrefix(service: string): string {
    DEPLOYMENT_PREFIX + EscapeKeyPart(service) + ":"
  }

  function HexDigit(n: nat): char
    requires n < 16
  {
    "0123456789ABCDEF"[n]
  }

  /** A glob character becomes a percent sign and its code in two hexadecimal digits. */
  lemma GlobEscapedByCode(c: char)
    ensures IsGlob(c) <==> c in "*?[]\\"
    ensures EscapeKeyPart([c]) ==
            if c in "*?[]\\" then ['%', HexDigit(c as int / 16), HexDigit(c as int % 16)] else [c]
  {
    assert [c][1..] == "";
  }

  /** Escaping goes character by character. */
  lemma {:induction false} EscapeAppend(a: string, b: string)
    ensures EscapeKeyPart(a + b) == EscapeKeyPart(a) + EscapeKeyPart(b)
    decreases |a|
  {
    if a == "" {
      assert a + b == b;
    } else {
      assert (a + b)[1..] == a[1..] + b;
      EscapeAppend(a[1..], b);
    }
  }

  /** The layout of the keys. */
  lemma KeyLayout(id: string, chainID: string, service: string, environment: string)
    ensures EventKey(id) == "event:" + id
    ensures ChainKey(chainID) == "chain:" + chainID
    ensures RedisDeploymentKey(service, environment) ==
            "deployment:" + EscapeKeyPart(service) + ":" + EscapeKeyPart(environment)
    ensures ServicePrefix(service) == "deployment:" + EscapeKeyPart(service) + ":"
  {
  }

  predicate GlobFree(s: string) {
    forall i :: 0 <= i < |s| ==> !IsGlob(s[i])
  }

  lemma {:induction false} EscapedIsGlobFree(s: string)
    ensures GlobFree(EscapeKeyPart(s))
    decreases |s|
  {
    if s != "" { EscapedIsGlobFree(s[1..]); }
  }

  lemma ServicePrefixGlobFree(service: string)
    ensures GlobFree(ServicePrefix(service))
  {
    EscapedIsGlobFree(service);
  }

  lemma {:induction false} EscapeKeepsColonFree(s: string)
    requires Without(s, ':')
    ensures Without(EscapeKeyPart(s), ':')
    decreases |s|
  {
    if s != "" { EscapeKeepsColonFree(s[1..]); }
  }

  lemma EscapeCharInjective(a: char, b: char, x: string, y: string)
    requires a != '%' && b != '%' && EscapeChar(a) + x == EscapeChar(b) + y
    ensures a == b && x == y
  {
    var s, t := EscapeChar(a) + x, EscapeChar(b) + y;
    assert s[0] == t[0];
    if IsGlob(a) {
      assert s[1] == t[1] && s[2] == t[2];
      assert x == s[3..] && y == t[3..];
    } else {
      assert x == s[1..] && y == t[1..];
    }
  }

  lemma EscapeNext(s: string)
    ensures s == "" ==> EscapeKeyPart(s) == ""
    ensures s != "" ==> EscapeKeyPart(s) == EscapeChar(s[0]) + EscapeKeyPart(s[1..]) != ""
  {
  }

  /** On strings without a percent sign, escaping can be undone. */
  lemma {:induction false} EscapeInjective(a: string, b: string)
    requires Without(a, '%') && Without(b, '%') && EscapeKeyPart(a) == EscapeKeyPart(b)
    ensures a == b
    decreases |a|
  {
    hide EscapeKeyPart, EscapeChar;
    EscapeNext(a);
    EscapeNext(b);
    if a != "" && b != "" {
      EscapeCharInjective(a[0], b[0], EscapeKeyPart(a[1..]), EscapeKeyPart(b[1..]));
      EscapeInjective(a[1..], b[1..]);
      assert a == [a[0]] + a[1..] && b == [b[0]] + b[1..];
    }
  }

  /** The names for which neither backend's keys can run together. */
  predicate PlainNames(d: Deployment) {
    && Without(d.service, '\0') && Without(d.service, ':') && Without(d.service, '%')
    && Without(d.environment, '%')
  }

  lemma PlainKeysInjective(a: Deployment, b: Deployment)
    requires PlainNames(a) && PlainNames(b)
    ensures RedisKeyOf(a) == RedisKeyOf(b) <==> a.service == b.service && a.environment == b.environment
    ensures KeyOf(a) == KeyOf(b) <==> a.service == b.service && a.environment == b.environment
  {
    hide EscapeKeyPart;
    if KeyOf(a) == KeyOf(b) {
      SplitAtFirst(a.service, a.environment, b.service, b.environment, '\0');
    }
    if RedisKeyOf(a) == RedisKeyOf(b) {
      var n := |DEPLOYMENT_PREFIX|;
      EscapeKeepsColonFree(a.service);
      EscapeKeepsColonFree(b.service);
      assert RedisKeyOf(a)[n..] == EscapeKeyPart(a.service) + ":" + EscapeKeyPart(a.environment);
      assert RedisKeyOf(b)[n..] == EscapeKeyPart(b.service) + ":" + EscapeKeyPart(b.environment);
      SplitAtFirst(EscapeKeyPart(a.service), EscapeKeyPart(a.environment),
                   EscapeKeyPart(b.service), EscapeKeyPart(b.environment), ':');
      EscapeInjective(a.service, b.service);
      EscapeInjective(a.environment, b.environment);
    }
  }

  function EventKey(id: string): string {
    EVENT_PREFIX + id
  }

  function ChainKey(chainID: string): string {
    CHAIN_PREFIX + chainID
  }

  predicate IsDeploymentKey(key: string) {
    DEPLOYMENT_PREFIX <= key
  }

  /** Keys of the three kinds of record never coincide, and event and chain keys name one id. */
  lemma KindsApart()
    ensures forall id, c :: EventKey(id) != ChainKey(c)
    ensures forall id :: !IsDeploymentKey(EventKey(id))
    ensures forall c :: !IsDeploymentKey(ChainKey(c))
    ensures forall id, other :: EventKey(id) == EventKey(other) ==> id == other
    ensures forall c, other :: ChainKey(c) == ChainKey(other) ==> c == other
    ensures forall d :: IsDeploymentKey(RedisKeyOf(d))
  {
    forall id, c ensures EventKey(id) != ChainKey(c) { assert EventKey(id)[0] == 'e' && ChainKey(c)[0] == 'c'; }
    forall id ensures !IsDeploymentKey(EventKey(id)) { assert EventKey(id)[0] == 'e'; }
    forall c ensures !IsDeploymentKey(ChainKey(c)) { assert ChainKey(c)[0] == 'c'; }
    forall id, other | EventKey(id) == EventKey(other) ensures id == other {
      assert EventKey(id)[|EVENT_PREFIX|..] == id && EventKey(other)[|EVENT_PREFIX|..] == other;
    }
    forall c, other | ChainKey(c) == ChainKey(other) ensures c == other {
      assert ChainKey(c)[|CHAIN_PREFIX|..] == c && ChainKey(other)[|CHAIN_PREFIX|..] == other;
    }
    forall d: Deployment ensures IsDeploymentKey(RedisKeyOf(d)) {
      assert RedisKeyOf(d)[..|DEPLOYMENT_PREFIX|] == DEPLOYMENT_PREFIX;
    }
  }
}
