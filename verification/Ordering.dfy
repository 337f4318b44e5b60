/**
 * The newest-first order behind every listing, and the stable sort that realises it.
 * Events compare by (timestamp descending, id) and deployments by (deployedAt
 * descending, service, environment); both are instances of Rank.
 */
module Ordering {
  import opened Models

  datatype Rank = Rank(at: int, first: string, second: string)

  function EventRank(e: StoredEvent): Rank {
    Rank(e.timestamp, e.id, "")
  }

  function DeploymentRank(d: Deployment): Rank {
    Rank(d.deployedAt, d.service, d.environment)
  }

  /** Go's `<` on strings. */
  predicate StringLess(a: string, b: string) {
    if b == "" then false
    else if a == "" then true
    else if a[0] != b[0] then a[0] < b[0]
    else StringLess(a[1..], b[1..])
  }

  /** a is less where they first differ, or ends there. */
  lemma {:induction false} StringLessMeaning(a: string, b: string)
    ensures StringLess(a, b) <==>
            exists k :: 0 <= k <= |a| && k < |b| && a[..k] == b[..k] && (k == |a| || a[k] < b[k])
    decreases |a|
  {
    if a == "" || b == "" {
      if b != "" { assert a[..0] == b[..0]; }
    } else if a[0] != b[0] {
      assert a[..0] == b[..0];
      forall k | 0 < k <= |a| && k < |b| ensures a[..k] != b[..k] {
        assert a[..k][0] == a[0] && b[..k][0] == b[0];
      }
    } else {
      StringLessMeaning(a[1..], b[1..]);
      if k :| 0 <= k <= |a[1..]| && k < |b[1..]| && a[1..][..k] == b[1..][..k] &&
              (k == |a[1..]| || a[1..][k] < b[1..][k]) {
        assert a[..k + 1] == [a[0]] + a[1..][..k] && b[..k + 1] == [b[0]] + b[1..][..k];
      }
      if k :| 0 <= k <= |a| && k < |b| && a[..k] == b[..k] && (k == |a| || a[k] < b[k]) {
        assert k > 0;
        assert a[1..][..k - 1] == a[..k][1..] && b[1..][..k - 1] == b[..k][1..];
      }
    }
  }

  /** The `less` function handed to sort.SliceStable: a belongs strictly before b. */
  predicate Before(a: Rank, b: Rank) {
    if a.at != b.at then a.at > b.at
    else if a.first != b.first then StringLess(a.first, b.first)
    else StringLess(a.second, b.second)
  }

  lemma {:induction false} StringLessTransitive(a: string, b: string, c: string)
    requires StringLess(a, b) && StringLess(b, c)
    ensures StringLess(a, c)
    decreases |a|
  {
    if a != "" && a[0] == b[0] == c[0] {
      StringLessTransitive(a[1..], b[1..], c[1..]);
    }
  }

  lemma {:induction false} StringLessTotal(a: string, b: string)
    ensures StringLess(a, b) || StringLess(b, a) <==> a != b
    ensures !(StringLess(a, b) && StringLess(b, a))
    decreases |a|
  {
    if a != "" && b != "" && a[0] == b[0] {
      StringLessTotal(a[1..], b[1..]);
      assert a == [a[0]] + a[1..] && b == [b[0]] + b[1..];
    }
  }

  lemma BeforeTransitive(a: Rank, b: Rank, c: Rank)
    requires Before(a, b) && Before(b, c)
    ensures Before(a, c)
  {
    StringLessTotal(a.first, b.first);
    StringLessTotal(a.first, c.first);
    if a.first != b.first && b.first != c.first && StringLess(a.first, b.first) && StringLess(b.first, c.first) {
      StringLessTransitive(a.first, b.first, c.first);
    }
    if StringLess(a.second, b.second) && StringLess(b.second, c.second) {
      StringLessTransitive(a.second, b.second, c.second);
    }
  }

  /** Before is a strict total order: exactly one of a before b, b before a, a == b. */
  lemma BeforeTotal(a: Rank, b: Rank)
    ensures Before(a, b) || Before(b, a) <==> a != b
    ensures !(Before(a, b) && Before(b, a))
  {
    StringLessTotal(a.first, b.first);
    StringLessTotal(a.second, b.second);
  }

  /** a is not after b. */
  predicate AtOrBefore(a: Rank, b: Rank) {
    !Before(b, a)
  }

  lemma AtOrBeforeTransitive(a: Rank, b: Rank, c: Rank)
    requires AtOrBefore(a, b) && AtOrBefore(b, c)
    ensures AtOrBefore(a, c)
  {
    BeforeTotal(a, b);
    BeforeTotal(b, c);
    if Before(c, a) {
      if a != b { BeforeTransitive(c, a, b); }
    }
  }

  predicate Sorted<T>(rank: T -> Rank, s: seq<T>) {
    forall i, j :: 0 <= i < j < |s| ==> AtOrBefore(rank(s[i]), rank(s[j]))
  }

  predicate StrictlySorted<T>(rank: T -> Rank, s: seq<T>) {
    forall i, j :: 0 <= i < j < |s| ==> Before(rank(s[i]), rank(s[j]))
  }

  /** Puts x after everything in s that does not belong strictly after it. */
  function InsertLast<T>(rank: T -> Rank, s: seq<T>, x: T): (r: seq<T>)
    ensures |r| == |s| + 1
  {
    if s == [] || !Before(rank(x), rank(s[|s| - 1])) then s + [x]
    else InsertLast(rank, s[..|s| - 1], x) + [s[|s| - 1]]
  }

  /** The stable sort of s, standing for sort.SliceStable. */
  function SortBy<T>(rank: T -> Rank, s: seq<T>): (r: seq<T>)
    ensures |r| == |s|
  {
    if s == [] then [] else InsertLast(rank, SortBy(rank, s[..|s| - 1]), s[|s| - 1])
  }

  lemma {:induction false} InsertLastMultiset<T>(rank: T -> Rank, s: seq<T>, x: T)
    ensures multiset(InsertLast(rank, s, x)) == multiset(s) + multiset{x}
  {
    if s == [] || !Before(rank(x), rank(s[|s| - 1])) {
    } else {
      InsertLastMultiset(rank, s[..|s| - 1], x);
      assert s == s[..|s| - 1] + [s[|s| - 1]];
    }
  }

  lemma {:induction false} SortByMultiset<T>(rank: T -> Rank, s: seq<T>)
    ensures multiset(SortBy(rank, s)) == multiset(s)
  {
    if s != [] {
      SortByMultiset(rank, s[..|s| - 1]);
      InsertLastMultiset(rank, SortBy(rank, s[..|s| - 1]), s[|s| - 1]);
      assert s == s[..|s| - 1] + [s[|s| - 1]];
    }
  }

  lemma SortByElements<T>(rank: T -> Rank, s: seq<T>)
    ensures Elements(SortBy(rank, s)) == Elements(s)
  {
    SortByMultiset(rank, s);
    var r := SortBy(rank, s);
    forall x | x in r ensures x in s { assert multiset(r)[x] > 0; }
    forall x | x in s ensures x in r { assert multiset(s)[x] > 0; }
  }

  lemma {:induction false} InsertLastSorted<T>(rank: T -> Rank, s: seq<T>, x: T)
    requires Sorted(rank, s)
    ensures Sorted(rank, InsertLast(rank, s, x))
    ensures forall i :: 0 <= i <= |s| ==>
              InsertLast(rank, s, x)[i] == x || InsertLast(rank, s, x)[i] in s
  {
    var r := InsertLast(rank, s, x);
    if s == [] {
    } else if !Before(rank(x), rank(s[|s| - 1])) {
      forall i | 0 <= i < |s| ensures AtOrBefore(rank(s[i]), rank(x)) {
        if i < |s| - 1 { AtOrBeforeTransitive(rank(s[i]), rank(s[|s| - 1]), rank(x)); }
      }
    } else {
      var last := s[|s| - 1];
      var front := s[..|s| - 1];
      InsertLastSorted(rank, front, x);
      BeforeTotal(rank(x), rank(last));
      forall i | 0 <= i < |s| ensures AtOrBefore(rank(r[i]), rank(last)) && r[i] in front + [x] {
        if r[i] != x {
          assert r[i] in front;
          var k :| 0 <= k < |front| && front[k] == r[i];
          assert front[k] == s[k];
        }
      }
    }
  }

  lemma {:induction false} SortBySorted<T>(rank: T -> Rank, s: seq<T>)
    ensures Sorted(rank, SortBy(rank, s))
  {
    if s != [] {
      SortBySorted(rank, s[..|s| - 1]);
      InsertLastSorted(rank, SortBy(rank, s[..|s| - 1]), s[|s| - 1]);
    }
  }

  predicate Distinct<T(==)>(s: seq<T>) {
    forall i, j :: 0 <= i < j < |s| ==> s[i] != s[j]
  }

  /** Different elements of s have different ranks, so the order never has to break a tie. */
  predicate RanksSeparate<T(==)>(rank: T -> Rank, s: seq<T>) {
    forall i, j :: 0 <= i < |s| && 0 <= j < |s| && s[i] != s[j] ==> rank(s[i]) != rank(s[j])
  }

  /** Sorting distinct elements with separate ranks orders them strictly. */
  lemma SortByStrict<T>(rank: T -> Rank, s: seq<T>)
    requires Distinct(s) && RanksSeparate(rank, s)
    ensures StrictlySorted(rank, SortBy(rank, s))
    ensures Elements(SortBy(rank, s)) == Elements(s)
  {
    var r := SortBy(rank, s);
    SortBySorted(rank, s);
    SortByMultiset(rank, s);
    SortByElements(rank, s);
    DistinctMultiset(s);
    forall i, j | 0 <= i < j < |r| ensures Before(rank(r[i]), rank(r[j])) {
      assert r[i] in Elements(s) && r[j] in Elements(s);
      if r[i] == r[j] { RepeatedCount(r, i, j); }
      BeforeTotal(rank(r[i]), rank(r[j]));
    }
  }

  lemma RepeatedCount<T>(s: seq<T>, i: nat, j: nat)
    requires i < j < |s| && s[i] == s[j]
    ensures multiset(s)[s[i]] >= 2
  {
    assert s == s[..i] + [s[i]] + s[i + 1..j] + [s[j]] + s[j + 1..];
  }

  lemma {:induction false} DistinctMultiset<T>(s: seq<T>)
    requires Distinct(s)
    ensures forall x :: multiset(s)[x] <= 1
  {
    if s != [] {
      var front, last := s[..|s| - 1], s[|s| - 1];
      DistinctMultiset(front);
      assert s == front + [last];
      assert last !in front;
    }
  }

  /** A strictly sorted sequence is determined by its elements. */
  lemma {:induction false} StrictlySortedUnique<T>(rank: T -> Rank, s: seq<T>, t: seq<T>)
    requires StrictlySorted(rank, s) && StrictlySorted(rank, t)
    requires Elements(s) == Elements(t)
    ensures s == t
    decreases |s|
  {
    assert |t| > 0 ==> t[0] in Elements(t);
    if s != [] {
      assert s[0] in Elements(t);
      var j :| 0 <= j < |t| && t[j] == s[0];
      assert t[0] in Elements(s);
      var i :| 0 <= i < |s| && s[i] == t[0];
      BeforeTotal(rank(s[0]), rank(t[0]));
      assert i == 0 && j == 0;
      forall x ensures x in s[1..] <==> x in t[1..] {
        TailMembership(rank, s, x);
        TailMembership(rank, t, x);
        assert x in s <==> x in Elements(s);
        assert x in t <==> x in Elements(t);
      }
      StrictlySortedUnique(rank, s[1..], t[1..]);
      assert s == [s[0]] + s[1..] && t == [t[0]] + t[1..];
    }
  }

  lemma TailMembership<T>(rank: T -> Rank, s: seq<T>, x: T)
    requires s != [] && StrictlySorted(rank, s)
    ensures x in s[1..] <==> x in s && x != s[0]
  {
    BeforeTotal(rank(s[0]), rank(s[0]));
    if x in s && x != s[0] {
      var k :| 0 <= k < |s| && s[k] == x;
      assert s[1..][k - 1] == x;
    }
  }

  /** The elements of a set in some order. */
  ghost function Listing<T>(items: set<T>): (s: seq<T>)
    ensures Distinct(s) && Elements(s) == items
  {
    if items == {} then []
    else
      var x :| x in items;
      var rest := Listing(items - {x});
      assert Elements(rest + [x]) == Elements(rest) + {x};
      rest + [x]
  }

  /** The elements of a set newest first. */
  ghost function Newest<T>(rank: T -> Rank, items: set<T>): seq<T> {
    SortBy(rank, Listing(items))
  }

  lemma SeparateByElements<T>(rank: T -> Rank, s: seq<T>, t: seq<T>)
    requires RanksSeparate(rank, s) && Elements(t) <= Elements(s)
    ensures RanksSeparate(rank, t)
  {
    forall i, j | 0 <= i < |t| && 0 <= j < |t| && t[i] != t[j] ensures rank(t[i]) != rank(t[j]) {
      assert t[i] in Elements(s) && t[j] in Elements(s);
    }
  }

  lemma NewestStrict<T>(rank: T -> Rank, items: set<T>)
    requires RanksSeparate(rank, Listing(items))
    ensures StrictlySorted(rank, Newest(rank, items)) && Elements(Newest(rank, items)) == items
  {
    SortByStrict(rank, Listing(items));
  }

  /** Sorting forgets the order in which distinct elements were listed. */
  lemma SortIsNewest<T>(rank: T -> Rank, s: seq<T>)
    requires Distinct(s) && RanksSeparate(rank, s)
    ensures SortBy(rank, s) == Newest(rank, Elements(s))
  {
    var t := Listing(Elements(s));
    SeparateByElements(rank, s, t);
    SortByStrict(rank, s);
    SortByStrict(rank, t);
    StrictlySortedUnique(rank, SortBy(rank, s), SortBy(rank, t));
  }

  /** The first element after sorting depends on the elements only, repeated or not. */
  lemma SortHead<T>(rank: T -> Rank, s: seq<T>)
    requires s != [] && RanksSeparate(rank, s)
    ensures Newest(rank, Elements(s)) != [] && SortBy(rank, s)[0] == Newest(rank, Elements(s))[0]
  {
    var t := Listing(Elements(s));
    var a, b := SortBy(rank, s), SortBy(rank, t);
    SeparateByElements(rank, s, t);
    SortBySorted(rank, s);
    SortBySorted(rank, t);
    SortByElements(rank, s);
    SortByElements(rank, t);
    assert s[0] in Elements(s) && Elements(s) == Elements(b);
    assert a[0] in Elements(a) && b[0] in Elements(b);
    assert a[0] in Elements(b) && b[0] in Elements(a);
    var i :| 0 <= i < |b| && b[i] == a[0];
    var j :| 0 <= j < |a| && a[j] == b[0];
    assert AtOrBefore(rank(b[0]), rank(a[0])) by { BeforeTotal(rank(b[0]), rank(b[0])); }
    assert AtOrBefore(rank(a[0]), rank(b[0])) by { BeforeTotal(rank(a[0]), rank(a[0])); }
    BeforeTotal(rank(a[0]), rank(b[0]));
    assert a[0] in Elements(s) && b[0] in Elements(s);
  }

  lemma {:induction false} InsertLastAt<T>(rank: T -> Rank, s: seq<T>, x: T, j: nat)
    requires j <= |s|
    requires forall k :: j <= k < |s| ==> Before(rank(x), rank(s[k]))
    requires j == 0 || !Before(rank(x), rank(s[j - 1]))
    ensures InsertLast(rank, s, x) == s[..j] + [x] + s[j..]
    decreases |s|
  {
    if j < |s| {
      var front := s[..|s| - 1];
      InsertLastAt(rank, front, x, j);
      assert front[..j] == s[..j] && front[j..] + [s[|s| - 1]] == s[j..];
    } else {
      assert s[..j] == s;
    }
  }

  /** Moves cell i down by adjacent exchanges to its place among the cells before it. */
  method InsertInPlace<T>(rank: T -> Rank, a: array<T>, i: nat)
    requires i < a.Length
    modifies a
    ensures a[..i + 1] == InsertLast(rank, old(a[..i]), old(a[i]))
    ensures forall k :: i < k < a.Length ==> a[k] == old(a[k])
  {
    ghost var sorted := a[..i];
    var x := a[i];
    var j := i;
    while j > 0 && Before(rank(x), rank(a[j - 1]))
      invariant 0 <= j <= i
      invariant forall k :: 0 <= k < j ==> a[k] == sorted[k]
      invariant a[j] == x
      invariant forall k :: j < k <= i ==> a[k] == sorted[k - 1]
      invariant forall k :: j <= k < i ==> Before(rank(x), rank(sorted[k]))
      invariant forall k :: i < k < a.Length ==> a[k] == old(a[k])
    {
      a[j], a[j - 1] := a[j - 1], a[j];
      j := j - 1;
    }
    InsertLastAt(rank, sorted, x, j);
    assert a[..i + 1] == sorted[..j] + [x] + sorted[j..];
  }

  lemma SortByNext<T>(rank: T -> Rank, s: seq<T>, i: nat)
    requires i < |s|
    ensures SortBy(rank, s[..i + 1]) == InsertLast(rank, SortBy(rank, s[..i]), s[i])
  {
    assert s[..i + 1][..i] == s[..i];
  }

  /**
   * Sorts the first n cells in place and leaves the rest alone. The result is SortBy
   * of what the cells held, so elements of equal rank keep their order.
   */
  method SortInPlace<T>(rank: T -> Rank, a: array<T>, n: nat)
    requires n <= a.Length
    modifies a
    ensures a[..n] == SortBy(rank, old(a[..n]))
    ensures a[n..] == old(a[n..])
  {
    ghost var before := a[..];
    for i := 0 to n
      invariant a[..i] == SortBy(rank, before[..i])
      invariant forall k :: i <= k < a.Length ==> a[k] == before[k]
    {
      SortByNext(rank, before, i);
      InsertInPlace(rank, a, i);
    }
    assert before[..n] == old(a[..n]);
  }

  // ---------------------------------------------------------------------------
  // The order in terms of times and names

  /** b's names come before a's: by service, then by environment. */
  predicate NamesAfter(a: Deployment, b: Deployment) {
    StringLess(b.service, a.service) || (b.service == a.service && StringLess(b.environment, a.environment))
  }

  lemma DeploymentsByTime(s: seq<Deployment>)
    requires Sorted(DeploymentRank, s)
    ensures forall i, j :: 0 <= i < j < |s| ==>
              && s[i].deployedAt >= s[j].deployedAt
              && (s[i].deployedAt == s[j].deployedAt ==> !NamesAfter(s[i], s[j]))
  {
    forall i, j | 0 <= i < j < |s|
      ensures s[i].deployedAt >= s[j].deployedAt
      ensures s[i].deployedAt == s[j].deployedAt ==> !NamesAfter(s[i], s[j])
    {
      assert AtOrBefore(DeploymentRank(s[i]), DeploymentRank(s[j]));
      StringLessTotal(s[i].service, s[j].service);
    }
  }

  lemma DeploymentsStrictlyByTime(s: seq<Deployment>)
    requires StrictlySorted(DeploymentRank, s)
    ensures forall i, j :: 0 <= i < j < |s| ==>
              || s[i].deployedAt > s[j].deployedAt
              || (s[i].deployedAt == s[j].deployedAt && NamesAfter(s[j], s[i]))
  {
    forall i, j | 0 <= i < j < |s|
      ensures s[i].deployedAt > s[j].deployedAt
              || (s[i].deployedAt == s[j].deployedAt && NamesAfter(s[j], s[i]))
    {
      assert Before(DeploymentRank(s[i]), DeploymentRank(s[j]));
    }
  }

  lemma EventsStrictlyByTime(s: seq<StoredEvent>)
    requires StrictlySorted(EventRank, s)
    ensures forall i, j :: 0 <= i < j < |s| ==>
              || s[i].timestamp > s[j].timestamp
              || (s[i].timestamp == s[j].timestamp && StringLess(s[i].id, s[j].id))
  {
    forall i, j | 0 <= i < j < |s|
      ensures s[i].timestamp > s[j].timestamp || (s[i].timestamp == s[j].timestamp && StringLess(s[i].id, s[j].id))
    {
      assert Before(EventRank(s[i]), EventRank(s[j]));
    }
  }

  lemma HeadByTime(s: seq<Deployment>, e: Deployment)
    requires Sorted(DeploymentRank, s) && e in s
    ensures e.deployedAt <= s[0].deployedAt
    ensures e.deployedAt == s[0].deployedAt ==> !NamesAfter(s[0], e)
  {
    DeploymentsByTime(s);
    NotAfterItself(e);
  }

  /** The first of the newest-first order is the most recent, ties by name. */
  lemma NewestHead(items: set<Deployment>)
    ensures Newest(DeploymentRank, items) == [] <==> items == {}
    ensures items != {} ==>
              var d := Newest(DeploymentRank, items)[0];
              && d in items
              && forall e :: e in items ==>
                   e.deployedAt <= d.deployedAt && (e.deployedAt == d.deployedAt ==> !NamesAfter(d, e))
  {
    hide NamesAfter, Sorted, DeploymentRank, SortBy;
    var listed, sorted := Listing(items), Newest(DeploymentRank, items);
    SortBySorted(DeploymentRank, listed);
    SortByElements(DeploymentRank, listed);
    assert forall e :: e in items <==> e in sorted by {
      assert forall e :: e in sorted <==> e in Elements(sorted);
    }
    assert sorted != [] ==> sorted[0] in sorted;
    if items != {} {
      var x :| x in items;
      assert x in sorted;
      forall e | e in items
        ensures e.deployedAt <= sorted[0].deployedAt
        ensures e.deployedAt == sorted[0].deployedAt ==> !NamesAfter(sorted[0], e)
      {
        HeadByTime(sorted, e);
      }
    }
  }

  lemma NotAfterItself(d: Deployment)
    ensures !NamesAfter(d, d)
  {
    StringLessTotal(d.service, d.service);
    StringLessTotal(d.environment, d.environment);
  }
}
