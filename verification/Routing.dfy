/** Route selection at the gateway: the sort in `serve` (runtimes/core/src/api/gateway/mod.rs)
    and the search in `pick_route` (gateway/routing.rs). Texts are sequences of UTF-8 code
    units, which is what the core's `len` counts. */
module Routing {
  import opened Wrappers

  datatype Route = Route(prefix: string, service: string, upstream: string, requiresAuth: bool)

  /** On a segment boundary, or the catch-all. */
  predicate Matches(prefix: string, path: string) {
    prefix == "/" || path == prefix || prefix + "/" <= path
  }

  /** pick_route: the first route that matches. */
  function Pick(routes: seq<Route>, path: string): Option<Route> {
    if routes == [] then None
    else if Matches(routes[0].prefix, path) then Some(routes[0])
    else Pick(routes[1..], path)
  }

  // ---------------------------------------------------------------- the sort

  /** Longest prefix first. */
  ghost predicate Descending(routes: seq<Route>) {
    forall i, j :: 0 <= i < j < |routes| ==> |routes[i].prefix| >= |routes[j].prefix|
  }

  function OfLength(routes: seq<Route>, n: nat): seq<Route> {
    if routes == [] then []
    else (if |routes[0].prefix| == n then [routes[0]] else []) + OfLength(routes[1..], n)
  }

  /** t has the routes of s, longest first, equal lengths in the order of s. */
  ghost predicate StablySorted(s: seq<Route>, t: seq<Route>) {
    Descending(t) && forall n :: OfLength(t, n) == OfLength(s, n)
  }

  function Insert(r: Route, t: seq<Route>): seq<Route> {
    if t == [] || |t[0].prefix| <= |r.prefix| then [r] + t else [t[0]] + Insert(r, t[1..])
  }

  /** What the stable sort_by of the standard library does with this comparison. */
  function StableSort(s: seq<Route>): seq<Route> {
    if s == [] then [] else Insert(s[0], StableSort(s[1..]))
  }

  lemma {:induction false} InsertSorts(r: Route, t: seq<Route>)
    requires Descending(t)
    ensures Descending(Insert(r, t))
    ensures forall n :: OfLength(Insert(r, t), n) == (if |r.prefix| == n then [r] else []) + OfLength(t, n)
    ensures forall q :: q in Insert(r, t) ==> q == r || q in t
  {
    if t == [] || |t[0].prefix| <= |r.prefix| {
      assert ([r] + t)[1..] == t;
    } else {
      var rest := Insert(r, t[1..]);
      InsertSorts(r, t[1..]);
      assert ([t[0]] + rest)[1..] == rest;
      forall i, j | 0 <= i < j < |rest| + 1 ensures |([t[0]] + rest)[i].prefix| >= |([t[0]] + rest)[j].prefix| {
        var q := rest[j - 1];
        assert q in rest;
      }
    }
  }

  lemma {:induction false} StableSortSorts(s: seq<Route>)
    ensures StablySorted(s, StableSort(s))
  {
    if s != [] {
      StableSortSorts(s[1..]);
      InsertSorts(s[0], StableSort(s[1..]));
    }
  }

  lemma {:induction false} OfLengthMembers(s: seq<Route>, n: nat)
    ensures OfLength(s, n) == [] <==> forall i :: 0 <= i < |s| ==> |s[i].prefix| != n
  {
    if s != [] { OfLengthMembers(s[1..], n); }
  }

  function FirstLength(s: seq<Route>): nat { if s == [] then 0 else |s[0].prefix| }

  /** There is only one way to sort stably, so any stable sort does the same. */
  lemma {:induction false} StableSortIsUnique(t: seq<Route>, u: seq<Route>)
    requires Descending(t) && Descending(u) && forall n :: OfLength(t, n) == OfLength(u, n)
    ensures t == u
  {
    assert OfLength(t, FirstLength(t)) == OfLength(u, FirstLength(t));
    assert OfLength(t, FirstLength(u)) == OfLength(u, FirstLength(u));
    if t != [] {
      var n := |t[0].prefix|;
      OfLengthMembers(t, n);
      OfLengthMembers(u, n);
      assert u != [];
      OfLengthMembers(u, |u[0].prefix|);
      OfLengthMembers(t, |u[0].prefix|);
      assert |u[0].prefix| == n;
      assert OfLength(t, n)[0] == t[0] && OfLength(u, n)[0] == u[0];
      forall k: nat ensures OfLength(t[1..], k) == OfLength(u[1..], k) {
        var own := if n == k then [t[0]] else [];
        assert OfLength(t, k) == own + OfLength(t[1..], k) && OfLength(u, k) == own + OfLength(u[1..], k);
        assert OfLength(t[1..], k) == OfLength(t, k)[|own|..];
      }
      StableSortIsUnique(t[1..], u[1..]);
    }
  }

  // ---------------------------------------------------------------- the longest match

  /** The reference: the longest matching prefix, the first declared among equals. */
  ghost predicate IsBest(routes: seq<Route>, path: string, i: nat) {
    && i < |routes| && Matches(routes[i].prefix, path)
    && forall j :: 0 <= j < |routes| && Matches(routes[j].prefix, path) ==>
         |routes[j].prefix| < |routes[i].prefix| || (|routes[j].prefix| == |routes[i].prefix| && i <= j)
  }

  /** The longest match, by one pass over the routes as declared. */
  function Longest(routes: seq<Route>, path: string): Option<Route> {
    if routes == [] then None
    else
      var best := Longest(routes[1..], path);
      if Matches(routes[0].prefix, path) && (best.None? || |best.value.prefix| <= |routes[0].prefix|) then Some(routes[0])
      else best
  }

  lemma {:induction false} LongestIsBest(routes: seq<Route>, path: string) returns (i: nat)
    ensures Longest(routes, path).None? <==> forall j :: 0 <= j < |routes| ==> !Matches(routes[j].prefix, path)
    ensures Longest(routes, path).Some? ==> IsBest(routes, path, i) && routes[i] == Longest(routes, path).value
  {
    i := 0;
    if routes != [] {
      var k := LongestIsBest(routes[1..], path);
      var best := Longest(routes[1..], path);
      if !(Matches(routes[0].prefix, path) && (best.None? || |best.value.prefix| <= |routes[0].prefix|)) {
        i := k + 1;
      }
      forall j | 0 <= j < |routes| && Matches(routes[j].prefix, path) && Longest(routes, path).Some?
        ensures |routes[j].prefix| < |routes[i].prefix| || (|routes[j].prefix| == |routes[i].prefix| && i <= j)
      {
        if j > 0 { assert routes[j] == routes[1..][j - 1]; }
      }
    }
  }

  lemma {:induction false} PickInserted(r: Route, t: seq<Route>, path: string)
    requires Descending(t)
    ensures Pick(Insert(r, t), path) ==
            if Matches(r.prefix, path) && (Pick(t, path).None? || |Pick(t, path).value.prefix| <= |r.prefix|) then Some(r)
            else Pick(t, path)
  {
    if t == [] || |t[0].prefix| <= |r.prefix| {
      assert ([r] + t)[1..] == t;
      PickMember(t, path);
    } else {
      PickInserted(r, t[1..], path);
      assert ([t[0]] + Insert(r, t[1..]))[1..] == Insert(r, t[1..]);
    }
  }

  lemma {:induction false} PickMember(t: seq<Route>, path: string)
    ensures Pick(t, path).Some? ==> Pick(t, path).value in t && Matches(Pick(t, path).value.prefix, path)
  {
    if t != [] { PickMember(t[1..], path); }
  }

  lemma {:induction false} PickIsLongest(routes: seq<Route>, path: string)
    ensures Pick(StableSort(routes), path) == Longest(routes, path)
  {
    if routes != [] {
      StableSortSorts(routes[1..]);
      PickInserted(routes[0], StableSort(routes[1..]), path);
      PickIsLongest(routes[1..], path);
    }
  }

  /** Sort, then first match: none exactly when nothing matches, otherwise the longest
      matching prefix on a segment boundary, the first declared among equal ones. */
  lemma {:induction false} SortThenFirstMatch(routes: seq<Route>, path: string) returns (i: nat)
    ensures Pick(StableSort(routes), path).None? <==> forall j :: 0 <= j < |routes| ==> !Matches(routes[j].prefix, path)
    ensures Pick(StableSort(routes), path).Some? ==> IsBest(routes, path, i) && routes[i] == Pick(StableSort(routes), path).value
  {
    PickIsLongest(routes, path);
    i := LongestIsBest(routes, path);
  }

  // ---------------------------------------------------------------- permutations

  predicate StartsWithSlash(s: string) { s != "" && s[0] == '/' }

  /** Two prefixes of one length that match one path are equal, unless one is the catch-all
      and the other the first character of a path without a leading slash. */
  lemma {:induction false} SameLengthSamePrefix(p: string, q: string, path: string)
    requires Matches(p, path) && Matches(q, path) && |p| == |q| && p != q
    ensures path != "" && path[0] != '/' && ((p == "/" && q == path[..1]) || (q == "/" && p == path[..1]))
  {
    if p != "/" && q != "/" {
      TwoPrefixes(p, q, path);
    }
  }

  /** So after a leading slash they are equal. */
  lemma {:induction false} SameLengthAfterSlash(p: string, q: string, path: string)
    requires Matches(p, path) && Matches(q, path) && |p| == |q| && StartsWithSlash(path)
    ensures p == q
  {
    if p == "/" || q == "/" {
      assert |p| == 1 && |q| == 1 && StartsWithSlash(p) && StartsWithSlash(q);
    } else {
      TwoPrefixes(p, q, path);
    }
  }

  lemma {:induction false} TwoPrefixes(p: string, q: string, path: string)
    requires (path == p || p + "/" <= path) && (path == q || q + "/" <= path) && |p| == |q|
    ensures p == q
  {
    assert p == path[..|p|] && q == path[..|q|];
  }

  predicate DistinctPrefixes(routes: seq<Route>) {
    forall i, j :: 0 <= i < j < |routes| ==> routes[i].prefix != routes[j].prefix
  }

  /** The catch-all and the first character of a path without a leading slash are both
      declared, both match, and nothing longer does. */
  predicate Ambiguous(routes: seq<Route>, path: string) {
    && path != "" && path[0] != '/' && Matches(path[..1], path)
    && Declares(routes, "/") && Declares(routes, path[..1])
    && forall i :: 0 <= i < |routes| && Matches(routes[i].prefix, path) ==> |routes[i].prefix| <= 1
  }

  predicate Declares(routes: seq<Route>, prefix: string) {
    exists i :: 0 <= i < |routes| && routes[i].prefix == prefix
  }

  /** With distinct prefixes two routes with equally long matching prefixes are the same,
      unless the routes are ambiguous for the path. */
  lemma {:induction false} BestIsUnique(s: seq<Route>, path: string, i: nat, j: nat)
    requires DistinctPrefixes(s) && !Ambiguous(s, path) && IsBest(s, path, i)
    requires j < |s| && Matches(s[j].prefix, path) && |s[j].prefix| == |s[i].prefix|
    ensures i == j
  {
    if s[i].prefix != s[j].prefix {
      SameLengthSamePrefix(s[i].prefix, s[j].prefix, path);
      assert Declares(s, "/") && Declares(s, path[..1]);
      assert false;
    }
  }

  lemma {:induction false} SameMembers(s: seq<Route>, t: seq<Route>)
    requires multiset(s) == multiset(t)
    ensures forall r :: r in s <==> r in t
  {
    forall r ensures r in s <==> r in t {
      assert r in s <==> r in multiset(s);
      assert r in t <==> r in multiset(t);
    }
  }

  lemma {:induction false} OrderIrrelevant(s: seq<Route>, t: seq<Route>, path: string)
    requires DistinctPrefixes(s) && multiset(s) == multiset(t) && !Ambiguous(s, path)
    ensures Pick(StableSort(s), path) == Pick(StableSort(t), path)
  {
    var i := SortThenFirstMatch(s, path);
    var j := SortThenFirstMatch(t, path);
    SameMembers(s, t);
    if Pick(StableSort(s), path).Some? {
      assert s[i] in t;
      var i' :| 0 <= i' < |t| && t[i'] == s[i];
      assert Pick(StableSort(t), path).Some?;
    }
    if Pick(StableSort(t), path).Some? {
      assert t[j] in s;
      var j' :| 0 <= j' < |s| && s[j'] == t[j];
      assert Pick(StableSort(s), path).Some?;
      assert s[i] in t;
      var i' :| 0 <= i' < |t| && t[i'] == s[i];
      BestIsUnique(s, path, i, j');
    }
  }

  /** Two routes trade places. */
  function Swapped(s: seq<Route>, i: nat, j: nat): (t: seq<Route>)
    requires i < |s| && j < |s|
    ensures |t| == |s| && t[i] == s[j] && t[j] == s[i] && forall k :: 0 <= k < |s| && k != i && k != j ==> t[k] == s[k]
    ensures multiset(t) == multiset(s)
  {
    s[i := s[j]][j := s[i]]
  }

  lemma {:induction false} OneBest(s: seq<Route>, path: string, i: nat, j: nat)
    requires IsBest(s, path, i) && IsBest(s, path, j)
    ensures i == j
  {}

  /** Where the routes are ambiguous, the first declared of the two is picked. */
  lemma {:induction false} AmbiguousPick(s: seq<Route>, path: string, i: nat, j: nat)
    requires Ambiguous(s, path) && i < j < |s| && DistinctPrefixes(s)
    requires (s[i].prefix == "/" && s[j].prefix == path[..1]) || (s[j].prefix == "/" && s[i].prefix == path[..1])
    ensures Pick(StableSort(s), path) == Some(s[i])
  {
    var b := SortThenFirstMatch(s, path);
    assert Matches("/", path) && |s[i].prefix| == 1;
    forall k | 0 <= k < |s| && Matches(s[k].prefix, path) && |s[k].prefix| == 1 ensures i <= k {
      if s[k].prefix != s[i].prefix {
        SameLengthSamePrefix(s[k].prefix, s[i].prefix, path);
        assert s[k].prefix == s[j].prefix;
      }
    }
    OneBest(s, path, i, b);
  }

  /** Ambiguous routes with the two in the other order: another pick. */
  lemma {:induction false} AmbiguousMatters(s: seq<Route>, path: string) returns (t: seq<Route>)
    requires DistinctPrefixes(s) && Ambiguous(s, path)
    ensures multiset(t) == multiset(s) && Pick(StableSort(t), path) != Pick(StableSort(s), path)
  {
    var c: nat :| c < |s| && s[c].prefix == "/";
    var d: nat :| d < |s| && s[d].prefix == path[..1];
    assert path[..1][0] == path[0];
    var i, j := if c < d then c else d, if c < d then d else c;
    t := Swapped(s, i, j);
    SwappedDistinct(s, i, j);
    SwappedAmbiguous(s, path, i, j);
    AmbiguousPick(s, path, i, j);
    AmbiguousPick(t, path, i, j);
  }

  /** With distinct prefixes, every order of the routes gives the same pick if and only if they
      are not ambiguous for the path. */
  lemma {:induction false} OrderIrrelevantExactly(s: seq<Route>, path: string)
    requires DistinctPrefixes(s)
    ensures (forall t: seq<Route> :: multiset(t) == multiset(s) ==> Pick(StableSort(t), path) == Pick(StableSort(s), path))
            <==> !Ambiguous(s, path)
  {
    if Ambiguous(s, path) {
      var t := AmbiguousMatters(s, path);
    } else {
      forall t: seq<Route> | multiset(t) == multiset(s) ensures Pick(StableSort(t), path) == Pick(StableSort(s), path) {
        OrderIrrelevant(s, t, path);
      }
    }
  }

  /** Where position k of the swapped routes comes from. */
  function Origin(i: nat, j: nat, k: nat): nat { if k == i then j else if k == j then i else k }

  lemma {:induction false} SwappedDistinct(s: seq<Route>, i: nat, j: nat)
    requires DistinctPrefixes(s) && i < |s| && j < |s|
    ensures DistinctPrefixes(Swapped(s, i, j))
  {
    var t := Swapped(s, i, j);
    forall x, y | 0 <= x < y < |t| ensures t[x].prefix != t[y].prefix {
      assert t[x] == s[Origin(i, j, x)] && t[y] == s[Origin(i, j, y)];
    }
  }

  lemma {:induction false} SwappedAmbiguous(s: seq<Route>, path: string, i: nat, j: nat)
    requires Ambiguous(s, path) && i < |s| && j < |s|
    ensures Ambiguous(Swapped(s, i, j), path)
  {
    var t := Swapped(s, i, j);
    forall k | 0 <= k < |t| ensures t[k] == s[Origin(i, j, k)] && t[Origin(i, j, k)] == s[k] {}
    SwappedDeclares(s, i, j, "/");
    SwappedDeclares(s, i, j, path[..1]);
  }

  lemma {:induction false} SwappedDeclares(s: seq<Route>, i: nat, j: nat, prefix: string)
    requires Declares(s, prefix) && i < |s| && j < |s|
    ensures Declares(Swapped(s, i, j), prefix)
  {
    var k: nat :| k < |s| && s[k].prefix == prefix;
    assert Swapped(s, i, j)[Origin(i, j, k)] == s[k];
  }

  /** The exception is real: for the path "*", which an OPTIONS request may have. */
  lemma {:induction false} OrderCanMatter()
    ensures var a, b := Route("/", "a", "", false), Route("*", "b", "", false);
            DistinctPrefixes([a, b]) && Pick(StableSort([a, b]), "*") == Some(a) && Pick(StableSort([b, a]), "*") == Some(b)
  {
    var a, b := Route("/", "a", "", false), Route("*", "b", "", false);
    SortPair(a, b);
    SortPair(b, a);
  }

  lemma {:induction false} SortPair(a: Route, b: Route)
    requires |a.prefix| == |b.prefix|
    ensures StableSort([a, b]) == [a, b]
  {
    assert [b][1..] == [];
    assert StableSort([b]) == Insert(b, []);
    assert [a, b][1..] == [b];
    assert Insert(a, [b]) == [a] + [b];
  }

  // ---------------------------------------------------------------- the code

  /** The gateway's shared state. */
  class GwState {
    var routes: seq<Route>

    /** `serve` sorts the routes before it shares them. */
    constructor (routes: seq<Route>)
      ensures this.routes == StableSort(routes)
    {
      this.routes := StableSort(routes);
    }

    method PickRoute(path: string) returns (r: Option<Route>)
      ensures r == Pick(routes, path)
    {
      var i := 0;
      while i < |routes|
        invariant i <= |routes| && Pick(routes[i..], path) == Pick(routes, path)
      {
        if Matches(routes[i].prefix, path) { return Some(routes[i]); }
        i := i + 1;
      }
      return None;
    }
  }
}
