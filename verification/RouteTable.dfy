/** The two builders of the gateway's routing table: `_gateway_routes`
    (runtimes/python/python/vignemale/api.py) and `build_routes` (vignemale_cli/gateway.py),
    with the service filter `_endpoints_to_serve`. */
module RouteTable {
  import opened Routing
  import opened Text
  import opened Wrappers

  // ---------------------------------------------------------------- path prefixes

  function LTrimSlash(s: string): string {
    if s != "" && s[0] == '/' then LTrimSlash(s[1..]) else s
  }

  function RTrimSlash(s: string): string {
    if s != "" && s[|s| - 1] == '/' then RTrimSlash(s[..|s| - 1]) else s
  }

  /** `path.strip("/")` */
  function TrimSlash(s: string): string { RTrimSlash(LTrimSlash(s)) }

  /** Where static_prefix stops: an empty segment, or one that starts with ':' or '{'. */
  predicate StopsStatic(seg: string) { seg == "" || seg[0] == ':' || seg[0] == '{' }

  function StaticLen(parts: seq<string>): (k: nat)
    ensures k <= |parts| && (k < |parts| ==> parts[k] == "" || parts[k][0] == ':' || parts[k][0] == '{')
    ensures forall i :: 0 <= i < k ==> parts[i] != "" && parts[i][0] != ':' && parts[i][0] != '{'
  {
    if parts == [] || StopsStatic(parts[0]) then 0 else 1 + StaticLen(parts[1..])
  }

  function PathOf(segs: seq<string>): string { "/" + Join(segs, "/") }

  function StaticPrefix(path: string): string {
    var parts := Split(TrimSlash(path), '/');
    PathOf(parts[..StaticLen(parts)])
  }

  /** Where _literal_prefix stops. */
  predicate StopsLiteral(seg: string) { seg != "" && (seg[0] == ':' || seg[0] == '*') }

  function LiteralSegs(parts: seq<string>): seq<string> {
    if parts == [] || StopsLiteral(parts[0]) then []
    else (if parts[0] == "" then [] else [parts[0]]) + LiteralSegs(parts[1..])
  }

  function LiteralPrefix(path: string): string { PathOf(LiteralSegs(Split(path, '/'))) }

  /** Segments of a path: not empty, no slash in them. */
  predicate Clean(segs: seq<string>) {
    forall i :: 0 <= i < |segs| ==> segs[i] != "" && '/' !in segs[i]
  }

  lemma {:induction false} JoinEnds(segs: seq<string>)
    requires Clean(segs)
    ensures var j := Join(segs, "/");
            && (segs != [] <==> j != "")
            && (j != "" ==> j[0] != '/' && j[|j| - 1] != '/')
  {
    if |segs| > 1 { JoinEnds(segs[1..]); }
  }

  lemma {:induction false} PathParts(segs: seq<string>)
    requires Clean(segs)
    ensures Split(TrimSlash(PathOf(segs)), '/') == if segs == [] then [""] else segs
    ensures Split(PathOf(segs), '/') == [""] + if segs == [] then [""] else segs
  {
    var j := Join(segs, "/");
    JoinEnds(segs);
    assert PathOf(segs)[1..] == j;
    assert LTrimSlash(j) == j && RTrimSlash(j) == j;
    if segs != [] { SplitJoin(segs, '/'); }
    SplitFirst("", '/', j);
    assert "" + ['/'] + j == PathOf(segs);
  }

  /** The static prefix of a path of clean segments is the path of its static segments. */
  lemma {:induction false} StaticPrefixOfPath(segs: seq<string>)
    requires Clean(segs)
    ensures StaticPrefix(PathOf(segs)) == PathOf(segs[..StaticLen(segs)])
  {
    PathParts(segs);
    if segs == [] { assert [""][..0] == segs[..0]; }
  }

  lemma {:induction false} PathRest(a: seq<string>, vals: seq<string>)
    requires Clean(a) && Clean(vals) && a != [] && a <= vals
    ensures Matches(PathOf(a), PathOf(vals))
  {
    if |a| == |vals| {
      assert a == vals;
    } else {
      assert a + vals[|a|..] == vals;
      JoinConcat(a, vals[|a|..], "/");
      var rest := Join(vals[|a|..], "/");
      assert PathOf(vals) == PathOf(a) + "/" + rest;
    }
  }

  lemma {:induction false} SplitVals(vals: seq<string>)
    requires Clean(vals)
    ensures Split(Join(vals, "/"), '/') == if vals == [] then [""] else vals
  {
    if vals != [] { SplitJoin(vals, '/'); }
  }

  lemma {:induction false} RestPath(a: seq<string>, vals: seq<string>)
    requires Clean(a) && Clean(vals) && a != [] && Matches(PathOf(a), PathOf(vals))
    ensures a <= vals
  {
    var p, q := Join(a, "/"), Join(vals, "/");
    JoinEnds(a);
    SplitVals(a);
    SplitVals(vals);
    assert PathOf(a)[1..] == p && PathOf(vals)[1..] == q;
    if PathOf(vals) != PathOf(a) {
      var rest := PathOf(vals)[|PathOf(a)| + 1..];
      assert PathOf(vals) == PathOf(a) + "/" + rest;
      assert q == p + ['/'] + rest;
      SplitConcat(p, '/', rest);
      SplitLast(a, Split(rest, '/'), vals);
    }
  }

  lemma {:induction false} SplitLast(a: seq<string>, more: seq<string>, vals: seq<string>)
    requires a != [] && a[0] != "" && more != [] && a + more == if vals == [] then [""] else vals
    ensures a <= vals
  {
    assert (a + more)[0] == a[0];
  }

  /** One path of segments is a prefix of another on a segment boundary. */
  lemma {:induction false} PrefixMatches(a: seq<string>, vals: seq<string>)
    requires Clean(a) && Clean(vals)
    ensures Matches(PathOf(a), PathOf(vals)) <==> a <= vals
  {
    if a != [] {
      if a <= vals { PathRest(a, vals); }
      if Matches(PathOf(a), PathOf(vals)) { RestPath(a, vals); }
    }
  }

  // ---------------------------------------------------------------- the two prefix functions

  predicate Dynamic(seg: string) { seg != "" && (seg[0] == ':' || seg[0] == '{' || seg[0] == '*') }

  /** The first dynamic segment, if there is one, is a `:param`. */
  predicate FirstDynamicIsParam(segs: seq<string>) {
    segs == [] || (if Dynamic(segs[0]) then segs[0][0] == ':' else FirstDynamicIsParam(segs[1..]))
  }

  function LiteralLen(segs: seq<string>): (k: nat)
    ensures k <= |segs| && (k < |segs| ==> segs[k] != "" && (segs[k][0] == ':' || segs[k][0] == '*'))
    ensures forall i :: 0 <= i < k ==> segs[i] == "" || (segs[i][0] != ':' && segs[i][0] != '*')
  {
    if segs == [] || StopsLiteral(segs[0]) then 0 else 1 + LiteralLen(segs[1..])
  }

  lemma {:induction false} LiteralSegsAre(segs: seq<string>)
    requires Clean(segs)
    ensures LiteralSegs(segs) == segs[..LiteralLen(segs)]
  {
    if segs != [] && !StopsLiteral(segs[0]) {
      LiteralSegsAre(segs[1..]);
      assert segs[..LiteralLen(segs)] == [segs[0]] + segs[1..][..LiteralLen(segs[1..])];
    }
  }

  lemma {:induction false} LensAgree(segs: seq<string>)
    requires Clean(segs)
    ensures StaticLen(segs) == LiteralLen(segs) <==> FirstDynamicIsParam(segs)
  {
    if segs != [] && !Dynamic(segs[0]) { LensAgree(segs[1..]); }
  }

  lemma {:induction false} SamePathSameSegs(a: seq<string>, b: seq<string>)
    requires Clean(a) && Clean(b) && PathOf(a) == PathOf(b)
    ensures a == b
  {
    PrefixMatches(a, b);
    PrefixMatches(b, a);
  }

  /** The runtime's and the command line's prefixes of an endpoint agree if and only if its
      first dynamic segment is a `:param` (or it has none). */
  lemma {:induction false} BuildersAgree(segs: seq<string>)
    requires Clean(segs)
    ensures StaticPrefix(PathOf(segs)) == LiteralPrefix(PathOf(segs)) <==> FirstDynamicIsParam(segs)
  {
    StaticPrefixOfPath(segs);
    LiteralPrefixOfPath(segs);
    LensAgree(segs);
    if PathOf(segs[..StaticLen(segs)]) == PathOf(segs[..LiteralLen(segs)]) {
      SamePathSameSegs(segs[..StaticLen(segs)], segs[..LiteralLen(segs)]);
    }
  }

  lemma {:induction false} LiteralPrefixOfPath(segs: seq<string>)
    requires Clean(segs)
    ensures LiteralPrefix(PathOf(segs)) == PathOf(segs[..LiteralLen(segs)])
  {
    PathParts(segs);
    LiteralSegsAre(segs);
    var parts := if segs == [] then [""] else segs;
    SkipEmpty(parts);
    if segs == [] { SkipEmpty([]); }
  }

  lemma {:induction false} SkipEmpty(parts: seq<string>)
    ensures LiteralSegs([""] + parts) == LiteralSegs(parts)
  {
    assert ([""] + parts)[1..] == parts;
  }

  // ---------------------------------------------------------------- concrete paths

  /** A concrete path that the endpoint's own route in the service matches: a `:param`
      takes one segment, a `*rest` all that are left (one at least). */
  predicate Fits(segs: seq<string>, vals: seq<string>) {
    if segs == [] then vals == []
    else if segs[0] != "" && segs[0][0] == '*' then vals != []
    else vals != [] && (StopsLiteral(segs[0]) || vals[0] == segs[0]) && Fits(segs[1..], vals[1..])
  }

  predicate WildcardFree(segs: seq<string>) {
    forall i :: 0 <= i < |segs| ==> segs[i] == "" || segs[i][0] != '*'
  }

  lemma {:induction false} FitsStatic(segs: seq<string>, vals: seq<string>)
    requires Fits(segs, vals) && WildcardFree(segs[..StaticLen(segs)])
    ensures segs[..StaticLen(segs)] <= vals
  {
    if segs != [] && !StopsStatic(segs[0]) {
      assert segs[..StaticLen(segs)] == [segs[0]] + segs[1..][..StaticLen(segs[1..])];
      assert segs[..StaticLen(segs)][0] == segs[0];
      assert segs[..StaticLen(segs)][1..] == segs[1..][..StaticLen(segs[1..])];
      FitsStatic(segs[1..], vals[1..]);
      assert vals == [vals[0]] + vals[1..];
    }
  }

  /** The endpoint's own prefix matches a concrete path if and only if that path starts with
      the static segments as they are written, a `*rest` before the first `:param` included. */
  lemma {:induction false} OwnPrefixMatches(segs: seq<string>, vals: seq<string>)
    requires Clean(segs) && Clean(vals)
    ensures Matches(StaticPrefix(PathOf(segs)), PathOf(vals)) <==> segs[..StaticLen(segs)] <= vals
  {
    StaticPrefixOfPath(segs);
    PrefixMatches(segs[..StaticLen(segs)], vals);
  }

  // ---------------------------------------------------------------- the table as a dict

  datatype Key = Key(prefix: string, service: string, upstream: string)

  /** _gateway_routes' key, and build_routes'. */
  function FullKey(r: Route): Key { Key(r.prefix, r.service, r.upstream) }
  function PrefixKey(r: Route): Key { Key(r.prefix, "", "") }

  predicate HasKey(rs: seq<Route>, key: Route -> Key, k: Key) {
    exists i :: 0 <= i < |rs| && key(rs[i]) == k
  }

  /** Some route of this key requires authentication. */
  predicate WantsAuth(rs: seq<Route>, key: Route -> Key, k: Key) {
    exists i :: 0 <= i < |rs| && key(rs[i]) == k && rs[i].requiresAuth
  }

  /** The dict's entry for a route: a new one at the end, or the old one with the flag OR-ed. */
  function Put(rs: seq<Route>, key: Route -> Key, r: Route): seq<Route> {
    if rs == [] then [r]
    else if key(rs[0]) == key(r) then [rs[0].(requiresAuth := rs[0].requiresAuth || r.requiresAuth)] + rs[1..]
    else [rs[0]] + Put(rs[1..], key, r)
  }

  function PutAll(rs: seq<Route>, key: Route -> Key): seq<Route> {
    if rs == [] then [] else Put(PutAll(rs[..|rs| - 1], key), key, rs[|rs| - 1])
  }

  ghost predicate KeyIgnoresAuth(key: Route -> Key) {
    forall r: Route, b: bool :: key(r.(requiresAuth := b)) == key(r)
  }

  predicate DistinctKeys(rs: seq<Route>, key: Route -> Key) {
    forall i, j :: 0 <= i < j < |rs| ==> key(rs[i]) != key(rs[j])
  }

  lemma {:induction false} PutMeaning(rs: seq<Route>, key: Route -> Key, r: Route)
    requires KeyIgnoresAuth(key) && DistinctKeys(rs, key)
    ensures var t := Put(rs, key, r);
            && DistinctKeys(t, key)
            && (forall k :: HasKey(t, key, k) <==> HasKey(rs, key, k) || k == key(r))
            && (forall k :: WantsAuth(t, key, k) <==> WantsAuth(rs, key, k) || (k == key(r) && r.requiresAuth))
  {
    var t := Put(rs, key, r);
    if rs == [] {
      forall k ensures HasKey(t, key, k) <==> k == key(r) { assert t[0] == r; }
      forall k ensures WantsAuth(t, key, k) <==> k == key(r) && r.requiresAuth { assert t[0] == r; }
    } else {
      var rest, rest' := rs[1..], t[1..];
      if key(rs[0]) == key(r) {
        assert rest' == rest;
      } else {
        assert forall i, j :: 0 <= i < j < |rest| ==> rest[i] == rs[i + 1] && rest[j] == rs[j + 1];
        PutMeaning(rest, key, r);
        assert rest' == Put(rest, key, r);
        ConsDistinct(rs[0], rest, rest', key, r);
      }
      assert t == [t[0]] + rest' && rs == [rs[0]] + rest;
      forall k ensures HasKey(t, key, k) <==> HasKey(rs, key, k) || k == key(r) { ConsKeys(t[0], rest', key, k); ConsKeys(rs[0], rest, key, k); }
      forall k ensures WantsAuth(t, key, k) <==> WantsAuth(rs, key, k) || (k == key(r) && r.requiresAuth) {
        ConsKeys(t[0], rest', key, k);
        ConsKeys(rs[0], rest, key, k);
      }
    }
  }

  lemma {:induction false} ConsKeys(r: Route, rest: seq<Route>, key: Route -> Key, k: Key)
    ensures HasKey([r] + rest, key, k) <==> key(r) == k || HasKey(rest, key, k)
    ensures WantsAuth([r] + rest, key, k) <==> (key(r) == k && r.requiresAuth) || WantsAuth(rest, key, k)
  {
    var t := [r] + rest;
    assert t[0] == r && forall i :: 0 <= i < |rest| ==> t[i + 1] == rest[i];
  }

  lemma {:induction false} ConsDistinct(q: Route, rest: seq<Route>, rest': seq<Route>, key: Route -> Key, r: Route)
    requires DistinctKeys([q] + rest, key) && DistinctKeys(rest', key) && key(q) != key(r)
    requires forall k :: HasKey(rest', key, k) <==> HasKey(rest, key, k) || k == key(r)
    ensures DistinctKeys([q] + rest', key)
  {
    var s, t := [q] + rest, [q] + rest';
    forall j | 0 < j < |t| ensures key(t[j]) != key(q) {
      assert HasKey(rest', key, key(rest'[j - 1]));
      if HasKey(rest, key, key(t[j])) {
        var i :| 0 <= i < |rest| && key(rest[i]) == key(t[j]);
        assert s[i + 1] == rest[i] && s[0] == q;
      }
    }
  }

  /** The table has one route a key, exactly the keys that were put, and a route requires
      authentication exactly when something put under its key does. */
  lemma {:induction false} TableMeaning(rs: seq<Route>, key: Route -> Key)
    requires KeyIgnoresAuth(key)
    ensures var t := PutAll(rs, key);
            && DistinctKeys(t, key)
            && (forall k :: HasKey(t, key, k) <==> HasKey(rs, key, k))
            && (forall k :: WantsAuth(t, key, k) <==> WantsAuth(rs, key, k))
  {
    if rs != [] {
      var n := |rs| - 1;
      TableMeaning(rs[..n], key);
      PutMeaning(PutAll(rs[..n], key), key, rs[n]);
      forall k ensures HasKey(rs, key, k) <==> HasKey(rs[..n], key, k) || k == key(rs[n]) { SnocKeys(rs, key, k); }
      forall k ensures WantsAuth(rs, key, k) <==> WantsAuth(rs[..n], key, k) || (k == key(rs[n]) && rs[n].requiresAuth) { SnocKeys(rs, key, k); }
    }
  }

  lemma {:induction false} SnocKeys(rs: seq<Route>, key: Route -> Key, k: Key)
    requires rs != []
    ensures var n := |rs| - 1;
            && (HasKey(rs, key, k) <==> HasKey(rs[..n], key, k) || k == key(rs[n]))
            && (WantsAuth(rs, key, k) <==> WantsAuth(rs[..n], key, k) || (k == key(rs[n]) && rs[n].requiresAuth))
  {
    var n := |rs| - 1;
    assert forall i :: 0 <= i < n ==> rs[..n][i] == rs[i];
  }

  lemma {:induction false} PutKeeps(rs: seq<Route>, key: Route -> Key, r: Route)
    ensures |Put(rs, key, r)| >= |rs|
    ensures forall i :: 0 <= i < |rs| ==> FullKey(Put(rs, key, r)[i]) == FullKey(rs[i])
    ensures !HasKey(rs, key, key(r)) ==> Put(rs, key, r) == rs + [r]
  {
    if rs != [] && key(rs[0]) != key(r) {
      PutKeeps(rs[1..], key, r);
      assert rs == [rs[0]] + rs[1..];
      ConsKeys(rs[0], rs[1..], key, key(r));
      Assoc([rs[0]], rs[1..], [r]);
    }
  }

  /** Of the routes put under one key, the first gives the service and the upstream, and the place
      in the table, behind the keys that were put before. */
  lemma {:induction false} FirstWins(rs: seq<Route>, key: Route -> Key, i: nat) returns (j: nat)
    requires KeyIgnoresAuth(key) && i < |rs| && !HasKey(rs[..i], key, key(rs[i]))
    ensures j == |PutAll(rs[..i], key)| < |PutAll(rs, key)| && FullKey(PutAll(rs, key)[j]) == FullKey(rs[i])
  {
    var n := |rs| - 1;
    if i < n {
      assert rs[..n][..i] == rs[..i];
      PutKeeps(PutAll(rs[..n], key), key, rs[n]);
      j := FirstWins(rs[..n], key, i);
    } else {
      NewKeyIsAdded(rs, key);
      j := |PutAll(rs[..n], key)|;
    }
  }

  lemma {:induction false} NewKeyIsAdded(rs: seq<Route>, key: Route -> Key)
    requires KeyIgnoresAuth(key) && rs != [] && !HasKey(rs[..|rs| - 1], key, key(rs[|rs| - 1]))
    ensures PutAll(rs, key) == PutAll(rs[..|rs| - 1], key) + [rs[|rs| - 1]]
  {
    var n := |rs| - 1;
    TableMeaning(rs[..n], key);
    PutKeeps(PutAll(rs[..n], key), key, rs[n]);
  }

  // ---------------------------------------------------------------- endpoints and services

  datatype Endpoint = Endpoint(name: string, path: string, mod: string, auth: bool, expose: bool)

  datatype Service = Service(name: string, mod: string)

  /** An environment's VIGNEMALE_SERVICE_<NAME> by service name, "" when it is not set. */
  type Urls = string -> string

  predicate InModule(mod: string, m: string) { mod == m || m + "." <= mod }

  /** The first declared service whose module holds this one. */
  function ServiceOf(services: seq<Service>, mod: string): Option<string> {
    if services == [] then None
    else if InModule(mod, services[0].mod) then Some(services[0].name)
    else ServiceOf(services[1..], mod)
  }

  /** A module is in another one when its dotted name starts with that one's, part by part. */
  lemma {:induction false} InModuleIs(mod: string, m: string)
    ensures InModule(mod, m) <==> Split(m, '.') <= Split(mod, '.')
  {
    var x, y := Split(m, '.'), Split(mod, '.');
    if mod != m && m + "." <= mod {
      var rest := mod[|m| + 1..];
      assert mod == m + ['.'] + rest;
      SplitConcat(m, '.', rest);
    }
    if x <= y {
      JoinSplit(m, '.');
      JoinSplit(mod, '.');
      assert y == x + y[|x|..];
      if y[|x|..] != [] { JoinConcat(x, y[|x|..], "."); } else { assert y == x; }
    }
  }

  /** The first declared service whose module is, or holds, the endpoint's. */
  lemma {:induction false} ServiceOfIsFirst(services: seq<Service>, mod: string) returns (i: nat)
    ensures ServiceOf(services, mod).None? <==> forall j :: 0 <= j < |services| ==> !(Split(services[j].mod, '.') <= Split(mod, '.'))
    ensures ServiceOf(services, mod).Some? ==>
              && i < |services| && ServiceOf(services, mod) == Some(services[i].name) && Split(services[i].mod, '.') <= Split(mod, '.')
              && forall j :: 0 <= j < i ==> !(Split(services[j].mod, '.') <= Split(mod, '.'))
  {
    i := 0;
    if services != [] {
      InModuleIs(mod, services[0].mod);
      if !InModule(mod, services[0].mod) {
        var k := ServiceOfIsFirst(services[1..], mod);
        assert forall j :: 0 < j < |services| ==> services[j] == services[1..][j - 1];
        i := k + 1;
      }
    }
  }

  /** _gateway_routes' route for one endpoint, if it gets one. */
  function Candidate(e: Endpoint, services: seq<Service>, urls: Urls): seq<Route> {
    var svc := ServiceOf(services, e.mod);
    if !e.expose || svc.None? || urls(svc.value) == "" then []
    else [Route(StaticPrefix(e.path), svc.value, urls(svc.value), e.auth)]
  }

  function Candidates(eps: seq<Endpoint>, services: seq<Service>, urls: Urls): seq<Route> {
    if eps == [] then [] else Candidates(eps[..|eps| - 1], services, urls) + Candidate(eps[|eps| - 1], services, urls)
  }

  function GatewayRoutes(eps: seq<Endpoint>, services: seq<Service>, urls: Urls): seq<Route> {
    PutAll(Candidates(eps, services, urls), FullKey)
  }

  predicate InService(services: seq<Service>, name: string, mod: string) {
    exists i :: 0 <= i < |services| && services[i].name == name && InModule(mod, services[i].mod)
  }

  predicate Declared(services: seq<Service>, name: string) {
    exists i :: 0 <= i < |services| && services[i].name == name
  }

  function Filtered(eps: seq<Endpoint>, services: seq<Service>, name: string): seq<Endpoint> {
    if eps == [] then []
    else (if InService(services, name, eps[0].mod) then [eps[0]] else []) + Filtered(eps[1..], services, name)
  }

  /** _endpoints_to_serve, `name` being VIGNEMALE_SERVICE_NAME: everything without one, or
      when no service has that name. */
  function EndpointsToServe(eps: seq<Endpoint>, services: seq<Service>, name: string): seq<Endpoint> {
    if name == "" || !Declared(services, name) then eps else Filtered(eps, services, name)
  }

  lemma {:induction false} ServiceOfIsIn(services: seq<Service>, mod: string)
    ensures ServiceOf(services, mod).Some? ==> InService(services, ServiceOf(services, mod).value, mod)
  {
    if services != [] {
      ServiceOfIsIn(services[1..], mod);
      if InModule(mod, services[0].mod) {
        assert InService(services, services[0].name, mod);
      } else if ServiceOf(services[1..], mod).Some? {
        var rest := services[1..];
        var i :| 0 <= i < |rest| && rest[i].name == ServiceOf(rest, mod).value && InModule(mod, rest[i].mod);
        assert services[i + 1] == rest[i];
      }
    }
  }

  lemma {:induction false} FilteredMembers(eps: seq<Endpoint>, services: seq<Service>, name: string)
    ensures forall e :: e in Filtered(eps, services, name) <==> e in eps && InService(services, name, e.mod)
  {
    if eps != [] {
      FilteredMembers(eps[1..], services, name);
      assert eps == [eps[0]] + eps[1..];
    }
  }

  /** A container serves exactly the endpoints of its service, and all of them when it has no
      service name or one that nobody declared. */
  lemma {:induction false} ServedExactly(eps: seq<Endpoint>, services: seq<Service>, name: string, e: Endpoint)
    ensures e in EndpointsToServe(eps, services, name) <==>
            e in eps && (name == "" || !Declared(services, name) || InService(services, name, e.mod))
  {
    FilteredMembers(eps, services, name);
  }

  /** The container of the service an endpoint is routed to serves that endpoint. */
  lemma {:induction false} ServedByItsService(eps: seq<Endpoint>, services: seq<Service>, e: Endpoint)
    requires e in eps && ServiceOf(services, e.mod).Some?
    ensures e in EndpointsToServe(eps, services, ServiceOf(services, e.mod).value)
  {
    ServiceOfIsIn(services, e.mod);
    FilteredMembers(eps, services, ServiceOf(services, e.mod).value);
  }

  /** The endpoint is exposed, and belongs to a service with a known URL. */
  predicate Routable(e: Endpoint, services: seq<Service>, urls: Urls) {
    e.expose && ServiceOf(services, e.mod).Some? && urls(ServiceOf(services, e.mod).value) != ""
  }

  /** The key of such an endpoint's own route. */
  predicate OwnKey(e: Endpoint, services: seq<Service>, urls: Urls, k: Key) {
    Routable(e, services, urls)
    && var svc := ServiceOf(services, e.mod).value; k == Key(StaticPrefix(e.path), svc, urls(svc))
  }

  lemma {:induction false} CandidateIs(e: Endpoint, services: seq<Service>, urls: Urls)
    ensures Candidate(e, services, urls) != [] ==>
              OwnKey(e, services, urls, FullKey(Candidate(e, services, urls)[0])) && Candidate(e, services, urls)[0].requiresAuth == e.auth
    ensures forall k :: OwnKey(e, services, urls, k) ==> Candidate(e, services, urls) != [] && FullKey(Candidate(e, services, urls)[0]) == k
  {}

  lemma {:induction false} CandidateOf(eps: seq<Endpoint>, services: seq<Service>, urls: Urls, i: nat) returns (j: nat)
    requires i < |eps| && Candidate(eps[i], services, urls) != []
    ensures j < |Candidates(eps, services, urls)| && Candidates(eps, services, urls)[j] == Candidate(eps[i], services, urls)[0]
  {
    var n := |eps| - 1;
    if i < n {
      j := CandidateOf(eps[..n], services, urls, i);
    } else {
      j := |Candidates(eps[..n], services, urls)|;
    }
  }

  lemma {:induction false} EndpointOf(eps: seq<Endpoint>, services: seq<Service>, urls: Urls, j: nat) returns (i: nat)
    requires j < |Candidates(eps, services, urls)|
    ensures i < |eps| && Candidate(eps[i], services, urls) == [Candidates(eps, services, urls)[j]]
  {
    var n := |eps| - 1;
    if j < |Candidates(eps[..n], services, urls)| {
      i := EndpointOf(eps[..n], services, urls, j);
    } else {
      i := n;
    }
  }

  predicate SomebodyWantsAuth(eps: seq<Endpoint>, services: seq<Service>, urls: Urls, k: Key) {
    exists i :: 0 <= i < |eps| && OwnKey(eps[i], services, urls, k) && eps[i].auth
  }

  /** The route table: one route a key; the keys are those of the exposed endpoints of services
      with a known URL, and no other; and a route requires authentication exactly when some such
      endpoint under its key does. */
  lemma {:induction false} GatewayTable(eps: seq<Endpoint>, services: seq<Service>, urls: Urls)
    ensures var t := GatewayRoutes(eps, services, urls);
            && DistinctKeys(t, FullKey)
            && (forall i, k :: 0 <= i < |eps| && OwnKey(eps[i], services, urls, k) ==> HasKey(t, FullKey, k))
            && (forall j :: 0 <= j < |t| ==> exists i :: 0 <= i < |eps| && OwnKey(eps[i], services, urls, FullKey(t[j])))
            && (forall j :: 0 <= j < |t| ==> (t[j].requiresAuth <==> SomebodyWantsAuth(eps, services, urls, FullKey(t[j]))))
  {
    var rs, t := Candidates(eps, services, urls), GatewayRoutes(eps, services, urls);
    TableMeaning(rs, FullKey);
    forall i, k | 0 <= i < |eps| && OwnKey(eps[i], services, urls, k) ensures HasKey(t, FullKey, k) {
      CandidateIs(eps[i], services, urls);
      var j := CandidateOf(eps, services, urls, i);
      assert HasKey(rs, FullKey, k);
    }
    forall j | 0 <= j < |t|
      ensures t[j].requiresAuth <==> SomebodyWantsAuth(eps, services, urls, FullKey(t[j]))
      ensures exists i :: 0 <= i < |eps| && OwnKey(eps[i], services, urls, FullKey(t[j]))
    {
      AuthOfKey(eps, services, urls, FullKey(t[j]));
      OwnFlag(t, FullKey, j);
      assert HasKey(t, FullKey, FullKey(t[j]));
      var n :| 0 <= n < |rs| && FullKey(rs[n]) == FullKey(t[j]);
      var i := EndpointOf(eps, services, urls, n);
      CandidateIs(eps[i], services, urls);
    }
  }

  /** Private endpoints are never routed: without an exposed endpoint the table is empty, and no
      private endpoint changes it. */
  lemma {:induction false} PrivateIsNotRouted(eps: seq<Endpoint>, services: seq<Service>, urls: Urls, e: Endpoint)
    ensures (forall i :: 0 <= i < |eps| ==> !eps[i].expose) ==> GatewayRoutes(eps, services, urls) == []
    ensures !e.expose ==> GatewayRoutes(eps + [e], services, urls) == GatewayRoutes(eps, services, urls)
  {
    GatewayTable(eps, services, urls);
    var t := GatewayRoutes(eps, services, urls);
    if t != [] { assert exists i :: 0 <= i < |eps| && OwnKey(eps[i], services, urls, FullKey(t[0])); }
    CandidateIs(e, services, urls);
    assert (eps + [e])[..|eps|] == eps;
    assert Candidates(eps, services, urls) + [] == Candidates(eps, services, urls);
  }

  lemma {:induction false} OwnFlag(t: seq<Route>, key: Route -> Key, j: nat)
    requires DistinctKeys(t, key) && j < |t|
    ensures WantsAuth(t, key, key(t[j])) <==> t[j].requiresAuth
  {}

  lemma {:induction false} AuthOfKey(eps: seq<Endpoint>, services: seq<Service>, urls: Urls, k: Key)
    ensures WantsAuth(Candidates(eps, services, urls), FullKey, k) <==> SomebodyWantsAuth(eps, services, urls, k)
  {
    var rs := Candidates(eps, services, urls);
    if j :| 0 <= j < |rs| && FullKey(rs[j]) == k && rs[j].requiresAuth {
      var i := EndpointOf(eps, services, urls, j);
      assert OwnKey(eps[i], services, urls, k);
    }
    if i :| 0 <= i < |eps| && OwnKey(eps[i], services, urls, k) && eps[i].auth {
      var j := CandidateOf(eps, services, urls, i);
      assert FullKey(rs[j]) == k;
    }
  }

  /** More routes put leave those before them in their places. */
  lemma {:induction false} PutAllGrows(rs: seq<Route>, n: nat, key: Route -> Key)
    requires n <= |rs|
    ensures |PutAll(rs[..n], key)| <= |PutAll(rs, key)|
  {
    if n == |rs| {
      assert rs[..n] == rs;
    } else {
      var init := rs[..|rs| - 1];
      assert init[..n] == rs[..n];
      PutAllGrows(init, n, key);
      PutKeeps(PutAll(init, key), key, rs[|rs| - 1]);
    }
  }

  lemma {:induction false} CandidatesPrefix(eps: seq<Endpoint>, services: seq<Service>, urls: Urls, i: nat)
    requires i <= |eps|
    ensures Candidates(eps[..i], services, urls) <= Candidates(eps, services, urls)
  {
    if i == |eps| {
      assert eps[..i] == eps;
    } else {
      var init := eps[..|eps| - 1];
      assert init[..i] == eps[..i];
      CandidatesPrefix(init, services, urls, i);
    }
  }

  /** The endpoint has its own key, and none declared before it has the same. */
  predicate FirstOfKey(eps: seq<Endpoint>, services: seq<Service>, urls: Urls, i: nat, k: Key)
    requires i < |eps|
  {
    OwnKey(eps[i], services, urls, k) && forall h :: 0 <= h < i ==> !OwnKey(eps[h], services, urls, k)
  }

  lemma {:induction false} PlaceOfKey(eps: seq<Endpoint>, services: seq<Service>, urls: Urls, i: nat, k: Key)
    requires i < |eps| && FirstOfKey(eps, services, urls, i, k)
    ensures var t, j := GatewayRoutes(eps, services, urls), |GatewayRoutes(eps[..i], services, urls)|;
            && j < |t| && FullKey(t[j]) == k && j < |GatewayRoutes(eps[..i + 1], services, urls)|
  {
    CandidateIs(eps[i], services, urls);
    CandidatesPrefix(eps, services, urls, i + 1);
    assert eps[..i + 1][..i] == eps[..i] && eps[..i + 1][i] == eps[i];
    var before, upTo, rs := Candidates(eps[..i], services, urls), Candidates(eps[..i + 1], services, urls), Candidates(eps, services, urls);
    var n := |before|;
    assert upTo == before + [Candidate(eps[i], services, urls)[0]];
    assert rs[..n] == before && upTo[..n] == before && rs[n] == upTo[n];
    if HasKey(before, FullKey, k) {
      var m :| 0 <= m < n && FullKey(before[m]) == k;
      var h := EndpointOf(eps[..i], services, urls, m);
      CandidateIs(eps[..i][h], services, urls);
    }
    var j := FirstWins(rs, FullKey, n);
    var j' := FirstWins(upTo, FullKey, n);
  }

  /** The table keeps the declared order: of two endpoints that are the first of their keys, the one
      declared first has the route that comes first.  So where two services share a prefix, the
      first one declared is chosen. */
  lemma {:induction false} DeclaredFirstGoesFirst(eps: seq<Endpoint>, services: seq<Service>, urls: Urls, i: nat, k: Key, i2: nat, k2: Key)
    returns (j: nat, j2: nat)
    requires i < i2 < |eps| && FirstOfKey(eps, services, urls, i, k) && FirstOfKey(eps, services, urls, i2, k2)
    ensures var t := GatewayRoutes(eps, services, urls);
            j < j2 < |t| && FullKey(t[j]) == k && FullKey(t[j2]) == k2
  {
    j, j2 := |GatewayRoutes(eps[..i], services, urls)|, |GatewayRoutes(eps[..i2], services, urls)|;
    PlaceOfKey(eps, services, urls, i, k);
    PlaceOfKey(eps, services, urls, i2, k2);
    assert eps[..i2][..i + 1] == eps[..i + 1];
    CandidatesPrefix(eps[..i2], services, urls, i + 1);
    var upTo, rs := Candidates(eps[..i + 1], services, urls), Candidates(eps[..i2], services, urls);
    assert rs[..|upTo|] == upTo;
    PutAllGrows(rs, |upTo|, FullKey);
  }

  /** For every exposed endpoint of a service with a known URL, every concrete path it matches
      gets a route, of a prefix at least as long as the endpoint's static prefix.  When that
      is the endpoint's own route, its container serves the endpoint, and the route requires
      authentication if the endpoint does. */
  lemma {:induction false} EndpointIsRouted(eps: seq<Endpoint>, services: seq<Service>, urls: Urls, i: nat, segs: seq<string>, vals: seq<string>)
    requires i < |eps| && Routable(eps[i], services, urls)
    requires eps[i].path == PathOf(segs) && Clean(segs) && Clean(vals)
    requires Fits(segs, vals) && WildcardFree(segs[..StaticLen(segs)])
    ensures var r := Pick(StableSort(GatewayRoutes(eps, services, urls)), PathOf(vals));
            && r.Some? && |r.value.prefix| >= |StaticPrefix(eps[i].path)|
            && (OwnKey(eps[i], services, urls, FullKey(r.value)) ==>
                  && (eps[i].auth ==> r.value.requiresAuth)
                  && eps[i] in EndpointsToServe(eps, services, r.value.service))
  {
    var t, path := GatewayRoutes(eps, services, urls), PathOf(vals);
    GatewayTable(eps, services, urls);
    var svc := ServiceOf(services, eps[i].mod).value;
    var k := Key(StaticPrefix(eps[i].path), svc, urls(svc));
    assert OwnKey(eps[i], services, urls, k);
    assert HasKey(t, FullKey, k);
    var j := AtKey(t, k);
    FitsStatic(segs, vals);
    OwnPrefixMatches(segs, vals);
    assert Matches(t[j].prefix, path);
    var b := SortThenFirstMatch(t, path);
    assert t[b].requiresAuth <==> SomebodyWantsAuth(eps, services, urls, FullKey(t[b]));
    ServedByItsService(eps, services, eps[i]);
  }

  lemma {:induction false} AtKey(t: seq<Route>, k: Key) returns (j: nat)
    requires HasKey(t, FullKey, k)
    ensures j < |t| && FullKey(t[j]) == k
  {
    j :| j < |t| && FullKey(t[j]) == k;
  }

  /** A table's route is the one picked if and only if no longer prefix matches the path and
      no route declared before it has the same prefix. */
  lemma {:induction false} OwnRouteIsPicked(t: seq<Route>, j: nat, path: string)
    requires DistinctKeys(t, FullKey) && j < |t| && Matches(t[j].prefix, path) && StartsWithSlash(path)
    ensures Pick(StableSort(t), path) == Some(t[j]) <==>
            forall k :: 0 <= k < |t| && k != j && Matches(t[k].prefix, path) ==>
              |t[k].prefix| < |t[j].prefix| || (t[k].prefix == t[j].prefix && j < k)
  {
    var b := SortThenFirstMatch(t, path);
    assert IsBest(t, path, b);
    if b != j { SameLengthIfEqual(t[b].prefix, t[j].prefix, path); }
    forall k | 0 <= k < |t| && Matches(t[k].prefix, path) && |t[k].prefix| == |t[j].prefix| ensures t[k].prefix == t[j].prefix {
      SameLengthAfterSlash(t[k].prefix, t[j].prefix, path);
    }
  }

  lemma {:induction false} SameLengthIfEqual(p: string, q: string, path: string)
    requires Matches(p, path) && Matches(q, path) && StartsWithSlash(path)
    ensures |p| == |q| ==> p == q
  {
    if |p| == |q| { SameLengthAfterSlash(p, q, path); }
  }

  // ---------------------------------------------------------------- the command line's builder

  datatype CliEndpoint = CliEndpoint(path: string, auth: bool)

  datatype CliService = CliService(name: string, endpoints: seq<CliEndpoint>)

  function EndpointRoutes(name: string, url: string, eps: seq<CliEndpoint>): seq<Route> {
    if eps == [] then []
    else
      var e := eps[|eps| - 1];
      EndpointRoutes(name, url, eps[..|eps| - 1]) + [Route(LiteralPrefix(e.path), name, url, e.auth)]
  }

  function CliCandidates(svcs: seq<CliService>, urls: Urls): seq<Route> {
    if svcs == [] then []
    else
      var s := svcs[|svcs| - 1];
      CliCandidates(svcs[..|svcs| - 1], urls) + EndpointRoutes(s.name, urls(s.name), s.endpoints)
  }

  predicate RouteOfEndpoint(e: CliEndpoint, name: string, url: string, r: Route) {
    r == Route(LiteralPrefix(e.path), name, url, e.auth)
  }

  /** The route is that of some endpoint of the service, private or not. */
  predicate RouteOf(s: CliService, url: string, r: Route) {
    exists j :: 0 <= j < |s.endpoints| && RouteOfEndpoint(s.endpoints[j], s.name, url, r)
  }

  predicate RouteOfSome(svcs: seq<CliService>, urls: Urls, r: Route) {
    exists i :: 0 <= i < |svcs| && RouteOf(svcs[i], urls(svcs[i].name), r)
  }

  lemma {:induction false} RouteOfLast(svcs: seq<CliService>, urls: Urls, r: Route)
    requires svcs != []
    ensures var n := |svcs| - 1;
            RouteOfSome(svcs, urls, r) <==> RouteOfSome(svcs[..n], urls, r) || RouteOf(svcs[n], urls(svcs[n].name), r)
  {
    var init := svcs[..|svcs| - 1];
    assert forall i :: 0 <= i < |init| ==> init[i] == svcs[i];
  }

  lemma {:induction false} CliCandidatesAre(svcs: seq<CliService>, urls: Urls, r: Route)
    ensures r in CliCandidates(svcs, urls) <==> RouteOfSome(svcs, urls, r)
  {
    if svcs != [] {
      var n := |svcs| - 1;
      CliCandidatesAre(svcs[..n], urls, r);
      RouteOfLast(svcs, urls, r);
      EndpointRoutesAre(svcs[n].name, urls(svcs[n].name), svcs[n].endpoints, r);
    }
  }

  lemma {:induction false} EndpointRoutesAre(name: string, url: string, eps: seq<CliEndpoint>, r: Route)
    ensures r in EndpointRoutes(name, url, eps) <==> exists j :: 0 <= j < |eps| && RouteOfEndpoint(eps[j], name, url, r)
  {
    if eps != [] {
      var n := |eps| - 1;
      var init := eps[..n];
      EndpointRoutesAre(name, url, init, r);
      assert r in EndpointRoutes(name, url, eps) <==> r in EndpointRoutes(name, url, init) || RouteOfEndpoint(eps[n], name, url, r);
      assert forall j :: 0 <= j < n ==> init[j] == eps[j];
    }
  }

  /** All services have a URL. */
  predicate AllKnown(svcs: seq<CliService>, urls: Urls) {
    forall i :: 0 <= i < |svcs| ==> urls(svcs[i].name) != ""
  }

  function CliRoutes(svcs: seq<CliService>, urls: Urls): seq<Route> { PutAll(CliCandidates(svcs, urls), PrefixKey) }

  lemma {:induction false} CliDistinct(svcs: seq<CliService>, urls: Urls)
    ensures DistinctPrefixes(CliRoutes(svcs, urls))
  {
    var table := CliRoutes(svcs, urls);
    TableMeaning(CliCandidates(svcs, urls), PrefixKey);
    forall i, j | 0 <= i < j < |table| ensures table[i].prefix != table[j].prefix {
      assert PrefixKey(table[i]) != PrefixKey(table[j]);
    }
  }

  /** The prefixes of a service's endpoints, and those of its endpoints that ask for
      authentication. */
  predicate HasPrefix(s: CliService, prefix: string, auth: bool) {
    exists j :: 0 <= j < |s.endpoints| && LiteralPrefix(s.endpoints[j].path) == prefix && (auth ==> s.endpoints[j].auth)
  }

  /** The command line's table has a route for each prefix of an endpoint, private ones included,
      and no other; and it requires authentication exactly when some endpoint of the prefix
      does. */
  lemma {:induction false} CliAuth(svcs: seq<CliService>, urls: Urls, prefix: string)
    ensures var t := CliRoutes(svcs, urls);
            && ((exists j :: 0 <= j < |t| && t[j].prefix == prefix) <==> exists i :: 0 <= i < |svcs| && HasPrefix(svcs[i], prefix, false))
            && (forall j :: 0 <= j < |t| && t[j].prefix == prefix ==>
                  (t[j].requiresAuth <==> exists i :: 0 <= i < |svcs| && HasPrefix(svcs[i], prefix, true)))
  {
    var t, rs, k := CliRoutes(svcs, urls), CliCandidates(svcs, urls), Key(prefix, "", "");
    TableMeaning(rs, PrefixKey);
    CliKeys(svcs, urls, prefix);
    assert HasKey(t, PrefixKey, k) <==> exists j :: 0 <= j < |t| && t[j].prefix == prefix by {
      if j :| 0 <= j < |t| && t[j].prefix == prefix { assert PrefixKey(t[j]) == k; }
      if HasKey(t, PrefixKey, k) {
        var j :| 0 <= j < |t| && PrefixKey(t[j]) == k;
        assert t[j].prefix == prefix;
      }
    }
    forall j | 0 <= j < |t| && t[j].prefix == prefix ensures t[j].requiresAuth <==> WantsAuth(rs, PrefixKey, k) {
      OwnFlag(t, PrefixKey, j);
    }
  }

  lemma {:induction false} CliPrefixOf(svcs: seq<CliService>, urls: Urls, i: nat)
    requires i <= |svcs|
    ensures CliCandidates(svcs[..i], urls) <= CliCandidates(svcs, urls)
  {
    if i == |svcs| {
      assert svcs[..i] == svcs;
    } else {
      var init := svcs[..|svcs| - 1];
      assert init[..i] == svcs[..i];
      CliPrefixOf(init, urls, i);
    }
  }

  /** The first route of the prefix among those of one service. */
  lemma {:induction false} FirstOfService(s: CliService, url: string, prefix: string) returns (f: nat)
    requires HasPrefix(s, prefix, false)
    ensures var own := EndpointRoutes(s.name, url, s.endpoints);
            && f < |own| && own[f].prefix == prefix && own[f].service == s.name && own[f].upstream == url
            && !HasKey(own[..f], PrefixKey, Key(prefix, "", ""))
  {
    var own := EndpointRoutes(s.name, url, s.endpoints);
    var e :| 0 <= e < |s.endpoints| && LiteralPrefix(s.endpoints[e].path) == prefix;
    var r := Route(prefix, s.name, url, s.endpoints[e].auth);
    EndpointRoutesAre(s.name, url, s.endpoints, r);
    var m :| 0 <= m < |own| && own[m] == r;
    f := FirstWith(own, Key(prefix, "", ""), m);
    EndpointRoutesAre(s.name, url, s.endpoints, own[f]);
  }

  /** Of the services with an endpoint of the prefix, the first one gets the route. */
  lemma {:induction false} CliFirstServiceWins(svcs: seq<CliService>, urls: Urls, i: nat, prefix: string) returns (j: nat)
    requires i < |svcs| && HasPrefix(svcs[i], prefix, false) && forall h :: 0 <= h < i ==> !HasPrefix(svcs[h], prefix, false)
    ensures var t := CliRoutes(svcs, urls);
            j < |t| && t[j].prefix == prefix && t[j].service == svcs[i].name && t[j].upstream == urls(svcs[i].name)
  {
    var s := svcs[i];
    var before, own := CliCandidates(svcs[..i], urls), EndpointRoutes(s.name, urls(s.name), s.endpoints);
    CliPrefixOf(svcs, urls, i + 1);
    OneMoreService(svcs, urls, i);
    NoPrefixBefore(svcs, urls, i, prefix);
    var f := FirstOfService(s, urls(s.name), prefix);
    j := FirstBehind(before, own, CliCandidates(svcs, urls), f);
  }

  lemma {:induction false} NoPrefixBefore(svcs: seq<CliService>, urls: Urls, i: nat, prefix: string)
    requires i <= |svcs| && forall h :: 0 <= h < i ==> !HasPrefix(svcs[h], prefix, false)
    ensures !HasKey(CliCandidates(svcs[..i], urls), PrefixKey, Key(prefix, "", ""))
  {
    CliKeys(svcs[..i], urls, prefix);
  }

  lemma {:induction false} FirstBehind(before: seq<Route>, own: seq<Route>, rs: seq<Route>, f: nat) returns (j: nat)
    requires before + own <= rs && f < |own|
    requires !HasKey(before, PrefixKey, PrefixKey(own[f])) && !HasKey(own[..f], PrefixKey, PrefixKey(own[f]))
    ensures j < |PutAll(rs, PrefixKey)| && FullKey(PutAll(rs, PrefixKey)[j]) == FullKey(own[f])
  {
    var n := |before| + f;
    assert rs[n] == own[f] && rs[..n] == before + own[..f];
    assert forall h :: |before| <= h < n ==> rs[..n][h] == own[..f][h - |before|];
    assert forall h :: 0 <= h < |before| ==> rs[..n][h] == before[h];
    j := FirstWins(rs, PrefixKey, n);
  }

  lemma {:induction false} FirstWith(rs: seq<Route>, k: Key, m: nat) returns (f: nat)
    requires m < |rs| && PrefixKey(rs[m]) == k
    ensures f < |rs| && PrefixKey(rs[f]) == k && !HasKey(rs[..f], PrefixKey, k)
  {
    f := m;
    if h :| 0 <= h < m && PrefixKey(rs[h]) == k { f := FirstWith(rs, k, h); }
  }

  lemma {:induction false} CliKeys(svcs: seq<CliService>, urls: Urls, prefix: string)
    ensures var rs, k := CliCandidates(svcs, urls), Key(prefix, "", "");
            && (HasKey(rs, PrefixKey, k) <==> exists i :: 0 <= i < |svcs| && HasPrefix(svcs[i], prefix, false))
            && (WantsAuth(rs, PrefixKey, k) <==> exists i :: 0 <= i < |svcs| && HasPrefix(svcs[i], prefix, true))
  {
    var rs, k := CliCandidates(svcs, urls), Key(prefix, "", "");
    forall n | 0 <= n < |rs| && PrefixKey(rs[n]) == k
      ensures exists i :: 0 <= i < |svcs| && HasPrefix(svcs[i], prefix, rs[n].requiresAuth)
    {
      CliCandidatesAre(svcs, urls, rs[n]);
      var i :| 0 <= i < |svcs| && RouteOf(svcs[i], urls(svcs[i].name), rs[n]);
      assert HasPrefix(svcs[i], prefix, rs[n].requiresAuth);
    }
    forall i, auth | 0 <= i < |svcs| && HasPrefix(svcs[i], prefix, auth)
      ensures exists n :: 0 <= n < |rs| && PrefixKey(rs[n]) == k && (auth ==> rs[n].requiresAuth)
    {
      var s := svcs[i];
      var j :| 0 <= j < |s.endpoints| && LiteralPrefix(s.endpoints[j].path) == prefix && (auth ==> s.endpoints[j].auth);
      var r := Route(prefix, s.name, urls(s.name), s.endpoints[j].auth);
      assert RouteOf(s, urls(s.name), r);
      CliCandidatesAre(svcs, urls, r);
      var n :| 0 <= n < |rs| && rs[n] == r;
    }
    forall i | 0 <= i < |svcs| && HasPrefix(svcs[i], prefix, true) ensures HasPrefix(svcs[i], prefix, false) {}
  }

  /** The command line's table has one route a prefix, so the order of the routes in it does
      not matter, for any path. */
  lemma {:induction false} CliTable(svcs: seq<CliService>, urls: Urls, t: seq<Route>, path: string)
    requires multiset(CliRoutes(svcs, urls)) == multiset(t)
    ensures DistinctPrefixes(CliRoutes(svcs, urls))
    ensures Pick(StableSort(t), path) == Pick(StableSort(CliRoutes(svcs, urls)), path)
  {
    CliDistinct(svcs, urls);
    CliSlashes(svcs, urls);
    SlashedAreUnambiguous(CliRoutes(svcs, urls), path);
    OrderIrrelevant(CliRoutes(svcs, urls), t, path);
  }

  lemma {:induction false} CliSlashes(svcs: seq<CliService>, urls: Urls)
    ensures var table := CliRoutes(svcs, urls); forall j :: 0 <= j < |table| ==> StartsWithSlash(table[j].prefix)
  {
    var rs, table := CliCandidates(svcs, urls), CliRoutes(svcs, urls);
    TableMeaning(rs, PrefixKey);
    CliPrefixes(svcs, urls);
    forall j | 0 <= j < |table| ensures StartsWithSlash(table[j].prefix) {
      assert HasKey(table, PrefixKey, PrefixKey(table[j]));
      var i :| 0 <= i < |rs| && PrefixKey(rs[i]) == PrefixKey(table[j]);
      assert rs[i] in rs;
    }
  }

  lemma {:induction false} EndpointPrefixes(name: string, url: string, eps: seq<CliEndpoint>)
    ensures forall r :: r in EndpointRoutes(name, url, eps) ==> StartsWithSlash(r.prefix)
  {
    if eps != [] { EndpointPrefixes(name, url, eps[..|eps| - 1]); }
  }

  lemma {:induction false} CliPrefixes(svcs: seq<CliService>, urls: Urls)
    ensures forall r :: r in CliCandidates(svcs, urls) ==> StartsWithSlash(r.prefix)
  {
    if svcs != [] {
      var s := svcs[|svcs| - 1];
      CliPrefixes(svcs[..|svcs| - 1], urls);
      EndpointPrefixes(s.name, urls(s.name), s.endpoints);
    }
  }

  lemma {:induction false} SlashedAreUnambiguous(t: seq<Route>, path: string)
    requires forall j :: 0 <= j < |t| ==> StartsWithSlash(t[j].prefix)
    ensures !Ambiguous(t, path)
  {
    assert path != "" ==> path[..1] != "" && path[..1][0] == path[0];
  }

  // ---------------------------------------------------------------- the code

  /** `static_prefix` */
  method FindStaticPrefix(path: string) returns (prefix: string)
    ensures prefix == StaticPrefix(path)
  {
    var parts := Split(TrimSlash(path), '/');
    var segs: seq<string> := [];
    var i := 0;
    while i < |parts|
      invariant i <= |parts| && segs == parts[..i] && StaticLen(parts) == i + StaticLen(parts[i..])
    {
      if StopsStatic(parts[i]) { break; }
      segs := segs + [parts[i]];
      i := i + 1;
    }
    return PathOf(segs);
  }

  /** `_literal_prefix` */
  method FindLiteralPrefix(path: string) returns (prefix: string)
    ensures prefix == LiteralPrefix(path)
  {
    var segs := CollectLiteral(Split(path, '/'));
    return PathOf(segs);
  }

  method CollectLiteral(parts: seq<string>) returns (segs: seq<string>)
    ensures segs == LiteralSegs(parts)
  {
    segs := [];
    var i := 0;
    ghost var rest := LiteralSegs(parts);
    while i < |parts|
      invariant i <= |parts| && rest == LiteralSegs(parts[i..]) && LiteralSegs(parts) == segs + rest
    {
      LiteralStep(parts, i);
      if StopsLiteral(parts[i]) { break; }
      rest := LiteralSegs(parts[i + 1..]);
      Assoc(segs, [parts[i]], rest);
      if parts[i] != "" { segs := segs + [parts[i]]; }
      i := i + 1;
    }
    assert segs + rest == segs;
  }

  lemma {:induction false} LiteralStep(parts: seq<string>, i: nat)
    requires i < |parts|
    ensures LiteralSegs(parts[i..]) ==
            if StopsLiteral(parts[i]) then [] else (if parts[i] == "" then [] else [parts[i]]) + LiteralSegs(parts[i + 1..])
  {
    assert parts[i..][1..] == parts[i + 1..];
  }

  /** `_gateway_routes` */
  method BuildGatewayRoutes(eps: seq<Endpoint>, services: seq<Service>, urls: Urls) returns (routes: seq<Route>)
    ensures routes == GatewayRoutes(eps, services, urls)
  {
    routes := [];
    var i := 0;
    while i < |eps|
      invariant i <= |eps| && routes == GatewayRoutes(eps[..i], services, urls)
    {
      var e := eps[i];
      assert eps[..i + 1][..i] == eps[..i] && eps[..i + 1][i] == e;
      OneMoreCandidate(eps, services, urls, i);
      i := i + 1;
      if !e.expose { continue; }
      var svc := ServiceOf(services, e.mod);
      if svc.None? { continue; }
      var url := urls(svc.value);
      if url == "" { continue; }
      routes := Put(routes, FullKey, Route(StaticPrefix(e.path), svc.value, url, e.auth));
    }
    assert eps[..i] == eps;
  }

  lemma {:induction false} OneMoreCandidate(eps: seq<Endpoint>, services: seq<Service>, urls: Urls, i: nat)
    requires i < |eps|
    ensures var c := Candidate(eps[i], services, urls);
            GatewayRoutes(eps[..i + 1], services, urls) ==
              if c == [] then GatewayRoutes(eps[..i], services, urls) else Put(GatewayRoutes(eps[..i], services, urls), FullKey, c[0])
  {
    assert eps[..i + 1][..i] == eps[..i] && eps[..i + 1][i] == eps[i];
    var c, rs := Candidate(eps[i], services, urls), Candidates(eps[..i], services, urls);
    if c == [] { assert rs + c == rs; } else { PutAllSnoc(rs, c[0], FullKey); }
  }

  lemma {:induction false} PutAllSnoc(rs: seq<Route>, r: Route, key: Route -> Key)
    ensures PutAll(rs + [r], key) == Put(PutAll(rs, key), key, r)
  {
    assert (rs + [r])[..|rs|] == rs;
  }

  /** The inner loop of `build_routes`. */
  method AddService(table: seq<Route>, svcs: seq<CliService>, urls: Urls, i: nat, upstream: string) returns (routes: seq<Route>)
    requires i < |svcs| && upstream == urls(svcs[i].name)
    requires table == CliRoutes(svcs[..i], urls)
    ensures routes == CliRoutes(svcs[..i + 1], urls)
  {
    var s := svcs[i];
    ghost var before := CliCandidates(svcs[..i], urls);
    routes := table;
    assert before + EndpointRoutes(s.name, upstream, s.endpoints[..0]) == before;
    var j := 0;
    while j < |s.endpoints|
      invariant j <= |s.endpoints|
      invariant routes == PutAll(before + EndpointRoutes(s.name, upstream, s.endpoints[..j]), PrefixKey)
    {
      var e := s.endpoints[j];
      var route := Route(LiteralPrefix(e.path), s.name, upstream, e.auth);
      OneMoreEndpoint(s, upstream, j, before);
      routes := Put(routes, PrefixKey, route);
      j := j + 1;
    }
    assert s.endpoints[..j] == s.endpoints;
    OneMoreService(svcs, urls, i);
  }

  lemma {:induction false} OneMoreEndpoint(s: CliService, upstream: string, j: nat, before: seq<Route>)
    requires j < |s.endpoints|
    ensures var e := s.endpoints[j];
            PutAll(before + EndpointRoutes(s.name, upstream, s.endpoints[..j + 1]), PrefixKey)
            == Put(PutAll(before + EndpointRoutes(s.name, upstream, s.endpoints[..j]), PrefixKey), PrefixKey,
                   Route(LiteralPrefix(e.path), s.name, upstream, e.auth))
  {
    var e := s.endpoints[j];
    var route, rs := Route(LiteralPrefix(e.path), s.name, upstream, e.auth), EndpointRoutes(s.name, upstream, s.endpoints[..j]);
    assert s.endpoints[..j + 1][..j] == s.endpoints[..j];
    Assoc(before, rs, [route]);
    PutAllSnoc(before + rs, route, PrefixKey);
  }

  /** `build_routes`; the error is the name of a service without a URL. */
  method BuildRoutes(svcs: seq<CliService>, urls: Urls) returns (r: Result<seq<Route>, string>)
    ensures r.Ok? <==> AllKnown(svcs, urls)
    ensures r.Ok? ==> r.value == CliRoutes(svcs, urls)
    ensures r.Err? ==> exists i :: 0 <= i < |svcs| && r.error == svcs[i].name && urls(svcs[i].name) == ""
                                   && forall j :: 0 <= j < i ==> urls(svcs[j].name) != ""
  {
    var routes: seq<Route> := [];
    var i := 0;
    while i < |svcs|
      invariant i <= |svcs| && routes == CliRoutes(svcs[..i], urls)
      invariant forall j :: 0 <= j < i ==> urls(svcs[j].name) != ""
    {
      var upstream := urls(svcs[i].name);
      if upstream == "" { return Err(svcs[i].name); }
      routes := AddService(routes, svcs, urls, i, upstream);
      i := i + 1;
    }
    assert svcs[..i] == svcs;
    return Ok(routes);
  }

  lemma {:induction false} OneMoreService(svcs: seq<CliService>, urls: Urls, i: nat)
    requires i < |svcs|
    ensures CliCandidates(svcs[..i + 1], urls)
            == CliCandidates(svcs[..i], urls) + EndpointRoutes(svcs[i].name, urls(svcs[i].name), svcs[i].endpoints)
  {
    assert svcs[..i + 1][..i] == svcs[..i];
  }
}
