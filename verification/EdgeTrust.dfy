/** From the edge to the backend: the gateway's handler (runtimes/core/src/api/gateway/proxy.rs)
    and the check a mesh backend makes of what arrives (`resolve_inbound_auth` in
    runtimes/core/src/api/server.rs). */
module EdgeTrust {
  import opened Decimals
  import opened Routing
  import opened SvcAuth
  import opened Wrappers
  import CallTree
  import RouteTable
  import Text

  // ---------------------------------------------------------------- headers

  /** Header names, which arrive in lower case: the ones the code names, the other
      `x-vignemale-` ones, the hop-by-hop ones, and the rest. */
  datatype Name = XDate | XCaller | XSignature | XAuthData | XOther(suffix: string)
                | TraceParent | XAuthToken | Authorization | HopByHop(text: string) | Other(text: string)

  predicate IsVignemale(n: Name) { n.XDate? || n.XCaller? || n.XSignature? || n.XAuthData? || n.XOther? }

  type Headers = seq<(Name, Bytes)>

  /** HeaderMap::get: the first value of the name. */
  function Get(headers: Headers, n: Name): Option<Bytes> {
    if headers == [] then None
    else if headers[0].0 == n then Some(headers[0].1)
    else Get(headers[1..], n)
  }

  function GetOrEmpty(headers: Headers, n: Name): Bytes {
    var v := Get(headers, n);
    if v.Some? then v.value else ""
  }

  lemma {:induction false} GetConcat(a: Headers, b: Headers, n: Name)
    ensures Get(a + b, n) == if Get(a, n).Some? then Get(a, n) else Get(b, n)
  {
    if a == [] {
      assert a + b == b;
    } else {
      assert (a + b)[1..] == a[1..] + b && (a + b)[0] == a[0];
      GetConcat(a[1..], b, n);
    }
  }

  lemma {:induction false} GetCons(h: (Name, Bytes), rest: Headers, n: Name)
    ensures Get([h] + rest, n) == if h.0 == n then Some(h.1) else Get(rest, n)
  {
    assert ([h] + rest)[1..] == rest;
  }

  // ---------------------------------------------------------------- the edge

  datatype AuthOutcome = Authenticated(data: Bytes) | Denied(status: nat)

  /** A request at the gateway; `queryToken` is the first `token=` of the query, decoded. */
  datatype Request = Request(httpMethod: string, path: string, query: Option<string>, headers: Headers, queryToken: Option<Bytes>, body: string)

  /** The gateway's state: routes (sorted), the auth handler, the secret, the token for
      private containers. */
  datatype Gateway = Gateway(routes: seq<Route>, auth: Option<Bytes -> AuthOutcome>, secret: Option<string>, containerToken: Option<Bytes>)

  /** extract_token: `Authorization: Bearer …` or its raw value, else `?token=`. */
  function ExtractToken(headers: Headers, queryToken: Option<Bytes>): Option<Bytes> {
    var raw := Get(headers, Authorization);
    var token := if raw.None? then ""
                 else if "Bearer " <= raw.value || "bearer " <= raw.value then raw.value[7..] else raw.value;
    if token != "" then Some(token)
    else if queryToken.Some? && queryToken.value != "" then queryToken
    else None
  }

  /** run_auth; the error is the status of the reply. */
  function RunAuth(auth: Option<Bytes -> AuthOutcome>, headers: Headers, queryToken: Option<Bytes>): Result<Option<Bytes>, nat> {
    if auth.None? then Err(500)
    else
      var token := ExtractToken(headers, queryToken);
      if token.None? then Err(401)
      else
        match auth.value(token.value)
        case Authenticated(data) => Ok(Some(data))
        case Denied(status) => Err(status)
  }

  /** What the edge finds out about the caller of this request. */
  function EdgeIdentity(gw: Gateway, route: Route, req: Request): Result<Option<Bytes>, nat> {
    if route.requiresAuth then RunAuth(gw.auth, req.headers, req.queryToken) else Ok(None)
  }

  predicate Drops(n: Name) { n.HopByHop? || IsVignemale(n) || n.TraceParent? }

  /** Client headers that go through. */
  function Kept(headers: Headers): Headers {
    if headers == [] then []
    else if Drops(headers[0].0) then Kept(headers[1..])
    else [headers[0]] + Kept(headers[1..])
  }

  /** What is sent.  The URL is the upstream without slashes at its end, the path and the query. */
  datatype Forwarded = Forwarded(httpMethod: string, upstream: string, path: string, query: Option<string>, headers: Headers, body: string)

  datatype Reply = Refused(status: nat) | Sent(request: Forwarded)

  const GATEWAY: Bytes := "gateway"

  /** Traceparents and decimal dates are bytes. */
  function AsBytes(s: string): Bytes { seq(|s|, i requires 0 <= i < |s| => if s[i] as int < 256 then s[i] else '?') }

  function OwnHeaders(gw: Gateway, date: Bytes, signature: Bytes, traceparent: Bytes, identity: Option<Bytes>): Headers {
    [(XDate, date), (XCaller, GATEWAY), (XSignature, signature), (TraceParent, traceparent)]
    + Optional(XAuthData, identity) + Optional(XAuthToken, gw.containerToken)
  }

  /** What uuid gives for a new trace. */
  datatype Draw = Draw(id: CallTree.NewId, span: CallTree.Hex)

  /** trace_context of a request's headers. */
  function TraceOfHeaders(headers: Headers, draw: Draw): Bytes {
    AsBytes(CallTree.TraceContext(Get(headers, TraceParent), draw.id, draw.span))
  }

  /** `handle`, up to sending: `now` is the clock. */
  function Handle(c: Crypto, gw: Gateway, req: Request, now: nat, draw: Draw): Reply {
    var route := Pick(gw.routes, req.path);
    if route.None? then Refused(404)
    else
      var identity := EdgeIdentity(gw, route.value, req);
      if identity.Err? then Refused(identity.error)
      else if gw.secret.None? then Refused(500)
      else
        var date := AsBytes(Decimal(now));
        var auth := if identity.value.Some? then identity.value.value else "";
        var signature := Sign(c, gw.secret.value, date, GATEWAY, req.path, req.body, auth);
        Sent(Forwarded(req.httpMethod, RouteTable.RTrimSlash(route.value.upstream), req.path, req.query,
                       OwnHeaders(gw, date, signature, TraceOfHeaders(req.headers, draw), identity.value) + Kept(req.headers), req.body))
  }

  // ---------------------------------------------------------------- the backend

  /** resolve_inbound_auth on a mesh backend: the path is the one that arrives. */
  function ResolveInbound(c: Crypto, secrets: seq<string>, headers: Headers, requiresAuth: bool, path: string, body: string, now: int): Result<Option<Bytes>, nat> {
    var signature, auth := GetOrEmpty(headers, XSignature), GetOrEmpty(headers, XAuthData);
    if signature == "" || secrets == [] then Err(401)
    else if Verdict(c, secrets, GetOrEmpty(headers, XDate), GetOrEmpty(headers, XCaller), path, body, auth, signature, now).Err? then Err(401)
    else if requiresAuth && auth == "" then Err(401)
    else Ok(if auth == "" then None else Some(auth))
  }

  // ---------------------------------------------------------------- lemmas

  lemma {:induction false} KeptNames(headers: Headers, n: Name)
    ensures Get(Kept(headers), n) == if Drops(n) then None else Get(headers, n)
  {
    if headers != [] {
      KeptNames(headers[1..], n);
      GetCons(headers[0], Kept(headers[1..]), n);
    }
  }

  function Optional(n: Name, v: Option<Bytes>): Headers { if v.Some? then [(n, v.value)] else [] }

  lemma {:induction false} GetOptional(n: Name, v: Option<Bytes>, asked: Name)
    ensures Get(Optional(n, v), asked) == if asked == n then v else None
  {
    if v.Some? {
      assert Optional(n, v) == [(n, v.value)] + [];
      GetCons((n, v.value), [], asked);
    }
  }

  /** Whatever the client sent, the backend reads the gateway's own date, caller, signature,
      traceparent and identity. */
  lemma {:induction false} OwnHeadersRead(gw: Gateway, date: Bytes, signature: Bytes, traceparent: Bytes, identity: Option<Bytes>, client: Headers)
    ensures var h := OwnHeaders(gw, date, signature, traceparent, identity) + Kept(client);
            && Get(h, XDate) == Some(date) && Get(h, XCaller) == Some(GATEWAY) && Get(h, XSignature) == Some(signature)
            && Get(h, TraceParent) == Some(traceparent) && Get(h, XAuthData) == identity
  {
    var first: Headers := [(XDate, date), (XCaller, GATEWAY), (XSignature, signature), (TraceParent, traceparent)];
    var auth, token := Optional(XAuthData, identity), Optional(XAuthToken, gw.containerToken);
    var own := OwnHeaders(gw, date, signature, traceparent, identity);
    assert own == (first + auth) + token;
    FirstFour(date, signature, traceparent);
    forall n: Name | n in {XDate, XCaller, XSignature, TraceParent, XAuthData}
      ensures Get(own + Kept(client), n) == if Get(first, n).Some? then Get(first, n) else if n.XAuthData? then identity else None
    {
      GetConcat(first, auth, n);
      GetConcat(first + auth, token, n);
      GetConcat(own, Kept(client), n);
      GetOptional(XAuthData, identity, n);
      GetOptional(XAuthToken, gw.containerToken, n);
      KeptNames(client, n);
    }
  }

  lemma {:induction false} FirstFour(date: Bytes, signature: Bytes, traceparent: Bytes)
    ensures var first: Headers := [(XDate, date), (XCaller, GATEWAY), (XSignature, signature), (TraceParent, traceparent)];
            && Get(first, XDate) == Some(date) && Get(first, XCaller) == Some(GATEWAY) && Get(first, XSignature) == Some(signature)
            && Get(first, TraceParent) == Some(traceparent) && Get(first, XAuthData) == None
  {
    var f: Headers := [(TraceParent, traceparent)];
    var e: Headers := [(XSignature, signature)] + f;
    var d: Headers := [(XCaller, GATEWAY)] + e;
    var first: Headers := [(XDate, date), (XCaller, GATEWAY), (XSignature, signature), (TraceParent, traceparent)];
    assert first == [(XDate, date)] + d && f == f + [];
    forall n ensures Get(first, n) == if n.XDate? then Some(date) else if n.XCaller? then Some(GATEWAY)
                                      else if n.XSignature? then Some(signature) else if n.TraceParent? then Some(traceparent) else None
    {
      GetCons((XDate, date), d, n);
      GetCons((XCaller, GATEWAY), e, n);
      GetCons((XSignature, signature), f, n);
      GetCons((TraceParent, traceparent), [], n);
    }
  }

  /** A client's bearer token reaches the auth handler as it is, with either spelling of the
      scheme or without one, and whatever the query says. */
  lemma {:induction false} BearerTokenIsRead(token: Bytes, headers: Headers, queryToken: Option<Bytes>)
    requires token != "" && !("Bearer " <= token) && !("bearer " <= token)
    ensures Get(headers, Authorization) in {Some("Bearer " + token), Some("bearer " + token), Some(token)}
            ==> ExtractToken(headers, queryToken) == Some(token)
    ensures Get(headers, Authorization) in {None, Some(""), Some("Bearer "), Some("bearer ")}
            ==> ExtractToken(headers, queryToken) == if queryToken == Some("") then None else queryToken
  {
    assert ("Bearer " + token)[7..] == token && ("bearer " + token)[7..] == token;
    assert "Bearer "[7..] == "" && "bearer "[7..] == "";
  }

  /** The edge lets a request through exactly when a route matches, the gateway has a secret,
      and, on a protected route, the auth handler accepts the caller's token. */
  lemma {:induction false} SentExactly(c: Crypto, gw: Gateway, req: Request, now: nat, draw: Draw)
    ensures Handle(c, gw, req, now, draw).Sent? <==>
            && Pick(gw.routes, req.path).Some? && gw.secret.Some?
            && (Pick(gw.routes, req.path).value.requiresAuth ==>
                  && gw.auth.Some? && ExtractToken(req.headers, req.queryToken).Some?
                  && gw.auth.value(ExtractToken(req.headers, req.queryToken).value).Authenticated?)
  {}

  lemma {:induction false} DateBytes(now: nat)
    ensures AsBytes(Decimal(now)) == Decimal(now)
  {
    DecimalRoundTrip(now);
  }

  /** The identity the edge found, as the text that is signed. */
  function SignedIdentity(identity: Option<Bytes>): Bytes { if identity.Some? then identity.value else "" }

  /** Every request the gateway forwards is verified by a mesh backend that accepts the
      gateway's secret, within 120 seconds, if the path arrives as it was signed; and the
      identity the backend then uses is what the edge's auth handler returned, or none, no
      matter which headers the client sent. */
  lemma {:induction false} ForwardedVerifies(c: Crypto, gw: Gateway, req: Request, sentAt: nat, draw: Draw,
    secrets: seq<string>, requiresAuth: bool, now: int)
    requires Handle(c, gw, req, sentAt, draw).Sent?
    requires gw.secret.value in secrets && sentAt <= MAX64 && 0 <= now < MAX64 - 120 && -120 <= now - sentAt <= 120
    ensures var f := Handle(c, gw, req, sentAt, draw).request;
            var auth := SignedIdentity(EdgeIdentity(gw, Pick(gw.routes, req.path).value, req).value);
            ResolveInbound(c, secrets, f.headers, requiresAuth, req.path, f.body, now)
            == if requiresAuth && auth == "" then Err(401) else Ok(if auth == "" then None else Some(auth))
  {
    var identity := EdgeIdentity(gw, Pick(gw.routes, req.path).value, req).value;
    var auth, date := SignedIdentity(identity), AsBytes(Decimal(sentAt));
    DateBytes(sentAt);
    DateReadsBack(sentAt);
    ToleranceIs120(now, sentAt);
    var signature := Sign(c, gw.secret.value, date, GATEWAY, req.path, req.body, auth);
    OwnHeadersRead(gw, date, signature, TraceOfHeaders(req.headers, draw), identity, req.headers);
    var i :| 0 <= i < |secrets| && secrets[i] == gw.secret.value;
    assert SignedBySome(c, secrets, date, GATEWAY, req.path, req.body, auth, signature);
  }

  /** Without collisions that is exact: the backend accepts the request at some path if and
      only if it accepts the gateway's secret, the date is in tolerance, the path is the one
      the gateway signed (an upstream with a base path changes it), and the identity is not
      missing where one is required. */
  lemma {:induction false} ForwardedVerifiesExactly(c: Crypto, gw: Gateway, req: Request, sentAt: nat, draw: Draw,
    secrets: seq<string>, requiresAuth: bool, path: string, now: int)
    requires Handle(c, gw, req, sentAt, draw).Sent? && sentAt <= MAX64
    requires CollisionFree(c)
    ensures var f := Handle(c, gw, req, sentAt, draw).request;
            var auth := SignedIdentity(EdgeIdentity(gw, Pick(gw.routes, req.path).value, req).value);
            ResolveInbound(c, secrets, f.headers, requiresAuth, path, f.body, now).Ok?
            <==> gw.secret.value in secrets && InTolerance(now, sentAt) && path == req.path && !(requiresAuth && auth == "")
  {
    var identity := EdgeIdentity(gw, Pick(gw.routes, req.path).value, req).value;
    var auth, date := SignedIdentity(identity), AsBytes(Decimal(sentAt));
    DateBytes(sentAt);
    DateReadsBack(sentAt);
    var signature := Sign(c, gw.secret.value, date, GATEWAY, req.path, req.body, auth);
    OwnHeadersRead(gw, date, signature, TraceOfHeaders(req.headers, draw), identity, req.headers);
    assert '\n' !in GATEWAY;
    VerifiesExactlyWhatWasSigned(c, gw.secret.value, date, GATEWAY, req.path, req.body, auth, secrets, date, GATEWAY, path, req.body, auth, now);
  }

  /** For an upstream URL with a base path, which comes before the path on arrival, no request
      verifies; without one, the path arrives as signed. */
  lemma {:induction false} UpstreamBasePath(c: Crypto, gw: Gateway, req: Request, sentAt: nat, draw: Draw,
    secrets: seq<string>, requiresAuth: bool, base: string, now: int)
    requires Handle(c, gw, req, sentAt, draw).Sent? && sentAt <= MAX64 && CollisionFree(c)
    ensures var f := Handle(c, gw, req, sentAt, draw).request;
            ResolveInbound(c, secrets, f.headers, requiresAuth, base + req.path, f.body, now).Ok? ==> base == ""
  {
    ForwardedVerifiesExactly(c, gw, req, sentAt, draw, secrets, requiresAuth, base + req.path, now);
    assert |base + req.path| == |base| + |req.path|;
  }

  /** All values of a header, in order. */
  function Values(headers: Headers, n: Name): seq<Bytes> {
    if headers == [] then []
    else (if headers[0].0 == n then [headers[0].1] else []) + Values(headers[1..], n)
  }

  lemma {:induction false} ValuesConcat(a: Headers, b: Headers, n: Name)
    ensures Values(a + b, n) == Values(a, n) + Values(b, n)
  {
    if a == [] {
      assert a + b == b;
    } else {
      assert (a + b)[1..] == a[1..] + b && (a + b)[0] == a[0];
      ValuesConcat(a[1..], b, n);
      Text.Assoc(if a[0].0 == n then [a[0].1] else [], Values(a[1..], n), Values(b, n));
    }
  }

  lemma {:induction false} ValuesKept(headers: Headers, n: Name)
    ensures Values(Kept(headers), n) == if Drops(n) then [] else Values(headers, n)
  {
    if headers != [] {
      ValuesKept(headers[1..], n);
      if !Drops(headers[0].0) { ValuesConcat([headers[0]], Kept(headers[1..]), n); }
    }
  }

  /** HeaderMap::get is the first value. */
  lemma {:induction false} GetIsFirst(headers: Headers, n: Name)
    ensures Get(headers, n) == if Values(headers, n) == [] then None else Some(Values(headers, n)[0])
  {
    if headers != [] { GetIsFirst(headers[1..], n); }
  }

  lemma {:induction false} ValuesCons(h: (Name, Bytes), rest: Headers, n: Name)
    ensures Values([h] + rest, n) == (if h.0 == n then [h.1] else []) + Values(rest, n)
  {
    assert ([h] + rest)[1..] == rest;
  }

  lemma {:induction false} ValuesOptional(name: Name, v: Option<Bytes>, n: Name)
    ensures Values(Optional(name, v), n) == if n == name && v.Some? then [v.value] else []
  {
    if v.Some? {
      ValuesCons((name, v.value), [], n);
      assert Optional(name, v) == [(name, v.value)] + [];
    }
  }

  lemma {:induction false} PairValues(x: (Name, Bytes), y: (Name, Bytes), n: Name)
    ensures Values([x, y], n) == (if x.0 == n then [x.1] else []) + (if y.0 == n then [y.1] else [])
  {
    ValuesCons(y, [], n);
    ValuesCons(x, [y], n);
    assert [y] == [y] + [] && [x, y] == [x] + [y];
  }

  lemma {:induction false} FourValues(date: Bytes, caller: Bytes, signature: Bytes, traceparent: Bytes, n: Name)
    ensures var four: Headers := [(XDate, date), (XCaller, caller), (XSignature, signature), (TraceParent, traceparent)];
            Values(four, n) == if n.XDate? then [date] else if n.XCaller? then [caller]
                               else if n.XSignature? then [signature] else if n.TraceParent? then [traceparent] else []
  {
    var first: Headers := [(XDate, date), (XCaller, caller)];
    var second: Headers := [(XSignature, signature), (TraceParent, traceparent)];
    PairValues((XDate, date), (XCaller, caller), n);
    PairValues((XSignature, signature), (TraceParent, traceparent), n);
    ValuesConcat(first, second, n);
    assert first + second == [(XDate, date), (XCaller, caller), (XSignature, signature), (TraceParent, traceparent)];
  }

  lemma {:induction false} OwnValues(gw: Gateway, date: Bytes, signature: Bytes, traceparent: Bytes, identity: Option<Bytes>, n: Name)
    ensures var vs := Values(OwnHeaders(gw, date, signature, traceparent, identity), n);
            match n
            case XDate => vs == [date]
            case XCaller => vs == ["gateway"]
            case XSignature => vs == [signature]
            case TraceParent => vs == [traceparent]
            case XAuthData => vs == if identity.Some? then [identity.value] else []
            case XAuthToken => vs == if gw.containerToken.Some? then [gw.containerToken.value] else []
            case _ => vs == []
  {
    var four: Headers := [(XDate, date), (XCaller, GATEWAY), (XSignature, signature), (TraceParent, traceparent)];
    var auth, token := Optional(XAuthData, identity), Optional(XAuthToken, gw.containerToken);
    FourValues(date, GATEWAY, signature, traceparent, n);
    ValuesOptional(XAuthData, identity, n);
    ValuesOptional(XAuthToken, gw.containerToken, n);
    ValuesConcat(four, auth, n);
    ValuesConcat(four + auth, token, n);
  }

  /** t is s without the slashes at its end. */
  predicate IsWithoutSlashes(s: string, t: string) {
    t <= s && (forall i :: |t| <= i < |s| ==> s[i] == '/') && (t != "" ==> t[|t| - 1] != '/')
  }

  lemma {:induction false} TrimmedEnd(s: string)
    ensures IsWithoutSlashes(s, RouteTable.RTrimSlash(s))
  {
    if s != "" && s[|s| - 1] == '/' { TrimmedEnd(s[..|s| - 1]); }
  }

  /** What the gateway sends on, header by header: the client's other headers with all their values
      in order (among them Authorization), on public routes too; X-Auth-Token behind the
      gateway's own; no hop-by-hop header; and of the rest the gateway's own values and no other.
      Method, path, query and body are the request's, the upstream is the picked route's. */
  lemma {:induction false} ForwardsExactly(c: Crypto, gw: Gateway, req: Request, now: nat, draw: Draw, n: Name)
    requires Handle(c, gw, req, now, draw).Sent?
    ensures var f := Handle(c, gw, req, now, draw).request;
            && f.httpMethod == req.httpMethod && f.path == req.path && f.query == req.query && f.body == req.body
            && Pick(gw.routes, req.path).Some?
            && IsWithoutSlashes(Pick(gw.routes, req.path).value.upstream, f.upstream)
    ensures var vs := Values(Handle(c, gw, req, now, draw).request.headers, n);
            match n
            case Authorization => vs == Values(req.headers, n)
            case Other(_) => vs == Values(req.headers, n)
            case XAuthToken => vs == (if gw.containerToken.Some? then [gw.containerToken.value] else []) + Values(req.headers, n)
            case XAuthData =>
              var identity := EdgeIdentity(gw, Pick(gw.routes, req.path).value, req).value;
              vs == if identity.Some? then [identity.value] else []
            case XCaller => vs == ["gateway"]
            case XDate => vs == [AsBytes(Decimal(now))]
            case TraceParent => vs == [TraceOfHeaders(req.headers, draw)]
            case XSignature => |vs| == 1
            case XOther(_) => vs == []
            case HopByHop(_) => vs == []
    ensures var headers := Handle(c, gw, req, now, draw).request.headers;
            && (n.Authorization? || n.Other? ==> Get(headers, n) == Get(req.headers, n))
            && (n.XAuthToken? ==> Get(headers, n) == if gw.containerToken.Some? then gw.containerToken else Get(req.headers, n))
  {
    var identity := EdgeIdentity(gw, Pick(gw.routes, req.path).value, req).value;
    var date := AsBytes(Decimal(now));
    var signature := Sign(c, gw.secret.value, date, GATEWAY, req.path, req.body, SignedIdentity(identity));
    var own := OwnHeaders(gw, date, signature, TraceOfHeaders(req.headers, draw), identity);
    TrimmedEnd(Pick(gw.routes, req.path).value.upstream);
    assert Handle(c, gw, req, now, draw).request.headers == own + Kept(req.headers);
    ValuesConcat(own, Kept(req.headers), n);
    ValuesKept(req.headers, n);
    OwnValues(gw, date, signature, TraceOfHeaders(req.headers, draw), identity, n);
    GetIsFirst(own + Kept(req.headers), n);
    GetIsFirst(req.headers, n);
  }

  /** A request that is not sent on gets the status of the first check that fails: 404 without a
      matching route; on a protected route 500 without an auth handler, 401 without a token, or
      what the auth handler says; and 500 without a secret. */
  lemma {:induction false} RefusedExactly(c: Crypto, gw: Gateway, req: Request, now: nat, draw: Draw)
    requires Handle(c, gw, req, now, draw).Refused?
    ensures var status, route := Handle(c, gw, req, now, draw).status, Pick(gw.routes, req.path);
            if route.None? then status == 404
            else if route.value.requiresAuth && gw.auth.None? then status == 500
            else if route.value.requiresAuth && ExtractToken(req.headers, req.queryToken).None? then status == 401
            else if route.value.requiresAuth && gw.auth.value(ExtractToken(req.headers, req.queryToken).value).Denied?
            then status == gw.auth.value(ExtractToken(req.headers, req.queryToken).value).status
            else gw.secret.None? && status == 500
  {}

  /** A mesh backend refuses with 401 only. */
  lemma {:induction false} BackendRefuses(c: Crypto, secrets: seq<string>, headers: Headers, requiresAuth: bool, path: string, body: string, now: int)
    ensures var r := ResolveInbound(c, secrets, headers, requiresAuth, path, body, now); r.Err? ==> r.error == 401
  {}

  lemma {:induction false} TraceIsBytes(headers: Headers, draw: Draw)
    ensures TraceOfHeaders(headers, draw) == CallTree.TraceContext(Get(headers, TraceParent), draw.id, draw.span)
  {
    var tp := CallTree.Format(draw.id, draw.span);
    assert forall i :: 0 <= i < |draw.id| ==> draw.id[i] as int < 256;
    assert forall i :: 0 <= i < |draw.span| ==> draw.span[i] as int < 256;
    assert forall i :: 0 <= i < |tp| ==> tp[i] as int < 256;
  }

  /** The trace goes on, from the client's valid traceparent or a new one: the backend uses the
      gateway's, whatever ids it draws itself. */
  lemma {:induction false} TraceGoesOn(c: Crypto, gw: Gateway, req: Request, sentAt: nat, draw: Draw, own: Draw)
    requires Handle(c, gw, req, sentAt, draw).Sent?
    ensures var client := Get(req.headers, TraceParent);
            var tp := TraceOfHeaders(Handle(c, gw, req, sentAt, draw).request.headers, own);
            && CallTree.ValidTraceparent(tp)
            && (if client.Some? && CallTree.ValidTraceparent(client.value) then tp == client.value else CallTree.TraceOf(tp) == draw.id)
  {
    var identity := EdgeIdentity(gw, Pick(gw.routes, req.path).value, req).value;
    var date := AsBytes(Decimal(sentAt));
    TraceIsBytes(req.headers, draw);
    CallTree.RequestHasTrace(Get(req.headers, TraceParent), draw.id, draw.span);
    OwnHeadersRead(gw, date, Sign(c, gw.secret.value, date, GATEWAY, req.path, req.body, SignedIdentity(identity)),
                   TraceOfHeaders(req.headers, draw), identity, req.headers);
    TraceIsBytes(Handle(c, gw, req, sentAt, draw).request.headers, own);
  }

  /** Whatever arrives, from whomever: what a mesh backend accepts is signed under an accepted
      secret for this very path, body and identity, and an endpoint that requires
      authentication never starts without an identity. */
  lemma {:induction false} AcceptedIsSigned(c: Crypto, secrets: seq<string>, headers: Headers, requiresAuth: bool, path: string, body: string, now: int)
    requires ResolveInbound(c, secrets, headers, requiresAuth, path, body, now).Ok?
    ensures var identity := ResolveInbound(c, secrets, headers, requiresAuth, path, body, now).value;
            && SignedBySome(c, secrets, GetOrEmpty(headers, XDate), GetOrEmpty(headers, XCaller), path, body, SignedIdentity(identity), GetOrEmpty(headers, XSignature))
            && (requiresAuth ==> identity.Some?)
            && (identity.Some? ==> identity.value != "")
  {}

  /** Without collisions, a signature of the gateway is good for its own request only: whoever
      sends it again, a backend accepts it for the same path and body only, while the gateway's
      date is in tolerance, and with the identity the edge found. */
  lemma {:induction false} SignatureIsForOneRequest(c: Crypto, gw: Gateway, req: Request, sentAt: nat, draw: Draw,
    secrets: seq<string>, headers: Headers, requiresAuth: bool, path: string, body: string, now: int)
    requires Handle(c, gw, req, sentAt, draw).Sent? && sentAt <= MAX64 && CollisionFree(c)
    requires '\n' !in GetOrEmpty(headers, XDate) && '\n' !in GetOrEmpty(headers, XCaller)
    requires Get(headers, XSignature) == Get(Handle(c, gw, req, sentAt, draw).request.headers, XSignature)
    requires ResolveInbound(c, secrets, headers, requiresAuth, path, body, now).Ok?
    ensures path == req.path && body == req.body && InTolerance(now, sentAt) && gw.secret.value in secrets
    ensures SignedIdentity(ResolveInbound(c, secrets, headers, requiresAuth, path, body, now).value)
            == SignedIdentity(EdgeIdentity(gw, Pick(gw.routes, req.path).value, req).value)
  {
    var identity := EdgeIdentity(gw, Pick(gw.routes, req.path).value, req).value;
    var auth, date := SignedIdentity(identity), AsBytes(Decimal(sentAt));
    DateBytes(sentAt);
    DateReadsBack(sentAt);
    var signature := Sign(c, gw.secret.value, date, GATEWAY, req.path, req.body, auth);
    OwnHeadersRead(gw, date, signature, TraceOfHeaders(req.headers, draw), identity, req.headers);
    AcceptedIsSigned(c, secrets, headers, requiresAuth, path, body, now);
    assert '\n' !in GATEWAY;
    VerifiesExactlyWhatWasSigned(c, gw.secret.value, date, GATEWAY, req.path, req.body, auth, secrets,
                                 GetOrEmpty(headers, XDate), GetOrEmpty(headers, XCaller), path, body, GetOrEmpty(headers, XAuthData), now);
  }

  // ---------------------------------------------------------------- the code

  /** `handle`: `authData` is set by the authentication, then the headers are added one by
      one, the client's after the gateway's own. */
  method HandleRequest(c: Crypto, gw: Gateway, req: Request, now: nat, draw: Draw) returns (reply: Reply)
    ensures reply == Handle(c, gw, req, now, draw)
  {
    var traceparent := TraceOfHeaders(req.headers, draw);
    var route := Pick(gw.routes, req.path);
    if route.None? { return Refused(404); }
    var authData: Option<Bytes> := None;
    if route.value.requiresAuth {
      var outcome := RunAuth(gw.auth, req.headers, req.queryToken);
      if outcome.Err? { return Refused(outcome.error); }
      authData := outcome.value;
    }
    if gw.secret.None? { return Refused(500); }
    var date := AsBytes(Decimal(now));
    var signature := Sign(c, gw.secret.value, date, GATEWAY, req.path, req.body, SignedIdentity(authData));
    var headers := AddHeaders(gw, date, signature, traceparent, authData, req.headers);
    var upstream := route.value.upstream;
    while upstream != "" && upstream[|upstream| - 1] == '/'
      invariant RouteTable.RTrimSlash(upstream) == RouteTable.RTrimSlash(route.value.upstream)
      decreases |upstream|
    {
      upstream := upstream[..|upstream| - 1];
    }
    return Sent(Forwarded(req.httpMethod, upstream, req.path, req.query, headers, req.body));
  }

  method AddHeaders(gw: Gateway, date: Bytes, signature: Bytes, traceparent: Bytes, authData: Option<Bytes>, client: Headers) returns (headers: Headers)
    ensures headers == OwnHeaders(gw, date, signature, traceparent, authData) + Kept(client)
  {
    headers := [(XDate, date), (XCaller, GATEWAY), (XSignature, signature), (TraceParent, traceparent)];
    if authData.Some? { headers := headers + [(XAuthData, authData.value)]; }
    if gw.containerToken.Some? { headers := headers + [(XAuthToken, gw.containerToken.value)]; }
    ghost var own := headers;
    assert own == OwnHeaders(gw, date, signature, traceparent, authData);
    ghost var rest := Kept(client);
    var i := 0;
    while i < |client|
      invariant i <= |client| && rest == Kept(client[i..]) && headers + rest == own + Kept(client)
    {
      var h := client[i];
      assert client[i..][1..] == client[i + 1..];
      rest := Kept(client[i + 1..]);
      if !h.0.HopByHop? && !IsVignemale(h.0) && !h.0.TraceParent? {
        Text.Assoc(headers, [h], rest);
        headers := headers + [h];
      }
      i := i + 1;
    }
    assert headers + rest == headers;
  }
}
