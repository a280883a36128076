/** The whole way of a public request: through the route table, the gateway, the backend's check
    and the tree of calls it starts there. */
module EndToEnd {
  import opened Decimals
  import opened EdgeTrust
  import opened Routing
  import opened RouteTable
  import opened SvcAuth
  import opened Wrappers
  import CallTree

  /** A mesh backend, as one request finds it: its secrets, the endpoint that serves the path, the
      parameters the path binds, the body, and what json.loads makes of an identity. */
  datatype Backend = Backend(secrets: seq<string>, node: CallTree.Node, params: seq<(string, string)>,
                             payload: CallTree.Payload, loads: Bytes -> CallTree.Json)

  function AuthData(b: Backend, identity: Option<Bytes>): Option<CallTree.Json> {
    match identity case Some(text) => Some(b.loads(text)) case None => None
  }

  function RequestAt(b: Backend, f: Forwarded, identity: Option<Bytes>, own: Draw): CallTree.Request {
    CallTree.Request(b.params, TraceOfHeaders(f.headers, own), AuthData(b, identity), b.payload)
  }

  /** What runs at the backend, or the status of the refusal: at the edge, or at the backend. */
  function Deliver(c: Crypto, gw: Gateway, req: Request, sentAt: nat, draw: Draw, b: Backend, now: int, own: Draw): Result<CallTree.Trace, nat> {
    match Handle(c, gw, req, sentAt, draw)
    case Refused(status) => Err(status)
    case Sent(f) =>
      match ResolveInbound(c, b.secrets, f.headers, b.node.requiresAuth, f.path, f.body, now)
      case Err(status) => Err(status)
      case Ok(identity) => Ok(CallTree.Serve(b.node, RequestAt(b, f, identity, own)))
  }

  /** The trace id of a request: the client's, if its header is valid, or a new one. */
  function EdgeTrace(req: Request, draw: Draw): string {
    var client := Get(req.headers, TraceParent);
    if client.Some? && CallTree.ValidTraceparent(client.value) then CallTree.TraceOf(client.value) else draw.id
  }

  /** The identities a request can have: none, or on a protected route what the auth handler made
      of its token. */
  ghost predicate EdgeIdentityOrNone(gw: Gateway, req: Request, b: Backend, auth: Option<CallTree.Identity>) {
    auth.Some? ==>
      var token := ExtractToken(req.headers, req.queryToken);
      && Pick(gw.routes, req.path).Some? && Pick(gw.routes, req.path).value.requiresAuth && gw.auth.Some? && token.Some?
      && gw.auth.value(token.value).Authenticated? && auth.value == b.loads(gw.auth.value(token.value).data)
  }

  /** The identity the backend takes over is the edge's. */
  lemma {:induction false} BackendIdentity(c: Crypto, gw: Gateway, req: Request, sentAt: nat, draw: Draw, b: Backend, now: int)
    requires Handle(c, gw, req, sentAt, draw).Sent?
    ensures var f := Handle(c, gw, req, sentAt, draw).request;
            var r := ResolveInbound(c, b.secrets, f.headers, b.node.requiresAuth, f.path, f.body, now);
            r.Ok? && r.value.Some? ==> r.value == EdgeIdentity(gw, Pick(gw.routes, req.path).value, req).value
  {
    var identity, date := EdgeIdentity(gw, Pick(gw.routes, req.path).value, req).value, AsBytes(Decimal(sentAt));
    var signature := Sign(c, gw.secret.value, date, GATEWAY, req.path, req.body, SignedIdentity(identity));
    OwnHeadersRead(gw, date, signature, TraceOfHeaders(req.headers, draw), identity, req.headers);
  }

  /** From the edge to the leaves: whatever the client sends, every handler that a public request
      starts, in any tree of calls, carries the trace id the edge gave the request, and acts for
      the caller the edge authenticated, or for nobody; given that no path parameter and no HTTP
      call to an endpoint without authentication uses the name auth. */
  lemma {:induction false} EdgeToLeaf(c: Crypto, gw: Gateway, req: Request, sentAt: nat, draw: Draw, b: Backend, now: int, own: Draw)
    requires Deliver(c, gw, req, sentAt, draw, b, now, own).Ok?
    requires CallTree.AuthParam(b.params).None? && CallTree.EndpointHasNone(b.node.text)
    ensures var visits := Deliver(c, gw, req, sentAt, draw, b, now, own).value.visits;
            forall k :: 0 <= k < |visits| ==>
              && CallTree.ValidTraceparent(visits[k].ctx.traceparent)
              && CallTree.TraceOf(visits[k].ctx.traceparent) == EdgeTrace(req, draw)
              && EdgeIdentityOrNone(gw, req, b, visits[k].ctx.auth)
  {
    var f := Handle(c, gw, req, sentAt, draw).request;
    var identity := ResolveInbound(c, b.secrets, f.headers, b.node.requiresAuth, f.path, f.body, now).value;
    var at := RequestAt(b, f, identity, own);
    BackendIdentity(c, gw, req, sentAt, draw, b, now);
    TraceGoesOn(c, gw, req, sentAt, draw, own);
    CallTree.TraceAndIdentity(b.node, at);
    CallTree.NoAuthParameterNoSurprise(b.node, at);
    assert EdgeIdentityOrNone(gw, req, b, CallTree.IdentityOf(at));
    var visits := CallTree.Serve(b.node, at).visits;
    forall k | 0 <= k < |visits|
      ensures CallTree.Sees(CallTree.Ctx(at.traceparent, CallTree.IdentityOf(at)), visits[k]) && EdgeIdentityOrNone(gw, req, b, visits[k].ctx.auth)
    {
      assert CallTree.RootOrNone(CallTree.IdentityOf(at), visits[k].ctx.auth);
    }
  }

  /** A gateway on the table of an application. */
  predicate Fronts(gw: Gateway, eps: seq<Endpoint>, services: seq<Service>, urls: Urls) {
    && gw.routes == StableSort(GatewayRoutes(eps, services, urls)) && gw.auth.Some? && gw.secret.Some?
  }

  /** A protected endpoint, from outside: on a path that is routed to it by its own route, a request
      reaches the service that has the endpoint if and only if the auth handler accepts its token;
      and then the endpoint runs, as the caller the auth handler returned. */
  lemma {:induction false} ProtectedEndpointRuns(eps: seq<Endpoint>, services: seq<Service>, urls: Urls, i: nat, segs: seq<string>, vals: seq<string>,
    c: Crypto, gw: Gateway, req: Request, sentAt: nat, draw: Draw, b: Backend, now: int, own: Draw)
    requires i < |eps| && eps[i].auth && eps[i].path == PathOf(segs) && Routable(eps[i], services, urls)
    requires Clean(segs) && Clean(vals) && Fits(segs, vals) && WildcardFree(segs[..StaticLen(segs)])
    requires Fronts(gw, eps, services, urls) && req.path == PathOf(vals)
    requires var r := Pick(gw.routes, req.path); r.Some? ==> OwnKey(eps[i], services, urls, FullKey(r.value))
    requires b.node.requiresAuth && gw.secret.value in b.secrets
    requires sentAt <= MAX64 && 0 <= now < MAX64 - 120 && -120 <= now - sentAt <= 120
    ensures var token := ExtractToken(req.headers, req.queryToken);
            var reply := Handle(c, gw, req, sentAt, draw);
            && (reply.Sent? <==> token.Some? && gw.auth.value(token.value).Authenticated?)
            && (reply.Sent? ==>
                  var service := ServiceOf(services, eps[i].mod);
                  var data := gw.auth.value(token.value).data;
                  && service.Some? && IsWithoutSlashes(urls(service.value), reply.request.upstream) && eps[i] in EndpointsToServe(eps, services, service.value)
                  && Deliver(c, gw, req, sentAt, draw, b, now, own)
                     == if data == "" then Err(401) else Ok(CallTree.Serve(b.node, RequestAt(b, reply.request, Some(data), own))))
  {
    EndpointIsRouted(eps, services, urls, i, segs, vals);
    var reply := Handle(c, gw, req, sentAt, draw);
    SentExactly(c, gw, req, sentAt, draw);
    if reply.Sent? {
      ForwardedVerifies(c, gw, req, sentAt, draw, b.secrets, true, now);
      TrimmedEnd(Pick(gw.routes, req.path).value.upstream);
    }
  }
}
