/** Trees of service-to-service calls: the `api` wrapper and its context variable
    (runtimes/python/python/vignemale/api.py), `call` (call.py) and the internal call route
    of the core (runtimes/core/src/api/server.rs). */
module CallTree {
  import opened Text
  import opened Wrappers

  /** A JSON value, as far as it matters here.  It passes json.dumps and json.loads unchanged. */
  datatype Json = Null | Text(text: string) | Other(json: string)

  /** What a handler sees as `auth`, when it is not None. */
  type Identity = j: Json | !j.Null? witness Text("")

  predicate IsHex(s: string) {
    forall i :: 0 <= i < |s| ==> '0' <= s[i] <= '9' || 'a' <= s[i] <= 'f'
  }

  /** What token_hex and uuid give: hexadecimal digits. */
  type Hex = s: string | IsHex(s) witness ""
  type NewId = s: string | |s| == 32 && IsHex(s) witness "00000000000000000000000000000000"

  /** What is taken for a trace id: a client may have sent it. */
  type TraceId = s: string | |s| == 32 && '-' !in s witness "00000000000000000000000000000000"

  datatype Ctx = Ctx(traceparent: string, auth: Option<Identity>)

  // ---------------------------------------------------------------- W3C trace context

  /** Both sides look at the second of at least four dash-separated fields. */
  predicate ValidTraceparent(tp: string) {
    var parts := Split(tp, '-');
    |parts| >= 4 && |parts[1]| == 32
  }

  function TraceOf(tp: string): (id: TraceId)
    requires ValidTraceparent(tp)
  {
    SplitParts(tp, '-');
    Split(tp, '-')[1]
  }

  function Format(id: string, span: string): string { "00-" + id + "-" + span + "-01" }

  /** The core's trace_context: a valid header is reused, otherwise a new one is made. */
  function TraceContext(header: Option<string>, newId: NewId, newSpan: Hex): string {
    if header.Some? && ValidTraceparent(header.value) then header.value else Format(newId, newSpan)
  }

  /** _child_traceparent: the incoming trace id, or a random one, with a new span. */
  function ChildTraceparent(incoming: string, random: NewId, span: Hex): string {
    Format(if ValidTraceparent(incoming) then TraceOf(incoming) else random, span)
  }

  /** What is formatted reads back. */
  lemma {:induction false} FormatReadsBack(id: TraceId, span: Hex)
    ensures ValidTraceparent(Format(id, span)) && TraceOf(Format(id, span)) == id
    ensures Format(id, span) == Join(["00", id, span, "01"], "-")
  {
    var parts := ["00", id, span, "01"];
    assert forall i :: 0 <= i < |parts| ==> '-' !in parts[i];
    SplitJoin(parts, '-');
    JoinFour("00", id, span, "01");
    assert "00" + "-" == "00-" && "-" + "01" == "-01";
    Assoc("00-" + id + "-" + span, "-", "01");
  }

  /** A header of at least four fields is valid exactly when the second one has 32 characters, which
      are then the trace id; one of three fields never is. */
  lemma {:induction false} TraceparentFields(version: string, id: string, span: string, rest: string)
    requires '-' !in version && '-' !in id && '-' !in span
    ensures var tp := version + "-" + (id + "-" + (span + "-" + rest));
            (ValidTraceparent(tp) <==> |id| == 32) && (ValidTraceparent(tp) ==> TraceOf(tp) == id)
    ensures !ValidTraceparent(version + "-" + (id + "-" + span))
  {
    SplitFirst(span, '-', rest);
    SplitFirst(id, '-', span + "-" + rest);
    SplitFirst(version, '-', id + "-" + (span + "-" + rest));
    assert Split(version + "-" + (id + "-" + (span + "-" + rest)), '-') == [version] + ([id] + ([span] + Split(rest, '-')));
    SplitFirst(id, '-', span);
    SplitFirst(version, '-', id + "-" + span);
    assert Split(version + "-" + (id + "-" + span), '-') == [version] + ([id] + [span]);
  }

  lemma {:induction false} JoinFour(a: string, b: string, c: string, d: string)
    ensures Join([a, b, c, d], "-") == a + "-" + b + "-" + c + "-" + d
  {
    assert [a, b, c, d][1..] == [b, c, d] && [b, c, d][1..] == [c, d] && [c, d][1..] == [d];
    calc {
      Join([a, b, c, d], "-");
      a + "-" + Join([b, c, d], "-");
      a + "-" + (b + "-" + Join([c, d], "-"));
      a + "-" + (b + "-" + (c + "-" + d));
      a + "-" + b + "-" + c + "-" + d;
    }
  }

  // ---------------------------------------------------------------- keyword arguments

  /** An argument of a call: its value, and what str() makes of it. */
  datatype Arg = Arg(name: string, value: Json, text: string)

  datatype Kwarg = Value(json: Json) | QueryDict | HeaderDict(traceparent: string)

  type Kwargs = map<string, Kwarg>

  /** The body of a request. */
  datatype Payload = NoBody | BadJson | Body(json: Json)

  /** What the core's server hands to the binding.  `authData` is JSON text there. */
  datatype Request = Request(params: seq<(string, string)>, traceparent: string, authData: Option<Json>, payload: Payload)

  /** A dict filled in order. */
  function Filled(params: seq<(string, string)>): Kwargs {
    if params == [] then map[]
    else
      var last := params[|params| - 1];
      Filled(params[..|params| - 1])[last.0 := Value(Text(last.1))]
  }

  /** build_kwargs: the parameters first, then `query` and `headers`, `auth` if there is
      authentication data, and `body` if there is one; a body that is no JSON is an error. */
  function KwargsOf(req: Request): Option<Kwargs> {
    var base := Filled(req.params)["query" := QueryDict]["headers" := HeaderDict(req.traceparent)];
    var kwargs := if req.authData.Some? then base["auth" := Value(req.authData.value)] else base;
    match req.payload
    case NoBody => Some(kwargs)
    case BadJson => None
    case Body(json) => Some(kwargs["body" := Value(json)])
  }

  function Given(params: seq<Arg>): Kwargs {
    if params == [] then map[]
    else
      var last := params[|params| - 1];
      Given(params[..|params| - 1])[last.name := Value(last.value)]
  }

  /** _call_local: `body`, `auth`, `headers` and `query` replace arguments of these names. */
  function LocalKwargs(params: seq<Arg>, body: Json, ctx: Ctx): Kwargs {
    var base := if body.Null? then Given(params) else Given(params)["body" := Value(body)];
    base["auth" := Value(if ctx.auth.Some? then ctx.auth.value else Null)]
        ["headers" := HeaderDict(ctx.traceparent)]["query" := QueryDict]
  }

  /** _call_http: every argument goes as text. */
  function TextParams(params: seq<Arg>): (r: seq<(string, string)>)
    ensures |r| == |params| && forall i :: 0 <= i < |r| ==> r[i] == (params[i].name, params[i].text)
  {
    seq(|params|, i requires 0 <= i < |params| => (params[i].name, params[i].text))
  }

  /** The internal route: a null body is none. */
  function InnerBody(body: Json): Payload { if body.Null? then NoBody else Body(body) }

  /** No later parameter has the name of this one. */
  predicate LastOfName(params: seq<(string, Json)>, i: int) {
    0 <= i < |params| && forall j :: i < j < |params| ==> params[j].0 != params[i].0
  }

  predicate Named(params: seq<(string, Json)>, name: string) { exists i :: 0 <= i < |params| && params[i].0 == name }

  /** The arguments that a wrapper must be called with: `query` and `headers`, `auth` and `body` if
      they are given, of all other names the last parameter that has it, and nothing else. */
  ghost predicate Passes(params: seq<(string, Json)>, body: Option<Json>, auth: Option<Json>, traceparent: string, args: Kwargs) {
    && "query" in args && args["query"] == QueryDict
    && "headers" in args && args["headers"] == HeaderDict(traceparent)
    && (auth.Some? ==> "auth" in args && args["auth"] == Value(auth.value))
    && (body.Some? ==> "body" in args && args["body"] == Value(body.value))
    && (forall i :: LastOfName(params, i) && !Replaced(params[i].0, body, auth) ==>
          params[i].0 in args && args[params[i].0] == Value(params[i].1))
    && (forall name :: name in args ==> Replaced(name, body, auth) || Named(params, name))
  }

  predicate Replaced(name: string, body: Option<Json>, auth: Option<Json>) {
    name == "query" || name == "headers" || (name == "auth" && auth.Some?) || (name == "body" && body.Some?)
  }

  /** The parameters of a request are texts. */
  function AsTexts(params: seq<(string, string)>): (r: seq<(string, Json)>)
    ensures |r| == |params| && forall i :: 0 <= i < |r| ==> r[i] == (params[i].0, Text(params[i].1))
  {
    seq(|params|, i requires 0 <= i < |params| => (params[i].0, Text(params[i].1)))
  }

  /** The arguments of a call, as they are or as str() makes them. */
  function ArgsOf(params: seq<Arg>, asText: bool): (r: seq<(string, Json)>)
    ensures |r| == |params|
    ensures forall i :: 0 <= i < |r| ==> r[i] == (params[i].name, if asText then Text(params[i].text) else params[i].value)
  {
    seq(|params|, i requires 0 <= i < |params| => (params[i].name, if asText then Text(params[i].text) else params[i].value))
  }

  lemma {:induction false} FilledIs(params: seq<(string, string)>)
    ensures forall name :: name in Filled(params) <==> Named(AsTexts(params), name)
    ensures forall i :: LastOfName(AsTexts(params), i) ==>
              AsTexts(params)[i].0 in Filled(params) && Filled(params)[AsTexts(params)[i].0] == Value(AsTexts(params)[i].1)
  {
    if params != [] {
      var n := |params| - 1;
      FilledIs(params[..n]);
      assert AsTexts(params[..n]) == AsTexts(params)[..n];
      LastStep(AsTexts(params), AsTexts(params[..n]));
    }
  }

  lemma {:induction false} GivenIs(params: seq<Arg>)
    ensures forall name :: name in Given(params) <==> Named(ArgsOf(params, false), name)
    ensures forall i :: LastOfName(ArgsOf(params, false), i) ==>
              params[i].name in Given(params) && Given(params)[params[i].name] == Value(params[i].value)
  {
    if params != [] {
      var n := |params| - 1;
      GivenIs(params[..n]);
      assert ArgsOf(params[..n], false) == ArgsOf(params, false)[..n];
      LastStep(ArgsOf(params, false), ArgsOf(params[..n], false));
    }
  }

  lemma {:induction false} LastStep(params: seq<(string, Json)>, init: seq<(string, Json)>)
    requires params != [] && init == params[..|params| - 1]
    ensures var n := |params| - 1;
            && (forall name :: Named(params, name) <==> Named(init, name) || name == params[n].0)
            && (forall i :: LastOfName(params, i) <==> i == n || (LastOfName(init, i) && params[i].0 != params[n].0))
  {
    var n := |params| - 1;
    assert forall i :: 0 <= i < n ==> init[i] == params[i];
    forall i ensures LastOfName(params, i) <==> i == n || (LastOfName(init, i) && params[i].0 != params[n].0) {
      if LastOfName(params, i) && i != n { assert params[n].0 != params[i].0; }
    }
  }

  function BodyOf(payload: Payload): Option<Json> {
    match payload case Body(json) => Some(json) case _ => None
  }

  /** What the arguments hold under one name, given those of the parameters. */
  ghost predicate PassesName(base: Kwargs, body: Option<Json>, auth: Option<Json>, traceparent: string, args: Kwargs, name: string) {
    if name == "query" then name in args && args[name] == QueryDict
    else if name == "headers" then name in args && args[name] == HeaderDict(traceparent)
    else if name == "auth" && auth.Some? then name in args && args[name] == Value(auth.value)
    else if name == "body" && body.Some? then name in args && args[name] == Value(body.value)
    else (name in args <==> name in base) && (name in args ==> args[name] == base[name])
  }

  lemma {:induction false} RequestName(req: Request, name: string)
    requires KwargsOf(req).Some?
    ensures PassesName(Filled(req.params), BodyOf(req.payload), req.authData, req.traceparent, KwargsOf(req).value, name)
  {}

  lemma {:induction false} LocalName(params: seq<Arg>, body: Json, ctx: Ctx, name: string)
    ensures PassesName(Given(params), if body == Null then None else Some(body), Some(AuthArg(ctx)), ctx.traceparent,
                       LocalKwargs(params, body, ctx), name)
  {}

  /** The argument auth of a local call: None without an identity. */
  function AuthArg(ctx: Ctx): Json { match ctx.auth case Some(identity) => identity case None => Null }

  lemma {:induction false} PassesByName(base: Kwargs, params: seq<(string, Json)>, body: Option<Json>, auth: Option<Json>, traceparent: string, args: Kwargs)
    requires forall name :: PassesName(base, body, auth, traceparent, args, name)
    requires forall name :: name in base <==> Named(params, name)
    requires forall i :: LastOfName(params, i) ==> params[i].0 in base && base[params[i].0] == Value(params[i].1)
    ensures Passes(params, body, auth, traceparent, args)
  {
    assert PassesName(base, body, auth, traceparent, args, "query") && PassesName(base, body, auth, traceparent, args, "headers");
    assert PassesName(base, body, auth, traceparent, args, "auth") && PassesName(base, body, auth, traceparent, args, "body");
    forall i | LastOfName(params, i) && !Replaced(params[i].0, body, auth)
      ensures params[i].0 in args && args[params[i].0] == Value(params[i].1)
    {
      assert PassesName(base, body, auth, traceparent, args, params[i].0);
    }
    forall name | name in args ensures Replaced(name, body, auth) || Named(params, name) {
      assert PassesName(base, body, auth, traceparent, args, name);
    }
  }

  /** build_kwargs gives exactly the arguments that it must, and fails exactly for a body that is
      no JSON. */
  lemma {:induction false} RequestArguments(req: Request)
    ensures KwargsOf(req).None? <==> req.payload == BadJson
    ensures KwargsOf(req).Some? ==>
              Passes(AsTexts(req.params), BodyOf(req.payload), req.authData, req.traceparent, KwargsOf(req).value)
  {
    if KwargsOf(req).Some? {
      FilledIs(req.params);
      forall name ensures PassesName(Filled(req.params), BodyOf(req.payload), req.authData, req.traceparent, KwargsOf(req).value, name) {
        RequestName(req, name);
      }
      PassesByName(Filled(req.params), AsTexts(req.params), BodyOf(req.payload), req.authData, req.traceparent, KwargsOf(req).value);
    }
  }

  /** So does _call_local; `auth` is always given, and None without an identity. */
  lemma {:induction false} LocalArguments(params: seq<Arg>, body: Json, ctx: Ctx)
    ensures Passes(ArgsOf(params, false), if body == Null then None else Some(body),
                   Some(match ctx.auth case Some(identity) => identity case None => Null), ctx.traceparent, LocalKwargs(params, body, ctx))
  {
    var given := if body == Null then None else Some(body);
    GivenIs(params);
    forall name ensures PassesName(Given(params), given, Some(AuthArg(ctx)), ctx.traceparent, LocalKwargs(params, body, ctx), name) {
      LocalName(params, body, ctx, name);
    }
    PassesByName(Given(params), ArgsOf(params, false), given, Some(AuthArg(ctx)), ctx.traceparent, LocalKwargs(params, body, ctx));
  }

  /** What the wrapper around a handler takes down, before it drops what the handler does not
      declare. */
  function CtxOf(kwargs: Kwargs): Ctx {
    Ctx(if "headers" in kwargs && kwargs["headers"].HeaderDict? then kwargs["headers"].traceparent else "",
        if "auth" in kwargs && kwargs["auth"].Value? && !kwargs["auth"].json.Null? then Some(kwargs["auth"].json) else None)
  }

  /** The parameter named auth, if there is one. */
  function AuthParam(params: seq<(string, string)>): Option<string> {
    if params == [] then None
    else
      var last := params[|params| - 1];
      if last.0 == "auth" then Some(last.1) else AuthParam(params[..|params| - 1])
  }

  /** The identity a request gives to the handler. */
  function IdentityOf(req: Request): Option<Identity> {
    match req.authData
    case Some(data) => if data.Null? then None else Some(data)
    case None => match AuthParam(req.params) case Some(text) => Some(Text(text)) case None => None
  }

  lemma {:induction false} FilledAuth(params: seq<(string, string)>)
    ensures "auth" in Filled(params) <==> AuthParam(params).Some?
    ensures "auth" in Filled(params) ==> Filled(params)["auth"] == Value(Text(AuthParam(params).value))
  {
    if params != [] { FilledAuth(params[..|params| - 1]); }
  }

  /** A request's handler has the request's traceparent, and as its identity the
      authentication data; without any, the text of a parameter named auth, or none. */
  lemma {:induction false} RequestContext(req: Request)
    requires !req.payload.BadJson?
    ensures KwargsOf(req).Some? && CtxOf(KwargsOf(req).value) == Ctx(req.traceparent, IdentityOf(req))
  {
    FilledAuth(req.params);
  }

  /** A local callee has its caller's context, whatever the arguments are called. */
  lemma {:induction false} LocalContext(params: seq<Arg>, body: Json, ctx: Ctx)
    ensures CtxOf(LocalKwargs(params, body, ctx)) == ctx
  {}

  // ---------------------------------------------------------------- the tree

  /** How a call travels: in the process, or over HTTP with the ids drawn for it (by the
      caller, and by the callee's server, which does not need its own here). */
  datatype Hop = Local | Http(span: Hex, random: NewId, serverSpan: Hex, serverId: NewId)

  /** How a request between services fares, besides what the endpoint does: it gets through and
      back; it never gets to an endpoint (no secret, unreachable service, unknown endpoint, an
      argument that is no JSON); or its answer is lost (a time-out, a result that is no JSON).
      In the last two cases `api` says whether the caller sees an APIError. */
  datatype Wire = Through | Unsent(api: bool) | Lost(api: bool)

  /** What a handler does: it returns, it raises an APIError or something else, or it calls an
      endpoint and goes on.  How it goes on may depend on the outcome: a result as it is, a
      result that came as JSON, an APIError, another exception.  A failure it does not catch
      (None) goes through. */
  datatype Handler =
    | Return
    | Raise(api: bool)
    | Ask(call: Call, onValue: Handler, onJson: Handler, onApi: Option<Handler>, onOther: Option<Handler>)

  /** What an endpoint does with the arguments it gets: the wrapper or Python refuse them before
      the handler starts, or the handler runs. */
  datatype Endpoint = Refuse(api: bool) | Run(handler: Handler)

  /** An endpoint at work, on arguments as they are and on arguments as text. */
  datatype Node = Node(name: string, requiresAuth: bool, raw: Endpoint, text: Endpoint)

  /** A call.  `found`: a local call finds the endpoint, and it does not stream.  That this is the
      same in a process with all services as in one with some of them is assumed. */
  datatype Call = Call(hop: Hop, callee: Node, params: seq<Arg>, body: Json, found: bool, wire: Wire)

  datatype Step = LocalStep(name: string) | HttpStep(name: string, requiresAuth: bool, authParam: Option<string>)

  /** A handler that starts, by the path of calls that led to it, the context it has, and the
      arguments of its wrapper. */
  datatype Visit = Visit(path: seq<Step>, ctx: Ctx, args: Kwargs)

  /** An APIError, another exception (also an HTTPError, which a handler may catch by its own
      name), or an APIError that HTTP has made of another exception. */
  datatype Failure = ApiError | OtherError | Disguised

  datatype Trace = Trace(visits: seq<Visit>, failure: Option<Failure>)

  function Raised(api: bool): Failure { if api then ApiError else OtherError }

  /** Over HTTP every failure comes back as an APIError. */
  function Crossed(f: Option<Failure>): Option<Failure> {
    if f == Some(OtherError) then Some(Disguised) else f
  }

  function StepOf(c: Call): Step {
    if c.hop.Local? then LocalStep(c.callee.name)
    else HttpStep(c.callee.name, c.callee.requiresAuth, AuthParam(TextParams(c.params)))
  }

  /** How the handler goes on after the call; None lets the failure through. */
  function Reaction(h: Handler, f: Option<Failure>): (next: Option<Handler>)
    requires h.Ask?
    ensures next.Some? ==> next.value < h
  {
    match f
    case None => Some(if h.call.hop.Local? then h.onValue else h.onJson)
    case Some(OtherError) => h.onOther
    case Some(_) => h.onApi
  }

  /** The wrapper around a handler. */
  function RunEndpoint(e: Endpoint, args: Kwargs, path: seq<Step>): Trace
    decreases e
  {
    match e
    case Refuse(api) => Trace([], Some(Raised(api)))
    case Run(h) =>
      var r := RunHandler(h, CtxOf(args), path);
      Trace([Visit(path, CtxOf(args), args)] + r.visits, r.failure)
  }

  function RunHandler(h: Handler, ctx: Ctx, path: seq<Step>): Trace
    decreases h
  {
    match h
    case Return => Trace([], None)
    case Raise(api) => Trace([], Some(Raised(api)))
    case Ask(c, _, _, _, _) =>
      var r := RunCall(c, Some(ctx), path);
      var next := Reaction(h, r.failure);
      if next.None? then r
      else
        var rest := RunHandler(next.value, ctx, path);
        Trace(r.visits + rest.visits, rest.failure)
  }

  /** `call`, in the context of the calling handler, or in none. */
  function RunCall(c: Call, current: Option<Ctx>, path: seq<Step>): Trace
    decreases c
  {
    var ctx := if current.Some? then current.value else Ctx("", None);
    if c.hop.Local? then
      if !c.found then Trace([], Some(ApiError))
      else RunEndpoint(c.callee.raw, LocalKwargs(c.params, c.body, ctx), path + [StepOf(c)])
    else if c.wire.Unsent? then Trace([], Some(Raised(c.wire.api)))
    else
      var child := ChildTraceparent(ctx.traceparent, c.hop.random, c.hop.span);
      var r := RunInternal(c.callee, TextParams(c.params), InnerBody(c.body),
                           TraceContext(Some(child), c.hop.serverId, c.hop.serverSpan), ctx.auth, path + [StepOf(c)]);
      Trace(r.visits, if c.wire.Lost? then Some(Raised(c.wire.api)) else Crossed(r.failure))
  }

  /** The internal call route, once the signature is verified: only an endpoint that requires
      authentication gets the propagated identity, and it is refused without one. */
  function RunInternal(n: Node, params: seq<(string, string)>, payload: Payload, traceparent: string, header: Option<Identity>, path: seq<Step>): Trace
    decreases n
  {
    if n.requiresAuth && header.None? then Trace([], Some(ApiError))
    else RunRequest(n, Request(params, traceparent, if n.requiresAuth then header else None, payload), path)
  }

  /** The binding calls the endpoint. */
  function RunRequest(n: Node, req: Request, path: seq<Step>): Trace
    decreases n, 0
  {
    var kwargs := KwargsOf(req);
    if kwargs.None? then Trace([], Some(ApiError)) else RunEndpoint(n.text, kwargs.value, path)
  }

  /** A request from outside, on the endpoint's public route. */
  function Serve(n: Node, req: Request): Trace { RunRequest(n, req, []) }

  // ---------------------------------------------------------------- who sees what

  /** The identity at the end of a path: a hop keeps it, unless it goes over HTTP to an endpoint
      without authentication, which sees a parameter named auth instead, or none. */
  function IdentityAlong(root: Option<Identity>, path: seq<Step>): Option<Identity> {
    if path == [] then root
    else AfterHop(IdentityAlong(root, path[..|path| - 1]), path[|path| - 1])
  }

  function AfterHop(before: Option<Identity>, s: Step): Option<Identity> {
    if s.LocalStep? || s.requiresAuth then before
    else match s.authParam case Some(text) => Some(Text(text)) case None => None
  }

  /** What a handler must see, given the context at the root of the tree. */
  ghost predicate SeesAt(root: Ctx, path: seq<Step>, ctx: Ctx)
    requires ValidTraceparent(root.traceparent)
  {
    && ValidTraceparent(ctx.traceparent)
    && TraceOf(ctx.traceparent) == TraceOf(root.traceparent)
    && ctx.auth == IdentityAlong(root.auth, path)
  }

  ghost predicate Sees(root: Ctx, v: Visit)
    requires ValidTraceparent(root.traceparent)
  {
    SeesAt(root, v.path, v.ctx)
  }

  ghost predicate AllSee(root: Ctx, visits: seq<Visit>)
    requires ValidTraceparent(root.traceparent)
  {
    forall k :: 0 <= k < |visits| ==> Sees(root, visits[k])
  }

  lemma {:induction false} AlongSnoc(root: Option<Identity>, path: seq<Step>, s: Step)
    ensures IdentityAlong(root, path + [s]) == AfterHop(IdentityAlong(root, path), s)
  {
    assert (path + [s])[..|path|] == path;
  }

  /** Whether a call gets its callee to run, what the callee then is, and its context. */
  predicate CalleeRuns(c: Call, ctx: Ctx) {
    if c.hop.Local? then c.found else !c.wire.Unsent? && (c.callee.requiresAuth ==> ctx.auth.Some?)
  }

  function EndpointOf(c: Call): Endpoint { if c.hop.Local? then c.callee.raw else c.callee.text }

  function CalleeCtx(c: Call, ctx: Ctx): Ctx {
    if c.hop.Local? then ctx
    else Ctx(ChildTraceparent(ctx.traceparent, c.hop.random, c.hop.span), AfterHop(ctx.auth, StepOf(c)))
  }

  /** The failure the caller sees of the callee's. */
  function Returned(c: Call, f: Option<Failure>): Option<Failure> {
    if c.hop.Local? then f else if c.wire.Lost? then Some(Raised(c.wire.api)) else Crossed(f)
  }

  /** The failure the caller sees when the callee does not run. */
  function NotStarted(c: Call): Failure { if c.hop.Http? && !c.wire.Through? then Raised(c.wire.api) else ApiError }

  /** What the callee's wrapper is called with. */
  function CalleeArgs(c: Call, ctx: Ctx): Kwargs {
    if c.hop.Local? then LocalKwargs(c.params, c.body, ctx)
    else
      var kwargs := KwargsOf(Request(TextParams(c.params), CalleeCtx(c, ctx).traceparent,
                                     if c.callee.requiresAuth then ctx.auth else None, InnerBody(c.body)));
      match kwargs case Some(args) => args case None => map[]
  }

  /** A call in a handler, in one equation: it fails at once, or it runs the callee. */
  lemma {:induction false} CallRuns(c: Call, ctx: Ctx, path: seq<Step>)
    requires ValidTraceparent(ctx.traceparent)
    ensures var r := RunEndpoint(EndpointOf(c), CalleeArgs(c, ctx), path + [StepOf(c)]);
            RunCall(c, Some(ctx), path) ==
              if CalleeRuns(c, ctx) then Trace(r.visits, Returned(c, r.failure)) else Trace([], Some(NotStarted(c)))
    ensures CalleeRuns(c, ctx) ==> CtxOf(CalleeArgs(c, ctx)) == CalleeCtx(c, ctx)
    ensures ValidTraceparent(CalleeCtx(c, ctx).traceparent) && TraceOf(CalleeCtx(c, ctx).traceparent) == TraceOf(ctx.traceparent)
  {
    if c.hop.Local? {
      LocalContext(c.params, c.body, ctx);
    } else {
      FormatReadsBack(TraceOf(ctx.traceparent), c.hop.span);
      InternalRuns(c.callee, TextParams(c.params), InnerBody(c.body), CalleeCtx(c, ctx).traceparent, ctx.auth, path + [StepOf(c)]);
    }
  }

  lemma {:induction false} InternalRuns(n: Node, params: seq<(string, string)>, payload: Payload, traceparent: string,
                                        header: Option<Identity>, path: seq<Step>)
    requires !payload.BadJson?
    ensures var kwargs := KwargsOf(Request(params, traceparent, if n.requiresAuth then header else None, payload));
            && kwargs.Some?
            && RunInternal(n, params, payload, traceparent, header, path)
               == (if n.requiresAuth && header.None? then Trace([], Some(ApiError)) else RunEndpoint(n.text, kwargs.value, path))
            && CtxOf(kwargs.value).traceparent == traceparent
            && (!(n.requiresAuth && header.None?) ==>
                  CtxOf(kwargs.value).auth == if n.requiresAuth then header
                                              else match AuthParam(params) case Some(text) => Some(Text(text)) case None => None)
  {
    RequestContext(Request(params, traceparent, if n.requiresAuth then header else None, payload));
  }

  /** What a handler gets that is started by a call: in the process the arguments and the body as
      they are, and its caller's identity and traceparent; over HTTP the texts of the arguments, the
      body, the caller's trace id with the hop's span, and the identity if the endpoint requires
      one. */
  lemma {:induction false} CalleeGets(c: Call, ctx: Ctx, path: seq<Step>)
    requires ValidTraceparent(ctx.traceparent) && CalleeRuns(c, ctx) && EndpointOf(c).Run?
    ensures var visits := RunCall(c, Some(ctx), path).visits;
            var body := if c.body == Null then None else Some(c.body);
            && visits != [] && visits[0].path == path + [StepOf(c)]
            && (c.hop == Local ==>
                  Passes(ArgsOf(c.params, false), body, Some(match ctx.auth case Some(identity) => identity case None => Null),
                         ctx.traceparent, visits[0].args))
            && (c.hop.Http? ==>
                  Passes(ArgsOf(c.params, true), body, if c.callee.requiresAuth then ctx.auth else None,
                         Format(TraceOf(ctx.traceparent), c.hop.span), visits[0].args))
  {
    CallRuns(c, ctx, path);
    FirstVisit(EndpointOf(c), CalleeArgs(c, ctx), path + [StepOf(c)]);
    if c.hop.Local? {
      LocalArguments(c.params, c.body, ctx);
    } else {
      var req := Request(TextParams(c.params), CalleeCtx(c, ctx).traceparent, if c.callee.requiresAuth then ctx.auth else None, InnerBody(c.body));
      RequestArguments(req);
      assert AsTexts(TextParams(c.params)) == ArgsOf(c.params, true);
    }
  }

  /** A call outside of any handler has no identity: in the process the callee gets None, over HTTP
      a new trace starts, and an endpoint that requires an identity does not start. */
  lemma {:induction false} CallOutsideHandlers(c: Call, path: seq<Step>)
    requires if c.hop == Local then c.found && c.callee.raw.Run? else !c.wire.Unsent? && c.callee.text.Run?
    ensures var visits := RunCall(c, None, path).visits;
            var body := if c.body == Null then None else Some(c.body);
            if c.hop == Local then visits != [] && Passes(ArgsOf(c.params, false), body, Some(Null), "", visits[0].args)
            else if c.callee.requiresAuth then visits == []
            else visits != [] && Passes(ArgsOf(c.params, true), body, None, Format(c.hop.random, c.hop.span), visits[0].args)
  {
    var ctx := Ctx("", None);
    if c.hop.Local? {
      LocalArguments(c.params, c.body, ctx);
      FirstVisit(c.callee.raw, LocalKwargs(c.params, c.body, ctx), path + [StepOf(c)]);
    } else {
      var child := Format(c.hop.random, c.hop.span);
      assert !ValidTraceparent("");
      FormatReadsBack(c.hop.random, c.hop.span);
      InternalRuns(c.callee, TextParams(c.params), InnerBody(c.body), child, None, path + [StepOf(c)]);
      if !c.callee.requiresAuth {
        var req := Request(TextParams(c.params), child, None, InnerBody(c.body));
        RequestArguments(req);
        FirstVisit(c.callee.text, KwargsOf(req).value, path + [StepOf(c)]);
        assert AsTexts(TextParams(c.params)) == ArgsOf(c.params, true);
      }
    }
  }

  /** What a handler gets that a public request starts. */
  lemma {:induction false} ServedGets(n: Node, req: Request)
    requires n.text.Run?
    ensures req.payload == BadJson ==> Serve(n, req) == Trace([], Some(ApiError))
    ensures req.payload != BadJson ==>
              && Serve(n, req).visits != [] && Serve(n, req).visits[0].path == []
              && Passes(AsTexts(req.params), BodyOf(req.payload), req.authData, req.traceparent, Serve(n, req).visits[0].args)
  {
    RequestArguments(req);
    if req.payload != BadJson {
      var args := KwargsOf(req).value;
      FirstVisit(n.text, args, []);
      assert Serve(n, req) == RunEndpoint(n.text, args, []);
    }
  }

  /** How a handler goes on after a call: what the call started comes first; then, by its outcome,
      what the handler does with a result of its own process, with one from JSON, with an APIError
      (also one that HTTP made of another exception) or with any other exception; and a failure
      that it does not catch is its own. */
  lemma {:induction false} HandlerGoesOn(h: Handler, ctx: Ctx, path: seq<Step>)
    requires h.Ask?
    ensures var r, t := RunCall(h.call, Some(ctx), path), RunHandler(h, ctx, path);
            && (r.failure == None ==>
                  var rest := RunHandler(if h.call.hop == Local then h.onValue else h.onJson, ctx, path);
                  t == Trace(r.visits + rest.visits, rest.failure))
            && (r.failure in {Some(ApiError), Some(Disguised)} ==>
                  t == match h.onApi
                       case Some(next) => Trace(r.visits + RunHandler(next, ctx, path).visits, RunHandler(next, ctx, path).failure)
                       case None => r)
            && (r.failure == Some(OtherError) ==>
                  t == match h.onOther
                       case Some(next) => Trace(r.visits + RunHandler(next, ctx, path).visits, RunHandler(next, ctx, path).failure)
                       case None => r)
  {}

  lemma {:induction false} EndpointSees(e: Endpoint, args: Kwargs, path: seq<Step>, root: Ctx)
    requires ValidTraceparent(root.traceparent) && SeesAt(root, path, CtxOf(args))
    ensures AllSee(root, RunEndpoint(e, args, path).visits)
    decreases e
  {
    if e.Run? { HandlerSees(e.handler, CtxOf(args), path, root); }
  }

  lemma {:induction false} HandlerSees(h: Handler, ctx: Ctx, path: seq<Step>, root: Ctx)
    requires ValidTraceparent(root.traceparent) && SeesAt(root, path, ctx)
    ensures AllSee(root, RunHandler(h, ctx, path).visits)
    decreases h
  {
    if h.Ask? {
      var c, r := h.call, RunCall(h.call, Some(ctx), path);
      CallRuns(c, ctx, path);
      AlongSnoc(root.auth, path, StepOf(c));
      if CalleeRuns(c, ctx) { EndpointSees(EndpointOf(c), CalleeArgs(c, ctx), path + [StepOf(c)], root); }
      var next := Reaction(h, r.failure);
      if next.Some? { HandlerSees(next.value, ctx, path, root); }
    }
  }

  /** In any tree of nested calls, local and HTTP freely mixed, started by a request: every
      handler carries the trace id of the request, and sees exactly the identity that its
      path leaves of the request's. */
  lemma {:induction false} TraceAndIdentity(n: Node, req: Request)
    requires ValidTraceparent(req.traceparent)
    ensures AllSee(Ctx(req.traceparent, IdentityOf(req)), Serve(n, req).visits)
  {
    if !req.payload.BadJson? {
      RequestContext(req);
      var root := Ctx(req.traceparent, IdentityOf(req));
      EndpointSees(n.text, KwargsOf(req).value, [], root);
    }
  }

  /** The request's traceparent, as the core's server makes it, is always valid. */
  lemma {:induction false} RequestHasTrace(header: Option<string>, newId: NewId, newSpan: Hex)
    ensures ValidTraceparent(TraceContext(header, newId, newSpan))
    ensures TraceOf(TraceContext(header, newId, newSpan))
            == if header.Some? && ValidTraceparent(header.value) then TraceOf(header.value) else newId
  {
    FormatReadsBack(newId, newSpan);
  }

  /** A path of local calls only always keeps the identity. */
  lemma {:induction false} LocalPathKeepsIdentity(root: Option<Identity>, path: seq<Step>)
    requires forall i :: 0 <= i < |path| ==> path[i].LocalStep?
    ensures IdentityAlong(root, path) == root
  {
    if path != [] { LocalPathKeepsIdentity(root, path[..|path| - 1]); }
  }

  // ---------------------------------------------------------------- the root's identity or none

  /** The handler was started over HTTP, at an endpoint without authentication, with a
      parameter named auth that is not the identity of the root. */
  predicate StartsForeign(root: Option<Identity>, path: seq<Step>) {
    path != [] &&
    var s := path[|path| - 1];
    s.HttpStep? && !s.requiresAuth && s.authParam.Some? && root != Some(Text(s.authParam.value))
  }

  ghost predicate NoneForeign(root: Option<Identity>, visits: seq<Visit>) {
    forall k :: 0 <= k < |visits| ==> !StartsForeign(root, visits[k].path)
  }

  predicate RootOrNone(root: Option<Identity>, auth: Option<Identity>) { auth == root || auth == None }

  ghost predicate AllRootOrNone(root: Option<Identity>, visits: seq<Visit>) {
    forall k :: 0 <= k < |visits| ==> RootOrNone(root, visits[k].ctx.auth)
  }

  lemma {:induction false} NoneForeignParts(root: Option<Identity>, x: seq<Visit>, y: seq<Visit>)
    ensures NoneForeign(root, x + y) <==> NoneForeign(root, x) && NoneForeign(root, y)
  {
    if NoneForeign(root, x + y) {
      assert forall k :: 0 <= k < |x| ==> (x + y)[k] == x[k];
      assert forall k :: 0 <= k < |y| ==> (x + y)[|x| + k] == y[k];
    }
  }

  /** A hop whose callee starts, and not as a foreign one, leaves the root's identity or none. */
  lemma {:induction false} HopRootOrNone(root: Option<Identity>, c: Call, ctx: Ctx, path: seq<Step>)
    requires RootOrNone(root, ctx.auth) && !StartsForeign(root, path + [StepOf(c)])
    ensures RootOrNone(root, CalleeCtx(c, ctx).auth)
  {
    assert (path + [StepOf(c)])[|path|] == StepOf(c);
  }

  lemma {:induction false} EndpointRootOrNone(e: Endpoint, args: Kwargs, path: seq<Step>, root: Option<Identity>)
    requires ValidTraceparent(CtxOf(args).traceparent) && NoneForeign(root, RunEndpoint(e, args, path).visits)
    requires e.Run? ==> RootOrNone(root, CtxOf(args).auth)
    ensures AllRootOrNone(root, RunEndpoint(e, args, path).visits)
    decreases e
  {
    if e.Run? {
      NoneForeignParts(root, [Visit(path, CtxOf(args), args)], RunHandler(e.handler, CtxOf(args), path).visits);
      HandlerRootOrNone(e.handler, CtxOf(args), path, root);
    }
  }

  lemma {:induction false} HandlerRootOrNone(h: Handler, ctx: Ctx, path: seq<Step>, root: Option<Identity>)
    requires ValidTraceparent(ctx.traceparent) && RootOrNone(root, ctx.auth)
    requires NoneForeign(root, RunHandler(h, ctx, path).visits)
    ensures AllRootOrNone(root, RunHandler(h, ctx, path).visits)
    decreases h
  {
    if h.Ask? {
      var r := RunCall(h.call, Some(ctx), path);
      var next := Reaction(h, r.failure);
      if next.Some? {
        NoneForeignParts(root, r.visits, RunHandler(next.value, ctx, path).visits);
        HandlerRootOrNone(next.value, ctx, path, root);
      }
      CallRootOrNone(h.call, ctx, path, root);
    }
  }

  lemma {:induction false} CallRootOrNone(c: Call, ctx: Ctx, path: seq<Step>, root: Option<Identity>)
    requires ValidTraceparent(ctx.traceparent) && RootOrNone(root, ctx.auth)
    requires NoneForeign(root, RunCall(c, Some(ctx), path).visits)
    ensures AllRootOrNone(root, RunCall(c, Some(ctx), path).visits)
    decreases c
  {
    CallRuns(c, ctx, path);
    if CalleeRuns(c, ctx) {
      FirstVisit(EndpointOf(c), CalleeArgs(c, ctx), path + [StepOf(c)]);
      if EndpointOf(c).Run? { HopRootOrNone(root, c, ctx, path); }
      EndpointRootOrNone(EndpointOf(c), CalleeArgs(c, ctx), path + [StepOf(c)], root);
    }
  }

  lemma {:induction false} FirstVisit(e: Endpoint, args: Kwargs, path: seq<Step>)
    ensures e.Run? <==> |RunEndpoint(e, args, path).visits| > 0
    ensures e.Run? ==> RunEndpoint(e, args, path).visits[0] == Visit(path, CtxOf(args), args)
  {}

  /** Every handler sees the request's identity or none, if and only if no handler is started
      over HTTP, at an endpoint without authentication, with a parameter named auth (other
      than one that happens to spell the request's identity). */
  lemma {:induction false} RootIdentityOrNone(n: Node, req: Request)
    requires ValidTraceparent(req.traceparent)
    ensures AllRootOrNone(IdentityOf(req), Serve(n, req).visits) <==> NoneForeign(IdentityOf(req), Serve(n, req).visits)
  {
    var root := IdentityOf(req);
    if NoneForeign(root, Serve(n, req).visits) && !req.payload.BadJson? {
      RequestContext(req);
      EndpointRootOrNone(n.text, KwargsOf(req).value, [], root);
    }
    if AllRootOrNone(root, Serve(n, req).visits) {
      TraceAndIdentity(n, req);
      forall k | 0 <= k < |Serve(n, req).visits| ensures !StartsForeign(root, Serve(n, req).visits[k].path) {
        var v := Serve(n, req).visits[k];
        assert Sees(Ctx(req.traceparent, root), v) && RootOrNone(root, v.ctx.auth);
      }
    }
  }

  /** No HTTP call that the handlers could make, to an endpoint without authentication, has a
      parameter named auth. */
  predicate NoAuthParams(h: Handler)
    decreases h
  {
    h.Ask? ==>
      && CallHasNone(h.call) && NoAuthParams(h.onValue) && NoAuthParams(h.onJson)
      && (h.onApi.Some? ==> NoAuthParams(h.onApi.value)) && (h.onOther.Some? ==> NoAuthParams(h.onOther.value))
  }

  predicate EndpointHasNone(e: Endpoint)
    decreases e
  {
    e.Run? ==> NoAuthParams(e.handler)
  }

  predicate CallHasNone(c: Call)
    decreases c
  {
    && (c.hop.Http? && !c.callee.requiresAuth ==> AuthParam(TextParams(c.params)).None?)
    && EndpointHasNone(c.callee.raw) && EndpointHasNone(c.callee.text)
  }

  lemma {:induction false} EndpointQuiet(e: Endpoint, args: Kwargs, path: seq<Step>, root: Option<Identity>)
    requires ValidTraceparent(CtxOf(args).traceparent) && EndpointHasNone(e) && RootOrNone(root, CtxOf(args).auth)
    ensures AllRootOrNone(root, RunEndpoint(e, args, path).visits)
    decreases e
  {
    if e.Run? { HandlerQuiet(e.handler, CtxOf(args), path, root); }
  }

  lemma {:induction false} HandlerQuiet(h: Handler, ctx: Ctx, path: seq<Step>, root: Option<Identity>)
    requires ValidTraceparent(ctx.traceparent) && NoAuthParams(h) && RootOrNone(root, ctx.auth)
    ensures AllRootOrNone(root, RunHandler(h, ctx, path).visits)
    decreases h
  {
    if h.Ask? {
      var c, r := h.call, RunCall(h.call, Some(ctx), path);
      CallRuns(c, ctx, path);
      if CalleeRuns(c, ctx) { EndpointQuiet(EndpointOf(c), CalleeArgs(c, ctx), path + [StepOf(c)], root); }
      var next := Reaction(h, r.failure);
      if next.Some? { HandlerQuiet(next.value, ctx, path, root); }
    }
  }

  /** What an application can check beforehand: without such a call anywhere in the tree, every
      handler sees the request's identity or none. */
  lemma {:induction false} NoAuthParameterNoSurprise(n: Node, req: Request)
    requires ValidTraceparent(req.traceparent) && EndpointHasNone(n.text)
    ensures AllRootOrNone(IdentityOf(req), Serve(n, req).visits)
  {
    if !req.payload.BadJson? {
      RequestContext(req);
      EndpointQuiet(n.text, KwargsOf(req).value, [], IdentityOf(req));
    }
  }

  /** A handler that makes one call, and lets its failures through. */
  function Calls(c: Call): Handler { Ask(c, Return, Return, None, None) }

  lemma {:induction false} OneCall(c: Call, args: Kwargs, path: seq<Step>)
    ensures var r := RunCall(c, Some(CtxOf(args)), path);
            RunEndpoint(Run(Calls(c)), args, path) == Trace([Visit(path, CtxOf(args), args)] + r.visits, r.failure)
  {
    var r := RunCall(c, Some(CtxOf(args)), path);
    assert r.visits + [] == r.visits;
    assert RunHandler(Calls(c), CtxOf(args), path) == r;
  }

  /** The exception is real: an HTTP call with auth="p" to an endpoint without authentication,
      whose handler then calls one that requires it.  Both run as "p", in a request without
      any identity. */
  lemma {:induction false} AuthParameterIsTaken(hop: Hop)
    requires hop.Http?
    ensures var inner := Call(hop, Node("inner", true, Run(Return), Run(Return)), [], Null, true, Through);
            var middle := Run(Calls(inner));
            var outer := Call(hop, Node("outer", false, middle, middle), [Arg("auth", Text("p"), "p")], Null, true, Through);
            var t := Serve(Node("top", false, Run(Calls(outer)), Run(Calls(outer))), Request([], Format(hop.random, hop.span), None, NoBody));
            |t.visits| == 3 && t.visits[1].ctx.auth == Some(Text("p")) && t.visits[2].ctx.auth == Some(Text("p"))
  {
    var inner := Call(hop, Node("inner", true, Run(Return), Run(Return)), [], Null, true, Through);
    var middle := Run(Calls(inner));
    var outer := Call(hop, Node("outer", false, middle, middle), [Arg("auth", Text("p"), "p")], Null, true, Through);
    var req := Request([], Format(hop.random, hop.span), None, NoBody);
    RequestContext(req);
    FormatReadsBack(hop.random, hop.span);
    var ctx0 := Ctx(req.traceparent, None);
    var ctx1, path1 := CalleeCtx(outer, ctx0), [] + [StepOf(outer)];
    assert TextParams(outer.params) == [("auth", "p")];
    assert ctx1.auth == Some(Text("p"));
    CallRuns(outer, ctx0, []);
    CallRuns(inner, ctx1, path1);
    OneCall(inner, CalleeArgs(outer, ctx0), path1);
    OneCall(outer, KwargsOf(req).value, []);
    FirstVisit(Run(Return), CalleeArgs(inner, ctx1), path1 + [StepOf(inner)]);
    assert |RunCall(inner, Some(ctx1), path1).visits| == 1;
    assert Serve(Node("top", false, Run(Calls(outer)), Run(Calls(outer))), req) == RunEndpoint(Run(Calls(outer)), KwargsOf(req).value, []);
  }

  // ---------------------------------------------------------------- switching providers

  /** The same handlers with every service in one process. */
  function Localized(h: Handler): Handler
    decreases h
  {
    match h
    case Ask(c, value, json, api, other) =>
      Ask(LocalizedCall(c), Localized(value), Localized(json), LocalizedCatch(api), LocalizedCatch(other))
    case _ => h
  }

  function LocalizedCatch(o: Option<Handler>): Option<Handler>
    decreases o
  {
    match o case Some(h) => Some(Localized(h)) case None => None
  }

  function LocalizedEndpoint(e: Endpoint): Endpoint
    decreases e
  {
    match e case Run(h) => Run(Localized(h)) case Refuse(api) => Refuse(api)
  }

  function LocalizedCall(c: Call): Call
    decreases c
  {
    Call(Local, OneProcess(c.callee), c.params, c.body, c.found, c.wire)
  }

  function OneProcess(n: Node): Node
    decreases n
  {
    Node(n.name, n.requiresAuth, LocalizedEndpoint(n.raw), LocalizedEndpoint(n.text))
  }

  /** The run of a handler does not depend on how its calls travel.  A call over HTTP gets through
      and back if the endpoint is found in one process, and otherwise fails with an APIError; the
      endpoint does the same with arguments as text as with arguments as they are; the handler
      goes on with a result from JSON as with the result itself, and with an APIError that stands
      for another exception as with that exception. */
  predicate HandlerAgrees(h: Handler, ctx: Ctx, path: seq<Step>)
    decreases h
  {
    h.Ask? ==>
      var f := RunCall(h.call, Some(ctx), path).failure;
      && CallAgrees(h.call, ctx, path)
      && (h.call.hop.Http? && f.None? ==> h.onJson == h.onValue)
      && (f == Some(Disguised) ==> h.onApi == h.onOther)
      && var next := Reaction(h, f); next.Some? ==> HandlerAgrees(next.value, ctx, path)
  }

  predicate CallAgrees(c: Call, ctx: Ctx, path: seq<Step>)
    decreases c
  {
    && (c.hop.Http? ==> c.wire == if c.found then Through else Unsent(true))
    && (CalleeRuns(c, ctx) ==> (c.hop.Http? ==> c.callee.text == c.callee.raw)
                               && EndpointAgrees(EndpointOf(c), CalleeCtx(c, ctx), path + [StepOf(c)]))
  }

  predicate EndpointAgrees(e: Endpoint, ctx: Ctx, path: seq<Step>)
    decreases e
  {
    e.Run? ==> HandlerAgrees(e.handler, ctx, path)
  }

  /** The hop that started the handler leaves the root's identity as it is. */
  predicate StartsAsRoot(root: Option<Identity>, path: seq<Step>) {
    path != [] ==> AfterHop(root, path[|path| - 1]) == root
  }

  ghost predicate KeptEverywhere(root: Option<Identity>, visits: seq<Visit>) {
    forall k :: 0 <= k < |visits| ==> StartsAsRoot(root, visits[k].path)
  }

  /** What the application can tell: which handlers started, in which order and for whom, in
      which trace, and how the request ended. */
  datatype Seen = Seen(names: seq<string>, auth: Option<Identity>, trace: string)

  function Observed(v: Visit): Seen {
    Seen(Names(v.path), v.ctx.auth, if ValidTraceparent(v.ctx.traceparent) then TraceOf(v.ctx.traceparent) else "")
  }

  function Names(path: seq<Step>): seq<string> { seq(|path|, i requires 0 <= i < |path| => path[i].name) }

  /** The failure that was there before HTTP made an APIError of it. */
  function Origin(f: Option<Failure>): Option<Failure> { if f == Some(Disguised) then Some(OtherError) else f }

  ghost predicate SameToTheApp(a: Trace, b: Trace) {
    && Origin(a.failure) == Origin(b.failure) && |a.visits| == |b.visits|
    && forall k :: 0 <= k < |a.visits| ==> Observed(a.visits[k]) == Observed(b.visits[k])
  }

  /** Two contexts the application cannot tell apart. */
  ghost predicate SameCtx(a: Ctx, b: Ctx) {
    && a.auth == b.auth && ValidTraceparent(a.traceparent) && ValidTraceparent(b.traceparent)
    && TraceOf(a.traceparent) == TraceOf(b.traceparent)
  }

  lemma {:induction false} SameConcat(a: Trace, b: Trace, c: Trace, d: Trace)
    requires SameToTheApp(a, b) && SameToTheApp(c, d)
    ensures SameToTheApp(Trace(a.visits + c.visits, c.failure), Trace(b.visits + d.visits, d.failure))
  {
    forall k | 0 <= k < |a.visits| + |c.visits|
      ensures Observed((a.visits + c.visits)[k]) == Observed((b.visits + d.visits)[k])
    {
      if k < |a.visits| { assert Observed(a.visits[k]) == Observed(b.visits[k]); }
      else { assert Observed(c.visits[k - |a.visits|]) == Observed(d.visits[k - |a.visits|]); }
    }
  }

  lemma {:induction false} NamesSnoc(p: seq<Step>, q: seq<Step>, s: Step, t: Step)
    requires Names(p) == Names(q) && s.name == t.name
    ensures Names(p + [s]) == Names(q + [t])
  {
    assert |p| == |Names(p)| && |q| == |Names(q)|;
    forall i | 0 <= i < |p| + 1 ensures (p + [s])[i].name == (q + [t])[i].name {
      if i < |p| { assert Names(p)[i] == Names(q)[i]; }
    }
  }

  lemma {:induction false} KeptParts(root: Option<Identity>, x: seq<Visit>, y: seq<Visit>)
    ensures KeptEverywhere(root, x + y) <==> KeptEverywhere(root, x) && KeptEverywhere(root, y)
  {
    if KeptEverywhere(root, x + y) {
      assert forall k :: 0 <= k < |x| ==> (x + y)[k] == x[k];
      assert forall k :: 0 <= k < |y| ==> (x + y)[|x| + k] == y[k];
    }
  }

  ghost predicate AllAre(auth: Option<Identity>, visits: seq<Visit>) {
    forall k :: 0 <= k < |visits| ==> visits[k].ctx.auth == auth
  }

  /** In one process every handler has the identity of the request, and no exception turns into
      an APIError. */
  ghost predicate Direct(ctx: Ctx, t: Trace) { AllAre(ctx.auth, t.visits) && t.failure != Some(Disguised) }

  lemma {:induction false} LocalizedCallIs(c: Call)
    ensures var l := LocalizedCall(c);
            && l.hop.Local? && l.found == c.found && l.callee.name == c.callee.name
            && l.callee.raw == LocalizedEndpoint(c.callee.raw)
  {
    assert LocalizedCall(c).callee == OneProcess(c.callee);
  }

  lemma {:induction false} EndpointDirect(e: Endpoint, args: Kwargs, path: seq<Step>)
    requires ValidTraceparent(CtxOf(args).traceparent)
    ensures Direct(CtxOf(args), RunEndpoint(LocalizedEndpoint(e), args, path))
    decreases e
  {
    if e.Run? { HandlerDirect(e.handler, CtxOf(args), path); }
  }

  lemma {:induction false} HandlerDirect(h: Handler, ctx: Ctx, path: seq<Step>)
    requires ValidTraceparent(ctx.traceparent)
    ensures Direct(ctx, RunHandler(Localized(h), ctx, path))
    decreases h
  {
    if h.Ask? {
      CallDirect(h.call, ctx, path);
      var f := RunCall(LocalizedCall(h.call), Some(ctx), path).failure;
      var next := if f.None? then Some(h.onValue) else if f == Some(OtherError) then h.onOther else h.onApi;
      assert Reaction(Localized(h), f) == LocalizedCatch(next);
      if next.Some? { HandlerDirect(next.value, ctx, path); }
    }
  }

  lemma {:induction false} CallDirect(c: Call, ctx: Ctx, path: seq<Step>)
    requires ValidTraceparent(ctx.traceparent)
    ensures Direct(ctx, RunCall(LocalizedCall(c), Some(ctx), path))
    decreases c
  {
    LocalizedCallIs(c);
    CallRuns(LocalizedCall(c), ctx, path);
    if c.found { EndpointDirect(c.callee.raw, CalleeArgs(LocalizedCall(c), ctx), path + [StepOf(LocalizedCall(c))]); }
  }

  lemma {:induction false} SwitchEndpoint(e: Endpoint, a: Kwargs, b: Kwargs, p: seq<Step>, q: seq<Step>)
    requires EndpointAgrees(e, CtxOf(a), p) && KeptEverywhere(CtxOf(a).auth, RunEndpoint(e, a, p).visits)
    requires e.Run? ==> SameCtx(CtxOf(a), CtxOf(b)) && CtxOf(a).auth.Some? && Names(p) == Names(q)
    ensures SameToTheApp(RunEndpoint(e, a, p), RunEndpoint(LocalizedEndpoint(e), b, q))
    decreases e
  {
    if e.Run? {
      var x, y := CtxOf(a), CtxOf(b);
      var r, l := RunHandler(e.handler, x, p), RunHandler(Localized(e.handler), y, q);
      KeptParts(x.auth, [Visit(p, x, a)], r.visits);
      SwitchHandler(e.handler, x, y, p, q);
      SameConcat(Trace([Visit(p, x, a)], None), Trace([Visit(q, y, b)], None), r, l);
    }
  }

  lemma {:induction false} SwitchHandler(h: Handler, x: Ctx, y: Ctx, p: seq<Step>, q: seq<Step>)
    requires HandlerAgrees(h, x, p) && KeptEverywhere(x.auth, RunHandler(h, x, p).visits)
    requires SameCtx(x, y) && x.auth.Some? && Names(p) == Names(q)
    ensures SameToTheApp(RunHandler(h, x, p), RunHandler(Localized(h), y, q))
    decreases h
  {
    if h.Ask? {
      var r, l := RunCall(h.call, Some(x), p), RunCall(LocalizedCall(h.call), Some(y), q);
      var next := Reaction(h, r.failure);
      if next.Some? { KeptParts(x.auth, r.visits, RunHandler(next.value, x, p).visits); }
      SwitchCall(h.call, x, y, p, q);
      CallDirect(h.call, y, q);
      SameReaction(h, r.failure, l.failure);
      if next.Some? {
        SwitchHandler(next.value, x, y, p, q);
        SameConcat(r, l, RunHandler(next.value, x, p), RunHandler(Localized(next.value), y, q));
      }
    }
  }

  /** In agreement, the handler in one process goes on as the one apart. */
  lemma {:induction false} SameReaction(h: Handler, f: Option<Failure>, g: Option<Failure>)
    requires h.Ask? && Origin(f) == Origin(g) && g != Some(Disguised)
    requires (h.call.hop.Http? && f.None? ==> h.onJson == h.onValue) && (f == Some(Disguised) ==> h.onApi == h.onOther)
    ensures Reaction(Localized(h), g) == LocalizedCatch(Reaction(h, f))
  {}

  lemma {:induction false} SwitchCall(c: Call, x: Ctx, y: Ctx, p: seq<Step>, q: seq<Step>)
    requires CallAgrees(c, x, p) && KeptEverywhere(x.auth, RunCall(c, Some(x), p).visits)
    requires SameCtx(x, y) && x.auth.Some? && Names(p) == Names(q)
    ensures SameToTheApp(RunCall(c, Some(x), p), RunCall(LocalizedCall(c), Some(y), q))
    decreases c
  {
    var l := LocalizedCall(c);
    LocalizedCallIs(c);
    CallRuns(c, x, p);
    CallRuns(l, y, q);
    NamesSnoc(p, q, StepOf(c), StepOf(l));
    if c.found {
      FirstVisit(EndpointOf(c), CalleeArgs(c, x), p + [StepOf(c)]);
      HopKeeps(c, x, p);
      SwitchEndpoint(EndpointOf(c), CalleeArgs(c, x), CalleeArgs(l, y), p + [StepOf(c)], q + [StepOf(l)]);
    }
  }

  /** A hop that starts its callee as the root leaves the identity. */
  lemma {:induction false} HopKeeps(c: Call, x: Ctx, p: seq<Step>)
    ensures StartsAsRoot(x.auth, p + [StepOf(c)]) ==> CalleeCtx(c, x).auth == x.auth
  {
    assert (p + [StepOf(c)])[|p|] == StepOf(c);
  }

  /** A visit that sees the root's identity was started as the root. */
  lemma {:induction false} SeenAsRoot(root: Ctx, v: Visit)
    requires ValidTraceparent(root.traceparent) && Sees(root, v) && v.ctx.auth == root.auth
    ensures StartsAsRoot(root.auth, v.path)
  {}

  /** The endpoint at the root behaves as described in HandlerAgrees. */
  predicate Agrees(n: Node, req: Request) { EndpointAgrees(n.text, Ctx(req.traceparent, IdentityOf(req)), []) }

  /** Where the run does not depend on how its calls travel, a request with an identity gives the
      same handlers, identities, traces and failure in services deployed apart as in one process,
      if and only if every hop that starts a handler leaves the identity: it is local, or goes to
      an endpoint that requires authentication (or spells the same identity as a parameter). */
  lemma {:induction false} ProviderSwitch(n: Node, req: Request)
    requires ValidTraceparent(req.traceparent) && IdentityOf(req).Some? && Agrees(n, req)
    ensures SameToTheApp(Serve(n, req), Serve(OneProcess(n), req)) <==> KeptEverywhere(IdentityOf(req), Serve(n, req).visits)
  {
    var root := Ctx(req.traceparent, IdentityOf(req));
    var x, y := Serve(n, req), Serve(OneProcess(n), req);
    if !req.payload.BadJson? {
      RequestContext(req);
      var args := KwargsOf(req).value;
      assert y == RunEndpoint(LocalizedEndpoint(n.text), args, []);
      if KeptEverywhere(root.auth, x.visits) { SwitchEndpoint(n.text, args, args, [], []); }
      if SameToTheApp(x, y) {
        TraceAndIdentity(n, req);
        EndpointDirect(n.text, args, []);
        forall k | 0 <= k < |x.visits| ensures StartsAsRoot(root.auth, x.visits[k].path) {
          assert Observed(x.visits[k]) == Observed(y.visits[k]);
          SeenAsRoot(root, x.visits[k]);
        }
      }
    }
  }

  // ---------------------------------------------------------------- each condition is needed

  /** One handler with one call, apart and in one process. */
  function Top(h: Handler): Node { Node("top", true, Run(h), Run(h)) }

  lemma {:induction false} TopRuns(h: Handler, req: Request)
    requires !req.payload.BadJson?
    ensures KwargsOf(req).Some? && CtxOf(KwargsOf(req).value) == Ctx(req.traceparent, IdentityOf(req))
    ensures Serve(Top(h), req) == RunEndpoint(Run(h), KwargsOf(req).value, [])
    ensures Serve(OneProcess(Top(h)), req) == RunEndpoint(Run(Localized(h)), KwargsOf(req).value, [])
  {
    RequestContext(req);
  }

  /** A call whose handler starts in one way and not in the other, for want of a secret or because
      of an argument that is refused as text, shows. */
  lemma {:induction false} DifferentStartShows(c: Call, req: Request)
    requires ValidTraceparent(req.traceparent) && IdentityOf(req).Some? && !req.payload.BadJson? && c.hop.Http?
    requires (!c.wire.Unsent? && c.callee.text.Run?) != (c.found && c.callee.raw.Run?)
    ensures !SameToTheApp(Serve(Top(Calls(c)), req), Serve(OneProcess(Top(Calls(c))), req))
  {
    var ctx, l := Ctx(req.traceparent, IdentityOf(req)), LocalizedCall(c);
    TopRuns(Calls(c), req);
    LocalizedCallIs(c);
    assert Localized(Calls(c)) == Calls(l);
    OneCall(c, KwargsOf(req).value, []);
    OneCall(l, KwargsOf(req).value, []);
    CallRuns(c, ctx, []);
    CallRuns(l, ctx, []);
    FirstVisit(c.callee.text, CalleeArgs(c, ctx), [] + [StepOf(c)]);
    FirstVisit(l.callee.raw, CalleeArgs(l, ctx), [] + [StepOf(l)]);
  }

  /** A handler that catches what `except APIError` catches. */
  function CatchesApiErrors(c: Call): Handler { Ask(c, Return, Return, Some(Return), None) }

  /** The kind of a failure is not kept over HTTP.  A handler that catches APIErrors only calls one
      that raises another exception: apart the request succeeds, in one process it fails. */
  lemma {:induction false} OtherErrorIsDisguised(hop: Hop, req: Request)
    requires ValidTraceparent(req.traceparent) && IdentityOf(req).Some? && !req.payload.BadJson? && hop.Http?
    ensures var c := Call(hop, Node("g", true, Run(Raise(false)), Run(Raise(false))), [], Null, true, Through);
            var n := Top(CatchesApiErrors(c));
            && Serve(n, req).failure == None && Serve(OneProcess(n), req).failure == Some(OtherError)
            && KeptEverywhere(IdentityOf(req), Serve(n, req).visits)
            && !SameToTheApp(Serve(n, req), Serve(OneProcess(n), req)) && !Agrees(n, req)
  {
    var e := Run(Raise(false));
    var c := Call(hop, Node("g", true, e, e), [], Null, true, Through);
    var ctx, l, h := Ctx(req.traceparent, IdentityOf(req)), LocalizedCall(c), CatchesApiErrors(c);
    TopRuns(h, req);
    LocalizedCallIs(c);
    CallRuns(c, ctx, []);
    CallRuns(l, ctx, []);
    var path := [] + [StepOf(c)];
    var visit := Visit(path, CalleeCtx(c, ctx), CalleeArgs(c, ctx));
    assert RunEndpoint(e, CalleeArgs(c, ctx), path) == Trace([visit], Some(OtherError));
    assert RunCall(c, Some(ctx), []) == Trace([visit], Some(Disguised));
    assert RunHandler(h, ctx, []) == Trace([visit] + [], None);
    assert RunEndpoint(e, CalleeArgs(l, ctx), [StepOf(l)]).failure == Some(OtherError);
    assert Localized(h) == Ask(l, Return, Return, Some(Return), None);
    assert RunHandler(Localized(h), ctx, []).failure == Some(OtherError);
    assert !HandlerAgrees(h, ctx, []);
    assert StartsAsRoot(ctx.auth, path);
    assert Serve(Top(h), req).visits == [Visit([], ctx, KwargsOf(req).value), visit];
  }

  /** A result that JSON changes, such as a dict with integer keys, shows in a handler that does
      something else with it. */
  lemma {:induction false} ChangedResultShows(hop: Hop, req: Request)
    requires ValidTraceparent(req.traceparent) && IdentityOf(req).Some? && !req.payload.BadJson? && hop.Http?
    ensures var c := Call(hop, Node("g", true, Run(Return), Run(Return)), [], Null, true, Through);
            var n := Top(Ask(c, Return, Raise(false), None, None));
            && Serve(n, req).failure == Some(OtherError) && Serve(OneProcess(n), req).failure == None
            && !SameToTheApp(Serve(n, req), Serve(OneProcess(n), req)) && !Agrees(n, req)
  {
    var e := Run(Return);
    var c := Call(hop, Node("g", true, e, e), [], Null, true, Through);
    var ctx, l, h := Ctx(req.traceparent, IdentityOf(req)), LocalizedCall(c), Ask(c, Return, Raise(false), None, None);
    TopRuns(h, req);
    LocalizedCallIs(c);
    CallRuns(c, ctx, []);
    CallRuns(l, ctx, []);
    assert RunCall(c, Some(ctx), []).failure == None;
    assert RunHandler(h, ctx, []).failure == Some(OtherError);
    assert RunCall(l, Some(ctx), []).failure == None;
    assert Localized(h) == Ask(l, Return, Raise(false), None, None);
    assert RunHandler(Localized(h), ctx, []).failure == None;
    assert !HandlerAgrees(h, ctx, []);
  }

  // ---------------------------------------------------------------- the code

  /** `build_kwargs`; None stands for the error about a body that is no JSON. */
  method BuildKwargs(req: Request) returns (r: Option<Kwargs>)
    ensures r == KwargsOf(req)
    ensures r.None? <==> req.payload == BadJson
    ensures r.Some? ==> Passes(AsTexts(req.params), BodyOf(req.payload), req.authData, req.traceparent, r.value)
  {
    RequestArguments(req);
    var kwargs: Kwargs := map[];
    var i := 0;
    while i < |req.params|
      invariant i <= |req.params| && kwargs == Filled(req.params[..i])
    {
      assert req.params[..i + 1][..i] == req.params[..i];
      kwargs := kwargs[req.params[i].0 := Value(Text(req.params[i].1))];
      i := i + 1;
    }
    assert req.params[..i] == req.params;
    kwargs := kwargs["query" := QueryDict];
    kwargs := kwargs["headers" := HeaderDict(req.traceparent)];
    if req.authData.Some? { kwargs := kwargs["auth" := Value(req.authData.value)]; }
    if !req.payload.NoBody? {
      if req.payload.BadJson? { return None; }
      kwargs := kwargs["body" := Value(req.payload.json)];
    }
    return Some(kwargs);
  }

  /** A thread running handlers, with its `_request_ctx`. */
  class Thread {
    var current: Option<Ctx>

    constructor ()
      ensures current == None
    {
      current := None;
    }

    /** The wrapper `api` puts around a handler: the context is taken from the arguments, set
        before the handler and reset in `finally`, so that afterwards the variable is what it
        was, whatever happened. */
    method Wrapper(e: Endpoint, kwargs: Kwargs, path: seq<Step>) returns (t: Trace)
      modifies this
      ensures current == old(current)
      ensures t == RunEndpoint(e, kwargs, path)
      decreases e
    {
      var ctx := CtxOf(kwargs);
      match e
      case Refuse(api) => t := Trace([], Some(Raised(api)));
      case Run(h) =>
        var token := current;
        current := Some(ctx);
        var r := Execute(h, ctx, path);
        current := token;
        t := Trace([Visit(path, ctx, kwargs)] + r.visits, r.failure);
    }

    /** A handler: it makes its calls one after the other, each with the context it was started
        with, whatever handlers the earlier calls have run in this thread. */
    method Execute(h: Handler, ghost ctx: Ctx, path: seq<Step>) returns (t: Trace)
      requires current == Some(ctx)
      modifies this
      ensures current == old(current)
      ensures t == RunHandler(h, ctx, path)
      decreases h
    {
      var visits, rest := [], h;
      while rest.Ask?
        invariant current == Some(ctx) && (rest == h || rest < h)
        invariant RunHandler(h, ctx, path) ==
                  Trace(visits + RunHandler(rest, ctx, path).visits, RunHandler(rest, ctx, path).failure)
        decreases rest
      {
        var r := Invoke(rest.call, path);
        var next := Reaction(rest, r.failure);
        if next.None? { return Trace(visits + r.visits, r.failure); }
        Assoc(visits, r.visits, RunHandler(next.value, ctx, path).visits);
        visits, rest := visits + r.visits, next.value;
      }
      return Trace(visits, if rest.Raise? then Some(Raised(rest.api)) else None);
    }

    /** `call`: a function call in this process, or a request to another one, where a thread
        of its own runs the handler. */
    method Invoke(c: Call, path: seq<Step>) returns (t: Trace)
      modifies this
      ensures current == old(current)
      ensures t == RunCall(c, current, path)
      decreases c
    {
      var ctx := if current.Some? then current.value else Ctx("", None);
      if c.hop.Local? {
        if !c.found { return Trace([], Some(ApiError)); }
        t := Wrapper(c.callee.raw, LocalKwargs(c.params, c.body, ctx), path + [StepOf(c)]);
      } else {
        if c.wire.Unsent? { return Trace([], Some(Raised(c.wire.api))); }
        var child := ChildTraceparent(ctx.traceparent, c.hop.random, c.hop.span);
        var peer := new Thread();
        t := peer.Internal(c.callee, TextParams(c.params), InnerBody(c.body),
                           TraceContext(Some(child), c.hop.serverId, c.hop.serverSpan), ctx.auth, path + [StepOf(c)]);
        t := Trace(t.visits, if c.wire.Lost? then Some(Raised(c.wire.api)) else Crossed(t.failure));
      }
    }

    /** The internal call route: whatever the thread ran before, it finds and leaves the same. */
    method Internal(n: Node, params: seq<(string, string)>, payload: Payload, traceparent: string,
                    header: Option<Identity>, path: seq<Step>) returns (t: Trace)
      modifies this
      ensures current == old(current)
      ensures t == RunInternal(n, params, payload, traceparent, header, path)
      decreases n
    {
      var authData: Option<Json> := None;
      if n.requiresAuth {
        if header.None? { return Trace([], Some(ApiError)); }
        authData := header;
      }
      var kwargs := BuildKwargs(Request(params, traceparent, authData, payload));
      if kwargs.None? { return Trace([], Some(ApiError)); }
      t := Wrapper(n.text, kwargs.value, path);
    }
  }
}
