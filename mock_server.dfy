/** The request dispatcher of the mock server: the handler registered on `/`
    (mock-server/main.go:91-156), wrapped by `withCORS`.

    The route table is the list read from `routes.json` at start-up; it is
    never replaced while the server runs, so it is a plain parameter here.
    The response files under `responses/` are the map `files` (a name is
    readable exactly when it is a key), and the token check is `tokenValid`. */
module MockServer {
  import opened Wrappers
  import opened PathPattern
  import opened TemplateName
  import opened Auth
  import opened Cors

  type Bytes = seq<bv8>

  /** `MatchDefinition` (mock-server/main.go:27-32). A JSON `fields` list has
      no counterpart here and is dropped when the table is loaded. */
  datatype MatchDefinition = MatchDefinition(
    field: string,
    source: string,
    cases: map<string, string>,
    default: string)

  /** `Route` (mock-server/main.go:18-25); absent JSON members take Go's zero
      values. */
  datatype Route = Route(
    httpMethod: string,
    path: string,
    responseTemplate: string,
    matchRule: Option<MatchDefinition>,
    authRequired: bool,
    delayMillis: int)

  /** What the handler reads from an incoming request. */
  datatype Request = Request(
    httpMethod: string,
    path: string,                          // r.URL.Path
    query: map<string, seq<string>>,       // r.URL.Query()
    body: Option<map<string, string>>,     // the body decoded as a JSON object of strings; None when decoding fails
    authorization: string,                 // Authorization header, "" when absent
    origin: string)                        // Origin header, "" when absent

  /** How the handler answers. `sleptMillis` is the delay requested before the
      answer was produced; the int64 nanosecond `time.Duration` it becomes is not
      modelled. */
  datatype Reply =
    | Preflight                                                  // OPTIONS: 200, empty body
    | NotFound                                                   // no route: http.NotFound
    | Unauthorized(sleptMillis: nat)                             // 401 "Unauthorized"
    | MissingFile(sleptMillis: nat, filename: string)            // 404 "Response file not found"
    | Json(sleptMillis: nat, filename: string, content: Bytes)   // 200, the file verbatim

  function StatusCode(reply: Reply): int {
    match reply
    case Preflight => 200
    case NotFound => 404
    case Unauthorized(_) => 401
    case MissingFile(_, _) => 404
    case Json(_, _, _) => 200
  }

  /** The sleep of main.go:109-111: only a positive delay is applied. */
  function SleptMillis(route: Route): nat {
    if route.delayMillis > 0 then route.delayMillis else 0
  }

  // ---------------------------------------------------------------------------
  // Match rules
  // ---------------------------------------------------------------------------

  /** `r.URL.Query().Get(key)`: the first value given for `key`, or "". */
  function QueryGet(query: map<string, seq<string>>, key: string): (v: string)
    ensures key !in query || |query[key]| == 0 ==> v == ""
    ensures key in query && |query[key]| > 0 ==> v == query[key][0]
  {
    if key in query && |query[key]| > 0 then query[key][0] else ""
  }

  /** `body[key]` on the decoded body: "" for a missing key or a body that did
      not decode. */
  function BodyField(body: Option<map<string, string>>, key: string): (v: string)
    ensures body.None? || key !in body.value ==> v == ""
    ensures body.Some? && key in body.value ==> v == body.value[key]
  {
    match body
    case Some(fields) => if key in fields then fields[key] else ""
    case None => ""
  }

  /** The value a match rule compares against its cases: a body field when the
      source is exactly "body", a query parameter for any other source. */
  function Discriminator(m: MatchDefinition, req: Request): (val: string)
    ensures m.source == "body" && (req.body.None? || m.field !in req.body.value) ==> val == ""
    ensures m.source == "body" && req.body.Some? && m.field in req.body.value ==> val == req.body.value[m.field]
    ensures m.source != "body" && (m.field !in req.query || |req.query[m.field]| == 0) ==> val == ""
    ensures m.source != "body" && m.field in req.query && |req.query[m.field]| > 0 ==> val == req.query[m.field][0]
  {
    if m.source == "body" then BodyField(req.body, m.field) else QueryGet(req.query, m.field)
  }

  /** The case for `val`, or the default when there is none. */
  function SelectTemplate(m: MatchDefinition, val: string): (name: string)
    ensures val in m.cases ==> name == m.cases[val]
    ensures val !in m.cases ==> name == m.default
  {
    if val in m.cases then m.cases[val] else m.default
  }

  /** The file name a committed route serves, for the captures of its path. */
  function ResolveName(route: Route, caps: seq<string>, req: Request): (name: string)
    requires |caps| == HoleCount(Compile(route.path))
    ensures route.matchRule.None? ==>
              name == SubstituteParams(route.responseTemplate, HoleNames(Compile(route.path)), caps)
    ensures route.matchRule.Some? ==>
              var m := route.matchRule.value;
              var val := Discriminator(m, req);
              (val in m.cases ==> name == m.cases[val]) && (val !in m.cases ==> name == m.default)
  {
    match route.matchRule
    case None => SubstituteParams(route.responseTemplate, HoleNames(Compile(route.path)), caps)
    case Some(m) => SelectTemplate(m, Discriminator(m, req))
  }

  /** With a match rule the name depends on the request's discriminator only:
      the template and the path captures are discarded. */
  lemma MatchRuleDiscardsPathName(route: Route, caps: seq<string>, caps': seq<string>, template': string, req: Request)
    requires route.matchRule.Some?
    requires |caps| == HoleCount(Compile(route.path)) && |caps'| == |caps|
    ensures ResolveName(route, caps, req) == ResolveName(route.(responseTemplate := template'), caps', req)
  {
  }

  // ---------------------------------------------------------------------------
  // Route selection
  // ---------------------------------------------------------------------------

  /** Route `route` accepts a request with this method and path: the methods
      are equal strings (case matters) and the anchored path pattern matches;
      the result is the captured values. */
  function RouteMatch(route: Route, verb: string, path: string): (caps: Option<seq<string>>)
    ensures caps.Some? <==> verb == route.httpMethod && Match(Compile(route.path), path).Some?
    ensures caps.Some? ==> Fits(Compile(route.path), caps.value)
                           && Fill(Compile(route.path), caps.value) == path
  {
    if verb != route.httpMethod then None else Match(Compile(route.path), path)
  }

  datatype Commit = Commit(index: nat, captures: seq<string>)

  /** The first route at or after `from` that accepts the request. */
  function FirstMatchFrom(routes: seq<Route>, verb: string, path: string, from: nat): (r: Option<Commit>)
    requires from <= |routes|
    decreases |routes| - from
    ensures r.Some? ==> from <= r.value.index < |routes|
                        && RouteMatch(routes[r.value.index], verb, path) == Some(r.value.captures)
                        && forall j :: from <= j < r.value.index ==> RouteMatch(routes[j], verb, path).None?
    ensures r.None? ==> forall j :: from <= j < |routes| ==> RouteMatch(routes[j], verb, path).None?
  {
    if from == |routes| then None
    else
      match RouteMatch(routes[from], verb, path)
      case Some(caps) => Some(Commit(from, caps))
      case None => FirstMatchFrom(routes, verb, path, from + 1)
  }

  function FirstMatch(routes: seq<Route>, verb: string, path: string): Option<Commit> {
    FirstMatchFrom(routes, verb, path, 0)
  }

  // ---------------------------------------------------------------------------
  // The answer
  // ---------------------------------------------------------------------------

  /** What a committed route answers: the delay is applied first, then the
      token is checked, then the file is looked up. */
  function Respond(route: Route, caps: seq<string>, req: Request, tokenValid: string -> bool, files: map<string, Bytes>): (r: Reply)
    requires |caps| == HoleCount(Compile(route.path))
    ensures r.Unauthorized? || r.MissingFile? || r.Json?
    ensures r.sleptMillis == SleptMillis(route)
    ensures r.Unauthorized? <==> route.authRequired && !ValidateJwt(req.authorization, tokenValid)
    ensures !r.Unauthorized? ==> r.filename == ResolveName(route, caps, req)
    ensures r.Json? <==> !r.Unauthorized? && r.filename in files
    ensures r.Json? ==> r.content == files[r.filename]
  {
    var slept := SleptMillis(route);
    if route.authRequired && !ValidateJwt(req.authorization, tokenValid) then Unauthorized(slept)
    else
      var name := ResolveName(route, caps, req);
      if name in files then Json(slept, name, files[name]) else MissingFile(slept, name)
  }

  /** The handler on `/`: OPTIONS is answered at once; otherwise the first
      route that accepts the request answers, whatever its outcome, and a
      request no route accepts is not found. */
  function Dispatch(routes: seq<Route>, req: Request, tokenValid: string -> bool, files: map<string, Bytes>): (r: Reply)
    ensures req.httpMethod == "OPTIONS" ==> r == Preflight
    ensures r == NotFound <==>
              req.httpMethod != "OPTIONS" && forall j :: 0 <= j < |routes| ==> RouteMatch(routes[j], req.httpMethod, req.path).None?
    ensures StatusCode(r) in {200, 401, 404}
  {
    if req.httpMethod == "OPTIONS" then Preflight
    else
      match FirstMatch(routes, req.httpMethod, req.path)
      case None => NotFound
      case Some(c) => Respond(routes[c.index], c.captures, req, tokenValid, files)
  }

  /** The first route that accepts the request answers it, whatever it
      answers. */
  lemma DispatchCommitsToFirst(routes: seq<Route>, req: Request, tokenValid: string -> bool, files: map<string, Bytes>, i: nat)
    requires i < |routes| && req.httpMethod != "OPTIONS"
    requires RouteMatch(routes[i], req.httpMethod, req.path).Some?
    requires forall j :: 0 <= j < i ==> RouteMatch(routes[j], req.httpMethod, req.path).None?
    ensures Dispatch(routes, req, tokenValid, files)
            == Respond(routes[i], RouteMatch(routes[i], req.httpMethod, req.path).value, req, tokenValid, files)
  {
    var c := FirstMatch(routes, req.httpMethod, req.path);
    assert c.Some?;
    assert c.value.index == i;
  }

  /** Routes after the first one that accepts the request are never consulted,
      even when that route answers 401 or 404. */
  lemma LaterRoutesIgnored(routes: seq<Route>, later: seq<Route>, req: Request, tokenValid: string -> bool, files: map<string, Bytes>)
    requires exists i :: 0 <= i < |routes| && RouteMatch(routes[i], req.httpMethod, req.path).Some?
    ensures Dispatch(routes + later, req, tokenValid, files) == Dispatch(routes, req, tokenValid, files)
  {
    if req.httpMethod != "OPTIONS" {
      var c := FirstMatch(routes, req.httpMethod, req.path);
      assert c.Some?;
      var i := c.value.index;
      var all := routes + later;
      assert all[i] == routes[i];
      assert forall j :: 0 <= j < i ==> all[j] == routes[j];
      DispatchCommitsToFirst(routes, req, tokenValid, files, i);
      DispatchCommitsToFirst(all, req, tokenValid, files, i);
    }
  }

  /** A rejected token on the committed route gives 401 without any file
      being looked at: the answer is the same whatever the files are. */
  lemma UnauthorizedReadsNoFile(routes: seq<Route>, req: Request, tokenValid: string -> bool,
                                files: map<string, Bytes>, files': map<string, Bytes>)
    requires Dispatch(routes, req, tokenValid, files).Unauthorized?
    ensures Dispatch(routes, req, tokenValid, files') == Dispatch(routes, req, tokenValid, files)
  {
  }

  // ---------------------------------------------------------------------------
  // The handler as the source runs it
  // ---------------------------------------------------------------------------

  /** The loops of main.go:118-127: the parameter map from the placeholder
      names and the captures (a repeated name keeps its last capture), then
      every `{name}` of the template replaced by its value. */
  method SubstituteTemplate(template: string, keys: seq<string>, caps: seq<string>) returns (filename: string)
    requires |keys| == |caps|
    ensures filename == SubstituteParams(template, keys, caps)
  {
    var params := CollectParams(keys, caps);
    filename := ReplaceEach(template, Distinct(keys), params);
  }

  /** The first loop: `params[k] = matches[i+1]` for each key in turn. */
  method CollectParams(keys: seq<string>, caps: seq<string>) returns (params: map<string, string>)
    requires |keys| == |caps|
    ensures params == ParamsOf(keys, caps)
  {
    params := map[];
    for n := 0 to |keys|
      invariant params == ParamsOf(keys[..n], caps[..n])
    {
      assert ParamsOf(keys[..n + 1], caps[..n + 1]) == ParamsOf(keys[..n], caps[..n])[keys[n] := caps[n]] by {
        assert keys[..n + 1][..n] == keys[..n] && caps[..n + 1][..n] == caps[..n];
      }
      params := params[keys[n] := caps[n]];
    }
    assert keys[..|keys|] == keys && caps[..|caps|] == caps;
  }

  /** The second loop: one `strings.ReplaceAll` per name, in `order`. */
  method ReplaceEach(template: string, order: seq<string>, params: map<string, string>) returns (filename: string)
    requires forall j :: 0 <= j < |order| ==> order[j] in params
    ensures filename == ReplaceInOrder(template, order, params)
  {
    filename := template;
    for n := 0 to |order|
      invariant filename == ReplaceInOrder(template, order[..n], params)
    {
      var k := order[n];
      assert ReplaceInOrder(template, order[..n + 1], params)
             == Text.ReplaceAll(ReplaceInOrder(template, order[..n], params), "{" + k + "}", params[k]) by {
        assert order[..n + 1][..n] == order[..n];
      }
      filename := Text.ReplaceAll(filename, "{" + k + "}", params[k]);
    }
    assert order[..|order|] == order;
  }

  /** The part of the loop body that runs once a route is committed: sleep,
      token check, parameter map, file name, match rule, file read. */
  method ServeRoute(route: Route, caps: seq<string>, req: Request, tokenValid: string -> bool, files: map<string, Bytes>)
    returns (reply: Reply)
    requires Fits(Compile(route.path), caps)
    ensures reply == Respond(route, caps, req, tokenValid, files)
  {
    var slept: nat := if route.delayMillis > 0 then route.delayMillis else 0;
    if route.authRequired && !ValidateJwt(req.authorization, tokenValid) {
      return Unauthorized(slept);
    }

    var filename := SubstituteTemplate(route.responseTemplate, HoleNames(Compile(route.path)), caps);
    if route.matchRule.Some? {
      var m := route.matchRule.value;
      var val: string;
      if m.source == "body" {
        val := BodyField(req.body, m.field);
      } else {
        val := QueryGet(req.query, m.field);
      }
      if val in m.cases {
        filename := m.cases[val];
      } else {
        filename := m.default;
      }
    }
    assert filename == ResolveName(route, caps, req);

    if filename !in files {
      return MissingFile(slept, filename);
    }
    return Json(slept, filename, files[filename]);
  }

  /** The loop of the `/` handler over the route table. */
  method Handle(routes: seq<Route>, req: Request, tokenValid: string -> bool, files: map<string, Bytes>)
    returns (reply: Reply)
    ensures reply == Dispatch(routes, req, tokenValid, files)
  {
    if req.httpMethod == "OPTIONS" {
      return Preflight;
    }
    var i := 0;
    while i < |routes|
      invariant i <= |routes|
      invariant forall j :: 0 <= j < i ==> RouteMatch(routes[j], req.httpMethod, req.path).None?
    {
      var route := routes[i];
      if req.httpMethod != route.httpMethod {
        i := i + 1;
        continue;
      }
      var pattern := Compile(route.path);
      var matches := Match(pattern, req.path);
      if matches.None? {
        i := i + 1;
        continue;
      }
      var caps := matches.value;
      DispatchCommitsToFirst(routes, req, tokenValid, files, i);
      reply := ServeRoute(route, caps, req, tokenValid, files);
      return;
    }
    return NotFound;
  }

  /** `withCORS` around the `/` handler: the CORS headers, then either the
      preflight answer or the handler's, with the JSON content type on a
      served file. */
  method ServeRoot(allowed: seq<string>, routes: seq<Route>, req: Request,
                   tokenValid: string -> bool, files: map<string, Bytes>)
    returns (headers: map<string, string>, reply: Reply)
    ensures reply == Dispatch(routes, req, tokenValid, files)
    ensures headers == if reply.Json? then CorsHeaders(allowed, req.origin)["Content-Type" := "application/json"]
                       else CorsHeaders(allowed, req.origin)
  {
    headers := ApplyCors(allowed, req.origin);
    if req.httpMethod == "OPTIONS" {
      reply := Preflight;
      return;
    }
    reply := Handle(routes, req, tokenValid, files);
    if reply.Json? {
      headers := headers["Content-Type" := "application/json"];
    }
  }
}
