/** The gateway's request pipeline: resolve a route, authorize, check the rate
    limit, forward.  Limiter failures let the request through. */
module Gateway {
  import opened Text
  import opened Routing
  import RL = RateLimit
  import ApiKey

  const API_KEY_HEADER := "X-Api-Key"

  type Headers = map<string, seq<string>>

  datatype Request = Request(path: string, headers: Headers, remote: string)

  /** What asking the authorization service gives. */
  datatype Auth = Authorized(principal: ApiKey.Principal) | InvalidKey | Unavailable | Failed

  datatype Response = Reply(status: nat) | Forwarded(route: Route, path: string, headers: Headers)

  /** How the limiter's store behaves for one call. */
  datatype Fault = Works | Fails(ran: bool)

  function Header(headers: Headers, name: string): string {
    if name in headers && headers[name] != [] then headers[name][0] else ""
  }

  function RouteKey(route: Route): string {
    route.project + ("\U{0}" + (route.name + ("\U{0}" + route.prefix)))
  }

  function Authorize(route: Route, key: string, auth: Auth): Result<ApiKey.Principal, nat> {
    if !route.authRequired then Ok(ApiKey.Principal("", ""))
    else if TrimSpace(key) == "" then Err(401)
    else
      match auth
      case Authorized(principal) => if principal.project != route.project then Err(403) else Ok(principal)
      case InvalidKey => Err(401)
      case Unavailable => Err(503)
      case Failed => Err(500)
  }

  /** `splitHost` gives the host of an address that has a port. */
  function DirectClientIp(remote: string, splitHost: string -> Option<string>): string {
    var address := TrimSpace(remote);
    if address == "" then "unknown"
    else match splitHost(address)
      case Some(host) => if host != "" then host else address
      case None => address
  }

  function ClientId(route: Route, principal: ApiKey.Principal, req: Request, splitHost: string -> Option<string>): string {
    if route.authRequired && TrimSpace(principal.id) != "" then "api-key:" + principal.id
    else "ip:" + DirectClientIp(req.remote, splitHost)
  }

  datatype Decision = Refuse(status: nat) | Admit(route: Route, client: string)

  /** Everything that happens before the limiter is asked. */
  ghost function Decide(routes: seq<Route>, req: Request, auth: Auth, splitHost: string -> Option<string>): Decision {
    match Resolved(routes, req.path)
    case None => Refuse(404)
    case Some(route) =>
      match Authorize(route, Header(req.headers, API_KEY_HEADER), auth)
      case Err(status) => Refuse(status)
      case Ok(principal) => Admit(route, ClientId(route, principal, req, splitHost))
  }

  function Forward(route: Route, req: Request): Response {
    Forwarded(route, UpstreamPath(route, req.path), req.headers - {API_KEY_HEADER})
  }

  function CallFor(route: Route, client: string, now: RL.Time): RL.Call {
    RL.Call(RouteKey(route), TrimSpace(client), now)
  }

  /** The limit of a route is the limit kept for its key. */
  ghost predicate Agrees(routes: seq<Route>, policies: RL.Policies) {
    forall r :: r in routes && r.limit.PerWindow? ==>
      policies(RouteKey(r)) == RL.Policy(r.limit.requests, r.limit.window)
  }

  // ------------------------------------------------------------ one request

  datatype Event =
    | Arrive(routes: seq<Route>, req: Request, auth: Auth, splitHost: string -> Option<string>, now: RL.Time, fault: Fault)
    | Evict(key: RL.CounterKey, at: RL.Time)
  {
    function Now(): RL.Time {
      if Arrive? then now else at
    }

    ghost function Decision(): Decision
      requires Arrive?
    {
      Decide(routes, req, auth, splitHost)
    }

    ghost function Call(): RL.Call
      requires Arrive? && Decision().Admit?
    {
      CallFor(Decision().route, Decision().client, now)
    }
  }

  /** The request reaches the limiter with a policy and a client it accepts. */
  ghost predicate Counted(policies: RL.Policies, e: Event) {
    && e.Arrive? && e.Decision().Admit? && e.Decision().route.limit.PerWindow?
    && RL.ValidCall(policies, e.Call())
  }

  /** The script runs. */
  ghost predicate Ticks(policies: RL.Policies, e: Event) {
    Counted(policies, e) && e.fault != Fails(false)
  }

  ghost function StoreAfter(policies: RL.Policies, store: RL.Store, e: Event): RL.Store {
    if e.Evict? then store - {e.key}
    else if Ticks(policies, e) then RL.Tick(policies, store, e.Call())
    else store
  }

  ghost function ResponseTo(policies: RL.Policies, store: RL.Store, e: Event): Response
    requires e.Arrive?
  {
    match e.Decision()
    case Refuse(status) => Reply(status)
    case Admit(route, _) =>
      if route.limit.NoLimit? then Forward(route, e.req)
      else if !Counted(policies, e) then Reply(500)
      else if e.fault.Fails? then Forward(route, e.req)
      else if RL.Count(policies, store, e.Call()).count <= policies(RouteKey(route)).limit then Forward(route, e.req)
      else Reply(429)
  }

  class Handler {
    const limiter: RL.Limiter

    constructor ()
      ensures fresh(limiter) && limiter.store == map[]
    {
      limiter := new RL.Limiter();
    }

    /** `proxyRequest`. */
    method ProxyRequest(ghost policies: RL.Policies, routes: seq<Route>, req: Request, auth: Auth,
                        splitHost: string -> Option<string>, now: RL.Time, fault: Fault)
        returns (response: Response)
      requires Agrees(routes, policies)
      modifies limiter
      ensures response == ResponseTo(policies, old(limiter.store), Arrive(routes, req, auth, splitHost, now, fault))
      ensures limiter.store == StoreAfter(policies, old(limiter.store), Arrive(routes, req, auth, splitHost, now, fault))
    {
      hide Resolved, RL.Tick, RL.Count, RouteKey, TrimSpace, UpstreamPath, Matches;
      ghost var e := Arrive(routes, req, auth, splitHost, now, fault);
      var resolved := ResolveRoute(routes, req.path);
      if resolved.None? {
        return Reply(404);
      }
      var route := resolved.value;
      ResolvedIsLongest(routes, req.path);
      var principal := Authorize(route, Header(req.headers, API_KEY_HEADER), auth);
      if principal.Err? {
        return Reply(principal.error);
      }
      var client := ClientId(route, principal.value, req, splitHost);
      assert e.Decision() == Admit(route, client);
      if route.limit.PerWindow? {
        var policy := RL.Policy(route.limit.requests, route.limit.window);
        var call := CallFor(route, client, now);
        SamePolicy(policies, _ => policy, limiter.store, call);
        var verdict := limiter.Allow(_ => policy, call, fault.Fails?, fault.Fails? && fault.ran);
        if verdict.Err? && !verdict.error.StoreFailed? {
          return Reply(500);
        }
        if verdict.Ok? && !verdict.value.allowed {
          return Reply(429);
        }
      }
      response := Forward(route, req);
    }
  }

  /** The limiter only looks at the policy of the call's own route. */
  lemma SamePolicy(p: RL.Policies, q: RL.Policies, store: RL.Store, call: RL.Call)
    requires p(call.route) == q(call.route)
    ensures RL.ValidCall(p, call) == RL.ValidCall(q, call)
    ensures RL.ValidCall(p, call) ==>
              RL.Count(p, store, call) == RL.Count(q, store, call) && RL.Tick(p, store, call) == RL.Tick(q, store, call)
  {}

  // ---------------------------------------------------------- what is passed on

  /** What is passed on of a request that is let through: the route is the matching
      one with the most segments; its prefix is taken off the path if the route says
      so, leaving at least a slash; and all headers but the key's go along. */
  lemma ForwardedAsPromised(policies: RL.Policies, store: RL.Store, e: Event)
    requires e.Arrive? && ResponseTo(policies, store, e).Forwarded?
    ensures var out, path := ResponseTo(policies, store, e), e.req.path;
            var prefix := TrimSlashes(out.route.prefix);
            && out.route in e.routes && Matches(out.route.prefix, path)
            && (Accepted(e.routes) ==> IsBest(e.routes, path, out.route))
            && (!out.route.stripPrefix ==> out.path == path)
            && (out.route.stripPrefix ==>
                  if path == prefix then out.path == "/"
                  else if HasPrefix(path, prefix + "/") then prefix + out.path == path
                  else out.route.prefix == "/" && out.path == "/" + path)
            && out.headers.Keys == e.req.headers.Keys - {API_KEY_HEADER}
            && (forall name :: name in out.headers ==> out.headers[name] == e.req.headers[name])
  {
    hide RL.Count, RL.ValidCall, Resolved, Matches, Header, TrimSlashes, IsBest, Accepted, UpstreamPath;
    var route := ResponseTo(policies, store, e).route;
    ResolvedIsLongest(e.routes, e.req.path);
    if Accepted(e.routes) { ResolvedIsBest(e.routes, e.req.path); }
    StrippedPath(route, e.req.path);
  }

  lemma StrippedPath(route: Route, path: string)
    requires Matches(route.prefix, path)
    ensures var prefix := TrimSlashes(route.prefix);
            && (!route.stripPrefix ==> UpstreamPath(route, path) == path)
            && (route.stripPrefix ==>
                  if path == prefix then UpstreamPath(route, path) == "/"
                  else if HasPrefix(path, prefix + "/") then prefix + UpstreamPath(route, path) == path
                  else route.prefix == "/" && UpstreamPath(route, path) == "/" + path)
  {
    if route.stripPrefix {
      StrippingIsReversible(route, path);
      if route.prefix == "/" { NormalTrimmed(route.prefix); }
    }
  }

  const FORWARDED_HOST := "X-Forwarded-Host"
  const FORWARDED_PROTO := "X-Forwarded-Proto"

  /** Headers that a proxy never passes on. */
  const HOP_HEADERS := {"Connection", "Proxy-Connection", "Keep-Alive", "Proxy-Authenticate", "Proxy-Authorization",
                        "Te", "Trailer", "Transfer-Encoding", "Upgrade"}

  /** Headers that the reverse proxy writes itself. */
  const PROXY_HEADERS := {"Connection", "Te", "Upgrade", "User-Agent", "X-Forwarded-For"}

  /** The director overwrites the forwarding headers. */
  function Directed(headers: Headers, host: string, scheme: string): Headers {
    headers[FORWARDED_HOST := [host]][FORWARDED_PROTO := [scheme]]
  }

  /** What the upstream gets: after the director, the headers that the request's
      Connection header lists are removed, and those of the connection; the
      proxy's own are added. */
  function Outgoing(headers: Headers, host: string, scheme: string, listed: set<string>, own: Headers): Headers
    requires own.Keys <= PROXY_HEADERS
  {
    Directed(headers, host, scheme) - (listed + HOP_HEADERS) + own
  }

  /** The key header reaches no upstream, whatever the request, the route, the
      state of the limiter and the Connection header. */
  lemma KeyNeverLeaves(policies: RL.Policies, store: RL.Store, e: Event, host: string, scheme: string,
                       listed: set<string>, own: Headers)
    requires e.Arrive? && own.Keys <= PROXY_HEADERS
    ensures var response := ResponseTo(policies, store, e);
            response.Forwarded? ==> API_KEY_HEADER !in Outgoing(response.headers, host, scheme, listed, own)
  {
    hide RL.Count, RL.ValidCall, UpstreamPath, Resolved;
    KeyIsNew();
  }

  lemma KeyIsNew()
    ensures API_KEY_HEADER !in PROXY_HEADERS
    ensures API_KEY_HEADER != FORWARDED_HOST && API_KEY_HEADER != FORWARDED_PROTO
  {}

  lemma ForwardingHeadersAreEndToEnd()
    ensures FORWARDED_HOST !in HOP_HEADERS + PROXY_HEADERS && FORWARDED_PROTO !in HOP_HEADERS + PROXY_HEADERS
    ensures FORWARDED_HOST != FORWARDED_PROTO
  {}

  /** The upstream learns host and scheme from the gateway and never from the
      client, but only if the request's Connection header does not list the two
      headers: the proxy removes listed headers after the director has set them. */
  lemma ForwardingHeadersIff(headers: Headers, host: string, scheme: string, listed: set<string>, own: Headers)
    requires own.Keys <= PROXY_HEADERS
    ensures var out := Outgoing(headers, host, scheme, listed, own);
            && (FORWARDED_HOST in out <==> FORWARDED_HOST !in listed)
            && (FORWARDED_HOST in out ==> out[FORWARDED_HOST] == [host])
            && (FORWARDED_PROTO in out <==> FORWARDED_PROTO !in listed)
            && (FORWARDED_PROTO in out ==> out[FORWARDED_PROTO] == [scheme])
  {
    ForwardingHeadersAreEndToEnd();
    hide HOP_HEADERS, PROXY_HEADERS, FORWARDED_HOST, FORWARDED_PROTO;
  }

  /** What the authorization service answers when it reaches the key table. */
  function Answer(validated: Result<ApiKey.Principal, ApiKey.KeyError>): Auth {
    match validated
    case Ok(principal) =>
      var id, project := TrimSpace(principal.id), TrimSpace(principal.project);
      if id == "" || project == "" then Unavailable else Authorized(ApiKey.Principal(id, project))
    case Err(e) => if e == ApiKey.InvalidKey then InvalidKey else Unavailable
  }

  /** The text, trimmed, is the value of this stored key of the project, which is
      active and still enabled. */
  ghost predicate Opens(digest: ApiKey.Digest, keys: ApiKey.KeyTable, enabled: set<string>, origins: ApiKey.Origins,
                        prefix: string, raw: string, clock: int, project: string) {
    && prefix in keys && prefix in origins
    && TrimSpace(raw) == ApiKey.ValueOf(digest, origins, prefix)
    && keys[prefix].Active(clock) && keys[prefix].id in enabled
    && TrimSpace(keys[prefix].project) == project
  }

  ghost predicate Authentic(digest: ApiKey.Digest, keys: ApiKey.KeyTable, enabled: set<string>, origins: ApiKey.Origins,
                            raw: string, clock: int, project: string) {
    exists prefix :: Opens(digest, keys, enabled, origins, prefix, raw, clock, project)
  }

  /** Only the authorization service lets a request pass a protected route. */
  lemma ForwardedWasAuthorized(policies: RL.Policies, store: RL.Store, e: Event)
    requires e.Arrive?
    ensures var response := ResponseTo(policies, store, e);
            response.Forwarded? && response.route.authRequired ==>
              e.auth.Authorized? && e.auth.principal.project == response.route.project
  {
    hide RL.Count, RL.ValidCall, UpstreamPath, Resolved, TrimSpace, Header, ClientId;
  }

  lemma AuthorizedIsAuthentic(digest: ApiKey.Digest, keys: ApiKey.KeyTable, enabled: set<string>, origins: ApiKey.Origins,
                              raw: string, clock: int)
    requires ApiKey.Issued(digest, keys, origins) && ApiKey.NoCollision(digest, keys, origins, TrimSpace(raw))
    ensures var auth := Answer(ApiKey.Validate(digest, keys, enabled, raw, clock));
            auth.Authorized? ==> Authentic(digest, keys, enabled, origins, raw, clock, auth.principal.project)
  {
    hide TrimSpace, ApiKey.Validate, ApiKey.ValueOf;
    if forall prefix :: prefix in keys ==> TrimSpace(raw) != ApiKey.ValueOf(digest, origins, prefix) {
      ApiKey.OnlyStoredKeysAuthenticate(digest, keys, enabled, origins, raw, clock);
    } else {
      var prefix :| prefix in keys && TrimSpace(raw) == ApiKey.ValueOf(digest, origins, prefix);
      ApiKey.StoredKeyAuthenticates(digest, keys, enabled, origins, prefix, raw, clock);
      var auth := Answer(ApiKey.Validate(digest, keys, enabled, raw, clock));
      assert auth.Authorized? ==>
          Opens(digest, keys, enabled, origins, prefix, raw, clock, auth.principal.project);
    }
  }

  /** A request is forwarded on a protected route only if its key, trimmed, is
      the value of a stored, active key of the route's project. */
  lemma ForwardedMeansAuthenticated(
      policies: RL.Policies, store: RL.Store, e: Event,
      digest: ApiKey.Digest, keys: ApiKey.KeyTable, enabled: set<string>, origins: ApiKey.Origins, clock: int)
    requires e.Arrive? && ApiKey.Issued(digest, keys, origins)
    requires ApiKey.NoCollision(digest, keys, origins, TrimSpace(Header(e.req.headers, API_KEY_HEADER)))
    ensures var raw, response := Header(e.req.headers, API_KEY_HEADER), ResponseTo(policies, store, e);
            e.auth == Answer(ApiKey.Validate(digest, keys, enabled, raw, clock))
            && response.Forwarded? && response.route.authRequired ==>
              Authentic(digest, keys, enabled, origins, raw, clock, response.route.project)
  {
    hide ResponseTo, Answer, Authentic, ApiKey.Issued, ApiKey.NoCollision, ApiKey.Validate, Header, TrimSpace;
    ForwardedWasAuthorized(policies, store, e);
    AuthorizedIsAuthentic(digest, keys, enabled, origins, Header(e.req.headers, API_KEY_HEADER), clock);
  }

  /** The other direction: the value of a stored, active key of the route's project
      lets a request in, counted under that key; any other text is told 401. */
  lemma KeysDecide(
      policies: RL.Policies, store: RL.Store, e: Event,
      digest: ApiKey.Digest, keys: ApiKey.KeyTable, enabled: set<string>, origins: ApiKey.Origins, clock: int)
    requires e.Arrive? && ApiKey.Issued(digest, keys, origins)
    requires ApiKey.NoCollision(digest, keys, origins, TrimSpace(Header(e.req.headers, API_KEY_HEADER)))
    requires e.auth == Answer(ApiKey.Validate(digest, keys, enabled, Header(e.req.headers, API_KEY_HEADER), clock))
    requires Resolved(e.routes, e.req.path).Some? && Resolved(e.routes, e.req.path).value.authRequired
    ensures var raw, route := Header(e.req.headers, API_KEY_HEADER), Resolved(e.routes, e.req.path).value;
            && (forall prefix :: Opens(digest, keys, enabled, origins, prefix, raw, clock, route.project)
                                 && route.project != "" && TrimSpace(keys[prefix].id) != "" ==>
                  e.Decision() == Admit(route, "api-key:" + TrimSpace(keys[prefix].id)))
            && ((forall prefix :: prefix in keys ==> TrimSpace(raw) != ApiKey.ValueOf(digest, origins, prefix)) ==>
                  ResponseTo(policies, store, e) == Reply(401))
  {
    var raw, route := Header(e.req.headers, API_KEY_HEADER), Resolved(e.routes, e.req.path).value;
    hide Header, Resolved, TrimSpace, ApiKey.Validate, ApiKey.ValueOf, RL.Count, RL.ValidCall;
    forall prefix | Opens(digest, keys, enabled, origins, prefix, raw, clock, route.project)
                    && route.project != "" && TrimSpace(keys[prefix].id) != ""
      ensures e.Decision() == Admit(route, "api-key:" + TrimSpace(keys[prefix].id))
    {
      ApiKey.StoredKeyAuthenticates(digest, keys, enabled, origins, prefix, raw, clock);
      ApiKey.ValuesAreNotBlank(digest, keys, origins, prefix);
      TrimTwice(keys[prefix].id);
    }
    if forall prefix :: prefix in keys ==> TrimSpace(raw) != ApiKey.ValueOf(digest, origins, prefix) {
      ApiKey.OnlyStoredKeysAuthenticate(digest, keys, enabled, origins, raw, clock);
    }
  }

  // ------------------------------------------------------------ status codes

  ghost predicate NothingMatches(e: Event)
    requires e.Arrive?
  {
    forall r :: r in e.routes ==> !Matches(r.prefix, e.req.path)
  }

  /** The request resolves to a protected route and brings some key. */
  ghost predicate Asks(e: Event)
    requires e.Arrive?
  {
    var route := Resolved(e.routes, e.req.path);
    route.Some? && route.value.authRequired && TrimSpace(Header(e.req.headers, API_KEY_HEADER)) != ""
  }

  /** What each refusal tells the client. */
  lemma StatusTells(policies: RL.Policies, store: RL.Store, e: Event)
    requires e.Arrive? && Accepted(e.routes)
    ensures var response, route := ResponseTo(policies, store, e), Resolved(e.routes, e.req.path);
            && (response == Reply(404) <==> NothingMatches(e))
            && (response == Reply(401) <==>
                  route.Some? && route.value.authRequired && (!Asks(e) || e.auth.InvalidKey?))
            && (response == Reply(403) <==>
                  Asks(e) && e.auth.Authorized? && e.auth.principal.project != route.value.project)
            && (response == Reply(503) <==> Asks(e) && e.auth.Unavailable?)
            && (response == Reply(429) <==>
                  Counted(policies, e) && e.fault.Works?
                  && RL.Count(policies, store, e.Call()).count > policies(e.Call().route).limit)
            && (Agrees(e.routes, policies) ==>
                  (response == Reply(500) <==> (Asks(e) && e.auth.Failed?) || BadLimit(e)))
  {
    hide RL.Count, RL.ValidCall, Resolved, TrimSpace, Matches, UpstreamPath, Header, RouteKey, Agrees, RL.Policy.Valid;
    ResolvedIsBest(e.routes, e.req.path);
    if Agrees(e.routes, policies) && e.Decision().Admit? { CountedUnlessBad(policies, e); }
  }

  /** The request is let in, to a route with a limit that the limiter does not accept. */
  ghost predicate BadLimit(e: Event)
    requires e.Arrive?
  {
    && e.Decision().Admit? && e.Decision().route.limit.PerWindow?
    && !RL.Policy(e.Decision().route.limit.requests, e.Decision().route.limit.window).Valid()
  }

  /** The limiter never refuses the client or the route of a request. */
  lemma CountedUnlessBad(policies: RL.Policies, e: Event)
    requires e.Arrive? && Agrees(e.routes, policies) && e.Decision().Admit?
    ensures e.Decision().route.limit.PerWindow? ==> (Counted(policies, e) <==> !BadLimit(e))
  {
    hide Resolved, Matches, UpstreamPath, Header, TrimSpace, RL.Policy.Valid;
    ResolvedIsLongest(e.routes, e.req.path);
    var route := e.Decision().route;
    var i := |route.project|;
    assert RouteKey(route)[i] == '\U{0}';
    assert !IsSpace('\U{0}');
    NotBlank(RouteKey(route), i);
    NamedClient(e);
  }

  lemma NamedClient(e: Event)
    requires e.Arrive? && e.Decision().Admit?
    ensures TrimSpace(TrimSpace(e.Decision().client)) != ""
  {
    hide Resolved, Header, TrimSpace, DirectClientIp;
    var client := e.Decision().client;
    assert !IsSpace(client[0]);
    NotBlank(client, 0);
    TrimTwice(client);
  }

  // ----------------------------------------------------------------- clients

  /** A trimmed text stays as it is behind a marker. */
  lemma TrimBehindMarker(marker: string, s: string)
    requires marker != "" && !IsSpace(marker[0]) && s != "" && TrimSpace(s) == s
    ensures TrimSpace(marker + s) == marker + s
  {
    hide IsSpace, TrimSpace;
    TrimFixedIff(s);
    TrimFixedIff(marker + s);
  }

  lemma FirstOfMarked(s: string)
    ensures TrimSpace("api-key:" + s) != "" && TrimSpace("api-key:" + s)[0] == 'a'
    ensures TrimSpace("ip:" + s) != "" && TrimSpace("ip:" + s)[0] == 'i'
  {
    TrimRightEnd("api-key:" + s);
    TrimRightEnd("ip:" + s);
  }

  /** Callers of one route share a counter only if they have the same key, or are
      both known by address: different keys, and a key and an address, never do. */
  lemma ClientsDoNotShare(route: Route, a: ApiKey.Principal, b: ApiKey.Principal, reqA: Request, reqB: Request,
                          splitHost: string -> Option<string>, now: RL.Time)
    requires TrimSpace(a.id) == a.id && TrimSpace(b.id) == b.id
    requires CallFor(route, ClientId(route, a, reqA, splitHost), now) == CallFor(route, ClientId(route, b, reqB, splitHost), now)
    ensures route.authRequired ==> a.id == b.id
  {
    hide TrimSpace, DirectClientIp;
    FirstOfMarked(a.id);
    FirstOfMarked(b.id);
    FirstOfMarked(DirectClientIp(reqA.remote, splitHost));
    FirstOfMarked(DirectClientIp(reqB.remote, splitHost));
    if route.authRequired && a.id != "" && b.id != "" {
      NotSpaceA();
      TrimBehindMarker("api-key:", a.id);
      TrimBehindMarker("api-key:", b.id);
      assert ("api-key:" + a.id)[8..] == a.id && ("api-key:" + b.id)[8..] == b.id;
    }
  }

  /** Callers of an open route share its counter exactly if they have the same
      host, whatever their ports. */
  lemma HostsDecide(route: Route, a: ApiKey.Principal, b: ApiKey.Principal, reqA: Request, reqB: Request,
                    hostA: string, hostB: string, splitHost: string -> Option<string>, now: RL.Time)
    requires !route.authRequired && hostA != "" && hostB != "" && TrimSpace(hostA) == hostA && TrimSpace(hostB) == hostB
    requires TrimSpace(reqA.remote) != "" && splitHost(TrimSpace(reqA.remote)) == Some(hostA)
    requires TrimSpace(reqB.remote) != "" && splitHost(TrimSpace(reqB.remote)) == Some(hostB)
    ensures CallFor(route, ClientId(route, a, reqA, splitHost), now) == CallFor(route, ClientId(route, b, reqB, splitHost), now)
       <==> hostA == hostB
  {
    hide TrimSpace;
    NotSpaceA();
    TrimBehindMarker("ip:", hostA);
    TrimBehindMarker("ip:", hostB);
    assert ("ip:" + hostA)[3..] == hostA && ("ip:" + hostB)[3..] == hostB;
  }

  /** An address without a host to split off counts as a whole, and a missing one as `unknown`. */
  lemma WholeAddresses(remote: string, splitHost: string -> Option<string>)
    ensures TrimSpace(remote) == "" ==> DirectClientIp(remote, splitHost) == "unknown"
    ensures TrimSpace(remote) != "" && splitHost(TrimSpace(remote)) in {None, Some("")} ==>
              DirectClientIp(remote, splitHost) == TrimSpace(remote)
  {}

  lemma NotSpaceA()
    ensures !IsSpace('a') && !IsSpace('i')
  {}

  // -------------------------------------------------------------- route keys

  predicate NoNul(s: string) {
    '\U{0}' !in s
  }

  lemma CutAtNul(a: string, x: string, b: string, y: string)
    requires NoNul(a) && NoNul(b) && a + ("\U{0}" + x) == b + ("\U{0}" + y)
    ensures a == b && x == y
  {
    var s := a + ("\U{0}" + x);
    assert s[|a|] == '\U{0}' && s[|b|] == '\U{0}';
    assert forall i :: 0 <= i < |b| ==> s[i] == b[i];
    assert forall i :: 0 <= i < |a| ==> s[i] == a[i];
    assert s[..|a|] == a && s[..|b|] == b;
    assert s[|a| + 1..] == x && s[|b| + 1..] == y;
  }

  /** Routes with the same counters have the same project, name and prefix. */
  lemma RouteKeyIsFaithful(a: Route, b: Route)
    requires NoNul(a.project) && NoNul(a.name) && NoNul(b.project) && NoNul(b.name)
    requires RouteKey(a) == RouteKey(b)
    ensures a.project == b.project && a.name == b.name && a.prefix == b.prefix
  {
    CutAtNul(a.project, a.name + ("\U{0}" + a.prefix), b.project, b.name + ("\U{0}" + b.prefix));
    CutAtNul(a.name, a.prefix, b.name, b.prefix);
  }

  ghost predicate HasKey(routes: seq<Route>, r: Route, key: string) {
    r in routes && r.limit.PerWindow? && RouteKey(r) == key
  }

  /** The policy of the route with this key. */
  ghost function PolicyTable(routes: seq<Route>): RL.Policies {
    key => if exists r :: HasKey(routes, r, key)
           then var r :| HasKey(routes, r, key); RL.Policy(r.limit.requests, r.limit.window)
           else RL.Policy(0, 0)
  }

  /** Every accepted snapshot has such a table of policies. */
  lemma TableAgrees(routes: seq<Route>)
    requires Accepted(routes) && forall r :: r in routes ==> NoNul(r.project) && NoNul(r.name)
    ensures Agrees(routes, PolicyTable(routes))
  {
    hide RouteKey, NoNul;
    forall r | r in routes && r.limit.PerWindow?
      ensures PolicyTable(routes)(RouteKey(r)) == RL.Policy(r.limit.requests, r.limit.window)
    {
      assert HasKey(routes, r, RouteKey(r));
      forall other | HasKey(routes, other, RouteKey(r)) ensures other == r {
        RouteKeyIsFaithful(other, r);
        DistinctRoutes(routes, other, r);
      }
    }
  }

  /** Whatever limit the control plane can store (a 32-bit number of seconds),
      the limiter accepts it and cuts nothing off its window, so that the bound of
      twice the limit per window length applies. */
  lemma StoredLimitsAreWhole(r: RouteResponse, isUrl: string -> bool)
    requires r.windowSeconds <= 0x7FFF_FFFF && ToDomain(r, isUrl).Ok? && ToDomain(r, isUrl).value.limit.PerWindow?
    ensures var limit := ToDomain(r, isUrl).value.limit;
            var policy := RL.Policy(limit.requests, limit.window);
            policy.Valid() && RL.Spare(policy) == 0 && policy.window == r.windowSeconds * 1_000_000_000
  {
    hide TrimSpace, NormalizePathPrefix;
    assert ToLimit(r) == Ok(ToDomain(r, isUrl).value.limit);
    WholeMillis(r.windowSeconds);
  }

  lemma WholeMillis(seconds: int)
    requires 0 < seconds <= 0x7FFF_FFFF
    ensures Duration(seconds, 1_000_000_000) == seconds * 1_000_000_000
    ensures (seconds * 1_000_000_000) % RL.MILLI == 0
  {
    DivModUnique(seconds * 1_000_000_000, RL.MILLI, seconds * 1000, 0);
  }

  // -------------------------------------------------------------------- runs

  function Clock(run: seq<Event>): RL.Time {
    if run == [] then 0 else Last(run).Now()
  }

  ghost predicate Enabled(policies: RL.Policies, store: RL.Store, e: Event) {
    if e.Arrive? then Agrees(e.routes, policies) else RL.Enabled(policies, store, RL.Evict(e.key, e.at))
  }

  /** Requests in the order in which they reach the store, each under the
      snapshot of its time; a snapshot may change everything but the limit kept
      for a route key. */
  ghost predicate Legal(policies: RL.Policies, run: seq<Event>)
    decreases |run|, 0
  {
    run == [] ||
    (&& Legal(policies, Init(run))
     && Clock(Init(run)) <= Last(run).Now()
     && Enabled(policies, After(policies, Init(run)), Last(run)))
  }

  ghost function After(policies: RL.Policies, run: seq<Event>): RL.Store
    requires Legal(policies, run)
    decreases |run|, 1
  {
    if run == [] then map[] else StoreAfter(policies, After(policies, Init(run)), Last(run))
  }

  /** The run as the limiter's store sees it. */
  ghost function Seen(policies: RL.Policies, run: seq<Event>): seq<RL.Step> {
    if run == [] then []
    else if Last(run).Evict? then Seen(policies, Init(run)) + [RL.Evict(Last(run).key, Last(run).at)]
    else if Ticks(policies, Last(run)) then Seen(policies, Init(run)) + [RL.Request(Last(run).Call())]
    else Seen(policies, Init(run))
  }

  lemma SeenLegal(policies: RL.Policies, seen: seq<RL.Step>, step: RL.Step)
    requires RL.Legal(policies, seen) && RL.Clock(seen) <= step.Now()
    requires RL.Enabled(policies, RL.After(policies, seen), step)
    ensures RL.Legal(policies, seen + [step])
    ensures RL.After(policies, seen + [step]) == RL.Apply(policies, RL.After(policies, seen), step)
    ensures RL.Clock(seen + [step]) == step.Now()
  {}

  /** Every run of the gateway is a run of the limiter. */
  lemma {:induction false} SeenIsARun(policies: RL.Policies, run: seq<Event>)
    requires Legal(policies, run)
    ensures RL.Legal(policies, Seen(policies, run))
    ensures RL.After(policies, Seen(policies, run)) == After(policies, run)
    ensures RL.Clock(Seen(policies, run)) <= Clock(run)
  {
    if run != [] {
      hide RL.Tick, RL.ValidCall, RL.Legal, RL.After, Decide;
      SeenIsARun(policies, Init(run));
      var seen := Seen(policies, Init(run));
      if Last(run).Evict? {
        SeenLegal(policies, seen, RL.Evict(Last(run).key, Last(run).at));
      } else if Ticks(policies, Last(run)) {
        SeenLegal(policies, seen, RL.Request(Last(run).Call()));
      }
    } else {
      assert RL.Legal(policies, []);
    }
  }

  /** A request that reaches the limiter in the counter's window. */
  ghost predicate InWindow(policies: RL.Policies, e: Event, key: RL.CounterKey) {
    Counted(policies, e) && RL.KeyOf(policies, e.Call()) == key
  }

  ghost function RequestsIn(policies: RL.Policies, run: seq<Event>, key: RL.CounterKey): nat {
    if run == [] then 0 else
    RequestsIn(policies, Init(run), key) + if InWindow(policies, Last(run), key) then 1 else 0
  }

  ghost function FailuresIn(policies: RL.Policies, run: seq<Event>, key: RL.CounterKey): nat {
    if run == [] then 0 else
    FailuresIn(policies, Init(run), key) + if InWindow(policies, Last(run), key) && Last(run).fault.Fails? then 1 else 0
  }

  ghost predicate Passes(policies: RL.Policies, store: RL.Store, e: Event) {
    e.Arrive? && ResponseTo(policies, store, e).Forwarded?
  }

  ghost function ForwardedIn(policies: RL.Policies, run: seq<Event>, key: RL.CounterKey): nat
    requires Legal(policies, run)
  {
    if run == [] then 0 else
    ForwardedIn(policies, Init(run), key)
    + if InWindow(policies, Last(run), key) && Passes(policies, After(policies, Init(run)), Last(run)) then 1 else 0
  }

  /** Whether a counted request passes. */
  lemma PassesIff(policies: RL.Policies, store: RL.Store, e: Event)
    requires Counted(policies, e)
    ensures Passes(policies, store, e) <==>
              e.fault.Fails? || RL.Count(policies, store, e.Call()).count <= policies(e.Call().route).limit
  {}

  lemma AllowedStep(policies: RL.Policies, seen: seq<RL.Step>, step: RL.Step, key: RL.CounterKey)
    requires RL.Legal(policies, seen) && RL.Legal(policies, seen + [step])
    ensures RL.AllowedIn(policies, seen + [step], key) == RL.AllowedIn(policies, seen, key)
              + if RL.Counts(policies, step, key) && RL.Allows(policies, RL.After(policies, seen), step) then 1 else 0
    ensures RL.CallsIn(policies, seen + [step], key) == RL.CallsIn(policies, seen, key)
              + if RL.Counts(policies, step, key) then 1 else 0
  {}

  /** How far the run has come for one counter, next to what the limiter saw. */
  ghost predicate Tally(limit: int, calls: int, allowed: int, requests: int, failures: int, forwarded: int) {
    && allowed <= forwarded <= allowed + failures
    && (calls <= limit ==> forwarded == requests)
    && (failures == 0 ==> calls == requests)
    && forwarded <= requests
  }

  lemma CountedStep(policies: RL.Policies, store: RL.Store, seen: seq<RL.Step>, e: Event, key: RL.CounterKey)
    requires RL.Legal(policies, seen) && store == RL.After(policies, seen) && policies(key.route).Valid()
    requires InWindow(policies, e, key) && Ticks(policies, e) && RL.Legal(policies, seen + [RL.Request(e.Call())])
    ensures var next := seen + [RL.Request(e.Call())];
            && RL.CallsIn(policies, next, key) == RL.CallsIn(policies, seen, key) + 1
            && RL.AllowedIn(policies, next, key) == RL.AllowedIn(policies, seen, key)
                 + (if RL.CallsIn(policies, next, key) <= policies(key.route).limit then 1 else 0)
            && (Passes(policies, store, e) <==>
                  e.fault.Fails? || RL.CallsIn(policies, next, key) <= policies(key.route).limit)
  {
    hide RL.Legal, RL.After, RL.CallsIn, RL.AllowedIn, RL.Count, RL.ValidCall, Passes, Decide;
    var step := RL.Request(e.Call());
    AllowedStep(policies, seen, step, key);
    assert Init(seen + [step]) == seen && Last(seen + [step]) == step;
    RL.CountIsExact(policies, seen + [step]);
    PassesIff(policies, store, e);
  }

  lemma OtherStep(policies: RL.Policies, seen: seq<RL.Step>, step: RL.Step, key: RL.CounterKey)
    requires RL.Legal(policies, seen) && RL.Legal(policies, seen + [step]) && !RL.Counts(policies, step, key)
    ensures RL.CallsIn(policies, seen + [step], key) == RL.CallsIn(policies, seen, key)
    ensures RL.AllowedIn(policies, seen + [step], key) == RL.AllowedIn(policies, seen, key)
  {}

  lemma {:induction false} TallyHolds(policies: RL.Policies, run: seq<Event>, key: RL.CounterKey)
    requires Legal(policies, run) && policies(key.route).Valid()
    ensures RL.Legal(policies, Seen(policies, run))
    ensures Tally(policies(key.route).limit,
                  RL.CallsIn(policies, Seen(policies, run), key), RL.AllowedIn(policies, Seen(policies, run), key),
                  RequestsIn(policies, run, key), FailuresIn(policies, run, key), ForwardedIn(policies, run, key))
  {
    SeenIsARun(policies, run);
    if run != [] {
      hide RL.Legal, RL.After, RL.CallsIn, RL.AllowedIn, RL.KeyOf, RL.ValidCall, ResponseTo, Decide;
      SeenIsARun(policies, Init(run));
      TallyHolds(policies, Init(run), key);
      var e, store, seen := Last(run), After(policies, Init(run)), Seen(policies, Init(run));
      RL.AllowedPerWindow(policies, seen, key);
      if InWindow(policies, e, key) {
        if Ticks(policies, e) {
          CountedStep(policies, store, seen, e, key);
        } else {
          PassesIff(policies, store, e);
        }
      } else if e.Evict? {
        OtherStep(policies, seen, RL.Evict(e.key, e.at), key);
      } else if Ticks(policies, e) {
        OtherStep(policies, seen, RL.Request(e.Call()), key);
      }
    }
  }

  /** Over every run, with evictions and with limiter calls that fail before or
      after the script ran: a client gets at most the limit plus one request per
      failure through in a window, at least the limit if it asks for that many,
      and exactly that without failures. */
  lemma ForwardedPerWindow(policies: RL.Policies, run: seq<Event>, key: RL.CounterKey)
    requires Legal(policies, run) && policies(key.route).Valid()
    ensures ForwardedIn(policies, run, key) <= policies(key.route).limit + FailuresIn(policies, run, key)
    ensures ForwardedIn(policies, run, key) >= Min(RequestsIn(policies, run, key), policies(key.route).limit)
    ensures FailuresIn(policies, run, key) == 0 ==>
              ForwardedIn(policies, run, key) == Min(RequestsIn(policies, run, key), policies(key.route).limit)
  {
    hide Legal, RL.Legal, RL.CallsIn, RL.AllowedIn, Seen, RequestsIn, FailuresIn, ForwardedIn;
    TallyHolds(policies, run, key);
    RL.AllowedPerWindow(policies, Seen(policies, run), key);
  }

  /** The run without the requests that routing or authorization refused. */
  ghost function Admitted(run: seq<Event>): seq<Event> {
    if run == [] then []
    else if Last(run).Arrive? && Last(run).Decision().Refuse? then Admitted(Init(run))
    else Admitted(Init(run)) + [Last(run)]
  }

  lemma Appended(policies: RL.Policies, run: seq<Event>, e: Event, key: RL.CounterKey)
    requires Legal(policies, run) && Clock(run) <= e.Now() && Enabled(policies, After(policies, run), e)
    ensures Legal(policies, run + [e])
    ensures After(policies, run + [e]) == StoreAfter(policies, After(policies, run), e)
    ensures ForwardedIn(policies, run + [e], key) == ForwardedIn(policies, run, key)
              + if InWindow(policies, e, key) && Passes(policies, After(policies, run), e) then 1 else 0
  {}

  /** Refused requests never touch a counter: the run without them is a run, with
      the same counters and the same number of forwarded requests. */
  lemma {:induction false} RefusedLeaveNoTrace(policies: RL.Policies, run: seq<Event>, key: RL.CounterKey)
    requires Legal(policies, run)
    ensures Legal(policies, Admitted(run)) && Clock(Admitted(run)) <= Clock(run)
    ensures After(policies, Admitted(run)) == After(policies, run)
    ensures ForwardedIn(policies, Admitted(run), key) == ForwardedIn(policies, run, key)
  {
    if run != [] {
      RefusedLeaveNoTrace(policies, Init(run), key);
      var e := Last(run);
      hide Decide, RL.ValidCall, RL.Tick, Enabled, Passes;
      if !(e.Arrive? && e.Decision().Refuse?) {
        Appended(policies, Admitted(Init(run)), e, key);
      }
    }
  }
}
