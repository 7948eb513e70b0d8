/** Routes: accepting a snapshot, matching a path, choosing the longest match,
    and the path sent upstream. */
module Routing {
  import opened Text

  datatype RouteLimit = NoLimit | PerWindow(requests: int, window: int)

  datatype Route = Route(
    project: string,
    name: string,
    prefix: string,
    upstream: string,
    stripPrefix: bool,
    timeout: int,
    authRequired: bool,
    limit: RouteLimit)

  // ---------------------------------------------------------------- matching

  function Matches(prefix: string, path: string): bool {
    if prefix == "/" then true
    else path == TrimSlashes(prefix) || HasPrefix(path, TrimSlashes(prefix) + "/")
  }

  /** The pieces of a path between slashes. */
  function Split(s: string): (r: seq<string>)
    ensures |r| >= 1
  {
    if s == "" then [""]
    else if s[0] == '/' then [""] + Split(s[1..])
    else [[s[0]] + Split(s[1..])[0]] + Split(s[1..])[1..]
  }

  /** String comparison with a slash is comparison piece by piece. */
  lemma {:induction false} SplitPrefix(p: string, path: string)
    ensures Split(p) <= Split(path) <==> path == p || HasPrefix(path, p + "/")
  {
    if p == "" {
      assert Split(p) == [""];
      assert HasPrefix(path, p + "/") <==> path != "" && path[0] == '/';
      if path != "" { assert Split(path)[0] == "" <==> path[0] == '/'; }
    } else if path == "" {
      assert Split(path) == [""];
      SplitOnlyEmpty(p);
    } else {
      SplitPrefix(p[1..], path[1..]);
      HeadTail(p, path);
      var a, b := Split(p[1..]), Split(path[1..]);
      if p[0] == '/' && path[0] == '/' {
        SamePrefix("", a, b);
      } else if p[0] != '/' && path[0] != '/' {
        SameHead(p[0], path[0], a, b);
      } else {
        assert Split(p)[0] != Split(path)[0];
      }
    }
  }

  lemma SplitOnlyEmpty(p: string)
    requires p != ""
    ensures !(Split(p) <= [""])
  {}

  /** Taking off a common first character. */
  lemma HeadTail(p: string, path: string)
    requires p != "" && path != ""
    ensures path == p <==> p[0] == path[0] && path[1..] == p[1..]
    ensures HasPrefix(path, p + "/") <==> p[0] == path[0] && HasPrefix(path[1..], p[1..] + "/")
  {}

  lemma SamePrefix(x: string, a: seq<string>, b: seq<string>)
    ensures [x] + a <= [x] + b <==> a <= b
  {
    assert ([x] + a)[1..] == a && ([x] + b)[1..] == b;
    if a <= b { assert [x] + b == [x] + a + b[|a|..]; }
  }

  lemma SameHead(c: char, d: char, a: seq<string>, b: seq<string>)
    requires |a| >= 1 && |b| >= 1
    ensures [[c] + a[0]] + a[1..] <= [[d] + b[0]] + b[1..] <==> c == d && a <= b
  {
    var a', b' := [[c] + a[0]] + a[1..], [[d] + b[0]] + b[1..];
    if a' <= b' {
      assert a'[0] == b'[0];
      assert ([c] + a[0])[1..] == a[0] && ([d] + b[0])[1..] == b[0];
      assert forall i :: 1 <= i < |a| ==> a[i] == a'[i] == b'[i] == b[i];
    }
    if c == d && a <= b {
      assert forall i :: 0 <= i < |a'| ==> a'[i] == b'[i];
    }
  }

  /** Matching is matching of whole path segments, for every prefix but the root. */
  lemma MatchesIsSegmentPrefix(prefix: string, path: string)
    ensures prefix != "/" ==> (Matches(prefix, path) <==> Split(TrimSlashes(prefix)) <= Split(path))
    ensures prefix == "/" ==> Matches(prefix, path)
  {
    SplitPrefix(TrimSlashes(prefix), path);
  }

  function SegmentCount(prefix: string): nat {
    |Split(TrimSlashes(prefix))|
  }

  // --------------------------------------------------------------- snapshots

  /** A prefix as the snapshot conversion leaves it. */
  predicate Normal(prefix: string) {
    prefix == "/" || (|prefix| >= 2 && prefix[0] == '/' && prefix[|prefix| - 1] != '/')
  }

  predicate Distinct(routes: seq<Route>) {
    forall i, j :: 0 <= i < j < |routes| ==> routes[i].prefix != routes[j].prefix
  }

  predicate Accepted(routes: seq<Route>) {
    Distinct(routes) && forall i :: 0 <= i < |routes| ==> Normal(routes[i].prefix)
  }

  function NormalizePathPrefix(prefix: string): string {
    if TrimSpace(prefix) == "/" then "/" else TrimSlashes(TrimSpace(prefix))
  }

  lemma {:induction false} TrimSlashesEnds(s: string)
    ensures TrimSlashes(s) == "" || TrimSlashes(s)[|TrimSlashes(s)| - 1] != '/'
    ensures TrimSlashes(s) <= s
    ensures TrimSlashes(TrimSlashes(s)) == TrimSlashes(s)
  {
    if s != "" && s[|s| - 1] == '/' {
      TrimSlashesEnds(s[..|s| - 1]);
      assert s[..|s| - 1] <= s;
    }
  }

  /** A normalized prefix is accepted exactly when it starts with a slash. */
  lemma NormalizedIsNormal(prefix: string)
    ensures Normal(NormalizePathPrefix(prefix)) <==> HasPrefix(NormalizePathPrefix(prefix), "/")
  {
    TrimSlashesEnds(TrimSpace(prefix));
  }

  /** Normalizing twice is normalizing once, unless trimming the slashes
      uncovers white space at the end. */
  lemma NormalizeTwiceIff(prefix: string)
    ensures var t := TrimSlashes(TrimSpace(prefix));
            (NormalizePathPrefix(NormalizePathPrefix(prefix)) == NormalizePathPrefix(prefix)
             <==> t == "" || !IsSpace(t[|t| - 1]))
  {
    hide IsSpace, TrimSpace;
    var t := TrimSlashes(TrimSpace(prefix));
    TrimmedEnds(prefix);
    TrimSlashesEnds(TrimSpace(prefix));
    TrimSlashesEnds(TrimSpace(t));
    TrimFixedIff(t);
    assert TrimSpace("/") == "/" by { SlashIsNoSpace(); }
    NormalTrimmed("/");
    TrimmedEnds(t);
  }

  lemma SlashIsNoSpace()
    ensures TrimSpace("/") == "/"
  {}

  lemma NormalizeUncoversASpace()
    ensures NormalizePathPrefix("/a /") == "/a " && NormalizePathPrefix("/a ") == "/a"
  {}

  datatype RouteResponse = RouteResponse(
    project: string,
    name: string,
    prefix: string,
    upstream: string,
    stripPrefix: bool,
    timeoutMs: int,
    authRequired: bool,
    limited: bool,
    requests: int,
    windowSeconds: int)

  datatype RouteError = NoProject | NoName | BadPrefix | BadUpstream | BadTimeout | BadLimit | DuplicatePrefix

  /** A product of 64-bit durations wraps around. */
  function Duration(n: int, unit: int): int {
    (n * unit + 0x8000_0000_0000_0000) % 0x1_0000_0000_0000_0000 - 0x8000_0000_0000_0000
  }

  function ToLimit(r: RouteResponse): Result<RouteLimit, RouteError> {
    if !r.limited then
      if r.requests != 0 || r.windowSeconds != 0 then Err(BadLimit) else Ok(NoLimit)
    else if r.requests <= 0 || r.windowSeconds <= 0 then Err(BadLimit)
    else Ok(PerWindow(r.requests, Duration(r.windowSeconds, 1_000_000_000)))
  }

  /** `isUrl` says whether a text is an absolute http or https URL. */
  function ToDomain(r: RouteResponse, isUrl: string -> bool): (result: Result<Route, RouteError>)
    ensures result.Ok? ==>
              && Normal(result.value.prefix) && result.value.prefix == NormalizePathPrefix(r.prefix)
              && result.value.project != "" && result.value.name != "" && isUrl(result.value.upstream)
  {
    NormalizedIsNormal(r.prefix);
    var prefix := NormalizePathPrefix(r.prefix);
    if TrimSpace(r.project) == "" then Err(NoProject)
    else if TrimSpace(r.name) == "" then Err(NoName)
    else if prefix == "" || !HasPrefix(prefix, "/") then Err(BadPrefix)
    else if !isUrl(TrimSpace(r.upstream)) then Err(BadUpstream)
    else if r.timeoutMs <= 0 then Err(BadTimeout)
    else match ToLimit(r)
      case Err(e) => Err(e)
      case Ok(limit) =>
        Ok(Route(TrimSpace(r.project), TrimSpace(r.name), prefix, TrimSpace(r.upstream), r.stripPrefix,
                 Duration(r.timeoutMs, 1_000_000), r.authRequired, limit))
  }

  /** Which responses are accepted, and what is carried over. */
  lemma ToDomainIff(r: RouteResponse, isUrl: string -> bool)
    ensures ToDomain(r, isUrl).Ok? <==>
              && TrimSpace(r.project) != "" && TrimSpace(r.name) != "" && Normal(NormalizePathPrefix(r.prefix))
              && isUrl(TrimSpace(r.upstream)) && r.timeoutMs > 0
              && (if r.limited then r.requests > 0 && r.windowSeconds > 0 else r.requests == 0 && r.windowSeconds == 0)
    ensures ToDomain(r, isUrl).Ok? ==>
              var route := ToDomain(r, isUrl).value;
              && route.stripPrefix == r.stripPrefix && route.authRequired == r.authRequired
              && (route.limit.PerWindow? <==> r.limited) && (r.limited ==> route.limit.requests == r.requests)
              && route.project == TrimSpace(r.project) && route.name == TrimSpace(r.name)
              && route.upstream == TrimSpace(r.upstream)
              && (r.timeoutMs <= 0x7FFF_FFFF ==> route.timeout == r.timeoutMs * 1_000_000)
  {
    hide TrimSpace, NormalizePathPrefix;
    NormalizedIsNormal(r.prefix);
  }

  predicate OnlySlashes(s: string) {
    forall c :: c in s ==> c == '/'
  }

  lemma {:induction false} TrimsToNothingIff(s: string)
    ensures TrimSlashes(s) == "" <==> OnlySlashes(s)
  {
    if s != "" {
      var rest := s[..|s| - 1];
      assert s[|s| - 1] in s && forall c :: c in rest ==> c in s;
      assert forall c :: c in s ==> c in rest || c == s[|s| - 1];
      TrimsToNothingIff(rest);
    }
  }

  /** What the control plane makes sure of when it creates services and routes. */
  predicate Created(r: RouteResponse) {
    && TrimSpace(r.project) != "" && TrimSpace(r.name) != ""
    && HasPrefix(TrimSpace(r.prefix), "/") && r.timeoutMs > 0 && ToLimit(r).Ok?
  }

  /** The route is the one the response describes: texts trimmed, the timeout in
      nanoseconds where milliseconds were given, and a limit if there is one. */
  predicate CarriesOver(r: RouteResponse, route: Route) {
    && route.project == TrimSpace(r.project) && route.name == TrimSpace(r.name)
    && route.upstream == TrimSpace(r.upstream) && route.prefix <= TrimSpace(r.prefix)
    && route.stripPrefix == r.stripPrefix && route.authRequired == r.authRequired
    && (r.timeoutMs <= 0x7FFF_FFFF ==> route.timeout == r.timeoutMs * 1_000_000)
    && (route.limit.PerWindow? <==> r.limited) && (r.limited ==> route.limit.requests == r.requests)
  }

  /** The gateway takes a route the control plane created if and only if its
      upstream is an http or https URL and its prefix is not made of two or more
      slashes; the control plane checks neither. */
  lemma CreatedConvertsIff(r: RouteResponse, isUrl: string -> bool)
    requires Created(r)
    ensures ToDomain(r, isUrl).Ok? <==>
              isUrl(TrimSpace(r.upstream)) && (TrimSpace(r.prefix) == "/" || !OnlySlashes(TrimSpace(r.prefix)))
    ensures ToDomain(r, isUrl).Ok? ==> CarriesOver(r, ToDomain(r, isUrl).value)
  {
    hide TrimSpace, OnlySlashes, ToDomain;
    var prefix := TrimSpace(r.prefix);
    ToDomainIff(r, isUrl);
    TrimsToNothingIff(prefix);
    TrimSlashesEnds(prefix);
    NormalizedIsNormal(r.prefix);
  }

  /** Two slashes are such a prefix. */
  lemma DoubleSlashIsRefused(r: RouteResponse, isUrl: string -> bool)
    requires r.prefix == "//"
    ensures ToDomain(r, isUrl).Err?
  {
    TrimFixedIff("//");
    TrimsToNothingIff("//");
    hide TrimSpace, TrimSlashes;
  }

  /** The routes come from these responses, one for one. */
  ghost predicate Converts(responses: seq<RouteResponse>, isUrl: string -> bool, routes: seq<Route>) {
    && |routes| == |responses|
    && forall i :: 0 <= i < |routes| ==> ToDomain(responses[i], isUrl) == Ok(routes[i])
  }

  ghost function Prefixes(routes: seq<Route>): set<string> {
    set r | r in routes :: r.prefix
  }

  /** The response is invalid or repeats the prefix of an earlier route. */
  ghost predicate Unfit(response: RouteResponse, isUrl: string -> bool, earlier: seq<Route>) {
    ToDomain(response, isUrl).Err? || ToDomain(response, isUrl).value.prefix in Prefixes(earlier)
  }

  /** The response at `i` is the first that cannot be added. */
  ghost predicate FirstBad(responses: seq<RouteResponse>, isUrl: string -> bool, i: nat) {
    && i < |responses|
    && exists earlier :: Converts(responses[..i], isUrl, earlier) && Accepted(earlier)
                         && Unfit(responses[i], isUrl, earlier)
  }

  /** A refusal is right: no list of routes with distinct prefixes comes from those responses. */
  lemma RefusalIsRight(responses: seq<RouteResponse>, isUrl: string -> bool, i: nat, earlier: seq<Route>)
    requires i < |responses| && Converts(responses[..i], isUrl, earlier) && Accepted(earlier)
    requires Unfit(responses[i], isUrl, earlier)
    ensures FirstBad(responses, isUrl, i)
    ensures forall routes :: Converts(responses, isUrl, routes) ==> !Distinct(routes)
  {
    hide ToDomain, Normal;
    forall routes | Converts(responses, isUrl, routes) ensures !Distinct(routes) {
      assert forall j :: 0 <= j < i ==> responses[..i][j] == responses[j];
      assert forall j :: 0 <= j < i ==> earlier[j] == routes[j];
    }
  }

  lemma OneMoreAccepted(responses: seq<RouteResponse>, isUrl: string -> bool, i: nat, earlier: seq<Route>, route: Route)
    requires i < |responses| && Converts(responses[..i], isUrl, earlier) && Accepted(earlier)
    requires ToDomain(responses[i], isUrl) == Ok(route) && route.prefix !in Prefixes(earlier)
    ensures Converts(responses[..i + 1], isUrl, earlier + [route]) && Accepted(earlier + [route])
    ensures Prefixes(earlier + [route]) == Prefixes(earlier) + {route.prefix}
  {
    hide ToDomain;
    assert responses[..i + 1] == responses[..i] + [responses[i]];
    assert forall r :: r in earlier ==> r.prefix in Prefixes(earlier);
    assert route in earlier + [route];
    assert forall r :: r in earlier + [route] <==> r in earlier || r == route;
  }

  /** `responseToDomain`: either the whole list, with distinct normal prefixes, or
      the first response that is invalid or repeats a prefix. */
  method ResponseToDomain(responses: seq<RouteResponse>, isUrl: string -> bool)
      returns (r: Result<seq<Route>, (nat, RouteError)>)
    ensures r.Ok? ==> Converts(responses, isUrl, r.value) && Accepted(r.value)
    ensures r.Err? ==> FirstBad(responses, isUrl, r.error.0)
    ensures r.Ok? <==> exists routes :: Converts(responses, isUrl, routes) && Distinct(routes)
    ensures r.Err? && !r.error.1.DuplicatePrefix? ==> ToDomain(responses[r.error.0], isUrl) == Err(r.error.1)
  {
    hide ToDomain, Normal, Converts, Distinct, FirstBad, Prefixes;
    var routes: seq<Route> := [];
    var seen: set<string> := {};
    assert Converts(responses[..0], isUrl, routes) && Distinct(routes) && Prefixes(routes) == seen by {
      NothingYet(responses, isUrl);
    }
    for i := 0 to |responses|
      invariant Converts(responses[..i], isUrl, routes) && Accepted(routes)
      invariant seen == Prefixes(routes)
    {
      var route := ToDomain(responses[i], isUrl);
      if route.Err? {
        RefusalIsRight(responses, isUrl, i, routes);
        return Err((i, route.error));
      }
      if route.value.prefix in seen {
        RefusalIsRight(responses, isUrl, i, routes);
        return Err((i, DuplicatePrefix));
      }
      OneMoreAccepted(responses, isUrl, i, routes, route.value);
      seen := seen + {route.value.prefix};
      routes := routes + [route.value];
    }
    assert responses[..|responses|] == responses;
    r := Ok(routes);
  }

  lemma NothingYet(responses: seq<RouteResponse>, isUrl: string -> bool)
    ensures Converts(responses[..0], isUrl, []) && Distinct([]) && Prefixes([]) == {}
  {}

  // -------------------------------------------------------------- resolution

  /** The choice made by the loop after it has seen the routes. */
  ghost function Resolved(routes: seq<Route>, path: string): Option<Route> {
    if routes == [] then None else
    var n := |routes| - 1;
    var best := Resolved(routes[..n], path);
    if Matches(routes[n].prefix, path) && (best.None? || |routes[n].prefix| > |best.value.prefix|)
    then Some(routes[n]) else best
  }

  method ResolveRoute(routes: seq<Route>, path: string) returns (r: Option<Route>)
    ensures r == Resolved(routes, path)
  {
    var matched := None;
    var matchedLen := -1;
    for i := 0 to |routes|
      invariant matched == Resolved(routes[..i], path)
      invariant matchedLen == if matched.Some? then |matched.value.prefix| else -1
    {
      assert routes[..i + 1][..i] == routes[..i];
      if Matches(routes[i].prefix, path) && |routes[i].prefix| > matchedLen {
        matched := Some(routes[i]);
        matchedLen := |routes[i].prefix|;
      }
    }
    assert routes[..|routes|] == routes;
    r := matched;
  }

  /** The loop keeps a longest matching prefix. */
  lemma {:induction false} ResolvedIsLongest(routes: seq<Route>, path: string)
    ensures Resolved(routes, path).Some? ==>
              && Resolved(routes, path).value in routes
              && Matches(Resolved(routes, path).value.prefix, path)
              && forall r :: r in routes && Matches(r.prefix, path) ==>
                   |r.prefix| <= |Resolved(routes, path).value.prefix|
    ensures Resolved(routes, path).None? ==> forall r :: r in routes ==> !Matches(r.prefix, path)
  {
    hide Matches;
    if routes != [] {
      var n := |routes| - 1;
      ResolvedIsLongest(routes[..n], path);
      assert routes == routes[..n] + [routes[n]];
    }
  }

  /** ... and of several longest ones the first in the list. */
  lemma {:induction false} ResolvedIsFirst(routes: seq<Route>, path: string)
    ensures Resolved(routes, path).Some? ==>
              exists i :: && 0 <= i < |routes| && routes[i] == Resolved(routes, path).value
                          && forall j :: 0 <= j < i && Matches(routes[j].prefix, path) ==>
                               |routes[j].prefix| < |routes[i].prefix|
  {
    hide Matches;
    if routes != [] {
      var n := |routes| - 1;
      var before := routes[..n];
      ResolvedIsFirst(before, path);
      ResolvedIsLongest(before, path);
      assert forall j :: 0 <= j < n ==> routes[j] == before[j] && routes[j] in before;
      if Resolved(routes, path) == Resolved(before, path) && Resolved(before, path).Some? {
        var i :| && 0 <= i < |before| && before[i] == Resolved(before, path).value
                 && forall j :: 0 <= j < i && Matches(before[j].prefix, path) ==> |before[j].prefix| < |before[i].prefix|;
        assert routes[i] == before[i];
      }
    }
  }

  lemma NormalTrimmed(prefix: string)
    requires Normal(prefix)
    ensures TrimSlashes(prefix) == if prefix == "/" then "" else prefix
  {}

  /** Of two normal prefixes that match a path, the longer has more segments. */
  lemma LongerHasMoreSegments(a: string, b: string, path: string)
    requires Normal(a) && Normal(b) && Matches(a, path) && Matches(b, path) && |a| < |b|
    ensures SegmentCount(a) < SegmentCount(b)
  {
    NormalTrimmed(a);
    NormalTrimmed(b);
    MatchesIsSegmentPrefix(b, path);
    if a == "/" {
      SplitOnlyEmpty(b);
      assert Split("") == [""];
      SplitSlash(b);
    } else {
      MatchesIsSegmentPrefix(a, path);
      if |Split(a)| >= |Split(b)| {
        assert Split(b) <= Split(a);
        SplitPrefix(b, a);
      }
    }
  }

  lemma SplitSlash(s: string)
    requires s != "" && s[0] == '/'
    ensures |Split(s)| >= 2
  {}

  lemma SameLengthSamePrefix(a: string, b: string, path: string)
    requires Normal(a) && Normal(b) && Matches(a, path) && Matches(b, path) && |a| == |b|
    ensures a == b
  {
    NormalTrimmed(a);
    NormalTrimmed(b);
    if a != "/" {
      assert a <= path && b <= path;
    }
  }

  /** The only matching route with the most segments. */
  ghost predicate IsBest(routes: seq<Route>, path: string, best: Route) {
    && best in routes && Matches(best.prefix, path)
    && forall r :: r in routes && r != best && Matches(r.prefix, path) ==>
         SegmentCount(r.prefix) < SegmentCount(best.prefix)
  }

  /** On every accepted snapshot, a path that some route matches gets the one
      matching route with the most path segments, and only a path that no route
      matches gets none. */
  lemma ResolvedIsBest(routes: seq<Route>, path: string)
    requires Accepted(routes)
    ensures Resolved(routes, path).Some? ==> IsBest(routes, path, Resolved(routes, path).value)
    ensures Resolved(routes, path).None? <==> forall r :: r in routes ==> !Matches(r.prefix, path)
  {
    hide Matches, Normal, SegmentCount;
    ResolvedIsLongest(routes, path);
    if Resolved(routes, path).Some? {
      var best := Resolved(routes, path).value;
      forall r | r in routes && r != best && Matches(r.prefix, path)
        ensures SegmentCount(r.prefix) < SegmentCount(best.prefix)
      {
        InAccepted(routes, r);
        InAccepted(routes, best);
        if |r.prefix| == |best.prefix| {
          SameLengthSamePrefix(r.prefix, best.prefix, path);
          DistinctRoutes(routes, r, best);
        }
        LongerHasMoreSegments(r.prefix, best.prefix, path);
      }
    }
  }

  lemma InAccepted(routes: seq<Route>, r: Route)
    requires Accepted(routes) && r in routes
    ensures Normal(r.prefix)
  {}

  lemma DistinctRoutes(routes: seq<Route>, a: Route, b: Route)
    requires Distinct(routes) && a in routes && b in routes && a.prefix == b.prefix
    ensures a == b
  {}

  /** The order of an accepted list does not matter. */
  lemma ResolutionIgnoresOrder(routes: seq<Route>, routes': seq<Route>, path: string)
    requires Accepted(routes) && Accepted(routes') && multiset(routes) == multiset(routes')
    ensures Resolved(routes, path) == Resolved(routes', path)
  {
    hide Matches, Normal, SegmentCount;
    forall r ensures r in routes <==> r in routes' {
      assert r in routes <==> r in multiset(routes);
      assert r in routes' <==> r in multiset(routes');
    }
    ResolvedIsBest(routes, path);
    ResolvedIsBest(routes', path);
  }

  // ------------------------------------------------------------ upstream paths

  function TrimPrefix(s: string, prefix: string): string {
    if prefix <= s then s[|prefix|..] else s
  }

  function UpstreamPath(route: Route, path: string): string {
    if !route.stripPrefix then path
    else
      var rest := TrimPrefix(path, TrimSlashes(route.prefix));
      if rest == "" then "/" else if rest[0] != '/' then "/" + rest else rest
  }

  /** For every path a stripping route matches: the upstream path starts with a
      slash, and putting the prefix back gives the path, unless the path has
      nothing after the prefix (then a slash is added) or, under the root prefix,
      does not start with a slash. */
  lemma StrippingIsReversible(route: Route, path: string)
    requires route.stripPrefix && Matches(route.prefix, path)
    ensures HasPrefix(UpstreamPath(route, path), "/")
    ensures TrimSlashes(route.prefix) + UpstreamPath(route, path) == path
       <==> HasPrefix(path, TrimSlashes(route.prefix) + "/")
    ensures path == TrimSlashes(route.prefix) ==> UpstreamPath(route, path) == "/"
    ensures route.prefix != "/" && path != TrimSlashes(route.prefix) ==>
              HasPrefix(path, TrimSlashes(route.prefix) + "/")
  {}

  /** A path that does not start with a slash gains one under a stripping root
      route.  This is about `UpstreamPath` alone: the gateway's router only hands
      it paths that start with a slash. */
  lemma RootAddsASlash(route: Route)
    requires route.prefix == "/" && route.stripPrefix
    ensures Matches(route.prefix, "*") && UpstreamPath(route, "*") == "/*"
    ensures TrimSlashes(route.prefix) + UpstreamPath(route, "*") != "*"
  {
    assert route.prefix[..0] == "";
    assert TrimSlashes(route.prefix) == "";
  }

  function JoinPaths(a: string, b: string): string {
    if a == "" then b
    else if b == "" then a
    else if a[|a| - 1] == '/' && b[0] == '/' then a + b[1..]
    else if a[|a| - 1] != '/' && b[0] != '/' then a + "/" + b
    else a + b
  }

  /** One slash less at the end, or at the front, if there is one. */
  function DropLast(a: string): string {
    if a != "" && a[|a| - 1] == '/' then a[..|a| - 1] else a
  }

  function DropFirst(b: string): string {
    if b != "" && b[0] == '/' then b[1..] else b
  }

  /** Two non-empty paths meet in exactly one slash. */
  lemma JoinMeetsInOneSlash(a: string, b: string)
    requires a != "" && b != ""
    ensures JoinPaths(a, b) == DropLast(a) + "/" + DropFirst(b)
  {}

  /** Joining is associative, with the empty path as identity. */
  lemma JoinIsAssociative(a: string, b: string, c: string)
    ensures JoinPaths("", a) == a == JoinPaths(a, "")
    ensures JoinPaths(JoinPaths(a, b), c) == JoinPaths(a, JoinPaths(b, c))
  {
    if a != "" && b != "" && c != "" {
      JoinMeetsInOneSlash(a, b);
      JoinMeetsInOneSlash(b, c);
      var ab, bc := JoinPaths(a, b), JoinPaths(b, c);
      JoinMeetsInOneSlash(ab, c);
      JoinMeetsInOneSlash(a, bc);
      JoinMiddle(a, b, c);
    }
  }

  lemma JoinMiddle(a: string, b: string, c: string)
    requires a != "" && b != "" && c != ""
    ensures DropLast(DropLast(a) + "/" + DropFirst(b)) + "/" + DropFirst(c)
         == DropLast(a) + "/" + DropFirst(DropLast(b) + "/" + DropFirst(c))
  {
    var x, y := DropLast(a), DropFirst(c);
    if b == "/" {
      assert DropFirst(b) == "" && DropLast(b) == "";
      assert DropLast(x + "/" + "") == x;
      assert DropFirst("" + "/" + y) == y;
    } else {
      var m := DropLast(DropFirst(b));
      assert DropLast(x + "/" + DropFirst(b)) == x + "/" + m;
      assert DropFirst(DropLast(b) + "/" + y) == m + "/" + y;
    }
  }

  /** Stripping a prefix and joining it back gives the path again, up to the added slash. */
  lemma StripThenJoin(route: Route, path: string)
    requires route.stripPrefix && Matches(route.prefix, path) && TrimSlashes(route.prefix) != ""
    ensures JoinPaths(TrimSlashes(route.prefix), UpstreamPath(route, path))
         == if path == TrimSlashes(route.prefix) then path + "/" else path
  {
    StrippingIsReversible(route, path);
    TrimSlashesEnds(route.prefix);
  }

  /** Whatever path the upstream URL has itself: the forwarded path with the
      prefix put back behind the upstream's path is the whole original path there. */
  lemma ForwardedPathIsReversible(base: string, route: Route, path: string)
    requires route.stripPrefix && Matches(route.prefix, path) && TrimSlashes(route.prefix) != ""
    ensures JoinPaths(JoinPaths(base, TrimSlashes(route.prefix)), UpstreamPath(route, path))
         == JoinPaths(base, if path == TrimSlashes(route.prefix) then path + "/" else path)
  {
    hide JoinPaths, UpstreamPath, Matches;
    JoinIsAssociative(base, TrimSlashes(route.prefix), UpstreamPath(route, path));
    StripThenJoin(route, path);
  }

  /** ... and the forwarded path itself is the upstream's path, one slash, and the
      rest of the request's path. */
  lemma ForwardedPathIsBasePlusRest(base: string, route: Route, path: string)
    requires route.stripPrefix && HasPrefix(path, TrimSlashes(route.prefix) + "/")
    ensures JoinPaths(base, UpstreamPath(route, path)) == DropLast(base) + path[|TrimSlashes(route.prefix)|..]
  {
    var prefix := TrimSlashes(route.prefix);
    assert prefix <= prefix + "/" && path[|prefix|] == '/';
    assert prefix <= path;
    var rest := path[|prefix|..];
    assert UpstreamPath(route, path) == rest && rest == "/" + DropFirst(rest);
    if base != "" { JoinMeetsInOneSlash(base, rest); }
  }
}
