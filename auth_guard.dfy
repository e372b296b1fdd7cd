/**
 * The navigation guard: a depth-first search of the route table for the
 * route that governs a pathname, and the decision the guard's effect takes
 * from that route, the login flag and the pathname.
 */
module AuthGuard {
  import opened Wrappers
  import opened Text
  import opened Routes

  /** A route path that is defined and non-empty (the code's `route.path && ...`). */
  predicate HasPath(route: RouteConfig) {
    route.path.Some? && route.path.value != ""
  }

  /** Rule 1: `route.path === pathname`. An undefined path equals no pathname. */
  predicate ExactMatch(route: RouteConfig, pathname: string) {
    route.path == Some(pathname)
  }

  /** One pattern segment against one pathname segment: a `:` segment accepts anything, even "". */
  predicate SegmentMatches(pattern: string, actual: string) {
    StartsWith(pattern, ":") || pattern == actual
  }

  /** Rule 2: a path containing `':'`, split on `'/'`, against the split pathname, segment by segment. */
  predicate ParamMatch(route: RouteConfig, pathname: string) {
    HasPath(route) && Contains(route.path.value, ":") &&
    var routeSegments := Split(route.path.value, '/');
    var pathSegments := Split(pathname, '/');
    |routeSegments| == |pathSegments| &&
    forall k :: 0 <= k < |routeSegments| ==> SegmentMatches(routeSegments[k], pathSegments[k])
  }

  /** Rule 3: a path ending in `'*'` accepts every pathname that starts with the path minus the `'*'`. */
  predicate WildcardMatch(route: RouteConfig, pathname: string) {
    HasPath(route) && EndsWith(route.path.value, "*") &&
    StartsWith(pathname, route.path.value[..|route.path.value| - 1])
  }

  /** A route matches by itself (not through its children) when one of the three rules accepts it. */
  predicate SelfMatches(route: RouteConfig, pathname: string) {
    ExactMatch(route, pathname) || ParamMatch(route, pathname) || WildcardMatch(route, pathname)
  }

  /**
   * `findRouteConfig`: each route is tried by the three rules and then through
   * its children before the next sibling is tried.
   */
  function FindRouteConfig(routes: seq<RouteConfig>, pathname: string): (r: Option<RouteConfig>)
    decreases routes
    ensures r.Some? ==> SelfMatches(r.value, pathname)
  {
    if routes == [] then None
    else
      var route := routes[0];
      if SelfMatches(route, pathname) then Some(route)
      else
        match FindRouteConfig(route.children, pathname)
        case Some(found) => Some(found)
        case None => FindRouteConfig(routes[1..], pathname)
  }

  /** The nodes of a route forest in depth-first pre-order: a route, its subtree, then its later siblings. */
  function PreOrder(routes: seq<RouteConfig>): seq<RouteConfig>
    decreases routes
  {
    if routes == [] then []
    else [routes[0]] + PreOrder(routes[0].children) + PreOrder(routes[1..])
  }

  /** The reference search: the index of the first node of a flat list that matches by itself. */
  function FirstMatchIndex(nodes: seq<RouteConfig>, pathname: string): (r: Option<nat>)
    ensures r.Some? ==> r.value < |nodes| && SelfMatches(nodes[r.value], pathname) &&
                        forall k :: 0 <= k < r.value ==> !SelfMatches(nodes[k], pathname)
    ensures r.None? ==> forall k :: 0 <= k < |nodes| ==> !SelfMatches(nodes[k], pathname)
  {
    if nodes == [] then None
    else if SelfMatches(nodes[0], pathname) then Some(0)
    else
      match FirstMatchIndex(nodes[1..], pathname)
      case None => None
      case Some(i) => Some(i + 1)
  }

  /** The node that `FirstMatchIndex` picks. */
  function FirstMatch(nodes: seq<RouteConfig>, pathname: string): Option<RouteConfig> {
    match FirstMatchIndex(nodes, pathname)
    case None => None
    case Some(i) => Some(nodes[i])
  }

  /** The reference search tries the head of the list, then the rest. */
  lemma FirstMatchCons(node: RouteConfig, rest: seq<RouteConfig>, pathname: string)
    ensures FirstMatch([node] + rest, pathname) ==
              if SelfMatches(node, pathname) then Some(node) else FirstMatch(rest, pathname)
  {
    assert ([node] + rest)[0] == node && ([node] + rest)[1..] == rest;
    if !SelfMatches(node, pathname) {
      match FirstMatchIndex(rest, pathname)
      case None =>
      case Some(i) => assert ([node] + rest)[i + 1] == rest[i];
    }
  }

  lemma {:induction false} FirstMatchAppend(a: seq<RouteConfig>, b: seq<RouteConfig>, pathname: string)
    ensures FirstMatch(a + b, pathname) == if FirstMatch(a, pathname).Some? then FirstMatch(a, pathname) else FirstMatch(b, pathname)
  {
    if a == [] {
      assert a + b == b;
    } else {
      assert a == [a[0]] + a[1..];
      assert a + b == [a[0]] + (a[1..] + b);
      FirstMatchCons(a[0], a[1..], pathname);
      FirstMatchCons(a[0], a[1..] + b, pathname);
      FirstMatchAppend(a[1..], b, pathname);
    }
  }

  /**
   * The search is exactly "the first matching node in depth-first pre-order":
   * declaration order decides, a route's subtree comes before its later
   * siblings, and the result is absent only when no node of the tree matches.
   */
  lemma {:induction false} FindIsFirstInPreOrder(routes: seq<RouteConfig>, pathname: string)
    decreases routes
    ensures FindRouteConfig(routes, pathname) == FirstMatch(PreOrder(routes), pathname)
  {
    if routes != [] {
      var route := routes[0];
      FindIsFirstInPreOrder(route.children, pathname);
      FindIsFirstInPreOrder(routes[1..], pathname);
      var sub, later := PreOrder(route.children), PreOrder(routes[1..]);
      assert PreOrder(routes) == [route] + (sub + later);
      FirstMatchCons(route, sub + later, pathname);
      FirstMatchAppend(sub, later, pathname);
    }
  }

  /** The matcher never fabricates a route: whatever it returns is a node of the tree it was given. */
  lemma ResultIsNode(routes: seq<RouteConfig>, pathname: string)
    ensures FindRouteConfig(routes, pathname).Some? ==> FindRouteConfig(routes, pathname).value in PreOrder(routes)
    ensures FindRouteConfig(routes, pathname).None? <==>
              forall k :: 0 <= k < |PreOrder(routes)| ==> !SelfMatches(PreOrder(routes)[k], pathname)
  {
    FindIsFirstInPreOrder(routes, pathname);
  }

  /** A route with an undefined path never matches by itself, but its children are still searched first. */
  lemma {:induction false} UndefinedPathSearchesChildren(route: RouteConfig, rest: seq<RouteConfig>, pathname: string)
    requires route.path.None?
    ensures !SelfMatches(route, pathname)
    ensures FindRouteConfig([route] + rest, pathname) ==
              if FindRouteConfig(route.children, pathname).Some? then FindRouteConfig(route.children, pathname)
              else FindRouteConfig(rest, pathname)
  {
    assert ([route] + rest)[0] == route && ([route] + rest)[1..] == rest;
  }

  /** `'*'` (base path "") matches every pathname, so an earlier `'*'` shadows everything after it. */
  lemma StarMatchesEverything(route: RouteConfig, rest: seq<RouteConfig>, pathname: string)
    requires route.path == Some("*")
    ensures FindRouteConfig([route] + rest, pathname) == Some(route)
  {
    assert ([route] + rest)[0] == route;
  }

  // Declaration order, not rule kind, decides: an earlier `'/*'` shadows a later exact `'/user'`.
  lemma WildcardShadowsLaterExact(wild: RouteConfig, exact: RouteConfig)
    requires wild.path == Some("/*") && exact.path == Some("/user")
    ensures FindRouteConfig([wild, exact], "/user") == Some(wild)
  {
    assert StartsWith("/user", "/");
  }

  /**
   * A `:` segment accepts any segment, also an empty one: `base + "/:" + name`
   * accepts `base + "/" + value` for every separator-free `value`.
   */
  lemma ColonSegmentAcceptsAnything(route: RouteConfig, base: string, name: string, value: string)
    requires route.path == Some(base + "/:" + name)
    requires '/' !in name && '/' !in value
    ensures ParamMatch(route, base + "/" + value)
  {
    var path := base + "/:" + name;
    assert OccursAt(path, ":", |base| + 1);
    ContainsAt(path, ":", |base| + 1);
    assert path == base + "/" + (":" + name);
    SplitSnoc(base, ":" + name, '/');
    SplitSnoc(base, value, '/');
    var rs, ps := Split(path, '/'), Split(base + "/" + value, '/');
    forall k | 0 <= k < |rs| ensures SegmentMatches(rs[k], ps[k]) {
      if k == |rs| - 1 {
        assert rs[k] == ":" + name;
      }
    }
  }

  /** Segment counts must agree: a pattern and a pathname with different numbers of `'/'` never match by rule 2. */
  lemma ExtraSegmentDefeatsParam(route: RouteConfig, pathname: string)
    requires route.path.Some? && multiset(route.path.value)['/'] != multiset(pathname)['/']
    ensures !ParamMatch(route, pathname)
  {
    SplitCount(route.path.value, '/');
    SplitCount(pathname, '/');
  }

  // A wildcard path only matches pathnames that carry its prefix: `'/admin/*'` against `'/admin'`.
  lemma WildcardNeedsPrefix(route: RouteConfig)
    requires route.path == Some("/admin/*")
    ensures WildcardMatch(route, "/admin/settings")
    ensures !SelfMatches(route, "/admin")
  {
    assert "/admin/*"[..7] == "/admin/";
  }

  /** A route with a plain path (no `':'`, no trailing `'*'`) matches by itself only its own pathname. */
  lemma PlainPathMatchesOnlyItself(route: RouteConfig, pathname: string)
    requires route.path.Some? && ':' !in route.path.value
    requires route.path.value == "" || route.path.value[|route.path.value| - 1] != '*'
    ensures SelfMatches(route, pathname) <==> route.path == Some(pathname)
  {
    ContainsChar(route.path.value, ':');
  }

  /** One step of the search over a leaf route. */
  lemma FindStep(routes: seq<RouteConfig>, pathname: string)
    requires routes != [] && routes[0].children == []
    ensures FindRouteConfig(routes, pathname) ==
              if SelfMatches(routes[0], pathname) then Some(routes[0]) else FindRouteConfig(routes[1..], pathname)
  {
  }

  /** The page a pathname maps to in the application's table: one of the four literal paths, else the catch-all. */
  lemma TableLookup(pathname: string)
    ensures FindRouteConfig(Table, pathname) == Some(
      if pathname == "/" then Table[0]
      else if pathname == "/login" then Table[1]
      else if pathname == "/about" then Table[2]
      else if pathname == "/user" then Table[3]
      else Table[4])
  {
    TableShape();
    var t := Table;
    PlainPathMatchesOnlyItself(t[0], pathname);
    PlainPathMatchesOnlyItself(t[1], pathname);
    PlainPathMatchesOnlyItself(t[2], pathname);
    PlainPathMatchesOnlyItself(t[3], pathname);
    assert WildcardMatch(t[4], pathname);
    FindStep(t[4..], pathname);
    FindStep(t[3..], pathname);
    FindStep(t[2..], pathname);
    FindStep(t[1..], pathname);
    FindStep(t, pathname);
    assert t[3..][1..] == t[4..] && t[2..][1..] == t[3..] && t[1..][1..] == t[2..] && t[1..] == t[1..];
  }

  /** With the application's table every pathname is governed by some route; `'/user/42'` falls to the catch-all. */
  lemma EveryPathnameIsRouted(pathname: string)
    ensures FindRouteConfig(Table, pathname).Some?
    ensures FindRouteConfig(Table, "/user/42") == Some(Table[4])
  {
    TableLookup(pathname);
    TableLookup("/user/42");
  }

  /** A navigation the guard asks for: `navigate(to, { replace, state: { from } })`. */
  datatype NavigationIntent = NavigationIntent(to: string, replace: bool, from: Option<string>)

  /**
   * What one evaluation of the guard's effect does: redirect (with the
   * warning it shows), or stay and set the document title when the route
   * has a non-empty one.
   */
  datatype GuardEffect =
    | Redirect(intent: NavigationIntent, warning: Option<string>)
    | Stay(title: Option<string>)

  /** `currentRoute?.meta?.requiresAuth` is truthy. */
  predicate Protected(current: Option<RouteConfig>) {
    current.Some? && RequiresAuth(current.value)
  }

  /** `currentRoute?.meta?.title` when it is truthy (a non-empty string). */
  function TitleOf(current: Option<RouteConfig>): (r: Option<string>)
    ensures r.Some? <==> current.Some? && current.value.meta.Some? && current.value.meta.value.title.Some? &&
                         current.value.meta.value.title.value != ""
    ensures r.Some? ==> r == current.value.meta.value.title
  {
    if current.Some? && current.value.meta.Some? && current.value.meta.value.title.Some?
       && current.value.meta.value.title.value != ""
    then current.value.meta.value.title
    else None
  }

  /** The effect's decision for the matched route, the login flag and the pathname. */
  function Decide(current: Option<RouteConfig>, pathname: string, isLogin: bool): (r: GuardEffect)
    ensures r.Redirect? && r.intent.to == "/login" <==> Protected(current) && !isLogin
    ensures r.Redirect? && r.intent.to == "/login" ==>
              r.intent == NavigationIntent("/login", true, Some(pathname)) && r.warning == Some("请先登录")
    ensures r.Redirect? && r.intent.to == "/" <==> !(Protected(current) && !isLogin) && pathname == "/login" && isLogin
    ensures r.Redirect? && r.intent.to == "/" ==> r.intent == NavigationIntent("/", true, None) && r.warning == None
    ensures !(Protected(current) && !isLogin) && !(pathname == "/login" && isLogin) ==> r == Stay(TitleOf(current))
  {
    if Protected(current) && !isLogin then
      Redirect(NavigationIntent("/login", true, Some(pathname)), Some("请先登录"))
    else if pathname == "/login" && isLogin then
      Redirect(NavigationIntent("/", true, None), None)
    else
      Stay(TitleOf(current))
  }

  /**
   * The guard's effect on a pathname change, with the application's route
   * table: signed out it redirects only at `'/user'`, signed in only at
   * `'/login'`; everywhere else it stays and sets a title.
   */
  function Guard(pathname: string, isLogin: bool): (r: GuardEffect)
    ensures r.Redirect? <==> (pathname == "/user" && !isLogin) || (pathname == "/login" && isLogin)
    ensures r.Stay? ==> r.title.Some?
  {
    TableLookup(pathname);
    Decide(FindRouteConfig(Table, pathname), pathname, isLogin)
  }

  /** Signed out, the redirect at `'/user'` goes to `'/login'`, remembering `'/user'`. */
  lemma SignedOutRedirectTarget(pathname: string)
    ensures pathname == "/user" ==> Guard(pathname, false).intent == NavigationIntent("/login", true, Some("/user"))
  {
    TableLookup(pathname);
  }

  /** Signed in, the redirect at `'/login'` goes to `'/'`. */
  lemma SignedInRedirectTarget(pathname: string)
    ensures pathname == "/login" ==> Guard(pathname, true).intent == NavigationIntent("/", true, None)
  {
    TableLookup(pathname);
  }

  /** The guard never sends `/login` back to `/login`, signed in or not. */
  lemma NoLoginLoop(isLogin: bool)
    ensures !(Guard("/login", isLogin).Redirect? && Guard("/login", isLogin).intent.to == "/login")
  {
    TableLookup("/login");
  }

  /** An unknown pathname reaches the catch-all: no redirect, and the title becomes `'404'`. */
  lemma UnknownPathnameShowsNotFound(pathname: string, isLogin: bool)
    requires pathname !in {"/", "/login", "/about", "/user"}
    ensures Guard(pathname, isLogin) == Stay(Some("404"))
  {
    TableLookup(pathname);
  }
}
