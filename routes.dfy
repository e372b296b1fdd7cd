/**
 * The route descriptors and the application's route table.  Page elements
 * are rendering only and are not part of the model; a descriptor keeps its
 * path, its metadata and its nested routes.
 */
module Routes {
  import opened Wrappers

  /** Route metadata: every field may be left out of the literal. */
  datatype RouteMeta = RouteMeta(title: Option<string>, requiresAuth: Option<bool>, keepAlive: Option<bool>)

  /** A route descriptor; `path` and `meta` may be undefined, `children` is empty when absent. */
  datatype RouteConfig = RouteConfig(path: Option<string>, meta: Option<RouteMeta>, children: seq<RouteConfig>)

  /** A top-level page entry as the table writes them: a path, a title and an explicit `requiresAuth`. */
  function Page(path: string, title: string, requiresAuth: bool): RouteConfig {
    RouteConfig(Some(path), Some(RouteMeta(Some(title), Some(requiresAuth), None)), [])
  }

  /** The application's route table, in declaration order. */
  const Table: seq<RouteConfig> := [
    Page("/", "首页", false),
    Page("/login", "登录", false),
    Page("/about", "关于", false),
    Page("/user", "用户中心", true),
    Page("*", "404", false)
  ]

  /** `route.meta?.requiresAuth` is truthy. */
  predicate RequiresAuth(route: RouteConfig) {
    route.meta.Some? && route.meta.value.requiresAuth == Some(true)
  }

  /** `'/user'` is the only protected entry. */
  lemma OnlyUserRequiresAuth()
    ensures forall k :: 0 <= k < |Table| ==> (RequiresAuth(Table[k]) <==> Table[k].path == Some("/user"))
  {
  }

  /** `'/login'` is declared public, so the guard can never send `/login` to itself. */
  lemma LoginIsPublic()
    ensures forall k :: 0 <= k < |Table| && Table[k].path == Some("/login") ==> !RequiresAuth(Table[k])
  {
  }

  /** The catch-all is the last entry. */
  lemma CatchAllIsLast()
    ensures |Table| == 5 && Table[4].path == Some("*")
  {
  }

  /**
   * The shape of the table: paths are defined, pairwise distinct and free of
   * parameters, no entry is nested, and every entry has a title and an
   * explicit `requiresAuth`.
   */
  lemma TableShape()
    ensures forall k :: 0 <= k < |Table| ==> Table[k].path.Some? && ':' !in Table[k].path.value
    ensures forall j, k :: 0 <= j < k < |Table| ==> Table[j].path != Table[k].path
    ensures forall k :: 0 <= k < |Table| ==> Table[k].children == []
    ensures forall k :: 0 <= k < |Table| ==>
      Table[k].meta.Some? && Table[k].meta.value.title.Some? && Table[k].meta.value.requiresAuth.Some?
  {
  }
}
