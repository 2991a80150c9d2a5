/**
 * The router: a list of routes searched by exact path, in the order they were added, and
 * the current route, which navigation replaces with the route found. The current route is
 * kept in a reactive signal in the source; here it is a plain field.
 */
module Routing {
  import opened Wrappers
  import opened Component

  datatype Route = Route(path: string, component: string, params: map<string, string>, query: map<string, string>)

  /** The route a new router starts on. */
  const HomeRoute := Route("/", "Home", map[], map[])

  /** A route as `add_route` creates it: no params and no query. */
  function NewRoute(path: string, component: string): Route
  {
    Route(path, component, map[], map[])
  }

  /** The index of the first route whose path is `path`, if any. */
  function FirstMatch(routes: seq<Route>, path: string): (r: Option<nat>)
    ensures r.Some? ==> r.value < |routes| && routes[r.value].path == path
    ensures r.Some? ==> forall j :: 0 <= j < r.value ==> routes[j].path != path
    ensures r.None? <==> forall j :: 0 <= j < |routes| ==> routes[j].path != path
  {
    if routes == [] then None
    else if routes[0].path == path then Some(0)
    else match FirstMatch(routes[1..], path)
      case Some(i) => Some(i + 1)
      case None => None
  }

  /** `find_route`: the first route whose path equals `path` exactly. */
  function FindRouteIn(routes: seq<Route>, path: string): (r: Option<Route>)
    ensures r.Some? ==> r.value in routes && r.value.path == path
    ensures r.None? <==> forall j :: 0 <= j < |routes| ==> routes[j].path != path
  {
    match FirstMatch(routes, path)
    case Some(i) => Some(routes[i])
    case None => None
  }

  class Router {
    var routes: seq<Route>
    var currentRoute: Route

    /** The current route is the home route or one of the routes. */
    ghost predicate Valid()
      reads this
    {
      currentRoute == HomeRoute || currentRoute in routes
    }

    constructor()
      ensures routes == [] && currentRoute == HomeRoute
      ensures Valid()
    {
      routes := [];
      currentRoute := HomeRoute;
    }

    method AddRoute(path: string, component: string)
      requires Valid()
      modifies this
      ensures Valid()
      ensures routes == old(routes) + [NewRoute(path, component)]
      ensures currentRoute == old(currentRoute)
    {
      routes := routes + [NewRoute(path, component)];
    }

    /** The search of `find_route`, over the routes in order. */
    method FindRoute(path: string) returns (r: Option<Route>)
      ensures r == FindRouteIn(routes, path)
    {
      for i := 0 to |routes|
        invariant forall j :: 0 <= j < i ==> routes[j].path != path
      {
        if routes[i].path == path {
          FirstMatchAt(routes, path, i);
          return Some(routes[i]);
        }
      }
      return None;
    }

    /** Navigating to a path with a route makes that route current; otherwise nothing changes. */
    method Navigate(path: string)
      requires Valid()
      modifies this
      ensures Valid()
      ensures routes == old(routes)
      ensures currentRoute == match FindRouteIn(old(routes), path)
                              case Some(route) => route
                              case None => old(currentRoute)
    {
      var found := FindRoute(path);
      if found.Some? {
        currentRoute := found.value;
      }
    }

    method CurrentRoute() returns (r: Route)
      ensures r == currentRoute
    {
      r := currentRoute;
    }
  }

  /** A match with no match before it is the first match. */
  lemma {:induction false} FirstMatchAt(routes: seq<Route>, path: string, i: nat)
    requires i < |routes| && routes[i].path == path
    requires forall j :: 0 <= j < i ==> routes[j].path != path
    ensures FirstMatch(routes, path) == Some(i)
  {
    if i > 0 {
      FirstMatchAt(routes[1..], path, i - 1);
    }
  }

  /**
   * Adding a route never changes what an existing path finds; a path that found nothing
   * finds the new route exactly when it is the new route's path.
   */
  lemma FindAfterAdd(routes: seq<Route>, route: Route, path: string)
    ensures FindRouteIn(routes + [route], path) ==
      if FindRouteIn(routes, path).Some? then FindRouteIn(routes, path)
      else if route.path == path then Some(route)
      else None
  {
    var all := routes + [route];
    match FirstMatch(routes, path)
    case Some(i) =>
      FirstMatchAt(all, path, i);
    case None =>
      if route.path == path {
        FirstMatchAt(all, path, |routes|);
      } else {
        assert forall j :: 0 <= j < |all| ==> all[j].path != path;
      }
  }

  /** `use_params`: no parameter is extracted from the current route, so always empty. */
  function UseParams(): (params: map<string, string>)
    ensures |params| == 0
  {
    map[]
  }

  /** `use_query`: no query parameter is extracted, so always empty. */
  function UseQuery(): (query: map<string, string>)
    ensures |query| == 0
  {
    map[]
  }

  datatype LinkProps = LinkProps(to: string, className: Option<string>, children: string)

  /** The client-side navigation call of a link. */
  function NavigateCall(to: string): string
  {
    "ferrum.navigate('" + to + "')"
  }

  /** `Link`: an anchor to `to` that navigates on click, with one empty `span` child. */
  function Link(props: LinkProps): (v: ComponentView)
    ensures v.tag == "a"
    ensures v.props.Keys == {"href", "onclick"} + (if props.className.Some? then {"class"} else {})
    ensures "href" in v.props && v.props["href"] == StringValue(props.to)
    ensures "onclick" in v.props && v.props["onclick"] == StringValue(NavigateCall(props.to))
    ensures props.className.Some? ==> "class" in v.props && v.props["class"] == StringValue(props.className.value)
    ensures v.children == [ComponentView("span", map[], [])]
  {
    var base := map["href" := StringValue(props.to), "onclick" := StringValue(NavigateCall(props.to))];
    var attributes := if props.className.Some? then base["class" := StringValue(props.className.value)] else base;
    ComponentView("a", attributes, [ComponentView("span", map[], [])])
  }

  /** The link's own `children` text is not rendered: links that differ only there are equal. */
  lemma LinkIgnoresChildren(p: LinkProps, q: LinkProps)
    requires p.to == q.to && p.className == q.className
    ensures Link(p) == Link(q)
  {
  }
}
