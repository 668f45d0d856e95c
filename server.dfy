/**
 * The `Server` of src/main.rs: an ordered table of (pattern, renderer)
 * routes, filled at start-up by the `add_*` methods, and `handle`, which
 * answers a request with the first route whose pattern matches its path.
 */
module Routing {
  import opened Wrappers
  import opened Text
  import opened UrlDecoding
  import opened PathMatching
  import opened Renderers

  /** One entry of `renderers`: a pattern and the renderer it selects. */
  datatype Route<!V> = Route(pattern: Text, renderer: Renderer<V>)

  predicate RouteMatches<V>(route: Route<V>, path: seq<Text>)
  {
    Matches(Split(route.pattern), path)
  }

  /** The position of the first route whose pattern matches `path`, if any. */
  function FirstMatch<V>(routes: seq<Route<V>>, path: seq<Text>): (r: Option<nat>)
    ensures r.Some? ==> r.value < |routes| && RouteMatches(routes[r.value], path)
    ensures r.Some? ==> forall j | 0 <= j < r.value :: !RouteMatches(routes[j], path)
    ensures r.None? <==> forall j | 0 <= j < |routes| :: !RouteMatches(routes[j], path)
  {
    if routes == [] then None
    else if RouteMatches(routes[0], path) then Some(0)
    else
      match FirstMatch(routes[1..], path)
      case None => None
      case Some(k) => Some(k + 1)
  }

  /**
   * `handle` does not panic on `path`: matching decodes every capture it
   * reaches in each route it tries, up to and including the first match.
   */
  predicate HandledWithoutPanic<V>(routes: seq<Route<V>>, path: seq<Text>)
  {
    forall k | 0 <= k < |routes| ::
      (forall j | 0 <= j < k :: !RouteMatches(routes[j], path)) ==> !Panics(Split(routes[k].pattern), path)
  }

  /** Of two routes that both match, the one registered first is chosen. */
  lemma EarlierRouteWins<V>(routes: seq<Route<V>>, path: seq<Text>, i: nat, j: nat)
    requires i < j < |routes|
    requires RouteMatches(routes[i], path) && RouteMatches(routes[j], path)
    ensures FirstMatch(routes, path).Some? && FirstMatch(routes, path).value <= i < j
  {
  }

  /**
   * Registering a route never changes which route serves a path an earlier
   * route already serves; it serves exactly the paths no earlier route did
   * and its own pattern matches.
   */
  lemma FirstMatchAppend<V>(routes: seq<Route<V>>, route: Route<V>, path: seq<Text>)
    ensures FirstMatch(routes, path).Some? ==> FirstMatch(routes + [route], path) == FirstMatch(routes, path)
    ensures FirstMatch(routes, path).None? ==>
      FirstMatch(routes + [route], path) == if RouteMatches(route, path) then Some(|routes|) else None
  {
    var extended := routes + [route];
    assert forall j | 0 <= j < |routes| :: extended[j] == routes[j];
    assert extended[|routes|] == route;
  }

  class Server<!V> {
    /** `hbars`: the template registry. */
    const templates: Templates<V>
    /** NOT_FOUND: the page shown when no route matches. */
    const notFound: Text
    /** `renderers`: the routes in registration order. */
    var routes: seq<Route<V>>

    /**
     * A server with the given templates and an empty route table (the
     * registration of the bundled templates is not part of this model).
     */
    constructor(templates: Templates<V>, notFound: Text)
      ensures this.templates == templates && this.notFound == notFound
      ensures routes == []
    {
      this.templates := templates;
      this.notFound := notFound;
      routes := [];
    }

    /** `add_static`: a static page, whose content must be valid UTF-8. */
    method AddStatic(path: Text, name: Text, content: Text)
      requires ValidUtf8(content)
      modifies this
      ensures routes == old(routes) + [Route(path, Static(name, content))]
    {
      routes := routes + [Route(path, Static(name, content))];
    }

    /** `add_renderer`: any renderer. */
    method AddRenderer(path: Text, renderer: Renderer<V>)
      modifies this
      ensures routes == old(routes) + [Route(path, renderer)]
    {
      routes := routes + [Route(path, renderer)];
    }

    /** `add_translator`: a translator whose value is shown with `template`. */
    method AddTranslator(path: Text, name: Text, template: Text, translator: Translator<V>)
      modifies this
      ensures routes == old(routes) + [Route(path, Page(name, template, translator))]
    {
      routes := routes + [Route(path, Page(name, template, translator))];
    }

    /**
     * `handle`: try the routes in order; the first whose pattern matches
     * renders the request with its captures and the path's length as depth,
     * and its result, an error from an application renderer included, is
     * what `handle` returns.
     * With no match, the not-found page with status 404; the source reads
     * that page as UTF-8 each time and panics if it is not.
     */
    method Handle(path: seq<Text>, params: Params) returns (r: IronResult)
      requires HandledWithoutPanic(routes, path)
      requires FirstMatch(routes, path).None? ==> ValidUtf8(notFound)
      ensures FirstMatch(routes, path).None? ==> r == Ok(RenderError(templates, notFound, NotFound))
      ensures FirstMatch(routes, path).Some? ==>
        var k := FirstMatch(routes, path).value;
        r == Render(routes[k].renderer, Match(routes[k].pattern, path).value, params, templates, |path|)
    {
      var i := 0;
      while i < |routes|
        invariant 0 <= i <= |routes|
        invariant forall j | 0 <= j < i :: !RouteMatches(routes[j], path)
      {
        var args := MatchPath(routes[i].pattern, path);
        if args.Some? {
          var depth := |path|;
          return Render(routes[i].renderer, args.value, params, templates, depth);
        }
        i := i + 1;
      }
      return Ok(RenderError(templates, notFound, NotFound));
    }
  }
}
