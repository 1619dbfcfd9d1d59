/**
 * How Express picks the handler of a GET request under /api/knowledge-base
 * in backend/server.js: routes are tried in registration order and the first
 * whose pattern matches the path handles the request. Registering the
 * `/:id` route before `/categories` makes the categories route unreachable.
 */
module KnowledgeBaseRoutes {
  import opened Common

  /** One segment of a route pattern: fixed text, or a named parameter. */
  datatype PathSegment = Fixed(text: string) | Param(name: string)

  /** The handlers a GET under /api/knowledge-base can reach. */
  datatype Endpoint = ListArticlesEndpoint | GetArticleEndpoint | CategoriesEndpoint

  datatype Route = Route(pattern: seq<PathSegment>, endpoint: Endpoint)

  /** A fixed segment matches only itself; a parameter matches any non-empty segment. */
  predicate SegmentMatches(p: PathSegment, segment: string)
  {
    match p
    case Fixed(text) => segment == text
    case Param(_) => segment != ""
  }

  /** A pattern matches a path (given as its segments) of the same length, segment by segment. */
  predicate Matches(pattern: seq<PathSegment>, path: seq<string>)
  {
    |pattern| == |path| && forall i :: 0 <= i < |path| ==> SegmentMatches(pattern[i], path[i])
  }

  /**
   * The position of the first route whose pattern matches, or |routes| when
   * none does.
   */
  function FirstMatch(routes: seq<Route>, path: seq<string>): (k: nat)
    ensures k <= |routes|
    ensures k < |routes| ==> Matches(routes[k].pattern, path)
    ensures forall j :: 0 <= j < k ==> !Matches(routes[j].pattern, path)
    decreases |routes|
  {
    if routes == [] then 0
    else if Matches(routes[0].pattern, path) then 0
    else 1 + FirstMatch(routes[1..], path)
  }

  /** No parameter after position `i` of the pattern has the same name as the segment at `i`. */
  predicate LastOfName(pattern: seq<PathSegment>, i: int)
    requires 0 <= i < |pattern|
  {
    forall j :: i < j < |pattern| ==> pattern[j] != pattern[i]
  }

  /**
   * The values a path gives the parameters of a pattern it matches: each
   * parameter name gets the path segment at its position, and when a name
   * occurs twice the later segment wins, as Express assigns the captured
   * values in order.
   */
  function Bind(pattern: seq<PathSegment>, path: seq<string>): (params: map<string, string>)
    requires |pattern| == |path|
    ensures forall i :: 0 <= i < |pattern| && pattern[i].Param? ==> pattern[i].name in params
    ensures forall name :: name in params ==> exists i :: 0 <= i < |pattern| && pattern[i] == Param(name)
    ensures forall i :: 0 <= i < |pattern| && pattern[i].Param? && LastOfName(pattern, i) ==>
              params[pattern[i].name] == path[i]
    decreases |pattern|
  {
    if pattern == [] then map[]
    else
      var rest := Bind(pattern[1..], path[1..]);
      assert forall name :: name in rest ==> exists i :: 0 <= i < |pattern| && pattern[i] == Param(name) by {
        forall name | name in rest
          ensures exists i :: 0 <= i < |pattern| && pattern[i] == Param(name)
        {
          var i :| 0 <= i < |pattern| - 1 && pattern[1..][i] == Param(name);
          assert pattern[i + 1] == Param(name);
        }
      }
      forall i | 1 <= i < |pattern| && LastOfName(pattern, i)
        ensures pattern[1..][i - 1] == pattern[i] && LastOfName(pattern[1..], i - 1)
      {
        LastOfNameInTail(pattern, i);
      }
      match pattern[0]
      case Fixed(_) => rest
      case Param(name) =>
        NotInTail(pattern);
        map[name := path[0]] + rest
  }

  /** A parameter that is the last of its name stays so in the tail of the pattern. */
  lemma LastOfNameInTail(pattern: seq<PathSegment>, i: int)
    requires 1 <= i < |pattern| && LastOfName(pattern, i)
    ensures pattern[1..][i - 1] == pattern[i] && LastOfName(pattern[1..], i - 1)
  {
    forall j | i - 1 < j < |pattern| - 1
      ensures pattern[1..][j] != pattern[1..][i - 1]
    {
      assert pattern[1..][j] == pattern[j + 1];
    }
  }

  /** The first segment, when it is the last of its name, does not occur in the tail. */
  lemma NotInTail(pattern: seq<PathSegment>)
    requires |pattern| > 0
    ensures LastOfName(pattern, 0) ==> forall i :: 0 <= i < |pattern| - 1 ==> pattern[1..][i] != pattern[0]
  {
    forall i | 0 <= i < |pattern| - 1
      ensures pattern[1..][i] == pattern[i + 1]
    {
    }
  }

  datatype Dispatched = Dispatched(endpoint: Endpoint, params: map<string, string>)

  /**
   * The handler that receives the request, with its parameters: the first
   * matching route's, or None when no knowledge-base route matches
   * (another route of the server may still take the request).
   */
  function Dispatch(routes: seq<Route>, path: seq<string>): (d: Option<Dispatched>)
    ensures d.None? <==> forall i :: 0 <= i < |routes| ==> !Matches(routes[i].pattern, path)
    ensures d.Some? ==> exists i :: 0 <= i < |routes| && Matches(routes[i].pattern, path)
                                    && d.value.endpoint == routes[i].endpoint
                                    && d.value.params == Bind(routes[i].pattern, path)
                                    && forall j :: 0 <= j < i ==> !Matches(routes[j].pattern, path)
  {
    var k := FirstMatch(routes, path);
    if k < |routes| then Some(Dispatched(routes[k].endpoint, Bind(routes[k].pattern, path))) else None
  }

  const ListPattern := [Fixed("api"), Fixed("knowledge-base")]
  const ByIdPattern := [Fixed("api"), Fixed("knowledge-base"), Param("id")]
  const CategoriesPattern := [Fixed("api"), Fixed("knowledge-base"), Fixed("categories")]

  /** The path /api/knowledge-base/categories, by segments. */
  const CategoriesPath := ["api", "knowledge-base", "categories"]

  /** The GET routes in the order the server registers them. */
  const RegisteredRoutes := [
    Route(ListPattern, ListArticlesEndpoint),
    Route(ByIdPattern, GetArticleEndpoint),
    Route(CategoriesPattern, CategoriesEndpoint)]

  /** The same routes with the fixed `/categories` registered before the `/:id` parameter route. */
  const CorrectedRoutes := [
    Route(ListPattern, ListArticlesEndpoint),
    Route(CategoriesPattern, CategoriesEndpoint),
    Route(ByIdPattern, GetArticleEndpoint)]

  /** As registered, no path whatever reaches the categories handler. */
  lemma CategoriesUnreachable(path: seq<string>)
    ensures Dispatch(RegisteredRoutes, path).Some? ==> Dispatch(RegisteredRoutes, path).value.endpoint != CategoriesEndpoint
  {
    var k := FirstMatch(RegisteredRoutes, path);
    assert RegisteredRoutes[1].pattern == ByIdPattern;
    if Matches(CategoriesPattern, path) {
      assert path[2] == "categories";
      assert Matches(ByIdPattern, path);
    }
  }

  /** A path of three segments ending in 'categories' after /api/knowledge-base. */
  lemma CategoriesPathMatches()
    ensures !Matches(ListPattern, CategoriesPath)
    ensures Matches(ByIdPattern, CategoriesPath)
    ensures Matches(CategoriesPattern, CategoriesPath)
    ensures Bind(ByIdPattern, CategoriesPath) == map["id" := "categories"]
    ensures Bind(CategoriesPattern, CategoriesPath) == map[]
  {
    assert SegmentMatches(ByIdPattern[2], CategoriesPath[2]);
    assert Bind(ByIdPattern[2..], CategoriesPath[2..]) == map["id" := "categories"];
    assert Bind(CategoriesPattern[2..], CategoriesPath[2..]) == map[];
  }

  /** As registered, a request for the categories is handled as a request for the article with id 'categories'. */
  lemma CategoriesRequestFetchesArticle()
    ensures Dispatch(RegisteredRoutes, CategoriesPath) == Some(Dispatched(GetArticleEndpoint, map["id" := "categories"]))
  {
    CategoriesPathMatches();
    assert FirstMatch(RegisteredRoutes[1..], CategoriesPath) == 0;
    assert FirstMatch(RegisteredRoutes, CategoriesPath) == 1;
  }

  /** As registered, any non-empty segment after /api/knowledge-base is taken as an article id. */
  lemma SegmentIsArticleId(segment: string)
    requires segment != ""
    ensures Dispatch(RegisteredRoutes, ["api", "knowledge-base", segment])
            == Some(Dispatched(GetArticleEndpoint, map["id" := segment]))
  {
    var path := ["api", "knowledge-base", segment];
    assert !Matches(ListPattern, path);
    assert Matches(ByIdPattern, path);
    assert FirstMatch(RegisteredRoutes[1..], path) == 0;
    assert FirstMatch(RegisteredRoutes, path) == 1;
    assert Bind(ByIdPattern[2..], path[2..]) == map["id" := segment];
  }

  /** With the corrected order the categories request reaches its handler. */
  lemma CorrectedCategoriesReachable()
    ensures Dispatch(CorrectedRoutes, CategoriesPath) == Some(Dispatched(CategoriesEndpoint, map[]))
  {
    CategoriesPathMatches();
    assert FirstMatch(CorrectedRoutes[1..], CategoriesPath) == 0;
    assert FirstMatch(CorrectedRoutes, CategoriesPath) == 1;
  }

  /** The corrected order changes nothing for any other path. */
  lemma CorrectedAgreesElsewhere(path: seq<string>)
    requires path != CategoriesPath
    ensures Dispatch(CorrectedRoutes, path) == Dispatch(RegisteredRoutes, path)
  {
    assert !Matches(CategoriesPattern, path);
    var a := FirstMatch(RegisteredRoutes, path);
    var b := FirstMatch(CorrectedRoutes, path);
    assert RegisteredRoutes[1..][1..] == [Route(CategoriesPattern, CategoriesEndpoint)];
    assert CorrectedRoutes[1..][1..] == [Route(ByIdPattern, GetArticleEndpoint)];
    if Matches(ListPattern, path) {
      assert a == 0 && b == 0;
    } else if Matches(ByIdPattern, path) {
      assert FirstMatch(CorrectedRoutes[1..][1..], path) == 0;
      assert FirstMatch(RegisteredRoutes[1..], path) == 0;
      assert a == 1 && b == 2;
    } else {
      assert a == 3 && b == 3;
    }
  }
}
