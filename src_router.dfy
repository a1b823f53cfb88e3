/**
 * The server router (`src` variant): an ordered table from declarations to
 * routes, and `match`, which turns one request into one response — 400
 * without a route, 404 when no pattern occurs in it, otherwise what the
 * first matching route's handler gives, with exceptions turned into
 * responses.
 */
module SrcRouter {
  import opened Wrappers
  import opened Pattern
  import opened Payload
  import opened SrcResponse
  import opened SrcRoute

  /**
   * A request as the router reads it: the `route` query parameter (if any),
   * the HTTP method, and the body, or the exception reading the body throws.
   */
  datatype Request = Request(route: Option<string>, verb: string, body: Result<Value, Throwable>)

  /** What a call of a handler ends in: the response it returns, or what it throws. */
  datatype HandlerResult = Returns(response: Response) | Raises(e: Throwable)

  /** The handlers' behaviour, which lies outside the router. */
  type Apply = (Handler, seq<Value>) -> HandlerResult

  /** What `offsetSet` is given: a route, or anything else. */
  datatype Assigned = IsRoute(route: Route) | NotRoute(v: Value)

  /** The `InvalidArgumentException` that `offsetSet` throws. */
  const NotARoute: Throwable :=
    Throwable(InvalidArgumentException, 0, "", "src/Hashbang/Router.php", 127, None)

  // ---------------------------------------------------------------------------
  // The table's specification
  // ---------------------------------------------------------------------------

  /** The position of `k` in `keys`, if it is there. */
  function IndexOf(keys: seq<string>, k: string): (i: Option<nat>)
    ensures i.Some? <==> k in keys
    ensures i.Some? ==> i.value < |keys| && keys[i.value] == k
    decreases |keys|
  {
    if keys == [] then None
    else if keys[0] == k then Some(0)
    else match IndexOf(keys[1..], k)
      case None => None
      case Some(j) => Some(j + 1)
  }

  /** `m` after `foreach ($verbs as $verb) $m[$verb] = $h`. */
  function SetAll(m: map<string, Handler>, verbs: seq<string>, h: Handler): (r: map<string, Handler>)
    ensures forall v :: v in verbs ==> v in r && r[v] == h
    ensures forall v :: v !in verbs ==> (v in r <==> v in m) && (v in m ==> r[v] == m[v])
    decreases |verbs|
  {
    if verbs == [] then m
    else
      var init := verbs[..|verbs| - 1];
      assert forall v :: v in verbs ==> v in init || v == verbs[|verbs| - 1];
      SetAll(m, init, h)[verbs[|verbs| - 1] := h]
  }

  /** `preg_match` reports a match of the route's pattern in `path`. */
  predicate Handles(route: Route, path: string) {
    route.PregMatch(path).Some?
  }

  /** The first route from `i` on whose pattern occurs in `path`. */
  function FirstMatchFrom(routes: seq<Route>, path: string, i: nat): (r: Option<nat>)
    requires i <= |routes|
    ensures r.Some? ==> i <= r.value < |routes| && Handles(routes[r.value], path)
    decreases |routes| - i
  {
    if i == |routes| then None
    else if Handles(routes[i], path) then Some(i)
    else FirstMatchFrom(routes, path, i + 1)
  }

  /** No route from `i` on that comes before the one found matches; when none is found, none from `i` on matches. */
  lemma {:induction false} FirstMatchFromSkips(routes: seq<Route>, path: string, i: nat)
    requires i <= |routes|
    ensures FirstMatchFrom(routes, path, i).Some? ==>
      forall j :: i <= j < FirstMatchFrom(routes, path, i).value ==> !Handles(routes[j], path)
    ensures FirstMatchFrom(routes, path, i).None? ==>
      forall j :: i <= j < |routes| ==> !Handles(routes[j], path)
    decreases |routes| - i
  {
    if i < |routes| && !Handles(routes[i], path) {
      FirstMatchFromSkips(routes, path, i + 1);
    }
  }

  /** The route that handles `path`: the first in registration order that matches; later ones are never consulted. */
  function FirstMatch(routes: seq<Route>, path: string): Option<nat> {
    FirstMatchFrom(routes, path, 0)
  }

  /** The strings of the route parameters as PHP values. */
  function Strs(params: seq<string>): (vs: seq<Value>)
    ensures |vs| == |params| && forall k :: 0 <= k < |params| ==> vs[k] == Str(params[k])
  {
    seq(|params|, k requires 0 <= k < |params| => Str(params[k]))
  }

  /**
   * The two `catch` blocks: a `ResponseException` becomes a response with its
   * code, message and previous exception (which fails when the code has no
   * reason phrase); any other Throwable becomes a 500 response carrying it.
   */
  function Caught(e: Throwable): (r: Result<Response, Throwable>)
    ensures e.kind == ResponseException ==> r == New(e.code, e.message, PreviousData(e.previous))
    ensures e.kind != ResponseException ==>
      r.Success? && r.value.code == 500 && r.value.message == "internal server error" &&
      r.value.data == Stored(Thrown(e))
  {
    if e.kind == ResponseException then New(e.code, e.message, PreviousData(e.previous))
    else Success(Make(Error, Thrown(e)))
  }

  /** What `match` does with a request, given the routes in registration order. */
  function Outcome(routes: seq<Route>, req: Request, apply: Apply): Result<Response, Throwable>
    reads set r | r in routes
  {
    match req.route
    case None => Success(Make(BadRequest, Plain(Null)))
    case Some(path) =>
      match FirstMatch(routes, path)
      case None => Success(Make(NotFound, Plain(Null)))
      case Some(i) =>
        var params := routes[i].PregMatch(path).value;
        match req.body
        case Failure(e) => Caught(e)
        case Success(body) =>
          match routes[i].Invoke(req.verb, [body] + Strs(params))
          case Throws(e) => Caught(e)
          case Invoked(h, args) =>
            match apply(h, args)
            case Returns(response) => Success(response)
            case Raises(e) => Caught(e)
  }

  class Router {
    /** The declarations, in the order they were added. */
    var keys: seq<string>
    /** The route stored under each declaration. */
    var routes: seq<Route>

    /** One route per key, and no key twice. */
    ghost predicate Valid()
      reads this
    {
      |keys| == |routes| && forall i, j :: 0 <= i < j < |keys| ==> keys[i] != keys[j]
    }

    constructor()
      ensures Valid() && keys == [] && routes == []
    {
      keys := [];
      routes := [];
    }

    /** `offsetExists`: whether a route is stored under `k`. */
    function OffsetExists(k: string): (r: bool)
      reads this
      ensures r <==> k in keys
    {
      k in keys
    }

    /** `offsetGet`: the route stored under `k`, or `null`. */
    function OffsetGet(k: string): (r: Option<Route>)
      requires Valid()
      reads this
      ensures r.Some? <==> k in keys
      ensures r.Some? ==> exists i :: 0 <= i < |keys| && keys[i] == k && routes[i] == r.value
    {
      match IndexOf(keys, k)
      case None => None
      case Some(i) => Some(routes[i])
    }

    /**
     * `offsetSet`: a route is stored under `k`, in the place of the old one
     * when `k` is a key already and at the end otherwise; anything else is refused.
     */
    method OffsetSet(k: string, v: Assigned) returns (thrown: Option<Throwable>)
      requires Valid()
      modifies this
      ensures Valid()
      ensures v.NotRoute? ==> thrown == Some(NotARoute) && keys == old(keys) && routes == old(routes)
      ensures v.IsRoute? && k in old(keys) ==>
        thrown == None && keys == old(keys) &&
        routes == old(routes)[IndexOf(old(keys), k).value := v.route]
      ensures v.IsRoute? && k !in old(keys) ==>
        thrown == None && keys == old(keys) + [k] && routes == old(routes) + [v.route]
    {
      if v.NotRoute? {
        return Some(NotARoute);
      }
      thrown := None;
      match IndexOf(keys, k)
      case Some(i) =>
        routes := routes[i := v.route];
      case None =>
        keys := keys + [k];
        routes := routes + [v.route];
    }

    /** `offsetUnset`: the entry under `k` goes; the others keep their order. */
    method OffsetUnset(k: string)
      requires Valid()
      modifies this
      ensures Valid()
      ensures k !in old(keys) ==> keys == old(keys) && routes == old(routes)
      ensures k in old(keys) ==>
        var i := IndexOf(old(keys), k).value;
        keys == old(keys)[..i] + old(keys)[i + 1..] && routes == old(routes)[..i] + old(routes)[i + 1..]
      ensures k !in keys
    {
      match IndexOf(keys, k)
      case None =>
      case Some(i) =>
        keys := keys[..i] + keys[i + 1..];
        routes := routes[..i] + routes[i + 1..];
        forall a, b | 0 <= a < b < |keys|
          ensures keys[a] != keys[b]
        {
          var a' := if a < i then a else a + 1;
          var b' := if b < i then b else b + 1;
          assert keys[a] == old(keys)[a'] && keys[b] == old(keys)[b'];
        }
    }

    /**
     * `map`: the route of `decl` (the one stored, or a new one added at the
     * end) gets `action` as handler of every listed method; its other
     * methods and all other routes are left alone.
     */
    method Map(verbs: seq<string>, decl: string, action: Handler) returns (route: Route)
      requires Valid()
      modifies this, set r | r in routes
      ensures Valid()
      ensures decl in old(keys) ==>
        keys == old(keys) && routes == old(routes) &&
        route == routes[IndexOf(keys, decl).value] &&
        route.methods == SetAll(old(route.methods), verbs, action)
      ensures decl !in old(keys) ==>
        keys == old(keys) + [decl] && routes == old(routes) + [route] &&
        fresh(route) && route.pattern == Compile(decl) && route.methods == SetAll(map[], verbs, action)
      ensures forall r :: r in old(routes) && r != route ==> r.methods == old(r.methods)
    {
      match IndexOf(keys, decl) {
        case Some(i) =>
          route := routes[i];
        case None =>
          route := new Route(decl);
          keys := keys + [decl];
          routes := routes + [route];
      }
      var start := route.methods;
      var n := 0;
      while n < |verbs|
        invariant 0 <= n <= |verbs|
        invariant route.methods == SetAll(start, verbs[..n], action)
        invariant keys == old(keys) + (if decl in old(keys) then [] else [decl])
        invariant routes == old(routes) + (if decl in old(keys) then [] else [route])
        invariant forall r :: r in old(routes) && r != route ==> r.methods == old(r.methods)
      {
        assert verbs[..n + 1][..n] == verbs[..n];
        var _ := route.OffsetSet(verbs[n], Callable(action));
        n := n + 1;
      }
      assert verbs[..n] == verbs;
    }

    /** The private `preg_match`: the routes are tried in order and the first that matches is returned. */
    method FindRoute(path: string) returns (found: Option<(Route, seq<string>)>)
      requires Valid()
      ensures found.None? <==> FirstMatch(routes, path).None?
      ensures found.Some? ==>
        var i := FirstMatch(routes, path).value;
        found.value == (routes[i], routes[i].PregMatch(path).value)
    {
      var i := 0;
      while i < |routes|
        invariant 0 <= i <= |routes|
        invariant FirstMatch(routes, path) == FirstMatchFrom(routes, path, i)
      {
        var params := routes[i].PregMatch(path);
        if params.Some? {
          return Some((routes[i], params.value));
        }
        i := i + 1;
      }
      return None;
    }

    /** `match`: the response to a request, or the exception that escapes. */
    method Match(req: Request, apply: Apply) returns (r: Result<Response, Throwable>)
      requires Valid()
      ensures r == Outcome(routes, req, apply)
    {
      if req.route.None? {
        return Success(Make(BadRequest, Plain(Null)));
      }
      var found := FindRoute(req.route.value);
      if found.None? {
        return Success(Make(NotFound, Plain(Null)));
      }
      var (route, params) := found.value;
      if req.body.Failure? {
        return Caught(req.body.error);
      }
      var invocation := route.Invoke(req.verb, [req.body.value] + Strs(params));
      match invocation
      case Throws(e) =>
        r := Caught(e);
      case Invoked(h, args) =>
        match apply(h, args)
        case Returns(response) =>
          r := Success(response);
        case Raises(e) =>
          r := Caught(e);
    }
  }

  // ---------------------------------------------------------------------------
  // The outcomes
  // ---------------------------------------------------------------------------

  /** Without a route the answer is 400 `bad request`. */
  lemma NoRouteIsBadRequest(routes: seq<Route>, req: Request, apply: Apply)
    requires req.route.None?
    ensures Outcome(routes, req, apply) == Success(Response(400, "bad request", Null))
  {
  }

  /** When no pattern occurs in the route the answer is 404 `not found`. */
  lemma NoMatchIsNotFound(routes: seq<Route>, req: Request, apply: Apply)
    requires req.route.Some?
    requires forall i :: 0 <= i < |routes| ==> routes[i].PregMatch(req.route.value).None?
    ensures Outcome(routes, req, apply) == Success(Response(404, "not found", Null))
  {
  }

  /**
   * A method the first matching route has no handler for gives 405
   * `invalid method`, even when a later matching route has one.
   */
  lemma UnknownMethodIsNotAllowed(routes: seq<Route>, req: Request, apply: Apply, i: nat)
    requires req.route.Some? && req.body.Success?
    requires i < |routes| && routes[i].PregMatch(req.route.value).Some?
    requires forall j :: 0 <= j < i ==> routes[j].PregMatch(req.route.value).None?
    requires req.verb !in routes[i].methods
    ensures Outcome(routes, req, apply) == Success(Response(405, "invalid method", Null))
  {
    FirstMatchIs(routes, req.route.value, i);
  }

  /**
   * The handler of the first matching route is called with the request body
   * followed by that route's parameters, and its response is the answer.
   */
  lemma HandlerAnswers(routes: seq<Route>, req: Request, apply: Apply, i: nat)
    requires req.route.Some? && req.body.Success?
    requires i < |routes| && routes[i].PregMatch(req.route.value).Some?
    requires forall j :: 0 <= j < i ==> routes[j].PregMatch(req.route.value).None?
    requires req.verb in routes[i].methods
    ensures var args := [req.body.value] + Strs(routes[i].PregMatch(req.route.value).value);
      var h := routes[i].methods[req.verb];
      Outcome(routes, req, apply) ==
        match apply(h, args)
        case Returns(response) => Success(response)
        case Raises(e) => Caught(e)
  {
    FirstMatchIs(routes, req.route.value, i);
  }

  /** A route that matches ahead of all others is the one `FirstMatch` picks. */
  lemma FirstMatchIs(routes: seq<Route>, path: string, i: nat)
    requires i < |routes| && routes[i].PregMatch(path).Some?
    requires forall j :: 0 <= j < i ==> routes[j].PregMatch(path).None?
    ensures FirstMatch(routes, path) == Some(i)
  {
    FirstMatchFromSkips(routes, path, 0);
  }

  /**
   * A `ResponseException` keeps its code and message, and its previous
   * exception becomes the data — provided the code has a reason phrase;
   * otherwise the constructor's exception escapes `match`.
   */
  lemma ResponseExceptionAnswers(e: Throwable)
    requires e.kind == ResponseException
    ensures Caught(e).Success? <==> HasPhrase(e.code)
    ensures Caught(e).Success? ==> Caught(e).value == Response(e.code, e.message, Stored(PreviousData(e.previous)))
    ensures Caught(e).Failure? ==> Caught(e).error.kind == InvalidArgumentException
  {
  }

  /** Any other exception gives 500 `internal server error` with its `error` object as data. */
  lemma OtherThrowableAnswers(e: Throwable)
    requires e.kind != ResponseException
    ensures Caught(e) == Success(Response(500, "internal server error", Array([(StrKey("error"), FormatError(e))])))
  {
  }
}
