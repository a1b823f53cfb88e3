/**
 * The server application (`src` variant): a router, the registration
 * shortcuts that all go through `map`, and `run`, which answers one request.
 */
module SrcApp {
  import opened Wrappers
  import opened Pattern
  import opened Payload
  import opened SrcResponse
  import opened SrcRoute
  import opened SrcRouter
  import opened Shortcuts

  class App {
    /** The router every registration goes to. */
    const router: Router

    ghost predicate Valid()
      reads this, router
    {
      router.Valid()
    }

    /** The constructor: a fresh router with no routes. */
    constructor()
      ensures Valid() && fresh(router) && router.keys == [] && router.routes == []
    {
      router := new Router();
    }

    /**
     * `map`: delegated to the router, whose route is returned as it is — the
     * one already stored under `decl`, or a new one at the end of the table.
     */
    method Map(verbs: seq<string>, decl: string, action: Handler) returns (route: Route)
      requires Valid()
      modifies router, set r | r in router.routes
      ensures Valid()
      ensures decl in old(router.keys) ==>
        router.keys == old(router.keys) && router.routes == old(router.routes) &&
        route == router.routes[IndexOf(router.keys, decl).value] &&
        route.methods == SetAll(old(route.methods), verbs, action)
      ensures decl !in old(router.keys) ==>
        router.keys == old(router.keys) + [decl] && router.routes == old(router.routes) + [route] &&
        fresh(route) && route.pattern == Compile(decl) && route.methods == SetAll(map[], verbs, action)
      ensures forall r :: r in old(router.routes) && r != route ==> r.methods == old(r.methods)
    {
      route := router.Map(verbs, decl, action);
    }

    /**
     * `get`, `post`, `put`, `patch`, `delete`, `options` and `any`: `map` with
     * the shortcut's methods. The route of `decl` answers those methods with
     * `action` and keeps its handlers of every other method.
     */
    method Register(s: Shortcut, decl: string, action: Handler) returns (route: Route)
      requires Valid()
      modifies router, set r | r in router.routes
      ensures Valid()
      ensures decl in old(router.keys) ==>
        router.keys == old(router.keys) && router.routes == old(router.routes) &&
        route == router.routes[IndexOf(router.keys, decl).value]
      ensures decl !in old(router.keys) ==>
        router.keys == old(router.keys) + [decl] && router.routes == old(router.routes) + [route] &&
        fresh(route) && route.pattern == Compile(decl)
      ensures forall v :: v in ShortcutMethods(s) ==> v in route.methods && route.methods[v] == action
      ensures forall v :: v !in ShortcutMethods(s) && decl in old(router.keys) ==>
        (v in route.methods <==> v in old(route.methods)) && (v in route.methods ==> route.methods[v] == old(route.methods[v]))
      ensures forall v :: v !in ShortcutMethods(s) && decl !in old(router.keys) ==> v !in route.methods
      ensures forall r :: r in old(router.routes) && r != route ==> r.methods == old(r.methods)
    {
      route := Map(ShortcutMethods(s), decl, action);
    }

    /** `run`: the response the router gives the request, which is then sent. */
    method Run(req: Request, apply: Apply) returns (sent: Result<Response, Throwable>)
      requires Valid()
      ensures sent == Outcome(router.routes, req, apply)
    {
      sent := router.Match(req, apply);
    }
  }

  /**
   * Two shortcuts on one declaration build one route: the second reuses the
   * route of the first, and the route then answers the methods of both.
   */
  method TwoShortcuts(app: App, s: Shortcut, t: Shortcut, decl: string, a: Handler, b: Handler)
    returns (first: Route, second: Route)
    requires app.Valid()
    modifies app.router, set r | r in app.router.routes
    ensures app.Valid() && first == second
    ensures |app.router.keys| == |old(app.router.keys)| + (if decl in old(app.router.keys) then 0 else 1)
    ensures forall v :: v in ShortcutMethods(t) ==> v in second.methods && second.methods[v] == b
    ensures forall v :: v in ShortcutMethods(s) && v !in ShortcutMethods(t) ==>
      v in second.methods && second.methods[v] == a
  {
    first := app.Register(s, decl, a);
    assert decl in app.router.keys;
    second := app.Register(t, decl, b);
  }
}
