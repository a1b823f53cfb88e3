/**
 * The client-side hash router: routes built from declarations, the router
 * that keeps them in registration order, and what one `match` run does with
 * the current location hash.
 */
module HashRouter {
  import opened Wrappers
  import opened Pattern

  /** The identity of a route callback; what a callback does is outside the router. */
  type Callback = nat

  /** The exceptions a run can end in. */
  datatype JsError =
    | TypeError   // `decode` called on `undefined`, the value of an optional group that did not take part
    | URIError    // `decodeURIComponent` rejected a malformed percent escape

  /**
   * A route: `handle` is the declaration after the first rewrite, `source` the
   * text of its RegExp, `pattern` the element sequence that text denotes.
   */
  datatype Route = Route(handle: string, source: string, pattern: seq<Elem>, callback: Callback, last: bool)

  /** The `Route` constructor. */
  function MakeRoute(decl: string, callback: Callback, last: bool): (r: Route)
    ensures r.handle == RewriteOptional(decl)
    ensures r.source == RewriteParams(r.handle, CaptureText(Js))
    ensures Render(r.pattern, CaptureText(Js)) == r.source
    ensures r.callback == callback && r.last == last
  {
    CompileRendersRewrite(decl, Js);
    Route(RewriteOptional(decl), Rewrite(decl, Js), Compile(decl), callback, last)
  }

  // ---------------------------------------------------------------------------
  // encode and decode
  // ---------------------------------------------------------------------------

  /** `s` with every occurrence of `a` replaced by `b`. */
  function Swap(s: string, a: char, b: char): (r: string)
    ensures |r| == |s|
    ensures forall k :: 0 <= k < |s| ==> r[k] == (if s[k] == a then b else s[k])
    decreases |s|
  {
    if s == [] then [] else [if s[0] == a then b else s[0]] + Swap(s[1..], a, b)
  }

  /** `Router.encode`: spaces become `+`, so none is left. */
  function Encode(x: string): (r: string)
    ensures |r| == |x| && ' ' !in r
  {
    Swap(x, ' ', '+')
  }

  /** `decodeURIComponent` as seen by the router: `None` when it throws a URIError. */
  type PercentDecoder = string -> Option<string>

  /** A decoder that leaves text without a `%` as it is, as `decodeURIComponent` does. */
  ghost predicate PercentIdentity(pct: PercentDecoder) {
    forall t :: '%' !in t ==> pct(t) == Some(t)
  }

  /** `Router.decode`: `+` becomes a space, then percent escapes are decoded. */
  function Decode(x: string, pct: PercentDecoder): Result<string, JsError> {
    match pct(Swap(x, '+', ' '))
    case None => Failure(URIError)
    case Some(y) => Success(y)
  }

  /** `Router.decode` applied to one entry of a RegExp match, which is `undefined` for an absent group. */
  function DecodeGroup(c: Option<string>, pct: PercentDecoder): Result<string, JsError> {
    if c.None? then Failure(TypeError) else Decode(c.value, pct)
  }

  /** `matches.map(Router.decode)`: each group left to right; the first exception ends the map. */
  function DecodeAll(caps: seq<Option<string>>, pct: PercentDecoder): (r: Result<seq<string>, JsError>)
    ensures r.Success? <==> forall k :: 0 <= k < |caps| ==> DecodeGroup(caps[k], pct).Success?
    ensures r.Success? ==>
      (|r.value| == |caps| && forall k :: 0 <= k < |caps| ==> DecodeGroup(caps[k], pct) == Success(r.value[k]))
    ensures r.Failure? ==>
      exists k :: (0 <= k < |caps| && DecodeGroup(caps[k], pct) == Failure(r.error) &&
        forall j :: 0 <= j < k ==> DecodeGroup(caps[j], pct).Success?)
    decreases |caps|
  {
    if caps == [] then Success([])
    else
      match DecodeGroup(caps[0], pct)
      case Failure(e) => Failure(e)
      case Success(v) =>
        var rest := DecodeAll(caps[1..], pct);
        assert forall k :: 1 <= k < |caps| ==> caps[k] == caps[1..][k - 1];
        if rest.Failure? then
          var k :| 0 <= k < |caps[1..]| && DecodeGroup(caps[1..][k], pct) == Failure(rest.error) &&
            forall j :: 0 <= j < k ==> DecodeGroup(caps[1..][j], pct).Success?;
          assert DecodeGroup(caps[k + 1], pct) == Failure(rest.error);
          Failure(rest.error)
        else Success([v] + rest.value)
  }

  /** Decoding undoes encoding for text with no `+` and no `%`. */
  lemma DecodeEncode(x: string, pct: PercentDecoder)
    requires PercentIdentity(pct)
    requires '+' !in x && '%' !in x
    ensures Decode(Encode(x), pct) == Success(x)
  {
    var y := Swap(Encode(x), '+', ' ');
    assert y == x by {
      forall k | 0 <= k < |x| ensures y[k] == x[k] {
        assert x[k] != '+';
      }
    }
  }

  /** A `+` does not survive the round trip: it comes back as a space. */
  lemma DecodeEncodePlus(pct: PercentDecoder)
    requires PercentIdentity(pct)
    ensures Decode(Encode("a+b"), pct) == Success("a b")
  {
    assert Swap(Encode("a+b"), '+', ' ') == "a b";
  }

  // ---------------------------------------------------------------------------
  // One run of `match`
  // ---------------------------------------------------------------------------

  /** A callback invoked with its decoded arguments. */
  datatype Call = Call(callback: Callback, args: seq<string>)

  /** How a run ends: past the last route, at a `last` route, or by an exception. */
  datatype Outcome = Exhausted | Stopped | Threw(error: JsError)

  /** The callbacks a run invokes, in order, and how it ends. */
  datatype Run = Run(calls: seq<Call>, outcome: Outcome)

  /** The path a hash stands for: `#!/users/1` gives `/users/1` (its first three characters are dropped). */
  function HashPath(hash: string): (path: string)
    ensures |path| >= 1 && path[0] == '/'
    ensures |hash| >= 3 ==> path[1..] == hash[3..]
    ensures |hash| < 3 ==> path == "/"
  {
    "/" + (if |hash| >= 3 then hash[3..] else "")
  }

  /** The groups a route's RegExp reports on `path`, or `None` when its pattern does not occur there. */
  function Report(r: Route, path: string): Option<seq<Option<string>>> {
    match Search(r.pattern, Js, path)
    case None => None
    case Some((_, m)) => Some(m.captures)
  }

  /** What one route contributes to a run on `path`. */
  function Step(r: Route, path: string, pct: PercentDecoder): Run {
    match Report(r, path)
    case None => Run([], Exhausted)
    case Some(caps) =>
      match DecodeAll(caps, pct)
      case Failure(e) => Run([], Threw(e))
      case Success(args) => Run([Call(r.callback, args)], if r.last then Stopped else Exhausted)
  }

  /** A run that goes on with `rest` only when `first` went past its last route. */
  function Then(first: Run, rest: Run): Run {
    if first.outcome == Exhausted then Run(first.calls + rest.calls, rest.outcome) else first
  }

  /** A run over the routes in registration order. */
  function Dispatch(routes: seq<Route>, path: string, pct: PercentDecoder): Run
    decreases |routes|
  {
    if routes == [] then Run([], Exhausted)
    else Then(Step(routes[0], path, pct), Dispatch(routes[1..], path, pct))
  }

  lemma ThenAssoc(a: Run, b: Run, c: Run)
    ensures Then(Then(a, b), c) == Then(a, Then(b, c))
  {
    if a.outcome == Exhausted && b.outcome == Exhausted {
      assert a.calls + b.calls + c.calls == a.calls + (b.calls + c.calls);
    }
  }

  /** A run over `a + b` is the run over `a`, continued over `b` when it went past the end of `a`. */
  lemma {:induction false} DispatchAppend(a: seq<Route>, b: seq<Route>, path: string, pct: PercentDecoder)
    ensures Dispatch(a + b, path, pct) == Then(Dispatch(a, path, pct), Dispatch(b, path, pct))
    decreases |a|
  {
    if a == [] {
      assert a + b == b;
      assert Dispatch(b, path, pct).calls == [] + Dispatch(b, path, pct).calls;
    } else {
      assert (a + b)[1..] == a[1..] + b;
      DispatchAppend(a[1..], b, path, pct);
      ThenAssoc(Step(a[0], path, pct), Dispatch(a[1..], path, pct), Dispatch(b, path, pct));
    }
  }

  /** Once a run stops at a `last` route or throws, the routes after it are never consulted. */
  lemma DispatchPrefix(a: seq<Route>, b: seq<Route>, path: string, pct: PercentDecoder)
    requires Dispatch(a, path, pct).outcome != Exhausted
    ensures Dispatch(a + b, path, pct) == Dispatch(a, path, pct)
  {
    DispatchAppend(a, b, path, pct);
  }

  /** The routes whose pattern occurs in `path`, in registration order. */
  function Matching(routes: seq<Route>, path: string): (ms: seq<Route>)
    ensures |ms| <= |routes|
    decreases |routes|
  {
    if routes == [] then []
    else if Report(routes[0], path).Some? then [routes[0]] + Matching(routes[1..], path)
    else Matching(routes[1..], path)
  }

  /** A matching route that lets the run go on: not `last`, and every group decodes. */
  predicate GoesOn(r: Route, path: string, pct: PercentDecoder) {
    Report(r, path).Some? && !r.last && DecodeAll(Report(r, path).value, pct).Success?
  }

  /** The call a matching route makes when its groups decode. */
  function CallOf(r: Route, path: string, pct: PercentDecoder): Call
    requires GoesOn(r, path, pct)
  {
    Call(r.callback, DecodeAll(Report(r, path).value, pct).value)
  }

  lemma StepOfMatching(r: Route, path: string, pct: PercentDecoder)
    requires Report(r, path).Some?
    ensures Step(r, path, pct).outcome == Exhausted <==> GoesOn(r, path, pct)
    ensures GoesOn(r, path, pct) ==> Step(r, path, pct).calls == [CallOf(r, path, pct)]
  {
  }

  /** Every route of `ms` lets the run go on. */
  predicate AllGoOn(ms: seq<Route>, path: string, pct: PercentDecoder)
    decreases |ms|
  {
    ms == [] || (GoesOn(ms[0], path, pct) && AllGoOn(ms[1..], path, pct))
  }

  /** The calls the routes of `ms` make, in order. */
  function CallsOf(ms: seq<Route>, path: string, pct: PercentDecoder): (cs: seq<Call>)
    requires AllGoOn(ms, path, pct)
    ensures |cs| == |ms|
    decreases |ms|
  {
    if ms == [] then [] else [CallOf(ms[0], path, pct)] + CallsOf(ms[1..], path, pct)
  }

  /** `AllGoOn` and `CallsOf` read route by route. */
  lemma {:induction false} AllGoOnPointwise(ms: seq<Route>, path: string, pct: PercentDecoder)
    ensures AllGoOn(ms, path, pct) <==> forall k :: 0 <= k < |ms| ==> GoesOn(ms[k], path, pct)
    ensures AllGoOn(ms, path, pct) ==>
      forall k :: 0 <= k < |ms| ==> GoesOn(ms[k], path, pct) && CallsOf(ms, path, pct)[k] == CallOf(ms[k], path, pct)
    decreases |ms|
  {
    if ms != [] {
      AllGoOnPointwise(ms[1..], path, pct);
      assert forall k :: 1 <= k < |ms| ==> ms[k] == ms[1..][k - 1];
    }
  }

  /**
   * A run goes past the last route exactly when no matching route is `last`
   * and every matching route's groups decode; then it has called every
   * matching route's callback, once each, in registration order, with that
   * route's decoded captures.
   */
  lemma {:induction false} DispatchExhausted(routes: seq<Route>, path: string, pct: PercentDecoder)
    ensures Dispatch(routes, path, pct).outcome == Exhausted <==> AllGoOn(Matching(routes, path), path, pct)
    ensures Dispatch(routes, path, pct).outcome == Exhausted ==>
      Dispatch(routes, path, pct).calls == CallsOf(Matching(routes, path), path, pct)
    decreases |routes|
  {
    if routes == [] {
      return;
    }
    DispatchExhausted(routes[1..], path, pct);
    var ms := Matching(routes, path);
    var rest := Matching(routes[1..], path);
    var tail := Dispatch(routes[1..], path, pct);
    var step := Step(routes[0], path, pct);
    var run := Dispatch(routes, path, pct);
    assert run == Then(step, tail);
    if Report(routes[0], path).None? {
      assert ms == rest;
      assert step == Run([], Exhausted);
      assert [] + tail.calls == tail.calls;
      assert run == tail;
    } else {
      assert ms == [routes[0]] + rest;
      assert ms[1..] == rest;
      StepOfMatching(routes[0], path, pct);
    }
  }

  /**
   * The same, route by route: past the last route exactly when every
   * matching route goes on, and then the k-th call is the k-th matching
   * route's callback with its decoded captures.
   */
  lemma DispatchCallsEveryMatch(routes: seq<Route>, path: string, pct: PercentDecoder)
    ensures var run, ms := Dispatch(routes, path, pct), Matching(routes, path);
      (run.outcome == Exhausted <==> forall k :: 0 <= k < |ms| ==> GoesOn(ms[k], path, pct)) &&
      (run.outcome == Exhausted ==>
        |run.calls| == |ms| &&
        forall k :: 0 <= k < |ms| ==> GoesOn(ms[k], path, pct) && run.calls[k] == CallOf(ms[k], path, pct))
  {
    DispatchExhausted(routes, path, pct);
    AllGoOnPointwise(Matching(routes, path), path, pct);
  }

  /** A matching route with an absent optional group makes the run throw before its callback is called. */
  lemma AbsentGroupThrows(r: Route, path: string, pct: PercentDecoder, k: nat)
    requires Report(r, path).Some?
    requires k < |Report(r, path).value| && Report(r, path).value[k].None?
    ensures Step(r, path, pct).calls == [] && Step(r, path, pct).outcome.Threw?
  {
  }

  /** The router: an array of routes, appended to by `map`. */
  class Router {
    var routes: seq<Route>

    constructor()
      ensures routes == []
    {
      routes := [];
    }

    /** `map`: a route for the declaration goes at the end. */
    method Map(decl: string, callback: Callback, last: bool)
      modifies this
      ensures routes == old(routes) + [MakeRoute(decl, callback, last)]
    {
      routes := routes + [MakeRoute(decl, callback, last)];
    }

    /** `match`: one run over the routes for the hash, with `pct` as `decodeURIComponent`. */
    method Match(hash: string, pct: PercentDecoder) returns (run: Run)
      ensures run == Dispatch(routes, HashPath(hash), pct)
    {
      var path := HashPath(hash);
      var calls: seq<Call> := [];
      var i := 0;
      while i < |routes|
        invariant 0 <= i <= |routes|
        invariant Dispatch(routes, path, pct) == Then(Run(calls, Exhausted), Dispatch(routes[i..], path, pct))
      {
        var route := routes[i];
        assert routes[i..][1..] == routes[i + 1..];
        ThenAssoc(Run(calls, Exhausted), Step(route, path, pct), Dispatch(routes[i + 1..], path, pct));
        var found := Report(route, path);
        if found.Some? {
          var decoded := DecodeAll(found.value, pct);
          if decoded.Failure? {
            assert calls + [] == calls;
            return Run(calls, Threw(decoded.error));
          }
          calls := calls + [Call(route.callback, decoded.value)];
          if route.last {
            return Run(calls, Stopped);
          }
        } else {
          assert calls + [] == calls;
        }
        i := i + 1;
      }
      assert routes[i..] == [];
      assert calls + [] == calls;
      return Run(calls, Exhausted);
    }
  }
}
