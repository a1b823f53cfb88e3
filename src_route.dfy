/**
 * A route of the server (`src` variant): the pattern its declaration is
 * rewritten to, which is looked for anywhere in a request route, and the
 * handlers of the HTTP methods the route answers.
 */
module SrcRoute {
  import opened Wrappers
  import opened Pattern
  import opened Payload

  /** The `ResponseException(405, 'invalid method')` that `invoke` throws. */
  const InvalidMethod: Throwable :=
    Throwable(ResponseException, 405, "invalid method", "src/Hashbang/Route.php", 67, None)

  /** The `InvalidArgumentException` that `offsetSet` throws. */
  const NotCallableError: Throwable :=
    Throwable(InvalidArgumentException, 0, "", "src/Hashbang/Route.php", 103, None)

  /** Every reported parameter is a run of class characters, or `""` for an optional group left out before a set one. */
  predicate ParamsInClass(params: seq<string>) {
    forall k :: 0 <= k < |params| ==> params[k] == "" || (IsCapture(Pcre, params[k]) && '/' !in params[k])
  }

  class Route {
    /** The text of the PCRE pattern, delimiters included and no anchors. */
    const regex: string
    /** The element sequence that text denotes. */
    const pattern: seq<Elem>
    /** The handler of each HTTP method. */
    var methods: map<string, Handler>

    /** The constructor: both rewrites, in order, and no handlers yet. */
    constructor(route: string)
      ensures regex == "`" + Rewrite(route, Pcre) + "`"
      ensures pattern == Compile(route) && Render(pattern, CaptureText(Pcre)) == Rewrite(route, Pcre)
      ensures Delimiter in Rewrite(route, Pcre) <==> HoldsDelimiter(pattern)
      ensures methods == map[]
    {
      CompileRendersRewrite(route, Pcre);
      DelimiterInDeclaration(route, Pcre);
      regex := "`" + Rewrite(route, Pcre) + "`";
      pattern := Compile(route);
      methods := map[];
    }

    /**
     * `preg_match`: when the pattern occurs in `path`, the groups of the
     * leftmost match as PHP reports them (the whole match shifted off);
     * `None` when it does not occur. A delimiter inside the pattern text
     * ends the pattern early and leaves the rest as unknown modifiers, so
     * `preg_match` fails whatever the path.
     */
    function PregMatch(path: string): (r: Option<seq<string>>)
      ensures r.Some? <==> !HoldsDelimiter(pattern) && Search(pattern, Pcre, path).Some?
      ensures r.Some? ==> |r.value| <= ParamCount(pattern) && ParamsInClass(r.value)
    {
      if HoldsDelimiter(pattern) then None else
      match Search(pattern, Pcre, path)
      case None => None
      case Some(found) =>
        var caps := found.1.captures;
        SearchCharacterized(pattern, Pcre, path, 0, 0, []);
        AcceptedCaptures(pattern, Pcre, caps, path[found.0..found.1.end]);
        Some(PhpParams(caps))
    }

    /** `invoke`: the handler of `verb` called with `params`, or the 405 exception when there is none. */
    function Invoke(verb: string, params: seq<Value>): (r: Invocation)
      reads this
      ensures r.Invoked? <==> verb in methods
      ensures r.Invoked? ==> r.h == methods[verb] && r.args == params
      ensures r.Throws? ==> r.e == InvalidMethod && r.e.code == 405
    {
      if verb in methods then Invoked(methods[verb], params) else Throws(InvalidMethod)
    }

    /** `offsetExists`: whether `verb` has a handler. */
    function OffsetExists(verb: string): (r: bool)
      reads this
      ensures r <==> verb in methods
    {
      verb in methods
    }

    /** `offsetGet`: the handler of `verb`, or `null`. */
    function OffsetGet(verb: string): (r: Option<Handler>)
      reads this
      ensures r.Some? <==> verb in methods
      ensures r.Some? ==> r.value == methods[verb]
    {
      if verb in methods then Some(methods[verb]) else None
    }

    /** `offsetSet`: a callable becomes the handler of `verb`, replacing any; anything else is refused. */
    method OffsetSet(verb: string, callback: Callee) returns (thrown: Option<Throwable>)
      modifies this
      ensures callback.NotCallable? ==> thrown == Some(NotCallableError) && methods == old(methods)
      ensures callback.Callable? ==> thrown == None && methods == old(methods)[verb := callback.h]
    {
      if callback.NotCallable? {
        return Some(NotCallableError);
      }
      methods := methods[verb := callback.h];
      thrown := None;
    }

    /** `offsetUnset`: `verb` loses its handler; the others keep theirs. */
    method OffsetUnset(verb: string)
      modifies this
      ensures methods == old(methods) - {verb}
    {
      methods := methods - {verb};
    }
  }

  /** `preg_match` reports exactly the leftmost piece of the path the pattern accepts, with its groups. */
  lemma PregMatchSound(r: Route, path: string) returns (b: nat, e: nat, caps: seq<Option<string>>)
    requires r.PregMatch(path).Some?
    ensures b <= e <= |path| && Accepts(r.pattern, Pcre, caps, path[b..e])
    ensures r.PregMatch(path).value == PhpParams(caps)
    ensures forall b': nat, e': nat, caps' :: b' < b && b' <= e' <= |path| ==> !Accepts(r.pattern, Pcre, caps', path[b'..e'])
  {
    var found := Search(r.pattern, Pcre, path).value;
    b, e, caps := found.0, found.1.end, found.1.captures;
    SearchCharacterized(r.pattern, Pcre, path, 0, 0, []);
    forall b': nat, e': nat, caps' | b' < b && b' <= e' <= |path|
      ensures !Accepts(r.pattern, Pcre, caps', path[b'..e'])
    {
      SearchLeftmost(r.pattern, Pcre, path, b', e', caps');
    }
  }

  /** Wherever in the path the pattern accepts a piece, `preg_match` succeeds, unless the pattern text holds the delimiter. */
  lemma PregMatchComplete(r: Route, path: string, b: nat, e: nat, caps: seq<Option<string>>)
    requires b <= e <= |path| && Accepts(r.pattern, Pcre, caps, path[b..e])
    ensures r.PregMatch(path).Some? <==> !HoldsDelimiter(r.pattern)
  {
    SearchCharacterized(r.pattern, Pcre, path, b, e, caps);
  }

  /** A route declared with a backtick never matches: its pattern text is not a valid delimited pattern. */
  lemma DelimiterNeverMatches(r: Route, decl: string, path: string)
    requires r.pattern == Compile(decl) && Delimiter in decl
    ensures r.PregMatch(path).None?
  {
    DelimiterInDeclaration(decl, Pcre);
  }

  /** The route `/users` is not anchored: it matches `/admin/users/1`, with no parameters. */
  lemma UnanchoredExample(r: Route, decl: string, path: string)
    requires r.pattern == Compile(decl) && decl == "/users" && path == "/admin/users/1"
    ensures r.PregMatch(path) == Some([])
  {
    UsersPattern(decl);
    UsersOccurs(decl, path);
    UsersUndelimited(decl);
    PregMatchComplete(r, path, 6, 12, []);
    var b, e, caps := PregMatchSound(r, path);
    AcceptedCaptures(r.pattern, Pcre, caps, path[b..e]);
    assert caps == [];
  }

  lemma UsersUndelimited(u: string)
    requires u == "/users"
    ensures !HoldsDelimiter(Compile(u))
  {
    assert Delimiter !in u by {
      assert forall i :: 0 <= i < |u| ==> u[i] in "/users";
    }
    CompileKeepsPlain(u, Delimiter);
    HoldsDelimiterIsMembership(Compile(u));
  }

  lemma UsersPattern(u: string)
    requires u == "/users"
    ensures Compile(u) == Lits(u) && ParamCount(Lits(u)) == 0
  {
    assert ':' !in u && '(' !in u;
    CompileLiterals(u, []);
    assert u + [] == u;
    assert Lits(u) + [] == Lits(u);
    ParamCountLits(u);
  }

  lemma UsersOccurs(u: string, path: string)
    requires u == "/users" && path == "/admin/users/1"
    ensures 6 <= 12 <= |path| && Accepts(Lits(u), Pcre, [], path[6..12])
  {
    assert path[6..12] == u;
    assert '.' !in u;
    AcceptsLits(u, [], Pcre, [], u);
    assert Lits(u) + [] == Lits(u);
    assert u[|u|..] == [];
  }
}
