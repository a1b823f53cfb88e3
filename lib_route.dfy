/**
 * A route of the `lib` variant: it keeps its declaration as its name, its
 * pattern is anchored (`^…$`) so it must match the whole request route, and
 * its handler map starts from the one it is built with.
 */
module LibRoute {
  import opened Wrappers
  import opened Pattern
  import opened Payload

  /** The `ResponseException(405, 'invalid method')` that `invoke` throws. */
  const InvalidMethod: Throwable :=
    Throwable(ResponseException, 405, "invalid method", "lib/Hashbang/Route.php", 93, None)

  /** The `InvalidArgumentException` that `offsetSet` throws. */
  const NotCallableError: Throwable :=
    Throwable(InvalidArgumentException, 0, "", "lib/Hashbang/Route.php", 129, None)

  class Route {
    /** The declaration as given. */
    const name: string
    /** The text of the anchored PCRE pattern, delimiters included. */
    const regex: string
    /** The element sequence between the anchors. */
    const pattern: seq<Elem>
    /** The handler of each HTTP method. */
    var methods: map<string, Handler>

    /** The pattern text and the elements are both those of the declaration kept as the name. */
    predicate Valid() {
      regex == "`^" + Rewrite(name, Pcre) + "$`" && pattern == Compile(name)
    }

    /** The constructor: the name is kept, both rewrites are applied and the result anchored. */
    constructor(route: string, methods: map<string, Handler>)
      ensures Valid()
      ensures name == route && this.methods == methods
      ensures regex == "`^" + Rewrite(route, Pcre) + "$`"
      ensures pattern == Compile(route) && Render(pattern, CaptureText(Pcre)) == Rewrite(route, Pcre)
      ensures Delimiter in route <==> HoldsDelimiter(pattern)
    {
      CompileRendersRewrite(route, Pcre);
      DelimiterInDeclaration(route, Pcre);
      name := route;
      this.methods := methods;
      regex := "`^" + Rewrite(route, Pcre) + "$`";
      pattern := Compile(route);
    }

    /** `getName`: the declaration itself, not its rewritten form; it compiles to the route's pattern. */
    function GetName(): (r: string)
      requires Valid()
      ensures r == name && Compile(r) == pattern
    {
      name
    }

    /** `getPattern`: the anchored text, which renders the route's elements. */
    function GetPattern(): (r: string)
      requires Valid()
      ensures r == "`^" + Render(pattern, CaptureText(Pcre)) + "$`"
    {
      CompileRendersRewrite(name, Pcre);
      regex
    }

    /**
     * `match`: when the whole path matches (PCRE's `$` also lets a final
     * newline through), the groups as PHP reports them; `None` otherwise.
     * A delimiter inside the pattern text makes `preg_match` fail whatever
     * the path.
     */
    function Match(path: string): (r: Option<seq<string>>)
      ensures HoldsDelimiter(pattern) ==> r.None?
      ensures r.Some? <==> !HoldsDelimiter(pattern) && MatchWhole(pattern, Pcre, path).Some?
      ensures r.Some? ==> |r.value| <= ParamCount(pattern)
      ensures r.Some? ==> forall k :: 0 <= k < |r.value| ==>
        r.value[k] == "" || (IsCapture(Pcre, r.value[k]) && '/' !in r.value[k])
    {
      if HoldsDelimiter(pattern) then None else
      match MatchWhole(pattern, Pcre, path)
      case None => None
      case Some(m) =>
        MatchWholeCharacterized(pattern, Pcre, path, []);
        AcceptedCaptures(pattern, Pcre, m.captures, path[..m.end]);
        Some(PhpParams(m.captures))
    }

    /** `invoke`: the handler of `verb` called with `params`, or the 405 exception when there is none. */
    function Invoke(verb: string, params: seq<Value>): (r: Invocation)
      reads this
      ensures r.Invoked? <==> verb in methods
      ensures r.Invoked? ==> r.h == methods[verb] && r.args == params
      ensures r.Throws? ==> r.e == InvalidMethod && r.e.code == 405
    {
      if verb in methods then Invoked(methods[verb], params) else Throws(InvalidMethod)
    }

    /** `offsetExists`: whether `verb` has a handler. */
    function OffsetExists(verb: string): (r: bool)
      reads this
      ensures r <==> verb in methods
    {
      verb in methods
    }

    /** `offsetGet`: the handler of `verb`, or `null`. */
    function OffsetGet(verb: string): (r: Option<Handler>)
      reads this
      ensures r.Some? <==> verb in methods
      ensures r.Some? ==> r.value == methods[verb]
    {
      if verb in methods then Some(methods[verb]) else None
    }

    /** `offsetSet`: a callable becomes the handler of `verb`, replacing any; anything else is refused. */
    method OffsetSet(verb: string, callback: Callee) returns (thrown: Option<Throwable>)
      modifies this
      ensures callback.NotCallable? ==> thrown == Some(NotCallableError) && methods == old(methods)
      ensures callback.Callable? ==> thrown == None && methods == old(methods)[verb := callback.h]
    {
      if callback.NotCallable? {
        return Some(NotCallableError);
      }
      methods := methods[verb := callback.h];
      thrown := None;
    }

    /** `offsetUnset`: `verb` loses its handler; the others keep theirs. */
    method OffsetUnset(verb: string)
      modifies this
      ensures methods == old(methods) - {verb}
    {
      methods := methods - {verb};
    }
  }

  /**
   * An anchored route matches exactly the paths it accepts whole, and reports
   * their groups, unless its pattern text holds the delimiter.
   */
  lemma MatchAnchored(r: Route, path: string, caps: seq<Option<string>>)
    ensures Accepts(r.pattern, Pcre, caps, path) ==> (r.Match(path).Some? <==> !HoldsDelimiter(r.pattern))
    ensures r.Match(path).Some? ==>
      var m := MatchWhole(r.pattern, Pcre, path).value;
      AtEnd(Pcre, path, m.end) && Accepts(r.pattern, Pcre, m.captures, path[..m.end]) &&
      r.Match(path).value == PhpParams(m.captures)
  {
    MatchWholeCharacterized(r.pattern, Pcre, path, caps);
  }

  // ---------------------------------------------------------------------------
  // The route `/posts(/:page)?`
  // ---------------------------------------------------------------------------

  lemma CompileOptPage()
    ensures Compile("(/:page)?") == [OptParam]
  {
    var s: string := "(/:page)?";
    var n: string := "page";
    var x: string := ")?";
    assert s[3..] == n + x;
    forall k | 0 <= k < |n| ensures IsLower(n[k]) {
      assert n[k] in "aegp";
    }
    LowerRunOf(n, x);
    assert OptLength(s) == 9;
    assert s[9..] == [];
  }

  lemma CompilePosts()
    ensures Compile("/posts(/:page)?") == Lits("/posts") + [OptParam]
  {
    assert "/posts(/:page)?" == "/posts" + "(/:page)?";
    CompileLiterals("/posts", "(/:page)?");
    CompileOptPage();
  }

  /** With nothing left of the path, the optional group is left out. */
  lemma OptOnNothing(c: seq<Option<string>>)
    ensures Accepts([OptParam], Pcre, c, []) <==> c == [None]
  {
    assert [OptParam][1..] == [];
    if c != [] {
      assert c == [c[0]] + c[1..];
    }
  }

  /** On `/3` the optional group takes `3`. */
  lemma OptOnSlash3(c: seq<Option<string>>)
    ensures Accepts([OptParam], Pcre, c, "/3") <==> c == [Some("3")]
  {
    var t := "/3";
    assert [OptParam][1..] == [];
    if c == [Some("3")] {
      assert IsCapture(Pcre, "3");
      assert t[2..] == [];
      assert c[1..] == [];
    }
    if Accepts([OptParam], Pcre, c, t) {
      assert c[0].Some?;
      var v := c[0].value;
      assert Accepts([], Pcre, c[1..], t[|v| + 1..]);
      assert t[|v| + 1..] == [];
      assert |v| == 1;
      assert (['/'] + v)[1] == t[1];
      assert v == "3";
      assert c == [c[0]] + c[1..];
    }
  }

  /** Literals then an optional group, anchored, on a path that does not end in a newline. */
  lemma WholeLitsOpt(u: string, rest: string, c: seq<Option<string>>) returns (m: Match)
    requires '.' !in u && |u| > 0 && u[|u| - 1] != '\n'
    requires Accepts([OptParam], Pcre, c, rest)
    requires rest == [] || rest[|rest| - 1] != '\n'
    ensures MatchWhole(Lits(u) + [OptParam], Pcre, u + rest) == Some(m)
    ensures m.end == |u| + |rest| && Accepts([OptParam], Pcre, m.captures, rest)
  {
    var p := Lits(u) + [OptParam];
    var s := u + rest;
    assert s[|u|..] == rest;
    assert u <= s;
    AcceptsLits(u, [OptParam], Pcre, c, s);
    MatchWholeCharacterized(p, Pcre, s, c);
    m := MatchWhole(p, Pcre, s).value;
    assert s[|s| - 1] != '\n';
    assert m.end == |s|;
    assert s[..|s|] == s;
    AcceptsLits(u, [OptParam], Pcre, m.captures, s);
  }

  lemma PostsBareMatch(u: string, t: string) returns (m: Match)
    requires u == "/posts" && t == []
    ensures MatchWhole(Lits(u) + [OptParam], Pcre, u + t) == Some(m)
    ensures m == Match(6, [None])
  {
    PostsText();
    OptOnNothing([None]);
    m := WholeLitsOpt(u, t, [None]);
    OptOnNothing(m.captures);
  }

  lemma PostsBare(decl: string, path: string)
    requires decl == "/posts(/:page)?" && path == "/posts"
    ensures MatchWhole(Compile(decl), Pcre, path) == Some(Match(6, [None]))
  {
    CompilePosts();
    var e: string := [];
    assert "/posts" + e == path;
    var m := PostsBareMatch("/posts", e);
  }

  /** The literal facts about `/posts` and `/3` the two examples need. */
  lemma PostsText()
    ensures '.' !in "/posts" && |"/posts"| == 6 && "/posts"[5] != '\n'
    ensures "/3"[1] != '\n' && "/posts" + "/3" == "/posts/3"
  {
  }

  lemma PostsPageMatch(u: string, t: string) returns (m: Match)
    requires u == "/posts" && t == "/3"
    ensures MatchWhole(Lits(u) + [OptParam], Pcre, u + t) == Some(m)
    ensures m == Match(8, [Some("3")])
  {
    PostsText();
    OptOnSlash3([Some("3")]);
    m := WholeLitsOpt(u, t, [Some("3")]);
    OptOnSlash3(m.captures);
  }

  lemma PostsPage(decl: string, path: string)
    requires decl == "/posts(/:page)?" && path == "/posts/3"
    ensures MatchWhole(Compile(decl), Pcre, path) == Some(Match(8, [Some("3")]))
  {
    CompilePosts();
    PostsText();
    var m := PostsPageMatch("/posts", "/3");
  }

  /** A route declared with a backtick never matches: its pattern text is not a valid delimited pattern. */
  lemma DelimiterNeverMatches(r: Route, decl: string, path: string)
    requires r.pattern == Compile(decl) && Delimiter in decl
    ensures r.Match(path).None?
  {
    DelimiterInDeclaration(decl, Pcre);
  }

  lemma PostsUndelimited(decl: string)
    requires decl == "/posts(/:page)?"
    ensures !HoldsDelimiter(Compile(decl))
  {
    assert Delimiter !in decl by {
      assert forall i :: 0 <= i < |decl| ==> decl[i] in "/posts(:age)?";
    }
    CompileKeepsPlain(decl, Delimiter);
    HoldsDelimiterIsMembership(Compile(decl));
  }

  /** `/posts(/:page)?` matches `/posts` with no parameters. */
  lemma PostsWithoutPage(r: Route, decl: string, path: string)
    requires r.pattern == Compile(decl) && decl == "/posts(/:page)?" && path == "/posts"
    ensures r.Match(path) == Some([])
  {
    PostsUndelimited(decl);
    PostsBare(decl, path);
    var caps: seq<Option<string>> := [None];
    assert SetPrefix(caps) == 0;
  }

  /** `/posts(/:page)?` matches `/posts/3` with the one parameter `3`. */
  lemma PostsWithPage(r: Route, decl: string, path: string)
    requires r.pattern == Compile(decl) && decl == "/posts(/:page)?" && path == "/posts/3"
    ensures r.Match(path) == Some(["3"])
  {
    PostsUndelimited(decl);
    PostsPage(decl, path);
    var caps: seq<Option<string>> := [Some("3")];
    PhpParamsAllSet(caps);
    assert PhpParams(caps) == ["3"];
    assert r.Match(path) == Some(PhpParams(caps));
  }
}
