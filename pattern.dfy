/**
 * Route declarations such as `/users/:id(/:page)?`: the two regular-expression
 * rewrites every router variant applies to them, the element sequence those
 * rewrites denote, and the matching of that pattern against a path by a
 * backtracking regular-expression engine (JavaScript's RegExp or PCRE).
 */
module Pattern {
  import opened Wrappers

  /** The engine a pattern is handed to: RegExp in the hash router, PCRE in the PHP routers. */
  datatype Dialect = Js | Pcre

  /** One element of a compiled declaration. */
  datatype Elem =
    | Lit(c: char)   // a character of the declaration, copied into the pattern as it is
    | Param          // `:name`, which becomes one capturing group `([C]+)`
    | OptParam       // `(/:name)?`, which becomes `(?:/([C]+))?`

  predicate IsLower(c: char) { 'a' <= c <= 'z' }

  predicate IsAlnum(c: char) { 'a' <= c <= 'z' || 'A' <= c <= 'Z' || '0' <= c <= '9' }

  /** The character class C of a capture: the pchar set of RFC 3986 section 3.3 for RegExp, `[a-zA-Z0-9\-._]` for PCRE. */
  predicate InClass(d: Dialect, c: char) {
    IsAlnum(c) || c == '-' || c == '.' || c == '_' ||
    (d == Js && c in "~!$&'()*,;=:@+%")
  }

  /** The characters a `.` in a pattern does not match. */
  predicate LineTerminator(d: Dialect, c: char) {
    c == '\n' || (d == Js && (c == '\r' || c as int == 0x2028 || c as int == 0x2029))
  }

  /** A literal of the declaration against one character of the path: `.` is the wildcard. */
  predicate LitMatches(d: Dialect, lit: char, c: char) {
    if lit == '.' then !LineTerminator(d, c) else c == lit
  }

  // ---------------------------------------------------------------------------
  // The textual rewrites
  // ---------------------------------------------------------------------------

  /** Length of the longest run of lower-case letters that starts `s` (what `[a-z]+` consumes). */
  function LowerRun(s: string): (n: nat)
    ensures n <= |s|
    ensures forall k :: 0 <= k < n ==> IsLower(s[k])
    ensures n < |s| ==> !IsLower(s[n])
  {
    if s != [] && IsLower(s[0]) then 1 + LowerRun(s[1..]) else 0
  }

  /** Length of the `(/:name)?` at the start of `s`, or 0 when `s` does not start with one. */
  function OptLength(s: string): (k: nat)
    ensures k <= |s|
    ensures k > 0 ==> 6 <= k && s[..3] == "(/:" && s[k - 2..k] == ")?"
  {
    if 3 <= |s| && s[0] == '(' && s[1] == '/' && s[2] == ':' then
      var n := LowerRun(s[3..]);
      if 1 <= n && n + 5 <= |s| && s[n + 3] == ')' && s[n + 4] == '?' then n + 5 else 0
    else 0
  }

  /** Length of the `:name` at the start of `s`, or 0 when `s` does not start with one. */
  function ParamLength(s: string): (k: nat)
    ensures k <= |s|
    ensures k > 0 ==> 2 <= k && s[0] == ':'
  {
    if 1 <= |s| && s[0] == ':' then
      var n := LowerRun(s[1..]);
      if 1 <= n then n + 1 else 0
    else 0
  }

  /** First pass, a global replace of `\((\/:[a-z]+)\)\?` by `(?:$1)?`. */
  function RewriteOptional(s: string): string
    decreases |s|
  {
    if s == [] then []
    else
      var k := OptLength(s);
      if k > 0 then "(?:" + s[1..k - 2] + ")?" + RewriteOptional(s[k..])
      else [s[0]] + RewriteOptional(s[1..])
  }

  /** Second pass, a global replace of `:[a-z]+` by the capture text `cap`. */
  function RewriteParams(s: string, cap: string): string
    decreases |s|
  {
    if s == [] then []
    else
      var k := ParamLength(s);
      if k > 0 then cap + RewriteParams(s[k..], cap)
      else [s[0]] + RewriteParams(s[1..], cap)
  }

  /** The capturing group each `:name` becomes. */
  function CaptureText(d: Dialect): string {
    match d
    case Js => "([a-zA-Z0-9\\-._~!$&'()*,;=:@+%]+)"
    case Pcre => "([a-zA-Z0-9\\-._]+)"
  }

  /** The pattern text of a declaration: both passes, in that order. */
  function Rewrite(decl: string, d: Dialect): string {
    RewriteParams(RewriteOptional(decl), CaptureText(d))
  }

  // ---------------------------------------------------------------------------
  // The element sequence
  // ---------------------------------------------------------------------------

  /** A declaration read as elements, left to right, with `(/:name)?` taking precedence over `:name`. */
  function Compile(s: string): seq<Elem>
    decreases |s|
  {
    if s == [] then []
    else if OptLength(s) > 0 then [OptParam] + Compile(s[OptLength(s)..])
    else if ParamLength(s) > 0 then [Param] + Compile(s[ParamLength(s)..])
    else [Lit(s[0])] + Compile(s[1..])
  }

  /** The regular-expression text of an element sequence. */
  function Render(p: seq<Elem>, cap: string): string
    decreases |p|
  {
    if p == [] then []
    else
      var head := match p[0]
        case Lit(c) => [c]
        case Param => cap
        case OptParam => "(?:/" + cap + ")?";
      head + Render(p[1..], cap)
  }

  lemma {:induction false} RewriteParamsPlain(u: string, x: string, cap: string)
    requires ':' !in u
    ensures RewriteParams(u + x, cap) == u + RewriteParams(x, cap)
    decreases |u|
  {
    if u == [] {
      assert u + x == x;
    } else {
      var s := u + x;
      assert s[0] == u[0] && s[0] != ':';
      assert ParamLength(s) == 0;
      assert s[1..] == u[1..] + x;
      assert RewriteParams(s, cap) == [u[0]] + RewriteParams(u[1..] + x, cap);
      RewriteParamsPlain(u[1..], x, cap);
      HeadTail(u, RewriteParams(x, cap));
    }
  }

  /** Putting the head of `n` back in front of its tail. */
  lemma HeadTail(n: string, y: string)
    requires n != []
    ensures [n[0]] + (n[1..] + y) == n + y
  {
    assert n == [n[0]] + n[1..];
  }

  lemma RewriteParamsColon(x: string, cap: string)
    requires x == [] || !IsLower(x[0])
    ensures RewriteParams([':'] + x, cap) == [':'] + RewriteParams(x, cap)
  {
    assert ([':'] + x)[1..] == x;
    assert LowerRun(x) == 0;
  }

  lemma {:induction false} LowerRunOf(n: string, x: string)
    requires forall k :: 0 <= k < |n| ==> IsLower(n[k])
    requires x == [] || !IsLower(x[0])
    ensures LowerRun(n + x) == |n|
    decreases |n|
  {
    if n != [] {
      assert (n + x)[1..] == n[1..] + x;
      LowerRunOf(n[1..], x);
    } else {
      assert n + x == x;
    }
  }

  lemma RewriteParamsName(n: string, x: string, cap: string)
    requires 1 <= |n| && forall k :: 0 <= k < |n| ==> IsLower(n[k])
    requires x == [] || !IsLower(x[0])
    ensures RewriteParams([':'] + n + x, cap) == cap + RewriteParams(x, cap)
  {
    var s := [':'] + n + x;
    assert s[1..] == n + x;
    LowerRunOf(n, x);
    assert ParamLength(s) == |n| + 1;
    assert s[|n| + 1..] == x;
  }

  lemma {:induction false} RewriteOptionalName(n: string, x: string)
    requires forall k :: 0 <= k < |n| ==> IsLower(n[k])
    ensures RewriteOptional(n + x) == n + RewriteOptional(x)
    decreases |n|
  {
    if n == [] {
      assert n + x == x;
    } else {
      var s := n + x;
      assert s[0] == n[0] && IsLower(n[0]);
      assert OptLength(s) == 0;
      assert s[1..] == n[1..] + x;
      assert RewriteOptional(s) == [n[0]] + RewriteOptional(n[1..] + x);
      RewriteOptionalName(n[1..], x);
      HeadTail(n, RewriteOptional(x));
    }
  }

  lemma RewriteOptionalHead(x: string)
    ensures x == [] ==> RewriteOptional(x) == []
    ensures x != [] ==>
      (RewriteOptional(x) != [] && RewriteOptional(x)[0] == (if OptLength(x) > 0 then '(' else x[0]))
  {
  }

  /** The name inside the `(/:name)?` that starts `decl`. */
  lemma OptGroupName(decl: string) returns (n: string)
    requires OptLength(decl) > 0
    ensures 1 <= |n| && forall k :: 0 <= k < |n| ==> IsLower(n[k])
    ensures decl[1..OptLength(decl) - 2] == "/:" + n
  {
    var ko := OptLength(decl);
    n := decl[3..ko - 2];
    var t := decl[3..];
    assert LowerRun(t) == ko - 5;
    forall k | 0 <= k < |n| ensures IsLower(n[k]) {
      assert n[k] == t[k];
    }
    assert decl[1..ko - 2] == decl[1..3] + n;
  }

  lemma RegroupOpt(n: string, x: string)
    ensures "(?:" + ("/:" + n) + ")?" + x == "(?" + ([':'] + ("/" + ([':'] + n + (")?" + x))))
  {
  }

  /** The first pass on a `(/:name)?` group, spelled character by character. */
  lemma RewriteOptionalGroup(decl: string) returns (n: string)
    requires OptLength(decl) > 0
    ensures 1 <= |n| && forall k :: 0 <= k < |n| ==> IsLower(n[k])
    ensures RewriteOptional(decl) ==
      "(?" + ([':'] + ("/" + ([':'] + n + (")?" + RewriteOptional(decl[OptLength(decl)..])))))
  {
    var ko := OptLength(decl);
    var x := RewriteOptional(decl[ko..]);
    n := OptGroupName(decl);
    assert RewriteOptional(decl) == "(?:" + decl[1..ko - 2] + ")?" + x;
    RegroupOpt(n, x);
  }

  lemma RewriteOptGroup(decl: string, cap: string)
    requires OptLength(decl) > 0
    ensures RewriteParams(RewriteOptional(decl), cap) ==
      ("(?:/" + cap + ")?") + RewriteParams(RewriteOptional(decl[OptLength(decl)..]), cap)
  {
    var n := RewriteOptionalGroup(decl);
    OptGroupParams(n, RewriteOptional(decl[OptLength(decl)..]), cap);
  }

  /** The second pass over the text the first pass made of a `(/:name)?` group. */
  lemma OptGroupParams(n: string, x: string, cap: string)
    requires 1 <= |n| && forall k :: 0 <= k < |n| ==> IsLower(n[k])
    ensures RewriteParams("(?" + ([':'] + ("/" + ([':'] + n + (")?" + x)))), cap) ==
      ("(?:/" + cap + ")?") + RewriteParams(x, cap)
  {
    var rx := RewriteParams(x, cap);
    var y := [':'] + n + (")?" + x);
    NameThenClose(n, x, cap);
    SlashColonPlain(y, cap, cap + (")?" + rx));
    OpenPlain([':'] + ("/" + y), cap, [':'] + ("/" + (cap + (")?" + rx))));
    OptGroupText(cap, rx);
  }

  lemma NameThenClose(n: string, x: string, cap: string)
    requires 1 <= |n| && forall k :: 0 <= k < |n| ==> IsLower(n[k])
    ensures RewriteParams([':'] + n + (")?" + x), cap) == cap + (")?" + RewriteParams(x, cap))
  {
    RewriteParamsPlain(")?", x, cap);
    RewriteParamsName(n, ")?" + x, cap);
  }

  lemma SlashColonPlain(y: string, cap: string, ry: string)
    requires RewriteParams(y, cap) == ry
    ensures RewriteParams([':'] + ("/" + y), cap) == [':'] + ("/" + ry)
  {
    RewriteParamsPlain("/", y, cap);
    RewriteParamsColon("/" + y, cap);
  }

  lemma OpenPlain(z: string, cap: string, rz: string)
    requires RewriteParams(z, cap) == rz
    ensures RewriteParams("(?" + z, cap) == "(?" + rz
  {
    RewriteParamsPlain("(?", z, cap);
  }

  lemma OptGroupText(cap: string, rx: string)
    ensures "(?" + ([':'] + ("/" + (cap + (")?" + rx)))) == ("(?:/" + cap + ")?") + rx
  {
    Assoc("(?", [':'], "/", cap, ")?" + rx);
    assert "(?" + [':'] + "/" == "(?:/";
  }

  lemma Assoc(a: string, b: string, c: string, d: string, e: string)
    ensures a + (b + (c + (d + e))) == a + b + c + d + e
  {
  }

  lemma RewriteParamGroup(decl: string, cap: string)
    requires OptLength(decl) == 0 && ParamLength(decl) > 0
    ensures RewriteParams(RewriteOptional(decl), cap) ==
      cap + RewriteParams(RewriteOptional(decl[ParamLength(decl)..]), cap)
  {
    var kp := ParamLength(decl);
    var r := decl[kp..];
    var n := ParamName(decl);
    assert RewriteOptional(decl) == [':'] + n + RewriteOptional(r) by {
      assert RewriteOptional(decl) == [':'] + RewriteOptional(decl[1..]);
      RewriteOptionalName(n, r);
      assert [':'] + (n + RewriteOptional(r)) == [':'] + n + RewriteOptional(r);
    }
    RewriteOptionalHead(r);
    RewriteParamsName(n, RewriteOptional(r), cap);
  }

  /** The name of the `:name` that starts `decl`, and what follows it. */
  lemma ParamName(decl: string) returns (n: string)
    requires ParamLength(decl) > 0
    ensures 1 <= |n| && forall k :: 0 <= k < |n| ==> IsLower(n[k])
    ensures decl[1..] == n + decl[ParamLength(decl)..]
    ensures decl[ParamLength(decl)..] == [] || !IsLower(decl[ParamLength(decl)..][0])
  {
    var kp := ParamLength(decl);
    var t := decl[1..];
    n := decl[1..kp];
    assert LowerRun(t) == kp - 1;
    forall k | 0 <= k < |n| ensures IsLower(n[k]) {
      assert n[k] == t[k];
    }
    assert t == n + decl[kp..];
    if kp < |decl| {
      assert decl[kp..][0] == t[kp - 1];
    }
  }

  lemma RewriteLiteral(decl: string, cap: string)
    requires decl != [] && OptLength(decl) == 0 && ParamLength(decl) == 0
    ensures RewriteParams(RewriteOptional(decl), cap) == [decl[0]] + RewriteParams(RewriteOptional(decl[1..]), cap)
  {
    var r := decl[1..];
    assert RewriteOptional(decl) == [decl[0]] + RewriteOptional(r);
    if decl[0] == ':' {
      assert LowerRun(r) == 0;
      RewriteOptionalHead(r);
      RewriteParamsColon(RewriteOptional(r), cap);
    } else {
      RewriteParamsPlain([decl[0]], RewriteOptional(r), cap);
    }
  }

  /** The element sequence denotes exactly the text the source builds: rendering `Compile(decl)` gives `Rewrite(decl, d)`. */
  lemma {:induction false} CompileRendersRewrite(decl: string, d: Dialect)
    ensures Render(Compile(decl), CaptureText(d)) == Rewrite(decl, d)
    decreases |decl|
  {
    var cap := CaptureText(d);
    if decl == [] {
      return;
    }
    var p := Compile(decl);
    if OptLength(decl) > 0 {
      CompileRendersRewrite(decl[OptLength(decl)..], d);
      RewriteOptGroup(decl, cap);
      assert p[1..] == Compile(decl[OptLength(decl)..]);
    } else if ParamLength(decl) > 0 {
      CompileRendersRewrite(decl[ParamLength(decl)..], d);
      RewriteParamGroup(decl, cap);
      assert p[1..] == Compile(decl[ParamLength(decl)..]);
    } else {
      CompileRendersRewrite(decl[1..], d);
      RewriteLiteral(decl, cap);
      assert p[1..] == Compile(decl[1..]);
    }
  }

  /** A character no rewrite produces and no group consumes: it reaches the pattern only as itself. */
  predicate Plain(c: char) {
    !IsLower(c) && c != '(' && c != '/' && c != ':' && c != ')' && c != '?'
  }

  /** The delimiter the PHP routes wrap their pattern text in. */
  const Delimiter: char := '`'

  /** The elements hold the delimiter as a literal, so the pattern text between the delimiters holds it too. */
  predicate HoldsDelimiter(p: seq<Elem>) {
    |p| > 0 && (p[0] == Lit(Delimiter) || HoldsDelimiter(p[1..]))
  }

  /** `HoldsDelimiter` is membership of the delimiter literal. */
  lemma {:induction false} HoldsDelimiterIsMembership(p: seq<Elem>)
    ensures HoldsDelimiter(p) <==> Lit(Delimiter) in p
    decreases |p|
  {
    if p != [] {
      HoldsDelimiterIsMembership(p[1..]);
      assert p == [p[0]] + p[1..];
    }
  }

  /** When the first `k` characters of `s` are not `c`, `c` occurs in `s` iff it occurs after them. */
  lemma InTail(s: string, k: nat, c: char)
    requires k <= |s| && forall i :: 0 <= i < k ==> s[i] != c
    ensures c in s <==> c in s[k..]
  {
    if c in s {
      var i :| 0 <= i < |s| && s[i] == c;
      assert s[k..][i - k] == c;
    }
  }

  /** A plain character is a literal of the compiled declaration exactly when the declaration holds it. */
  lemma {:induction false} CompileKeepsPlain(decl: string, c: char)
    requires Plain(c)
    ensures Lit(c) in Compile(decl) <==> c in decl
    decreases |decl|
  {
    if decl == [] {
      return;
    }
    var p := Compile(decl);
    var k := OptLength(decl);
    if k > 0 {
      var run := decl[3..];
      assert k == LowerRun(run) + 5;
      forall i | 0 <= i < k ensures decl[i] != c {
        if 3 <= i < k - 2 {
          assert decl[i] == run[i - 3] && IsLower(run[i - 3]);
        } else if i < 3 {
          assert decl[i] == decl[..3][i];
        } else {
          assert decl[i] == decl[k - 2..k][i - (k - 2)];
        }
      }
      InTail(decl, k, c);
      CompileKeepsPlain(decl[k..], c);
      assert p == [OptParam] + Compile(decl[k..]);
    } else if ParamLength(decl) > 0 {
      var m := ParamLength(decl);
      var run := decl[1..];
      assert m == LowerRun(run) + 1;
      forall i | 0 <= i < m ensures decl[i] != c {
        if i > 0 {
          assert decl[i] == run[i - 1] && IsLower(run[i - 1]);
        }
      }
      InTail(decl, m, c);
      CompileKeepsPlain(decl[m..], c);
      assert p == [Param] + Compile(decl[m..]);
    } else {
      InTail(decl, 0, c);
      CompileKeepsPlain(decl[1..], c);
      assert p == [Lit(decl[0])] + Compile(decl[1..]);
      assert decl == [decl[0]] + decl[1..];
    }
  }

  /** A plain character outside the capture text is in the rendered text exactly when it is a literal. */
  lemma {:induction false} RenderKeepsPlain(p: seq<Elem>, cap: string, c: char)
    requires Plain(c) && c !in cap
    ensures c in Render(p, cap) <==> Lit(c) in p
    decreases |p|
  {
    if p == [] {
      return;
    }
    RenderKeepsPlain(p[1..], cap, c);
    var head := match p[0]
      case Lit(x) => [x]
      case Param => cap
      case OptParam => "(?:/" + cap + ")?";
    assert Render(p, cap) == head + Render(p[1..], cap);
    assert c in head <==> p[0] == Lit(c);
    assert p == [p[0]] + p[1..];
  }

  /** Neither capture group holds the PHP delimiter. */
  lemma CaptureUndelimited(d: Dialect)
    ensures Delimiter !in CaptureText(d)
  {
    var t := CaptureText(d);
    forall i | 0 <= i < |t| ensures t[i] != Delimiter {
      assert t[i] in "([a-zA-Z0-9\\-._~!$&'()*,;=:@+%]+)";
    }
  }

  /**
   * A declaration holds the PHP delimiter exactly when its elements hold it as
   * a literal, and exactly when the pattern text between the delimiters does.
   */
  lemma DelimiterInDeclaration(decl: string, d: Dialect)
    ensures Delimiter in decl <==> HoldsDelimiter(Compile(decl))
    ensures Delimiter in decl <==> Delimiter in Rewrite(decl, d)
  {
    CompileKeepsPlain(decl, Delimiter);
    HoldsDelimiterIsMembership(Compile(decl));
    CaptureUndelimited(d);
    RenderKeepsPlain(Compile(decl), CaptureText(d), Delimiter);
    CompileRendersRewrite(decl, d);
  }

  // ---------------------------------------------------------------------------
  // What a pattern accepts
  // ---------------------------------------------------------------------------

  /** A possible value of a capture: one or more characters of the class. */
  predicate IsCapture(d: Dialect, v: string) {
    |v| > 0 && forall k :: 0 <= k < |v| ==> InClass(d, v[k])
  }

  /**
   * The declarative reading of a pattern: `p` spells exactly `t` when its
   * groups take the values `caps`, left to right (`None` for an optional group
   * that is left out).
   */
  predicate Accepts(p: seq<Elem>, d: Dialect, caps: seq<Option<string>>, t: string)
    decreases |p|
  {
    if p == [] then caps == [] && t == []
    else match p[0]
      case Lit(c) =>
        |t| > 0 && LitMatches(d, c, t[0]) && Accepts(p[1..], d, caps, t[1..])
      case Param =>
        |caps| > 0 && caps[0].Some? && IsCapture(d, caps[0].value) &&
        caps[0].value <= t && Accepts(p[1..], d, caps[1..], t[|caps[0].value|..])
      case OptParam =>
        |caps| > 0 &&
        if caps[0].None? then Accepts(p[1..], d, caps[1..], t)
        else
          IsCapture(d, caps[0].value) && ['/'] + caps[0].value <= t &&
          Accepts(p[1..], d, caps[1..], t[|caps[0].value| + 1..])
  }

  /** How many groups a pattern has. */
  function ParamCount(p: seq<Elem>): nat
    decreases |p|
  {
    if p == [] then 0 else (if p[0].Lit? then 0 else 1) + ParamCount(p[1..])
  }

  /** Every accepted capture is one or more characters of the class, so none spans a `/`. */
  lemma {:induction false} AcceptedCaptures(p: seq<Elem>, d: Dialect, caps: seq<Option<string>>, t: string)
    requires Accepts(p, d, caps, t)
    ensures |caps| == ParamCount(p)
    ensures forall k :: 0 <= k < |caps| && caps[k].Some? ==>
      IsCapture(d, caps[k].value) && '/' !in caps[k].value
    decreases |p|
  {
    if p != [] {
      match p[0]
      case Lit(c) =>
        AcceptedCaptures(p[1..], d, caps, t[1..]);
      case Param =>
        AcceptedCaptures(p[1..], d, caps[1..], t[|caps[0].value|..]);
        assert forall k :: 0 < k < |caps| ==> caps[k] == caps[1..][k - 1];
      case OptParam =>
        if caps[0].None? {
          AcceptedCaptures(p[1..], d, caps[1..], t);
        } else {
          AcceptedCaptures(p[1..], d, caps[1..], t[|caps[0].value| + 1..]);
        }
        assert forall k :: 0 < k < |caps| ==> caps[k] == caps[1..][k - 1];
    }
  }

  // ---------------------------------------------------------------------------
  // The backtracking engine
  // ---------------------------------------------------------------------------

  /** End of the matched text and the groups' values, left to right. */
  datatype Match = Match(end: nat, captures: seq<Option<string>>)

  /** Where `$` holds: at the end, or (an assertion of both engines) just before a final newline. */
  predicate AtEnd(d: Dialect, s: string, i: nat) {
    i == |s| || (d == Pcre && i + 1 == |s| && s[i] == '\n')
  }

  /** Length of the longest run of class characters from position `i` (what `[C]+` consumes first). */
  function ClassRun(d: Dialect, s: string, i: nat): (n: nat)
    requires i <= |s|
    ensures i + n <= |s|
    ensures forall k :: i <= k < i + n ==> InClass(d, s[k])
    ensures i + n < |s| ==> !InClass(d, s[i + n])
    decreases |s| - i
  {
    if i < |s| && InClass(d, s[i]) then 1 + ClassRun(d, s, i + 1) else 0
  }

  /**
   * The first match, in the engine's order of preference, of `p` against `s`
   * from position `i`: a greedy `[C]+` tries its longest run first and gives
   * back one character at a time; a greedy `(...)?` tries its group before
   * skipping it. With `anchored`, the match must end where `$` holds.
   */
  function MatchFrom(p: seq<Elem>, d: Dialect, anchored: bool, s: string, i: nat): Option<Match>
    requires i <= |s|
    decreases |p|, 1, 0
  {
    if p == [] then
      if !anchored || AtEnd(d, s, i) then Some(Match(i, [])) else None
    else match p[0]
      case Lit(c) =>
        if i < |s| && LitMatches(d, c, s[i]) then MatchFrom(p[1..], d, anchored, s, i + 1) else None
      case Param =>
        Greedy(p, d, anchored, s, i, ClassRun(d, s, i))
      case OptParam =>
        var taken := if i < |s| && s[i] == '/' then Greedy(p, d, anchored, s, i + 1, ClassRun(d, s, i + 1)) else None;
        if taken.Some? then taken
        else match MatchFrom(p[1..], d, anchored, s, i)
          case None => None
          case Some(m) => Some(Match(m.end, [None] + m.captures))
  }

  /** The group that heads `p` takes `s[i..i + k]`, then shorter values, until the rest of `p` matches. */
  function Greedy(p: seq<Elem>, d: Dialect, anchored: bool, s: string, i: nat, k: nat): Option<Match>
    requires p != [] && i + k <= |s|
    decreases |p|, 0, k
  {
    if k == 0 then None
    else match MatchFrom(p[1..], d, anchored, s, i + k)
      case Some(m) => Some(Match(m.end, [Some(s[i..i + k])] + m.captures))
      case None => Greedy(p, d, anchored, s, i, k - 1)
  }

  lemma AcceptsGroup(p: seq<Elem>, d: Dialect, v: string, caps: seq<Option<string>>, t: string)
    requires p != [] && p[0] == Param
    requires IsCapture(d, v) && v <= t && Accepts(p[1..], d, caps, t[|v|..])
    ensures Accepts(p, d, [Some(v)] + caps, t)
  {
    assert ([Some(v)] + caps)[1..] == caps;
  }

  lemma AcceptsOptTaken(p: seq<Elem>, d: Dialect, v: string, caps: seq<Option<string>>, t: string)
    requires p != [] && p[0] == OptParam
    requires IsCapture(d, v) && ['/'] + v <= t && Accepts(p[1..], d, caps, t[|v| + 1..])
    ensures Accepts(p, d, [Some(v)] + caps, t)
  {
    assert ([Some(v)] + caps)[1..] == caps;
  }

  lemma AcceptsOptSkipped(p: seq<Elem>, d: Dialect, caps: seq<Option<string>>, t: string)
    requires p != [] && p[0] == OptParam
    requires Accepts(p[1..], d, caps, t)
    ensures Accepts(p, d, [None] + caps, t)
  {
    assert ([None] + caps)[1..] == caps;
  }

  /** The engine only reports what the pattern accepts. */
  lemma {:induction false} MatchFromSound(p: seq<Elem>, d: Dialect, anchored: bool, s: string, i: nat)
    requires i <= |s|
    ensures var r := MatchFrom(p, d, anchored, s, i);
      r.Some? ==>
        i <= r.value.end <= |s| && Accepts(p, d, r.value.captures, s[i..r.value.end]) &&
        (anchored ==> AtEnd(d, s, r.value.end))
    decreases |p|, 2
  {
    if p != [] {
      match p[0]
      case Lit(c) => LitSound(p, d, anchored, s, i);
      case Param => ParamSound(p, d, anchored, s, i);
      case OptParam => OptSound(p, d, anchored, s, i);
    }
  }

  lemma {:induction false} LitSound(p: seq<Elem>, d: Dialect, anchored: bool, s: string, i: nat)
    requires i <= |s| && p != [] && p[0].Lit?
    ensures var r := MatchFrom(p, d, anchored, s, i);
      r.Some? ==>
        i <= r.value.end <= |s| && Accepts(p, d, r.value.captures, s[i..r.value.end]) &&
        (anchored ==> AtEnd(d, s, r.value.end))
    decreases |p|, 1
  {
    var r := MatchFrom(p, d, anchored, s, i);
    if r.Some? {
      MatchFromSound(p[1..], d, anchored, s, i + 1);
      assert s[i..r.value.end][1..] == s[i + 1..r.value.end];
    }
  }

  lemma {:induction false} ParamSound(p: seq<Elem>, d: Dialect, anchored: bool, s: string, i: nat)
    requires i <= |s| && p != [] && p[0] == Param
    ensures var r := MatchFrom(p, d, anchored, s, i);
      r.Some? ==>
        i <= r.value.end <= |s| && Accepts(p, d, r.value.captures, s[i..r.value.end]) &&
        (anchored ==> AtEnd(d, s, r.value.end))
    decreases |p|, 1
  {
    var r := MatchFrom(p, d, anchored, s, i);
    assert r == Greedy(p, d, anchored, s, i, ClassRun(d, s, i));
    var n, rest := GreedySound(p, d, anchored, s, i, ClassRun(d, s, i));
    if r.Some? {
      var e := r.value.end;
      var v := s[i..i + n];
      assert s[i..e][n..] == s[i + n..e];
      assert v <= s[i..e];
      AcceptsGroup(p, d, v, rest, s[i..e]);
    }
  }

  lemma {:induction false} OptSound(p: seq<Elem>, d: Dialect, anchored: bool, s: string, i: nat)
    requires i <= |s| && p != [] && p[0] == OptParam
    ensures var r := MatchFrom(p, d, anchored, s, i);
      r.Some? ==>
        i <= r.value.end <= |s| && Accepts(p, d, r.value.captures, s[i..r.value.end]) &&
        (anchored ==> AtEnd(d, s, r.value.end))
    decreases |p|, 1, 1
  {
    if i < |s| && s[i] == '/' && Greedy(p, d, anchored, s, i + 1, ClassRun(d, s, i + 1)).Some? {
      OptTakenUnfold(p, d, anchored, s, i);
      OptTakenSound(p, d, anchored, s, i);
    } else {
      OptSkippedSound(p, d, anchored, s, i);
    }
  }

  /** What the engine reports from `i` on, if anything, is accepted there. */
  predicate ReportsAccepted(p: seq<Elem>, d: Dialect, anchored: bool, s: string, i: nat, r: Option<Match>) {
    r.Some? ==>
      i <= r.value.end <= |s| && Accepts(p, d, r.value.captures, s[i..r.value.end]) &&
      (anchored ==> AtEnd(d, s, r.value.end))
  }

  /** The optional group, when it takes a slash and a value. */
  lemma {:induction false} OptTakenSound(p: seq<Elem>, d: Dialect, anchored: bool, s: string, i: nat)
    requires i < |s| && p != [] && p[0] == OptParam && s[i] == '/'
    ensures ReportsAccepted(p, d, anchored, s, i, Greedy(p, d, anchored, s, i + 1, ClassRun(d, s, i + 1)))
    decreases |p|, 1, 0
  {
    var k := ClassRun(d, s, i + 1);
    var n, rest := GreedySound(p, d, anchored, s, i + 1, k);
    OptTookReports(p, d, anchored, s, i, Greedy(p, d, anchored, s, i + 1, k), n, rest);
  }

  /** A slash then what the greedy group took is what the optional group accepts. */
  lemma OptTookReports(p: seq<Elem>, d: Dialect, anchored: bool, s: string, i: nat, r: Option<Match>,
                       n: nat, rest: seq<Option<string>>)
    requires i < |s| && p != [] && p[0] == OptParam && s[i] == '/'
    requires Took(p, d, anchored, s, i + 1, r, n, rest)
    ensures ReportsAccepted(p, d, anchored, s, i, r)
  {
    if r.Some? {
      OptGroupAccepts(p, d, s, i, n, rest, r.value.end);
    }
  }

  lemma OptTakenUnfold(p: seq<Elem>, d: Dialect, anchored: bool, s: string, i: nat)
    requires i < |s| && p != [] && p[0] == OptParam && s[i] == '/'
    requires Greedy(p, d, anchored, s, i + 1, ClassRun(d, s, i + 1)).Some?
    ensures MatchFrom(p, d, anchored, s, i) == Greedy(p, d, anchored, s, i + 1, ClassRun(d, s, i + 1))
  {
  }

  lemma OptGroupAccepts(p: seq<Elem>, d: Dialect, s: string, i: nat, n: nat, rest: seq<Option<string>>, e: nat)
    requires p != [] && p[0] == OptParam
    requires i < |s| && s[i] == '/' && i + 1 + n <= e <= |s|
    requires IsCapture(d, s[i + 1..i + 1 + n]) && Accepts(p[1..], d, rest, s[i + 1 + n..e])
    ensures Accepts(p, d, [Some(s[i + 1..i + 1 + n])] + rest, s[i..e])
  {
    var t := s[i..e];
    var v := s[i + 1..i + 1 + n];
    assert t[n + 1..] == s[i + 1 + n..e];
    assert |v| == n;
    forall j | 0 <= j < n + 1
      ensures (['/'] + v)[j] == t[j]
    {
      if j > 0 {
        assert (['/'] + v)[j] == v[j - 1] == s[i + j];
      }
    }
    assert ['/'] + v <= t;
    AcceptsOptTaken(p, d, v, rest, t);
  }

  /** The optional group, when it is left out. */
  lemma {:induction false} OptSkippedSound(p: seq<Elem>, d: Dialect, anchored: bool, s: string, i: nat)
    requires i <= |s| && p != [] && p[0] == OptParam
    requires !(i < |s| && s[i] == '/' && Greedy(p, d, anchored, s, i + 1, ClassRun(d, s, i + 1)).Some?)
    ensures var r := MatchFrom(p, d, anchored, s, i);
      r.Some? ==>
        i <= r.value.end <= |s| && Accepts(p, d, r.value.captures, s[i..r.value.end]) &&
        (anchored ==> AtEnd(d, s, r.value.end))
    decreases |p|, 1, 0
  {
    var m := MatchFrom(p[1..], d, anchored, s, i);
    MatchFromSound(p[1..], d, anchored, s, i);
    if m.Some? {
      var r := MatchFrom(p, d, anchored, s, i);
      assert r == Some(Match(m.value.end, [None] + m.value.captures));
      AcceptsOptSkipped(p, d, m.value.captures, s[i..m.value.end]);
    }
  }

  /**
   * What a greedy group reports, when it reports anything: it took `n` class
   * characters at `i`, and the rest of the pattern accepts what follows with
   * the groups `rest`.
   */
  predicate Took(p: seq<Elem>, d: Dialect, anchored: bool, s: string, i: nat, r: Option<Match>, n: nat, rest: seq<Option<string>>)
    requires p != []
  {
    r.Some? ==>
      1 <= n && i + n <= r.value.end <= |s| &&
      r.value.captures == [Some(s[i..i + n])] + rest &&
      IsCapture(d, s[i..i + n]) &&
      Accepts(p[1..], d, rest, s[i + n..r.value.end]) &&
      (anchored ==> AtEnd(d, s, r.value.end))
  }

  /** A greedy group that succeeds took at most `k` class characters at `i` and left the rest of the pattern a match. */
  lemma {:induction false} GreedySound(p: seq<Elem>, d: Dialect, anchored: bool, s: string, i: nat, k: nat)
    returns (n: nat, rest: seq<Option<string>>)
    requires p != [] && i + k <= |s|
    requires forall j :: i <= j < i + k ==> InClass(d, s[j])
    ensures n <= k && Took(p, d, anchored, s, i, Greedy(p, d, anchored, s, i, k), n, rest)
    decreases |p|, 0, k
  {
    n, rest := 0, [];
    if k > 0 {
      if MatchFrom(p[1..], d, anchored, s, i + k).None? {
        GreedyGivesBack(p, d, anchored, s, i, k);
        n, rest := GreedySound(p, d, anchored, s, i, k - 1);
      } else {
        GreedyTakesRun(p, d, anchored, s, i, k);
        n, rest := k, MatchFrom(p[1..], d, anchored, s, i + k).value.captures;
      }
    }
  }

  /** A greedy group whose longest try leaves the rest unmatched gives back one character. */
  lemma GreedyGivesBack(p: seq<Elem>, d: Dialect, anchored: bool, s: string, i: nat, k: nat)
    requires p != [] && 0 < k && i + k <= |s|
    requires MatchFrom(p[1..], d, anchored, s, i + k).None?
    ensures Greedy(p, d, anchored, s, i, k) == Greedy(p, d, anchored, s, i, k - 1)
  {
  }

  /** A greedy group whose longest try lets the rest match takes that whole run. */
  lemma {:induction false} GreedyTakesRun(p: seq<Elem>, d: Dialect, anchored: bool, s: string, i: nat, k: nat)
    requires p != [] && 0 < k && i + k <= |s|
    requires forall j :: i <= j < i + k ==> InClass(d, s[j])
    requires MatchFrom(p[1..], d, anchored, s, i + k).Some?
    ensures Took(p, d, anchored, s, i, Greedy(p, d, anchored, s, i, k), k, MatchFrom(p[1..], d, anchored, s, i + k).value.captures)
    decreases |p|, 0, 0
  {
    MatchFromSound(p[1..], d, anchored, s, i + k);
    RunIsCapture(d, s, i, k);
  }

  /** A nonempty run of class characters is a possible capture. */
  lemma RunIsCapture(d: Dialect, s: string, i: nat, n: nat)
    requires 1 <= n && i + n <= |s|
    requires forall j :: i <= j < i + n ==> InClass(d, s[j])
    ensures IsCapture(d, s[i..i + n])
  {
    var v := s[i..i + n];
    forall k | 0 <= k < n
      ensures InClass(d, v[k])
    {
      assert v[k] == s[i + k];
    }
  }

  lemma {:induction false} GreedyFinds(p: seq<Elem>, d: Dialect, anchored: bool, s: string, i: nat, k: nat, m: nat)
    requires p != [] && i + k <= |s| && 1 <= m <= k
    requires MatchFrom(p[1..], d, anchored, s, i + m).Some?
    ensures Greedy(p, d, anchored, s, i, k).Some?
    decreases k
  {
    if MatchFrom(p[1..], d, anchored, s, i + k).None? {
      GreedyFinds(p, d, anchored, s, i, k - 1, m);
    }
  }

  /** A capture at `i` is never longer than the run of class characters there. */
  lemma GroupFits(d: Dialect, s: string, i: nat, v: string)
    requires i + |v| <= |s| && v == s[i..i + |v|] && IsCapture(d, v)
    ensures |v| <= ClassRun(d, s, i)
  {
    forall k | i <= k < i + |v|
      ensures InClass(d, s[k])
    {
      assert s[k] == v[k - i];
    }
    ClassRunAtLeast(d, s, i, |v|);
  }

  /** Every run of class characters at `i` fits in the longest one. */
  lemma {:induction false} ClassRunAtLeast(d: Dialect, s: string, i: nat, m: nat)
    requires i + m <= |s|
    requires forall k :: i <= k < i + m ==> InClass(d, s[k])
    ensures m <= ClassRun(d, s, i)
    decreases m
  {
    if m > 0 {
      ClassRunAtLeast(d, s, i + 1, m - 1);
    }
  }

  /** The engine misses nothing the pattern accepts from `i`. */
  lemma {:induction false} MatchFromComplete(p: seq<Elem>, d: Dialect, anchored: bool, s: string, i: nat, j: nat,
                                             caps: seq<Option<string>>)
    requires i <= j <= |s|
    requires Accepts(p, d, caps, s[i..j])
    requires anchored ==> AtEnd(d, s, j)
    ensures MatchFrom(p, d, anchored, s, i).Some?
    decreases |p|, 2
  {
    if p == [] {
      assert |s[i..j]| == 0;
      return;
    }
    match p[0]
    case Lit(c) => LitComplete(p, d, anchored, s, i, j, caps);
    case Param => ParamComplete(p, d, anchored, s, i, j, caps);
    case OptParam => OptComplete(p, d, anchored, s, i, j, caps);
  }

  lemma {:induction false} LitComplete(p: seq<Elem>, d: Dialect, anchored: bool, s: string, i: nat, j: nat,
                                       caps: seq<Option<string>>)
    requires i <= j <= |s| && p != [] && p[0].Lit?
    requires Accepts(p, d, caps, s[i..j])
    requires anchored ==> AtEnd(d, s, j)
    ensures MatchFrom(p, d, anchored, s, i).Some?
    decreases |p|, 1
  {
    assert s[i..j][1..] == s[i + 1..j];
    MatchFromComplete(p[1..], d, anchored, s, i + 1, j, caps);
  }

  lemma {:induction false} ParamComplete(p: seq<Elem>, d: Dialect, anchored: bool, s: string, i: nat, j: nat,
                                         caps: seq<Option<string>>)
    requires i <= j <= |s| && p != [] && p[0] == Param
    requires Accepts(p, d, caps, s[i..j])
    requires anchored ==> AtEnd(d, s, j)
    ensures MatchFrom(p, d, anchored, s, i).Some?
    decreases |p|, 1, 1
  {
    var v := ParamText(p, d, s, i, j, caps);
    GroupFits(d, s, i, v);
    ParamTakenComplete(p, d, anchored, s, i, j, |v|, caps[1..]);
  }

  lemma {:induction false} ParamTakenComplete(p: seq<Elem>, d: Dialect, anchored: bool, s: string, i: nat, j: nat,
                                              n: nat, rest: seq<Option<string>>)
    requires p != [] && p[0] == Param
    requires i + n <= j <= |s| && 1 <= n <= ClassRun(d, s, i)
    requires Accepts(p[1..], d, rest, s[i + n..j])
    requires anchored ==> AtEnd(d, s, j)
    ensures MatchFrom(p, d, anchored, s, i).Some?
    decreases |p|, 1, 0
  {
    MatchFromComplete(p[1..], d, anchored, s, i + n, j, rest);
    GreedyFinds(p, d, anchored, s, i, ClassRun(d, s, i), n);
  }

  /** What an accepted `:name` group spells in `s`. */
  lemma ParamText(p: seq<Elem>, d: Dialect, s: string, i: nat, j: nat, caps: seq<Option<string>>)
    returns (v: string)
    requires i <= j <= |s| && p != [] && p[0] == Param
    requires Accepts(p, d, caps, s[i..j])
    ensures v == caps[0].value && IsCapture(d, v)
    ensures i + |v| <= j && v == s[i..i + |v|]
    ensures Accepts(p[1..], d, caps[1..], s[i + |v|..j])
  {
    var t := s[i..j];
    v := caps[0].value;
    assert v == t[..|v|];
    assert t[|v|..] == s[i + |v|..j];
  }

  lemma {:induction false} OptComplete(p: seq<Elem>, d: Dialect, anchored: bool, s: string, i: nat, j: nat,
                                       caps: seq<Option<string>>)
    requires i <= j <= |s| && p != [] && p[0] == OptParam
    requires Accepts(p, d, caps, s[i..j])
    requires anchored ==> AtEnd(d, s, j)
    ensures MatchFrom(p, d, anchored, s, i).Some?
    decreases |p|, 1, 2
  {
    if caps[0].None? {
      OptSkippedComplete(p, d, anchored, s, i, j, caps);
    } else {
      OptPresentComplete(p, d, anchored, s, i, j, caps);
    }
  }

  lemma {:induction false} OptSkippedComplete(p: seq<Elem>, d: Dialect, anchored: bool, s: string, i: nat, j: nat,
                                              caps: seq<Option<string>>)
    requires i <= j <= |s| && p != [] && p[0] == OptParam
    requires Accepts(p, d, caps, s[i..j]) && caps[0].None?
    requires anchored ==> AtEnd(d, s, j)
    ensures MatchFrom(p, d, anchored, s, i).Some?
    decreases |p|, 1, 1
  {
    MatchFromComplete(p[1..], d, anchored, s, i, j, caps[1..]);
    OptFallsBack(p, d, anchored, s, i);
  }

  lemma {:induction false} OptPresentComplete(p: seq<Elem>, d: Dialect, anchored: bool, s: string, i: nat, j: nat,
                                              caps: seq<Option<string>>)
    requires i <= j <= |s| && p != [] && p[0] == OptParam
    requires Accepts(p, d, caps, s[i..j]) && caps[0].Some?
    requires anchored ==> AtEnd(d, s, j)
    ensures MatchFrom(p, d, anchored, s, i).Some?
    decreases |p|, 1, 1
  {
    var v := OptTakenText(p, d, s, i, j, caps);
    GroupFits(d, s, i + 1, v);
    OptTakenComplete(p, d, anchored, s, i, j, |v|, caps[1..]);
  }

  lemma {:induction false} OptTakenComplete(p: seq<Elem>, d: Dialect, anchored: bool, s: string, i: nat, j: nat,
                                            n: nat, rest: seq<Option<string>>)
    requires p != [] && p[0] == OptParam
    requires i + 1 + n <= j <= |s| && s[i] == '/' && 1 <= n <= ClassRun(d, s, i + 1)
    requires Accepts(p[1..], d, rest, s[i + 1 + n..j])
    requires anchored ==> AtEnd(d, s, j)
    ensures MatchFrom(p, d, anchored, s, i).Some?
    decreases |p|, 1, 0
  {
    MatchFromComplete(p[1..], d, anchored, s, i + 1 + n, j, rest);
    OptTakesRun(p, d, anchored, s, i, n);
  }

  /** When the rest matches after a slash and `n` class characters, the group is taken. */
  lemma OptTakesRun(p: seq<Elem>, d: Dialect, anchored: bool, s: string, i: nat, n: nat)
    requires p != [] && p[0] == OptParam
    requires i < |s| && s[i] == '/' && 1 <= n <= ClassRun(d, s, i + 1)
    requires MatchFrom(p[1..], d, anchored, s, i + 1 + n).Some?
    ensures MatchFrom(p, d, anchored, s, i).Some?
  {
    GreedyFinds(p, d, anchored, s, i + 1, ClassRun(d, s, i + 1), n);
    OptTakes(p, d, anchored, s, i);
  }

  lemma OptFallsBack(p: seq<Elem>, d: Dialect, anchored: bool, s: string, i: nat)
    requires i <= |s| && p != [] && p[0] == OptParam
    requires MatchFrom(p[1..], d, anchored, s, i).Some?
    ensures MatchFrom(p, d, anchored, s, i).Some?
  {
  }

  lemma OptTakes(p: seq<Elem>, d: Dialect, anchored: bool, s: string, i: nat)
    requires i < |s| && p != [] && p[0] == OptParam && s[i] == '/'
    requires Greedy(p, d, anchored, s, i + 1, ClassRun(d, s, i + 1)).Some?
    ensures MatchFrom(p, d, anchored, s, i).Some?
  {
  }

  /** What an accepted `(/:name)?` group that is present spells in `s`. */
  lemma OptTakenText(p: seq<Elem>, d: Dialect, s: string, i: nat, j: nat, caps: seq<Option<string>>)
    returns (v: string)
    requires i <= j <= |s| && p != [] && p[0] == OptParam
    requires Accepts(p, d, caps, s[i..j]) && caps[0].Some?
    ensures v == caps[0].value && IsCapture(d, v)
    ensures i + 1 + |v| <= j && s[i] == '/' && v == s[i + 1..i + 1 + |v|]
    ensures Accepts(p[1..], d, caps[1..], s[i + 1 + |v|..j])
  {
    var t := s[i..j];
    v := caps[0].value;
    var w := ['/'] + v;
    assert w == t[..|w|];
    assert s[i] == '/' by {
      assert w[0] == t[0];
    }
    assert v == s[i + 1..i + 1 + |v|] by {
      assert v == w[1..];
    }
    assert t[|v| + 1..] == s[i + 1 + |v|..j];
  }

  // ---------------------------------------------------------------------------
  // Unanchored search and anchored whole-string match
  // ---------------------------------------------------------------------------

  /** The leftmost start from `start` on at which the unanchored pattern matches, with that match. */
  function SearchFrom(p: seq<Elem>, d: Dialect, s: string, start: nat): Option<(nat, Match)>
    requires start <= |s|
    decreases |s| - start
  {
    match MatchFrom(p, d, false, s, start)
    case Some(m) => Some((start, m))
    case None => if start == |s| then None else SearchFrom(p, d, s, start + 1)
  }

  /** What an unanchored pattern reports on `s` (`hash.match(pattern)`, `preg_match` without `^…$`). */
  function Search(p: seq<Elem>, d: Dialect, s: string): Option<(nat, Match)> {
    SearchFrom(p, d, s, 0)
  }

  lemma {:induction false} SearchFromFound(p: seq<Elem>, d: Dialect, s: string, start: nat)
    requires start <= |s|
    ensures var r := SearchFrom(p, d, s, start);
      r.Some? ==>
        start <= r.value.0 <= r.value.1.end <= |s| &&
        Accepts(p, d, r.value.1.captures, s[r.value.0..r.value.1.end]) &&
        forall b :: start <= b < r.value.0 ==> MatchFrom(p, d, false, s, b).None?
    decreases |s| - start
  {
    MatchFromSound(p, d, false, s, start);
    if MatchFrom(p, d, false, s, start).None? && start < |s| {
      SearchFromFound(p, d, s, start + 1);
    }
  }

  lemma {:induction false} SearchFromReaches(p: seq<Elem>, d: Dialect, s: string, start: nat, b: nat)
    requires start <= b <= |s|
    requires MatchFrom(p, d, false, s, b).Some?
    ensures SearchFrom(p, d, s, start).Some? && SearchFrom(p, d, s, start).value.0 <= b
    decreases b - start
  {
    if MatchFrom(p, d, false, s, start).None? {
      SearchFromReaches(p, d, s, start + 1, b);
    }
  }

  /**
   * An unanchored pattern matches a path exactly when it accepts some piece
   * of it: the reported match is accepted, and starts no later than any piece
   * the pattern accepts.
   */
  lemma SearchCharacterized(p: seq<Elem>, d: Dialect, s: string, b: nat, e: nat, caps: seq<Option<string>>)
    ensures var r := Search(p, d, s);
      r.Some? ==> r.value.0 <= r.value.1.end <= |s| && Accepts(p, d, r.value.1.captures, s[r.value.0..r.value.1.end])
    ensures b <= e <= |s| && Accepts(p, d, caps, s[b..e]) ==>
      Search(p, d, s).Some? && Search(p, d, s).value.0 <= b
  {
    SearchFromFound(p, d, s, 0);
    if b <= e <= |s| && Accepts(p, d, caps, s[b..e]) {
      MatchFromComplete(p, d, false, s, b, e, caps);
      SearchFromReaches(p, d, s, 0, b);
    }
  }

  /** No piece starting before the reported start is accepted: the match is the leftmost one. */
  lemma SearchLeftmost(p: seq<Elem>, d: Dialect, s: string, b: nat, e: nat, caps: seq<Option<string>>)
    requires Search(p, d, s).Some? && b < Search(p, d, s).value.0
    requires b <= e <= |s|
    ensures !Accepts(p, d, caps, s[b..e])
  {
    SearchFromFound(p, d, s, 0);
    if Accepts(p, d, caps, s[b..e]) {
      MatchFromComplete(p, d, false, s, b, e, caps);
    }
  }

  /** What an anchored pattern `^…$` reports on `s`. */
  function MatchWhole(p: seq<Elem>, d: Dialect, s: string): Option<Match> {
    MatchFrom(p, d, true, s, 0)
  }

  /**
   * An anchored pattern matches exactly the paths it accepts whole (or whole
   * but for a final newline, which PCRE's `$` lets through).
   */
  lemma MatchWholeCharacterized(p: seq<Elem>, d: Dialect, s: string, caps: seq<Option<string>>)
    ensures var r := MatchWhole(p, d, s);
      r.Some? ==> AtEnd(d, s, r.value.end) && Accepts(p, d, r.value.captures, s[..r.value.end])
    ensures Accepts(p, d, caps, s) ==> MatchWhole(p, d, s).Some?
  {
    MatchFromSound(p, d, true, s, 0);
    assert s[0..|s|] == s;
    if Accepts(p, d, caps, s) {
      MatchFromComplete(p, d, true, s, 0, |s|, caps);
    }
  }

  // ---------------------------------------------------------------------------
  // How the engines report groups
  // ---------------------------------------------------------------------------

  /** Number of leading groups up to and including the last one that is set. */
  function SetPrefix(caps: seq<Option<string>>): (n: nat)
    ensures n <= |caps|
    ensures n > 0 ==> caps[n - 1].Some?
    ensures forall k :: n <= k < |caps| ==> caps[k].None?
    decreases |caps|
  {
    if caps == [] then 0
    else if caps[|caps| - 1].Some? then |caps|
    else SetPrefix(caps[..|caps| - 1])
  }

  /** A group's value as PCRE reports it when a later group is set: `""` when it is unset. */
  function Reported(c: Option<string>): string {
    if c.Some? then c.value else ""
  }

  /** `$params` after `preg_match`: unset trailing groups are left out, unset inner groups are `""`. */
  function PhpParams(caps: seq<Option<string>>): (ps: seq<string>)
    ensures |ps| == SetPrefix(caps)
    ensures forall k :: 0 <= k < |ps| ==> ps[k] == Reported(caps[k])
  {
    seq(SetPrefix(caps), k requires 0 <= k < SetPrefix(caps) => Reported(caps[k]))
  }

  /** With every group set, PHP reports each group's value, in order. */
  lemma PhpParamsAllSet(caps: seq<Option<string>>)
    requires forall k :: 0 <= k < |caps| ==> caps[k].Some?
    ensures |PhpParams(caps)| == |caps|
    ensures forall k :: 0 <= k < |caps| ==> PhpParams(caps)[k] == caps[k].value
  {
    if caps != [] {
      assert caps[|caps| - 1].Some?;
    }
  }

  // ---------------------------------------------------------------------------
  // Declarations made of plain characters
  // ---------------------------------------------------------------------------

  /** The literal elements spelling `u`. */
  function Lits(u: string): (p: seq<Elem>)
    ensures |p| == |u| && forall k :: 0 <= k < |u| ==> p[k] == Lit(u[k])
  {
    seq(|u|, k requires 0 <= k < |u| => Lit(u[k]))
  }

  /** Characters other than `:` and `(` are copied into the pattern as literals. */
  lemma {:induction false} CompileLiterals(u: string, x: string)
    requires ':' !in u && '(' !in u
    ensures Compile(u + x) == Lits(u) + Compile(x)
    decreases |u|
  {
    if u == [] {
      assert u + x == x;
    } else {
      var s := u + x;
      assert Compile(s) == [Lit(u[0])] + Compile(u[1..] + x) by {
        assert s[0] == u[0] && u[0] in u;
        CompilePlainHead(s);
        assert s[1..] == u[1..] + x;
      }
      assert ':' !in u[1..] && '(' !in u[1..] by {
        assert forall c :: c in u[1..] ==> c in u;
      }
      CompileLiterals(u[1..], x);
      LitsCons(u, Compile(x));
    }
  }

  lemma LitsCons(u: string, y: seq<Elem>)
    requires u != []
    ensures [Lit(u[0])] + (Lits(u[1..]) + y) == Lits(u) + y
  {
    assert Lits(u) == [Lit(u[0])] + Lits(u[1..]);
  }

  lemma CompilePlainHead(s: string)
    requires s != [] && s[0] != ':' && s[0] != '('
    ensures Compile(s) == [Lit(s[0])] + Compile(s[1..])
  {
    assert OptLength(s) == 0 && ParamLength(s) == 0;
  }

  /** Literals without `.` accept exactly their own text. */
  lemma {:induction false} AcceptsLits(u: string, q: seq<Elem>, d: Dialect, caps: seq<Option<string>>, t: string)
    requires '.' !in u
    ensures Accepts(Lits(u) + q, d, caps, t) <==> u <= t && Accepts(q, d, caps, t[|u|..])
    decreases |u|
  {
    if u == [] {
      assert Lits(u) + q == q;
    } else {
      var p := Lits(u) + q;
      assert p[0] == Lit(u[0]);
      assert p[1..] == Lits(u[1..]) + q;
      assert u[0] in u;
      if |t| > 0 {
        AcceptsLits(u[1..], q, d, caps, t[1..]);
        if |u| <= |t| {
          assert t[1..][|u| - 1..] == t[|u|..];
        }
        assert u <= t <==> u[0] == t[0] && u[1..] <= t[1..];
      }
    }
  }

  /** Literals hold no group. */
  lemma {:induction false} ParamCountLits(u: string)
    ensures ParamCount(Lits(u)) == 0
    decreases |u|
  {
    if u != [] {
      assert Lits(u)[1..] == Lits(u[1..]);
      ParamCountLits(u[1..]);
    }
  }
}
