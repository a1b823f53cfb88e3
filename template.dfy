/**
 * The text a `Template` turns its markup into before handing it to the
 * `Function` constructor: whitespace runs removed, `{{ expr }}` markers
 * spliced in as arguments, `{% … %}` blocks turned into statements, and the
 * whole wrapped in a function body that collects the pieces.
 */
module Template {
  import opened Wrappers
  import Pattern

  /** What `\s` matches in a JavaScript RegExp: the white space and line terminator characters. */
  predicate IsSpace(c: char) {
    SpaceCode(c as int)
  }

  /** The code points `\s` stands for. */
  predicate SpaceCode(n: int) {
    (0x09 <= n <= 0x0D) || n == 0x20 || n == 0xA0 || n == 0x1680 || (0x2000 <= n <= 0x200A) ||
    n == 0x2028 || n == 0x2029 || n == 0x202F || n == 0x205F || n == 0x3000 || n == 0xFEFF
  }

  // ---------------------------------------------------------------------------
  // Whitespace compaction
  // ---------------------------------------------------------------------------

  /** Length of the whitespace run that starts `s`. */
  function SpaceRun(s: string): (n: nat)
    ensures n <= |s|
    ensures forall k :: 0 <= k < n ==> IsSpace(s[k])
    ensures n < |s| ==> !IsSpace(s[n])
    decreases |s|
  {
    if s != [] && IsSpace(s[0]) then 1 + SpaceRun(s[1..]) else 0
  }

  /** `replace(/\s{2,}/g, "")`: every run of two or more whitespace characters is deleted, single ones stay. */
  function Compact(s: string): string
    decreases |s|
  {
    if s == [] then []
    else if SpaceRun(s) >= 2 then Compact(s[SpaceRun(s)..])
    else [s[0]] + Compact(s[1..])
  }

  /** No two whitespace characters next to each other. */
  predicate NoDoubleSpace(s: string) {
    forall k :: 0 <= k < |s| - 1 ==> !(IsSpace(s[k]) && IsSpace(s[k + 1]))
  }

  /** The characters of `s` that are not whitespace, in order. */
  function Visible(s: string): string
    decreases |s|
  {
    if s == [] then [] else (if IsSpace(s[0]) then [] else [s[0]]) + Visible(s[1..])
  }

  lemma CompactHead(s: string)
    requires s != [] && !IsSpace(s[0])
    ensures Compact(s) != [] && Compact(s)[0] == s[0]
  {
  }

  /** Compaction leaves no two adjacent whitespace characters. */
  lemma {:induction false} CompactNoDoubleSpace(s: string)
    ensures NoDoubleSpace(Compact(s))
    decreases |s|
  {
    if s == [] {
      return;
    }
    var n := SpaceRun(s);
    if n >= 2 {
      CompactNoDoubleSpace(s[n..]);
    } else {
      var rest := s[1..];
      CompactNoDoubleSpace(rest);
      if rest != [] && IsSpace(s[0]) {
        assert !IsSpace(rest[0]) by {
          assert n == 1;
        }
        CompactHead(rest);
      }
      var r := [s[0]] + Compact(rest);
      forall k | 0 <= k < |r| - 1 ensures !(IsSpace(r[k]) && IsSpace(r[k + 1])) {
        if k > 0 {
          assert r[k] == Compact(rest)[k - 1] && r[k + 1] == Compact(rest)[k];
        }
      }
    }
  }

  /** Text without adjacent whitespace is left as it is. */
  lemma {:induction false} CompactFixed(s: string)
    requires NoDoubleSpace(s)
    ensures Compact(s) == s
    decreases |s|
  {
    if s != [] {
      assert SpaceRun(s) < 2 by {
        if |s| >= 2 {
          assert !(IsSpace(s[0]) && IsSpace(s[1]));
        }
      }
      assert NoDoubleSpace(s[1..]) by {
        forall k | 0 <= k < |s[1..]| - 1 ensures !(IsSpace(s[1..][k]) && IsSpace(s[1..][k + 1])) {
          assert s[1..][k] == s[k + 1] && s[1..][k + 1] == s[k + 2];
        }
      }
      CompactFixed(s[1..]);
    }
  }

  /** A maximal run of whitespace that starts `w + b` covers all of `w`. */
  lemma {:induction false} SpaceRunSpaces(w: string, b: string)
    requires forall k :: 0 <= k < |w| ==> IsSpace(w[k])
    requires b == [] || !IsSpace(b[0])
    ensures SpaceRun(w + b) == |w|
    decreases |w|
  {
    if w == [] {
      assert w + b == b;
    } else {
      assert (w + b)[1..] == w[1..] + b;
      SpaceRunSpaces(w[1..], b);
    }
  }

  /** The whitespace run that starts `a + b` ends inside `a` when `a` ends in a visible character. */
  lemma {:induction false} SpaceRunInside(a: string, b: string)
    requires a != [] && !IsSpace(a[|a| - 1])
    ensures SpaceRun(a + b) == SpaceRun(a) < |a|
    decreases |a|
  {
    if IsSpace(a[0]) {
      assert |a| >= 2;
      assert (a + b)[1..] == a[1..] + b;
      SpaceRunInside(a[1..], b);
    }
  }

  /** A run of two or more whitespace characters, up to the next visible character, is deleted. */
  lemma CompactRun(w: string, b: string)
    requires |w| >= 2 && forall k :: 0 <= k < |w| ==> IsSpace(w[k])
    requires b == [] || !IsSpace(b[0])
    ensures Compact(w + b) == Compact(b)
  {
    SpaceRunSpaces(w, b);
    assert (w + b)[|w|..] == b;
  }

  /** A single whitespace character, followed by a visible one or by nothing, is kept. */
  lemma CompactSingle(c: char, b: string)
    requires IsSpace(c) && (b == [] || !IsSpace(b[0]))
    ensures Compact([c] + b) == [c] + Compact(b)
  {
    SpaceRunSpaces([c], b);
    assert ([c] + b)[1..] == b;
  }

  /** Text is compacted piece by piece, cutting after any visible character. */
  lemma {:induction false} CompactAppend(a: string, b: string)
    requires a == [] || !IsSpace(a[|a| - 1])
    ensures Compact(a + b) == Compact(a) + Compact(b)
    decreases |a|, 1
  {
    if a == [] {
      assert a + b == b;
    } else {
      SpaceRunInside(a, b);
      if SpaceRun(a) >= 2 {
        CompactAppendRun(a, b);
      } else {
        CompactAppendOne(a, b);
      }
    }
  }

  lemma {:induction false} CompactAppendRun(a: string, b: string)
    requires a != [] && !IsSpace(a[|a| - 1])
    requires 2 <= SpaceRun(a) && SpaceRun(a + b) == SpaceRun(a) < |a|
    ensures Compact(a + b) == Compact(a) + Compact(b)
    decreases |a|, 0
  {
    var n := SpaceRun(a);
    var tail := a[n..];
    assert (a + b)[n..] == tail + b;
    assert tail[|tail| - 1] == a[|a| - 1];
    CompactAppend(tail, b);
  }

  lemma {:induction false} CompactAppendOne(a: string, b: string)
    requires a != [] && !IsSpace(a[|a| - 1])
    requires SpaceRun(a) < 2 && SpaceRun(a + b) == SpaceRun(a)
    ensures Compact(a + b) == Compact(a) + Compact(b)
    decreases |a|, 0
  {
    var tail := a[1..];
    assert (a + b)[1..] == tail + b && (a + b)[0] == a[0];
    assert tail != [] ==> tail[|tail| - 1] == a[|a| - 1];
    CompactAppend(tail, b);
    assert [a[0]] + Compact(tail + b) == [a[0]] + Compact(tail) + Compact(b);
  }

  /** Compacting twice gives what compacting once gives. */
  lemma CompactIdempotent(s: string)
    ensures Compact(Compact(s)) == Compact(s)
  {
    CompactNoDoubleSpace(s);
    CompactFixed(Compact(s));
  }

  lemma {:induction false} VisibleAppend(a: string, b: string)
    ensures Visible(a + b) == Visible(a) + Visible(b)
    decreases |a|
  {
    if a == [] {
      assert a + b == b;
    } else {
      assert (a + b)[1..] == a[1..] + b;
      VisibleAppend(a[1..], b);
    }
  }

  lemma {:induction false} VisibleSpaces(s: string, n: nat)
    requires n <= |s| && forall k :: 0 <= k < n ==> IsSpace(s[k])
    ensures Visible(s) == Visible(s[n..])
    decreases n
  {
    if n > 0 {
      assert s[1..][n - 1..] == s[n..];
      VisibleSpaces(s[1..], n - 1);
    }
  }

  /** Compaction deletes whitespace only: every other character is kept, in order. */
  lemma {:induction false} CompactKeepsVisible(s: string)
    ensures Visible(Compact(s)) == Visible(s)
    decreases |s|
  {
    if s != [] {
      var n := SpaceRun(s);
      if n >= 2 {
        CompactKeepsVisible(s[n..]);
        VisibleSpaces(s, n);
      } else {
        CompactKeepsVisible(s[1..]);
        VisibleAppend([s[0]], Compact(s[1..]));
      }
    }
  }

  // ---------------------------------------------------------------------------
  // `{{ expr }}` markers
  // ---------------------------------------------------------------------------

  /** No line terminator in `s[j..e]`: the part of a line that `.` can run over. */
  predicate OnOneLine(s: string, j: nat, e: nat)
    requires j <= e <= |s|
  {
    forall k :: j <= k < e ==> !Pattern.LineTerminator(Pattern.Js, s[k])
  }

  /**
   * Where the lazy `(.*?)}}` that follows a `{{` ends: the first `}}` from
   * `j` on with no line terminator before it, or `None`.
   */
  function FindClose(s: string, j: nat): (r: Option<nat>)
    requires j <= |s|
    ensures r.Some? ==> j <= r.value && r.value + 2 <= |s| && s[r.value] == '}' && s[r.value + 1] == '}'
    ensures r.Some? ==> forall k :: j <= k < r.value ==> !Pattern.LineTerminator(Pattern.Js, s[k])
    ensures r.Some? ==> forall k :: j <= k < r.value ==> !(s[k] == '}' && s[k + 1] == '}')
    ensures r.None? ==> forall e :: j <= e && e + 2 <= |s| && s[e] == '}' && s[e + 1] == '}' ==> !OnOneLine(s, j, e)
    decreases |s| - j
  {
    if j + 1 < |s| && s[j] == '}' && s[j + 1] == '}' then Some(j)
    else if j < |s| && !Pattern.LineTerminator(Pattern.Js, s[j]) then FindClose(s, j + 1)
    else None
  }

  /** `replace(/{{(.*?)}}/g, "',$1,'")`: each marker becomes its expression between `',` and `,'`. */
  function Markers(s: string): string
    decreases |s|
  {
    if s == [] then []
    else if |s| >= 2 && s[0] == '{' && s[1] == '{' && FindClose(s, 2).Some? then
      var j := FindClose(s, 2).value;
      "'," + s[2..j] + ",'" + Markers(s[j + 2..])
    else [s[0]] + Markers(s[1..])
  }

  /** Markup without `{{` has no marker: it is left as it is. */
  lemma {:induction false} MarkersNone(s: string)
    requires forall k :: 0 <= k < |s| - 1 ==> !(s[k] == '{' && s[k + 1] == '{')
    ensures Markers(s) == s
    decreases |s|
  {
    if s != [] {
      MarkersNone(s[1..]);
    }
  }

  /**
   * A marker at the start is spliced in as the expression it holds: the lazy
   * group takes everything up to the first `}}`, so the expression may hold a
   * lone `}` but no `}}`, and must not end in `}`.
   */
  lemma MarkersSplice(expr: string, rest: string)
    requires forall k :: 0 <= k < |expr| ==> !Pattern.LineTerminator(Pattern.Js, expr[k])
    requires NoPair(expr + "}", '}', '}')
    ensures Markers("{{" + expr + "}}" + rest) == "'," + expr + ",'" + Markers(rest)
  {
    var closed := expr + "}";
    var s := "{{" + closed + ("}" + rest);
    assert s == "{{" + expr + "}}" + rest;
    var e := |expr| + 2;
    assert s[2..e + 1] == closed;
    forall k | 2 <= k < e
      ensures !Pattern.LineTerminator(Pattern.Js, s[k]) && !(s[k] == '}' && s[k + 1] == '}')
    {
      assert s[k] == closed[k - 2] == expr[k - 2];
      assert s[k + 1] == closed[k - 1];
    }
    assert s[e] == '}' && s[e + 1] == '}';
    FindCloseSkips(s, 2, e);
    assert s[2..e] == expr;
    assert s[e + 2..] == rest;
  }

  lemma {:induction false} FindCloseSkips(s: string, j: nat, e: nat)
    requires j <= e && e + 2 <= |s| && s[e] == '}' && s[e + 1] == '}'
    requires forall k :: j <= k < e ==> !Pattern.LineTerminator(Pattern.Js, s[k]) && !(s[k] == '}' && s[k + 1] == '}')
    ensures FindClose(s, j) == Some(e)
    decreases e - j
  {
    if j < e {
      FindCloseSkips(s, j + 1, e);
    }
  }

  // ---------------------------------------------------------------------------
  // `{% … %}` blocks
  // ---------------------------------------------------------------------------

  /** `s.split(ab).join(rep)` for a two-character separator `ab`: occurrences are replaced left to right. */
  function ReplacePair(s: string, a: char, b: char, rep: string): string
    decreases |s|
  {
    if s == [] then []
    else if |s| >= 2 && s[0] == a && s[1] == b then rep + ReplacePair(s[2..], a, b, rep)
    else [s[0]] + ReplacePair(s[1..], a, b, rep)
  }

  /** `c` is never directly followed by `d` in `s`. */
  predicate NoPair(s: string, c: char, d: char) {
    forall k :: 0 <= k < |s| - 1 ==> !(s[k] == c && s[k + 1] == d)
  }

  lemma ReplacePairHead(s: string, a: char, b: char, rep: string)
    requires s != [] && rep != []
    ensures ReplacePair(s, a, b, rep) != []
    ensures ReplacePair(s, a, b, rep)[0] == if |s| >= 2 && s[0] == a && s[1] == b then rep[0] else s[0]
  {
  }

  /** A pair is absent from `x + y` when it is absent from both and does not straddle the seam. */
  lemma NoPairAppend(x: string, y: string, c: char, d: char)
    requires NoPair(x, c, d) && NoPair(y, c, d)
    requires x != [] && y != [] ==> !(x[|x| - 1] == c && y[0] == d)
    ensures NoPair(x + y, c, d)
  {
    var s := x + y;
    forall k | 0 <= k < |s| - 1 ensures !(s[k] == c && s[k + 1] == d) {
      if k + 1 < |x| {
        assert s[k] == x[k] && s[k + 1] == x[k + 1];
      } else if k >= |x| {
        assert s[k] == y[k - |x|] && s[k + 1] == y[k + 1 - |x|];
      }
    }
  }

  lemma NoPairTail(s: string, n: nat, c: char, d: char)
    requires NoPair(s, c, d) && n <= |s|
    ensures NoPair(s[n..], c, d)
  {
    forall k | 0 <= k < |s[n..]| - 1 ensures !(s[n..][k] == c && s[n..][k + 1] == d) {
      assert s[n..][k] == s[n + k] && s[n..][k + 1] == s[n + k + 1];
    }
  }

  /**
   * After the replacement no `ab` is left, provided the replacement text has
   * none, does not start with `b` and does not end with `a`.
   */
  lemma {:induction false} ReplacePairEliminates(s: string, a: char, b: char, rep: string)
    requires rep != [] && NoPair(rep, a, b) && rep[0] != b && rep[|rep| - 1] != a
    ensures NoPair(ReplacePair(s, a, b, rep), a, b)
    decreases |s|
  {
    if s == [] {
      return;
    }
    if |s| >= 2 && s[0] == a && s[1] == b {
      ReplacePairEliminates(s[2..], a, b, rep);
      NoPairAppend(rep, ReplacePair(s[2..], a, b, rep), a, b);
    } else {
      ReplacePairEliminates(s[1..], a, b, rep);
      if s[1..] != [] {
        ReplacePairHead(s[1..], a, b, rep);
      }
      NoPairAppend([s[0]], ReplacePair(s[1..], a, b, rep), a, b);
    }
  }

  /**
   * The replacement introduces no `cd` into text that has none, provided the
   * replacement text has none, does not start with `d` and does not end with `c`.
   */
  lemma {:induction false} ReplacePairPreserves(s: string, a: char, b: char, rep: string, c: char, d: char)
    requires NoPair(s, c, d)
    requires rep != [] && NoPair(rep, c, d) && rep[0] != d && rep[|rep| - 1] != c
    ensures NoPair(ReplacePair(s, a, b, rep), c, d)
    decreases |s|
  {
    if s == [] {
      return;
    }
    if |s| >= 2 && s[0] == a && s[1] == b {
      NoPairTail(s, 2, c, d);
      ReplacePairPreserves(s[2..], a, b, rep, c, d);
      NoPairAppend(rep, ReplacePair(s[2..], a, b, rep), c, d);
    } else {
      NoPairTail(s, 1, c, d);
      ReplacePairPreserves(s[1..], a, b, rep, c, d);
      if s[1..] != [] {
        ReplacePairHead(s[1..], a, b, rep);
      }
      NoPairAppend([s[0]], ReplacePair(s[1..], a, b, rep), c, d);
    }
  }

  // ---------------------------------------------------------------------------
  // The function body
  // ---------------------------------------------------------------------------

  const BodyStart: string := "const a=[];a.push('"
  const BodyEnd: string := "');return a.join('');"

  /** The template text after the four rewrites, before it is wrapped. */
  function Rewritten(markup: string): (r: string)
    ensures NoPair(r, '{', '%') && NoPair(r, '%', '}')
  {
    var x := Markers(Compact(markup));
    var y := ReplacePair(x, '{', '%', "');");
    ReplacePairEliminates(x, '{', '%', "');");
    var z := ReplacePair(y, '%', '}', "a.push('");
    ReplacePairEliminates(y, '%', '}', "a.push('");
    ReplacePairPreserves(y, '%', '}', "a.push('", '{', '%');
    z
  }

  /** The source of the `Function` a template compiles to: it starts and ends the same way whatever the markup. */
  function Source(markup: string): (src: string)
    ensures BodyStart <= src
    ensures |src| >= |BodyStart| + |BodyEnd| && src[|src| - |BodyEnd|..] == BodyEnd
    ensures src[|BodyStart|..|src| - |BodyEnd|] == Rewritten(markup)
  {
    var r := Rewritten(markup);
    var src := BodyStart + r + BodyEnd;
    assert src[|BodyStart|..|src| - |BodyEnd|] == r;
    src
  }
}
