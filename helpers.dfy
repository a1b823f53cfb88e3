/**
 * The small helpers the client library installs: a version 4 UUID built from
 * random nibbles, `Math.clamp`, and the `Array` methods `select` and `clear`.
 */
module Helpers {

  // ---------------------------------------------------------------------------
  // uuid
  // ---------------------------------------------------------------------------

  /** `n` placeholders `x`. */
  function Xs(n: nat): (s: string)
    ensures |s| == n && forall k :: 0 <= k < n ==> s[k] == 'x'
  {
    seq(n, _ => 'x')
  }

  /**
   * The pattern `xxxxxxxx-xxxx-4xxx-yxxx-xxxxxxxxxxxx` whose `x` and `y` are
   * filled in; the `4` is the version of RFC 4122, section 4.4.
   */
  const UuidTemplate: string := Xs(8) + "-" + Xs(4) + "-4" + Xs(3) + "-y" + Xs(3) + "-" + Xs(12)

  /** The template spelled out. */
  lemma UuidTemplateText()
    ensures UuidTemplate == "xxxxxxxx-xxxx-4xxx-yxxx-xxxxxxxxxxxx"
  {
  }

  /** A random integer in 0..15, as `(Math.random() * 16) | 0` gives. */
  type Nibble = n: nat | n < 16

  /** `r.toString(16)` for a nibble: one lower-case hexadecimal digit. */
  function HexDigit(r: Nibble): (c: char)
    ensures ('0' <= c <= '9') || ('a' <= c <= 'f')
  {
    "0123456789abcdef"[r]
  }

  /** The value written for a `y`: `(r & 3) | 8`, the variant bits `10` of RFC 4122, section 4.1.1. */
  function Variant(r: Nibble): (v: Nibble)
    ensures 8 <= v <= 11 && v % 4 == r % 4
  {
    var b := ((r as bv8) & 3) | 8;
    assert b == (r % 4) as bv8 + 8 by {
      assert r < 16;
    }
    b as int
  }

  /** How many `x` and `y` a template has. */
  function Holes(t: string): nat
    decreases |t|
  {
    if t == [] then 0 else (if t[0] == 'x' || t[0] == 'y' then 1 else 0) + Holes(t[1..])
  }

  lemma {:induction false} HolesAppend(a: string, b: string)
    ensures Holes(a + b) == Holes(a) + Holes(b)
    decreases |a|
  {
    if a == [] {
      assert a + b == b;
    } else {
      assert (a + b)[1..] == a[1..] + b;
      HolesAppend(a[1..], b);
    }
  }

  lemma {:induction false} HolesXs(n: nat)
    ensures Holes(Xs(n)) == n
    decreases n
  {
    if n > 0 {
      assert Xs(n)[1..] == Xs(n - 1);
      HolesXs(n - 1);
    }
  }

  lemma UuidHoles()
    ensures Holes(UuidTemplate) == 31
  {
    var a := Xs(8) + "-";
    var b := a + Xs(4);
    var c := b + "-4";
    var d := c + Xs(3);
    var e := d + "-y";
    var f := e + Xs(3);
    var g := f + "-";
    HolesXs(8); HolesXs(4); HolesXs(3); HolesXs(12);
    assert Holes("-") == 0;
    assert Holes("-4") == 0;
    assert Holes("-y") == 1;
    HolesAppend(Xs(8), "-");
    HolesAppend(a, Xs(4));
    HolesAppend(b, "-4");
    HolesAppend(c, Xs(3));
    HolesAppend(d, "-y");
    HolesAppend(e, Xs(3));
    HolesAppend(f, "-");
    HolesAppend(g, Xs(12));
  }

  /** `t.replace(/[xy]/g, …)`: each `x` or `y`, left to right, takes the next nibble of `rs`. */
  function Fill(t: string, rs: seq<Nibble>): (u: string)
    requires |rs| == Holes(t)
    ensures |u| == |t|
    decreases |t|
  {
    if t == [] then []
    else if t[0] == 'x' then [HexDigit(rs[0])] + Fill(t[1..], rs[1..])
    else if t[0] == 'y' then [HexDigit(Variant(rs[0]))] + Fill(t[1..], rs[1..])
    else [t[0]] + Fill(t[1..], rs)
  }

  /** What `Fill` puts at position `k`: the template's own character, or a digit for a hole. */
  lemma {:induction false} FillAt(t: string, rs: seq<Nibble>, k: nat)
    requires |rs| == Holes(t) && k < |t|
    ensures t[k] != 'x' && t[k] != 'y' ==> Fill(t, rs)[k] == t[k]
    ensures t[k] == 'x' ==> ('0' <= Fill(t, rs)[k] <= '9') || ('a' <= Fill(t, rs)[k] <= 'f')
    ensures t[k] == 'y' ==> Fill(t, rs)[k] in "89ab"
    decreases |t|
  {
    if k > 0 {
      if t[0] == 'x' || t[0] == 'y' {
        FillAt(t[1..], rs[1..], k - 1);
      } else {
        FillAt(t[1..], rs, k - 1);
      }
    } else if t[0] == 'y' {
      var v := Variant(rs[0]);
      assert v == 8 || v == 9 || v == 10 || v == 11;
    }
  }

  /**
   * `uuid`, with the 31 random nibbles passed in: 36 characters, dashes at
   * 8, 13, 18 and 23, the version digit `4` at 14, a variant digit `8`, `9`,
   * `a` or `b` at 19, and lower-case hexadecimal digits everywhere else.
   */
  function Uuid(rs: seq<Nibble>): (u: string)
    requires |rs| == 31
    ensures |u| == 36
    ensures u[8] == '-' && u[13] == '-' && u[18] == '-' && u[23] == '-'
    ensures u[14] == '4' && u[19] in "89ab"
    ensures forall k :: 0 <= k < 36 && k !in {8, 13, 18, 23, 14, 19} ==>
      ('0' <= u[k] <= '9') || ('a' <= u[k] <= 'f')
  {
    UuidHoles();
    UuidTemplateShape();
    var u := Fill(UuidTemplate, rs);
    forall k | 0 <= k < 36
      ensures k !in {8, 13, 18, 23, 14, 19} ==> ('0' <= u[k] <= '9') || ('a' <= u[k] <= 'f')
    {
      FillAt(UuidTemplate, rs, k);
    }
    FillAt(UuidTemplate, rs, 8);
    FillAt(UuidTemplate, rs, 13);
    FillAt(UuidTemplate, rs, 18);
    FillAt(UuidTemplate, rs, 23);
    FillAt(UuidTemplate, rs, 14);
    FillAt(UuidTemplate, rs, 19);
    u
  }

  /** Where the template has its dashes, its version digit, its `y` and its `x`s. */
  lemma UuidTemplateShape()
    ensures |UuidTemplate| == 36
    ensures UuidTemplate[8] == '-' && UuidTemplate[13] == '-' && UuidTemplate[18] == '-' && UuidTemplate[23] == '-'
    ensures UuidTemplate[14] == '4' && UuidTemplate[19] == 'y'
    ensures forall k :: 0 <= k < 36 && k !in {8, 13, 18, 23, 14, 19} ==> UuidTemplate[k] == 'x'
  {
    UuidTemplateText();
  }

  // ---------------------------------------------------------------------------
  // Math.clamp
  // ---------------------------------------------------------------------------

  /** `Math.min(Math.max(x, a), b)`: `x` brought into `[a, b]`; with `a > b` the answer is `b`. */
  function Clamp(x: int, a: int, b: int): (r: int)
    ensures a <= b ==> a <= r <= b
    ensures a <= x <= b ==> r == x
    ensures a <= b && x < a ==> r == a
    ensures x > b ==> r == b
    ensures a > b ==> r == b
  {
    var m := if x > a then x else a;
    if m < b then m else b
  }

  // ---------------------------------------------------------------------------
  // Array.prototype.select and Array.prototype.clear
  // ---------------------------------------------------------------------------

  /** `reduce((result, i) => result.concat(callback(i)), acc)`: a left fold that concatenates. */
  function SelectFrom<T, U>(acc: seq<U>, xs: seq<T>, f: T -> seq<U>): seq<U>
    decreases |xs|
  {
    if xs == [] then acc else SelectFrom(acc + f(xs[0]), xs[1..], f)
  }

  /** `select`: the reduction started from `[]`. */
  function Select<T, U>(xs: seq<T>, f: T -> seq<U>): seq<U> {
    SelectFrom([], xs, f)
  }

  /** Flat-map, element by element from the left. */
  function FlatMap<T, U>(xs: seq<T>, f: T -> seq<U>): seq<U>
    decreases |xs|
  {
    if xs == [] then [] else f(xs[0]) + FlatMap(xs[1..], f)
  }

  lemma {:induction false} SelectFromFlatMap<T, U>(acc: seq<U>, xs: seq<T>, f: T -> seq<U>)
    ensures SelectFrom(acc, xs, f) == acc + FlatMap(xs, f)
    decreases |xs|
  {
    if xs == [] {
      assert acc + [] == acc;
    } else {
      SelectFromFlatMap(acc + f(xs[0]), xs[1..], f);
      assert acc + f(xs[0]) + FlatMap(xs[1..], f) == acc + (f(xs[0]) + FlatMap(xs[1..], f));
    }
  }

  /** `select` is flat-map: the callback's results, concatenated in the order of the elements. */
  lemma SelectIsFlatMap<T, U>(xs: seq<T>, f: T -> seq<U>)
    ensures Select(xs, f) == FlatMap(xs, f)
  {
    SelectFromFlatMap([], xs, f);
  }

  /** Flat-map over a concatenation is the concatenation of the flat-maps. */
  lemma {:induction false} FlatMapAppend<T, U>(xs: seq<T>, ys: seq<T>, f: T -> seq<U>)
    ensures FlatMap(xs + ys, f) == FlatMap(xs, f) + FlatMap(ys, f)
    decreases |xs|
  {
    if xs == [] {
      assert xs + ys == ys;
    } else {
      assert (xs + ys)[1..] == xs[1..] + ys;
      FlatMapAppend(xs[1..], ys, f);
    }
  }

  /** A JavaScript array, as far as `clear` is concerned. */
  class JsArray<T> {
    var items: seq<T>

    constructor(items: seq<T>)
      ensures this.items == items
    {
      this.items := items;
    }

    /** `clear`: the first element is shifted off while there is one. */
    method Clear()
      modifies this
      ensures items == []
    {
      while |items| > 0
        invariant |items| <= |old(items)| && items == old(items)[|old(items)| - |items|..]
        decreases |items|
      {
        items := items[1..];
      }
    }
  }
}
