/**
 * What both PHP `Response` classes carry besides their code and message: the
 * data, the `error` object a Throwable is turned into, and the array that
 * `jsonSerialize` builds by PHP's left-biased array union `+`.
 */
module Payload {
  import opened Wrappers

  /** A PHP array key. */
  datatype Key = IntKey(i: int) | StrKey(s: string)

  /** The PHP values a response's data can hold. */
  datatype Value =
    | Null
    | Bool(b: bool)
    | Int(i: int)
    | Str(s: string)
    | Array(entries: seq<(Key, Value)>)                                   // an ordered array
    | ErrorObject(code: int, message: string, file: string, line: int)    // the stdClass of `formatError`
    | Object(id: nat)                                                     // any other object

  /** The classes of Throwable the server side tells apart. */
  datatype ThrowableKind =
    | ResponseException
    | InvalidArgumentException
    | TypeError
    | OtherThrowable(name: string)

  /** A Throwable: what `getCode`, `getMessage`, `getFile`, `getLine` and `getPrevious` return. */
  datatype Throwable = Throwable(
    kind: ThrowableKind, code: int, message: string, file: string, line: int, previous: Option<Throwable>)

  /** The `$data` argument of a response constructor: a Throwable or any other value. */
  datatype Data = Thrown(e: Throwable) | Plain(v: Value)

  /** The data a `previous` exception gives: the Throwable, or `null` when there is none. */
  function PreviousData(previous: Option<Throwable>): Data {
    if previous.Some? then Thrown(previous.value) else Plain(Null)
  }

  /** The identity of a handler callable; what a handler does is outside the routers. */
  type Handler = nat

  /** A value assigned into a route's method map: a callable, or something that is not. */
  datatype Callee = Callable(h: Handler) | NotCallable(v: Value)

  /** What `invoke` does: call a handler with arguments, or throw. */
  datatype Invocation = Invoked(h: Handler, args: seq<Value>) | Throws(e: Throwable)

  // ---------------------------------------------------------------------------
  // Ordered arrays
  // ---------------------------------------------------------------------------

  /** Whether `k` is a key of the array. */
  predicate HasKey(es: seq<(Key, Value)>, k: Key) {
    exists i :: 0 <= i < |es| && es[i].0 == k
  }

  /** No key occurs twice, as in every PHP array. */
  predicate DistinctKeys(es: seq<(Key, Value)>) {
    forall i, j :: 0 <= i < j < |es| ==> es[i].0 != es[j].0
  }

  /** `$a[$k]`: the value stored under `k`, if there is one. */
  function Lookup(es: seq<(Key, Value)>, k: Key): (r: Option<Value>)
    ensures r.Some? <==> HasKey(es, k)
    ensures r.Some? ==> (k, r.value) in es
    decreases |es|
  {
    if es == [] then None
    else if es[0].0 == k then Some(es[0].1)
    else
      var r := Lookup(es[1..], k);
      assert HasKey(es, k) ==> HasKey(es[1..], k) by {
        if HasKey(es, k) {
          var i :| 0 <= i < |es| && es[i].0 == k;
          assert es[1..][i - 1].0 == k;
        }
      }
      r
  }

  /** The entries of `r` whose key `l` lacks, in their order. */
  function Missing(r: seq<(Key, Value)>, l: seq<(Key, Value)>): (m: seq<(Key, Value)>)
    ensures forall e :: e in m <==> e in r && !HasKey(l, e.0)
    decreases |r|
  {
    if r == [] then []
    else if HasKey(l, r[0].0) then Missing(r[1..], l)
    else [r[0]] + Missing(r[1..], l)
  }

  /** `$l + $r`: the entries of `l`, then those of `r` under keys `l` does not have. */
  function Union(l: seq<(Key, Value)>, r: seq<(Key, Value)>): (u: seq<(Key, Value)>)
    ensures l <= u
    ensures forall k :: HasKey(u, k) <==> HasKey(l, k) || HasKey(r, k)
  {
    var u := l + Missing(r, l);
    assert forall k :: HasKey(r, k) && !HasKey(l, k) ==> HasKey(u, k) by {
      forall k | HasKey(r, k) && !HasKey(l, k)
        ensures HasKey(u, k)
      {
        var i :| 0 <= i < |r| && r[i].0 == k;
        assert r[i] in Missing(r, l);
        var j :| 0 <= j < |Missing(r, l)| && Missing(r, l)[j] == r[i];
        assert u[|l| + j].0 == k;
      }
    }
    assert forall k :: HasKey(u, k) && !HasKey(l, k) ==> HasKey(r, k) by {
      forall k | HasKey(u, k) && !HasKey(l, k)
        ensures HasKey(r, k)
      {
        var i :| 0 <= i < |u| && u[i].0 == k;
        assert u[i] in Missing(r, l);
        var j :| 0 <= j < |r| && r[j] == u[i];
      }
    }
    u
  }

  /** In a union the left operand wins: a key of `l` keeps its value from `l`, any other key its value from `r`. */
  lemma UnionLookup(l: seq<(Key, Value)>, r: seq<(Key, Value)>, k: Key)
    requires DistinctKeys(r)
    ensures Lookup(Union(l, r), k) == if HasKey(l, k) then Lookup(l, k) else Lookup(r, k)
  {
    LookupAppend(l, Missing(r, l), k);
    if !HasKey(l, k) {
      MissingLookup(r, l, k);
    }
  }

  lemma {:induction false} LookupAppend(a: seq<(Key, Value)>, b: seq<(Key, Value)>, k: Key)
    ensures Lookup(a + b, k) == if HasKey(a, k) then Lookup(a, k) else Lookup(b, k)
    decreases |a|
  {
    if a == [] {
      assert a + b == b;
    } else {
      assert (a + b)[1..] == a[1..] + b;
      if a[0].0 != k {
        LookupAppend(a[1..], b, k);
        assert HasKey(a, k) <==> HasKey(a[1..], k) by {
          if HasKey(a, k) {
            var i :| 0 <= i < |a| && a[i].0 == k;
            assert a[1..][i - 1].0 == k;
          }
        }
      }
    }
  }

  lemma {:induction false} MissingLookup(r: seq<(Key, Value)>, l: seq<(Key, Value)>, k: Key)
    requires DistinctKeys(r) && !HasKey(l, k)
    ensures Lookup(Missing(r, l), k) == Lookup(r, k)
    decreases |r|
  {
    if r != [] {
      assert DistinctKeys(r[1..]) by {
        forall i, j | 0 <= i < j < |r[1..]|
          ensures r[1..][i].0 != r[1..][j].0
        {
          assert r[1..][i] == r[i + 1] && r[1..][j] == r[j + 1];
        }
      }
      MissingLookup(r[1..], l, k);
      if HasKey(l, r[0].0) {
        assert r[0].0 != k;
      }
    }
  }

  /** A union of two arrays is again an array: no key occurs twice. */
  lemma UnionDistinct(l: seq<(Key, Value)>, r: seq<(Key, Value)>)
    requires DistinctKeys(l) && DistinctKeys(r)
    ensures DistinctKeys(Union(l, r))
  {
    MissingDistinct(r, l);
    var m := Missing(r, l);
    var u := l + m;
    forall i, j | 0 <= i < j < |u|
      ensures u[i].0 != u[j].0
    {
      if j >= |l| && i < |l| {
        assert u[j] == m[j - |l|];
        assert u[j] in m;
        assert HasKey(l, u[i].0);
      } else if i >= |l| {
        assert u[i] == m[i - |l|] && u[j] == m[j - |l|];
      }
    }
  }

  lemma {:induction false} MissingDistinct(r: seq<(Key, Value)>, l: seq<(Key, Value)>)
    requires DistinctKeys(r)
    ensures DistinctKeys(Missing(r, l))
    decreases |r|
  {
    if r != [] {
      assert DistinctKeys(r[1..]) by {
        forall i, j | 0 <= i < j < |r[1..]|
          ensures r[1..][i].0 != r[1..][j].0
        {
          assert r[1..][i] == r[i + 1] && r[1..][j] == r[j + 1];
        }
      }
      MissingDistinct(r[1..], l);
      if !HasKey(l, r[0].0) {
        var m := Missing(r[1..], l);
        forall j | 0 <= j < |m|
          ensures m[j].0 != r[0].0
        {
          assert m[j] in r[1..];
          var t :| 0 <= t < |r[1..]| && r[1..][t] == m[j];
          assert r[t + 1] == m[j];
        }
      }
    }
  }

  // ---------------------------------------------------------------------------
  // formatError, the stored data, jsonSerialize
  // ---------------------------------------------------------------------------

  /** `formatError`: the code, message, file and line of the Throwable. */
  function FormatError(e: Throwable): (v: Value)
    ensures v.ErrorObject? && v.code == e.code && v.message == e.message && v.file == e.file && v.line == e.line
  {
    ErrorObject(e.code, e.message, e.file, e.line)
  }

  /** What a constructor keeps of `$data`: a Throwable becomes `['error' => formatError($data)]`, anything else is kept. */
  function Stored(data: Data): (v: Value)
    ensures data.Thrown? ==> v.Array? && v.entries == [(StrKey("error"), FormatError(data.e))]
    ensures data.Plain? ==> v == data.v
  {
    match data
    case Thrown(e) => Array([(StrKey("error"), FormatError(e))])
    case Plain(v) => v
  }

  /** The two entries `jsonSerialize` starts from. */
  function Head(code: int, message: string): seq<(Key, Value)> {
    [(StrKey("code"), Int(code)), (StrKey("message"), Str(message))]
  }

  /**
   * `jsonSerialize`: `code` and `message`, to which non-null data is added by
   * `+`. Data that is neither null nor an array makes `+` throw (`None`).
   */
  function Serialize(code: int, message: string, data: Value): (r: Option<seq<(Key, Value)>>)
    ensures r.Some? <==> data.Null? || data.Array?
    ensures r.Some? ==> Head(code, message) <= r.value
    ensures data.Null? ==> r == Some(Head(code, message))
  {
    match data
    case Null => Some(Head(code, message))
    case Array(es) => Some(Union(Head(code, message), es))
    case _ => None
  }

  /**
   * The serialized `code` and `message` are always the response's own, and
   * every other key has exactly the value the data gives it (or none).
   */
  lemma SerializeLookup(code: int, message: string, data: Value, k: Key)
    requires data.Array? && DistinctKeys(data.entries)
    ensures var r := Serialize(code, message, data).value;
      DistinctKeys(r) &&
      Lookup(r, StrKey("code")) == Some(Int(code)) &&
      Lookup(r, StrKey("message")) == Some(Str(message)) &&
      (k != StrKey("code") && k != StrKey("message") ==> Lookup(r, k) == Lookup(data.entries, k))
  {
    var h := Head(code, message);
    UnionDistinct(h, data.entries);
    UnionLookup(h, data.entries, k);
    UnionLookup(h, data.entries, StrKey("code"));
    UnionLookup(h, data.entries, StrKey("message"));
    assert h[0].0 == StrKey("code") && h[1].0 == StrKey("message");
    if k != StrKey("code") && k != StrKey("message") {
      assert !HasKey(h, k);
    }
  }

  /** A Throwable passed as data is serialized as `code`, `message` and the `error` object. */
  lemma SerializeThrown(code: int, message: string, e: Throwable)
    ensures Serialize(code, message, Stored(Thrown(e))) ==
      Some(Head(code, message) + [(StrKey("error"), FormatError(e))])
  {
    var es := [(StrKey("error"), FormatError(e))];
    var h := Head(code, message);
    assert !HasKey(h, StrKey("error"));
    assert Missing(es, h) == es;
  }

  // ---------------------------------------------------------------------------
  // The factories both Response classes share
  // ---------------------------------------------------------------------------

  /** The named constructors `ok()`, `created()`, …, `error()`. */
  datatype Factory =
    | Ok | Created | Accepted | NoContent | SeeOther | NotModified | BadRequest
    | Unauthorized | Forbidden | NotFound | MethodNotAllowed | TooManyRequests | Error

  /** The status code a factory passes to the constructor, one of the class constants. */
  function FactoryCode(f: Factory): (code: int)
    ensures 200 <= code <= 599
  {
    match f
    case Ok => 200
    case Created => 201
    case Accepted => 202
    case NoContent => 204
    case SeeOther => 303
    case NotModified => 304
    case BadRequest => 400
    case Unauthorized => 401
    case Forbidden => 403
    case NotFound => 404
    case MethodNotAllowed => 405
    case TooManyRequests => 429
    case Error => 500
  }
}
