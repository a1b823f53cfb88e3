/**
 * The server's `Response` (the `src` variant): a status code that must have
 * a reason phrase, a message and data; the factories; and the status line
 * `sendHeaders` writes.
 */
module SrcResponse {
  import opened Wrappers
  import opened Payload

  /** `HTTP_REASON_PHRASE`: the reason phrases of RFC 7231 section 6.1, and 429 of RFC 6585 section 4. */
  function ReasonPhrase(code: int): Option<string> {
    match code
    case 200 => Some("OK")
    case 201 => Some("Created")
    case 202 => Some("Accepted")
    case 204 => Some("No Content")
    case 303 => Some("See Other")
    case 304 => Some("Not Modified")
    case 400 => Some("Bad Request")
    case 401 => Some("Unauthorized")
    case 403 => Some("Forbidden")
    case 404 => Some("Not Found")
    case 405 => Some("Method Not Allowed")
    case 429 => Some("Too Many Requests")
    case 500 => Some("Internal Server Error")
    case 502 => Some("Bad Gateway")
    case 503 => Some("Service Unavailable")
    case _ => None
  }

  /** `isset(HTTP_REASON_PHRASE[$code])`. */
  predicate HasPhrase(code: int) {
    ReasonPhrase(code).Some?
  }

  /** The fifteen codes of the table, in its order. */
  const Codes: seq<int> := [200, 201, 202, 204, 303, 304, 400, 401, 403, 404, 405, 429, 500, 502, 503]

  /** A constructed response: its code always has a reason phrase. */
  datatype Response = Response(code: int, message: string, data: Value)

  /** The `InvalidArgumentException` the constructor throws. */
  const BadCode: Throwable := Throwable(InvalidArgumentException, 0, "", "src/Hashbang/Response.php", 98, None)

  /**
   * The constructor: a code without a reason phrase is refused; otherwise
   * code and message are kept and the data is stored (a Throwable wrapped).
   */
  function New(code: int, message: string, data: Data): (r: Result<Response, Throwable>)
    ensures r.Success? <==> HasPhrase(code)
    ensures r.Failure? ==> r.error.kind == InvalidArgumentException
    ensures r.Success? ==> r.value.code == code && r.value.message == message && r.value.data == Stored(data)
  {
    if !HasPhrase(code) then Failure(BadCode)
    else Success(Response(code, message, Stored(data)))
  }

  /** The table has a phrase for exactly the fifteen codes, all of three digits. */
  lemma ReasonPhraseCodes(code: int)
    ensures HasPhrase(code) <==> code in Codes
    ensures HasPhrase(code) ==> 100 <= code <= 999
  {
    if code in Codes {
      var k :| 0 <= k < |Codes| && Codes[k] == code;
      assert k in {0, 1, 2, 3, 4, 5, 6, 7, 8, 9, 10, 11, 12, 13, 14};
    }
  }

  // ---------------------------------------------------------------------------
  // Factories
  // ---------------------------------------------------------------------------

  /** The fixed message of each factory. */
  function FactoryMessage(f: Factory): string {
    match f
    case Ok => "ok"
    case Created => "created"
    case Accepted => "accepted"
    case NoContent => "no content"
    case SeeOther => "see other"
    case NotModified => "not modified"
    case BadRequest => "bad request"
    case Unauthorized => "unauthorized"
    case Forbidden => "forbidden"
    case NotFound => "not found"
    case MethodNotAllowed => "method not allowed"
    case TooManyRequests => "too many requests"
    case Error => "internal server error"
  }

  /** ASCII lower case of one character. */
  function LowerChar(c: char): char {
    if 'A' <= c <= 'Z' then (c as int + 32) as char else c
  }

  /** ASCII lower case. */
  function Lower(s: string): (r: string)
    ensures |r| == |s| && forall k :: 0 <= k < |s| ==> r[k] == LowerChar(s[k])
  {
    seq(|s|, k requires 0 <= k < |s| => LowerChar(s[k]))
  }

  /** A factory: the constructor with the factory's code and message; it never throws. */
  function Make(f: Factory, data: Data): (r: Response)
    ensures New(FactoryCode(f), FactoryMessage(f), data) == Success(r)
  {
    Response(FactoryCode(f), FactoryMessage(f), Stored(data))
  }

  /** Every factory's message is the reason phrase of its code, in lower case. */
  lemma FactoryMessageIsPhrase(f: Factory)
    ensures HasPhrase(FactoryCode(f))
    ensures FactoryMessage(f) == Lower(ReasonPhrase(FactoryCode(f)).value)
  {
    match f {
      case Ok => LowerPhrases0(); PhraseOf(f, 200, "OK");
      case Created => LowerPhrases0(); PhraseOf(f, 201, "Created");
      case Accepted => LowerPhrases1(); PhraseOf(f, 202, "Accepted");
      case NoContent => LowerPhrases1(); PhraseOf(f, 204, "No Content");
      case SeeOther => LowerPhrases2(); PhraseOf(f, 303, "See Other");
      case NotModified => LowerPhrases2(); PhraseOf(f, 304, "Not Modified");
      case BadRequest => LowerPhrases3(); PhraseOf(f, 400, "Bad Request");
      case Unauthorized => LowerPhrases3(); PhraseOf(f, 401, "Unauthorized");
      case Forbidden => LowerPhrases4(); PhraseOf(f, 403, "Forbidden");
      case NotFound => LowerPhrases4(); PhraseOf(f, 404, "Not Found");
      case MethodNotAllowed => LowerPhrases5(); PhraseOf(f, 405, "Method Not Allowed");
      case TooManyRequests => LowerPhrases6(); PhraseOf(f, 429, "Too Many Requests");
      case Error => LowerPhrases7(); PhraseOf(f, 500, "Internal Server Error");
    }
  }

  /** One row of the correspondence, from its code, its phrase and the phrase's lower case. */
  lemma PhraseOf(f: Factory, code: int, phrase: string)
    requires FactoryCode(f) == code && ReasonPhrase(code) == Some(phrase)
    requires FactoryMessage(f) == Lower(phrase)
    ensures HasPhrase(FactoryCode(f))
    ensures FactoryMessage(f) == Lower(ReasonPhrase(FactoryCode(f)).value)
  {
  }

  // The lower-case form of each reason phrase, a few phrases per lemma: each
  // fact unfolds `Lower` character by character, and proving all fifteen in
  // one lemma, or the whole correspondence in one match, costs the solver far
  // more than the sum of these small pieces.

  lemma LowerPhrases0()
    ensures Lower("OK") == "ok"
    ensures Lower("Created") == "created"
  {
  }

  lemma LowerPhrases1()
    ensures Lower("Accepted") == "accepted"
    ensures Lower("No Content") == "no content"
  {
  }

  lemma LowerPhrases2()
    ensures Lower("See Other") == "see other"
    ensures Lower("Not Modified") == "not modified"
  {
  }

  lemma LowerPhrases3()
    ensures Lower("Bad Request") == "bad request"
    ensures Lower("Unauthorized") == "unauthorized"
  {
  }

  lemma LowerPhrases4()
    ensures Lower("Forbidden") == "forbidden"
    ensures Lower("Not Found") == "not found"
  {
  }

  lemma LowerPhrases5()
    ensures Lower("Method Not Allowed") == "method not allowed"
  {
  }

  lemma LowerPhrases6()
    ensures Lower("Too Many Requests") == "too many requests"
  {
  }

  lemma LowerPhrases7()
    ensures Lower("Internal Server Error") == "internal server error"
  {
  }

  // ---------------------------------------------------------------------------
  // The status line
  // ---------------------------------------------------------------------------

  function DigitChar(n: nat): char
    requires n < 10
  {
    ('0' as int + n) as char
  }

  /** The decimal text of a three-digit code. */
  function CodeText(code: int): (t: string)
    requires 100 <= code <= 999
    ensures |t| == 3 && forall k :: 0 <= k < 3 ==> '0' <= t[k] <= '9'
  {
    [DigitChar(code / 100), DigitChar(code / 10 % 10), DigitChar(code % 10)]
  }

  /** The status line `sendHeaders` sends: protocol, code and reason phrase, one space apart. */
  function StatusLine(protocol: string, r: Response): (line: string)
    requires HasPhrase(r.code)
  {
    ReasonPhraseCodes(r.code);
    protocol + " " + CodeText(r.code) + " " + ReasonPhrase(r.code).value
  }

  /** Index of the first space of `s`, if it has one. */
  function FirstSpace(s: string): (i: Option<nat>)
    ensures i.Some? ==> i.value < |s| && s[i.value] == ' ' && ' ' !in s[..i.value]
    ensures i.None? ==> ' ' !in s
    decreases |s|
  {
    if s == [] then None
    else if s[0] == ' ' then Some(0)
    else match FirstSpace(s[1..])
      case None => None
      case Some(j) =>
        assert s[..j + 1] == [s[0]] + s[1..][..j];
        Some(j + 1)
  }

  /** The number three decimal digits spell. */
  function ThreeDigits(t: string): int
    requires |t| >= 3
  {
    (t[0] as int - '0' as int) * 100 + (t[1] as int - '0' as int) * 10 + (t[2] as int - '0' as int)
  }

  /** The status-line grammar of RFC 7230 section 3.1.2: version, space, three digits, space, reason phrase. */
  function ParseStatusLine(line: string): Option<(string, int, string)> {
    match FirstSpace(line)
    case None => None
    case Some(i) =>
      var rest := line[i + 1..];
      if |rest| >= 4 && rest[3] == ' ' && (forall k :: 0 <= k < 3 ==> '0' <= rest[k] <= '9') then
        Some((line[..i], ThreeDigits(rest), rest[4..]))
      else None
  }

  /** The status line parses back into the protocol, the code and its reason phrase. */
  lemma StatusLineParses(protocol: string, r: Response)
    requires HasPhrase(r.code) && ' ' !in protocol
    ensures ParseStatusLine(StatusLine(protocol, r)) == Some((protocol, r.code, ReasonPhrase(r.code).value))
  {
    ReasonPhraseCodes(r.code);
    StatusTextParses(protocol, r.code, ReasonPhrase(r.code).value);
  }

  lemma StatusTextParses(protocol: string, code: int, phrase: string)
    requires 100 <= code <= 999 && ' ' !in protocol
    ensures ParseStatusLine(protocol + " " + CodeText(code) + " " + phrase) == Some((protocol, code, phrase))
  {
    var t := CodeText(code);
    var line := protocol + " " + t + " " + phrase;
    assert line == protocol + [' '] + (t + [' '] + phrase);
    assert line[|protocol|] == ' ';
    assert line[..|protocol|] == protocol;
    FirstSpaceAt(line, |protocol|);
    assert line[|protocol| + 1..] == t + [' '] + phrase;
    CodeTextValue(code);
    ParseAt(line, |protocol|, t, phrase);
  }

  /** A line whose first space is followed by three digits, a space and a phrase. */
  lemma ParseAt(line: string, i: nat, t: string, phrase: string)
    requires FirstSpace(line) == Some(i)
    requires |t| == 3 && (forall k :: 0 <= k < 3 ==> '0' <= t[k] <= '9')
    requires line[i + 1..] == t + [' '] + phrase
    ensures ParseStatusLine(line) == Some((line[..i], ThreeDigits(t), phrase))
  {
    var rest := line[i + 1..];
    assert rest[4..] == phrase;
    assert rest[3] == ' ';
    assert forall k :: 0 <= k < 3 ==> rest[k] == t[k];
  }

  /** The three digits read back give the code. */
  lemma CodeTextValue(code: int)
    requires 100 <= code <= 999
    ensures ThreeDigits(CodeText(code)) == code
  {
    var q := code / 10;
    assert code == 10 * q + code % 10;
    assert q == 10 * (q / 10) + q % 10;
    assert q / 10 == code / 100;
    var t := CodeText(code);
    assert t[0] as int - '0' as int == code / 100;
    assert t[1] as int - '0' as int == q % 10;
    assert t[2] as int - '0' as int == code % 10;
  }

  lemma FirstSpaceAt(s: string, i: nat)
    requires i < |s| && s[i] == ' ' && ' ' !in s[..i]
    ensures FirstSpace(s) == Some(i)
  {
    assert s[i] in s;
  }
}
