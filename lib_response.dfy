/**
 * The `lib` variant of `Response`: any code is accepted, the headers are set
 * by the constructor, and every factory's message can be overridden.
 */
module LibResponse {
  import opened Wrappers
  import opened Payload
  import SrcResponse

  /** A response: code, message, data and the headers in the order they were set. */
  datatype Response = Response(code: int, message: string, data: Value, headers: seq<(string, string)>)

  /** `Response::JSON`. */
  const Json: string := "application/json"

  /** The value of the header `name`, if it is set. */
  function Header(headers: seq<(string, string)>, name: string): (v: Option<string>)
    ensures v.Some? ==> (name, v.value) in headers
    ensures v.None? ==> forall k :: 0 <= k < |headers| ==> headers[k].0 != name
    decreases |headers|
  {
    if headers == [] then None
    else if headers[0].0 == name then Some(headers[0].1)
    else Header(headers[1..], name)
  }

  /**
   * The constructor: code and message are kept whatever they are, the data is
   * stored (a Throwable wrapped), and the two headers are set.
   */
  function New(code: int, message: string, data: Data): (r: Response)
    ensures r.code == code && r.message == message && r.data == Stored(data)
    ensures Header(r.headers, "Cache-Control") == Some("no-store")
    ensures Header(r.headers, "Content-Type") == Some(Json)
    ensures |r.headers| == 2
  {
    Response(code, message, Stored(data), [("Cache-Control", "no-store"), ("Content-Type", Json)])
  }

  /** The default message of each factory. */
  function DefaultMessage(f: Factory): string {
    match f
    case Ok => "ok"
    case Created => "created"
    case Accepted => "accepted"
    case NoContent => "no content"
    case SeeOther => "see other"
    case NotModified => "bad request"
    case BadRequest => "bad request"
    case Unauthorized => "unauthorized"
    case Forbidden => "forbidden"
    case NotFound => "not found"
    case MethodNotAllowed => "method not allowed"
    case TooManyRequests => "too many requests"
    case Error => "error"
  }

  /** A factory: its fixed code, the caller's message or else the default one. */
  function Make(f: Factory, data: Data, message: Option<string>): (r: Response)
    ensures r.code == FactoryCode(f)
    ensures message.Some? ==> r.message == message.value
    ensures message.None? ==> r.message == DefaultMessage(f)
    ensures r.data == Stored(data)
  {
    New(FactoryCode(f), if message.Some? then message.value else DefaultMessage(f), data)
  }

  /**
   * The default messages are the `src` messages (the lower-cased reason
   * phrases) except for two: `notModified` defaults to the message of 400 and
   * `error` to `error`.
   */
  lemma DefaultMessages(f: Factory)
    ensures f != NotModified && f != Error ==> DefaultMessage(f) == SrcResponse.FactoryMessage(f)
    ensures f == NotModified ==> DefaultMessage(f) == SrcResponse.FactoryMessage(BadRequest) != SrcResponse.FactoryMessage(f)
    ensures f == Error ==> DefaultMessage(f) != SrcResponse.FactoryMessage(f)
  {
  }
}
