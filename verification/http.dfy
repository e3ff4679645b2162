/** The HTTP exchange as the client sees it. The transport (reqwest, its
    cookie jar and redirect policy) is not interpreted: a server is a function
    from the requests sent so far in the session and the new request to the
    response, so a session cookie set by an earlier answer can change a later
    one. */
module Http {
  import opened Wrappers
  import opened Numbers
  import opened Text

  /** A status code as `http::StatusCode` admits it. */
  type StatusCode = c: int | 100 <= c <= 999 witness 200

  /** The body of a response, as `bytes()` reads it. */
  datatype Body = Received(bytes: seq<byte>) | ReadFailed(reason: string)

  datatype Response =
    | Reply(status: StatusCode, location: Option<string>, body: Body)
    | TransportFailure(reason: string)

  /** `HeaderValue::to_str` succeeds: every character is visible ASCII or a
      tab. */
  predicate VisibleAscii(s: string) {
    forall i :: 0 <= i < |s| ==> s[i] == '\t' || ' ' <= s[i] <= '~'
  }

  datatype Request =
    | Get(url: string)
    | GetBasicAuth(url: string, user: string, password: string)
    | PostForm(url: string, form: map<string, string>)

  /** What an operation returns together with the requests it sent, in
      order. */
  datatype Exchange<T> = Exchange(result: T, sent: seq<Request>)

  /** The server: its answer to `req` after the requests in `history`. */
  type Server = (seq<Request>, Request) -> Response

  predicate IsSuccess(c: StatusCode) {
    200 <= c <= 299
  }

  predicate IsRedirection(c: StatusCode) {
    300 <= c <= 399
  }

  /** A reply with a 2xx status. */
  predicate Succeeded(r: Response) {
    r.Reply? && IsSuccess(r.status)
  }

  /** `StatusCode::canonical_reason`, looked up by class. */
  function CanonicalReason(c: StatusCode): Option<string> {
    if c < 400 then ReasonBelow400(c)
    else if c < 500 then ClientErrorReason(c)
    else ServerErrorReason(c)
  }

  function ReasonBelow400(c: StatusCode): Option<string> {
    match c
    case 100 => Some("Continue")
    case 101 => Some("Switching Protocols")
    case 102 => Some("Processing")
    case 200 => Some("OK")
    case 201 => Some("Created")
    case 202 => Some("Accepted")
    case 203 => Some("Non Authoritative Information")
    case 204 => Some("No Content")
    case 205 => Some("Reset Content")
    case 206 => Some("Partial Content")
    case 207 => Some("Multi-Status")
    case 208 => Some("Already Reported")
    case 226 => Some("IM Used")
    case 300 => Some("Multiple Choices")
    case 301 => Some("Moved Permanently")
    case 302 => Some("Found")
    case 303 => Some("See Other")
    case 304 => Some("Not Modified")
    case 305 => Some("Use Proxy")
    case 307 => Some("Temporary Redirect")
    case 308 => Some("Permanent Redirect")
    case _ => None
  }

  function ClientErrorReason(c: StatusCode): Option<string> {
    match c
    case 400 => Some("Bad Request")
    case 401 => Some("Unauthorized")
    case 402 => Some("Payment Required")
    case 403 => Some("Forbidden")
    case 404 => Some("Not Found")
    case 405 => Some("Method Not Allowed")
    case 406 => Some("Not Acceptable")
    case 407 => Some("Proxy Authentication Required")
    case 408 => Some("Request Timeout")
    case 409 => Some("Conflict")
    case 410 => Some("Gone")
    case 411 => Some("Length Required")
    case 412 => Some("Precondition Failed")
    case 413 => Some("Payload Too Large")
    case 414 => Some("URI Too Long")
    case 415 => Some("Unsupported Media Type")
    case 416 => Some("Range Not Satisfiable")
    case 417 => Some("Expectation Failed")
    case 418 => Some("I'm a teapot")
    case 421 => Some("Misdirected Request")
    case 422 => Some("Unprocessable Entity")
    case 423 => Some("Locked")
    case 424 => Some("Failed Dependency")
    case 426 => Some("Upgrade Required")
    case 428 => Some("Precondition Required")
    case 429 => Some("Too Many Requests")
    case 431 => Some("Request Header Fields Too Large")
    case 451 => Some("Unavailable For Legal Reasons")
    case _ => None
  }

  function ServerErrorReason(c: StatusCode): Option<string> {
    match c
    case 500 => Some("Internal Server Error")
    case 501 => Some("Not Implemented")
    case 502 => Some("Bad Gateway")
    case 503 => Some("Service Unavailable")
    case 504 => Some("Gateway Timeout")
    case 505 => Some("HTTP Version Not Supported")
    case 506 => Some("Variant Also Negotiates")
    case 507 => Some("Insufficient Storage")
    case 508 => Some("Loop Detected")
    case 510 => Some("Not Extended")
    case 511 => Some("Network Authentication Required")
    case _ => None
  }

  /** `format!("{}", status)`: the three digits, a space and the reason. */
  function StatusText(c: StatusCode): (r: string)
    ensures StartsWith(r, Decimal(c))
  {
    Decimal(c) + " " + CanonicalReason(c).GetOr("<unknown status code>")
  }

  lemma StatusText504()
    ensures StatusText(504) == "504 Gateway Timeout"
  {
    assert Decimal(504) == "504" by {
      DecimalThreeDigits(504);
    }
  }

  /** The requests `Get(urls[0]), Get(urls[1]), …` in order. */
  function Gets(urls: seq<string>): (r: seq<Request>)
    ensures |r| == |urls|
  {
    if urls == [] then [] else [Get(urls[0])] + Gets(urls[1..])
  }

  lemma {:induction false} GetsAt(urls: seq<string>, i: nat)
    requires i < |urls|
    ensures Gets(urls)[i] == Get(urls[i])
  {
    if i > 0 {
      GetsAt(urls[1..], i - 1);
    }
  }

  lemma {:induction false} GetsAppend(a: seq<string>, b: seq<string>)
    ensures Gets(a + b) == Gets(a) + Gets(b)
  {
    if a == [] {
      assert a + b == b;
    } else {
      assert (a + b)[0] == a[0] && (a + b)[1..] == a[1..] + b;
      GetsAppend(a[1..], b);
    }
  }

  /** The session's connection to the server: every request goes through
      `Send`, which records it. */
  class Web {
    const answer: Server
    var log: seq<Request>

    constructor (answer: Server)
      ensures this.answer == answer && log == []
    {
      this.answer := answer;
      log := [];
    }

    method Send(req: Request) returns (resp: Response)
      modifies this
      ensures log == old(log) + [req]
      ensures resp == answer(old(log), req)
    {
      resp := answer(log, req);
      log := log + [req];
    }
  }
}
