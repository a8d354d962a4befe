/**
  The HTTP records the gateway rewrites: URLs, header maps, request and
  response bodies, and the translator hooks a proxy is configured with.
  Everything is an immutable value; where the Go code mutates a request
  in place, the model returns a new one.
 */
module Http {

  /** An optional value; `None` plays the part of Go's `nil` function value. */
  datatype Option<+T> = None | Some(value: T)

  /** An outcome carrying either a value or an error message. */
  datatype Result<+T> = Ok(value: T) | Err(error: string)

  newtype byte = x: int | 0 <= x < 256

  /**
    The parts of `net/url.URL` the director touches or keeps. `rawPath` is
    the optional encoded form of `path`; "" means none was recorded.
   */
  datatype URL = URL(scheme: string, host: string, path: string, rawPath: string, rawQuery: string, fragment: string)

  /**
    A header map from canonical header name to its list of values, as in
    Go's `http.Header`. Keys are taken to be in canonical form already.
   */
  type Header = map<string, seq<string>>

  /** A request or response body: a byte stream that reads fully, or one whose read fails. */
  datatype Body = Readable(data: seq<byte>) | ReadFailure

  datatype Request = Request(verb: string, url: URL, host: string, header: Header, body: Body)

  datatype Response = Response(status: int, header: Header, body: Body)

  /** A request translator rewrites a request before it leaves the gateway. */
  type RequestTranslator = Request -> Request

  /** A response translator rewrites a backend response, or reports that it could not. */
  type ResponseTranslator = Response -> Result<Response>

  const HostKey := "Host"
  const XForwardedHost := "X-Forwarded-Host"
  const UserAgent := "User-Agent"

  /** `Header.Get`: the first value stored under `key`, or "" when there is none. */
  function Get(h: Header, key: string): (v: string)
    ensures key !in h ==> v == ""
    ensures key in h && |h[key]| > 0 ==> v == h[key][0]
    ensures key in h && h[key] == [] ==> v == ""
  {
    if key in h && |h[key]| > 0 then h[key][0] else ""
  }

  /** `Header.Set`: `key` now holds exactly the one value `v`; every other entry is kept. */
  function Set(h: Header, key: string, v: string): (h': Header)
    ensures h'.Keys == h.Keys + {key}
    ensures Get(h', key) == v && h'[key] == [v]
    ensures forall k :: k in h && k != key ==> h'[k] == h[k]
  {
    h[key := [v]]
  }

  /** Applying an optional request translator: a missing one leaves the request as it is. */
  function ApplyTranslator(translator: Option<RequestTranslator>, req: Request): Request
  {
    match translator
    case None => req
    case Some(f) => f(req)
  }
}
