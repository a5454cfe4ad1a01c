/** The parts of the web framework's request context that the middleware reads and writes:
    request headers, response headers and the buffered response body. */
module HttpContext {
  import opened Wrappers

  type byte = x: int | 0 <= x < 256

  /** Header names are assumed to be given in canonical form. */
  type Header = map<string, string>

  const AcceptEncodingKey: string := "Accept-Encoding"
  const ContentEncodingKey: string := "Content-Encoding"
  const ContentTypeKey: string := "Content-Type"

  /** Header lookup: a missing header reads as the empty string. */
  function Get(h: Header, key: string): string
  {
    if key in h then h[key] else ""
  }

  /** The response under construction; a `None` body is a nil body buffer. */
  datatype Response = Response(header: Header, body: Option<seq<byte>>)

  /** The request headers and the response, as one request context. */
  datatype Context = Context(requestHeader: Header, response: Response)

  /** An error returned by a handler; its contents are opaque to the middleware. */
  datatype Error = Error(message: string)

  /** What a handler leaves behind: the context it produced and the error it returned, if any. */
  datatype Outcome = Outcome(ctx: Context, err: Option<Error>)
}
