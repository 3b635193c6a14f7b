/** The parts of hyper's request and response that the handlers use, as values, and
    the three fixed plain-text responses of the server handler. */
module Http {
  import opened Wrappers

  datatype ContentType = TextPlain | ApplicationJson

  /** A finished response: its status code, its `Content-Type` and everything
      written to its body. */
  datatype Response = Response(status: nat, contentType: ContentType, body: string)

  /** hyper's `RequestUri`; only an absolute path is routed. */
  datatype RequestUri = AbsolutePath(path: string) | AbsoluteUri(uri: string) | Authority(authority: string) | Star

  /** A request: its method (verb), its target, and the token of its
      `Authorization: Bearer` header when that header is present and parses. */
  datatype Request = Request(verb: string, uri: RequestUri, bearer: Option<string>)

  /** `send_unauthenticated`: 401 Unauthorized, plain text, `MUST AUTHENTICATE`. */
  function SendUnauthenticated(): (r: Response)
    ensures r.status == 401 && r.contentType == TextPlain && r.body == "MUST AUTHENTICATE\n"
  {
    Response(401, TextPlain, "MUST AUTHENTICATE\n")
  }

  /** `send_not_found`: 404 Not Found, plain text, `NOT FOUND`. */
  function SendNotFound(): (r: Response)
    ensures r.status == 404 && r.contentType == TextPlain && r.body == "NOT FOUND\n"
  {
    Response(404, TextPlain, "NOT FOUND\n")
  }

  /** `send_error`: 500 Internal Server Error, plain text, `ERROR`. */
  function SendError(): (r: Response)
    ensures r.status == 500 && r.contentType == TextPlain && r.body == "ERROR\n"
  {
    Response(500, TextPlain, "ERROR\n")
  }

  /** The three fixed answers are told apart by their status alone, and none of them
      is JSON. */
  lemma FixedResponsesDiffer()
    ensures SendUnauthenticated().status != SendNotFound().status
    ensures SendNotFound().status != SendError().status
    ensures SendUnauthenticated().status != SendError().status
    ensures forall r :: r in {SendUnauthenticated(), SendNotFound(), SendError()} ==> r.contentType == TextPlain
  {
  }
}
