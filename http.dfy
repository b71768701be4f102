/** The parts of an HTTP exchange the modelled code looks at. The network
    itself is not modelled: a response is whatever the server sent. */
module Http {
  import opened Wrappers

  /** Header names are compared exactly here; the case-insensitive lookup of
      the HTTP library is not modelled. */
  type Headers = map<string, string>

  datatype Response = Response(status: int, headers: Headers, body: string)

  /** One outgoing GET: the URL, its query parameters and its headers. */
  datatype Request = Request(url: string, params: map<string, string>, headers: Headers)

  datatype HttpError = HttpError(status: int)

  /** `headers.get(name)`. */
  function HeaderGet(h: Headers, name: string): (r: Option<string>)
    ensures r.Some? <==> name in h
    ensures r.Some? ==> r.value == h[name]
  {
    if name in h then Some(h[name]) else None
  }

  /** `raise_for_status()` raises exactly for a client (4xx) or server (5xx)
      error status. */
  predicate IsErrorStatus(status: int) {
    400 <= status < 600
  }
}
