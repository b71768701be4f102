/** The request shapes and status decisions of src/repo_radar/api/github_api.py.
    The network is a parameter `send`: the response the server gives to a
    request. Each call reports the requests it sent together with its
    outcome, so that "no request is made" can be stated. The user endpoint
    and the page-size bound are parameters as well: src/repo_radar/config.py
    does not define `GITHUB_API_USER_ENDPOINT` or `GITHUB_MAX_PAGINATED`. */
module GitHubApi {
  import opened Wrappers
  import opened PyText
  import opened Http
  import opened GitHubTokens
  import opened GitHubParsers

  /** The two exceptions the functions raise: `HTTPError` from
      `raise_for_status()` and the `ValueError` for a bad page size. */
  datatype ApiError = HttpStatus(status: int) | PerPageOutOfRange(perPage: int)

  /** What a call did: the requests it sent, in order, and what it returned
      or raised. */
  datatype Call<T> = Call(sent: seq<Request>, result: Result<T, ApiError>)

  /** What `validate_github_token` hands back: the response object itself,
      or, for an exhausted rate limit, the response's decoded body. */
  datatype Validation = ResponseReturned(response: Response) | JsonReturned(body: string)

  const PerPageParam: string := "per_page"

  /** `raise_for_status()` as an outcome. */
  function RaiseForStatus(r: Response): (res: Result<Response, ApiError>)
    ensures res.Failure? <==> IsErrorStatus(r.status)
    ensures res.Failure? ==> res.error == HttpStatus(r.status)
    ensures res.Success? ==> res.value == r
  {
    if IsErrorStatus(r.status) then Failure(HttpStatus(r.status)) else Success(r)
  }

  /** The request of `validate_github_token`: the user endpoint, the token in
      the headers. */
  function ValidateRequest(token: GitHubToken, userEndpoint: string): Request {
    Request(userEndpoint, map[], ToHeader(token))
  }

  /** The decision of `validate_github_token` on the response it got. An
      error status is raised, except a 403 whose remaining-quota header is
      exactly "0": the token is then valid but exhausted, and the JSON body
      comes back instead of the response. */
  function ValidationOutcome(r: Response): (res: Result<Validation, ApiError>)
    ensures !IsErrorStatus(r.status) ==> res == Success(ResponseReturned(r))
    ensures IsErrorStatus(r.status) ==>
      (res.Success? <==> r.status == 403 && HeaderGet(r.headers, "X-RateLimit-Remaining") == Some("0"))
    ensures res.Success? && IsErrorStatus(r.status) ==> res.value == JsonReturned(r.body)
    ensures res.Failure? ==> res.error == HttpStatus(r.status)
  {
    match RaiseForStatus(r)
    case Success(_) => Success(ResponseReturned(r))
    case Failure(err) =>
      if r.status == 403 && HeaderGet(r.headers, "X-RateLimit-Remaining") == Some("0") then
        Success(JsonReturned(r.body))
      else Failure(err)
  }

  /** `validate_github_token(token)`. */
  function ValidateGithubToken(token: GitHubToken, userEndpoint: string, send: Request -> Response): (c: Call<Validation>)
    ensures c.sent == [ValidateRequest(token, userEndpoint)]
    ensures c.result == ValidationOutcome(send(ValidateRequest(token, userEndpoint)))
  {
    var req := ValidateRequest(token, userEndpoint);
    Call([req], ValidationOutcome(send(req)))
  }

  /** A rate-limited 403 validates only when the header is exactly "0":
      any other value, or no header, is raised. */
  lemma {:induction false} ForbiddenWithQuotaLeftIsRaised(r: Response)
    requires r.status == 403
    requires HeaderGet(r.headers, "X-RateLimit-Remaining") != Some("0")
    ensures ValidationOutcome(r) == Failure(HttpStatus(403))
  {
  }

  /** `get_github_url(token, url)`: the header map goes into the second
      positional argument of `requests.get`, which is `params`. */
  function GetRequest(token: GitHubToken, url: string): Request {
    Request(url, ToHeader(token), map[])
  }

  function GetGithubUrl(token: GitHubToken, url: string, send: Request -> Response): (c: Call<Response>)
    ensures c.sent == [GetRequest(token, url)]
    ensures c.result == RaiseForStatus(send(GetRequest(token, url)))
  {
    var req := GetRequest(token, url);
    Call([req], RaiseForStatus(send(req)))
  }

  /** So the token of `get_github_url` travels as a query parameter and the
      request carries no headers. */
  lemma {:induction false} GetSendsTokenAsQuery(token: GitHubToken, url: string)
    ensures var req := GetRequest(token, url);
      && req.params.Keys == {AuthorizationHeader}
      && TokenOfAuthorization(req.params[AuthorizationHeader]) == Some(token.token)
      && req.headers == map[]
  {
    HeaderRoundTrip(token);
  }

  /** The request of `paginate_github_url`: the token in the headers and the
      page size as the only query parameter. */
  function PaginateRequest(token: GitHubToken, url: string, perPage: int): Request {
    Request(url, map[PerPageParam := IntToString(perPage)], ToHeader(token))
  }

  function PaginateGithubUrl(token: GitHubToken, url: string, perPage: int, maxPaginated: int, send: Request -> Response)
    : (c: Call<(Response, Option<string>)>)
    ensures !(1 <= perPage <= maxPaginated) ==> c == Call([], Failure(PerPageOutOfRange(perPage)))
    ensures 1 <= perPage <= maxPaginated ==>
      var r := send(PaginateRequest(token, url, perPage));
      && c.sent == [PaginateRequest(token, url, perPage)]
      && (c.result.Failure? <==> IsErrorStatus(r.status))
      && (c.result.Failure? ==> c.result.error == HttpStatus(r.status))
      && (c.result.Success? ==> c.result.value == (r, NextPaginatedUrl(LinkHeader(r))))
  {
    if !(1 <= perPage <= maxPaginated) then Call([], Failure(PerPageOutOfRange(perPage)))
    else
      var req := PaginateRequest(token, url, perPage);
      match RaiseForStatus(send(req))
      case Failure(err) => Call([req], Failure(err))
      case Success(response) => Call([req], Success((response, NextPaginatedUrl(LinkHeader(response)))))
  }

  /** The page size goes out as its decimal text, which reads back as the
      same number, and the token goes in the headers. */
  lemma {:induction false} PaginateSendsTokenAsHeader(token: GitHubToken, url: string, perPage: int)
    ensures var req := PaginateRequest(token, url, perPage);
      && req.params.Keys == {PerPageParam}
      && ParseInt(req.params[PerPageParam]) == Some(perPage)
      && req.headers.Keys == {AuthorizationHeader}
      && TokenOfAuthorization(req.headers[AuthorizationHeader]) == Some(token.token)
  {
    ParseIntRoundTrip(perPage);
    HeaderRoundTrip(token);
  }

  /** Both fetchers raise the HTTP error for any error status the server
      answers with. */
  lemma {:induction false} ErrorStatusPropagates(token: GitHubToken, url: string, perPage: int, maxPaginated: int, send: Request -> Response)
    requires 1 <= perPage <= maxPaginated
    requires IsErrorStatus(send(PaginateRequest(token, url, perPage)).status)
    requires IsErrorStatus(send(GetRequest(token, url)).status)
    ensures PaginateGithubUrl(token, url, perPage, maxPaginated, send).result
            == Failure(HttpStatus(send(PaginateRequest(token, url, perPage)).status))
    ensures GetGithubUrl(token, url, send).result == Failure(HttpStatus(send(GetRequest(token, url)).status))
  {
  }
}
