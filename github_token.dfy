/** The static bearer credential, `GitHubToken` in
    src/repo_radar/models/github_token.py. */
module GitHubTokens {
  import opened Wrappers
  import opened PyText

  datatype GitHubToken = GitHubToken(token: string)

  const AuthorizationHeader: string := "Authorization"
  const BearerPrefix: string := "Bearer "

  /** `to_header()`: one `Authorization` header whose value is the bearer
      scheme of section 2.1 of RFC 6750 followed by the token. */
  function ToHeader(t: GitHubToken): (h: map<string, string>)
    ensures h.Keys == {AuthorizationHeader}
    ensures HasPrefix(h[AuthorizationHeader], BearerPrefix)
    ensures h[AuthorizationHeader][|BearerPrefix|..] == t.token
  {
    map[AuthorizationHeader := BearerPrefix + t.token]
  }

  /** The token a server reads back from an `Authorization` value, if it
      uses the bearer scheme. */
  function TokenOfAuthorization(value: string): Option<string> {
    if HasPrefix(value, BearerPrefix) then Some(value[|BearerPrefix|..]) else None
  }

  lemma {:induction false} HeaderRoundTrip(t: GitHubToken)
    ensures TokenOfAuthorization(ToHeader(t)[AuthorizationHeader]) == Some(t.token)
  {
  }

  /** Distinct tokens never produce the same header value. */
  lemma {:induction false} HeaderInjective(a: GitHubToken, b: GitHubToken)
    requires a != b
    ensures ToHeader(a)[AuthorizationHeader] != ToHeader(b)[AuthorizationHeader]
  {
    HeaderRoundTrip(a);
    HeaderRoundTrip(b);
  }

  const ReprPrefix: string := "<GitHubToken token='"
  const ReprSuffix: string := "'>"

  /** `__repr__`, with the class name of `GitHubToken` itself. */
  function Repr(t: GitHubToken): (s: string)
    ensures |s| == |ReprPrefix| + |t.token| + |ReprSuffix|
    ensures HasPrefix(s, ReprPrefix)
  {
    ReprPrefix + t.token + ReprSuffix
  }

  /** Reads the token back out of a representation. */
  function TokenOfRepr(s: string): Option<string> {
    if |s| >= |ReprPrefix| + |ReprSuffix| && HasPrefix(s, ReprPrefix)
       && s[|s| - |ReprSuffix|..] == ReprSuffix
    then Some(s[|ReprPrefix|..|s| - |ReprSuffix|])
    else None
  }

  lemma {:induction false} ReprRoundTrip(t: GitHubToken)
    ensures TokenOfRepr(Repr(t)) == Some(t.token)
  {
    var s := Repr(t);
    assert s[|s| - |ReprSuffix|..] == ReprSuffix;
    assert s[|ReprPrefix|..|s| - |ReprSuffix|] == t.token;
  }
}
