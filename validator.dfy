/** The two anchored recognisers of src/repo_radar/utils/validator.py.

    Both patterns are used with `re.match`, which anchors at the start, and
    end in `$`, which without the MULTILINE flag also matches just before a
    newline that ends the string. Each recogniser follows the pattern left
    to right as the regular-expression engine does; no backtracking changes
    the outcome, because every optional piece and every character run is
    followed by a character its alternative cannot start with. Each comes
    with an independent description of the strings it accepts. */
module Validator {
  import opened Wrappers
  import opened PyText

  /** `[a-zA-Z0-9_.-]`, the class of the owner and repository segments. */
  predicate RepoSegmentChar(c: char) {
    IsAsciiAlnum(c) || c == '_' || c == '.' || c == '-'
  }

  /** `[a-zA-Z0-9-]`, the class of a username. */
  predicate UsernameChar(c: char) {
    IsAsciiAlnum(c) || c == '-'
  }

  predicate IsRepoSegment(s: string) {
    |s| > 0 && forall i :: 0 <= i < |s| ==> RepoSegmentChar(s[i])
  }

  /** Python's `$` at position `i`: the end of the string, or the position
      of a final newline. */
  predicate EndAt(s: string, i: nat) {
    i == |s| || (i + 1 == |s| && s[i] == '\n')
  }

  /** The text after the literal prefix `lit`, if `s` starts with it. */
  function DropPrefix(s: string, lit: string): (r: Option<string>)
    ensures r.Some? <==> HasPrefix(s, lit)
    ensures r.Some? ==> s == lit + r.value
  {
    if HasPrefix(s, lit) then
      assert s == s[..|lit|] + s[|lit|..];
      Some(s[|lit|..])
    else None
  }

  lemma {:induction false} DropPrefixOfConcat(lit: string, t: string)
    ensures DropPrefix(lit + t, lit) == Some(t)
  {
    assert (lit + t)[..|lit|] == lit;
    assert (lit + t)[|lit|..] == t;
  }

  // ---------------------------------------------------------------------
  // is_valid_github_repo_url

  /** What a match of the repository pattern fixes: `https` or `http`, the
      optional `www.`, the two segments, the optional final `/`, and
      whether a final newline let `$` match. */
  datatype RepoUrl = RepoUrl(secure: bool, www: bool, owner: string, repo: string, slash: bool, newline: bool)

  predicate WellFormed(u: RepoUrl) {
    IsRepoSegment(u.owner) && IsRepoSegment(u.repo)
  }

  function SchemeText(secure: bool): string {
    if secure then "https://" else "http://"
  }

  function HostText(www: bool): string {
    if www then "www.github.com/" else "github.com/"
  }

  function TailText(slash: bool, newline: bool): string {
    (if slash then "/" else "") + (if newline then "\n" else "")
  }

  /** The text a match describes. */
  function RepoUrlText(u: RepoUrl): string {
    SchemeText(u.secure) + (HostText(u.www) + (u.owner + ("/" + (u.repo + TailText(u.slash, u.newline)))))
  }

  /** `https?://`: `http`, an optional `s`, then `://`. */
  function MatchScheme(s: string): (r: Option<(bool, string)>)
    ensures r.Some? ==> s == SchemeText(r.value.0) + r.value.1
  {
    if HasPrefix(s, "https://") then Some((true, DropPrefix(s, "https://").value))
    else if HasPrefix(s, "http://") then Some((false, DropPrefix(s, "http://").value))
    else None
  }

  /** `(www\.)?github\.com/`. */
  function MatchHost(s: string): (r: Option<(bool, string)>)
    ensures r.Some? ==> s == HostText(r.value.0) + r.value.1
  {
    if HasPrefix(s, "www.github.com/") then Some((true, DropPrefix(s, "www.github.com/").value))
    else if HasPrefix(s, "github.com/") then Some((false, DropPrefix(s, "github.com/").value))
    else None
  }

  /** `[a-zA-Z0-9_.-]+`, greedy: the longest nonempty run of segment
      characters. */
  function MatchSegment(s: string): (r: Option<(string, string)>)
    ensures r.Some? ==>
      IsRepoSegment(r.value.0) && s == r.value.0 + r.value.1
      && (r.value.1 == [] || !RepoSegmentChar(r.value.1[0]))
  {
    var n := RunLen(s, 0, RepoSegmentChar);
    if n == 0 then None
    else
      assert s == s[..n] + s[n..];
      Some((s[..n], s[n..]))
  }

  /** `/?$`: an optional slash, then the end or a final newline. */
  function MatchTail(s: string): (r: Option<(bool, bool)>)
    ensures r.Some? ==> s == TailText(r.value.0, r.value.1)
  {
    var slash := HasPrefix(s, "/");
    var rest := if slash then DropPrefix(s, "/").value else s;
    if rest == "" then Some((slash, false))
    else if rest == "\n" then Some((slash, true))
    else None
  }

  /** `[a-zA-Z0-9_.-]+/?$`: the repository segment and what may follow
      it. */
  function MatchRepoTail(s: string): (r: Option<(string, bool, bool)>)
    ensures r.Some? ==> IsRepoSegment(r.value.0) && s == r.value.0 + TailText(r.value.1, r.value.2)
  {
    match MatchSegment(s)
    case None => None
    case Some((repo, afterRepo)) =>
      match MatchTail(afterRepo)
      case None => None
      case Some((slash, newline)) => Some((repo, slash, newline))
  }

  /** `[a-zA-Z0-9_.-]+/[a-zA-Z0-9_.-]+/?$`: the path after the host. */
  function MatchPath(s: string): (r: Option<(string, string, bool, bool)>)
    ensures r.Some? ==>
      IsRepoSegment(r.value.0) && IsRepoSegment(r.value.1)
      && s == r.value.0 + ("/" + (r.value.1 + TailText(r.value.2, r.value.3)))
  {
    match MatchSegment(s)
    case None => None
    case Some((owner, afterOwner)) =>
      match DropPrefix(afterOwner, "/")
      case None => None
      case Some(afterSlash) =>
        match MatchRepoTail(afterSlash)
        case None => None
        case Some((repo, slash, newline)) => Some((owner, repo, slash, newline))
  }

  /** `re.match(GITHUB_URL_PATTERN, url)`, with what it matched. Whatever
      it accepts is a well-formed repository URL, written back exactly. */
  function MatchRepoUrl(url: string): (r: Option<RepoUrl>)
    ensures r.Some? ==> WellFormed(r.value) && RepoUrlText(r.value) == url
  {
    match MatchScheme(url)
    case None => None
    case Some((secure, afterScheme)) =>
      match MatchHost(afterScheme)
      case None => None
      case Some((www, afterHost)) =>
        match MatchPath(afterHost)
        case None => None
        case Some((owner, repo, slash, newline)) => Some(RepoUrl(secure, www, owner, repo, slash, newline))
  }

  /** `is_valid_github_repo_url(url)`. */
  predicate IsValidGithubRepoUrl(url: string) {
    MatchRepoUrl(url).Some?
  }

  lemma {:induction false} SchemeOfText(secure: bool, t: string)
    ensures MatchScheme(SchemeText(secure) + t) == Some((secure, t))
  {
    DropPrefixOfConcat(SchemeText(secure), t);
    if !secure {
      assert ("http://" + t)[4] == ':';
    }
  }

  lemma {:induction false} HostOfText(www: bool, t: string)
    ensures MatchHost(HostText(www) + t) == Some((www, t))
  {
    DropPrefixOfConcat(HostText(www), t);
    if !www {
      assert ("github.com/" + t)[0] == 'g';
    }
  }

  lemma {:induction false} SegmentOfText(seg: string, t: string)
    requires IsRepoSegment(seg)
    requires t == [] || !RepoSegmentChar(t[0])
    ensures MatchSegment(seg + t) == Some((seg, t))
  {
    var s := seg + t;
    var n := RunLen(s, 0, RepoSegmentChar);
    assert forall k :: 0 <= k < |seg| ==> s[k] == seg[k];
    assert t != [] ==> s[|seg|] == t[0];
    assert s[..n] == seg && s[n..] == t;
  }

  lemma {:induction false} TailOfText(slash: bool, newline: bool)
    ensures MatchTail(TailText(slash, newline)) == Some((slash, newline))
  {
    var end := if newline then "\n" else "";
    if slash {
      assert TailText(slash, newline) == "/" + end;
      DropPrefixOfConcat("/", end);
    } else {
      assert TailText(slash, newline) == end;
      assert !HasPrefix(end, "/") by {
        if newline {
          assert end[..1] != "/" by { assert end[..1][0] == '\n'; }
        }
      }
    }
  }

  /** The optional slash and newline cannot extend a segment. */
  lemma {:induction false} TailEndsSegment(slash: bool, newline: bool)
    ensures var t := TailText(slash, newline); t == [] || !RepoSegmentChar(t[0])
  {
  }

  lemma {:induction false} RepoTailOfText(repo: string, slash: bool, newline: bool)
    requires IsRepoSegment(repo)
    ensures MatchRepoTail(repo + TailText(slash, newline)) == Some((repo, slash, newline))
  {
    TailEndsSegment(slash, newline);
    SegmentOfText(repo, TailText(slash, newline));
    TailOfText(slash, newline);
  }

  lemma {:induction false} PathOfText(owner: string, repo: string, slash: bool, newline: bool)
    requires IsRepoSegment(owner) && IsRepoSegment(repo)
    ensures MatchPath(owner + ("/" + (repo + TailText(slash, newline)))) == Some((owner, repo, slash, newline))
  {
    var afterSlash := repo + TailText(slash, newline);
    SegmentOfText(owner, "/" + afterSlash);
    DropPrefixOfConcat("/", afterSlash);
    RepoTailOfText(repo, slash, newline);
  }

  /** Every well-formed repository URL is accepted, and the match returns
      its parts. */
  lemma {:induction false} MatchRepoUrlComplete(u: RepoUrl)
    requires WellFormed(u)
    ensures MatchRepoUrl(RepoUrlText(u)) == Some(u)
  {
    var afterHost := u.owner + ("/" + (u.repo + TailText(u.slash, u.newline)));
    SchemeOfText(u.secure, HostText(u.www) + afterHost);
    HostOfText(u.www, afterHost);
    PathOfText(u.owner, u.repo, u.slash, u.newline);
  }

  /** So a URL is valid exactly when it is the text of a well-formed
      repository URL: `http://` or `https://`, an optional `www.`,
      `github.com/`, two nonempty segments over `[a-zA-Z0-9_.-]` separated
      by `/`, an optional `/`, and an optional final newline. */
  lemma {:induction false} RepoUrlValidIff(url: string)
    ensures IsValidGithubRepoUrl(url) <==> exists u :: WellFormed(u) && RepoUrlText(u) == url
  {
    if exists u :: WellFormed(u) && RepoUrlText(u) == url {
      var u :| WellFormed(u) && RepoUrlText(u) == url;
      MatchRepoUrlComplete(u);
    }
  }

  /** After the repository segment and a `/`, anything but the end or a
      final newline is rejected: a third path segment, a second slash. */
  lemma {:induction false} ThirdSegmentRejected(secure: bool, www: bool, owner: string, repo: string, rest: string)
    requires IsRepoSegment(owner) && IsRepoSegment(repo)
    requires rest != "" && rest != "\n"
    ensures !IsValidGithubRepoUrl(SchemeText(secure) + (HostText(www) + (owner + ("/" + (repo + ("/" + rest))))))
  {
    var afterSlash := repo + ("/" + rest);
    var afterHost := owner + ("/" + afterSlash);
    SchemeOfText(secure, HostText(www) + afterHost);
    HostOfText(www, afterHost);
    assert MatchPath(afterHost) == None by {
      SegmentOfText(owner, "/" + afterSlash);
      DropPrefixOfConcat("/", afterSlash);
      ExtraSegmentRejected(repo, rest);
    }
  }

  lemma {:induction false} ExtraSegmentRejected(repo: string, rest: string)
    requires IsRepoSegment(repo)
    requires rest != "" && rest != "\n"
    ensures MatchRepoTail(repo + ("/" + rest)) == None
  {
    SegmentOfText(repo, "/" + rest);
    DropPrefixOfConcat("/", rest);
  }

  /** A host other than `github.com` or `www.github.com` is rejected. */
  lemma {:induction false} OtherHostRejected(secure: bool, rest: string)
    requires !HasPrefix(rest, "github.com/") && !HasPrefix(rest, "www.github.com/")
    ensures !IsValidGithubRepoUrl(SchemeText(secure) + rest)
  {
    SchemeOfText(secure, rest);
  }

  /** The match is anchored at the start, so a nonempty text whose first
      character is not the 'h' of the scheme is rejected, the
      `git@github.com:` form among them. */
  lemma {:induction false} LeadingTextRejected(url: string)
    requires |url| > 0 && url[0] != 'h'
    ensures !IsValidGithubRepoUrl(url)
  {
  }

  /** Past the scheme, a repository URL holds no ':'; the segment class
      leaves it out. */
  lemma {:induction false} NoColonAfterScheme(u: RepoUrl)
    requires WellFormed(u)
    ensures ':' !in HostText(u.www) + (u.owner + ("/" + (u.repo + TailText(u.slash, u.newline))))
  {
    assert !RepoSegmentChar(':');
  }

  /** A valid text is a scheme followed by text without a ':'. */
  lemma {:induction false} ValidUrlSplits(url: string) returns (secure: bool, rest: string)
    requires IsValidGithubRepoUrl(url)
    ensures url == SchemeText(secure) + rest && ':' !in rest
  {
    var v := MatchRepoUrl(url).value;
    NoColonAfterScheme(v);
    secure := v.secure;
    rest := HostText(v.www) + (v.owner + ("/" + (v.repo + TailText(v.slash, v.newline))));
  }

  /** A text that starts with a scheme and has no ':' after it holds
      another scheme only at its start: that scheme's ':' must be the
      first one. */
  lemma {:induction false} SchemeOnlyAtStart(pre: string, a: bool, ra: string, b: bool, rb: string)
    requires pre + (SchemeText(a) + ra) == SchemeText(b) + rb && ':' !in rb
    ensures pre == []
  {
    var w := SchemeText(b) + rb;
    var sa, sb := SchemeText(a), SchemeText(b);
    var k := |pre| + |sa| - 3;
    assert pre + (sa + ra) == (pre + sa) + ra;
    assert w[k] == sa[|sa| - 3] == ':';
    assert forall j :: |sb| <= j < |w| ==> w[j] == rb[j - |sb|];
    assert forall j :: 0 <= j < |sb| && j != |sb| - 3 ==> sb[j] != ':';
    assert k == |sb| - 3;
    assert w[1] == sb[1] == 't';
    assert w[|pre|] == sa[0] == 'h';
  }

  /** Text put before any well-formed repository URL makes it invalid: the
      match is anchored, and the scheme must begin the text. */
  lemma {:induction false} PrefixedUrlRejected(pre: string, u: RepoUrl)
    requires |pre| > 0 && WellFormed(u)
    ensures !IsValidGithubRepoUrl(pre + RepoUrlText(u))
  {
    var w := pre + RepoUrlText(u);
    if IsValidGithubRepoUrl(w) {
      var b, rb := ValidUrlSplits(w);
      var ra := HostText(u.www) + (u.owner + ("/" + (u.repo + TailText(u.slash, u.newline))));
      SchemeOnlyAtStart(pre, u.secure, ra, b, rb);
      assert false;
    }
  }

  lemma {:induction false} SshFormRejected(rest: string)
    ensures !IsValidGithubRepoUrl("git@github.com:" + rest)
  {
    LeadingTextRejected("git@github.com:" + rest);
  }

  /** Setting the newline flag appends the newline. */
  lemma {:induction false} NewlineAppends(u: RepoUrl)
    requires !u.newline
    ensures RepoUrlText(u.(newline := true)) == RepoUrlText(u) + "\n"
  {
    var t := TailText(u.slash, false);
    assert TailText(u.slash, true) == t + "\n";
    var a := u.repo + t;
    var b := "/" + a;
    var c := u.owner + b;
    var d := HostText(u.www) + c;
    assert u.repo + (t + "\n") == a + "\n";
    assert "/" + (a + "\n") == b + "\n";
    assert u.owner + (b + "\n") == c + "\n";
    assert HostText(u.www) + (c + "\n") == d + "\n";
    assert SchemeText(u.secure) + (d + "\n") == (SchemeText(u.secure) + d) + "\n";
  }

  /** Python's `$`: a valid URL followed by one newline is valid too. */
  lemma {:induction false} FinalNewlineAccepted(url: string)
    requires IsValidGithubRepoUrl(url)
    requires url[|url| - 1] != '\n'
    ensures IsValidGithubRepoUrl(url + "\n")
  {
    var u := MatchRepoUrl(url).value;
    NewlineAppends(u);
    MatchRepoUrlComplete(u.(newline := true));
  }

  // ---------------------------------------------------------------------
  // is_valid_github_username

  const MaxUsernameLength := 39

  /** What the username pattern describes before `$`: 1 to 39 username
      characters. */
  predicate IsUsernameBody(b: string) {
    1 <= |b| <= MaxUsernameLength && forall i :: 0 <= i < |b| ==> UsernameChar(b[i])
  }

  /** `re.match(r"^[a-zA-Z0-9-]{1,39}$", username)`: the greedy repetition
      takes up to 39 username characters and `$` must hold right after
      them; taking fewer cannot help, since the next character would be a
      username character, which neither ends the string nor is a
      newline. */
  predicate IsValidGithubUsername(username: string) {
    var run := RunLen(username, 0, UsernameChar);
    var n := if run < MaxUsernameLength then run else MaxUsernameLength;
    1 <= n && EndAt(username, n)
  }

  /** A username is valid exactly when it is 1 to 39 username characters,
      possibly followed by one newline. */
  lemma {:induction false} UsernameValidIff(username: string)
    ensures IsValidGithubUsername(username) <==>
      IsUsernameBody(username)
      || (|username| > 0 && username[|username| - 1] == '\n' && IsUsernameBody(username[..|username| - 1]))
  {
    var run := RunLen(username, 0, UsernameChar);
    var n := if run < MaxUsernameLength then run else MaxUsernameLength;
    if |username| > 0 && username[|username| - 1] == '\n' && IsUsernameBody(username[..|username| - 1]) {
      var b := username[..|username| - 1];
      assert !UsernameChar(username[|b|]);
    }
    if IsValidGithubUsername(username) {
      assert username[..n] == username[..n];
      if n + 1 == |username| {
        assert username[..|username| - 1] == username[..n];
      }
    }
  }

  /** The empty string and anything longer than 40 characters are not
      usernames, and neither is a 40-character string unless its last
      character is the newline `$` allows. */
  lemma {:induction false} UsernameLengthBounds(username: string)
    requires |username| == 0 || |username| > 40 || (|username| == 40 && username[39] != '\n')
    ensures !IsValidGithubUsername(username)
  {
    UsernameValidIff(username);
  }

  /** `_` is a repository-segment character but not a username one. */
  lemma {:induction false} UnderscoreRejectedInUsername(username: string, i: nat)
    requires i < |username| && username[i] == '_'
    ensures !IsValidGithubUsername(username)
  {
    UsernameValidIff(username);
  }

  /** So an owner segment holding `_` is accepted in a repository URL but
      is never a valid username. */
  lemma {:induction false} UnderscoreOnlyInRepoUrls(secure: bool, www: bool, owner: string, repo: string, i: nat)
    requires IsRepoSegment(owner) && IsRepoSegment(repo)
    requires i < |owner| && owner[i] == '_'
    ensures IsValidGithubRepoUrl(RepoUrlText(RepoUrl(secure, www, owner, repo, false, false)))
    ensures !IsValidGithubUsername(owner)
  {
    MatchRepoUrlComplete(RepoUrl(secure, www, owner, repo, false, false));
    UnderscoreRejectedInUsername(owner, i);
  }
}
