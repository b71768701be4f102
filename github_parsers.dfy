/** The `Link` header readers and the repository-URL scanner of
    src/repo_radar/utils/github_parsers.py.

    `extract_github_urls` runs `finditer` with the repository-URL pattern of
    src/repo_radar/config.py:11-17. That pattern reads, in order: an optional
    scheme (`https://`, `http://` or `git@`), an optional `www.`, the host
    `github.com` followed by `/` or `:`, a nonempty owner of word characters
    and `-`, a `/`, a nonempty repository name of the same characters, an
    optional `.git`, and an optional tail made of a `/` and every following
    non-whitespace character.

    The pattern needs no backtracking: every optional prefix starts with a
    letter other than the `g` of `github`, the segment class excludes `/`,
    and everything after the repository name is optional, so the first
    (greedy) choice always succeeds. `MatchAt` reads it left to right in
    that way. The word class is a parameter, `word`, since Python's Unicode
    word class is not modelled; lemmas that need it assume it contains the
    ASCII letters, digits and `_` and excludes `/`, `.` and whitespace. */
module GitHubParsers {
  import opened Wrappers
  import opened PyText
  import opened Http
  import opened GitHubUrls

  /** `response.headers.get("Link", "")`. */
  function LinkHeader(r: Response): string {
    HeaderGet(r.headers, "Link").GetOr("")
  }

  /** `paginated_has_next`: an empty or missing `Link` header means no next
      page; otherwise the answer is `re.search(LINK_HEADER_NEXT_REGEX, ...)`,
      given here as `nextRegex` because src/repo_radar/config.py does not
      define `LINK_HEADER_NEXT_REGEX`. */
  predicate PaginatedHasNext(r: Response, nextRegex: string -> bool) {
    LinkHeader(r) != "" && nextRegex(LinkHeader(r))
  }

  lemma {:induction false} NoLinkNoNext(r: Response, nextRegex: string -> bool)
    requires LinkHeader(r) == ""
    ensures !PaginatedHasNext(r, nextRegex)
  {
  }

  const NextRel: string := "rel=\"next\""

  /** A comma-separated part of the header yields a URL when it splits on `;`
      into exactly two sections and the second mentions `rel="next"`. */
  predicate Qualifies(part: string) {
    var sections := Split(part, ';');
    |sections| == 2 && Contains(sections[1], NextRel)
  }

  /** Python's `t[1:-1]`: both end characters dropped; strings shorter than
      two characters give "". */
  function DropEnds(t: string): (r: string)
    ensures |t| >= 2 ==> |r| == |t| - 2 && t == [t[0]] + r + [t[|t| - 1]]
    ensures |t| < 2 ==> r == ""
  {
    if |t| >= 2 then t[1..|t| - 1] else ""
  }

  /** `section[0].strip()[1:-1]` of a qualifying part: the `<` and `>` are
      assumed, not checked. */
  function UrlOfPart(part: string): string {
    DropEnds(Strip(Split(part, ';')[0]))
  }

  /** The index of the first qualifying part, or `|parts|` when none does. */
  function FirstQualifying(parts: seq<string>): (i: nat)
    ensures i <= |parts|
    ensures forall j :: 0 <= j < i ==> !Qualifies(parts[j])
    ensures i < |parts| ==> Qualifies(parts[i])
  {
    if |parts| == 0 then 0
    else if Qualifies(parts[0]) then 0
    else 1 + FirstQualifying(parts[1..])
  }

  /** What `get_next_paginated_url` returns for a `Link` header value. */
  function NextPaginatedUrl(link: string): Option<string> {
    if link == "" then None
    else
      var parts := Split(link, ',');
      var i := FirstQualifying(parts);
      if i < |parts| then Some(UrlOfPart(parts[i])) else None
  }

  /** `get_next_paginated_url`: scans the comma-separated parts left to
      right and stops at the first qualifying one. */
  method GetNextPaginatedUrl(response: Response) returns (nextUrl: Option<string>)
    ensures nextUrl == NextPaginatedUrl(LinkHeader(response))
    ensures LinkHeader(response) == "" ==> nextUrl == None
    ensures nextUrl.None? <==> LinkHeader(response) == "" || forall j :: 0 <= j < |Split(LinkHeader(response), ',')| ==> !Qualifies(Split(LinkHeader(response), ',')[j])
  {
    var linkHeader := LinkHeader(response);
    nextUrl := None;
    if linkHeader != "" {
      var parts := Split(linkHeader, ',');
      var k := 0;
      while k < |parts|
        invariant 0 <= k <= |parts|
        invariant forall j :: 0 <= j < k ==> !Qualifies(parts[j])
        invariant nextUrl == None
      {
        var section := Split(parts[k], ';');
        if |section| == 2 && Contains(section[1], NextRel) {
          nextUrl := Some(DropEnds(Strip(section[0])));
          break;
        }
        k := k + 1;
      }
      assert k < |parts| ==> FirstQualifying(parts) == k;
    }
  }

  /** The part GitHub sends for the next page, `<u>; rel="next"`, gives back
      `u`, provided `u` holds neither separator. */
  lemma {:induction false} NextUrlRoundTrip(u: string)
    requires ',' !in u && ';' !in u
    ensures NextPaginatedUrl(NextLinkPart(u)) == Some(u)
  {
    NextLinkPartShape(u);
    SplitWithoutSeparator(NextLinkPart(u), ',');
  }

  /** The same with further parts after the next link, as in
      `<u>; rel="next", <v>; rel="last"`. */
  lemma {:induction false} NextUrlRoundTripWithRest(u: string, rest: string)
    requires ',' !in u && ';' !in u
    ensures NextPaginatedUrl(NextLinkPart(u) + "," + rest) == Some(u)
  {
    NextLinkPartShape(u);
    assert NextLinkPart(u) + "," + rest == NextLinkPart(u) + [','] + rest;
    SplitAtFirst(NextLinkPart(u), ',', rest);
  }

  /** A `Link` header part announcing `u` as the next page. */
  function NextLinkPart(u: string): string {
    "<" + u + ">;" + NextSection
  }

  const NextSection: string := " rel=\"next\""

  lemma {:induction false} NextLinkPartShape(u: string)
    requires ',' !in u && ';' !in u
    ensures ',' !in NextLinkPart(u)
    ensures Qualifies(NextLinkPart(u)) && UrlOfPart(NextLinkPart(u)) == u
  {
    NextSectionNamesNext();
    NextSectionHasNoSeparator();
    QualifyingPartGivesUrl(u, NextSection);
    var front := "<" + u + ">;";
    assert ',' !in front;
    assert NextLinkPart(u) == front + NextSection;
  }

  lemma {:induction false} NextSectionNamesNext()
    ensures Contains(NextSection, NextRel)
  {
    assert NextSection[1..] == NextRel;
    assert HasPrefix(NextSection[1..], NextRel);
  }

  lemma {:induction false} NextSectionHasNoSeparator()
    ensures ',' !in NextSection && ';' !in NextSection
  {
  }

  /** `<u>;` followed by a second section naming the next relation. */
  lemma {:induction false} QualifyingPartGivesUrl(u: string, second: string)
    requires ';' !in u && ';' !in second && Contains(second, NextRel)
    ensures Qualifies("<" + u + ">;" + second)
    ensures UrlOfPart("<" + u + ">;" + second) == u
  {
    TwoSections(u, second);
    BracketsDropped(u);
  }

  lemma {:induction false} TwoSections(u: string, second: string)
    requires ';' !in u && ';' !in second
    ensures Split("<" + u + ">;" + second, ';') == ["<" + u + ">", second]
  {
    var first := "<" + u + ">";
    assert "<" + u + ">;" + second == first + [';'] + second;
    assert forall k :: 0 <= k < |first| ==> first[k] == '<' || first[k] == '>' || first[k] in u;
    SplitAtFirst(first, ';', second);
    SplitWithoutSeparator(second, ';');
    assert [first] + [second] == [first, second];
  }

  lemma {:induction false} BracketsDropped(u: string)
    ensures DropEnds(Strip("<" + u + ">")) == u
  {
    var first := "<" + u + ">";
    StripKeepsUnpadded(first);
    assert first[1..|first| - 1] == u;
  }

  /** A leading part that does not split into exactly two sections is
      skipped, even when it mentions the next relation. */
  lemma {:induction false} MalformedPartIsSkipped(part: string, rest: string)
    requires ',' !in part
    requires |Split(part, ';')| != 2
    ensures NextPaginatedUrl(part + "," + rest) == NextPaginatedUrl(rest)
  {
    assert part + "," + rest == part + [','] + rest;
    SplitAtFirst(part, ',', rest);
    var parts := Split(part + "," + rest, ',');
    assert parts[1..] == Split(rest, ',');
    if rest == "" {
      assert Split(rest, ',') == [""];
      assert Split("", ';') == [""];
    }
  }

  // ---------------------------------------------------------------------
  // extract_github_urls

  /** Where one match lies in the text: it starts at `start`, the owner is
      `[ownerStart, ownerEnd)`, the repository `[repoStart, repoEnd)`, and the
      whole match ends at `end`. */
  datatype Span = Span(start: nat, ownerStart: nat, ownerEnd: nat, repoStart: nat, repoEnd: nat, end: nat)

  /** The owner and repository character class: word characters and `-`
      (the owner class also names `_`, already a word character). */
  predicate SegmentChar(word: char -> bool, c: char) {
    word(c) || c == '-'
  }

  /** The length of the run of segment characters starting at `i`. */
  function SegmentRun(s: string, i: nat, word: char -> bool): (n: nat)
    requires i <= |s|
    ensures i + n <= |s|
    ensures forall k :: i <= k < i + n ==> SegmentChar(word, s[k])
    ensures i + n == |s| || !SegmentChar(word, s[i + n])
  {
    RunLen(s, i, c => SegmentChar(word, c))
  }

  /** The word class as Python has it at least: ASCII letters, digits and
      `_` are word characters; `/`, `.` and whitespace are not. */
  ghost predicate WordClass(word: char -> bool) {
    && (forall c :: IsAsciiAlnum(c) ==> word(c))
    && (forall c :: IsSpace(c) ==> !word(c))
    && word('_') && !word('/') && !word('.')
  }

  /** The length of the optional scheme at `i`: `https://`, `http://`,
      `git@`, or none. */
  function SchemeLen(s: string, i: nat): nat {
    if At(s, i, "https://") then 8
    else if At(s, i, "http://") then 7
    else if At(s, i, "git@") then 4
    else 0
  }

  /** Where the optional path tail starting at `q` ends. A `/`
      takes the rest of the text up to the first whitespace; anything else
      ends the match at `q`. */
  function TailEnd(s: string, q: nat): (e: nat)
    requires q <= |s|
    ensures q <= e <= |s|
    ensures q < |s| && s[q] == '/' ==>
      && (forall k :: q <= k < e ==> !IsSpace(s[k]))
      && (e == |s| || IsSpace(s[e]))
    ensures !(q < |s| && s[q] == '/') ==> e == q
  {
    if q < |s| && s[q] == '/' then q + 1 + RunLen(s, q + 1, c => !IsSpace(c)) else q
  }

  /** Where the optional `.git` after the repository name ending at `e`
      ends. */
  function GitEnd(s: string, e: nat): (q: nat)
    requires e <= |s|
    ensures q == (if At(s, e, ".git") then e + 4 else e)
    ensures q <= |s|
  {
    if At(s, e, ".git") then e + 4 else e
  }

  /** Where the host must begin for a match at `i`: after the optional
      scheme and the optional `www.`. */
  function HostStart(s: string, i: nat): nat {
    var p1 := i + SchemeLen(s, i);
    if At(s, p1, "www.") then p1 + 4 else p1
  }

  /** `regex.match(s, i)`: the match of the pattern that starts at `i`. */
  function MatchAt(s: string, i: nat, word: char -> bool): (r: Option<Span>)
    requires i <= |s|
    ensures r.Some? ==> r.value.start == i && Placed(s, r.value)
  {
    var p2 := HostStart(s, i);
    if !At(s, p2, "github.com") || p2 + 10 >= |s| || !(s[p2 + 10] == '/' || s[p2 + 10] == ':') then None
    else
      var ownerStart := p2 + 11;
      var ownerEnd := ownerStart + SegmentRun(s, ownerStart, word);
      if ownerEnd == ownerStart || ownerEnd >= |s| || s[ownerEnd] != '/' then None
      else
        var repoStart := ownerEnd + 1;
        var repoEnd := repoStart + SegmentRun(s, repoStart, word);
        if repoEnd == repoStart then None
        else
          Some(Span(i, ownerStart, ownerEnd, repoStart, repoEnd, TailEnd(s, GitEnd(s, repoEnd))))
  }

  /** `regex.finditer(s)` from position `i`: matches left to right, the next
      search starting where the previous match ended. */
  function FindAll(s: string, i: nat, word: char -> bool): seq<Span>
    requires i <= |s|
    decreases |s| - i
  {
    if i == |s| then []
    else
      match MatchAt(s, i, word)
      case Some(m) => [m] + FindAll(s, m.end, word)
      case None => FindAll(s, i + 1, word)
  }

  /** The record built for one match: `group()`, `group("org_user")`,
      `group("repo")`. */
  function UrlOf(s: string, m: Span): GithubUrl
    requires Placed(s, m)
  {
    GithubUrl(s[m.start..m.end], s[m.ownerStart..m.ownerEnd], s[m.repoStart..m.repoEnd])
  }

  /** A span lies inside `s`, with its parts in order. */
  predicate Placed(s: string, m: Span) {
    && m.start + 11 <= m.ownerStart < m.ownerEnd
    && m.repoStart == m.ownerEnd + 1
    && m.repoStart < m.repoEnd <= m.end <= |s|
  }

  ghost predicate WellPlaced(s: string, spans: seq<Span>) {
    forall k :: 0 <= k < |spans| ==> Placed(s, spans[k])
  }

  function UrlsOf(s: string, spans: seq<Span>): (urls: seq<GithubUrl>)
    requires WellPlaced(s, spans)
    ensures |urls| == |spans|
    ensures forall k :: 0 <= k < |spans| ==> urls[k] == UrlOf(s, spans[k])
  {
    if |spans| == 0 then [] else [UrlOf(s, spans[0])] + UrlsOf(s, spans[1..])
  }

  /** The spans of `FindAll` are in the text, start at or after `i`, and do
      not overlap: each starts at or after the end of the one before. */
  lemma {:induction false} FindAllOrdered(s: string, i: nat, word: char -> bool)
    requires i <= |s|
    ensures WellPlaced(s, FindAll(s, i, word))
    ensures forall k :: 0 <= k < |FindAll(s, i, word)| ==> i <= FindAll(s, i, word)[k].start
    ensures forall k :: 0 < k < |FindAll(s, i, word)| ==> FindAll(s, i, word)[k - 1].end <= FindAll(s, i, word)[k].start
    decreases |s| - i
  {
    if i < |s| {
      match MatchAt(s, i, word)
      case Some(m) =>
        FindAllOrdered(s, m.end, word);
        var rest := FindAll(s, m.end, word);
        assert FindAll(s, i, word) == [m] + rest;
        SpansInOrder(s, m, rest, i);
      case None =>
        FindAllOrdered(s, i + 1, word);
        assert FindAll(s, i, word) == FindAll(s, i + 1, word);
    }
  }

  /** A placed span at `i` followed by ordered spans from its end on
      gives ordered spans from `i` on. */
  lemma {:induction false} SpansInOrder(s: string, m: Span, rest: seq<Span>, i: nat)
    requires Placed(s, m) && m.start == i
    requires WellPlaced(s, rest)
    requires forall k :: 0 <= k < |rest| ==> m.end <= rest[k].start
    requires forall k :: 0 < k < |rest| ==> rest[k - 1].end <= rest[k].start
    ensures WellPlaced(s, [m] + rest)
    ensures forall k :: 0 <= k < |[m] + rest| ==> i <= ([m] + rest)[k].start
    ensures forall k :: 0 < k < |[m] + rest| ==> ([m] + rest)[k - 1].end <= ([m] + rest)[k].start
  {
    assert forall k :: 0 < k < |rest| + 1 ==> ([m] + rest)[k] == rest[k - 1];
  }

  /** The records `extract_github_urls` builds from position `i` on. */
  function Extract(s: string, i: nat, word: char -> bool): seq<GithubUrl>
    requires i <= |s|
    decreases |s| - i
  {
    if i == |s| then []
    else
      match MatchAt(s, i, word)
      case Some(m) => [UrlOf(s, m)] + Extract(s, m.end, word)
      case None => Extract(s, i + 1, word)
  }

  /** `extract_github_urls(text)`: one record per match, in the order the
      matches appear. */
  method ExtractGithubUrls(text: string, word: char -> bool) returns (results: seq<GithubUrl>)
    ensures results == Extract(text, 0, word)
  {
    results := [];
    var i := 0;
    while i < |text|
      invariant i <= |text|
      invariant results + Extract(text, i, word) == Extract(text, 0, word)
      decreases |text| - i
    {
      var m := MatchAt(text, i, word);
      if m.Some? {
        var rest := Extract(text, m.value.end, word);
        assert results + [UrlOf(text, m.value)] + rest == results + ([UrlOf(text, m.value)] + rest);
        results := results + [UrlOf(text, m.value)];
        i := m.value.end;
      } else {
        i := i + 1;
      }
    }
  }

  /** The records are exactly those of the matches `FindAll` lists. */
  lemma {:induction false} ExtractIsFindAll(s: string, i: nat, word: char -> bool)
    requires i <= |s|
    ensures WellPlaced(s, FindAll(s, i, word))
    ensures Extract(s, i, word) == UrlsOf(s, FindAll(s, i, word))
    decreases |s| - i
  {
    FindAllOrdered(s, i, word);
    if i < |s| {
      match MatchAt(s, i, word)
      case Some(m) =>
        ExtractIsFindAll(s, m.end, word);
        var found := FindAll(s, i, word);
        assert found[1..] == FindAll(s, m.end, word);
      case None =>
        ExtractIsFindAll(s, i + 1, word);
    }
  }

  /** The optional scheme of the pattern. */
  const Schemes: set<string> := {"", "https://", "http://", "git@"}

  /** What may come before the host: an optional scheme, then an optional
      `www.`. */
  predicate HostPrefix(t: string) {
    t in Schemes || (|t| >= 4 && t[|t| - 4..] == "www." && t[..|t| - 4] in Schemes)
  }

  /** What a match captures: a nonempty owner and repository made of segment
      characters, the owner followed by `/`, and `github.com` with its
      separator right before the owner. */
  lemma {:induction false} MatchShape(s: string, i: nat, word: char -> bool)
    requires i <= |s| && MatchAt(s, i, word).Some?
    ensures var m := MatchAt(s, i, word).value;
      && At(s, m.ownerStart - 11, "github.com")
      && (s[m.ownerStart - 1] == '/' || s[m.ownerStart - 1] == ':')
      && s[m.ownerEnd] == '/'
      && (forall k :: m.ownerStart <= k < m.ownerEnd ==> SegmentChar(word, s[k]))
      && (forall k :: m.repoStart <= k < m.repoEnd ==> SegmentChar(word, s[k]))
      && (m.repoEnd == |s| || !SegmentChar(word, s[m.repoEnd]))
      && m.end == TailEnd(s, GitEnd(s, m.repoEnd))
  {
  }

  /** A match begins with an optional scheme and an optional `www.`, and
      nothing else comes before `github.com`. */
  lemma {:induction false} MatchBeginsWithScheme(s: string, i: nat, word: char -> bool)
    requires i <= |s| && MatchAt(s, i, word).Some?
    ensures var m := MatchAt(s, i, word).value;
      HostPrefix(s[m.start..m.ownerStart - 11])
  {
    assert MatchAt(s, i, word).value.ownerStart - 11 == HostStart(s, i);
    HostPrefixSpelled(s, i);
  }

  /** What lies before the host is a scheme and an optional `www.`. */
  lemma {:induction false} HostPrefixSpelled(s: string, i: nat)
    requires i <= |s|
    ensures i <= HostStart(s, i) <= |s|
    ensures HostPrefix(s[i..HostStart(s, i)])
  {
    var p1 := i + SchemeLen(s, i);
    var p2 := HostStart(s, i);
    SchemeLenSpelled(s, i);
    var sc := s[i..p1];
    if At(s, p1, "www.") {
      assert s[i..p2][..|s[i..p2]| - 4] == sc;
      assert s[i..p2][|s[i..p2]| - 4..] == s[p1..p2];
    } else {
      assert s[i..p2] == sc;
    }
  }

  /** The scheme `SchemeLen` measures is one of the pattern's. */
  lemma {:induction false} SchemeLenSpelled(s: string, i: nat)
    requires i <= |s|
    ensures i + SchemeLen(s, i) <= |s|
    ensures s[i..i + SchemeLen(s, i)] in Schemes
  {
    if At(s, i, "https://") {
      assert s[i..i + 8] == "https://";
    } else if At(s, i, "http://") {
      assert s[i..i + 7] == "http://";
    } else if At(s, i, "git@") {
      assert s[i..i + 4] == "git@";
    } else {
      assert s[i..i] == "";
    }
  }

  /** Conversely, every text of the pattern's shape at `i` is matched there,
      with exactly the owner and repository it spells: an optional scheme,
      an optional `www.`, `github.com` and `/` or `:`, a nonempty owner of
      segment characters and a `/`, and a nonempty repository of segment
      characters that the text does not continue. Only `/` needs to be
      outside the word class, as it is in Python's. Where the match ends
      `MatchShape` states. */
  lemma {:induction false} ShapedTextMatches(s: string, i: nat, word: char -> bool,
                                            scheme: string, www: string, ownerLen: nat, repoLen: nat)
    requires !word('/')
    requires scheme in Schemes && (www == "" || www == "www.")
    requires At(s, i, scheme) && At(s, i + |scheme|, www)
    requires var h := i + |scheme| + |www|;
      At(s, h, "github.com") && h + 10 < |s| && (s[h + 10] == '/' || s[h + 10] == ':')
    requires var o := i + |scheme| + |www| + 11;
      && 0 < ownerLen && o + ownerLen < |s|
      && (forall c :: c in s[o..o + ownerLen] ==> SegmentChar(word, c))
      && s[o + ownerLen] == '/'
    requires var r := i + |scheme| + |www| + 11 + ownerLen + 1;
      && 0 < repoLen && r + repoLen <= |s|
      && (forall c :: c in s[r..r + repoLen] ==> SegmentChar(word, c))
      && (r + repoLen == |s| || !SegmentChar(word, s[r + repoLen]))
    ensures MatchAt(s, i, word).Some?
    ensures var m := MatchAt(s, i, word).value;
      var o := i + |scheme| + |www| + 11;
      m.start == i && m.ownerStart == o && m.ownerEnd == o + ownerLen &&
      m.repoStart == o + ownerLen + 1 && m.repoEnd == o + ownerLen + 1 + repoLen
  {
    var h := i + |scheme| + |www|;
    var o := h + 11;
    var r := o + ownerLen + 1;
    HostStartOfShape(s, i, scheme, www);
    assert !SegmentChar(word, '/');
    SegmentRunExact(s, o, ownerLen, word);
    SegmentRunExact(s, r, repoLen, word);
    MatchAtOfParts(s, i, word, h, ownerLen, repoLen);
  }

  /** `MatchAt` once the host position and both segment runs are known. */
  lemma {:induction false} MatchAtOfParts(s: string, i: nat, word: char -> bool, h: nat, ownerLen: nat, repoLen: nat)
    requires i <= |s| && HostStart(s, i) == h
    requires At(s, h, "github.com") && h + 10 < |s| && (s[h + 10] == '/' || s[h + 10] == ':')
    requires h + 11 <= |s| && SegmentRun(s, h + 11, word) == ownerLen > 0
    requires h + 11 + ownerLen < |s| && s[h + 11 + ownerLen] == '/'
    requires SegmentRun(s, h + 12 + ownerLen, word) == repoLen > 0
    ensures MatchAt(s, i, word).Some?
    ensures var m := MatchAt(s, i, word).value;
      m.start == i && m.ownerStart == h + 11 && m.ownerEnd == h + 11 + ownerLen &&
      m.repoStart == h + 12 + ownerLen && m.repoEnd == h + 12 + ownerLen + repoLen
  {
  }

  /** The host of a text of the pattern's shape starts right after its
      scheme and `www.`. */
  lemma {:induction false} HostStartOfShape(s: string, i: nat, scheme: string, www: string)
    requires scheme in Schemes && (www == "" || www == "www.")
    requires At(s, i, scheme) && At(s, i + |scheme|, www) && At(s, i + |scheme| + |www|, "github.com")
    ensures HostStart(s, i) == i + |scheme| + |www|
  {
    var h := i + |scheme| + |www|;
    SchemeLenOfShape(s, i, scheme, www);
    if www == "www." {
      assert s[i + |scheme|..i + |scheme| + 4] == "www.";
    } else {
      assert s[h..h + 10] == "github.com";
      assert s[h] == 'g';
    }
  }

  /** A scheme and `www.` followed by the host are measured as such. */
  lemma {:induction false} SchemeLenOfShape(s: string, i: nat, scheme: string, www: string)
    requires scheme in Schemes && (www == "" || www == "www.")
    requires At(s, i, scheme) && At(s, i + |scheme|, www) && At(s, i + |scheme| + |www|, "github.com")
    ensures SchemeLen(s, i) == |scheme|
  {
    var h := i + |scheme| + |www|;
    assert s[h] == s[h..h + 10][0] == 'g';
    assert s[h + 3] == s[h..h + 10][3] == 'h';
    if scheme == "https://" {
      assert At(s, i, "https://");
    } else if scheme == "http://" {
      assert s[i + 4] == s[i..i + 7][4] == ':';
      assert !At(s, i, "https://") && At(s, i, "http://");
    } else if scheme == "git@" {
      assert s[i] == s[i..i + 4][0] == 'g';
      assert !At(s, i, "https://") && !At(s, i, "http://") && At(s, i, "git@");
    } else if www == "www." {
      assert s[i] == s[i..i + 4][0] == 'w';
      assert !At(s, i, "https://") && !At(s, i, "http://") && !At(s, i, "git@");
    } else {
      assert !At(s, i, "https://") && !At(s, i, "http://") && !At(s, i, "git@");
    }
  }

  /** A run of `n` segment characters that the text does not continue is
      the whole segment run. */
  lemma {:induction false} SegmentRunExact(s: string, i: nat, n: nat, word: char -> bool)
    requires i + n <= |s|
    requires forall c :: c in s[i..i + n] ==> SegmentChar(word, c)
    requires i + n == |s| || !SegmentChar(word, s[i + n])
    ensures SegmentRun(s, i, word) == n
  {
  }

  /** Where the pattern matches, the scan records that match first: with
      `ShapedTextMatches`, a scan that reaches a text of the pattern's shape
      records its owner and repository. */
  lemma {:induction false} ExtractStartsWithMatch(s: string, i: nat, word: char -> bool)
    requires i <= |s| && MatchAt(s, i, word).Some?
    ensures |Extract(s, i, word)| > 0 && Extract(s, i, word)[0] == UrlOf(s, MatchAt(s, i, word).value)
  {
  }

  /** A `.git` right after the repository name is part of the full URL but
      not of the name, which never contains a dot. */
  lemma {:induction false} GitSuffixOutsideRepo(s: string, i: nat, word: char -> bool)
    requires WordClass(word)
    requires i <= |s| && MatchAt(s, i, word).Some?
    ensures var m := MatchAt(s, i, word).value;
      && '.' !in s[m.repoStart..m.repoEnd]
      && (At(s, m.repoEnd, ".git") ==> m.repoEnd + 4 <= m.end && s[m.repoEnd..m.repoEnd + 4] == ".git")
  {
    var m := MatchAt(s, i, word).value;
    MatchShape(s, i, word);
    SegmentHasNoDot(s, m.repoStart, m.repoEnd, word);
    assert GitEnd(s, m.repoEnd) <= m.end;
  }

  lemma {:induction false} SegmentHasNoDot(s: string, from: nat, to: nat, word: char -> bool)
    requires !word('.')
    requires from <= to <= |s|
    requires forall k :: from <= k < to ==> SegmentChar(word, s[k])
    ensures '.' !in s[from..to]
  {
    forall k | from <= k < to ensures s[k] != '.' {
      assert SegmentChar(word, s[k]);
    }
  }

  /** An empty owner or repository segment never gives a match: the host
      and its separator must be followed by a segment character, and so
      must the `/` after the owner. */
  lemma {:induction false} EmptySegmentNoMatch(s: string, i: nat, word: char -> bool)
    requires i <= |s|
    requires var o := HostStart(s, i) + 11;
      || o >= |s| || !SegmentChar(word, s[o])
      || var r := o + SegmentRun(s, o, word) + 1;
         r < |s| && !SegmentChar(word, s[r])
    ensures MatchAt(s, i, word).None?
  {
  }

  /** `github.com//missingorg/repo`: the doubled slash leaves the owner
      empty, whatever scheme or `www.` comes before it. */
  lemma {:induction false} DoubledSlashNoMatch(s: string, i: nat, word: char -> bool)
    requires WordClass(word)
    requires i <= |s| && At(s, HostStart(s, i), "github.com//")
    ensures MatchAt(s, i, word).None?
  {
    var o := HostStart(s, i) + 11;
    assert s[o] == "github.com//"[11];
    EmptySegmentNoMatch(s, i, word);
  }

  /** `github.com/` at the end of a line: whitespace cannot start an owner. */
  lemma {:induction false} HostAtLineEndNoMatch(s: string, i: nat, word: char -> bool)
    requires WordClass(word)
    requires i <= |s| && At(s, HostStart(s, i), "github.com/")
    requires var o := HostStart(s, i) + 11; o == |s| || IsSpace(s[o])
    ensures MatchAt(s, i, word).None?
  {
    EmptySegmentNoMatch(s, i, word);
  }

  /** A text with no `github.com` in it has no match at all. */
  lemma {:induction false} NoHostNoMatch(s: string, i: nat, word: char -> bool)
    requires i <= |s|
    requires forall p :: i <= p <= |s| ==> !At(s, p, "github.com")
    ensures FindAll(s, i, word) == []
    decreases |s| - i
  {
    if i < |s| {
      var p2 := HostStart(s, i);
      if p2 <= |s| {
        assert !At(s, p2, "github.com");
      }
      assert MatchAt(s, i, word).None?;
      NoHostNoMatch(s, i + 1, word);
    }
  }
}
