# repo-radar in Dafny

repo-radar collects metrics about a GitHub repository (commits, issues, pull
requests, contributors, languages) and recent Sentry errors for a status
report. Its hard part is the rate-limited, paginated GitHub fetch: every page
request goes through one shared gate. The gate waits out an exhausted quota,
records the quota headers of each response, and refuses re-entry by a task
that already holds it. The pages are then followed through their `Link`
headers.

This project models that core in Dafny and proves properties of the model:

- `rate_limit_manager.dfy` (module `RateLimit`): the gate as a class whose
  methods update its fields, with pure functions for its waiting and merge
  rules.
- `github_client.dfy` (module `GitHubClientModel`): one page cycle through the
  gate, and the loop of `get_contributors` over an endpoint given as the
  sequence of results its fetches return.
- `github_api.dfy` (module `GitHubApi`): the requests the three fetch
  functions send and what they decide about the status code.
- `github_parsers.dfy` (module `GitHubParsers`): the `Link` header parsers and
  the GitHub URL extractor, with the URL regular expression written out as a
  matcher.
- `github_token.dfy`, `github_url.dfy`: the token and URL records.
- `validator.dfy` (module `Validator`): the two validation regular
  expressions as matchers, each proved equal to a grammar of accepted texts.
- `lang_analytics.dfy` (module `LangAnalytics`): `Counter` merging of language
  maps and the percentage list.
- `stable_sort.dfy` (module `StableSort`): Python's stable
  `sorted(..., reverse=True)`.
- `github_repository.dfy` (module `GitHubRepository`): the repository records
  and their counting and day-difference methods.
- `sentry_service.dfy` (module `SentryService`): the Sentry issue count and the
  top error titles.
- `py_text.dfy`, `http.dfy`, `wrappers.dfy`: Python string operations
  (`strip`, `split`, `int()`, `str()`), HTTP records, and Option/Result.

Dictionaries whose order matters (language maps) are sequences of pairs in
insertion order. Python integers are unbounded, as Dafny's are. Floats in
`to_percentages` are reals. Time is an integer clock.

### Behaviour worth knowing

- A reported remaining count of 0 never waits. The code tests
  `self.remaining and self.remaining <= 0`
  (src/repo_radar/utils/rate_limit_manager.py:52), and 0 is falsy, so the wait
  happens only for a strictly negative count. `RateLimit.ExhaustedQuotaIsNotAwaited`
  states this.
- A second report for the same reset time keeps the first. The stored pair is
  replaced only for a strictly later reset time
  (src/repo_radar/utils/rate_limit_manager.py:99-101).
  `RateLimit.MergeAllKeepsFirstLatest` states this.
- There is no retry. A failed page cycle raises, and the gate stays locked by
  its task (`GitHubClientModel.WalkFailure`).

## Model

| member | source | states |
|---|---|---|
| RateLimit.WaitsExactlyWhen | src/repo_radar/utils/rate_limit_manager.py:52-56 | The enter step sleeps exactly when the known remaining count is strictly negative and the reset time is later than now. |
| RateLimit.WaitTime | src/repo_radar/utils/rate_limit_manager.py:52-56 | The length of the enter step's sleep. It has no contract of its own: `WaitsExactlyWhen`, `ExhaustedQuotaIsNotAwaited` and `WaitEndsAtReset` state when it is positive and where it ends. |
| RateLimit.ExhaustedQuotaIsNotAwaited | src/repo_radar/utils/rate_limit_manager.py:52 | A remaining count of 0 is falsy, so it never causes a wait. |
| RateLimit.WaitEndsAtReset | src/repo_radar/utils/rate_limit_manager.py:53-59 | A wait ends exactly at the stored reset time. |
| RateLimit.AfterEnter | src/repo_radar/utils/rate_limit_manager.py:52-60 | After a wait, `remaining` is the default rate. Without a wait the quota is unchanged. The reset time is never touched. |
| RateLimit.MergeQuota | src/repo_radar/utils/rate_limit_manager.py:99-101 | The reported pair replaces the stored one exactly when no reset time is stored or the stored one is strictly earlier. Otherwise nothing changes. The stored reset time never decreases. |
| RateLimit.MergeAll | src/repo_radar/utils/rate_limit_manager.py:99-101 | A series of reports merged one by one. It has no contract of its own: `MergeAllKeepsFirstLatest` and `MergeAllResetNeverDecreases` state its result. |
| RateLimit.MergeAllKeepsFirstLatest | src/repo_radar/utils/rate_limit_manager.py:99-101 | After any series of reports, either the initial quota remains (no report was later) or the quota is the first report that reached the latest reset time. |
| RateLimit.MergeAllResetNeverDecreases | src/repo_radar/utils/rate_limit_manager.py:99-100 | Across any series of reports, the stored reset time never goes back. |
| RateLimit.HeaderReport | src/repo_radar/utils/rate_limit_manager.py:96-97 | `int()` of both quota headers, None when either is missing or not an integer. It has no contract of its own: `HeaderReportOfIntegers` states the round trip. The gate's constructor installs it as the header reader, and `UpdateFromHeaders` fails exactly when the reader gives None. |
| PyText.ParseInt | src/repo_radar/utils/rate_limit_manager.py:96-97 | Python's `int()` of a string. It has no contract of its own: `PyText.ParseIntRoundTrip` and `PyText.ParseIntIgnoresPadding` state what it reads. |
| RateLimit.HeaderReportOfIntegers | src/repo_radar/utils/rate_limit_manager.py:96-97 | Quota headers written as decimal integers are read back as exactly those integers. |
| RateLimit.RateLimitManager.constructor | src/repo_radar/utils/rate_limit_manager.py:26-31 | A fresh gate has no quota known, no owner, the lock free and `_headers_updated` false. |
| RateLimit.RateLimitManager.Enter | src/repo_radar/utils/rate_limit_manager.py:34-62 | Re-entry by the owner fails with the not-reentrant error and changes nothing. Otherwise the caller becomes the owner with `_headers_updated` false. The clock advances by the wait, and the quota becomes `AfterEnter`. |
| RateLimit.RateLimitManager.UpdateFromHeaders | src/repo_radar/utils/rate_limit_manager.py:80-107 | A non-owner fails and changes nothing. Unparseable headers fail and change nothing. Otherwise the quota is merged by `MergeQuota` and `_headers_updated` becomes true. |
| RateLimit.RateLimitManager.Exit | src/repo_radar/utils/rate_limit_manager.py:64-78 | Without an update it raises and the lock stays as it was. Otherwise the owner is cleared and the lock released. Releasing an unheld lock raises. |
| RateLimit.NotUpdatingHeadersScenario | tests/test_rate_limit_manager.py:13-17 | Enter then exit without an update gives the headers-not-updated error, with the lock still held by the task. |
| RateLimit.UpdateWithoutLockScenario | tests/test_rate_limit_manager.py:19-30 | An update outside the gate gives the not-owner error and leaves the fresh state. |
| RateLimit.UpdateAndReleaseScenario | tests/test_rate_limit_manager.py:32-42 | Inside the gate, integer headers are stored as reported, and the exit then frees the lock. |
| RateLimit.ReentryScenario | tests/test_rate_limit_manager.py:44-58 | With integer headers reported, entering again from inside the gate is refused. The block's exit then frees the gate and raises nothing, so the not-reentrant error is what the block raises. |
| GitHubClientModel.PageCycle | src/repo_radar/api/github_client.py:92-96 | Every page cycle keeps the gate consistent and never moves its reset time back. |
| GitHubClientModel.PageCycleOutcome | src/repo_radar/api/github_client.py:92-96 | A cycle succeeds exactly when the caller entered, the fetch gave a response and its headers parsed. It then returns that response with the gate free. A failed fetch or update leaves the gate locked by the caller with the exit's error. An owner is refused at the entry and nothing else happens. |
| GitHubClientModel.FailedCycleRefusesReentry | src/repo_radar/api/github_client.py:92-96 | After a failed cycle, the same task's next cycle is refused as re-entry. |
| GitHubClientModel.WalkStep | src/repo_radar/api/github_client.py:124-127 | One loop step: the page cycle, then either the end of the walk or the next fetch, depending on the next link. |
| GitHubClientModel.WalkFrom | src/repo_radar/api/github_client.py:119-129 | The loop from the k-th fetch on never counts fewer than k fetches or more than the endpoint has. Its result is stated by the `Walk…` lemmas. |
| GitHubClientModel.Walk | src/repo_radar/api/github_client.py:119-129 | `get_contributors` from the first fetch. It has no contract of its own: `WalkSuccess`, `WalkFailure`, `SuccessfulWalkPages` and `NPagesReturned` state its result. |
| GitHubClientModel.WalkSuccess | src/repo_radar/api/github_client.py:119-129 | A successful walk made at least one fetch and leaves the gate free, and its last page has no next link. |
| GitHubClientModel.WalkPagesInOrder | src/repo_radar/api/github_client.py:120-129 | The pages returned are the responses of the walk's fetches, in fetch order. |
| GitHubClientModel.WalkFetchesGavePages | src/repo_radar/api/github_client.py:120-129 | Every fetch of a successful walk gave a response with parseable quota headers. |
| GitHubClientModel.SuccessfulWalkPages | src/repo_radar/api/github_client.py:119-129 | A successful `get_contributors` returns one page per fetch, the i-th page being the i-th fetch's response. |
| GitHubClientModel.WalkLinksUntilLast | src/repo_radar/api/github_client.py:124-127 | Every returned page except the last has a next link. |
| GitHubClientModel.WalkFailure | src/repo_radar/api/github_client.py:119-129 | A failed walk returns no pages and leaves the gate locked by the caller. The error is re-entry exactly when the caller already owned the gate, and otherwise the exit's error. Every earlier fetch succeeded and linked on, and the last one raised or had unusable headers. |
| GitHubClientModel.WalkOfNPages | src/repo_radar/api/github_client.py:119-129 | If the first n fetches all give usable pages and only the last lacks a next link, the walk succeeds after exactly n fetches. |
| GitHubClientModel.NPagesReturned | src/repo_radar/api/github_client.py:119-129 | Against such an endpoint, `get_contributors` returns exactly its first n responses. |
| GitHubClientModel.PageNumber | src/repo_radar/api/github_client.py:121-126 | The first fetch uses the default page. The fetch at position i > 0 asks for page i + 1. |
| GitHubClientModel.LaterPagesAreConsecutive | src/repo_radar/api/github_client.py:123-126 | After the first fetch, page numbers go up by one per fetch. |
| GitHubClientModel.PageRequests | src/repo_radar/api/github_client.py:121-126 | A walk of n fetches sends n requests, the i-th for page `PageNumber(i)` of the same URL with the maximum page size. |
| GitHubClientModel.GitHubClient.constructor | src/repo_radar/api/github_client.py:70-72 | The client holds the token and a fresh gate. |
| GitHubClientModel.GitHubClient.ContributorsPage | src/repo_radar/api/github_client.py:92-96 | The method's new gate state, result and clock are those of `PageCycle`. |
| GitHubClientModel.GitHubClient.WalkPage | src/repo_radar/api/github_client.py:124-127 | One loop step in place, related to the walk as `WalkStep` states it. |
| GitHubClientModel.GitHubClient.GetContributors | src/repo_radar/api/github_client.py:119-129 | For an endpoint that is `Closed` (its pagination stops within the given fetches), the loop ends in the state, result and clock of `Walk`, and it sends exactly `PageRequests` for the number of fetches made. |
| GitHubApi.RaiseForStatus | src/repo_radar/api/github_api.py:46 | The call raises exactly for a 4xx or 5xx status, naming it. Otherwise the response passes through. |
| GitHubApi.ValidateRequest | src/repo_radar/api/github_api.py:22 | The request of `validate_github_token`. It has no contract of its own: `ValidateGithubToken` states that this request is the one sent. |
| GitHubApi.ValidationOutcome | src/repo_radar/api/github_api.py:23-29 | A non-error status returns the response. An error status raises, except a 403 whose remaining header is exactly "0": then the JSON body is returned. |
| GitHubApi.ValidateGithubToken | src/repo_radar/api/github_api.py:9-29 | One request to the user endpoint with the bearer header, decided by `ValidationOutcome`. |
| GitHubApi.ForbiddenWithQuotaLeftIsRaised | src/repo_radar/api/github_api.py:26-28 | A 403 without remaining "0" is raised. |
| GitHubApi.GetGithubUrl | src/repo_radar/api/github_api.py:31-47 | One request, and its status is decided by `raise_for_status`. |
| GitHubApi.GetRequest | src/repo_radar/api/github_api.py:45 | The request of `get_github_url`. It has no contract of its own: `GetSendsTokenAsQuery` states where the token goes. |
| GitHubApi.GetSendsTokenAsQuery | src/repo_radar/api/github_api.py:45 | `get_github_url` passes the header map positionally, so it becomes the query parameters: the token goes in the query, and no header is sent. |
| GitHubApi.PaginateGithubUrl | src/repo_radar/api/github_api.py:49-76 | A page size outside 1..max fails before anything is sent. Otherwise one request is sent; an error status is raised; success returns the response and its next URL. |
| GitHubApi.PaginateRequest | src/repo_radar/api/github_api.py:70-73 | The request of `paginate_github_url`. It has no contract of its own: `PaginateSendsTokenAsHeader` states its page size and header. |
| GitHubApi.PaginateSendsTokenAsHeader | src/repo_radar/api/github_api.py:70-73 | The page size goes out as decimal text that reads back as the same number, and the token goes in the Authorization header. |
| GitHubApi.ErrorStatusPropagates | src/repo_radar/api/github_api.py:45-74 | Both fetchers raise the HTTP error for any error status. |
| GitHubParsers.NoLinkNoNext | src/repo_radar/utils/github_parsers.py:47-49 | A missing or empty Link header means no next page, whatever the pattern. |
| GitHubParsers.PaginatedHasNext | src/repo_radar/utils/github_parsers.py:34-50 | `paginated_has_next`. It has no contract of its own: `NoLinkNoNext` states the empty-header case, and `WalkLinksUntilLast` what it decides in the loop. |
| GitHubParsers.DropEnds | src/repo_radar/utils/github_parsers.py:72 | `t[1:-1]` drops exactly the first and last character, and gives "" for shorter strings. |
| GitHubParsers.FirstQualifying | src/repo_radar/utils/github_parsers.py:69-73 | The loop stops at the first part with two sections whose second names `rel="next"`. No earlier part qualifies. |
| GitHubParsers.GetNextPaginatedUrl | src/repo_radar/utils/github_parsers.py:53-74 | The result is `NextPaginatedUrl`. It is None exactly when the header is empty or no part qualifies. |
| GitHubParsers.NextPaginatedUrl | src/repo_radar/utils/github_parsers.py:53-74 | The function the loop of `GetNextPaginatedUrl` computes. It has no contract of its own: `FirstQualifying`, `NextUrlRoundTrip` and `NextUrlRoundTripWithRest` state its result. |
| GitHubParsers.NextUrlRoundTrip | src/repo_radar/utils/github_parsers.py:66-74 | A URL written as `<u>; rel="next"` is parsed back to u. |
| GitHubParsers.NextUrlRoundTripWithRest | src/repo_radar/utils/github_parsers.py:69-73 | The same holds when other parts follow. |
| GitHubParsers.NextLinkPartShape | src/repo_radar/utils/github_parsers.py:70-72 | Such a part qualifies and its URL is u. |
| GitHubParsers.QualifyingPartGivesUrl | src/repo_radar/utils/github_parsers.py:70-72 | Any `<u>;second` part whose second section names `rel="next"` qualifies and gives u. |
| GitHubParsers.TwoSections | src/repo_radar/utils/github_parsers.py:70 | Splitting `<u>;second` at ';' gives exactly the two sections. |
| GitHubParsers.BracketsDropped | src/repo_radar/utils/github_parsers.py:72 | Stripping and dropping both ends of `<u>` gives u. |
| GitHubParsers.MalformedPartIsSkipped | src/repo_radar/utils/github_parsers.py:69-71 | A leading part without exactly two sections is skipped. |
| GitHubParsers.TailEnd | src/repo_radar/config.py:16 | The optional tail is a '/' and every following non-whitespace character, or nothing. |
| GitHubParsers.MatchAt | src/repo_radar/config.py:11-17 | A match starts where it was tried and lies within the text, with its owner and repository in order. |
| GitHubParsers.MatchShape | src/repo_radar/config.py:12-16 | A match has `github.com` and a '/' or ':' before a nonempty owner of segment characters, then a '/'. The nonempty repository is a maximal segment run, followed by the optional `.git` and tail. |
| GitHubParsers.MatchBeginsWithScheme | src/repo_radar/config.py:12 | The text before `github.com` in a match is exactly one of "", `https://`, `http://`, `git@`, optionally followed by `www.`. |
| GitHubParsers.ShapedTextMatches | src/repo_radar/config.py:11-17 | Completeness: a text with a scheme (or none), an optional `www.`, `github.com`, a '/' or ':', a nonempty owner run, '/', and a nonempty maximal repository run matches at its start, with exactly that owner and repository. |
| GitHubParsers.ExtractStartsWithMatch | src/repo_radar/utils/github_parsers.py:23-30 | When the pattern matches where the scan starts, the first record extracted is that match's URL, owner and repository. |
| GitHubParsers.GitSuffixOutsideRepo | src/repo_radar/config.py:14-15 | The repository name never holds a dot. A `.git` right after it is part of the full URL. |
| GitHubParsers.EmptySegmentNoMatch | src/repo_radar/config.py:12-14 | An empty owner or repository gives no match. |
| GitHubParsers.DoubledSlashNoMatch | src/repo_radar/config.py:12-13 | `github.com//` gives no match. |
| GitHubParsers.HostAtLineEndNoMatch | src/repo_radar/config.py:12-13 | `github.com/` followed by whitespace or the end gives no match. |
| GitHubParsers.NoHostNoMatch | src/repo_radar/config.py:12 | A text without `github.com` has no match. |
| GitHubParsers.FindAllOrdered | src/repo_radar/utils/github_parsers.py:23 | The matches of `finditer` lie in the text, start at or after the search start, and do not overlap. |
| GitHubParsers.FindAll | src/repo_radar/utils/github_parsers.py:23 | `finditer` from a position. It has no contract of its own: `FindAllOrdered` states where its matches lie. |
| GitHubParsers.UrlsOf | src/repo_radar/utils/github_parsers.py:26-30 | One record per match, each made of the match's full text, owner and repository. |
| GitHubParsers.ExtractGithubUrls | src/repo_radar/utils/github_parsers.py:22-32 | The loop returns `Extract` of the whole text. |
| GitHubParsers.ExtractIsFindAll | src/repo_radar/utils/github_parsers.py:26-30 | `Extract` is the record of each `finditer` match, in match order. |
| GitHubParsers.Extract | src/repo_radar/utils/github_parsers.py:22-32 | The list `extract_github_urls` builds. It has no contract of its own: `ExtractIsFindAll`, `ExtractStartsWithMatch` and `ExtractGithubUrls` state it. |
| GitHubTokens.ToHeader | src/repo_radar/models/github_token.py:7-8 | The header map has the single key Authorization, and its value is "Bearer " followed by the token. |
| GitHubTokens.HeaderRoundTrip | src/repo_radar/models/github_token.py:8 | The token is read back from the header value. |
| GitHubTokens.HeaderInjective | src/repo_radar/models/github_token.py:8 | Distinct tokens give distinct header values. |
| GitHubTokens.Repr | src/repo_radar/models/github_token.py:10-12 | The representation starts with `<GitHubToken token='` and has the length of prefix, token and suffix. |
| GitHubTokens.ReprRoundTrip | src/repo_radar/models/github_token.py:10-12 | The token is read back from the representation. |
| PyText.Split | src/repo_radar/utils/github_parsers.py:69-70 | `split` gives at least one part; no part holds the separator; joining the parts with it gives back the text. |
| PyText.ParseIntRoundTrip | src/repo_radar/utils/rate_limit_manager.py:96-97 | `int(str(n)) == n` for every integer. |
| PyText.ParseIntIgnoresPadding | src/repo_radar/utils/rate_limit_manager.py:96-97 | `int()` ignores surrounding whitespace. |
| Validator.MatchRepoUrl | src/repo_radar/utils/validator.py:3-6 | A match is a well-formed URL whose text is exactly the input. |
| Validator.MatchRepoUrlComplete | src/repo_radar/utils/validator.py:3-6 | Every well-formed URL's text is matched, with its own parts. |
| Validator.RepoUrlValidIff | src/repo_radar/utils/validator.py:3-6 | A text is valid exactly when it is the text of a well-formed URL: http or https, optional `www.`, `github.com`, owner, repository, an optional '/', and an optional final newline. |
| Validator.IsValidGithubRepoUrl | src/repo_radar/utils/validator.py:5-6 | `is_valid_github_repo_url`. It has no contract of its own: `RepoUrlValidIff` states exactly which texts it accepts. |
| Validator.ThirdSegmentRejected | src/repo_radar/utils/validator.py:3 | A third path segment is rejected. |
| Validator.ExtraSegmentRejected | src/repo_radar/utils/validator.py:3 | After the repository, only an optional '/' and newline may follow. |
| Validator.OtherHostRejected | src/repo_radar/utils/validator.py:3 | Any host other than `github.com` or `www.github.com` is rejected. |
| Validator.LeadingTextRejected | src/repo_radar/utils/validator.py:5-6 | `re.match` anchors at the start, so a nonempty text whose first character is not 'h' is rejected. |
| Validator.PrefixedUrlRejected | src/repo_radar/utils/validator.py:3-6 | Any nonempty text put before a well-formed repository URL makes it invalid: the scheme must begin the text. |
| Validator.SshFormRejected | src/repo_radar/utils/validator.py:3 | The `git@github.com:` form is rejected. |
| Validator.FinalNewlineAccepted | src/repo_radar/utils/validator.py:3 | `$` also matches before a final newline, so a valid URL plus "\n" stays valid. |
| Validator.UsernameValidIff | src/repo_radar/utils/validator.py:8-9 | A username is valid exactly when it is 1 to 39 ASCII letters, digits or '-', optionally followed by one final newline. |
| Validator.IsValidGithubUsername | src/repo_radar/utils/validator.py:8-9 | `is_valid_github_username`. It has no contract of its own: `UsernameValidIff` states exactly which texts it accepts. |
| Validator.UsernameLengthBounds | src/repo_radar/utils/validator.py:9 | Empty names and longer names are rejected. |
| Validator.UnderscoreRejectedInUsername | src/repo_radar/utils/validator.py:9 | A username with '_' is rejected. |
| Validator.UnderscoreOnlyInRepoUrls | src/repo_radar/utils/validator.py:3-9 | An owner with '_' is accepted in a repository URL but rejected as a username. |
| StableSort.SortDescSorted | src/repo_radar/services/lang_analytics.py:20 | The sorted list has non-increasing keys. |
| StableSort.SortDescPermutes | src/repo_radar/services/lang_analytics.py:20 | The sorted list is a permutation of the input. |
| StableSort.SortDescStable | src/repo_radar/services/lang_analytics.py:20 | Elements with equal keys keep their input order. |
| LangAnalytics.PutFacts | src/repo_radar/services/lang_analytics.py:11 | A dict assignment: the key reads as the new value and every other key is unchanged. An existing key keeps its place and a new key goes last. |
| LangAnalytics.CountedKeys | src/repo_radar/services/lang_analytics.py:11 | After `Counter.update(m)`, the keys are the old ones followed by m's new keys, in m's order. |
| LangAnalytics.CountedValues | src/repo_radar/services/lang_analytics.py:11 | After `Counter.update(m)`, each count is the old count plus m's value. |
| LangAnalytics.Counted | src/repo_radar/services/lang_analytics.py:11 | `Counter.update(m)`. It has no contract of its own: `CountedKeys` and `CountedValues` state its keys and counts. |
| LangAnalytics.MergeIntoFacts | src/repo_radar/services/lang_analytics.py:9-12 | Merging a list of maps keeps distinct keys. Keys come in first-occurrence order, and each value is the sum over the maps. |
| LangAnalytics.MergeInto | src/repo_radar/services/lang_analytics.py:10-11 | The loop over the maps. It has no contract of its own: `MergeIntoFacts` states its keys and values. |
| LangAnalytics.Update | src/repo_radar/services/lang_analytics.py:11 | The loop of one update computes `Counted`. |
| LangAnalytics.MergeLanguageMaps | src/repo_radar/services/lang_analytics.py:5-12 | The merged map has distinct keys in first-occurrence order across the maps (`None` counts as empty), and each value is the sum of that key's values. |
| LangAnalytics.MergedKeys | src/repo_radar/services/lang_analytics.py:9-12 | A language is in the merged map exactly when some map has it. |
| LangAnalytics.NothingToMerge | src/repo_radar/services/lang_analytics.py:11-12 | A list of only `None` merges to the empty map. |
| LangAnalytics.Divisor | src/repo_radar/services/lang_analytics.py:18 | The divisor is never 0, and it is the byte total whenever that total is not 0. |
| LangAnalytics.Shares | src/repo_radar/services/lang_analytics.py:19 | One share per language, in dict order, each being bytes / divisor * 100. |
| LangAnalytics.ToPercentagesSpec | src/repo_radar/services/lang_analytics.py:14-20 | The result is a permutation of the shares, one per language. It is ordered by non-increasing share, with equal shares in dict order. |
| LangAnalytics.ToPercentages | src/repo_radar/services/lang_analytics.py:14-20 | `to_percentages`. It has no contract of its own: `ToPercentagesSpec`, `PercentagesSumTo100` and `EmptyMapNoShares` state its result. |
| LangAnalytics.PercentagesSumTo100 | src/repo_radar/services/lang_analytics.py:18-20 | With a nonzero total, the percentages add up to exactly 100. |
| LangAnalytics.EmptyMapNoShares | src/repo_radar/services/lang_analytics.py:18-20 | An empty map gives an empty list. |
| GitHubRepository.CommitCountIsAllCommits | src/repo_radar/models/github_repoistory.py:19-21 | The count is the number of commits of all branches plus the default branch, with a missing list counting as empty. |
| GitHubRepository.CommitCount | src/repo_radar/models/github_repoistory.py:19-21 | `commit_count()`. It has no contract of its own: `CommitCountIsAllCommits` states what it counts. |
| GitHubRepository.IssueStatsBound | src/repo_radar/models/github_repoistory.py:23-26 | Open plus closed is at most the number of issues. It equals that number exactly when every state is "open" or "closed". |
| GitHubRepository.IssueStatsOf | src/repo_radar/models/github_repoistory.py:23-26 | `issue_stats()`. It has no contract of its own: `IssueStatsBound` states its bound. |
| GitHubRepository.PullStatsBound | src/repo_radar/models/github_repoistory.py:28-32 | Merged plus closed-unmerged, and open plus closed-unmerged, are each at most the number of pull requests. |
| GitHubRepository.PullStatsOf | src/repo_radar/models/github_repoistory.py:28-32 | `pull_stats()`. It has no contract of its own: `PullStatsBound` states its bounds. |
| GitHubRepository.ContributorCount | src/repo_radar/models/github_repoistory.py:34-35 | The count is 0 exactly when the list is missing or empty. |
| GitHubRepository.DaysBetween | src/repo_radar/models/github_repoistory.py:94 | `.days` is the floor of the difference in days, negative differences included. |
| GitHubRepository.LifetimeDays | src/repo_radar/models/github_repoistory.py:92-95 | The value is None exactly when the issue is not closed. Otherwise it is the floor of the days from creation to closing. |
| GitHubRepository.TimeToMerge | src/repo_radar/models/github_repoistory.py:115-118 | The value is None exactly when the pull request is not merged. Otherwise it is the floor of the days from creation to merging. |
| GitHubRepository.DaysBetweenSteps | src/repo_radar/models/github_repoistory.py:94 | Less than a day apart is 0 days, and one day later is one more day. |
| SentryService.UnresolvedIssueCount30d | src/repo_radar/services/sentry_service.py:6-8 | The count is 0 exactly when the fetched page has no issue. |
| SentryService.IssuePair | src/repo_radar/services/sentry_service.py:13 | A missing title becomes "" and a missing count becomes 0. A numeric count is kept. A count string converts with `int()`, or the call fails naming that string. |
| SentryService.PairsSpec | src/repo_radar/services/sentry_service.py:13 | The comprehension succeeds exactly when every issue converts, giving one pair per issue in order. Otherwise it fails with the error of the first failing issue. |
| SentryService.Pairs | src/repo_radar/services/sentry_service.py:13 | The list comprehension. It has no contract of its own: `PairsSpec` states its result. |
| SentryService.TopErrorTitlesIsSortedPrefix | src/repo_radar/services/sentry_service.py:13-15 | The result fails exactly when the comprehension fails. Otherwise it is a prefix of all pairs sorted by count. Its length is min(limit, n) for a non-negative limit, and n + limit (at least 0) for a negative one. |
| SentryService.TopErrorTitles | src/repo_radar/services/sentry_service.py:10-15 | `top_error_titles(limit)`. It has no contract of its own: the `TopErrorTitles…` lemmas state its result. |
| SentryService.TopErrorTitlesBounded | src/repo_radar/services/sentry_service.py:6-15 | The list never has more pairs than there are unresolved issues, and with the default limit it has at most 5. |
| SentryService.TopErrorTitlesAreTop | src/repo_radar/services/sentry_service.py:13-15 | Counts do not increase along the list, and every pair in it comes from the issues. No pair left out has a larger count than a pair kept. |
| SentryService.TopErrorTitlesKeepTies | src/repo_radar/services/sentry_service.py:13-14 | Among pairs with equal counts, the list holds the first ones in issue order. |

## Left out

- HTTP, threads and logging are not modelled. `requests.get` is a function parameter `send` from request to response. `asyncio.to_thread` and the fetch inside a page cycle are a given fetch result per call. Log messages are left out.
- Blocking on a lock that another task holds is not modelled. A caller must find the gate free or own it (`CanEnter`, the requires of `Enter`), because the model has no scheduler.
- `time.time()` and `asyncio.sleep` are an integer clock passed in. The sleep advances it by the wait. The fetch itself takes no time: `GitHubClientModel.WalkFrom` and `GitHubClientModel.GitHubClient.GetContributors` start each cycle at the clock the previous cycle ended with, so time spent fetching never counts toward the next wait.
- `GITHUB_DEFAULT_RATE`, `GITHUB_DEFAULT_PAGE`, `GITHUB_MAX_PAGINATED` and `GITHUB_API_USER_ENDPOINT` are parameters, because src/repo_radar/config.py does not define them.
- `LINK_HEADER_NEXT_REGEX` is an arbitrary predicate `nextRegex` on the header text, because src/repo_radar/config.py does not define it.
- Python's `\w` class is a parameter `word`. `WordClass` pins down only the characters the proofs need: ASCII letters, digits and `_` are word characters; '/', '.' and whitespace are not. Unicode word characters are left open.
- GitHubClientModel.WalkFrom, GitHubClientModel.Walk and GitHubClientModel.GitHubClient.GetContributors require the endpoint to be `Closed`: a fetch whose page has a next link is never the last of the sequence, so the walk ends within it. The source loop (src/repo_radar/api/github_client.py:124-127) has no page bound: `GITHUB_MAX_PAGINATED` is a page size, not a page count, and against a server whose every page links on, `get_contributors` never returns. Every run that does end is covered, by cutting the sequence after its last fetch.
- The token validation request in the client constructor (src/repo_radar/api/github_client.py:12-14) is not part of the constructor model. `GitHubApi.ValidateGithubToken` models that request on its own.
- The other page fetchers (`_get_commits_page`, `_get_issues_page`, `_get_pulls_page`) and `get_languages` and `get_license` are left out. They are the same gate cycle around other endpoints. `get_commits`, `get_issues` and `get_pulls` are stubs.
- The `get_contributors` fetch calls `github_api.get_contributors`, which src/repo_radar/api/github_api.py does not define. It is given as the endpoint's fetch results.
- `response.json()` is an opaque body value. The decode error it raises for a body that is not JSON (src/repo_radar/api/github_api.py:27) is not modelled: `GitHubApi.ValidationOutcome` always returns the body.
- Header lookup is by exact name. The case-insensitive dictionary of `requests` is not modelled.
- `int()` does not accept Unicode digits here, only ASCII ones.
- SentryService.IssuePair: a Sentry `count` that is JSON `null`, a float or a boolean is not modelled. Only a missing count, an integer and a string are.
- `datetime` values are integer microseconds on one timeline. Time zones, naive/aware mixing and calendar conversion are left out.
- `to_percentages` computes with reals, not floats. Its floating-point rounding is not modelled, so `PercentagesSumTo100` holds exactly.
- The `__repr__` methods of the repository records (from src/repo_radar/models/github_repoistory.py:37 on) are display formatting. Only the token's representation is modelled.
- The Sentry time series (`error_timeseries_30d`, `latency_p50_timeseries_30d`) use float milliseconds and local-time conversion, and are left out.
- `sentry_api.py`, the Sentry SDK setup, the LLM provider, charts, `main.py` and the environment loading in `config.py` are I/O around the core, and are left out.
- `github_service.py` calls methods that do not exist, and defines `get_commits` twice. It has no logic to model.
- The duplicate URL parsers and records (src/repo_radar/utils/github_url_parser.py, src/Utils/github_url_parser.py, src/models/github_url.py) repeat the modelled ones and are left out.
