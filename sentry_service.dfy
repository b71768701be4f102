/** src/repo_radar/services/sentry_service.py: the issue count and the
    most frequent error titles of the last 30 days. The issue list that
    `sentry_api.list_issues_30d()` fetches is a parameter; both operations
    see one and the same list. */
module SentryService {
  import opened Wrappers
  import opened PyText
  import opened StableSort

  /** The `count` field of an issue as Sentry's JSON carries it: a number,
      or a decimal string. */
  datatype CountField = IntCount(n: int) | TextCount(text: string)

  /** An issue, with `None` for a key the JSON object lacks. */
  datatype SentryIssue = SentryIssue(title: Option<string>, count: Option<CountField>)

  /** A `(title, count)` pair of the result. */
  datatype TitleCount = TitleCount(title: string, count: int)

  /** `int()` refusing a count string: a `ValueError`. */
  datatype SentryError = CountNotInteger(text: string)

  /** The number of issues a top list may hold when no limit is given. */
  const DefaultLimit: int := 5

  /** `unresolved_issue_count_30d()`: one per issue of the fetched page. */
  function UnresolvedIssueCount30d(issues: seq<SentryIssue>): (n: nat)
    ensures n == 0 <==> issues == []
  {
    |issues|
  }

  /** `int(i.get("count", 0))`. */
  function CountOf(c: Option<CountField>): Result<int, SentryError> {
    match c
    case None => Success(0)
    case Some(IntCount(n)) => Success(n)
    case Some(TextCount(t)) =>
      match ParseInt(t)
      case Some(n) => Success(n)
      case None => Failure(CountNotInteger(t))
  }

  /** The pair one issue contributes: a missing title is the empty string,
      a missing count is 0, and a count string that is not an integer is an
      error naming that string. */
  function IssuePair(i: SentryIssue): (r: Result<TitleCount, SentryError>)
    ensures r.Success? ==> r.value.title == (if i.title.Some? then i.title.value else "")
    ensures i.count.None? ==> r == Success(TitleCount(i.title.GetOr(""), 0))
    ensures i.count.Some? && i.count.value.IntCount? ==> r == Success(TitleCount(i.title.GetOr(""), i.count.value.n))
    ensures i.count.Some? && i.count.value.TextCount? ==>
      (r.Success? <==> ParseInt(i.count.value.text).Some?) &&
      (r.Success? ==> r.value.count == ParseInt(i.count.value.text).value) &&
      (r.Failure? ==> r.error == CountNotInteger(i.count.value.text))
  {
    match CountOf(i.count)
    case Success(n) => Success(TitleCount(i.title.GetOr(""), n))
    case Failure(e) => Failure(e)
  }

  /** The list comprehension: the pairs in issue order, or the error of the
      first issue whose count does not convert. */
  function Pairs(issues: seq<SentryIssue>): Result<seq<TitleCount>, SentryError>
    decreases |issues|
  {
    if |issues| == 0 then Success([])
    else
      match IssuePair(issues[0])
      case Failure(e) => Failure(e)
      case Success(p) =>
        match Pairs(issues[1..])
        case Failure(e) => Failure(e)
        case Success(ps) => Success([p] + ps)
  }

  /** Every issue converts and gives the pair at its own position, or the
      error is that of an issue all of whose predecessors convert. */
  lemma {:induction false} PairsSpec(issues: seq<SentryIssue>)
    ensures Pairs(issues).Success? <==> forall j :: 0 <= j < |issues| ==> IssuePair(issues[j]).Success?
    ensures Pairs(issues).Success? ==>
      |Pairs(issues).value| == |issues| &&
      forall j :: 0 <= j < |issues| ==> Pairs(issues).value[j] == IssuePair(issues[j]).value
    ensures Pairs(issues).Failure? ==>
      exists j :: 0 <= j < |issues| &&
        (forall h :: 0 <= h < j ==> IssuePair(issues[h]).Success?) &&
        IssuePair(issues[j]) == Failure(Pairs(issues).error)
    decreases |issues|
  {
    if |issues| > 0 {
      var rest := issues[1..];
      PairsSpec(rest);
      forall j | 0 < j < |issues|
        ensures issues[j] == rest[j - 1]
      {
      }
      if IssuePair(issues[0]).Success? && Pairs(rest).Failure? {
        var j :| 0 <= j < |rest| && (forall h :: 0 <= h < j ==> IssuePair(rest[h]).Success?) &&
          IssuePair(rest[j]) == Failure(Pairs(rest).error);
        assert IssuePair(issues[j + 1]) == Failure(Pairs(issues).error);
        forall h | 0 <= h < j + 1
          ensures IssuePair(issues[h]).Success?
        {
          if h > 0 {
            assert IssuePair(rest[h - 1]).Success?;
          }
        }
      }
    }
  }

  /** Sorting key: the count. */
  function CountKey(p: TitleCount): real {
    p.count as real
  }

  /** Where `xs[:limit]` ends in a list of length `n`: a negative limit
      counts back from the end. */
  function SliceEnd(n: nat, limit: int): (e: nat)
    ensures e <= n
  {
    if limit >= 0 then (if limit <= n then limit else n)
    else if n + limit >= 0 then n + limit else 0
  }

  /** `top_error_titles(limit)`: the pairs sorted by count, largest first,
      ties kept in issue order, cut to `limit`. */
  function TopErrorTitles(issues: seq<SentryIssue>, limit: int): Result<seq<TitleCount>, SentryError> {
    match Pairs(issues)
    case Failure(e) => Failure(e)
    case Success(ps) =>
      var sorted := SortDesc(ps, CountKey);
      Success(sorted[..SliceEnd(|sorted|, limit)])
  }

  /** The top list fails exactly when the comprehension does, with its
      error, and otherwise is the first part of all pairs sorted by count:
      `min(limit, n)` of them for a limit that is not negative, `n + limit`
      (at least none) for a negative one. */
  lemma {:induction false} TopErrorTitlesIsSortedPrefix(issues: seq<SentryIssue>, limit: int)
    ensures TopErrorTitles(issues, limit).Failure? <==> Pairs(issues).Failure?
    ensures TopErrorTitles(issues, limit).Failure? ==> TopErrorTitles(issues, limit).error == Pairs(issues).error
    ensures TopErrorTitles(issues, limit).Success? ==>
      var top := TopErrorTitles(issues, limit).value;
      var sorted := SortDesc(Pairs(issues).value, CountKey);
      top == sorted[..|top|] &&
      (limit >= 0 ==> |top| == if limit <= |issues| then limit else |issues|) &&
      (limit < 0 ==> |top| == if |issues| + limit >= 0 then |issues| + limit else 0)
  {
    PairsSpec(issues);
    if Pairs(issues).Success? {
      SortDescPermutes(Pairs(issues).value, CountKey);
    }
  }

  /** With the default limit the list has at most five pairs, and it never
      holds more pairs than there are unresolved issues. */
  lemma {:induction false} TopErrorTitlesBounded(issues: seq<SentryIssue>, limit: int)
    ensures TopErrorTitles(issues, limit).Success? ==>
      |TopErrorTitles(issues, limit).value| <= UnresolvedIssueCount30d(issues)
    ensures TopErrorTitles(issues, DefaultLimit).Success? ==>
      |TopErrorTitles(issues, DefaultLimit).value| <= 5
  {
    TopErrorTitlesIsSortedPrefix(issues, limit);
    TopErrorTitlesIsSortedPrefix(issues, DefaultLimit);
  }

  /** Counts do not increase along the list; every pair in it is one of
      the issue pairs; and no pair left out has a larger count than a pair
      kept. */
  lemma {:induction false} TopErrorTitlesAreTop(issues: seq<SentryIssue>, limit: int)
    requires Pairs(issues).Success?
    ensures var top := TopErrorTitles(issues, limit).value;
      var ps := Pairs(issues).value;
      SortedDesc(top, CountKey) &&
      multiset(top) <= multiset(ps) &&
      forall x: TitleCount, y: TitleCount :: x in multiset(ps) - multiset(top) && y in top ==> x.count <= y.count
  {
    var ps := Pairs(issues).value;
    var m := SliceEnd(|ps|, limit);
    TopOfSortDesc(ps, CountKey, m);
    var top := SortDesc(ps, CountKey)[..m];
    assert TopErrorTitles(issues, limit).value == top;
    forall x: TitleCount, y: TitleCount | x in multiset(ps) - multiset(top) && y in top
      ensures x.count <= y.count
    {
      assert CountKey(x) <= CountKey(y);
    }
  }

  /** Issues with equal counts keep their input order: the pairs of the
      list with count `k` are the first pairs with count `k` of all issues,
      in issue order. */
  lemma {:induction false} TopErrorTitlesKeepTies(issues: seq<SentryIssue>, limit: int, k: int)
    requires Pairs(issues).Success?
    ensures var top := WithKey(TopErrorTitles(issues, limit).value, CountKey, k as real);
      var all := WithKey(Pairs(issues).value, CountKey, k as real);
      |top| <= |all| && top == all[..|top|]
  {
    var ps := Pairs(issues).value;
    var sorted := SortDesc(ps, CountKey);
    SortDescStable(ps, CountKey, k as real);
    WithKeyOfPrefix(sorted, CountKey, k as real, |TopErrorTitles(issues, limit).value|);
  }
}
