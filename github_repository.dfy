/** The repository records of src/repo_radar/models/github_repoistory.py
    and the counting and day-difference methods on them. A `datetime` is a
    whole number of microseconds on one timeline; every `datetime` is
    truthy, so `if self.closed_at:` only tests for `None`. */
module GitHubRepository {
  import opened Wrappers
  import opened GitHubUrls
  import LangAnalytics

  type Timestamp = int

  const MicrosPerDay: int := 86_400_000_000

  datatype User = User(login: string, url: string)

  datatype Commit = Commit(sha: string, author: User, date: Timestamp, message: string)

  datatype Branch = Branch(name: string, sha: string, commits: Option<seq<Commit>>)

  datatype Label = Label(name: string, color: Option<string>, description: Option<string>)

  datatype Contributor = Contributor(user: User, contributions: int)

  datatype Dependency = Dependency(name: string, version: Option<string>)

  datatype Issue = Issue(
    number: int, title: string, author: User, state: string,
    createdAt: Timestamp, updatedAt: Timestamp, closedAt: Option<Timestamp>,
    labels: Option<seq<Label>>, assignees: Option<seq<User>>)

  datatype PullRequest = PullRequest(
    number: int, title: string, author: User, state: string,
    createdAt: Timestamp, updatedAt: Timestamp, closedAt: Option<Timestamp>, mergedAt: Option<Timestamp>,
    labels: Option<seq<Label>>, assignees: Option<seq<User>>)

  /** Every field defaults to `None`. The license and the languages are the
      JSON objects GitHub returns; only their presence matters here. */
  datatype Repository = Repository(
    url: Option<GithubUrl>,
    defaultBranchCommits: Option<seq<Commit>>,
    branches: Option<seq<Branch>>,
    issues: Option<seq<Issue>>,
    pulls: Option<seq<PullRequest>>,
    contributors: Option<seq<Contributor>>,
    license: Option<map<string, string>>,
    languages: Option<LangAnalytics.LangMap>,
    dependencies: Option<seq<Dependency>>)

  /** `xs or []`. */
  function OrEmpty<T>(xs: Option<seq<T>>): seq<T> {
    if xs.Some? then xs.value else []
  }

  /** How many elements of `s` satisfy `p`: `sum(1 for x in s if p(x))`. */
  function CountWhere<T>(s: seq<T>, p: T -> bool): (n: nat)
    ensures n <= |s|
  {
    if |s| == 0 then 0 else (if p(s[0]) then 1 else 0) + CountWhere(s[1..], p)
  }

  /** Two conditions no element meets together count at most the length,
      and exactly the length when every element meets one of them. */
  lemma {:induction false} DisjointCounts<T>(s: seq<T>, p: T -> bool, q: T -> bool)
    requires forall i :: 0 <= i < |s| ==> !(p(s[i]) && q(s[i]))
    ensures CountWhere(s, p) + CountWhere(s, q) <= |s|
    ensures CountWhere(s, p) + CountWhere(s, q) == |s| <==> forall i :: 0 <= i < |s| ==> p(s[i]) || q(s[i])
    decreases |s|
  {
    if |s| > 0 {
      DisjointCounts(s[1..], p, q);
      if forall i :: 0 <= i < |s[1..]| ==> p(s[1..][i]) || q(s[1..][i]) {
        if p(s[0]) || q(s[0]) {
          forall i | 0 <= i < |s|
            ensures p(s[i]) || q(s[i])
          {
            if i > 0 {
              assert s[i] == s[1..][i - 1];
            }
          }
        }
      } else {
        var i :| 0 <= i < |s[1..]| && !(p(s[1..][i]) || q(s[1..][i]));
        assert s[i + 1] == s[1..][i];
      }
    }
  }

  // ---------------------------------------------------------------------
  // commit_count

  /** The commit lists of the branches, `None` as empty, one after the
      other. */
  function BranchCommits(branches: seq<Branch>): seq<Commit> {
    if |branches| == 0 then [] else OrEmpty(branches[0].commits) + BranchCommits(branches[1..])
  }

  function SumOfBranchLengths(branches: seq<Branch>): nat {
    if |branches| == 0 then 0 else |OrEmpty(branches[0].commits)| + SumOfBranchLengths(branches[1..])
  }

  /** `commit_count()`. */
  function CommitCount(r: Repository): nat {
    SumOfBranchLengths(OrEmpty(r.branches)) + |OrEmpty(r.defaultBranchCommits)|
  }

  lemma {:induction false} SumOfBranchLengthsIsLength(branches: seq<Branch>)
    ensures SumOfBranchLengths(branches) == |BranchCommits(branches)|
    decreases |branches|
  {
    if |branches| > 0 {
      SumOfBranchLengthsIsLength(branches[1..]);
    }
  }

  /** The count is the number of commits of all branches and of the
      default branch together, a missing list counting as empty. */
  lemma {:induction false} CommitCountIsAllCommits(r: Repository)
    ensures CommitCount(r) == |BranchCommits(OrEmpty(r.branches)) + OrEmpty(r.defaultBranchCommits)|
  {
    SumOfBranchLengthsIsLength(OrEmpty(r.branches));
  }

  // ---------------------------------------------------------------------
  // issue_stats and pull_stats

  datatype IssueStats = IssueStats(open: nat, closed: nat)

  predicate IssueOpen(i: Issue) { i.state == "open" }
  predicate IssueClosed(i: Issue) { i.state == "closed" }

  /** `issue_stats()`. */
  function IssueStatsOf(r: Repository): IssueStats {
    var issues := OrEmpty(r.issues);
    IssueStats(CountWhere(issues, IssueOpen), CountWhere(issues, IssueClosed))
  }

  /** Only the exact states "open" and "closed" count, so the two counts
      add up to at most the number of issues, and to exactly that number
      when no issue has another state. */
  lemma {:induction false} IssueStatsBound(r: Repository)
    ensures IssueStatsOf(r).open + IssueStatsOf(r).closed <= |OrEmpty(r.issues)|
    ensures IssueStatsOf(r).open + IssueStatsOf(r).closed == |OrEmpty(r.issues)| <==>
      forall i :: 0 <= i < |OrEmpty(r.issues)| ==> OrEmpty(r.issues)[i].state in {"open", "closed"}
  {
    DisjointCounts(OrEmpty(r.issues), IssueOpen, IssueClosed);
  }

  datatype PullStats = PullStats(open: nat, merged: nat, closedUnmerged: nat)

  predicate PullOpen(p: PullRequest) { p.state == "open" }
  /** Merged whatever its state. */
  predicate PullMerged(p: PullRequest) { p.mergedAt.Some? }
  predicate PullClosedUnmerged(p: PullRequest) { p.state == "closed" && p.mergedAt.None? }

  /** `pull_stats()`. */
  function PullStatsOf(r: Repository): PullStats {
    var pulls := OrEmpty(r.pulls);
    PullStats(CountWhere(pulls, PullOpen), CountWhere(pulls, PullMerged), CountWhere(pulls, PullClosedUnmerged))
  }

  /** A pull request is never both merged and closed-unmerged, nor both
      open and closed-unmerged, so each of those pairs of counts is at most
      the number of pull requests. */
  lemma {:induction false} PullStatsBound(r: Repository)
    ensures PullStatsOf(r).merged + PullStatsOf(r).closedUnmerged <= |OrEmpty(r.pulls)|
    ensures PullStatsOf(r).open + PullStatsOf(r).closedUnmerged <= |OrEmpty(r.pulls)|
  {
    DisjointCounts(OrEmpty(r.pulls), PullMerged, PullClosedUnmerged);
    DisjointCounts(OrEmpty(r.pulls), PullOpen, PullClosedUnmerged);
  }

  /** `contributor_count()`: zero exactly when there is no contributor
      list or it is empty. */
  function ContributorCount(r: Repository): (n: nat)
    ensures n == 0 <==> r.contributors.None? || r.contributors.value == []
  {
    |OrEmpty(r.contributors)|
  }

  // ---------------------------------------------------------------------
  // lifetime_days and time_to_merge

  /** `(later - earlier).days`: a `timedelta` keeps whole days rounded
      down, so a negative difference goes to the earlier day. */
  function DaysBetween(earlier: Timestamp, later: Timestamp): (d: int)
    ensures d * MicrosPerDay <= later - earlier < (d + 1) * MicrosPerDay
  {
    (later - earlier) / MicrosPerDay
  }

  /** `Issue.lifetime_days()`: no value for an issue still open, otherwise
      the whole days from creation to closing. */
  function LifetimeDays(i: Issue): (d: Option<int>)
    ensures d.None? <==> i.closedAt.None?
    ensures d.Some? ==> d.value * MicrosPerDay <= i.closedAt.value - i.createdAt < (d.value + 1) * MicrosPerDay
  {
    if i.closedAt.Some? then Some(DaysBetween(i.createdAt, i.closedAt.value)) else None
  }

  /** `PullRequest.time_to_merge()`: no value for an unmerged pull request,
      otherwise the whole days from creation to merging. */
  function TimeToMerge(p: PullRequest): (d: Option<int>)
    ensures d.None? <==> p.mergedAt.None?
    ensures d.Some? ==> d.value * MicrosPerDay <= p.mergedAt.value - p.createdAt < (d.value + 1) * MicrosPerDay
  {
    if p.mergedAt.Some? then Some(DaysBetween(p.createdAt, p.mergedAt.value)) else None
  }

  /** Events less than a day apart are zero days apart; a day later is one
      more day. */
  lemma {:induction false} DaysBetweenSteps(earlier: Timestamp, later: Timestamp)
    ensures 0 <= later - earlier < MicrosPerDay ==> DaysBetween(earlier, later) == 0
    ensures DaysBetween(earlier, later + MicrosPerDay) == DaysBetween(earlier, later) + 1
  {
  }
}
