/** `GitHubClient` in src/repo_radar/api/github_client.py: every page fetch
    is one cycle through the shared rate-limit gate, and `get_contributors`
    walks the pages while the last one has a next link.

    The fetch itself calls a function the API module does not define, so it
    is an oracle: the endpoint is the sequence of what the successive fetches
    give, the k-th fetch of a walk getting element k. */
module GitHubClientModel {
  import opened Wrappers
  import opened Http
  import opened RateLimit
  import opened GitHubTokens
  import opened GitHubUrls
  import opened GitHubParsers

  /** What one fetch gives: a response, or an exception raised before there
      was one. */
  datatype FetchResult = Fetched(response: Response) | FetchRaised

  /** The arguments of one page fetch. */
  datatype PageRequest = PageRequest(url: GithubUrl, page: int, perPage: int)

  /** The end of one gate cycle: the gate afterwards, the clock, and the
      page or the exception that left the `async with` block. */
  datatype CycleEnd = CycleEnd(state: GateState, later: int, result: Result<Response, GateError>)

  /** May `task` start a gate cycle? A lock held by another task would block
      it forever. */
  predicate CanEnter(g: GateState, task: TaskId) {
    Consistent(g) && (g.owner == None || g.owner == Some(task))
  }

  /** One `_get_contributors_page` call as a value.
      A task that already owns the gate is refused at the entry and nothing
      is fetched. Otherwise it enters (maybe waiting), fetches, and reports
      the headers. The exit then frees the gate if the report succeeded. If
      the fetch raised or the headers were unusable, the exit raises
      instead: that `RuntimeError` replaces the original exception, and the
      gate stays locked by the caller. */
  function PageCycle(g: GateState, task: TaskId, fetch: FetchResult, now: int, defaultRate: int,
                    read: Response -> Option<Report>): (c: CycleEnd)
    requires CanEnter(g, task)
    ensures Consistent(c.state)
    ensures c.state.quota.resetTime.Some? && g.quota.resetTime.Some? ==>
      c.state.quota.resetTime.value >= g.quota.resetTime.value
  {
    if g.owner == Some(task) then CycleEnd(g, now, Failure(NotReentrant))
    else
      var entered := AfterEnter(g.quota, now, defaultRate);
      var later := now + WaitTime(g.quota, now);
      match fetch
      case FetchRaised => CycleEnd(GateState(entered, true, Some(task), false), later, Failure(HeadersNotUpdated))
      case Fetched(r) =>
        match read(r)
        case None => CycleEnd(GateState(entered, true, Some(task), false), later, Failure(HeadersNotUpdated))
        case Some(report) => CycleEnd(GateState(MergeQuota(entered, report), false, None, true), later, Success(r))
  }

  /** A cycle succeeds exactly when the caller entered, the fetch gave a
      response and its quota headers parsed; the page is then that response
      and the gate is free again. Every failure after entering leaves the
      gate locked by the caller, with the headers-not-updated error. */
  lemma {:induction false} PageCycleOutcome(g: GateState, task: TaskId, fetch: FetchResult, now: int, defaultRate: int,
                         read: Response -> Option<Report>)
    requires CanEnter(g, task)
    ensures var c := PageCycle(g, task, fetch, now, defaultRate, read);
      && (c.result.Success? <==> g.owner == None && fetch.Fetched? && read(fetch.response).Some?)
      && (c.result.Success? ==> c.result.value == fetch.response && !c.state.lockHeld && c.state.owner == None)
      && (c.result.Failure? && g.owner == None ==>
            c.result.error == HeadersNotUpdated && c.state.lockHeld && c.state.owner == Some(task))
      && (g.owner == Some(task) ==> c == CycleEnd(g, now, Failure(NotReentrant)))
  {
  }

  /** A failed cycle poisons the gate for the failing task: its next cycle
      is refused at the entry, without fetching. */
  lemma {:induction false} FailedCycleRefusesReentry(g: GateState, task: TaskId, fetch: FetchResult, next: FetchResult, now: int, defaultRate: int,
                                  read: Response -> Option<Report>)
    requires CanEnter(g, task)
    requires PageCycle(g, task, fetch, now, defaultRate, read).result.Failure?
    ensures var c := PageCycle(g, task, fetch, now, defaultRate, read);
      CanEnter(c.state, task) && PageCycle(c.state, task, next, c.later, defaultRate, read).result == Failure(NotReentrant)
  {
    PageCycleOutcome(g, task, fetch, now, defaultRate, read);
  }

  /** Every next link leads to a page the endpoint has: the walk ends within
      the sequence. */
  predicate Closed(endpoint: seq<FetchResult>, nextRegex: string -> bool) {
    forall k :: 0 <= k < |endpoint| && endpoint[k].Fetched? && PaginatedHasNext(endpoint[k].response, nextRegex)
      ==> k + 1 < |endpoint|
  }

  /** How a walk ends: the gate, the clock, the pages or the error, and how
      many fetches were made. */
  datatype WalkEnd = WalkEnd(state: GateState, later: int, result: Result<seq<Response>, GateError>, fetches: nat)

  /** The walk from the k-th fetch on, with the pages `acc` collected so far. */
  function WalkFrom(g: GateState, task: TaskId, endpoint: seq<FetchResult>, k: nat, now: int, defaultRate: int,
                    nextRegex: string -> bool, read: Response -> Option<Report>, acc: seq<Response>): (w: WalkEnd)
    requires k < |endpoint| && Closed(endpoint, nextRegex) && CanEnter(g, task)
    ensures k <= w.fetches <= |endpoint|
    decreases |endpoint| - k
  {
    var c := PageCycle(g, task, endpoint[k], now, defaultRate, read);
    var fetched := if g.owner == None then k + 1 else k;
    match c.result
    case Failure(e) => WalkEnd(c.state, c.later, Failure(e), fetched)
    case Success(r) =>
      PageCycleOutcome(g, task, endpoint[k], now, defaultRate, read);
      if PaginatedHasNext(r, nextRegex) then
        WalkFrom(c.state, task, endpoint, k + 1, c.later, defaultRate, nextRegex, read, acc + [r])
      else WalkEnd(c.state, c.later, Success(acc + [r]), k + 1)
  }

  /** What `get_contributors` does against `endpoint`. */
  function Walk(g: GateState, task: TaskId, endpoint: seq<FetchResult>, now: int, defaultRate: int,
                nextRegex: string -> bool, read: Response -> Option<Report>): WalkEnd
    requires 0 < |endpoint| && Closed(endpoint, nextRegex) && CanEnter(g, task)
  {
    WalkFrom(g, task, endpoint, 0, now, defaultRate, nextRegex, read, [])
  }

  /** One step of a walk: the cycle of the k-th fetch, then either the end
      of the walk or the walk from the next fetch with the page appended. */
  lemma {:induction false} WalkStep(g: GateState, task: TaskId, endpoint: seq<FetchResult>, k: nat, now: int, defaultRate: int,
                 nextRegex: string -> bool, read: Response -> Option<Report>, acc: seq<Response>)
    requires k < |endpoint| && Closed(endpoint, nextRegex) && CanEnter(g, task)
    ensures var c := PageCycle(g, task, endpoint[k], now, defaultRate, read);
      var w := WalkFrom(g, task, endpoint, k, now, defaultRate, nextRegex, read, acc);
      && (c.result.Success? ==>
            g.owner == None && endpoint[k] == Fetched(c.result.value) && !c.state.lockHeld && c.state.owner == None)
      && (c.result.Failure? ==> w == WalkEnd(c.state, c.later, Failure(c.result.error), if g.owner == None then k + 1 else k))
      && (c.result.Success? && PaginatedHasNext(c.result.value, nextRegex) ==>
            && k + 1 < |endpoint| && CanEnter(c.state, task) && c.state.owner == None
            && w == WalkFrom(c.state, task, endpoint, k + 1, c.later, defaultRate, nextRegex, read, acc + [c.result.value]))
      && (c.result.Success? && !PaginatedHasNext(c.result.value, nextRegex) ==>
            w == WalkEnd(c.state, c.later, Success(acc + [c.result.value]), k + 1))
  {
    PageCycleOutcome(g, task, endpoint[k], now, defaultRate, read);
  }

  /** A successful walk made at least one fetch, its last page has no next
      link, and the gate ends free. */
  lemma {:induction false} WalkSuccess(g: GateState, task: TaskId, endpoint: seq<FetchResult>, k: nat, now: int,
                                       defaultRate: int, nextRegex: string -> bool, read: Response -> Option<Report>, acc: seq<Response>)
    requires k < |endpoint| && Closed(endpoint, nextRegex) && CanEnter(g, task)
    requires WalkFrom(g, task, endpoint, k, now, defaultRate, nextRegex, read, acc).result.Success?
    ensures var w := WalkFrom(g, task, endpoint, k, now, defaultRate, nextRegex, read, acc);
      k < w.fetches && !w.state.lockHeld && w.state.owner == None
    ensures var pages := WalkFrom(g, task, endpoint, k, now, defaultRate, nextRegex, read, acc).result.value;
      |pages| > 0 && !PaginatedHasNext(pages[|pages| - 1], nextRegex)
    decreases |endpoint| - k
  {
    var c := PageCycle(g, task, endpoint[k], now, defaultRate, read);
    WalkStep(g, task, endpoint, k, now, defaultRate, nextRegex, read, acc);
    var acc' := acc + [c.result.value];
    if PaginatedHasNext(c.result.value, nextRegex) {
      WalkSuccess(c.state, task, endpoint, k + 1, c.later, defaultRate, nextRegex, read, acc');
    } else {
      assert acc'[|acc'| - 1] == c.result.value;
    }
  }

  /** The responses among the fetch results, in order. */
  function Responses(fetches: seq<FetchResult>): seq<Response> {
    if |fetches| == 0 then []
    else (if fetches[0].Fetched? then [fetches[0].response] else []) + Responses(fetches[1..])
  }

  /** When every fetch gave a response, there is one response per fetch,
      at the same position. */
  lemma {:induction false} ResponsesOfFetched(fetches: seq<FetchResult>)
    requires forall i :: 0 <= i < |fetches| ==> fetches[i].Fetched?
    ensures |Responses(fetches)| == |fetches|
    ensures forall i :: 0 <= i < |fetches| ==> Responses(fetches)[i] == fetches[i].response
  {
    if |fetches| > 0 {
      ResponsesOfFetched(fetches[1..]);
      var rest := Responses(fetches[1..]);
      assert Responses(fetches) == [fetches[0].response] + rest;
      forall i | 0 < i < |fetches| ensures Responses(fetches)[i] == fetches[i].response {
        assert fetches[1..][i - 1] == fetches[i];
      }
    }
  }

  /** The pages of a successful walk are the responses of its fetches, in
      fetch order, after the pages collected before; every one of those
      fetches gave a response. */
  lemma {:induction false} WalkPagesInOrder(g: GateState, task: TaskId, endpoint: seq<FetchResult>, k: nat, now: int,
                                            defaultRate: int, nextRegex: string -> bool, read: Response -> Option<Report>, acc: seq<Response>)
    requires k < |endpoint| && Closed(endpoint, nextRegex) && CanEnter(g, task)
    requires WalkFrom(g, task, endpoint, k, now, defaultRate, nextRegex, read, acc).result.Success?
    ensures var w := WalkFrom(g, task, endpoint, k, now, defaultRate, nextRegex, read, acc);
      && k < w.fetches
      && w.result.value == acc + Responses(endpoint[k..w.fetches])
    decreases |endpoint| - k
  {
    var c := PageCycle(g, task, endpoint[k], now, defaultRate, read);
    WalkStep(g, task, endpoint, k, now, defaultRate, nextRegex, read, acc);
    var r := c.result.value;
    var acc' := acc + [r];
    var w := WalkFrom(g, task, endpoint, k, now, defaultRate, nextRegex, read, acc);
    if PaginatedHasNext(r, nextRegex) {
      WalkPagesInOrder(c.state, task, endpoint, k + 1, c.later, defaultRate, nextRegex, read, acc');
      PagesStep(w.result.value, acc, r, endpoint, k, w.fetches);
    } else {
      PagesStep(w.result.value, acc, r, endpoint, k, k + 1);
    }
  }

  /** Prepending the page of fetch k to the responses of the fetches after it. */
  lemma {:induction false} PagesStep(pages: seq<Response>, acc: seq<Response>, r: Response, endpoint: seq<FetchResult>, k: nat, f: nat)
    requires k < f <= |endpoint| && endpoint[k] == Fetched(r)
    requires pages == acc + [r] + Responses(endpoint[k + 1..f])
    ensures pages == acc + Responses(endpoint[k..f])
  {
    var fs := endpoint[k..f];
    assert fs[0] == endpoint[k] && fs[1..] == endpoint[k + 1..f];
    assert Responses(fs) == [r] + Responses(endpoint[k + 1..f]);
    assert acc + [r] + Responses(endpoint[k + 1..f]) == acc + ([r] + Responses(endpoint[k + 1..f]));
  }

  /** Every fetch of a successful walk gave a response. */
  lemma {:induction false} WalkFetchesGavePages(g: GateState, task: TaskId, endpoint: seq<FetchResult>, k: nat, now: int,
                                                defaultRate: int, nextRegex: string -> bool, read: Response -> Option<Report>, acc: seq<Response>)
    requires k < |endpoint| && Closed(endpoint, nextRegex) && CanEnter(g, task)
    requires WalkFrom(g, task, endpoint, k, now, defaultRate, nextRegex, read, acc).result.Success?
    ensures var w := WalkFrom(g, task, endpoint, k, now, defaultRate, nextRegex, read, acc);
      forall i :: k <= i < w.fetches ==> endpoint[i].Fetched? && read(endpoint[i].response).Some?
    decreases |endpoint| - k
  {
    var c := PageCycle(g, task, endpoint[k], now, defaultRate, read);
    WalkStep(g, task, endpoint, k, now, defaultRate, nextRegex, read, acc);
    PageCycleOutcome(g, task, endpoint[k], now, defaultRate, read);
    if PaginatedHasNext(c.result.value, nextRegex) {
      WalkFetchesGavePages(c.state, task, endpoint, k + 1, c.later, defaultRate, nextRegex, read, acc + [c.result.value]);
    }
  }

  /** So a successful `get_contributors` returns one page per fetch it
      made, the i-th page being the response of the i-th fetch. */
  lemma {:induction false} SuccessfulWalkPages(g: GateState, task: TaskId, endpoint: seq<FetchResult>, now: int,
                            defaultRate: int, nextRegex: string -> bool, read: Response -> Option<Report>)
    requires 0 < |endpoint| && Closed(endpoint, nextRegex) && CanEnter(g, task)
    requires Walk(g, task, endpoint, now, defaultRate, nextRegex, read).result.Success?
    ensures var w := Walk(g, task, endpoint, now, defaultRate, nextRegex, read);
      && |w.result.value| == w.fetches
      && forall i :: 0 <= i < w.fetches ==> endpoint[i] == Fetched(w.result.value[i])
  {
    var w := WalkFrom(g, task, endpoint, 0, now, defaultRate, nextRegex, read, []);
    WalkPagesInOrder(g, task, endpoint, 0, now, defaultRate, nextRegex, read, []);
    WalkFetchesGavePages(g, task, endpoint, 0, now, defaultRate, nextRegex, read, []);
    var fs := endpoint[0..w.fetches];
    assert w.result.value == Responses(fs);
    ResponsesOfFetched(fs);
    forall i | 0 <= i < w.fetches ensures endpoint[i] == Fetched(w.result.value[i]) {
      assert fs[i] == endpoint[i];
    }
  }

  /** Every page of a successful walk but the last has a next link. */
  lemma {:induction false} WalkLinksUntilLast(g: GateState, task: TaskId, endpoint: seq<FetchResult>, k: nat, now: int,
                                              defaultRate: int, nextRegex: string -> bool, read: Response -> Option<Report>, acc: seq<Response>)
    requires k < |endpoint| && Closed(endpoint, nextRegex) && CanEnter(g, task)
    requires WalkFrom(g, task, endpoint, k, now, defaultRate, nextRegex, read, acc).result.Success?
    ensures var pages := WalkFrom(g, task, endpoint, k, now, defaultRate, nextRegex, read, acc).result.value;
      forall i :: |acc| <= i < |pages| - 1 ==> PaginatedHasNext(pages[i], nextRegex)
    decreases |endpoint| - k
  {
    var c := PageCycle(g, task, endpoint[k], now, defaultRate, read);
    WalkStep(g, task, endpoint, k, now, defaultRate, nextRegex, read, acc);
    var acc' := acc + [c.result.value];
    if PaginatedHasNext(c.result.value, nextRegex) {
      WalkLinksUntilLast(c.state, task, endpoint, k + 1, c.later, defaultRate, nextRegex, read, acc');
      WalkPagesInOrder(c.state, task, endpoint, k + 1, c.later, defaultRate, nextRegex, read, acc');
      var pages := WalkFrom(g, task, endpoint, k, now, defaultRate, nextRegex, read, acc).result.value;
      assert pages[|acc|] == acc'[|acc|];
    }
  }

  /** A failed walk returns no pages. Every fetch before the last one gave
      a page with usable headers and a next link, the gate ends locked by
      the caller, and the error is the exit's headers-not-updated error, or
      the refused re-entry when the caller already held the gate at the
      start. */
  lemma {:induction false} WalkFailure(g: GateState, task: TaskId, endpoint: seq<FetchResult>, k: nat, now: int,
                                       defaultRate: int, nextRegex: string -> bool, read: Response -> Option<Report>, acc: seq<Response>)
    requires k < |endpoint| && Closed(endpoint, nextRegex) && CanEnter(g, task)
    requires WalkFrom(g, task, endpoint, k, now, defaultRate, nextRegex, read, acc).result.Failure?
    ensures var w := WalkFrom(g, task, endpoint, k, now, defaultRate, nextRegex, read, acc);
      && w.state.lockHeld && w.state.owner == Some(task)
      && (w.result.error == NotReentrant <==> g.owner == Some(task))
      && (w.result.error == HeadersNotUpdated <==> g.owner == None)
      && (g.owner == None ==> k < w.fetches)
      && (forall i :: k <= i < w.fetches - 1 ==>
            endpoint[i].Fetched? && read(endpoint[i].response).Some?
            && PaginatedHasNext(endpoint[i].response, nextRegex))
      && (g.owner == None ==>
            endpoint[w.fetches - 1].FetchRaised? || read(endpoint[w.fetches - 1].response).None?)
    decreases |endpoint| - k
  {
    var c := PageCycle(g, task, endpoint[k], now, defaultRate, read);
    WalkStep(g, task, endpoint, k, now, defaultRate, nextRegex, read, acc);
    PageCycleOutcome(g, task, endpoint[k], now, defaultRate, read);
    if c.result.Success? {
      WalkFailure(c.state, task, endpoint, k + 1, c.later, defaultRate, nextRegex, read, acc + [c.result.value]);
    }
  }

  /** Against an endpoint whose first n fetches all give pages with usable
      headers that carry a next link exactly up to page n - 1, a walk from
      a free gate succeeds after exactly n fetches. */
  lemma {:induction false} WalkOfNPages(g: GateState, task: TaskId, endpoint: seq<FetchResult>, k: nat, n: nat, now: int,
                                        defaultRate: int, nextRegex: string -> bool, read: Response -> Option<Report>, acc: seq<Response>)
    requires k < n <= |endpoint| && Closed(endpoint, nextRegex) && CanEnter(g, task) && g.owner == None
    requires forall i :: k <= i < n ==> endpoint[i].Fetched? && read(endpoint[i].response).Some?
    requires forall i :: k <= i < n ==> (PaginatedHasNext(endpoint[i].response, nextRegex) <==> i < n - 1)
    ensures var w := WalkFrom(g, task, endpoint, k, now, defaultRate, nextRegex, read, acc);
      w.result.Success? && w.fetches == n
    decreases n - k
  {
    var c := PageCycle(g, task, endpoint[k], now, defaultRate, read);
    WalkStep(g, task, endpoint, k, now, defaultRate, nextRegex, read, acc);
    PageCycleOutcome(g, task, endpoint[k], now, defaultRate, read);
    if k < n - 1 {
      WalkOfNPages(c.state, task, endpoint, k + 1, n, c.later, defaultRate, nextRegex, read, acc + [c.result.value]);
    }
  }

  /** So `get_contributors` against such an endpoint returns exactly its
      first n pages, in order. */
  lemma {:induction false} NPagesReturned(g: GateState, task: TaskId, endpoint: seq<FetchResult>, n: nat, now: int,
                       defaultRate: int, nextRegex: string -> bool, read: Response -> Option<Report>)
    requires 0 < n <= |endpoint| && Closed(endpoint, nextRegex) && CanEnter(g, task) && g.owner == None
    requires forall i :: 0 <= i < n ==> endpoint[i].Fetched? && read(endpoint[i].response).Some?
    requires forall i :: 0 <= i < n ==> (PaginatedHasNext(endpoint[i].response, nextRegex) <==> i < n - 1)
    ensures var w := Walk(g, task, endpoint, now, defaultRate, nextRegex, read);
      && w.result.Success? && w.fetches == n && w.result.value == Responses(endpoint[..n])
  {
    WalkOfNPages(g, task, endpoint, 0, n, now, defaultRate, nextRegex, read, []);
    WalkPagesInOrder(g, task, endpoint, 0, now, defaultRate, nextRegex, read, []);
    assert endpoint[0..n] == endpoint[..n];
    assert [] + Responses(endpoint[..n]) == Responses(endpoint[..n]);
  }

  /** The page number of the i-th fetch: the first uses the default page,
      and the counter, starting at 1, is incremented before each later one,
      so they ask for 2, 3, 4, ... whatever the default page is. */
  function PageNumber(i: nat, defaultPage: int): (p: int)
    ensures i > 0 ==> p == i + 1
    ensures i == 0 ==> p == defaultPage
  {
    if i == 0 then defaultPage else i + 1
  }

  lemma {:induction false} LaterPagesAreConsecutive(i: nat, defaultPage: int)
    requires i > 0
    ensures PageNumber(i + 1, defaultPage) == PageNumber(i, defaultPage) + 1
  {
  }

  /** The page fetches of a walk that made n fetches, in order. */
  function PageRequests(url: GithubUrl, n: nat, defaultPage: int, perPage: int): (rs: seq<PageRequest>)
    ensures |rs| == n
    ensures forall i :: 0 <= i < n ==> rs[i] == PageRequest(url, PageNumber(i, defaultPage), perPage)
  {
    if n == 0 then [] else PageRequests(url, n - 1, defaultPage, perPage) + [PageRequest(url, PageNumber(n - 1, defaultPage), perPage)]
  }

  class GitHubClient {
    const token: GitHubToken
    const rateManager: RateLimitManager
    /** `GITHUB_DEFAULT_PAGE` and `GITHUB_MAX_PAGINATED`, the default
        arguments of the page fetchers. */
    const defaultPage: int
    const maxPaginated: int

    /** `__init__`: the token and a fresh gate. The validation request the
        base class makes is not part of this model. */
    constructor (passedToken: string, defaultRate: int, defaultPage: int, maxPaginated: int)
      ensures token == GitHubToken(passedToken)
      ensures fresh(rateManager) && rateManager.Valid()
      ensures rateManager.State() == GateState(Quota(None, None), false, None, false)
      ensures rateManager.defaultRate == defaultRate && rateManager.readReport == HeaderReport
      ensures this.defaultPage == defaultPage && this.maxPaginated == maxPaginated
    {
      token := GitHubToken(passedToken);
      rateManager := new RateLimitManager(defaultRate);
      this.defaultPage := defaultPage;
      this.maxPaginated := maxPaginated;
    }

    /** `_get_contributors_page`: `async with self.rate_manager`, the fetch,
        `update_from_headers`, and the return through `__aexit__`. */
    method ContributorsPage(task: TaskId, fetch: FetchResult, now: int) returns (result: Result<Response, GateError>, later: int)
      requires CanEnter(rateManager.State(), task)
      modifies rateManager
      ensures var c := PageCycle(old(rateManager.State()), task, fetch, now, rateManager.defaultRate, rateManager.readReport);
        rateManager.State() == c.state && result == c.result && later == c.later
    {
      var enterErr;
      enterErr, later := rateManager.Enter(task, now);
      if enterErr.Some? {
        // `__aenter__` raised: the body and `__aexit__` do not run.
        return Failure(enterErr.value), later;
      }
      match fetch
      case FetchRaised =>
        // The exception leaves the block; `__aexit__` raises over it.
        var exitErr := rateManager.Exit();
        result := Failure(exitErr.value);
      case Fetched(response) =>
        var updateErr := rateManager.UpdateFromHeaders(task, response);
        var exitErr := rateManager.Exit();
        if exitErr.Some? {
          result := Failure(exitErr.value);
        } else {
          result := Success(response);
        }
    }

    /** One cycle of a walk: `ContributorsPage` on the k-th fetch, told
        apart by how the walk goes on from it. */
    method WalkPage(task: TaskId, endpoint: seq<FetchResult>, k: nat, now: int, nextRegex: string -> bool,
                    ghost acc: seq<Response>) returns (page: Result<Response, GateError>, later: int)
      requires k < |endpoint| && Closed(endpoint, nextRegex)
      requires CanEnter(rateManager.State(), task)
      modifies rateManager
      ensures var w := WalkFrom(old(rateManager.State()), task, endpoint, k, now, rateManager.defaultRate, nextRegex, rateManager.readReport, acc);
        && (page.Failure? ==>
              w == WalkEnd(rateManager.State(), later, Failure(page.error), if old(rateManager.State().owner) == None then k + 1 else k))
        && (page.Success? ==>
              old(rateManager.State().owner) == None && CanEnter(rateManager.State(), task) && rateManager.State().owner == None)
        && (page.Success? && PaginatedHasNext(page.value, nextRegex) ==>
              && k + 1 < |endpoint|
              && w == WalkFrom(rateManager.State(), task, endpoint, k + 1, later, rateManager.defaultRate, nextRegex, rateManager.readReport, acc + [page.value]))
        && (page.Success? && !PaginatedHasNext(page.value, nextRegex) ==>
              w == WalkEnd(rateManager.State(), later, Success(acc + [page.value]), k + 1))
    {
      ghost var g := rateManager.State();
      page, later := ContributorsPage(task, endpoint[k], now);
      PageCycleOutcome(g, task, endpoint[k], now, rateManager.defaultRate, rateManager.readReport);
      WalkStep(g, task, endpoint, k, now, rateManager.defaultRate, nextRegex, rateManager.readReport, acc);
    }

    /** `get_contributors(url)`: the first page, then the following ones
        while the last page had a next link. `requests` lists the page
        fetches made, in order. */
    method GetContributors(task: TaskId, url: GithubUrl, endpoint: seq<FetchResult>, now: int, nextRegex: string -> bool)
      returns (result: Result<seq<Response>, GateError>, requests: seq<PageRequest>, later: int)
      requires 0 < |endpoint| && Closed(endpoint, nextRegex)
      requires CanEnter(rateManager.State(), task)
      modifies rateManager
      ensures var w := Walk(old(rateManager.State()), task, endpoint, now, rateManager.defaultRate, nextRegex, rateManager.readReport);
        && rateManager.State() == w.state && result == w.result && later == w.later
        && requests == PageRequests(url, w.fetches, defaultPage, maxPaginated)
    {
      ghost var whole := Walk(rateManager.State(), task, endpoint, now, rateManager.defaultRate, nextRegex, rateManager.readReport);
      var entered := rateManager.State().owner == None;
      var first;
      first, later := WalkPage(task, endpoint, 0, now, nextRegex, []);
      requests := if entered then [PageRequest(url, defaultPage, maxPaginated)] else [];
      if first.Failure? {
        return Failure(first.error), requests, later;
      }
      var response := first.value;
      var contributors := [response];
      assert [] + [response] == contributors;
      var page := 1;
      while PaginatedHasNext(response, nextRegex)
        invariant 1 <= page <= |endpoint|
        invariant CanEnter(rateManager.State(), task) && rateManager.State().owner == None
        invariant requests == PageRequests(url, page, defaultPage, maxPaginated)
        invariant PaginatedHasNext(response, nextRegex) ==> page < |endpoint|
        invariant PaginatedHasNext(response, nextRegex) ==>
          whole == WalkFrom(rateManager.State(), task, endpoint, page, later, rateManager.defaultRate, nextRegex, rateManager.readReport, contributors)
        invariant !PaginatedHasNext(response, nextRegex) ==>
          whole == WalkEnd(rateManager.State(), later, Success(contributors), page)
        decreases |endpoint| - page
      {
        page := page + 1;
        var next;
        next, later := WalkPage(task, endpoint, page - 1, later, nextRegex, contributors);
        requests := requests + [PageRequest(url, page, maxPaginated)];
        if next.Failure? {
          return Failure(next.error), requests, later;
        }
        response := next.value;
        contributors := contributors + [response];
      }
      result := Success(contributors);
    }
  }
}
