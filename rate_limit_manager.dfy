/** The rate-limit gate, `RateLimitManager` in
    src/repo_radar/utils/rate_limit_manager.py.

    One manager is shared by every page fetch of a client. A task enters the
    gate (`__aenter__`), makes one request, reports the response's quota
    headers (`update_from_headers`) and leaves (`__aexit__`). The asyncio
    lock is the pair `lockHeld` / `lockOwner`; tasks are opaque ids; the
    wall clock is an integer passed in, and the sleep of `__aenter__`
    advances it. */
module RateLimit {
  import opened Wrappers
  import opened PyText
  import opened Http

  /** An asyncio task, known only by its identity. */
  type TaskId = nat

  /** The `RuntimeError`s the gate raises, one per message, plus the one
      `asyncio.Lock.release()` raises when nobody holds the lock. */
  datatype GateError =
    | NotReentrant       // "RateLimitManager is not reentrant"
    | NotLockOwner       // "update_from_headers must be called within the ... task holding the lock"
    | HeadersMissing     // "Rate limit headers missing from response."
    | HeadersNotUpdated  // "Must call update_from_headers() before releasing the rate limit lock"
    | LockNotAcquired    // "Lock is not acquired." from asyncio.Lock.release()

  const RemainingHeader: string := "X-RateLimit-Remaining"
  const ResetHeader: string := "X-RateLimit-Reset"

  /** The two quota fields: requests left, and the reset time as a Unix
      timestamp; `None` while unknown. */
  datatype Quota = Quota(remaining: Option<int>, resetTime: Option<int>)

  /** What one response reports: both headers parsed as integers. */
  datatype Report = Report(remaining: int, reset: int)

  /** Python truthiness of an optional integer: `None` and `0` are false. */
  predicate Truthy(x: Option<int>) {
    x.Some? && x.value != 0
  }

  /** `self.reset_time or now`: an unknown or zero reset time stands for now. */
  function ResetOrNow(resetTime: Option<int>, now: int): int {
    if Truthy(resetTime) then resetTime.value else now
  }

  /** How long `__aenter__` sleeps at clock `now`: the wait happens only under
      `if self.remaining and self.remaining <= 0`, and lasts
      `max(0, (self.reset_time or now) - now)`. */
  function WaitTime(q: Quota, now: int): nat {
    if Truthy(q.remaining) && q.remaining.value <= 0 then
      var wait := ResetOrNow(q.resetTime, now) - now;
      if wait > 0 then wait else 0
    else 0
  }

  /** The gate sleeps exactly when the known remaining count is strictly
      negative and a nonzero reset time lies after now. */
  lemma {:induction false} WaitsExactlyWhen(q: Quota, now: int)
    ensures WaitTime(q, now) > 0 <==>
      && q.remaining.Some? && q.remaining.value < 0
      && q.resetTime.Some? && q.resetTime.value != 0 && q.resetTime.value > now
  {
  }

  /** Zero is falsy: a quota reported as exhausted (`remaining == 0`) does not
      make the gate wait, however far away the reset is. */
  lemma {:induction false} ExhaustedQuotaIsNotAwaited(q: Quota, now: int)
    requires q.remaining == Some(0)
    ensures WaitTime(q, now) == 0
  {
  }

  /** A wait ends exactly at the stored reset time. */
  lemma {:induction false} WaitEndsAtReset(q: Quota, now: int)
    requires WaitTime(q, now) > 0
    ensures q.resetTime.Some? && now + WaitTime(q, now) == q.resetTime.value
  {
  }

  /** The quota after `__aenter__`: after a wait, `remaining` is the default
      rate; otherwise both fields are left alone. */
  function AfterEnter(q: Quota, now: int, defaultRate: int): (r: Quota)
    ensures r.resetTime == q.resetTime
    ensures WaitTime(q, now) > 0 ==> r.remaining == Some(defaultRate)
    ensures WaitTime(q, now) == 0 ==> r == q
  {
    if WaitTime(q, now) > 0 then q.(remaining := Some(defaultRate)) else q
  }

  /** The merge rule of `update_from_headers`: the reported pair replaces the
      stored one only when no reset time is known or the reported one is
      strictly later. The stored window therefore only moves forward, and a
      report for the same window changes nothing. */
  function MergeQuota(q: Quota, report: Report): (r: Quota)
    ensures r.resetTime.Some? && r.resetTime.value >= report.reset
    ensures q.resetTime.Some? ==> r.resetTime.value >= q.resetTime.value
    ensures r == q || r == Quota(Some(report.remaining), Some(report.reset))
    ensures r == Quota(Some(report.remaining), Some(report.reset)) <==>
      q.resetTime.None? || q.resetTime.value < report.reset || q == Quota(Some(report.remaining), Some(report.reset))
  {
    if q.resetTime.None? || q.resetTime.value < report.reset then
      Quota(Some(report.remaining), Some(report.reset))
    else q
  }

  /** The stored quota after a series of reports, applied in order. */
  function MergeAll(q: Quota, reports: seq<Report>): Quota
    decreases |reports|
  {
    if |reports| == 0 then q else MergeAll(MergeQuota(q, reports[0]), reports[1..])
  }

  /** No report carries a reset time later than the stored one. */
  ghost predicate NoneLater(q: Quota, reports: seq<Report>) {
    forall j :: 0 <= j < |reports| ==> q.resetTime.Some? && reports[j].reset <= q.resetTime.value
  }

  /** Report `i` is the first to reach the latest reset time of the series,
      and that time is later than the stored one. */
  ghost predicate FirstLatest(q: Quota, reports: seq<Report>, i: int) {
    && 0 <= i < |reports|
    && (q.resetTime.None? || q.resetTime.value < reports[i].reset)
    && (forall j :: 0 <= j < i ==> reports[j].reset < reports[i].reset)
    && (forall j :: i < j < |reports| ==> reports[j].reset <= reports[i].reset)
  }

  /** After any series of reports, the stored quota is either the initial one
      (no report was later than it) or exactly the report that first reached
      the latest reset time of the series: the reset time ends at the
      maximum, and `remaining` is the value reported first for that window,
      not the smallest. */
  lemma {:induction false} MergeAllKeepsFirstLatest(q: Quota, reports: seq<Report>) returns (i: int)
    ensures i == -1 ==> NoneLater(q, reports) && MergeAll(q, reports) == q
    ensures i != -1 ==>
      && FirstLatest(q, reports, i)
      && MergeAll(q, reports) == Quota(Some(reports[i].remaining), Some(reports[i].reset))
    decreases |reports|
  {
    if |reports| == 0 {
      return -1;
    }
    var q1 := MergeQuota(q, reports[0]);
    var tail := reports[1..];
    var k := MergeAllKeepsFirstLatest(q1, tail);
    if k == -1 {
      if q.resetTime.None? || q.resetTime.value < reports[0].reset {
        i := 0;
        forall j | 0 < j < |reports| ensures reports[j].reset <= reports[0].reset {
          assert tail[j - 1] == reports[j];
        }
      } else {
        i := -1;
        forall j | 0 <= j < |reports| ensures q.resetTime.Some? && reports[j].reset <= q.resetTime.value {
          if j > 0 { assert tail[j - 1] == reports[j]; }
        }
      }
    } else {
      i := k + 1;
      assert tail[k] == reports[i];
      forall j | 0 <= j < i ensures reports[j].reset < reports[i].reset {
        if j > 0 { assert tail[j - 1] == reports[j]; }
      }
      forall j | i < j < |reports| ensures reports[j].reset <= reports[i].reset {
        assert tail[j - 1] == reports[j];
      }
    }
  }

  /** The stored reset time never goes back, whatever the reports say. */
  lemma {:induction false} MergeAllResetNeverDecreases(q: Quota, reports: seq<Report>)
    requires q.resetTime.Some?
    ensures MergeAll(q, reports).resetTime.Some?
    ensures MergeAll(q, reports).resetTime.value >= q.resetTime.value
    decreases |reports|
  {
    if |reports| > 0 {
      MergeAllResetNeverDecreases(MergeQuota(q, reports[0]), reports[1..]);
    }
  }

  /** `int(headers.get(name))`: a missing header is a `TypeError`, a
      non-integer one a `ValueError`; both are `None` here. */
  function ParseHeader(h: Option<string>): Option<int> {
    if h.None? then None else ParseInt(h.value)
  }

  /** Both quota headers of a response, parsed in the order
      `update_from_headers` reads them (remaining first), when both parse. */
  function HeaderReport(response: Response): Option<Report>
  {
    var remaining := ParseHeader(HeaderGet(response.headers, RemainingHeader));
    var reset := ParseHeader(HeaderGet(response.headers, ResetHeader));
    if remaining.Some? && reset.Some? then Some(Report(remaining.value, reset.value)) else None
  }

  /** Headers written out as decimal integers are read back as exactly those
      integers. */
  lemma {:induction false} HeaderReportOfIntegers(response: Response, remaining: int, reset: int)
    requires HeaderGet(response.headers, RemainingHeader) == Some(IntToString(remaining))
    requires HeaderGet(response.headers, ResetHeader) == Some(IntToString(reset))
    ensures HeaderReport(response) == Some(Report(remaining, reset))
  {
    ParseIntRoundTrip(remaining);
    ParseIntRoundTrip(reset);
  }

  /** The whole gate as a value: the quota, the lock and its owner, and
      whether the owner has reported headers. */
  datatype GateState = GateState(quota: Quota, lockHeld: bool, owner: Option<TaskId>, headersUpdated: bool)

  /** The lock is held exactly when it has an owner. */
  predicate Consistent(g: GateState) {
    g.lockHeld == g.owner.Some?
  }

  class RateLimitManager {
    var remaining: Option<int>
    var resetTime: Option<int>
    var lockHeld: bool
    var lockOwner: Option<TaskId>
    var headersUpdated: bool
    /** `GITHUB_DEFAULT_RATE`, the quota assumed after waiting out a window. */
    const defaultRate: int
    /** How `update_from_headers` reads the two quota headers: always
        `HeaderReport`, as the constructor states. Callers of the gate reason
        about it through this name, without the parsing details. */
    const readReport: Response -> Option<Report>

    /** The lock is held exactly when it has an owner: `__aenter__` sets the
        owner right after acquiring, `__aexit__` clears it right before
        releasing. */
    ghost predicate Valid()
      reads this
    {
      lockHeld == lockOwner.Some?
    }

    function QuotaState(): Quota
      reads this
    {
      Quota(remaining, resetTime)
    }

    function State(): (g: GateState)
      reads this
      ensures Valid() <==> Consistent(g)
    {
      GateState(QuotaState(), lockHeld, lockOwner, headersUpdated)
    }

    /** `__init__`: nothing known, nobody inside. */
    constructor (defaultRate: int)
      ensures Valid()
      ensures remaining == None && resetTime == None
      ensures !lockHeld && lockOwner == None && !headersUpdated
      ensures this.defaultRate == defaultRate
      ensures readReport == HeaderReport
    {
      remaining := None;
      resetTime := None;
      lockHeld := false;
      lockOwner := None;
      headersUpdated := false;
      this.defaultRate := defaultRate;
      readReport := HeaderReport;
    }

    /** `__aenter__` by `task` at clock `now`; `later` is the clock when it
        returns. A lock held by another task would block forever here, so
        that case is excluded by the precondition. */
    method Enter(task: TaskId, now: int) returns (err: Option<GateError>, later: int)
      requires Valid()
      requires lockOwner == None || lockOwner == Some(task)
      modifies this
      ensures Valid()
      ensures old(lockOwner) == Some(task) ==>
        && err == Some(NotReentrant) && later == now
        && remaining == old(remaining) && resetTime == old(resetTime)
        && lockHeld && lockOwner == old(lockOwner) && headersUpdated == old(headersUpdated)
      ensures old(lockOwner) == None ==>
        && err == None
        && lockHeld && lockOwner == Some(task) && !headersUpdated
        && later == now + WaitTime(old(QuotaState()), now)
        && QuotaState() == AfterEnter(old(QuotaState()), now, defaultRate)
    {
      if lockOwner == Some(task) {
        return Some(NotReentrant), now;
      }
      lockHeld := true;
      headersUpdated := false;
      lockOwner := Some(task);
      later := now;
      if Truthy(remaining) && remaining.value <= 0 {
        var waitTime := ResetOrNow(resetTime, now) - now;
        if waitTime < 0 {
          waitTime := 0;
        }
        if waitTime > 0 {
          later := now + waitTime;
          remaining := Some(defaultRate);
        }
      }
      err := None;
    }

    /** `update_from_headers(response)` called by `task`. */
    method UpdateFromHeaders(task: TaskId, response: Response) returns (err: Option<GateError>)
      requires Valid()
      modifies this
      ensures Valid()
      ensures lockHeld == old(lockHeld) && lockOwner == old(lockOwner)
      ensures old(lockOwner) != Some(task) ==>
        err == Some(NotLockOwner) && QuotaState() == old(QuotaState()) && headersUpdated == old(headersUpdated)
      ensures old(lockOwner) == Some(task) && readReport(response).None? ==>
        err == Some(HeadersMissing) && QuotaState() == old(QuotaState()) && headersUpdated == old(headersUpdated)
      ensures old(lockOwner) == Some(task) && readReport(response).Some? ==>
        err == None && headersUpdated
        && QuotaState() == MergeQuota(old(QuotaState()), readReport(response).value)
    {
      if lockOwner != Some(task) {
        return Some(NotLockOwner);
      }
      var report := readReport(response);
      if report.None? {
        return Some(HeadersMissing);
      }
      if resetTime.None? || resetTime.value < report.value.reset {
        resetTime := Some(report.value.reset);
        remaining := Some(report.value.remaining);
      }
      headersUpdated := true;
      err := None;
    }

    /** `__aexit__`. It does not look at which task calls it. Without a
        successful update it raises and the lock stays held by its owner.
        Otherwise it clears the owner and releases the lock; releasing a lock
        nobody holds (a second exit after the same update) raises in
        `asyncio.Lock.release()` after the owner was cleared. */
    method Exit() returns (err: Option<GateError>)
      requires Valid()
      modifies this
      ensures Valid()
      ensures QuotaState() == old(QuotaState()) && headersUpdated == old(headersUpdated)
      ensures !old(headersUpdated) ==>
        err == Some(HeadersNotUpdated) && lockHeld == old(lockHeld) && lockOwner == old(lockOwner)
      ensures old(headersUpdated) ==>
        && lockOwner == None && !lockHeld
        && err == (if old(lockHeld) then None else Some(LockNotAcquired))
    {
      if !headersUpdated {
        return Some(HeadersNotUpdated);
      }
      lockOwner := None;
      if !lockHeld {
        return Some(LockNotAcquired);
      }
      lockHeld := false;
      err := None;
    }
  }

  /** tests/test_rate_limit_manager.py, `test_not_updating_headers`: an
      `async with` block that never reports headers fails on exit and leaves
      the gate locked by the caller. */
  method NotUpdatingHeadersScenario(task: TaskId, now: int, rate: int)
    returns (err: Option<GateError>, stillHeld: bool, owner: Option<TaskId>)
    ensures err == Some(HeadersNotUpdated)
    ensures stillHeld && owner == Some(task)
  {
    var m := new RateLimitManager(rate);
    var enterErr, later := m.Enter(task, now);
    err := m.Exit();
    stillHeld, owner := m.lockHeld, m.lockOwner;
  }

  /** `test_update_from_headers_requires_lock`: an update outside the gate
      fails and leaves every field as a fresh manager has it. */
  method UpdateWithoutLockScenario(task: TaskId, response: Response, rate: int)
    returns (err: Option<GateError>, quota: Quota, updated: bool)
    ensures err == Some(NotLockOwner)
    ensures quota == Quota(None, None) && !updated
  {
    var m := new RateLimitManager(rate);
    err := m.UpdateFromHeaders(task, response);
    quota, updated := m.QuotaState(), m.headersUpdated;
  }

  /** `test_update_from_headers_and_release`: inside the gate, integer
      headers are stored as reported on a fresh manager, and the exit then
      frees the gate. */
  method UpdateAndReleaseScenario(task: TaskId, now: int, rate: int, response: Response, remaining: int, reset: int)
    returns (quota: Quota, exitErr: Option<GateError>, held: bool)
    requires HeaderGet(response.headers, RemainingHeader) == Some(IntToString(remaining))
    requires HeaderGet(response.headers, ResetHeader) == Some(IntToString(reset))
    ensures quota == Quota(Some(remaining), Some(reset))
    ensures exitErr == None && !held
  {
    var m := new RateLimitManager(rate);
    var enterErr, later := m.Enter(task, now);
    HeaderReportOfIntegers(response, remaining, reset);
    var updateErr := m.UpdateFromHeaders(task, response);
    quota := m.QuotaState();
    exitErr := m.Exit();
    held := m.lockHeld;
  }

  /** `test_reentry`: inside an `async with` block that has reported
      integer headers, entering again fails fast instead of waiting for the
      lock the caller itself holds. The block's exit then runs: the headers
      were reported, so it frees the gate and raises nothing of its own,
      and the re-entry error is what the block raises. */
  method ReentryScenario(task: TaskId, now: int, rate: int, response: Response, remaining: int, reset: int)
    returns (err: Option<GateError>, held: bool, owner: Option<TaskId>)
    requires HeaderGet(response.headers, RemainingHeader) == Some(IntToString(remaining))
    requires HeaderGet(response.headers, ResetHeader) == Some(IntToString(reset))
    ensures err == Some(NotReentrant)
    ensures !held && owner == None
  {
    var m := new RateLimitManager(rate);
    var enterErr, later := m.Enter(task, now);
    HeaderReportOfIntegers(response, remaining, reset);
    var updateErr := m.UpdateFromHeaders(task, response);
    var reentryErr, later2 := m.Enter(task, later);
    var exitErr := m.Exit();
    // An exception raised by `__aexit__` would replace the block's own.
    err := if exitErr.Some? then exitErr else reentryErr;
    held, owner := m.lockHeld, m.lockOwner;
  }
}
