/** internal/provider/rdap/rdap.go: one lookup over several bases, each with retries, reporting to the limiter. */
module Rdap {
  import opened Basics
  import opened Core
  import opened RateLimit

  /** What one HTTP request comes to. */
  datatype Response =
    | NotSent                                   // the request could not be built
    | TransportFailure                          // no response, or the body could not be read
    | Parsed(result: ProviderResult)            // 200 with a readable registration object
    | Malformed                                 // 200 that does not parse
    | NotFound                                  // 404
    | Throttled(status: int, retryAfter: int)   // 429, 502, 503, 504
    | Unexpected(status: int)                   // any other status

  datatype Error =
    | NoService
    | BadBase
    | Refused(refusal: Refusal)                 // limiter.Wait
    | Interrupted                               // Sleep cut short by the context
    | Transport
    | RateLimited(host: string, status: int, retryAfter: int)
    | BadBody
    | BadRequest
    | BadStatus(status: int)

  /** Errors `do` wraps in retryableError. */
  predicate IsRetryable(e: Error) {
    e.Transport? || e.RateLimited?
  }

  /** Errors of `do`, as opposed to those of Wait, Sleep and the preparation of a query. */
  predicate FromRequest(e: Error) {
    e.Transport? || e.RateLimited? || e.BadBody? || e.BadRequest? || e.BadStatus?
  }

  const NO_REGISTRATION := "no_registration"

  function FreeRow(endpoint: string): ProviderResult {
    ProviderResult(RDAP, NotRegistered, StatusAvailable, [EvidenceTag(RDAP, NO_REGISTRATION)], endpoint, "", None, None)
  }

  function RateLimitedRow(): ProviderResult {
    ProviderResult(RDAP, RegistrationUnknown, StatusRateLimited, [EvidenceTag(RDAP, "rate_limited")], "",
                   "rate limited", None, None)
  }

  /** Go's zero ProviderResult. */
  const ZERO_ROW := ProviderResult("", RegistrationOther(""), StatusOther(""), [], "", "", None, None)

  /** The outcome mapping of `do`. */
  function Outcome(host: string, endpoint: string, r: Response): Result<ProviderResult, Error> {
    match r
    case NotSent => Err(BadRequest)
    case TransportFailure => Err(Transport)
    case Parsed(result) => Ok(result)
    case Malformed => Err(BadBody)
    case NotFound => Ok(FreeRow(endpoint))
    case Throttled(status, retryAfter) => Err(RateLimited(host, status, retryAfter))
    case Unexpected(status) => Err(BadStatus(status))
  }

  // ---- One query ----

  /** Everything outside the program's control during attempt n of a query. */
  datatype Attempt = Attempt(
    now: nat,                   // when Wait looks at the breaker
    admit: Option<string>,      // why the token bucket or the context says no, if it does
    response: Response,
    cancelled: bool,            // the context is done when `do` returns
    reportedAt: nat,
    draw: nat,                  // the random number behind the jitter
    converted: int,             // what the platform makes of a power of two beyond int64
    sleepCut: bool)             // the context ends the sleep

  datatype Base = Base(url: string, host: string, joinable: bool)

  /** How a query went: its result, the requests it sent, and its report to the limiter, if any. Or it never
      comes back, because `Backoff` panics. */
  datatype QueryRun =
    | QueryRun(result: Result<ProviderResult, Error>, sent: nat, report: Option<Report>)
    | QueryPanic(sent: nat)

  function Requests(r: Response): nat {
    if r.NotSent? then 0 else 1
  }

  /** Wait's answer at an attempt, given the reports made so far. */
  function WaitAnswer(cfg: Config, reports: seq<Report>, host: string, a: Attempt): Option<Refusal> {
    if Rejects(cfg, reports, host, a.now) then Some(CircuitOpen(OpenUntil(cfg, reports, host)))
    else if a.admit.Some? then Some(NotAdmitted(a.admit.value))
    else None
  }

  function Waits(cfg: Config, reports: seq<Report>, host: string, script: nat -> Attempt): nat -> Option<Refusal> {
    (n: nat) => WaitAnswer(cfg, reports, host, script(n))
  }

  /** The upstream's Retry-After, where there was one. */
  function Hint(r: Response): int {
    if r.Throttled? then r.retryAfter else 0
  }

  /** What `Backoff` is given after attempt a. */
  function ChanceOf(a: Attempt): Chance {
    Chance(Hint(a.response), a.draw, a.converted)
  }

  /** `waits(n)` is Wait's answer at attempt n. The run from attempt n on. */
  function QueryFrom(base: Base, script: nat -> Attempt, waits: nat -> Option<Refusal>, n: nat,
                     maxRetries: int): QueryRun
    decreases maxRetries - n
  {
    if n > maxRetries then QueryRun(Ok(ZERO_ROW), 0, None)
    else if waits(n).Some? then QueryRun(Err(Refused(waits(n).value)), 0, None)
    else
      var a := script(n);
      match Outcome(base.host, base.url, a.response)
      case Ok(result) => QueryRun(Ok(result), Requests(a.response), Some(Report(base.host, true, a.reportedAt)))
      case Err(e) =>
        if !IsRetryable(e) || n == maxRetries || a.cancelled then
          QueryRun(Err(e), Requests(a.response), Some(Report(base.host, false, a.reportedAt)))
        else if DelayAt(n, ChanceOf(a)).None? then QueryPanic(Requests(a.response))
        else if a.sleepCut then QueryRun(Err(Interrupted), Requests(a.response), None)
        else
          var rest := QueryFrom(base, script, waits, n + 1, maxRetries);
          rest.(sent := Requests(a.response) + rest.sent)
  }

  function Query(base: Base, script: nat -> Attempt, waits: nat -> Option<Refusal>, maxRetries: int): QueryRun {
    if !base.joinable then QueryRun(Err(BadBase), 0, None) else QueryFrom(base, script, waits, 0, maxRetries)
  }

  function Reported(run: QueryRun): seq<Report> {
    if run.QueryRun? && run.report.Some? then [run.report.value] else []
  }

  /** The program's loop, against a live limiter. On a panic there is no result. */
  method RunQuery(limiter: HostLimiter, base: Base, script: nat -> Attempt, maxRetries: int)
    returns (result: Option<Result<ProviderResult, Error>>, ghost run: QueryRun)
    requires limiter.Valid()
    modifies limiter, limiter.hosts.Values
    ensures limiter.Valid() && fresh(limiter.hosts.Values - old(limiter.hosts.Values))
    ensures run == Query(base, script, Waits(limiter.cfg, old(limiter.reports), base.host, script), maxRetries)
    ensures result == if run.QueryRun? then Some(run.result) else None
    ensures limiter.reports == old(limiter.reports) + Reported(run)
  {
    hide Backoff, Rejects, OpenUntil, Outcome, IsRetryable, limiter.Valid;
    ghost var reports := limiter.reports;
    ghost var waits := Waits(limiter.cfg, reports, base.host, script);
    run := Query(base, script, waits, maxRetries);
    if !base.joinable {
      return Some(Err(BadBase)), run;
    }
    ghost var sent: nat := 0;
    var n: nat := 0;
    while n <= maxRetries
      invariant limiter.Valid() && limiter.reports == reports
      invariant fresh(limiter.hosts.Values - old(limiter.hosts.Values))
      invariant n == 0 || n <= maxRetries
      invariant run == (var rest := QueryFrom(base, script, waits, n, maxRetries); rest.(sent := sent + rest.sent))
      decreases maxRetries - n
    {
      var a := script(n);
      var refused := limiter.Wait(base.host, a.now, a.admit);
      if refused.Some? {
        return Some(Err(Refused(refused.value))), run;
      }
      var outcome := Outcome(base.host, base.url, a.response);
      if outcome.Ok? {
        limiter.ReportSuccess(base.host, a.reportedAt);
        return Some(outcome), run;
      }
      if !IsRetryable(outcome.error) || n == maxRetries || a.cancelled {
        limiter.ReportFailure(base.host, a.reportedAt);
        return Some(outcome), run;
      }
      var delay := Backoff(n, Hint(a.response), a.draw, a.converted);
      if delay.None? {
        return None, run;
      }
      if a.sleepCut {
        return Some(Err(Interrupted)), run;
      }
      sent := sent + Requests(a.response);
      n := n + 1;
    }
    result := Some(Ok(ZERO_ROW));
  }

  // ---- What a query promises ----

  /** The loop turns to `Backoff` after the attempt. */
  predicate BacksOff(base: Base, a: Attempt, wait: Option<Refusal>, last: bool) {
    && wait.None?
    && Outcome(base.host, base.url, a.response).Err?
    && IsRetryable(Outcome(base.host, base.url, a.response).error)
    && !last && !a.cancelled
  }

  /** Attempt n leads to another: `Backoff` has a delay and nothing cuts the sleep. */
  predicate Retries(base: Base, script: nat -> Attempt, waits: nat -> Option<Refusal>, n: nat, maxRetries: int) {
    && BacksOff(base, script(n), waits(n), n == maxRetries)
    && DelayAt(n, ChanceOf(script(n))).Some? && !script(n).sleepCut
  }

  /** How a query ends at an attempt that does not lead to another. */
  function EndingAt(base: Base, a: Attempt, wait: Option<Refusal>, n: nat, maxRetries: int): QueryRun {
    var o := Outcome(base.host, base.url, a.response);
    if wait.Some? then QueryRun(Err(Refused(wait.value)), 0, None)
    else if BacksOff(base, a, wait, n == maxRetries) then
      if DelayAt(n, ChanceOf(a)).None? then QueryPanic(1) else QueryRun(Err(Interrupted), 1, None)
    else QueryRun(o, Requests(a.response), Some(Report(base.host, o.Ok?, a.reportedAt)))
  }

  /** The loop stops at the first attempt k that does not lead to a retry, and that attempt alone decides
      the result, the panic, the number of requests and the report. */
  lemma {:induction false} QueryStopsAt(base: Base, script: nat -> Attempt, waits: nat -> Option<Refusal>, n: nat,
                                        maxRetries: int)
    returns (k: nat)
    requires n <= maxRetries
    ensures n <= k <= maxRetries && !Retries(base, script, waits, k, maxRetries)
    ensures forall i :: n <= i < k ==> Retries(base, script, waits, i, maxRetries)
    ensures
      var end := EndingAt(base, script(k), waits(k), k, maxRetries);
      QueryFrom(base, script, waits, n, maxRetries) == end.(sent := k - n + end.sent)
    decreases maxRetries - n
  {
    hide DelayAt;
    if Retries(base, script, waits, n, maxRetries) {
      k := QueryStopsAt(base, script, waits, n + 1, maxRetries);
    } else {
      k := n;
    }
  }

  /** Every attempt before k led to a retry. */
  ghost predicate ReachesAttempt(base: Base, script: nat -> Attempt, waits: nat -> Option<Refusal>, k: nat,
                                 maxRetries: int)
  {
    forall i: nat :: i < k ==> Retries(base, script, waits, i, maxRetries)
  }

  /** A query panics if and only if it reaches an attempt that fails in a way to be retried, without a
      Retry-After hint, at one of the numbers where `Backoff` has no room for jitter. */
  lemma QueryPanicsExactly(base: Base, script: nat -> Attempt, waits: nat -> Option<Refusal>, maxRetries: int)
    ensures Query(base, script, waits, maxRetries).QueryPanic? <==>
            base.joinable && exists k: nat ::
              && k < maxRetries && ReachesAttempt(base, script, waits, k, maxRetries)
              && BacksOff(base, script(k), waits(k), false)
              && Hint(script(k).response) <= 0 && NoJitterRoom(k, script(k).converted)
  {
    hide DelayAt, NoJitterRoom;
    forall n: nat ensures DelayAt(n, ChanceOf(script(n))).None? <==>
                          Hint(script(n).response) <= 0 && NoJitterRoom(n, script(n).converted) {
      NoDelayExactly(n, ChanceOf(script(n)));
    }
    if base.joinable && maxRetries >= 0 {
      var k := QueryStopsAt(base, script, waits, 0, maxRetries);
      assert ReachesAttempt(base, script, waits, k, maxRetries);
      forall j: nat | && j < maxRetries && ReachesAttempt(base, script, waits, j, maxRetries)
                      && !Retries(base, script, waits, j, maxRetries)
        ensures j == k
      {
        assert j < k ==> Retries(base, script, waits, j, maxRetries);
      }
    }
  }

  lemma NoDelayExactly(n: nat, c: Chance)
    ensures DelayAt(n, c).None? <==> c.retryAfter <= 0 && NoJitterRoom(n, c.converted)
  {
    BackoffPanics(n, c.retryAfter, c.draw, c.converted);
  }

  /** Up to 35 retries no query panics, whatever the world does. */
  lemma FewRetriesNeverPanic(base: Base, script: nat -> Attempt, waits: nat -> Option<Refusal>, maxRetries: int)
    requires maxRetries <= 35
    ensures Query(base, script, waits, maxRetries).QueryRun?
  {
    QueryPanicsExactly(base, script, waits, maxRetries);
  }

  /** Above that some query does: transport failures alone take it to attempt 35, where it panics after 36
      requests, with neither a result nor a report. */
  lemma ManyRetriesCanPanic(base: Base, maxRetries: int)
    requires base.joinable && maxRetries > 35
    ensures Query(base, n => FAILING, n => None, maxRetries) == QueryPanic(36)
  {
    var script: nat -> Attempt, waits: nat -> Option<Refusal> := n => FAILING, n => None;
    forall i: nat | i < 35 ensures Retries(base, script, waits, i, maxRetries) {
      NoDelayExactly(i, ChanceOf(FAILING));
    }
    NoDelayExactly(35, ChanceOf(FAILING));
    assert !Retries(base, script, waits, 35, maxRetries) && BacksOff(base, script(35), waits(35), false);
    var k := QueryStopsAt(base, script, waits, 0, maxRetries);
    assert k < 35 ==> Retries(base, script, waits, k, maxRetries);
  }

  const FAILING := Attempt(0, None, TransportFailure, false, 0, 0, 0, false)

  /** Which responses lead to another attempt: transport failures and throttling, nothing else. */
  lemma BacksOffExactly(base: Base, a: Attempt, wait: Option<Refusal>, last: bool)
    ensures BacksOff(base, a, wait, last) <==>
            && wait.None? && !last && !a.cancelled
            && (a.response.TransportFailure? || a.response.Throttled?)
  {
  }

  /** A query stops at one attempt only. */
  lemma OneStop(base: Base, script: nat -> Attempt, waits: nat -> Option<Refusal>, j: nat, k: nat, maxRetries: int)
    requires ReachesAttempt(base, script, waits, j, maxRetries) && ReachesAttempt(base, script, waits, k, maxRetries)
    requires !Retries(base, script, waits, j, maxRetries) && !Retries(base, script, waits, k, maxRetries)
    ensures j == k
  {
  }

  /** How a query ends, from the response it ends with: at the attempt k it stops at, if that was admitted and is
      not followed by backing off. */
  lemma QueryEndsByResponse(base: Base, script: nat -> Attempt, waits: nat -> Option<Refusal>, maxRetries: int, k: nat)
    requires base.joinable && k <= maxRetries && ReachesAttempt(base, script, waits, k, maxRetries)
    requires waits(k).None? && !BacksOff(base, script(k), waits(k), k == maxRetries)
    ensures
      var run := Query(base, script, waits, maxRetries);
      && run.QueryRun?
      && match script(k).response
         case NotSent => run.result == Err(BadRequest)
         case TransportFailure => run.result == Err(Transport)
         case Parsed(row) => run.result == Ok(row)
         case Malformed => run.result == Err(BadBody)
         case NotFound =>
           run.result == Ok(ProviderResult("rdap", NotRegistered, StatusAvailable, ["rdap:no_registration"], base.url,
                                           "", None, None))
         case Throttled(status, retryAfter) => run.result == Err(RateLimited(base.host, status, retryAfter))
         case Unexpected(status) => run.result == Err(BadStatus(status))
  {
    hide DelayAt;
    var stop := QueryStopsAt(base, script, waits, 0, maxRetries);
    OneStop(base, script, waits, stop, k, maxRetries);
    assert "rdap" + ":" + "no_registration" == "rdap:no_registration";
  }

  /** A request was throttled at an attempt the query reached, and that ended it: it was the last allowed, or the
      context was done. */
  ghost predicate EndsThrottled(base: Base, w: World, maxRetries: int) {
    base.joinable && exists k: nat ::
      && k <= maxRetries && ReachesAttempt(base, w.script, w.waits, k, maxRetries)
      && w.waits(k).None? && w.script(k).response.Throttled?
      && (k == maxRetries || w.script(k).cancelled)
  }

  /** A query ends rate-limited exactly then. */
  lemma ThrottledExactly(base: Base, w: World, maxRetries: int)
    ensures Throttles(QueryAt(base, w, maxRetries)) <==> EndsThrottled(base, w, maxRetries)
  {
    hide DelayAt;
    if base.joinable && maxRetries >= 0 {
      var k := QueryStopsAt(base, w.script, w.waits, 0, maxRetries);
      assert ReachesAttempt(base, w.script, w.waits, k, maxRetries);
      forall j: nat | && j <= maxRetries && ReachesAttempt(base, w.script, w.waits, j, maxRetries)
                      && w.waits(j).None? && w.script(j).response.Throttled?
                      && (j == maxRetries || w.script(j).cancelled)
        ensures j == k
      {
        OneStop(base, w.script, w.waits, j, k, maxRetries);
      }
    }
  }

  /** At most maxRetries + 1 requests. One success report on a nil error, one failure report when a
      request's error ends the loop, none when Wait, Sleep or a panic does; only a report for the queried host. */
  lemma QueryAccounting(base: Base, script: nat -> Attempt, waits: nat -> Option<Refusal>, maxRetries: int)
    requires maxRetries >= 0
    ensures
      var run := Query(base, script, waits, maxRetries);
      && run.sent <= maxRetries + 1
      && (run.QueryPanic? ==> Reported(run) == [] && 36 <= run.sent <= maxRetries)
      && (run.QueryRun? ==>
            && (run.result.Ok? <==> run.report.Some? && run.report.value.healthy)
            && (run.result.Err? && FromRequest(run.result.error) <==> run.report.Some? && !run.report.value.healthy)
            && (run.report.Some? ==> run.report.value.host == base.host))
  {
    hide DelayAt;
    if base.joinable {
      var k := QueryStopsAt(base, script, waits, 0, maxRetries);
      NoDelayExactly(k, ChanceOf(script(k)));
    }
  }

  /** With a negative retry count the loop never runs: a usable base yields the zero row, no error, no
      request and no report. A nil error without a report happens in no other way. */
  lemma NegativeRetries(base: Base, script: nat -> Attempt, waits: nat -> Option<Refusal>, maxRetries: int)
    ensures
      var run := Query(base, script, waits, maxRetries);
      run.QueryRun? && run.result.Ok? && run.report.None? <==> maxRetries < 0 && base.joinable
    ensures maxRetries < 0 && base.joinable ==>
              Query(base, script, waits, maxRetries) == QueryRun(Ok(ZERO_ROW), 0, None)
    ensures maxRetries < 0 && !base.joinable ==>
              Query(base, script, waits, maxRetries) == QueryRun(Err(BadBase), 0, None)
  {
    if maxRetries >= 0 {
      QueryAccounting(base, script, waits, maxRetries);
    }
  }

  // ---- How long a query sleeps ----

  function Chances(script: nat -> Attempt): nat -> Chance {
    (n: nat) => ChanceOf(script(n))
  }

  /** The time spent sleeping from attempt n on, a sleep cut short counted in full. */
  function Slept(base: Base, script: nat -> Attempt, waits: nat -> Option<Refusal>, n: nat, maxRetries: int): int
    decreases maxRetries - n
  {
    if n > maxRetries || !BacksOff(base, script(n), waits(n), n == maxRetries) then 0
    else
      match DelayAt(n, ChanceOf(script(n)))
      case None => 0
      case Some(delay) => delay + if script(n).sleepCut then 0 else Slept(base, script, waits, n + 1, maxRetries)
  }

  lemma {:induction false} SleptAtMost(base: Base, script: nat -> Attempt, waits: nat -> Option<Refusal>, n: nat,
                                       maxRetries: nat)
    requires n <= maxRetries
    ensures 0 <= Slept(base, script, waits, n, maxRetries)
    ensures Slept(base, script, waits, n, maxRetries) <=
            TotalSleep(Chances(script), maxRetries) - TotalSleep(Chances(script), n)
    decreases maxRetries - n
  {
    hide DelayAt, BacksOff;
    if n < maxRetries {
      DelayBounds(n, ChanceOf(script(n)));
      SleptAtMost(base, script, waits, n + 1, maxRetries);
      SleepGrows(Chances(script), n + 1, maxRetries);
    } else {
      NobodyRetriesTheLast(base, script, waits, maxRetries);
    }
  }

  lemma NobodyRetriesTheLast(base: Base, script: nat -> Attempt, waits: nat -> Option<Refusal>, maxRetries: nat)
    ensures Slept(base, script, waits, maxRetries, maxRetries) == 0
  {
  }

  lemma {:induction false} SleepGrows(chances: nat -> Chance, n: nat, m: nat)
    requires n <= m
    ensures TotalSleep(chances, n) <= TotalSleep(chances, m)
    decreases m - n
  {
    hide DelayAt;
    if n < m {
      DelayBounds(n, chances(n));
      SleepGrows(chances, n + 1, m);
    }
  }

  /** A query sleeps at most 30s per retry, and without Retry-After hints less than the sum of the bases. */
  lemma QuerySleepBounded(base: Base, script: nat -> Attempt, waits: nat -> Option<Refusal>, maxRetries: nat)
    ensures 0 <= Slept(base, script, waits, 0, maxRetries) <= 30 * SECOND * maxRetries
    ensures maxRetries > 0 && (forall n: nat :: n < maxRetries ==> Hint(script(n).response) <= 0) ==>
              Slept(base, script, waits, 0, maxRetries) < SleepBound(maxRetries)
  {
    hide Slept, SleepBound;
    SleptAtMost(base, script, waits, 0, maxRetries);
    TotalSleepBounded(Chances(script), maxRetries);
    if forall n: nat :: n < maxRetries ==> Hint(script(n).response) <= 0 {
      UnhintedSleep(Chances(script), maxRetries);
    }
  }

  lemma {:induction false} SleptBefore(base: Base, script: nat -> Attempt, waits: nat -> Option<Refusal>, n: nat,
                                       k: nat,
                                       maxRetries: nat)
    requires n <= k <= maxRetries && forall i :: n <= i < k ==> Retries(base, script, waits, i, maxRetries)
    ensures Slept(base, script, waits, n, maxRetries) >=
            TotalSleep(Chances(script), k) - TotalSleep(Chances(script), n)
    decreases k - n
  {
    hide DelayAt, BacksOff;
    if n < k {
      SleptBefore(base, script, waits, n + 1, k, maxRetries);
      SleepGrows(Chances(script), n + 1, k);
      assert Retries(base, script, waits, n, maxRetries);
    } else {
      SleptAtMost(base, script, waits, n, maxRetries);
    }
  }

  /** A panic takes time: without hints a query that panics has slept at least 127.75s before. A request
      timeout below that ends it first. */
  lemma PanicTakesTime(base: Base, script: nat -> Attempt, waits: nat -> Option<Refusal>, maxRetries: nat)
    requires Query(base, script, waits, maxRetries).QueryPanic?
    requires forall n: nat :: n < maxRetries ==> Hint(script(n).response) <= 0
    ensures Slept(base, script, waits, 0, maxRetries) >= 127_750 * MILLISECOND
  {
    hide DelayAt, Slept, TotalSleep;
    QueryPanicsExactly(base, script, waits, maxRetries);
    var k: nat :| && k < maxRetries && ReachesAttempt(base, script, waits, k, maxRetries)
                  && NoJitterRoom(k, script(k).converted);
    RoomUpTo34(k, script(k).converted);
    SleptBefore(base, script, waits, 0, k, maxRetries);
    SleepGrows(Chances(script), 35, k);
    forall i: nat | i < 35 ensures Chances(script)(i).retryAfter <= 0 {
      assert Hint(script(i).response) <= 0;
    }
    UnhintedSleep(Chances(script), 35);
    NoSleepYet(Chances(script));
  }

  lemma RoomUpTo34(attempt: nat, converted: int)
    requires NoJitterRoom(attempt, converted)
    ensures attempt >= 35
  {
  }

  lemma NoSleepYet(chances: nat -> Chance)
    ensures TotalSleep(chances, 0) == 0
  {
  }

  /** A 200 that parses is a registration, reported under RDAP's name (internal/provider/rdap/parse.go:88-97). */
  ghost predicate HonestParser(script: nat -> Attempt) {
    forall n :: script(n).response.Parsed? ==>
                  && script(n).response.result.registration == Registered
                  && script(n).response.result.provider == RDAP
  }

  /** "not registered" comes from a 404 and from nothing else (section 5.3 of RFC 7480). */
  lemma FreeOnlyBy404(base: Base, script: nat -> Attempt, waits: nat -> Option<Refusal>, maxRetries: int)
    requires HonestParser(script)
    ensures
      var run := Query(base, script, waits, maxRetries);
      run.QueryRun? && run.result.Ok? && run.result.value.registration == NotRegistered <==>
        base.joinable && exists k: nat :: k <= maxRetries && ReachesAttempt(base, script, waits, k, maxRetries)
                                 && waits(k).None? && script(k).response.NotFound?
  {
    hide DelayAt;
    if base.joinable && maxRetries >= 0 {
      var k := QueryStopsAt(base, script, waits, 0, maxRetries);
      assert ReachesAttempt(base, script, waits, k, maxRetries);
      forall j: nat | j <= maxRetries && ReachesAttempt(base, script, waits, j, maxRetries)
                      && waits(j).None? && script(j).response.NotFound?
        ensures j == k
      {
        assert !Retries(base, script, waits, j, maxRetries);
      }
    }
  }

  /** "registered" comes from a 200 that parses and from nothing else. */
  lemma TakenOnlyBy200(base: Base, script: nat -> Attempt, waits: nat -> Option<Refusal>, maxRetries: int)
    requires HonestParser(script)
    ensures
      var run := Query(base, script, waits, maxRetries);
      run.QueryRun? && run.result.Ok? && run.result.value.registration == Registered <==>
        base.joinable && exists k: nat :: k <= maxRetries && ReachesAttempt(base, script, waits, k, maxRetries)
                                 && waits(k).None? && script(k).response.Parsed?
  {
    hide DelayAt;
    if base.joinable && maxRetries >= 0 {
      var k := QueryStopsAt(base, script, waits, 0, maxRetries);
      assert ReachesAttempt(base, script, waits, k, maxRetries);
      forall j: nat | j <= maxRetries && ReachesAttempt(base, script, waits, j, maxRetries)
                      && waits(j).None? && script(j).response.Parsed?
        ensures j == k
      {
        assert !Retries(base, script, waits, j, maxRetries);
      }
    }
  }

  // ---- One lookup over its bases ----

  /** What the world does to the whole lookup: a script per base, and whether the context is done after it. */
  datatype World = World(script: nat -> Attempt, waits: nat -> Option<Refusal>, cancelled: bool)

  datatype LookupRun =
    | LookupRun(result: Result<ProviderResult, Error>, sent: nat)
    | LookupPanic(sent: nat)

  function QueryAt(base: Base, w: World, maxRetries: int): QueryRun {
    Query(base, w.script, w.waits, maxRetries)
  }

  /** How a lookup ends once its bases are used up or the context is done. */
  function GiveUp(last: Error): Result<ProviderResult, Error> {
    if last.RateLimited? then Ok(RateLimitedRow()) else Err(last)
  }

  /** The lookup from base i on; `last` is the error of the base before. */
  function LookupFrom(bases: seq<Base>, worlds: nat -> World, i: nat, maxRetries: int, last: Error): LookupRun
    requires i <= |bases|
    decreases |bases| - i
  {
    if i == |bases| then LookupRun(GiveUp(last), 0)
    else
      var q := QueryAt(bases[i], worlds(i), maxRetries);
      if q.QueryPanic? then LookupPanic(q.sent)
      else
        match q.result
        case Ok(result) => LookupRun(Ok(result), q.sent)
        case Err(e) =>
          if worlds(i).cancelled then LookupRun(GiveUp(e), q.sent)
          else
            var rest := LookupFrom(bases, worlds, i + 1, maxRetries, e);
            rest.(sent := q.sent + rest.sent)
  }

  function Lookup(bases: seq<Base>, worlds: nat -> World, maxRetries: int): LookupRun {
    if bases == [] then LookupRun(Err(NoService), 0) else LookupFrom(bases, worlds, 0, maxRetries, NoService)
  }

  const IDLE := Attempt(0, None, NotSent, true, 0, 0, 0, true)

  /** A finite record of worlds, continued arbitrarily. */
  function Padded(worlds: seq<World>): nat -> World {
    (i: nat) => if i < |worlds| then worlds[i] else World((n: nat) => IDLE, (n: nat) => None, true)
  }

  /** The reports of a lookup that tried exactly the bases it has worlds for. */
  ghost function LookupReports(bases: seq<Base>, worlds: seq<World>, maxRetries: int): seq<Report>
    requires |worlds| <= |bases|
  {
    if worlds == [] then []
    else
      var n := |worlds| - 1;
      LookupReports(bases, worlds[..n], maxRetries) + Reported(QueryAt(bases[n], worlds[n], maxRetries))
  }

  /** The base's query failed and left the context alive: the loop goes on. */
  predicate GivesWay(base: Base, w: World, maxRetries: int) {
    QueryAt(base, w, maxRetries).QueryRun? && QueryAt(base, w, maxRetries).result.Err? && !w.cancelled
  }

  /** Base k is tried: every base before it gave way. */
  ghost predicate Tried(bases: seq<Base>, worlds: nat -> World, k: nat, maxRetries: int) {
    k < |bases| && forall i: nat :: i < k ==> GivesWay(bases[i], worlds(i), maxRetries)
  }

  /** The lookup ends at the first base that does not give way, or at the last. */
  ghost predicate EndsAt(bases: seq<Base>, worlds: nat -> World, k: nat, maxRetries: int) {
    Tried(bases, worlds, k, maxRetries) && (!GivesWay(bases[k], worlds(k), maxRetries) || k == |bases| - 1)
  }

  /** What the last base tried came to decides the lookup. */
  function EndResult(result: Result<ProviderResult, Error>): Result<ProviderResult, Error> {
    match result case Ok(row) => Ok(row) case Err(e) => GiveUp(e)
  }

  /** The lookup ends as the query of base k does. */
  predicate SettledBy(run: LookupRun, q: QueryRun) {
    if q.QueryPanic? then run.LookupPanic? else run.LookupRun? && run.result == EndResult(q.result)
  }

  lemma LookupEndsAt(bases: seq<Base>, worlds: nat -> World, k: nat, maxRetries: int)
    requires EndsAt(bases, worlds, k, maxRetries)
    ensures SettledBy(Lookup(bases, worlds, maxRetries), QueryAt(bases[k], worlds(k), maxRetries))
  {
    LookupReaches(bases, worlds, 0, k, maxRetries, NoService);
  }

  lemma {:induction false} LookupReaches(bases: seq<Base>, worlds: nat -> World, i: nat, k: nat, maxRetries: int,
                                         last: Error)
    requires EndsAt(bases, worlds, k, maxRetries) && i <= k
    ensures SettledBy(LookupFrom(bases, worlds, i, maxRetries, last), QueryAt(bases[k], worlds(k), maxRetries))
    decreases k - i
  {
    hide QueryAt;
    if i < k {
      assert GivesWay(bases[i], worlds(i), maxRetries);
      LookupReaches(bases, worlds, i + 1, k, maxRetries, QueryAt(bases[i], worlds(i), maxRetries).result.error);
    }
  }

  /** A lookup panics exactly when the query of a tried base does. */
  lemma LookupPanicsExactly(bases: seq<Base>, worlds: nat -> World, maxRetries: int)
    ensures Lookup(bases, worlds, maxRetries).LookupPanic? <==>
            exists k: nat :: Tried(bases, worlds, k, maxRetries) && QueryAt(bases[k], worlds(k), maxRetries).QueryPanic?
  {
    hide QueryAt;
    if bases != [] {
      var k := LookupEnd(bases, worlds, 0, maxRetries);
      LookupEndsAt(bases, worlds, k, maxRetries);
      forall j: nat | Tried(bases, worlds, j, maxRetries) && QueryAt(bases[j], worlds(j), maxRetries).QueryPanic?
        ensures Lookup(bases, worlds, maxRetries).LookupPanic?
      {
        LookupEndsAt(bases, worlds, j, maxRetries);
      }
    }
  }

  /** The recorded worlds are those of the first bases, in order. */
  ghost predicate Met(worlds: seq<World>, scripts: seq<nat -> Attempt>, cancelled: seq<bool>) {
    && |worlds| <= |scripts| && |worlds| <= |cancelled|
    && forall i :: 0 <= i < |worlds| ==> worlds[i].script == scripts[i] && worlds[i].cancelled == cancelled[i]
  }

  /** Each recorded base met the limiter as the reports made before left it: those of `start`, then those of
      the bases tried before it. */
  ghost predicate Live(cfg: Config, start: seq<Report>, bases: seq<Base>, worlds: seq<World>, maxRetries: int)
    requires |worlds| <= |bases|
  {
    forall i :: 0 <= i < |worlds| ==>
      worlds[i].waits ==
      Waits(cfg, start + LookupReports(bases, worlds[..i], maxRetries), bases[i].host, worlds[i].script)
  }

  lemma OneMoreLive(cfg: Config, start: seq<Report>, bases: seq<Base>, before: seq<World>, world: World,
                    maxRetries: int)
    requires |before| < |bases| && Live(cfg, start, bases, before, maxRetries)
    requires world.waits ==
             Waits(cfg, start + LookupReports(bases, before, maxRetries), bases[|before|].host, world.script)
    ensures Live(cfg, start, bases, before + [world], maxRetries)
  {
    hide LookupReports, Waits;
    var worlds, n := before + [world], |before|;
    forall i | 0 <= i < |worlds|
      ensures worlds[i].waits ==
              Waits(cfg, start + LookupReports(bases, worlds[..i], maxRetries), bases[i].host, worlds[i].script)
    {
      assert worlds[..i] == before[..i];
      assert before[..n] == before;
    }
  }

  /** One round of the loop below: query the next base and record what it met. */
  method TryNext(limiter: HostLimiter, bases: seq<Base>, i: nat, scripts: seq<nat -> Attempt>, cancelled: seq<bool>,
                 maxRetries: int, ghost before: seq<World>, ghost start: seq<Report>)
    returns (outcome: Option<Result<ProviderResult, Error>>, ghost worlds: seq<World>)
    requires limiter.Valid() && |scripts| == |cancelled| == |bases| && i == |before| < |bases|
    requires Met(before, scripts, cancelled) && AllGaveWay(bases, before, maxRetries)
    requires limiter.reports == start + LookupReports(bases, before, maxRetries)
    requires Live(limiter.cfg, start, bases, before, maxRetries)
    modifies limiter, limiter.hosts.Values
    ensures limiter.Valid() && fresh(limiter.hosts.Values - old(limiter.hosts.Values))
    ensures Met(worlds, scripts, cancelled) && |worlds| == |before| + 1
    ensures Live(limiter.cfg, start, bases, worlds, maxRetries)
    ensures LastTried(bases, before, worlds, outcome, maxRetries)
    ensures outcome.Some? && outcome.value.Err? && !cancelled[i] ==> AllGaveWay(bases, worlds, maxRetries)
    ensures limiter.reports == start + LookupReports(bases, worlds, maxRetries)
  {
    hide Query, Waits, Live, LookupReports;
    ghost var world := World(scripts[i], Waits(limiter.cfg, limiter.reports, bases[i].host, scripts[i]), cancelled[i]);
    worlds := before + [world];
    OneMoreLive(limiter.cfg, start, bases, before, world, maxRetries);
    ghost var run;
    outcome, run := RunQuery(limiter, bases[i], scripts[i], maxRetries);
    OneMoreBase(bases, before, world, maxRetries);
  }

  /** The record is that of the lookup: one world per base tried, the last one that of the base it ended at. */
  ghost predicate Recorded(bases: seq<Base>, worlds: seq<World>, maxRetries: int) {
    if bases == [] then worlds == []
    else 0 < |worlds| <= |bases| && EndsAt(bases, Padded(worlds), |worlds| - 1, maxRetries)
  }

  lemma NothingRecorded(maxRetries: int)
    ensures Recorded([], [], maxRetries)
  {
  }

  /** The program's loop over bases. `worlds` records what each tried base met, the limiter's own answers
      included; None is a panic. */
  method Check(limiter: HostLimiter, bases: seq<Base>, scripts: seq<nat -> Attempt>, cancelled: seq<bool>,
               maxRetries: int)
    returns (result: Option<Result<ProviderResult, Error>>, ghost worlds: seq<World>)
    requires limiter.Valid() && |scripts| == |cancelled| == |bases|
    modifies limiter, limiter.hosts.Values
    ensures limiter.Valid()
    ensures Met(worlds, scripts, cancelled) && Live(limiter.cfg, old(limiter.reports), bases, worlds, maxRetries)
    ensures Recorded(bases, worlds, maxRetries)
    ensures
      var run := Lookup(bases, Padded(worlds), maxRetries);
      result == if run.LookupRun? then Some(run.result) else None
    ensures limiter.reports == old(limiter.reports) + LookupReports(bases, worlds, maxRetries)
  {
    hide QueryAt, Padded, Recorded;
    worlds := [];
    if bases == [] {
      NothingRecorded(maxRetries);
      return Some(Err(NoService)), [];
    }
    ghost var before: seq<World> := [];
    ghost var start := limiter.reports;
    var last := NoService;
    for i := 0 to |bases|
      invariant |worlds| == i && Met(worlds, scripts, cancelled) && AllGaveWay(bases, worlds, maxRetries)
      invariant i > 0 ==> LastTried(bases, before, worlds, Some(Err(last)), maxRetries)
      invariant limiter.Valid() && fresh(limiter.hosts.Values - old(limiter.hosts.Values))
      invariant limiter.reports == start + LookupReports(bases, worlds, maxRetries)
      invariant Live(limiter.cfg, start, bases, worlds, maxRetries)
    {
      var outcome;
      before := worlds;
      outcome, worlds := TryNext(limiter, bases, i, scripts, cancelled, maxRetries, before, start);
      if outcome.None? || outcome.value.Ok? {
        RecordedEnd(bases, before, worlds, outcome, maxRetries);
        return outcome, worlds;
      }
      last := outcome.value.error;
      if cancelled[i] {
        break;
      }
    }
    RecordedEnd(bases, before, worlds, Some(Err(last)), maxRetries);
    result := Some(GiveUp(last));
  }

  /** What a query hands back: its result, or nothing after a panic. */
  function HandedBack(q: QueryRun): Option<Result<ProviderResult, Error>> {
    if q.QueryRun? then Some(q.result) else None
  }

  /** The newest world is that of the base whose outcome is at hand; the ones before it gave way. */
  ghost predicate LastTried(bases: seq<Base>, before: seq<World>, worlds: seq<World>,
                            outcome: Option<Result<ProviderResult, Error>>, maxRetries: int)
  {
    && 0 < |worlds| <= |bases| && worlds == before + [worlds[|worlds| - 1]]
    && AllGaveWay(bases, before, maxRetries)
    && outcome == HandedBack(QueryAt(bases[|before|], worlds[|before|], maxRetries))
  }

  /** Every base with a recorded world gave way. */
  ghost predicate AllGaveWay(bases: seq<Base>, worlds: seq<World>, maxRetries: int)
    requires |worlds| <= |bases|
  {
    forall j :: 0 <= j < |worlds| ==> GivesWay(bases[j], worlds[j], maxRetries)
  }

  lemma OneMoreBase(bases: seq<Base>, before: seq<World>, world: World, maxRetries: int)
    requires |before| < |bases| && AllGaveWay(bases, before, maxRetries)
    ensures
      var q, worlds := QueryAt(bases[|before|], world, maxRetries), before + [world];
      && LookupReports(bases, worlds, maxRetries) == LookupReports(bases, before, maxRetries) + Reported(q)
      && LastTried(bases, before, worlds, HandedBack(q), maxRetries)
      && (q.QueryRun? && q.result.Err? && !world.cancelled ==> AllGaveWay(bases, worlds, maxRetries))
  {
    hide QueryAt;
    assert (before + [world])[..|before|] == before;
  }

  lemma RecordedEnd(bases: seq<Base>, before: seq<World>, worlds: seq<World>,
                    outcome: Option<Result<ProviderResult, Error>>, maxRetries: int)
    requires LastTried(bases, before, worlds, outcome, maxRetries)
    requires outcome.None? || outcome.value.Ok? || worlds[|before|].cancelled || |worlds| == |bases|
    ensures Recorded(bases, worlds, maxRetries)
    ensures
      var run := Lookup(bases, Padded(worlds), maxRetries);
      match outcome
      case None => run.LookupPanic?
      case Some(result) => run.LookupRun? && run.result == EndResult(result)
  {
    hide QueryAt;
    var n, padded := |before|, Padded(worlds);
    assert padded(n) == worlds[n];
    forall i: nat | i < n ensures padded(i) == before[i] {}
    assert EndsAt(bases, padded, n, maxRetries);
    LookupEndsAt(bases, padded, n, maxRetries);
  }

  lemma {:induction false} LookupEnd(bases: seq<Base>, worlds: nat -> World, i: nat, maxRetries: int) returns (k: nat)
    requires Tried(bases, worlds, i, maxRetries)
    ensures EndsAt(bases, worlds, k, maxRetries)
    decreases |bases| - i
  {
    if EndsAt(bases, worlds, i, maxRetries) {
      k := i;
    } else {
      assert Tried(bases, worlds, i + 1, maxRetries);
      k := LookupEnd(bases, worlds, i + 1, maxRetries);
    }
  }

  /** A lookup sends at most maxRetries + 1 requests per base. */
  lemma {:induction false} LookupRequests(bases: seq<Base>, worlds: nat -> World, i: nat, maxRetries: int, last: Error)
    requires maxRetries >= 0 && i <= |bases|
    ensures LookupFrom(bases, worlds, i, maxRetries, last).sent <= (|bases| - i) * (maxRetries + 1)
    decreases |bases| - i
  {
    if i < |bases| {
      QueryAccounting(bases[i], worlds(i).script, worlds(i).waits, maxRetries);
      var q := QueryAt(bases[i], worlds(i), maxRetries);
      var next := if q.QueryRun? && q.result.Err? then q.result.error else last;
      LookupRequests(bases, worlds, i + 1, maxRetries, next);
      assert (|bases| - i) * (maxRetries + 1) == (|bases| - (i + 1)) * (maxRetries + 1) + (maxRetries + 1);
    }
  }

  /** At most |bases| * (maxRetries + 1) requests; the first base that succeeds, of those tried in order,
      gives the result, and it is the only way to get one besides the rate-limited row. */
  lemma FirstBaseWins(bases: seq<Base>, worlds: nat -> World, maxRetries: int)
    requires maxRetries >= 0
    ensures Lookup(bases, worlds, maxRetries).sent <= |bases| * (maxRetries + 1)
    ensures forall k: nat :: Tried(bases, worlds, k, maxRetries) && Succeeds(bases[k], worlds(k), maxRetries) ==>
              SettledBy(Lookup(bases, worlds, maxRetries), QueryAt(bases[k], worlds(k), maxRetries))
    ensures
      var run := Lookup(bases, worlds, maxRetries);
      (forall k: nat :: Tried(bases, worlds, k, maxRetries) ==> !Succeeds(bases[k], worlds(k), maxRetries)) ==>
        run.LookupRun? ==> run.result.Err? || run.result == Ok(RateLimitedRow())
  {
    hide QueryAt;
    LookupRequests(bases, worlds, 0, maxRetries, NoService);
    forall k: nat | Tried(bases, worlds, k, maxRetries) && Succeeds(bases[k], worlds(k), maxRetries)
      ensures SettledBy(Lookup(bases, worlds, maxRetries), QueryAt(bases[k], worlds(k), maxRetries))
    {
      LookupEndsAt(bases, worlds, k, maxRetries);
    }
    if bases != [] {
      var k := LookupEnd(bases, worlds, 0, maxRetries);
      LookupEndsAt(bases, worlds, k, maxRetries);
    }
  }

  predicate Succeeds(base: Base, w: World, maxRetries: int) {
    QueryAt(base, w, maxRetries).QueryRun? && QueryAt(base, w, maxRetries).result.Ok?
  }

  /** A request of some tried base got a 404. */
  ghost predicate Got404(bases: seq<Base>, worlds: nat -> World, maxRetries: int) {
    exists k: nat, n: nat ::
      && Tried(bases, worlds, k, maxRetries) && bases[k].joinable && n <= maxRetries
      && ReachesAttempt(bases[k], worlds(k).script, worlds(k).waits, n, maxRetries)
      && worlds(k).waits(n).None? && worlds(k).script(n).response.NotFound?
  }

  predicate FoundFree(run: LookupRun) {
    run.LookupRun? && run.result.Ok? && run.result.value.registration == NotRegistered
  }

  /** "not registered" exactly when a request got a 404: no throttling, 5xx, transport error, open circuit,
      cancellation or negative retry count produces it. */
  lemma LookupFreeOnlyBy404(bases: seq<Base>, worlds: nat -> World, maxRetries: int)
    requires forall i: nat :: HonestParser(worlds(i).script)
    ensures FoundFree(Lookup(bases, worlds, maxRetries)) <==> Got404(bases, worlds, maxRetries)
  {
    hide Query, Lookup;
    if bases == [] {
      NothingToTry(worlds, maxRetries);
    } else {
      var k := LookupEnd(bases, worlds, 0, maxRetries);
      LookupEndsAt(bases, worlds, k, maxRetries);
      FreeOnlyBy404(bases[k], worlds(k).script, worlds(k).waits, maxRetries);
    }
    forall k: nat, n: nat |
      && Tried(bases, worlds, k, maxRetries) && bases[k].joinable && n <= maxRetries
      && ReachesAttempt(bases[k], worlds(k).script, worlds(k).waits, n, maxRetries)
      && worlds(k).waits(n).None? && worlds(k).script(n).response.NotFound?
      ensures FoundFree(Lookup(bases, worlds, maxRetries))
    {
      FreeOnlyBy404(bases[k], worlds(k).script, worlds(k).waits, maxRetries);
      LookupEndsAt(bases, worlds, k, maxRetries);
    }
  }

  /** A request of some tried base got a 200 that parses. */
  ghost predicate Got200(bases: seq<Base>, worlds: nat -> World, maxRetries: int) {
    exists k: nat, n: nat ::
      && Tried(bases, worlds, k, maxRetries) && bases[k].joinable && n <= maxRetries
      && ReachesAttempt(bases[k], worlds(k).script, worlds(k).waits, n, maxRetries)
      && worlds(k).waits(n).None? && worlds(k).script(n).response.Parsed?
  }

  predicate FoundTaken(run: LookupRun) {
    run.LookupRun? && run.result.Ok? && run.result.value.registration == Registered
  }

  /** "registered" exactly when a request got a 200 that parses. */
  lemma LookupTakenOnlyBy200(bases: seq<Base>, worlds: nat -> World, maxRetries: int)
    requires forall i: nat :: HonestParser(worlds(i).script)
    ensures FoundTaken(Lookup(bases, worlds, maxRetries)) <==> Got200(bases, worlds, maxRetries)
  {
    hide Query, Lookup;
    if bases == [] {
      NothingToTry(worlds, maxRetries);
    } else {
      var k := LookupEnd(bases, worlds, 0, maxRetries);
      LookupEndsAt(bases, worlds, k, maxRetries);
      TakenOnlyBy200(bases[k], worlds(k).script, worlds(k).waits, maxRetries);
    }
    forall k: nat, n: nat |
      && Tried(bases, worlds, k, maxRetries) && bases[k].joinable && n <= maxRetries
      && ReachesAttempt(bases[k], worlds(k).script, worlds(k).waits, n, maxRetries)
      && worlds(k).waits(n).None? && worlds(k).script(n).response.Parsed?
      ensures FoundTaken(Lookup(bases, worlds, maxRetries))
    {
      TakenOnlyBy200(bases[k], worlds(k).script, worlds(k).waits, maxRetries);
      LookupEndsAt(bases, worlds, k, maxRetries);
    }
  }

  lemma NothingToTry(worlds: nat -> World, maxRetries: int)
    ensures Lookup([], worlds, maxRetries) == LookupRun(Err(NoService), 0)
  {
  }

  /** The rate-limited row is unknown and says so. */
  lemma RateLimitedRowIs()
    ensures RateLimitedRow() ==
            ProviderResult("rdap", RegistrationUnknown, StatusRateLimited, ["rdap:rate_limited"], "", "rate limited",
                           None, None)
  {
    assert "rdap" + ":" + "rate_limited" == "rdap:rate_limited";
  }

  /** Any other error of the last base tried is the lookup's. */
  lemma LookupFails(bases: seq<Base>, worlds: nat -> World, k: nat, maxRetries: int, e: Error)
    requires EndsAt(bases, worlds, k, maxRetries) && !EndsThrottled(bases[k], worlds(k), maxRetries)
    requires HandedBack(QueryAt(bases[k], worlds(k), maxRetries)) == Some(Err(e))
    ensures
      var run := Lookup(bases, worlds, maxRetries);
      run.LookupRun? && run.result == Err(e)
  {
    hide Query, Lookup;
    LookupEndsAt(bases, worlds, k, maxRetries);
    ThrottledExactly(bases[k], worlds(k), maxRetries);
  }

  /** The rate-limited row arises exactly when every tried base failed and the last request was throttled. */
  lemma RateLimitedExactly(bases: seq<Base>, worlds: nat -> World, maxRetries: int)
    requires forall i: nat :: HonestParser(worlds(i).script)
    ensures
      var run := Lookup(bases, worlds, maxRetries);
      run.LookupRun? && run.result == Ok(RateLimitedRow()) <==>
        exists k: nat :: EndsAt(bases, worlds, k, maxRetries) && EndsThrottled(bases[k], worlds(k), maxRetries)
  {
    hide Query, Lookup;
    if bases == [] {
      NothingToTry(worlds, maxRetries);
    } else {
      var k := LookupEnd(bases, worlds, 0, maxRetries);
      LookupEndsAt(bases, worlds, k, maxRetries);
      ResultIsNoLimitRow(bases[k], worlds(k).script, worlds(k).waits, maxRetries);
      ThrottledExactly(bases[k], worlds(k), maxRetries);
      forall j: nat | EndsAt(bases, worlds, j, maxRetries) ensures j == k {}
    }
  }

  predicate Throttles(q: QueryRun) {
    q.QueryRun? && q.result.Err? && q.result.error.RateLimited?
  }

  /** A conclusive answer that nobody gave: the zero row comes out of a lookup exactly when the retry count is
      negative and some base is tried that can be queried at all. */
  lemma ZeroRowExactly(bases: seq<Base>, worlds: nat -> World, maxRetries: int)
    requires forall i: nat :: HonestParser(worlds(i).script)
    ensures
      var run := Lookup(bases, worlds, maxRetries);
      run.LookupRun? && run.result.Ok? && run.result.value.registration.RegistrationOther? <==>
        maxRetries < 0 && exists k: nat :: Tried(bases, worlds, k, maxRetries) && bases[k].joinable
    ensures
      var run := Lookup(bases, worlds, maxRetries);
      run.LookupRun? && run.result.Ok? && run.result.value.registration.RegistrationOther? ==>
          run.result.value == ZERO_ROW
  {
    hide Query, Lookup;
    if bases == [] {
      NothingToTry(worlds, maxRetries);
    } else {
      var k := LookupEnd(bases, worlds, 0, maxRetries);
      LookupEndsAt(bases, worlds, k, maxRetries);
      RowsSettle(bases[k], worlds(k).script, worlds(k).waits, maxRetries);
      NegativeRetries(bases[k], worlds(k).script, worlds(k).waits, maxRetries);
      if maxRetries < 0 {
        forall j: nat | Tried(bases, worlds, j, maxRetries) && bases[j].joinable ensures j == k {
          NegativeRetries(bases[j], worlds(j).script, worlds(j).waits, maxRetries);
          assert EndsAt(bases, worlds, j, maxRetries);
        }
      }
    }
  }

  /** A lookup returns the zero row, the rate-limited row, or a row under RDAP's name that settles the question. */
  lemma RowsAreRdap(bases: seq<Base>, worlds: nat -> World, maxRetries: int)
    requires forall i: nat :: HonestParser(worlds(i).script)
    ensures
      var run := Lookup(bases, worlds, maxRetries);
      run.LookupRun? && run.result.Ok? ==>
        || run.result.value == ZERO_ROW || run.result.value == RateLimitedRow()
        || (&& run.result.value.provider == RDAP
            && run.result.value.registration in {Registered, NotRegistered})
  {
    hide Query, Lookup;
    if bases == [] {
      NothingToTry(worlds, maxRetries);
    } else {
      var k := LookupEnd(bases, worlds, 0, maxRetries);
      LookupEndsAt(bases, worlds, k, maxRetries);
      RowsSettle(bases[k], worlds(k).script, worlds(k).waits, maxRetries);
      NegativeRetries(bases[k], worlds(k).script, worlds(k).waits, maxRetries);
    }
  }

  /** With retries allowed, a query's row is a registration or a 404's "not registered", under RDAP's name. */
  lemma RowsSettle(base: Base, script: nat -> Attempt, waits: nat -> Option<Refusal>, maxRetries: int)
    requires HonestParser(script)
    ensures
      var run := Query(base, script, waits, maxRetries);
      maxRetries >= 0 && run.QueryRun? && run.result.Ok? ==>
        && (run.result.value.registration == Registered || run.result.value.registration == NotRegistered)
        && run.result.value.provider == RDAP
  {
    hide DelayAt;
    if base.joinable && maxRetries >= 0 {
      var k := QueryStopsAt(base, script, waits, 0, maxRetries);
    }
  }

  /** No successful query returns the rate-limited row itself. */
  lemma ResultIsNoLimitRow(base: Base, script: nat -> Attempt, waits: nat -> Option<Refusal>, maxRetries: int)
    requires HonestParser(script)
    ensures
      var run := Query(base, script, waits, maxRetries);
      run.QueryRun? ==> run.result != Ok(RateLimitedRow())
  {
    hide DelayAt;
    if base.joinable && maxRetries >= 0 {
      var k := QueryStopsAt(base, script, waits, 0, maxRetries);
    }
  }

  // ---- Queries and the breaker together ----

  /** The reports of a sequence of queries, by any callers, on any hosts. */
  function AllReports(runs: seq<QueryRun>): seq<Report> {
    if runs == [] then [] else AllReports(runs[..|runs| - 1]) + Reported(runs[|runs| - 1])
  }

  predicate FailedOn(run: QueryRun, host: string) {
    run.QueryRun? && run.report.Some? && run.report.value.host == host && !run.report.value.healthy
  }

  predicate SucceededOn(run: QueryRun, host: string) {
    run.QueryRun? && run.report.Some? && run.report.value.host == host && run.report.value.healthy
  }

  /** The failing queries on `host` since its last successful one. */
  function FailedSince(runs: seq<QueryRun>, host: string): set<nat> {
    set i: nat | i < |runs| && FailedOn(runs[i], host) && forall j :: i < j < |runs| ==> !SucceededOn(runs[j], host)
  }

  lemma FailedSinceGrows(before: seq<QueryRun>, run: QueryRun, host: string)
    ensures |FailedSince(before + [run], host)| ==
            if SucceededOn(run, host) then 0 else |FailedSince(before, host)| + (if FailedOn(run, host) then 1 else 0)
  {
    hide FailedOn, SucceededOn;
    var n, runs := |before|, before + [run];
    assert runs[n] == run && forall i :: 0 <= i < n ==> runs[i] == before[i];
    var earlier, later := FailedSince(before, host), FailedSince(runs, host);
    if SucceededOn(run, host) {
      NotBoth(run, host);
      assert later == {};
    } else {
      forall i: nat | i < n ensures i in later <==> i in earlier {}
      assert later == if FailedOn(run, host) then earlier + {n} else earlier;
    }
  }

  lemma NotBoth(run: QueryRun, host: string)
    ensures !(FailedOn(run, host) && SucceededOn(run, host))
  {
  }

  lemma {:induction false} FailuresAreQueries(runs: seq<QueryRun>, host: string)
    ensures Failures(AllReports(runs), host) == |FailedSince(runs, host)|
  {
    hide Failures, FailedSince, FailedOn, SucceededOn;
    if runs == [] {
      NothingFailed(host);
    } else {
      var before, run := runs[..|runs| - 1], runs[|runs| - 1];
      FailuresAreQueries(before, host);
      assert runs == before + [run];
      FailedSinceGrows(before, run, host);
      ReportCounts(run, host);
      if Reported(run) == [] {
        assert AllReports(runs) == AllReports(before);
      } else {
        RecordAffects(Config(1, 1), AllReports(before), run.report.value);
      }
    }
  }

  lemma NothingFailed(host: string)
    ensures FailedSince([], host) == {} && Failures([], host) == 0
  {
  }

  lemma ReportCounts(run: QueryRun, host: string)
    ensures SucceededOn(run, host) || FailedOn(run, host) <==>
            Reported(run) != [] && run.QueryRun? && run.report.Some? && run.report.value.host == host
    ensures Reported(run) != [] <==> run.QueryRun? && run.report.Some?
    ensures SucceededOn(run, host) ==> run.report.value.healthy
    ensures FailedOn(run, host) ==> !run.report.value.healthy
  {
  }

  /** A host's circuit is open only after at least FailureThreshold queries on it failed with no success
      in between: retries inside one query count once, and refused or interrupted queries not at all. */
  lemma OpenCircuitNeedsFailedQueries(cfg: Config, runs: seq<QueryRun>, host: string, t: nat)
    requires cfg.threshold > 0 && Rejects(cfg, AllReports(runs), host, t)
    ensures |FailedSince(runs, host)| >= cfg.threshold
  {
    FailuresAreQueries(runs, host);
    FailuresAreTheTrailingRun(AllReports(runs), host);
    BreakerCharacterised(cfg, AllReports(runs), host, t, Failures(AllReports(runs), host));
  }
}
