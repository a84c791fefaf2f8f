/** internal/ratelimit/ratelimit.go: the per-host circuit breaker and the retry delay. */
module RateLimit {
  import opened Basics

  // ---- The circuit breaker: what a history of reports means ----

  datatype Config = Config(threshold: int, openDuration: int) {
    /** NewHostLimiter replaces anything that is not positive. */
    function WithDefaults(): (c: Config)
      ensures c.threshold > 0 && c.openDuration > 0
      ensures c.threshold == if threshold > 0 then threshold else 5
      ensures c.openDuration == if openDuration > 0 then openDuration else 30_000_000_000
    {
      Config(if threshold <= 0 then 5 else threshold, if openDuration <= 0 then 30 * SECOND else openDuration)
    }
  }

  datatype Report = Report(host: string, healthy: bool, at: nat)

  /** The zero time: no instant is before it. */
  const ZERO := 0

  /** `failures` after the reports: counted up by a failure, reset by a success of the same host. */
  function Failures(reports: seq<Report>, host: string): nat {
    if reports == [] then 0
    else
      var last, before := reports[|reports| - 1], Failures(reports[..|reports| - 1], host);
      if last.host != host then before else if last.healthy then 0 else before + 1
  }

  /** `openUntil` after the reports. */
  function OpenUntil(cfg: Config, reports: seq<Report>, host: string): int {
    if reports == [] then ZERO
    else
      var last, before := reports[|reports| - 1], OpenUntil(cfg, reports[..|reports| - 1], host);
      if last.host != host then before
      else if last.healthy then ZERO
      else if Failures(reports, host) >= cfg.threshold then last.at + cfg.openDuration
      else before
  }

  predicate Rejects(cfg: Config, reports: seq<Report>, host: string, t: nat) {
    t < OpenUntil(cfg, reports, host)
  }

  /** The reports about one host, oldest first. */
  function About(reports: seq<Report>, host: string): seq<Report> {
    if reports == [] then []
    else
      var before := About(reports[..|reports| - 1], host);
      if reports[|reports| - 1].host == host then before + [reports[|reports| - 1]] else before
  }

  /** `run` is the length of the list's unbroken tail of failures. */
  ghost predicate TrailingRun(reports: seq<Report>, run: nat) {
    && run <= |reports|
    && (forall i :: |reports| - run <= i < |reports| ==> !reports[i].healthy)
    && (run < |reports| ==> reports[|reports| - run - 1].healthy)
  }

  lemma {:induction false} FailuresAreTheTrailingRun(reports: seq<Report>, host: string)
    ensures TrailingRun(About(reports, host), Failures(reports, host))
  {
    if reports != [] {
      var before := About(reports[..|reports| - 1], host);
      FailuresAreTheTrailingRun(reports[..|reports| - 1], host);
      if reports[|reports| - 1].host == host {
        var after := before + [reports[|reports| - 1]];
        assert forall i :: 0 <= i < |before| ==> after[i] == before[i];
      }
    }
  }

  lemma {:induction false} OpenUntilByLastReport(cfg: Config, reports: seq<Report>, host: string)
    requires cfg.threshold > 0
    ensures
      var mine := About(reports, host);
      OpenUntil(cfg, reports, host) ==
        if Failures(reports, host) >= cfg.threshold && mine != [] then mine[|mine| - 1].at + cfg.openDuration else ZERO
  {
    if reports != [] {
      OpenUntilByLastReport(cfg, reports[..|reports| - 1], host);
      FailuresAreTheTrailingRun(reports[..|reports| - 1], host);
    }
  }

  /** After any reports about any hosts, a host's breaker rejects at `t` exactly when the host's unbroken
      tail of failures is at least the threshold and `t` is before its last failure plus the open duration. */
  lemma BreakerCharacterised(cfg: Config, reports: seq<Report>, host: string, t: nat, run: nat)
    requires cfg.threshold > 0 && TrailingRun(About(reports, host), run)
    ensures
      var mine := About(reports, host);
      Rejects(cfg, reports, host, t) <==>
        run >= cfg.threshold && mine != [] && !mine[|mine| - 1].healthy && t < mine[|mine| - 1].at + cfg.openDuration
  {
    var mine := About(reports, host);
    OpenUntilByLastReport(cfg, reports, host);
    FailuresAreTheTrailingRun(reports, host);
    TrailingRunIsUnique(mine, run, Failures(reports, host));
  }

  lemma TrailingRunIsUnique(reports: seq<Report>, a: nat, b: nat)
    requires TrailingRun(reports, a) && TrailingRun(reports, b)
    ensures a == b
  {
    var n := |reports|;
    assert forall i :: 0 <= i < n && n - a <= i ==> !reports[i].healthy;
  }

  // ---- The limiter object ----

  class HostState {
    var failures: int
    var openUntil: int

    constructor ()
      ensures failures == 0 && openUntil == ZERO
    {
      failures, openUntil := 0, ZERO;
    }
  }

  datatype Refusal = CircuitOpen(until: int) | NotAdmitted(reason: string)

  class HostLimiter {
    const cfg: Config
    var hosts: map<string, HostState>
    /** Every report so far, over all hosts. */
    ghost var reports: seq<Report>

    ghost predicate Valid()
      reads this, hosts.Values
    {
      && cfg.threshold > 0
      && (forall h, g :: h in hosts && g in hosts && h != g ==> hosts[h] != hosts[g])
      && (forall h :: h in hosts ==>
            hosts[h].failures == Failures(reports, h) && hosts[h].openUntil == OpenUntil(cfg, reports, h))
      && (forall h :: h !in hosts ==> Failures(reports, h) == 0 && OpenUntil(cfg, reports, h) == ZERO)
    }

    constructor (cfg: Config)
      ensures Valid() && reports == [] && hosts == map[]
      ensures this.cfg.threshold == if cfg.threshold > 0 then cfg.threshold else 5
      ensures this.cfg.openDuration == if cfg.openDuration > 0 then cfg.openDuration else 30_000_000_000
    {
      this.cfg := cfg.WithDefaults();
      hosts := map[];
      reports := [];
    }

    /** The host's state object, created on first use. */
    method State(host: string) returns (s: HostState)
      requires Valid()
      modifies this`hosts
      ensures Valid() && host in hosts && hosts[host] == s
      ensures host in old(hosts) ==> hosts == old(hosts)
      ensures host !in old(hosts) ==> hosts == old(hosts)[host := s] && fresh(s)
    {
      if host !in hosts {
        var created := new HostState();
        hosts := hosts[host := created];
      }
      s := hosts[host];
    }

    method ReportSuccess(host: string, ghost now: nat)
      requires Valid()
      modifies this, hosts.Values
      ensures Valid() && reports == old(reports) + [Report(host, true, now)]
      ensures Isolated(old(hosts), host)
      ensures fresh(hosts.Values - old(hosts.Values))
    {
      hide Failures, OpenUntil;
      var s := State(host);
      RecordAffects(cfg, reports, Report(host, true, now));
      reports := reports + [Report(host, true, now)];
      s.failures := 0;
      s.openUntil := ZERO;
    }

    method ReportFailure(host: string, now: nat)
      requires Valid()
      modifies this, hosts.Values
      ensures Valid() && reports == old(reports) + [Report(host, false, now)]
      ensures Isolated(old(hosts), host)
      ensures fresh(hosts.Values - old(hosts.Values))
    {
      hide Failures, OpenUntil;
      var s := State(host);
      RecordAffects(cfg, reports, Report(host, false, now));
      reports := reports + [Report(host, false, now)];
      s.failures := s.failures + 1;
      if s.failures >= cfg.threshold {
        s.openUntil := now + cfg.openDuration;
      }
      forall h | h in hosts
        ensures hosts[h].failures == Failures(reports, h) && hosts[h].openUntil == OpenUntil(cfg, reports, h)
      {
        if h != host {
          assert hosts[h] != s && h in old(hosts);
        }
      }
    }

    /** Operations on one host neither replace nor touch another host's state object. */
    twostate predicate Isolated(before: map<string, HostState>, host: string)
      reads this, before.Values
    {
      forall h :: h in before && h != host ==> h in hosts && hosts[h] == before[h] && unchanged(before[h])
    }

    /** `admit` is what the host's token bucket says once the breaker lets the request through. */
    method Wait(host: string, now: nat, admit: Option<string>) returns (refused: Option<Refusal>)
      requires Valid()
      modifies this`hosts
      ensures Valid()
      ensures refused == if Rejects(cfg, reports, host, now) then Some(CircuitOpen(OpenUntil(cfg, reports, host)))
                         else if admit.Some? then Some(NotAdmitted(admit.value)) else None
      ensures forall h :: h in old(hosts) ==> h in hosts && hosts[h] == old(hosts)[h]
      ensures fresh(hosts.Values - old(hosts.Values))
    {
      var s := State(host);
      var openUntil := s.openUntil;
      if now < openUntil {
        return Some(CircuitOpen(openUntil));
      }
      return if admit.Some? then Some(NotAdmitted(admit.value)) else None;
    }
  }

  /** One more report changes the verdict on its own host only. */
  lemma RecordAffects(cfg: Config, reports: seq<Report>, r: Report)
    ensures forall h :: h != r.host ==>
              Failures(reports + [r], h) == Failures(reports, h)
                && OpenUntil(cfg, reports + [r], h) == OpenUntil(cfg, reports, h)
    ensures Failures(reports + [r], r.host) == if r.healthy then 0 else Failures(reports, r.host) + 1
    ensures OpenUntil(cfg, reports + [r], r.host) ==
              if r.healthy then ZERO
              else if Failures(reports, r.host) + 1 >= cfg.threshold then r.at + cfg.openDuration
              else OpenUntil(cfg, reports, r.host)
  {
    assert (reports + [r])[..|reports|] == reports;
  }

  // ---- Backoff, in int64 nanoseconds ----

  const MILLISECOND := 1_000_000
  const SECOND := 1_000_000_000
  const MIN64 := -0x8000_0000_0000_0000
  const MAX64 := 0x7fff_ffff_ffff_ffff

  predicate Fits64(x: int) {
    MIN64 <= x <= MAX64
  }

  /** What int64 arithmetic leaves of an integer. */
  function Wrap64(x: int): (r: int)
    ensures Fits64(r)
    ensures Fits64(x) ==> r == x
  {
    (x - MIN64) % 0x1_0000_0000_0000_0000 + MIN64
  }

  function Pow2(n: nat): nat {
    if n == 0 then 1 else 2 * Pow2(n - 1)
  }

  function Min(a: int, b: int): int {
    if a <= b then a else b
  }

  /** The power of two as an int64: a negative exponent truncates to 0, and from 2^63 on the conversion
      is left to the platform, which comes up with `converted`. */
  function Power(attempt: int, converted: int): int {
    if attempt < 0 then 0 else if attempt <= 62 then Pow2(attempt) else Wrap64(converted)
  }

  /** A power of two times 500ms, cut at 8s: both products wrap. */
  function Scaled(power: int): int {
    Min(Wrap64(Wrap64(power * 500) * MILLISECOND), 8 * SECOND)
  }

  function Base(attempt: int, converted: int): int {
    Scaled(Power(attempt, converted))
  }

  /** Go's division by two truncates toward zero. */
  function Half(x: int): int {
    if x >= 0 then x / 2 else -(-x / 2)
  }

  /** The delay, or None where `rand.Int64N` would be handed a bound that is not positive and panics.
      `draw` is the random number, reduced to the bound. */
  function Backoff(attempt: int, retryAfter: int, draw: nat, converted: int): Option<int> {
    if retryAfter > 0 then Some(Min(retryAfter, 30 * SECOND))
    else
      var half := Half(Base(attempt, converted));
      if half <= 0 then None else Some(half + draw % half)
  }

  /** An upstream's hint is honoured to the nanosecond, up to 30s, whatever the attempt. */
  lemma HintIsHonoured(attempt: int, retryAfter: int, draw: nat, converted: int)
    requires retryAfter > 0
    ensures Backoff(attempt, retryAfter, draw, converted) ==
            Some(if retryAfter <= 30_000_000_000 then retryAfter else 30_000_000_000)
  {
  }

  /** min(500ms * 2^attempt, 8s), in unbounded arithmetic. */
  function IdealBase(attempt: nat): int {
    Min(500 * MILLISECOND * Pow2(attempt), 8 * SECOND)
  }

  lemma {:induction false} Pow2Grows(a: nat, b: nat)
    requires a <= b
    ensures 1 <= Pow2(a) <= Pow2(b)
  {
    if b > 0 {
      if a < b {
        Pow2Grows(a, b - 1);
      } else {
        Pow2Grows(a - 1, b - 1);
      }
    }
  }

  lemma {:induction false} Pow2Adds(a: nat, b: nat)
    ensures Pow2(a + b) == Pow2(a) * Pow2(b)
  {
    if a == 0 {
      assert 1 * Pow2(b) == Pow2(b);
    } else {
      Pow2Adds(a - 1, b);
      Regroup(Pow2(a - 1), Pow2(b));
    }
  }

  lemma Regroup(x: int, y: int)
    ensures (2 * x) * y == 2 * (x * y)
  {
  }

  lemma Pow2At34()
    ensures Pow2(34) == 0x4_0000_0000
  {
    Pow2Adds(17, 17);
    Pow2Adds(8, 9);
    assert Pow2(8) == 256 && Pow2(9) == 512;
  }

  /** The bases in nanoseconds: half a second, doubling to eight. */
  lemma IdealBases(attempt: nat)
    ensures attempt == 0 ==> IdealBase(attempt) == 500_000_000
    ensures attempt == 1 ==> IdealBase(attempt) == 1_000_000_000
    ensures attempt == 2 ==> IdealBase(attempt) == 2_000_000_000
    ensures attempt == 3 ==> IdealBase(attempt) == 4_000_000_000
    ensures attempt >= 4 ==> IdealBase(attempt) == 8_000_000_000
  {
    assert Pow2(0) == 1 && Pow2(1) == 2 && Pow2(2) == 4 && Pow2(3) == 8 && Pow2(4) == 16;
    if attempt >= 4 {
      Pow2Grows(4, attempt);
    }
  }

  /** Up to attempt 34 nothing overflows, the random bound is positive, and the delay is in (0, 30s]; without
      a hint it is in [base/2, base). */
  lemma BackoffBounds(attempt: nat, retryAfter: int, draw: nat, converted: int)
    requires attempt <= 34
    ensures Fits64(Pow2(attempt)) && Fits64(Pow2(attempt) * 500) && Fits64(Pow2(attempt) * 500 * MILLISECOND)
    ensures Base(attempt, converted) == IdealBase(attempt) && Half(Base(attempt, converted)) > 0
    ensures
      var delay := Backoff(attempt, retryAfter, draw, converted);
      && delay.Some? && 0 < delay.value <= 30 * SECOND
      && (retryAfter <= 0 ==> IdealBase(attempt) / 2 <= delay.value < IdealBase(attempt))
  {
    Pow2Grows(0, attempt);
    Pow2Grows(attempt, 34);
    Pow2At34();
  }

  /** The jitter spreads over the whole of that range: every delay in it can be drawn. */
  lemma JitterCovers(attempt: nat, retryAfter: int, converted: int, delay: int)
    requires attempt <= 34 && retryAfter <= 0
    requires IdealBase(attempt) / 2 <= delay < 2 * (IdealBase(attempt) / 2)
    ensures exists draw: nat :: Backoff(attempt, retryAfter, draw, converted) == Some(delay)
  {
    hide Backoff, Base, IdealBase;
    var half := IdealBase(attempt) / 2;
    var draw: nat := delay - half;
    BackoffBounds(attempt, retryAfter, draw, converted);
    assert Half(Base(attempt, converted)) == half;
    SmallRemainder(draw, half);
    UnhintedDelay(attempt, retryAfter, draw, converted);
  }

  lemma SmallRemainder(x: nat, n: nat)
    requires x < n
    ensures x % n == x
  {
  }

  lemma UnhintedDelay(attempt: int, retryAfter: int, draw: nat, converted: int)
    requires retryAfter <= 0 && Half(Base(attempt, converted)) > 0
    ensures
      var half := Half(Base(attempt, converted));
      Backoff(attempt, retryAfter, draw, converted) == Some(half + draw % half)
  {
  }

  const TWO64 := 0x1_0000_0000_0000_0000

  /** 2^attempt * 500ms modulo 2^64, by doubling. */
  function Residue(attempt: nat): nat {
    if attempt == 0 then 500 * MILLISECOND
    else var double := 2 * Residue(attempt - 1); if double >= TWO64 then double - TWO64 else double
  }

  lemma {:induction false} ResidueIsRemainder(attempt: nat)
    ensures Residue(attempt) == (Pow2(attempt) * (500 * MILLISECOND)) % TWO64
  {
    if attempt > 0 {
      ResidueIsRemainder(attempt - 1);
      DoubleRemainder(Pow2(attempt - 1) * (500 * MILLISECOND));
    }
  }

  lemma DoubleRemainder(x: nat)
    ensures (2 * x) % TWO64 == if 2 * (x % TWO64) >= TWO64 then 2 * (x % TWO64) - TWO64 else 2 * (x % TWO64)
  {
    var q, r := x / TWO64, x % TWO64;
    assert 2 * x == (2 * q) * TWO64 + 2 * r == (2 * q + 1) * TWO64 + (2 * r - TWO64);
    if 2 * r >= TWO64 {
      RemainderIs(2 * q + 1, 2 * r - TWO64);
    } else {
      RemainderIs(2 * q, 2 * r);
    }
  }

  lemma RemainderIs(q: int, r: int)
    requires 0 <= r < TWO64
    ensures (q * TWO64 + r) % TWO64 == r
  {
  }

  lemma ResidueAt34()
    ensures Residue(34) == 0x4_0000_0000 * (500 * MILLISECOND)
  {
    Pow2At34();
    ResidueIsRemainder(34);
  }

  /** The residues of attempts 34 to 62. */
  const RESIDUES: seq<int> := [
    0x7735940000000000, 0xee6b280000000000, 0xdcd6500000000000, 0xb9aca00000000000, 0x7359400000000000,
    0xe6b2800000000000, 0xcd65000000000000, 0x9aca000000000000, 0x3594000000000000, 0x6b28000000000000,
    0xd650000000000000, 0xaca0000000000000, 0x5940000000000000, 0xb280000000000000, 0x6500000000000000,
    0xca00000000000000, 0x9400000000000000, 0x2800000000000000, 0x5000000000000000, 0xa000000000000000,
    0x4000000000000000, 0x8000000000000000, 0x0, 0x0, 0x0,
    0x0, 0x0, 0x0, 0x0
  ]

  lemma {:induction false} ResidueTable(attempt: nat)
    requires 34 <= attempt <= 62
    ensures Residue(attempt) == RESIDUES[attempt - 34]
  {
    if attempt == 34 {
      ResidueAt34();
    } else {
      ResidueTable(attempt - 1);
    }
  }

  /** Wrapping after each product is wrapping once at the end. */
  lemma WrapOfProducts(x: int)
    ensures Wrap64(Wrap64(x * 500) * MILLISECOND) == Wrap64(x * (500 * MILLISECOND))
  {
    var k := (x * 500 - MIN64) / TWO64;
    assert Wrap64(x * 500) == x * 500 - k * TWO64;
    assert Wrap64(x * 500) * MILLISECOND == x * (500 * MILLISECOND) - (k * MILLISECOND) * TWO64;
    WrapShift(x * (500 * MILLISECOND), k * MILLISECOND);
  }

  lemma WrapShift(x: int, k: int)
    ensures Wrap64(x - k * TWO64) == Wrap64(x)
  {
    var r := (x - MIN64) % TWO64;
    var q := (x - MIN64) / TWO64;
    assert x - k * TWO64 - MIN64 == (q - k) * TWO64 + r;
  }

  lemma WrapByRemainder(x: int)
    ensures Wrap64(x) == if x % TWO64 > MAX64 then x % TWO64 - TWO64 else x % TWO64
  {
  }

  lemma ScaledByRemainder(power: int)
    ensures
      var r := (power * (500 * MILLISECOND)) % TWO64;
      Scaled(power) == Min(if r > MAX64 then r - TWO64 else r, 8 * SECOND)
  {
    WrapOfProducts(power);
    WrapByRemainder(power * (500 * MILLISECOND));
  }

  /** The bound is not positive exactly for a residue in the negative half of int64, or below 2. */
  predicate NoRoom(residue: int) {
    residue > MAX64 || residue < 2
  }

  lemma HalfOfCut(residue: int)
    requires 0 <= residue < TWO64
    ensures Half(Min(if residue > MAX64 then residue - TWO64 else residue, 8 * SECOND)) <= 0 <==> NoRoom(residue)
  {
  }

  lemma PanicsByRemainder(attempt: int, retryAfter: int, draw: nat, converted: int)
    ensures Backoff(attempt, retryAfter, draw, converted).None? <==>
            retryAfter <= 0 && NoRoom((Power(attempt, converted) * (500 * MILLISECOND)) % TWO64)
  {
    ScaledByRemainder(Power(attempt, converted));
    HalfOfCut((Power(attempt, converted) * (500 * MILLISECOND)) % TWO64);
  }

  lemma {:induction false} ResidueInRange(attempt: nat)
    ensures 0 <= Residue(attempt) < TWO64
  {
    if attempt > 0 {
      ResidueInRange(attempt - 1);
    }
  }

  lemma NoRoomTable(i: nat)
    requires i < |RESIDUES|
    ensures NoRoom(RESIDUES[i]) <==> (i in {1, 2, 3, 5, 6, 7, 10, 11, 13, 15, 16, 19} || i >= 21)
  {
    if i < 7 {
    } else if i < 14 {
    } else if i < 21 {
    } else {
    }
  }

  /** Attempts whose delay has no room for jitter. From 63 on that is up to the platform's conversion. */
  predicate NoJitterRoom(attempt: int, converted: int) {
    || attempt < 0 || attempt in {35, 36, 37, 39, 40, 41, 44, 45, 47, 49, 50, 53} || 55 <= attempt <= 62
    || (attempt >= 63 && NoRoom((Wrap64(converted) * (500 * MILLISECOND)) % TWO64))
  }

  /** Where the arithmetic wraps: exactly at these attempts, and only without a hint, `rand.Int64N` is handed
      a bound that is not positive, so `Backoff` panics. */
  lemma BackoffPanics(attempt: int, retryAfter: int, draw: nat, converted: int)
    ensures Backoff(attempt, retryAfter, draw, converted).None? <==> retryAfter <= 0 && NoJitterRoom(attempt, converted)
  {
    hide Backoff, NoRoom;
    PanicsByRemainder(attempt, retryAfter, draw, converted);
    if attempt < 0 {
      NoRoomForNothing();
    } else if attempt <= 62 {
      ResidueIsRemainder(attempt);
      if attempt <= 34 {
        BackoffBounds(attempt, 0, draw, converted);
        PanicsByRemainder(attempt, 0, draw, converted);
      } else {
        ResidueTable(attempt);
        NoRoomTable(attempt - 34);
      }
    }
  }

  lemma NoRoomForNothing()
    ensures NoRoom((0 * (500 * MILLISECOND)) % TWO64)
  {
  }

  /** Both conversions in use, to the least int64 (amd64) and to the greatest (arm64), leave no room at any
      attempt from 63 on. */
  lemma PlatformsLeaveNoRoom(attempt: int, converted: int)
    requires attempt >= 63 && (converted == MIN64 || converted == MAX64)
    ensures NoJitterRoom(attempt, converted)
  {
    if converted == MIN64 {
      assert MIN64 * (500 * MILLISECOND) == -(250 * MILLISECOND) * TWO64 + 0;
      RemainderIs(-(250 * MILLISECOND), 0);
    } else {
      assert MAX64 * (500 * MILLISECOND) == (250 * MILLISECOND - 1) * TWO64 + (TWO64 - 500 * MILLISECOND);
      RemainderIs(250 * MILLISECOND - 1, TWO64 - 500 * MILLISECOND);
    }
  }

  // ---- Total sleep ----

  /** What one call of `Backoff` depends on besides the attempt. */
  datatype Chance = Chance(retryAfter: int, draw: nat, converted: int)

  function DelayAt(attempt: nat, c: Chance): Option<int> {
    Backoff(attempt, c.retryAfter, c.draw, c.converted)
  }

  /** The delays before retries 0 .. n-1 added up. */
  function TotalSleep(chances: nat -> Chance, n: nat): int {
    if n == 0 then 0
    else TotalSleep(chances, n - 1) + match DelayAt(n - 1, chances(n - 1)) case Some(d) => d case None => 0
  }

  /** The sum of the bases: doubling up to the fourth retry, then 8s each. */
  function SleepBound(n: nat): int {
    if n <= 4 then 500 * MILLISECOND * (Pow2(n) - 1) else 7500 * MILLISECOND + 8 * SECOND * (n - 4)
  }

  /** The sleep across n retries is at most 30s each. */
  lemma {:induction false} TotalSleepBounded(chances: nat -> Chance, n: nat)
    ensures 0 <= TotalSleep(chances, n) <= 30 * SECOND * n
  {
    hide DelayAt, IdealBase, Min;
    if n > 0 {
      TotalSleepBounded(chances, n - 1);
      DelayBounds(n - 1, chances(n - 1));
    }
  }

  /** Without hints the sleep across n retries is less than the sum of the bases, and at least half of it
      as long as nothing wraps. */
  lemma {:induction false} UnhintedSleep(chances: nat -> Chance, n: nat)
    requires forall i :: 0 <= i < n ==> chances(i).retryAfter <= 0
    ensures TotalSleep(chances, n) <= SleepBound(n)
    ensures n > 0 ==> TotalSleep(chances, n) < SleepBound(n)
    ensures n <= 35 ==> SleepBound(n) / 2 <= TotalSleep(chances, n)
  {
    hide DelayAt, SleepBound, IdealBase;
    if n == 0 {
      NoSleep();
    } else {
      UnhintedSleep(chances, n - 1);
      DelayBounds(n - 1, chances(n - 1));
      SleepBoundStep(n - 1);
      var delay := match DelayAt(n - 1, chances(n - 1)) case Some(d) => d case None => 0;
      OneMoreSleep(SleepBound(n - 1), TotalSleep(chances, n - 1), IdealBase(n - 1), delay);
    }
  }

  /** Whenever there is a delay it is in (0, 30s], and without a hint below the base. */
  lemma DelayBounds(attempt: nat, c: Chance)
    ensures DelayAt(attempt, c).Some? ==> 0 < DelayAt(attempt, c).value <= 30 * SECOND
    ensures c.retryAfter <= 0 && DelayAt(attempt, c).Some? ==> DelayAt(attempt, c).value < IdealBase(attempt)
    ensures IdealBase(attempt) > 0
    ensures attempt <= 34 ==> DelayAt(attempt, c).Some?
    ensures attempt <= 34 && c.retryAfter <= 0 ==> IdealBase(attempt) / 2 <= DelayAt(attempt, c).value
  {
    if attempt <= 34 {
      BackoffBounds(attempt, c.retryAfter, c.draw, c.converted);
    } else {
      Pow2Grows(4, attempt);
      assert Pow2(4) == 16;
    }
    Pow2Grows(0, attempt);
  }

  lemma OneMoreSleep(bound: int, sleep: int, base: int, delay: int)
    requires bound % 2 == 0 && base % 2 == 0
    requires sleep <= bound && delay < base
    ensures sleep + delay < bound + base
    ensures bound / 2 <= sleep && base / 2 <= delay ==> (bound + base) / 2 <= sleep + delay
  {
  }

  lemma NoSleep()
    ensures SleepBound(0) == 0
  {
  }

  lemma SleepBoundStep(n: nat)
    ensures SleepBound(n + 1) == SleepBound(n) + IdealBase(n)
    ensures SleepBound(n) % 2 == 0 && IdealBase(n) % 2 == 0
  {
    if n <= 4 {
      assert Pow2(0) == 1 && Pow2(1) == 2 && Pow2(2) == 4 && Pow2(3) == 8 && Pow2(4) == 16;
    } else {
      Pow2Grows(4, n);
      assert Pow2(4) == 16;
    }
  }
}
