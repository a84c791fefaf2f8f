/** internal/engine/engine.go:63-93 and 236: `Check` on top of the cache and the singleflight group,
    for any number of concurrent callers, as a transition system. A step is one critical section.

    `flights` and `puts` record what happened; the program's own state is the clock, the cache
    entries, the group's table of calls in flight, and each caller's progress. */
module Serving {
  import opened Basics
  import opened Core
  import opened DomainName
  import opened Text
  import Checking
  import opened Verdicts
  import opened Caching
  import Resolver

  type Rows = seq<ProviderResult>
  type Answer = CheckResult<Rows>

  datatype Config = Config(tables: Tables, ttl: CacheTTL)

  datatype Stage =
    | Running                        // `check` is collecting rows
    | Checked(answer: Answer)        // its verdict is known, not yet put in the cache
    | Stored(answer: Answer)         // put; the group still lists the call
    | Landed(answer: Answer, at: nat) // removed from the group, followers released

  /** One execution of the function passed to `group.Do`. */
  datatype Flight = Flight(key: string, name: Name, call: Checking.Call, leader: nat, began: nat, stage: Stage) {
    predicate Decided() {
      !stage.Running?
    }
  }

  datatype Via =
    | Rejected                            // input that does not parse
    | Hit(seen: nat)                      // cache hit after `seen` puts
    | Shared(flight: nat, entered: nat)   // leader or follower of a flight, entered at that step

  datatype Progress =
    | Arrived
    | Missed(seen: nat, readAt: int)      // cache miss after `seen` puts, at that time
    | Inside(flight: nat, entered: nat, seen: nat, readAt: int) // inside `group.Do`
    | Answered(answer: Answer, at: int, via: Via, seen: nat, readAt: int)

  datatype Caller = Caller(input: string, includeRaw: bool, progress: Progress)

  datatype State = State(
    now: int,
    steps: nat,
    entries: map<string, Entry<Rows>>,
    group: map<string, nat>,
    flights: seq<Flight>,
    callers: seq<Caller>,
    puts: seq<PutRecord<Rows>>,
    putBy: seq<nat>,
    purges: seq<int>)

  function Initial(now: int): State {
    State(now, 0, map[], map[], [], [], [], [], [])
  }

  datatype Action =
    | Tick(to: int)
    | Arrive(input: string, includeRaw: bool)
    | Reject(i: nat)
    | Look(i: nat)                        // cache.Get
    | Enter(i: nat, call: Checking.Call)           // group.Do: join the flight of the key or lead a new one
    | Decide(f: nat, rows: Rows)          // `check` returns
    | Keep(f: nat)                        // cache.Put
    | Land(f: nat)                        // the group forgets the call
    | Return(i: nat)                      // Do returns to one of its callers
    | ReadPurgeClock
    | Purge(j: nat)

  // ---- Answers ----

  /** The list as it is, or without the payloads. */
  function StripRows(rows: Rows, includeRaw: bool): (r: Rows)
    ensures |r| == |rows|
    ensures includeRaw ==> r == rows
    ensures !includeRaw ==> forall i :: 0 <= i < |r| ==> r[i].raw == None && r[i] == rows[i].(raw := r[i].raw)
  {
    if includeRaw then rows else seq(|rows|, i requires 0 <= i < |rows| => rows[i].(raw := None))
  }

  /** The result as one caller gets it: under its own spelling, with or without the payloads. */
  function Deliver(result: Answer, input: string, includeRaw: bool): Answer {
    result.(domain := input, sources := StripRows(result.sources, includeRaw))
  }

  function Verdict(name: Name, rows: Rows, at: int): Answer {
    var r := Resolver.Reconcile(rows);
    CheckResult(name.input, name.ascii, name.tld, r.availability, r.status, r.confidence, r.evidence, r.conflict,
                rows, at, false, "")
  }

  function Refusal(input: string, at: int): Answer {
    CheckResult(input, "", "", Unknown, StatusUnknown, Low, ["input:invalid"], false, [], at, false,
                "invalid domain name")
  }

  // ---- Steps ----

  function NameOf(cfg: Config, c: Caller): Result<Name, ParseError> {
    Parse(cfg.tables, c.input)
  }

  function KeyOf(cfg: Config, c: Caller): string {
    match NameOf(cfg, c) case Ok(n) => n.ascii case Err(_) => ""
  }

  ghost predicate Can(cfg: Config, s: State, a: Action) {
    match a
    case Tick(to) => s.now <= to
    case Arrive(_, _) => true
    case Reject(i) => i < |s.callers| && s.callers[i].progress.Arrived? && NameOf(cfg, s.callers[i]).Err?
    case Look(i) => i < |s.callers| && s.callers[i].progress.Arrived? && NameOf(cfg, s.callers[i]).Ok?
    case Enter(i, _) => i < |s.callers| && s.callers[i].progress.Missed? && NameOf(cfg, s.callers[i]).Ok?
    case Decide(f, rows) => f < |s.flights| && s.flights[f].stage.Running? && LeftBy(s.flights[f].call, rows)
    case Keep(f) => f < |s.flights| && s.flights[f].stage.Checked?
    case Land(f) => f < |s.flights| && s.flights[f].stage.Stored?
    case Return(i) =>
      && i < |s.callers| && s.callers[i].progress.Inside? && s.callers[i].progress.flight < |s.flights|
      && s.flights[s.callers[i].progress.flight].stage.Landed?
    case ReadPurgeClock => true
    case Purge(j) => j < |s.purges|
  }

  function SetProgress(s: State, i: nat, p: Progress): seq<Caller>
    requires i < |s.callers|
  {
    s.callers[i := s.callers[i].(progress := p)]
  }

  ghost function Do(cfg: Config, s0: State, a: Action): State
    requires Can(cfg, s0, a)
  {
    var s := s0.(steps := s0.steps + 1);
    match a
    case Tick(to) => s.(now := to)
    case Arrive(input, includeRaw) => s.(callers := s.callers + [Caller(input, includeRaw, Arrived)])
    case Reject(i) =>
      s.(callers := SetProgress(s, i, Answered(Refusal(s.callers[i].input, s.now), s.now, Rejected, |s.puts|, s.now)))
    case Look(i) =>
      var c, key := s.callers[i], KeyOf(cfg, s.callers[i]);
      var progress :=
        match Lookup(s.entries, key, s.now)
        case Some(result) => Answered(Deliver(result, c.input, c.includeRaw), s.now, Hit(|s.puts|), |s.puts|, s.now)
        case None => Missed(|s.puts|, s.now);
      s.(entries := AfterGet(s.entries, key, s.now), callers := SetProgress(s, i, progress))
    case Enter(i, call) =>
      var key, p := KeyOf(cfg, s.callers[i]), s.callers[i].progress;
      if key in s.group then
        s.(callers := SetProgress(s, i, Inside(s.group[key], s0.steps, p.seen, p.readAt)))
      else
        s.(callers := SetProgress(s, i, Inside(|s.flights|, s0.steps, p.seen, p.readAt)),
           flights := s.flights + [Flight(key, NameOf(cfg, s.callers[i]).value, call, i, s0.steps, Running)],
           group := s.group[key := |s.flights|])
    case Decide(f, rows) =>
      s.(flights := s.flights[f := s.flights[f].(stage := Checked(Verdict(s.flights[f].name, rows, s.now)))])
    case Keep(f) =>
      var fl := s.flights[f];
      var put := PutRecord(fl.key, fl.stage.answer, s.now);
      s.(entries := AfterPut(cfg.ttl, s.entries, put), puts := s.puts + [put], putBy := s.putBy + [f],
         flights := s.flights[f := fl.(stage := Stored(fl.stage.answer))])
    case Land(f) =>
      s.(group := s.group - {s.flights[f].key},
         flights := s.flights[f := s.flights[f].(stage := Landed(s.flights[f].stage.answer, s0.steps))])
    case Return(i) =>
      var c := s.callers[i];
      var answer := Deliver(s.flights[c.progress.flight].stage.answer, c.input, c.includeRaw);
      s.(callers := SetProgress(s, i,
                                Answered(answer, s.now, Shared(c.progress.flight, c.progress.entered), c.progress.seen,
                                         c.progress.readAt)))
    case ReadPurgeClock => s.(purges := s.purges + [s.now])
    case Purge(j) => s.(entries := AfterPurge(s.entries, s.purges[j]))
  }

  ghost predicate Possible(cfg: Config, s: State, run: seq<Action>)
    decreases |run|
  {
    run == [] || (Can(cfg, s, run[0]) && Possible(cfg, Do(cfg, s, run[0]), run[1..]))
  }

  ghost function After(cfg: Config, s: State, run: seq<Action>): State
    requires Possible(cfg, s, run)
    decreases |run|
  {
    if run == [] then s else After(cfg, Do(cfg, s, run[0]), run[1..])
  }

  // ---- What every step keeps ----

  /** The group lists exactly the flights that have not landed. */
  ghost predicate GroupInv(s: State) {
    && (forall key :: key in s.group ==>
          s.group[key] < |s.flights| && s.flights[s.group[key]].key == key && !s.flights[s.group[key]].stage.Landed?)
    && (forall f :: 0 <= f < |s.flights| && !s.flights[f].stage.Landed? ==>
          s.flights[f].key in s.group && s.group[s.flights[f].key] == f)
  }

  /** A decided flight holds the verdict on rows its own check left behind. */
  ghost predicate FromCheck(fl: Flight) {
    && fl.name.ascii == fl.key && fl.name.tld == LastLabel(fl.key)
    && (fl.Decided() ==>
          exists rows: Rows, at: int :: LeftBy(fl.call, rows) && fl.stage.answer == Verdict(fl.name, rows, at))
  }

  ghost predicate FlightInv(s: State) {
    && (forall f :: 0 <= f < |s.flights| ==> FromCheck(s.flights[f]))
    && (forall f :: 0 <= f < |s.flights| && s.flights[f].stage.Landed? ==>
          s.flights[f].began < s.flights[f].stage.at < s.steps)
    && (forall f :: 0 <= f < |s.flights| ==> s.flights[f].began < s.steps)
  }

  ghost predicate PutInv(s: State) {
    && |s.putBy| == |s.puts|
    && forall j :: 0 <= j < |s.puts| ==>
         && s.putBy[j] < |s.flights|
         && s.puts[j].at <= s.now
         && s.puts[j].key == s.flights[s.putBy[j]].key
         && (s.flights[s.putBy[j]].stage.Stored? || s.flights[s.putBy[j]].stage.Landed?)
         && s.puts[j].result == s.flights[s.putBy[j]].stage.answer
  }

  ghost predicate CacheInv(cfg: Config, s: State) {
    && Agrees(cfg.ttl, s.entries, s.puts, s.now)
    && forall j :: 0 <= j < |s.purges| ==> s.purges[j] <= s.now
  }

  /** What is known of one caller. */
  ghost predicate CallerOk(cfg: Config, s: State, c: Caller) {
    match c.progress
    case Arrived => true
    case Missed(seen, readAt) => NameOf(cfg, c).Ok? && SawNothing(cfg, s, KeyOf(cfg, c), seen, readAt)
    case Inside(f, entered, seen, readAt) =>
      NameOf(cfg, c).Ok? && InFlightOk(s, KeyOf(cfg, c), f, entered) && SawNothing(cfg, s, KeyOf(cfg, c), seen, readAt)
    case Answered(answer, at, via, seen, readAt) =>
      match via
      case Rejected => NameOf(cfg, c).Err? && at <= s.now && answer == Refusal(c.input, at)
      case Hit(n) =>
        && NameOf(cfg, c).Ok? && n <= |s.puts| && at <= s.now && AllBy(s.puts[..n], at)
        && Served(cfg.ttl, s.puts[..n], KeyOf(cfg, c), at).Some?
        && answer == Deliver(Served(cfg.ttl, s.puts[..n], KeyOf(cfg, c), at).value, c.input, c.includeRaw)
      case Shared(f, entered) =>
        && NameOf(cfg, c).Ok? && InFlightOk(s, KeyOf(cfg, c), f, entered)
        && s.flights[f].stage.Landed?
        && answer == Deliver(s.flights[f].stage.answer, c.input, c.includeRaw)
        && SawNothing(cfg, s, KeyOf(cfg, c), seen, readAt)
  }

  predicate AllBy(puts: seq<PutRecord<Rows>>, at: int) {
    forall put :: put in puts ==> put.at <= at
  }

  /** Nothing fresh had been put under `key` when the cache was read. */
  ghost predicate SawNothing(cfg: Config, s: State, key: string, seen: nat, readAt: int) {
    seen <= |s.puts| && readAt <= s.now && Served(cfg.ttl, s.puts[..seen], key, readAt).None?
  }

  /** The caller entered `Do` while the flight was in the group. */
  ghost predicate InFlightOk(s: State, key: string, f: nat, entered: nat) {
    && f < |s.flights| && s.flights[f].key == key
    && s.flights[f].began <= entered < s.steps
    && (s.flights[f].stage.Landed? ==> entered < s.flights[f].stage.at)
  }

  ghost predicate CallerInv(cfg: Config, s: State) {
    forall i :: 0 <= i < |s.callers| ==> CallerOk(cfg, s, s.callers[i])
  }

  /** The flight a caller has entered, if any. */
  function Entered(c: Caller): Option<nat> {
    match c.progress
    case Inside(f, _, _, _) => Some(f)
    case Answered(_, _, Shared(f, _), _, _) => Some(f)
    case _ => None
  }

  ghost predicate LeaderInv(s: State) {
    forall f :: 0 <= f < |s.flights| ==>
      s.flights[f].leader < |s.callers| && Entered(s.callers[s.flights[f].leader]) == Some(f)
  }

  ghost predicate Inv(cfg: Config, s: State) {
    GroupInv(s) && FlightInv(s) && PutInv(s) && CacheInv(cfg, s) && CallerInv(cfg, s) && LeaderInv(s)
  }

  lemma KeepsGroup(cfg: Config, s: State, a: Action)
    requires GroupInv(s) && Can(cfg, s, a)
    ensures GroupInv(Do(cfg, s, a))
  {
    var s' := Do(cfg, s, a);
    match a
    case Enter(i, call) => EnteringKeepsGroup(cfg, s, i, call);
    case Decide(f, rows) => StagingKeepsGroup(s, s', f);
    case Keep(f) => StagingKeepsGroup(s, s', f);
    case Land(f) => LandingKeepsGroup(cfg, s, f);
    case _ => assert s'.group == s.group && s'.flights == s.flights;
  }

  lemma EnteringKeepsGroup(cfg: Config, s: State, i: nat, call: Checking.Call)
    requires GroupInv(s) && Can(cfg, s, Enter(i, call))
    ensures GroupInv(Do(cfg, s, Enter(i, call)))
  {
    var s', key, n := Do(cfg, s, Enter(i, call)), KeyOf(cfg, s.callers[i]), |s.flights|;
    if key !in s.group {
      assert s'.flights[..n] == s.flights && s'.flights[n].key == key;
      forall f | 0 <= f < |s'.flights| && !s'.flights[f].stage.Landed?
        ensures s'.flights[f].key in s'.group && s'.group[s'.flights[f].key] == f
      {
        if f < n {
          assert s'.flights[f] == s.flights[f] && s.flights[f].key in s.group;
        }
      }
    }
  }

  lemma StagingKeepsGroup(s: State, s': State, f: nat)
    requires GroupInv(s) && f < |s.flights| && !s.flights[f].stage.Landed?
    requires s'.group == s.group && |s'.flights| == |s.flights| && s'.flights[f].key == s.flights[f].key
    requires !s'.flights[f].stage.Landed? && forall g :: 0 <= g < |s.flights| && g != f ==>
               s'.flights[g] == s.flights[g]
    ensures GroupInv(s')
  {
  }

  lemma LandingKeepsGroup(cfg: Config, s: State, f: nat)
    requires GroupInv(s) && Can(cfg, s, Land(f))
    ensures GroupInv(Do(cfg, s, Land(f)))
  {
    var s' := Do(cfg, s, Land(f));
    assert s'.flights[f].stage.Landed?;
    forall key | key in s'.group
      ensures s'.group[key] < |s'.flights| && s'.flights[s'.group[key]].key == key
              && !s'.flights[s'.group[key]].stage.Landed?
    {
      assert s.group[key] != f;
    }
  }

  /** The name of a caller about to enter: its key, with the key's last label as TLD. */
  lemma EntrantsName(cfg: Config, c: Caller)
    requires NameOf(cfg, c).Ok?
    ensures
      var name := NameOf(cfg, c).value;
      name.ascii == KeyOf(cfg, c) && name.tld == LastLabel(KeyOf(cfg, c))
  {
    hide LastLabel, Labels;
    AcceptedFromAscii(cfg.tables, c.input);
  }

  lemma KeepsFlights(cfg: Config, s: State, a: Action)
    requires FlightInv(s) && Can(cfg, s, a)
    ensures FlightInv(Do(cfg, s, a))
  {
    hide Deliver, NameOf, Lookup, Verdict, Refusal, AfterGet, AfterPut, AfterPurge, LastLabel;
    var s' := Do(cfg, s, a);
    forall f | 0 <= f < |s'.flights| ensures FromCheck(s'.flights[f]) {
      if f < |s.flights| {
        assert FromCheck(s.flights[f]);
      } else {
        EntrantsName(cfg, s.callers[a.i]);
      }
      if a.Decide? && f == a.f {
        assert LeftBy(s'.flights[f].call, a.rows)
               && s'.flights[f].stage.answer == Verdict(s'.flights[f].name, a.rows, s.now);
      }
    }
  }

  lemma KeepsPuts(cfg: Config, s: State, a: Action)
    requires PutInv(s) && Can(cfg, s, a)
    ensures PutInv(Do(cfg, s, a))
  {
  }

  lemma KeepsCache(cfg: Config, s: State, a: Action)
    requires CacheInv(cfg, s) && Can(cfg, s, a)
    ensures CacheInv(cfg, Do(cfg, s, a))
  {
    match a
    case Tick(to) => TickAgrees(cfg.ttl, s.entries, s.puts, s.now, to);
    case Look(i) => GetAgrees(cfg.ttl, s.entries, s.puts, s.now, KeyOf(cfg, s.callers[i]), s.now);
    case Keep(f) => PutAgrees(cfg.ttl, s.entries, s.puts, s.now,
                              PutRecord(s.flights[f].key, s.flights[f].stage.answer, s.now));
    case Purge(j) => PurgeAgrees(cfg.ttl, s.entries, s.puts, s.now, s.purges[j]);
    case _ =>
  }

  lemma KeepsLeaders(cfg: Config, s: State, a: Action)
    requires LeaderInv(s) && Can(cfg, s, a)
    ensures LeaderInv(Do(cfg, s, a))
  {
    hide Deliver, KeyOf, NameOf, Lookup, Verdict, Refusal, AfterGet, AfterPut, AfterPurge;
    var s' := Do(cfg, s, a);
    forall f | 0 <= f < |s'.flights|
      ensures s'.flights[f].leader < |s'.callers| && Entered(s'.callers[s'.flights[f].leader]) == Some(f)
    {
      if f < |s.flights| {
        assert s'.flights[f].leader == s.flights[f].leader && Entered(s.callers[s.flights[f].leader]) == Some(f);
      }
    }
  }

  /** History only grows, and a flight keeps its key, its start and, once landed, its answer. */
  ghost predicate Extends(s: State, s': State) {
    && s.now <= s'.now && s.steps < s'.steps
    && |s.puts| <= |s'.puts| && s'.puts[..|s.puts|] == s.puts
    && |s.flights| <= |s'.flights|
    && forall f :: 0 <= f < |s.flights| ==> FlightExtends(s, s.flights[f], s'.flights[f])
  }

  predicate FlightExtends(s: State, before: Flight, after: Flight) {
    && before.key == after.key && before.began == after.began
    && (before.stage.Landed? ==> after.stage == before.stage)
    && (!before.stage.Landed? && after.stage.Landed? ==> after.stage.at == s.steps)
  }

  lemma StepsExtend(cfg: Config, s: State, a: Action)
    requires Can(cfg, s, a)
    ensures Extends(s, Do(cfg, s, a))
  {
  }

  lemma PrefixStays<T>(a: seq<T>, b: seq<T>, n: nat)
    requires n <= |a| <= |b| && b[..|a|] == a
    ensures b[..n] == a[..n]
  {
    assert b[..n] == b[..|a|][..n];
  }

  lemma SawNothingStays(cfg: Config, s: State, s': State, key: string, seen: nat, readAt: int)
    requires Extends(s, s') && SawNothing(cfg, s, key, seen, readAt)
    ensures SawNothing(cfg, s', key, seen, readAt)
  {
    PrefixStays(s.puts, s'.puts, seen);
  }

  lemma InFlightStays(s: State, s': State, key: string, f: nat, entered: nat)
    requires Extends(s, s') && InFlightOk(s, key, f, entered)
    ensures InFlightOk(s', key, f, entered)
    ensures s.flights[f].stage.Landed? ==> s'.flights[f].stage == s.flights[f].stage
  {
    assert FlightExtends(s, s.flights[f], s'.flights[f]);
  }

  /** What is known of a caller that does not move stays known. */
  lemma OthersStayOk(cfg: Config, s: State, s': State, c: Caller)
    requires Extends(s, s') && CallerOk(cfg, s, c)
    ensures CallerOk(cfg, s', c)
  {
    var key := KeyOf(cfg, c);
    match c.progress
    case Arrived =>
    case Missed(seen, readAt) => SawNothingStays(cfg, s, s', key, seen, readAt);
    case Inside(f, entered, seen, readAt) =>
      SawNothingStays(cfg, s, s', key, seen, readAt);
      InFlightStays(s, s', key, f, entered);
    case Answered(answer, at, via, seen, readAt) =>
      match via
      case Rejected =>
      case Hit(n) => PrefixStays(s.puts, s'.puts, n);
      case Shared(f, entered) =>
        SawNothingStays(cfg, s, s', key, seen, readAt);
        InFlightStays(s, s', key, f, entered);
  }

  lemma KeepsCallers(cfg: Config, s: State, a: Action)
    requires Inv(cfg, s) && Can(cfg, s, a)
    ensures CallerInv(cfg, Do(cfg, s, a))
  {
    var s' := Do(cfg, s, a);
    StepsExtend(cfg, s, a);
    forall i | 0 <= i < |s'.callers| ensures CallerOk(cfg, s', s'.callers[i]) {
      if i < |s.callers| && s'.callers[i] == s.callers[i] {
        OthersStayOk(cfg, s, s', s.callers[i]);
      } else {
        match a
        case Look(_) => LookerIsOk(cfg, s, i);
        case Enter(_, call) => EntrantIsOk(cfg, s, i, call);
        case Return(_) => LeaverIsOk(cfg, s, i);
        case _ =>
      }
    }
  }

  lemma LookerIsOk(cfg: Config, s: State, i: nat)
    requires CacheInv(cfg, s) && PutInv(s) && Can(cfg, s, Look(i))
    ensures CallerOk(cfg, Do(cfg, s, Look(i)), Do(cfg, s, Look(i)).callers[i])
  {
    LookupIsServed(cfg.ttl, s.entries, s.puts, s.now, KeyOf(cfg, s.callers[i]), s.now);
    assert s.puts[..|s.puts|] == s.puts;
  }

  lemma EntrantIsOk(cfg: Config, s: State, i: nat, call: Checking.Call)
    requires GroupInv(s) && FlightInv(s) && CallerInv(cfg, s) && Can(cfg, s, Enter(i, call))
    ensures CallerOk(cfg, Do(cfg, s, Enter(i, call)), Do(cfg, s, Enter(i, call)).callers[i])
  {
    assert CallerOk(cfg, s, s.callers[i]);
  }

  lemma LeaverIsOk(cfg: Config, s: State, i: nat)
    requires CallerInv(cfg, s) && Can(cfg, s, Return(i))
    ensures CallerOk(cfg, Do(cfg, s, Return(i)), Do(cfg, s, Return(i)).callers[i])
  {
    assert CallerOk(cfg, s, s.callers[i]);
  }

  lemma {:induction false} RunsKeepInv(cfg: Config, s: State, run: seq<Action>)
    requires Inv(cfg, s) && Possible(cfg, s, run)
    ensures Inv(cfg, After(cfg, s, run))
    decreases |run|
  {
    if run != [] {
      var a := run[0];
      KeepsGroup(cfg, s, a);
      KeepsFlights(cfg, s, a);
      KeepsPuts(cfg, s, a);
      KeepsCache(cfg, s, a);
      KeepsLeaders(cfg, s, a);
      KeepsCallers(cfg, s, a);
      RunsKeepInv(cfg, Do(cfg, s, a), run[1..]);
    }
  }

  lemma InitialInv(cfg: Config, now: int)
    ensures Inv(cfg, Initial(now))
  {
    forall k ensures AgreesOn(cfg.ttl, Initial(now).entries, Initial(now).puts, now, k) {}
  }
}
