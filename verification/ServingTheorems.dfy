/** What the `Check` protocol promises in every reachable state, for any number of callers. */
module ServingTheorems {
  import opened Basics
  import opened Core
  import opened DomainName
  import opened Text
  import opened Verdicts
  import opened Caching
  import opened Serving
  import Checking
  import Resolver

  ghost predicate Reachable(cfg: Config, s: State) {
    exists now: int, run: seq<Action> :: Possible(cfg, Initial(now), run) && After(cfg, Initial(now), run) == s
  }

  lemma ReachableInv(cfg: Config, s: State)
    requires Reachable(cfg, s)
    ensures Inv(cfg, s)
  {
    var now: int, run: seq<Action> :| Possible(cfg, Initial(now), run) && After(cfg, Initial(now), run) == s;
    InitialInv(cfg, now);
    RunsKeepInv(cfg, Initial(now), run);
  }

  // ---- Provenance ----

  /** The flight behind an answered caller: the one it shared, or the one whose put it hit. */
  ghost predicate ServedBy(cfg: Config, s: State, c: Caller, f: nat)
    requires c.progress.Answered?
  {
    && f < |s.flights| && s.flights[f].key == KeyOf(cfg, c) && s.flights[f].Decided()
    && match c.progress.via
       case Rejected => false
       case Hit(seen) =>
         exists j: nat :: && j < seen <= |s.puts| && j < |s.putBy| && s.putBy[j] == f
                          && s.puts[j].at <= c.progress.at < s.puts[j].Expiry(cfg.ttl)
                          && s.puts[j].result == s.flights[f].stage.answer
       case Shared(g, entered) =>
         g == f && s.flights[f].stage.Landed? && s.flights[f].began <= entered < s.flights[f].stage.at
  }

  lemma HitsAreFresh(cfg: Config, s: State, c: Caller) returns (j: nat)
    requires Inv(cfg, s) && CallerOk(cfg, s, c) && c.progress.Answered? && c.progress.via.Hit?
    ensures j < c.progress.via.seen <= |s.puts| && j < |s.putBy| && s.putBy[j] < |s.flights|
    ensures s.puts[j].key == KeyOf(cfg, c) && s.puts[j].Stores(cfg.ttl)
    ensures s.puts[j].at <= c.progress.at < s.puts[j].Expiry(cfg.ttl)
    ensures c.progress.answer == Deliver(s.puts[j].result.(cached := true), c.input, c.includeRaw)
    ensures forall k :: j < k < c.progress.via.seen && s.puts[k].key == KeyOf(cfg, c) ==> !s.puts[k].Stores(cfg.ttl)
  {
    hide Deliver, KeyOf, NameOf;
    var seen, key := s.puts[..c.progress.via.seen], KeyOf(cfg, c);
    LatestIsNewest(cfg.ttl, seen, key);
    var put := Latest(cfg.ttl, seen, key).value;
    j :| && 0 <= j < |seen| && seen[j] == put && put.key == key && put.Stores(cfg.ttl)
         && forall k :: j < k < |seen| && seen[k].key == key ==> !seen[k].Stores(cfg.ttl);
    forall k | j < k < c.progress.via.seen && s.puts[k].key == key ensures !s.puts[k].Stores(cfg.ttl) {
      assert seen[k] == s.puts[k];
    }
    assert s.puts[j] == seen[j];
  }

  /** Every answer that is not a refusal comes from exactly one finished check. */
  lemma AnswersComeFromChecks(cfg: Config, s: State, c: Caller) returns (f: nat)
    requires Inv(cfg, s) && CallerOk(cfg, s, c) && c.progress.Answered? && !c.progress.via.Rejected?
    ensures ServedBy(cfg, s, c, f)
    ensures c.progress.answer ==
            Deliver(s.flights[f].stage.answer.(cached := c.progress.via.Hit?), c.input, c.includeRaw)
  {
    match c.progress.via
    case Hit(seen) =>
      var j := HitsAreFresh(cfg, s, c);
      f := s.putBy[j];
      assert ServedBy(cfg, s, c, f);
    case Shared(g, entered) =>
      f := g;
      assert FromCheck(s.flights[f]);
  }

  /** The list behind an answer that is not "unknown": some run of the serving flight's check left it, and its
      verdict is the answer's. */
  lemma AnswerHasRows(cfg: Config, s: State, i: nat) returns (f: nat, rows: Rows)
    requires Reachable(cfg, s) && i < |s.callers| && s.callers[i].progress.Answered?
    requires s.callers[i].progress.answer.availability != Unknown
    ensures ServedBy(cfg, s, s.callers[i], f) && LeftBy(s.flights[f].call, rows)
    ensures s.callers[i].progress.answer.availability == Resolver.Reconcile(rows).availability
  {
    ReachableInv(cfg, s);
    assert CallerOk(cfg, s, s.callers[i]);
    f := AnswersComeFromChecks(cfg, s, s.callers[i]);
    assert FromCheck(s.flights[f]);
    var at: int;
    rows, at :| LeftBy(s.flights[f].call, rows) && s.flights[f].stage.answer == Verdict(s.flights[f].name, rows, at);
  }

  /** A caller gets the name back as it spelled it. */
  lemma AnswersKeepTheSpelling(cfg: Config, s: State, i: nat)
    requires Reachable(cfg, s) && i < |s.callers| && s.callers[i].progress.Answered?
    requires s.callers[i].progress.answer.availability != Unknown
    ensures s.callers[i].progress.answer.domain == s.callers[i].input
  {
    ReachableInv(cfg, s);
    assert CallerOk(cfg, s, s.callers[i]);
    var f := AnswersComeFromChecks(cfg, s, s.callers[i]);
  }

  lemma DecidedAvailable(fl: Flight)
    requires FromCheck(fl) && fl.Decided() && fl.stage.answer.availability == Available
    ensures RegistryAnsweredFree(fl.call)
  {
    var rows: Rows, at: int :| LeftBy(fl.call, rows) && fl.stage.answer == Verdict(fl.name, rows, at);
    AvailableHasAWitness(fl.call, rows);
  }

  /** Put `j` is an "available" answer for the caller's name whose lifetime covers the caller's hit. */
  ghost predicate FreshPut(cfg: Config, s: State, c: Caller, j: nat)
    requires c.progress.Answered?
  {
    && j < |s.puts| && s.puts[j].key == KeyOf(cfg, c) && s.puts[j].result.availability == Available
    && s.puts[j].at <= c.progress.at < s.puts[j].at + cfg.ttl.available
  }

  /** The central promise. Whatever the callers, schedules, cache contents, failures and cancellations:
      an "available" answer traces to one check in which RDAP or WHOIS answered "not registered". A cached
      one is served strictly within the Available lifetime of its put; a shared one was in flight when its
      caller entered. */
  lemma AvailableIsProven(cfg: Config, s: State, i: nat)
    requires Reachable(cfg, s) && i < |s.callers| && s.callers[i].progress.Answered?
    requires s.callers[i].progress.answer.availability == Available
    ensures exists f: nat :: ServedBy(cfg, s, s.callers[i], f) && RegistryAnsweredFree(s.flights[f].call)
    ensures s.callers[i].progress.via.Hit? ==> exists j: nat :: FreshPut(cfg, s, s.callers[i], j)
  {
    ReachableInv(cfg, s);
    var c := s.callers[i];
    assert CallerOk(cfg, s, c);
    var f := AnswersComeFromChecks(cfg, s, c);
    assert FromCheck(s.flights[f]);
    DecidedAvailable(s.flights[f]);
    if c.progress.via.Hit? {
      var j := HitsAreFresh(cfg, s, c);
      assert FreshPut(cfg, s, c, j);
    }
  }

  // ---- Single flight ----

  /** At most one check per name is in flight. */
  lemma OneFlightPerName(cfg: Config, s: State, f: nat, g: nat)
    requires Reachable(cfg, s) && f < |s.flights| && g < |s.flights|
    requires s.flights[f].key == s.flights[g].key
    requires !s.flights[f].stage.Landed? && !s.flights[g].stage.Landed?
    ensures f == g
  {
    ReachableInv(cfg, s);
  }

  /** The caller read the cache for `key` and found nothing. */
  predicate MissedOn(cfg: Config, c: Caller, key: string) {
    KeyOf(cfg, c) == key && (c.progress.Missed? || Entered(c).Some?)
  }

  function FlightsOf(s: State, key: string): set<nat> {
    set f: nat | f < |s.flights| && s.flights[f].key == key
  }

  function MissesOn(cfg: Config, s: State, key: string): set<nat> {
    set i: nat | i < |s.callers| && MissedOn(cfg, s.callers[i], key)
  }

  lemma {:induction false} InjectionBound(fs: set<nat>, lead: nat -> nat, cs: set<nat>)
    requires forall f :: f in fs ==> lead(f) in cs
    requires forall f, g :: f in fs && g in fs && lead(f) == lead(g) ==> f == g
    ensures |fs| <= |cs|
  {
    if fs != {} {
      var f :| f in fs;
      InjectionBound(fs - {f}, lead, cs - {lead(f)});
    }
  }

  /** Checks never outnumber cache misses: each is led by a caller of its own that missed. */
  lemma ChecksNeverExceedMisses(cfg: Config, s: State, key: string)
    requires Reachable(cfg, s)
    ensures |FlightsOf(s, key)| <= |MissesOn(cfg, s, key)|
  {
    hide Reachable, KeyOf, NameOf, SawNothing, Served;
    ReachableInv(cfg, s);
    var lead := (f: nat) => if f < |s.flights| then s.flights[f].leader else 0;
    forall f | f in FlightsOf(s, key) ensures lead(f) in MissesOn(cfg, s, key) {
      assert CallerOk(cfg, s, s.callers[lead(f)]);
    }
    InjectionBound(FlightsOf(s, key), lead, MissesOn(cfg, s, key));
  }

  /** Two answers differ in the caller's own spelling and in payloads at most. */
  predicate SameSubstance(a: Answer, b: Answer) {
    && a == b.(domain := a.domain, sources := a.sources)
    && |a.sources| == |b.sources|
    && forall i :: 0 <= i < |a.sources| ==> a.sources[i] == b.sources[i].(raw := a.sources[i].raw)
  }

  /** All callers that share a flight get the same answer, up to that. */
  lemma SharersAgree(cfg: Config, s: State, i: nat, j: nat)
    requires Reachable(cfg, s) && i < |s.callers| && j < |s.callers|
    requires s.callers[i].progress.Answered? && s.callers[i].progress.via.Shared?
    requires s.callers[j].progress.Answered? && s.callers[j].progress.via.Shared?
    requires s.callers[i].progress.via.flight == s.callers[j].progress.via.flight
    ensures SameSubstance(s.callers[i].progress.answer, s.callers[j].progress.answer)
    ensures s.callers[i].includeRaw == s.callers[j].includeRaw ==>
              s.callers[i].progress.answer.sources == s.callers[j].progress.answer.sources
  {
    hide StripRows;
    ReachableInv(cfg, s);
    var f := s.callers[i].progress.via.flight;
    assert CallerOk(cfg, s, s.callers[i]) && CallerOk(cfg, s, s.callers[j]);
  }

  /** A caller that asks for payloads gets the list its check left, complete, even from a cache entry or
      a flight that others read stripped; one that does not gets it without payloads, and all the rest. */
  lemma PayloadsSurvive(cfg: Config, s: State, i: nat) returns (f: nat, rows: Rows)
    requires Reachable(cfg, s) && i < |s.callers| && s.callers[i].progress.Answered?
             && !s.callers[i].progress.via.Rejected?
    ensures ServedBy(cfg, s, s.callers[i], f) && LeftBy(s.flights[f].call, rows)
    ensures
      var c, got := s.callers[i], s.callers[i].progress.answer.sources;
      && (c.includeRaw ==> got == rows)
      && (!c.includeRaw ==>
            && |got| == |rows|
            && forall k :: 0 <= k < |rows| ==> got[k].raw == None && got[k] == rows[k].(raw := None))
  {
    hide StripRows, Verdict;
    var at;
    f, rows, at := AnswersAreVerdicts(cfg, s, i);
  }

  lemma AnswerIsDelivered(cfg: Config, s: State, i: nat) returns (f: nat, rows: Rows, at: int)
    requires Reachable(cfg, s) && i < |s.callers| && s.callers[i].progress.Answered?
             && !s.callers[i].progress.via.Rejected?
    ensures ServedBy(cfg, s, s.callers[i], f) && LeftBy(s.flights[f].call, rows) && NameOf(cfg, s.callers[i]).Ok?
    ensures s.flights[f].name.ascii == KeyOf(cfg, s.callers[i])
    ensures s.flights[f].name.tld == LastLabel(KeyOf(cfg, s.callers[i]))
    ensures
      var c := s.callers[i];
      c.progress.answer ==
      Deliver(Verdict(s.flights[f].name, rows, at).(cached := c.progress.via.Hit?), c.input, c.includeRaw)
  {
    hide Deliver, Verdict, NameOf, KeyOf, LastLabel, LeftBy, SawNothing, Served, StripRows, Reachable;
    ReachableInv(cfg, s);
    var c := s.callers[i];
    assert CallerOk(cfg, s, c);
    f := AnswersComeFromChecks(cfg, s, c);
    assert FromCheck(s.flights[f]);
    rows, at :| LeftBy(s.flights[f].call, rows) && s.flights[f].stage.answer == Verdict(s.flights[f].name, rows, at);
  }

  /** Field by field: a caller's answer is the verdict on a list that the serving check left, under the caller's
      own spelling, marked cached exactly for a hit. */
  lemma AnswersAreVerdicts(cfg: Config, s: State, i: nat) returns (f: nat, rows: Rows, at: int)
    requires Reachable(cfg, s) && i < |s.callers| && s.callers[i].progress.Answered?
             && !s.callers[i].progress.via.Rejected?
    ensures ServedBy(cfg, s, s.callers[i], f) && LeftBy(s.flights[f].call, rows)
    ensures
      var c, r := s.callers[i], Resolver.Reconcile(rows);
      var answer := c.progress.answer;
      && NameOf(cfg, c).Ok?
      && answer.domain == c.input && answer.normalizedDomain == NameOf(cfg, c).value.ascii
      && answer.tld == NameOf(cfg, c).value.tld
      && answer.availability == r.availability && answer.status == r.status && answer.confidence == r.confidence
      && answer.evidence == r.evidence && answer.conflict == r.conflict
      && answer.cached == c.progress.via.Hit? && answer.error == "" && answer.checkedAt == at
      && answer.sources == StripRows(rows, c.includeRaw)
  {
    hide LeftBy, Resolver.Reconcile, LastLabel, Inv, CallerOk, Reachable, ServedBy, StripRows, KeyOf, NameOf;
    f, rows, at := AnswerIsDelivered(cfg, s, i);
    EntrantsName(cfg, s.callers[i]);
  }

  /** A text that is no name is refused, and nothing else is: "unknown", low confidence, no sources, not cached. */
  lemma RefusedExactly(cfg: Config, s: State, i: nat)
    requires Reachable(cfg, s) && i < |s.callers| && s.callers[i].progress.Answered?
    ensures s.callers[i].progress.via.Rejected? <==> Parse(cfg.tables, s.callers[i].input).Err?
    ensures s.callers[i].progress.via.Rejected? ==>
              var a := s.callers[i].progress.answer;
              && a.domain == s.callers[i].input && a.availability == Unknown && a.status == StatusUnknown
              && a.confidence == Low && a.evidence == ["input:invalid"] && !a.conflict && a.sources == []
              && !a.cached && a.error != ""
  {
    hide Parse, Served, SawNothing, Deliver;
    ReachableInv(cfg, s);
    assert CallerOk(cfg, s, s.callers[i]);
  }

  // ---- "One check per lifetime" and where it ends ----

  /** While a put of a name is still fresh, a caller about to enter `Do` for that name read the cache before
      that put, and it starts a second check if and only if none of the name is in flight. */
  lemma SecondCheckExactly(cfg: Config, s: State, i: nat, call: Checking.Call, j: nat)
    requires Reachable(cfg, s) && Can(cfg, s, Enter(i, call))
    requires NewestPut(cfg, s, KeyOf(cfg, s.callers[i]), j) && s.now < s.puts[j].Expiry(cfg.ttl)
    ensures s.callers[i].progress.seen <= j
    ensures |Do(cfg, s, Enter(i, call)).flights| > |s.flights| <==>
            forall f :: 0 <= f < |s.flights| && s.flights[f].key == KeyOf(cfg, s.callers[i]) ==>
                s.flights[f].stage.Landed?
  {
    hide Deliver, Verdict, Refusal, NameOf, KeyOf, Served, Reachable, LeftBy, AfterGet, AfterPut, AfterPurge, Lookup,
      NewestPut, StripRows;
    ReachableInv(cfg, s);
    var c, key := s.callers[i], KeyOf(cfg, s.callers[i]);
    assert CallerOk(cfg, s, c);
    if c.progress.seen > j {
      SeeingNothingMeansExpired(cfg, s, key, c.progress.seen, c.progress.readAt, j);
    }
    if key in s.group {
      assert s.flights[s.group[key]].key == key && !s.flights[s.group[key]].stage.Landed?;
    }
  }

  /** Put `j` is the newest put that stored something under `key`. */
  ghost predicate NewestPut(cfg: Config, s: State, key: string, j: nat) {
    && j < |s.puts| && s.puts[j].key == key && s.puts[j].Stores(cfg.ttl)
    && forall k :: j < k < |s.puts| && s.puts[k].key == key ==> !s.puts[k].Stores(cfg.ttl)
  }

  lemma SeeingNothingMeansExpired(cfg: Config, s: State, key: string, seen: nat, readAt: int, j: nat)
    requires SawNothing(cfg, s, key, seen, readAt) && NewestPut(cfg, s, key, j) && j < seen
    ensures s.puts[j].Expiry(cfg.ttl) <= readAt
  {
    var front := s.puts[..seen];
    LatestIsNewest(cfg.ttl, front, key);
    assert front[j] == s.puts[j];
    var put := Latest(cfg.ttl, front, key).value;
    var i :| && 0 <= i < |front| && front[i] == put && put.key == key && put.Stores(cfg.ttl)
             && forall k :: i < k < |front| && front[k].key == key ==> !front[k].Stores(cfg.ttl);
    assert front[i] == s.puts[i];
    assert i == j;
  }

  lemma {:induction false} OneMore(cfg: Config, s: State, run: seq<Action>, a: Action)
    requires Possible(cfg, s, run) && Can(cfg, After(cfg, s, run), a)
    ensures Possible(cfg, s, run + [a]) && After(cfg, s, run + [a]) == Do(cfg, After(cfg, s, run), a)
    decreases |run|
  {
    if run == [] {
      assert (run + [a])[0] == a && (run + [a])[1..] == [];
    } else {
      assert (run + [a])[1..] == run[1..] + [a];
      OneMore(cfg, Do(cfg, s, run[0]), run[1..], a);
    }
  }

  /** One flight of `name` at stage `stage`, led by the first of two callers that both missed. */
  function RaceState(input: string, name: Name, call: Checking.Call, steps: nat, stage: Stage,
                     entries: map<string, Entry<Rows>>, group: map<string, nat>,
                     puts: seq<PutRecord<Rows>>, putBy: seq<nat>): State
  {
    State(0, steps, entries, group, [Flight(name.ascii, name, call, 0, 4, stage)],
          [Caller(input, false, Inside(0, 4, 0, 0)), Caller(input, false, Missed(0, 0))], puts, putBy, [])
  }

  function BothMissed(input: string): State {
    var c := Caller(input, false, Missed(0, 0));
    State(0, 4, map[], map[], [], [c, c], [], [], [])
  }

  lemma BothMiss(cfg: Config, input: string)
    requires Parse(cfg.tables, input).Ok?
    ensures Reachable(cfg, BothMissed(input))
  {
    hide Parse;
    var s0 := Initial(0);
    assert Possible(cfg, s0, []) && After(cfg, s0, []) == s0;
    var s1 := StepOn(cfg, s0, Arrive(input, false));
    var s2 := StepOn(cfg, s1, Arrive(input, false));
    assert s2.callers == [Caller(input, false, Arrived), Caller(input, false, Arrived)];
    var s3 := LookAndMiss(cfg, s2, 0);
    var s4 := LookAndMiss(cfg, s3, 1);
    assert s4 == BothMissed(input);
  }

  lemma LookAndMiss(cfg: Config, s: State, i: nat) returns (s': State)
    requires Reachable(cfg, s) && Can(cfg, s, Look(i)) && s.entries == map[]
    ensures Reachable(cfg, s')
    ensures s' == s.(steps := s.steps + 1, callers := SetProgress(s, i, Missed(|s.puts|, s.now)))
  {
    s' := StepOn(cfg, s, Look(i));
  }

  lemma FirstLeads(cfg: Config, input: string, name: Name, call: Checking.Call) returns (s': State)
    requires Reachable(cfg, BothMissed(input)) && Parse(cfg.tables, input) == Ok(name)
    ensures Reachable(cfg, s')
    ensures s' == RaceState(input, name, call, 5, Running, map[], map[name.ascii := 0], [], [])
  {
    s' := StepOn(cfg, BothMissed(input), Enter(0, call));
    assert s'.callers == [Caller(input, false, Inside(0, 4, 0, 0)), Caller(input, false, Missed(0, 0))];
  }

  lemma FirstLands(cfg: Config, input: string, name: Name, call: Checking.Call, rows: Rows, s: State)
    returns (s': State)
    requires LeftBy(call, rows) && cfg.ttl.Lifetime(Verdict(name, rows, 0).availability) > 0
    requires Reachable(cfg, s) && s == RaceState(input, name, call, 5, Running, map[], map[name.ascii := 0], [], [])
    ensures
      var answer := Verdict(name, rows, 0);
      var put := PutRecord(name.ascii, answer, 0);
      && Reachable(cfg, s')
      && s' == RaceState(input, name, call, 8, Landed(answer, 7), map[name.ascii := Entry(answer, put.Expiry(cfg.ttl))],
                         map[], [put], [0])
  {
    hide LeftBy, Reachable, Verdict;
    var s6 := StepOn(cfg, s, Decide(0, rows));
    var s7 := StepOn(cfg, s6, Keep(0));
    s' := StepOn(cfg, s7, Land(0));
    assert s'.group == map[];
  }

  lemma SecondLeads(cfg: Config, input: string, name: Name, call: Checking.Call, s: State) returns (s': State)
    requires Reachable(cfg, s) && Parse(cfg.tables, input) == Ok(name)
    requires |s.callers| == 2 && s.callers[1] == Caller(input, false, Missed(0, 0)) && name.ascii !in s.group
    ensures Reachable(cfg, s')
    ensures s'.flights == s.flights + [Flight(name.ascii, name, call, 1, s.steps, Running)]
    ensures s'.puts == s.puts && s'.putBy == s.putBy && s'.now == s.now
  {
    s' := StepOn(cfg, s, Enter(1, call));
  }

  /** The early read does happen, with any providers: two callers miss, the first one's check is done and
      cached, and the second still starts its own while the entry is fresh. "One check per lifetime" is false. */
  lemma EarlyReadStartsSecondCheck(cfg: Config, input: string, first: Checking.Call, second: Checking.Call)
    returns (s: State)
    requires Parse(cfg.tables, input).Ok?
    requires cfg.ttl.available > 0 && cfg.ttl.unavailable > 0 && cfg.ttl.unknown > 0
    ensures Reachable(cfg, s) && |s.flights| == 2 && |s.puts| == |s.putBy| == 1
    ensures s.flights[0].call == first && s.flights[1].call == second
    ensures s.flights[0].key == s.flights[1].key == s.puts[0].key
    ensures s.puts[0].Stores(cfg.ttl) && s.now < s.puts[0].Expiry(cfg.ttl)
    ensures s.putBy[0] == 0 && s.flights[0].stage.Landed? && s.flights[0].stage.at < s.flights[1].began
  {
    hide Verdict, Parse;
    var name := Parse(cfg.tables, input).value;
    var rows := EveryCheckCanEnd(first);
    BothMiss(cfg, input);
    var s5 := FirstLeads(cfg, input, name, first);
    var s8 := FirstLands(cfg, input, name, first, rows, s5);
    s := SecondLeads(cfg, input, name, second, s8);
  }

  lemma StepOn(cfg: Config, s: State, a: Action) returns (s': State)
    requires Reachable(cfg, s) && Can(cfg, s, a)
    ensures Reachable(cfg, s') && s' == Do(cfg, s, a)
  {
    var now: int, run: seq<Action> :| Possible(cfg, Initial(now), run) && After(cfg, Initial(now), run) == s;
    OneMore(cfg, Initial(now), run, a);
    s' := Do(cfg, s, a);
  }

  // ---- Nobody is left waiting ----

  /** Every check can be carried through, whatever its providers do. */
  lemma EveryCheckCanEnd(call: Checking.Call) returns (rows: Rows)
    ensures LeftBy(call, rows)
  {
    var plan := [call];
    Checking.StartKeepsInv(plan, 1);
    var schedule := Checking.EveryRunFinishes(plan, Checking.Start(plan), 1);
    Checking.FinishedLists(plan, schedule, 1, 0);
    rows := Checking.Run(Checking.Start(plan), schedule, 1).results[0];
    assert CompleteRun(plan, schedule, 1, 0, call, rows);
  }

  function StageRank(stage: Stage): nat {
    match stage case Running => 4 case Checked(_) => 3 case Stored(_) => 2 case Landed(_, _) => 1
  }

  /** How far a caller has come, whatever its flight does. */
  function ProgressRank(p: Progress): nat {
    match p case Arrived => 6 case Missed(_, _) => 5 case Inside(_, _, _, _) => 4 case Answered(_, _, _, _, _) => 0
  }

  /** How many steps of its own and of its flight stand between a caller and its answer, at most. */
  function StepsToAnswer(s: State, i: nat): nat
    requires i < |s.callers|
  {
    var p := s.callers[i].progress;
    if p.Inside? && p.flight < |s.flights| then StageRank(s.flights[p.flight].stage) else ProgressRank(p)
  }

  /** The caller's flight is still collecting rows. */
  predicate WaitsForCheck(s: State, i: nat)
    requires i < |s.callers|
  {
    var p := s.callers[i].progress;
    p.Inside? && p.flight < |s.flights| && s.flights[p.flight].stage.Running?
  }

  /** The flight a caller waits for can take a step that brings it closer to landing. */
  lemma FlightMoves(cfg: Config, s: State, i: nat) returns (a: Action)
    requires i < |s.callers| && s.callers[i].progress.Inside? && s.callers[i].progress.flight < |s.flights|
    requires !s.flights[s.callers[i].progress.flight].stage.Landed?
    ensures Can(cfg, s, a) && !a.Enter? && Do(cfg, s, a).callers == s.callers
    ensures a.Decide? ==> WaitsForCheck(s, i)
    ensures StepsToAnswer(Do(cfg, s, a), i) < StepsToAnswer(s, i)
  {
    hide Deliver, Verdict, Refusal, Lookup, AfterGet, AfterPut, LeftBy;
    var f := s.callers[i].progress.flight;
    match s.flights[f].stage
    case Running =>
      var rows := EveryCheckCanEnd(s.flights[f].call);
      a := Decide(f, rows);
    case Checked(_) => a := Keep(f);
    case Stored(_) => a := Land(f);
    case Landed(_, _) => assert false;
  }

  /** A caller that waits for nobody can move too, entering `Do` with the call at hand if it must. */
  lemma CallerMoves(cfg: Config, s: State, i: nat, call: Checking.Call) returns (a: Action)
    requires i < |s.callers|
             && (s.callers[i].progress.Arrived? || (s.callers[i].progress.Missed? && NameOf(cfg, s.callers[i]).Ok?))
    requires forall key :: key in s.group ==> s.group[key] < |s.flights|
    ensures Can(cfg, s, a) && i < |Do(cfg, s, a).callers| && (a.Enter? ==> a.call == call)
    ensures a.Decide? ==> WaitsForCheck(s, i)
    ensures StepsToAnswer(Do(cfg, s, a), i) < StepsToAnswer(s, i)
  {
    hide Deliver, Verdict, Refusal, Lookup, AfterGet, AfterPut, NameOf;
    match s.callers[i].progress
    case Arrived => a := if NameOf(cfg, s.callers[i]).Ok? then Look(i) else Reject(i);
    case Missed(_, _) => a := Enter(i, call);
  }

  lemma CallerReturns(cfg: Config, s: State, i: nat) returns (a: Action)
    requires i < |s.callers| && s.callers[i].progress.Inside? && s.callers[i].progress.flight < |s.flights|
    requires s.flights[s.callers[i].progress.flight].stage.Landed?
    ensures Can(cfg, s, a) && !a.Enter? && !a.Decide? && i < |Do(cfg, s, a).callers|
    ensures StepsToAnswer(Do(cfg, s, a), i) < StepsToAnswer(s, i)
  {
    hide Deliver;
    a := Return(i);
  }

  /** While a caller has no answer, it or the flight it waits for can take a step towards it, whatever call the
      engine would make for it. */
  lemma NobodyIsStuck(cfg: Config, s: State, i: nat, call: Checking.Call) returns (a: Action)
    requires Reachable(cfg, s) && i < |s.callers| && !s.callers[i].progress.Answered?
    ensures Can(cfg, s, a) && i < |Do(cfg, s, a).callers| && (a.Enter? ==> a.call == call)
    ensures a.Decide? ==> WaitsForCheck(s, i)
    ensures StepsToAnswer(Do(cfg, s, a), i) < StepsToAnswer(s, i)
  {
    hide Do, Can, StepsToAnswer, SawNothing, Reachable;
    ReachableInv(cfg, s);
    var c := s.callers[i];
    assert CallerOk(cfg, s, c);
    match c.progress
    case Arrived => a := CallerMoves(cfg, s, i, call);
    case Missed(_, _) => a := CallerMoves(cfg, s, i, call);
    case Inside(f, _, _, _) =>
      if s.flights[f].stage.Landed? {
        a := CallerReturns(cfg, s, i);
      } else {
        a := FlightMoves(cfg, s, i);
      }
  }

  lemma FlightsAdvance(cfg: Config, s: State, a: Action)
    requires Can(cfg, s, a)
    ensures |s.flights| <= |Do(cfg, s, a).flights|
    ensures forall f :: 0 <= f < |s.flights| ==>
              StageRank(Do(cfg, s, a).flights[f].stage) <= StageRank(s.flights[f].stage)
  {
    hide Deliver, Verdict, Refusal, Lookup, AfterGet, AfterPut, AfterPurge, KeyOf, NameOf, LeftBy;
  }

  lemma CallersAdvance(cfg: Config, s: State, a: Action, i: nat)
    requires Can(cfg, s, a) && i < |s.callers|
    ensures i < |Do(cfg, s, a).callers|
    ensures
      var before, after := s.callers[i].progress, Do(cfg, s, a).callers[i].progress;
      after == before || ProgressRank(after) < ProgressRank(before)
    ensures
      var before, after := s.callers[i].progress, Do(cfg, s, a).callers[i].progress;
      before.Inside? ==> after == before || after.Answered?
  {
    hide Deliver, Verdict, Refusal, Lookup, AfterGet, AfterPut, AfterPurge, KeyOf, NameOf, LeftBy;
  }

  /** And no step of anyone sets a caller back: the measure only falls along every run. */
  lemma NobodySetsBack(cfg: Config, s: State, a: Action, i: nat)
    requires Inv(cfg, s) && Can(cfg, s, a) && i < |s.callers|
    ensures i < |Do(cfg, s, a).callers| && StepsToAnswer(Do(cfg, s, a), i) <= StepsToAnswer(s, i)
  {
    hide Do, Can, Inv;
    InsideIsInFlight(cfg, s, i);
    FlightsAdvance(cfg, s, a);
    CallersAdvance(cfg, s, a, i);
  }

  lemma InsideIsInFlight(cfg: Config, s: State, i: nat)
    requires Inv(cfg, s) && i < |s.callers|
    ensures s.callers[i].progress.Inside? ==> s.callers[i].progress.flight < |s.flights|
  {
    hide SawNothing, KeyOf, NameOf, Deliver, Served;
    assert CallerOk(cfg, s, s.callers[i]);
  }

  /** From every reachable state a run of at most six steps answers a given caller, whatever the others do not do
      and whatever call the engine makes for it. */
  lemma {:induction false} EveryCallerIsAnswered(cfg: Config, s: State, i: nat, call: Checking.Call)
    returns (run: seq<Action>)
    requires Reachable(cfg, s) && i < |s.callers|
    ensures Possible(cfg, s, run) && |run| <= 6
    ensures forall k :: 0 <= k < |run| && run[k].Enter? ==> run[k].call == call
    ensures i < |After(cfg, s, run).callers| && After(cfg, s, run).callers[i].progress.Answered?
    ensures |run| <= StepsToAnswer(s, i)
    decreases StepsToAnswer(s, i)
  {
    hide Reachable, Do, Can;
    if s.callers[i].progress.Answered? {
      run := [];
    } else {
      var a := NobodyIsStuck(cfg, s, i, call);
      var s' := StepOn(cfg, s, a);
      var rest := EveryCallerIsAnswered(cfg, s', i, call);
      run := [a] + rest;
      assert run[1..] == rest;
    }
  }
}
