/** internal/engine/engine.go:46-61, 63-93, 111-118 and 139-233 together: the callers of `Check` and `Info`, and
    the goroutines of all the checks they start, competing for one budget of slots. A check is no longer one
    step: it begins when its leader enters, its goroutines step one by one between everyone else's steps, and
    it ends when all of them have returned. */
module Budget {
  import opened Core
  import opened Serving
  import opened ServingTheorems
  import Checking
  import Verdicts

  /** `plan` lists the calls started so far, those of `Info` included; `callOf` says which are the flights'. */
  datatype System = System(serving: Serving.State, plan: seq<Checking.Call>, callOf: seq<nat>, work: Checking.State)

  datatype Move =
    | Serve(action: Action)          // a step of the `Check` protocol
    | Work(i: nat)                   // a step of one goroutine
    | Inform(call: Checking.Call)    // `Info` starts a check of its own

  function Initial(now: int): System {
    System(Serving.Initial(now), [], [], Checking.Start([]))
  }

  /** Every goroutine of call k has returned. */
  ghost predicate Done(work: Checking.State, k: nat) {
    forall g :: g in work.routines && g.call == k ==> g.Returned()
  }

  /** A flight is decided on the list its own goroutines left, once they have all returned. */
  ghost predicate Ready(s: System, f: nat, rows: Rows) {
    && f < |s.serving.flights| && s.serving.flights[f].stage.Running? && f < |s.callOf|
    && s.callOf[f] < |s.work.results| && Done(s.work, s.callOf[f]) && rows == s.work.results[s.callOf[f]]
  }

  ghost predicate CanMove(cfg: Config, max: nat, s: System, m: Move) {
    match m
    case Serve(a) => Can(cfg, s.serving, a) && (a.Decide? ==> Ready(s, a.f, a.rows))
    case Work(i) => Checking.Enabled(s.work, i, max)
    case Inform(_) => true
  }

  /** The goroutines of one more call join those at work. */
  function Launch(work: Checking.State, k: nat, c: Checking.Call): Checking.State {
    Checking.State(work.routines + Checking.RoutinesOf(k, c), work.results + [[]], work.occupied)
  }

  ghost function Next(cfg: Config, max: nat, s: System, m: Move): System
    requires CanMove(cfg, max, s, m)
  {
    match m
    case Work(i) => s.(work := Checking.Step(s.work, i, max))
    case Inform(call) => s.(plan := s.plan + [call], work := Launch(s.work, |s.plan|, call))
    case Serve(a) =>
      var serving := Do(cfg, s.serving, a);
      if a.Enter? && |serving.flights| > |s.serving.flights| then
        System(serving, s.plan + [a.call], s.callOf + [|s.plan|], Launch(s.work, |s.plan|, a.call))
      else s.(serving := serving)
  }

  ghost predicate Possible(cfg: Config, max: nat, s: System, run: seq<Move>)
    decreases |run|
  {
    run == [] || (CanMove(cfg, max, s, run[0]) && Possible(cfg, max, Next(cfg, max, s, run[0]), run[1..]))
  }

  ghost function After(cfg: Config, max: nat, s: System, run: seq<Move>): System
    requires Possible(cfg, max, s, run)
    decreases |run|
  {
    if run == [] then s else After(cfg, max, Next(cfg, max, s, run[0]), run[1..])
  }

  // ---- Calls that arrive late are as if they had been planned and not yet stepped ----

  /** The goroutines stand where some schedule of the whole plan takes them. */
  ghost predicate Scheduled(plan: seq<Checking.Call>, work: Checking.State, max: nat) {
    exists schedule: seq<nat> :: Reaches(plan, work, max, schedule)
  }

  ghost predicate Reaches(plan: seq<Checking.Call>, work: Checking.State, max: nat, schedule: seq<nat>) {
    Checking.Feasible(Checking.Start(plan), schedule, max) && Checking.Run(Checking.Start(plan), schedule, max) == work
  }

  lemma ScheduledInv(plan: seq<Checking.Call>, work: Checking.State, max: nat)
    requires Scheduled(plan, work, max)
    ensures Checking.Inv(plan, work, max)
  {
    var schedule :| Reaches(plan, work, max, schedule);
    Checking.StartKeepsInv(plan, max);
    Checking.RunKeepsInv(plan, Checking.Start(plan), schedule, max);
  }

  lemma LaunchAtStart(plan: seq<Checking.Call>, c: Checking.Call)
    ensures Checking.Start(plan + [c]) == Launch(Checking.Start(plan), |plan|, c)
  {
    assert (plan + [c])[..|plan|] == plan;
  }

  lemma StepUnderLaunch(plan: seq<Checking.Call>, work: Checking.State, i: nat, max: nat, c: Checking.Call)
    requires Checking.Shaped(plan, work) && Checking.Enabled(work, i, max)
    ensures Checking.Enabled(Launch(work, |plan|, c), i, max)
    ensures Checking.Step(Launch(work, |plan|, c), i, max) == Launch(Checking.Step(work, i, max), |plan|, c)
  {
    hide Checking.Advance, Checking.RoutinesOf;
    assert work.routines[i] in work.routines;
  }

  lemma {:induction false} RunUnderLaunch(plan: seq<Checking.Call>, work: Checking.State, schedule: seq<nat>, max: nat,
                                          c: Checking.Call)
    requires Checking.Inv(plan, work, max) && Checking.Feasible(work, schedule, max)
    ensures Checking.Feasible(Launch(work, |plan|, c), schedule, max)
    ensures Checking.Run(Launch(work, |plan|, c), schedule, max) == Launch(Checking.Run(work, schedule, max), |plan|, c)
    decreases |schedule|
  {
    hide Launch, Checking.Step, Checking.Enabled;
    if schedule != [] {
      var i := schedule[0];
      StepUnderLaunch(plan, work, i, max, c);
      Checking.StepKeepsSlots(plan, work, i, max);
      Checking.StepKeepsRows(plan, work, i, max);
      RunUnderLaunch(plan, Checking.Step(work, i, max), schedule[1..], max, c);
    }
  }

  lemma LaunchKeepsScheduled(plan: seq<Checking.Call>, work: Checking.State, max: nat, c: Checking.Call)
    requires Scheduled(plan, work, max)
    ensures Scheduled(plan + [c], Launch(work, |plan|, c), max)
  {
    hide Launch;
    var schedule :| Reaches(plan, work, max, schedule);
    Checking.StartKeepsInv(plan, max);
    LaunchAtStart(plan, c);
    RunUnderLaunch(plan, Checking.Start(plan), schedule, max, c);
    assert Reaches(plan + [c], Launch(work, |plan|, c), max, schedule);
  }

  lemma {:induction false} RunThen(work: Checking.State, first: seq<nat>, second: seq<nat>, max: nat)
    requires Checking.Feasible(work, first, max) && Checking.Feasible(Checking.Run(work, first, max), second, max)
    ensures Checking.Feasible(work, first + second, max)
    ensures Checking.Run(work, first + second, max) == Checking.Run(Checking.Run(work, first, max), second, max)
    decreases |first|
  {
    hide Checking.Step, Checking.Enabled;
    if first == [] {
      assert first + second == second;
    } else {
      assert (first + second)[1..] == first[1..] + second;
      RunThen(Checking.Step(work, first[0], max), first[1..], second, max);
    }
  }

  lemma StepKeepsScheduled(plan: seq<Checking.Call>, work: Checking.State, max: nat, i: nat)
    requires Scheduled(plan, work, max) && Checking.Enabled(work, i, max)
    ensures Scheduled(plan, Checking.Step(work, i, max), max)
  {
    hide Checking.Step, Checking.Enabled, Checking.Start;
    var schedule :| Reaches(plan, work, max, schedule);
    assert [i][1..] == [];
    RunThen(Checking.Start(plan), schedule, [i], max);
    assert Reaches(plan, Checking.Step(work, i, max), max, schedule + [i]);
  }

  // ---- A check is over when its own goroutines are ----

  lemma {:induction false} DoneStaysDone(work: Checking.State, schedule: seq<nat>, max: nat, k: nat)
    requires Checking.Feasible(work, schedule, max) && k < |work.results| && Done(work, k)
    ensures
      var end := Checking.Run(work, schedule, max);
      |end.results| == |work.results| && end.results[k] == work.results[k]
    decreases |schedule|
  {
    if schedule != [] {
      var i := schedule[0];
      StepKeepsDone(work, i, max, k);
      DoneStaysDone(Checking.Step(work, i, max), schedule[1..], max, k);
    }
  }

  lemma StepKeepsDone(work: Checking.State, i: nat, max: nat, k: nat)
    requires Checking.Enabled(work, i, max) && k < |work.results| && Done(work, k)
    ensures
      var next := Checking.Step(work, i, max);
      |next.results| == |work.results| && next.results[k] == work.results[k] && Done(next, k)
  {
    var g, next := work.routines[i], Checking.Step(work, i, max);
    assert g in work.routines && g.call != k && Checking.Advance(g).call == g.call;
    forall h | h in next.routines && h.call == k ensures h.Returned() {
      assert h in work.routines;
    }
  }

  /** What the goroutines of a call have left when all of them have returned is a list a complete run leaves. */
  lemma DoneIsLeft(plan: seq<Checking.Call>, work: Checking.State, max: nat, k: nat)
    requires Scheduled(plan, work, max) && max > 0 && k < |plan| && k < |work.results| && Done(work, k)
    ensures Verdicts.LeftBy(plan[k], work.results[k])
  {
    hide Done, Checking.Start;
    var schedule :| Reaches(plan, work, max, schedule);
    ScheduledInv(plan, work, max);
    var rest := Checking.EveryRunFinishes(plan, work, max);
    RunThen(Checking.Start(plan), schedule, rest, max);
    DoneStaysDone(work, rest, max, k);
    assert Verdicts.CompleteRun(plan, schedule + rest, max, k, plan[k], work.results[k]);
  }

  // ---- What every move keeps ----

  /** Each flight's call is in the plan. */
  ghost predicate Planned(s: System) {
    && |s.callOf| == |s.serving.flights|
    && forall f :: 0 <= f < |s.callOf| ==>
         s.callOf[f] < |s.plan| && s.plan[s.callOf[f]] == s.serving.flights[f].call
  }

  ghost predicate Inv(cfg: Config, max: nat, s: System) {
    Reachable(cfg, s.serving) && Planned(s) && Scheduled(s.plan, s.work, max)
  }

  lemma InitialInv(cfg: Config, max: nat, now: int)
    ensures Inv(cfg, max, Initial(now))
  {
    var s0 := Serving.Initial(now);
    assert Serving.Possible(cfg, s0, []) && Serving.After(cfg, s0, []) == s0;
    assert Reaches([], Checking.Start([]), max, []);
  }

  lemma CallsStay(cfg: Config, s: Serving.State, a: Action)
    requires Can(cfg, s, a)
    ensures
      var flights := Do(cfg, s, a).flights;
      && (if a.Enter? && |flights| > |s.flights| then |flights| == |s.flights| + 1
          && flights[|s.flights|].call == a.call
          else |flights| == |s.flights|)
      && forall f :: 0 <= f < |s.flights| ==> flights[f].call == s.flights[f].call
  {
    hide Deliver, Verdict, Refusal, KeyOf, NameOf, Verdicts.LeftBy;
  }

  lemma MoveKeepsInv(cfg: Config, max: nat, s: System, m: Move)
    requires Inv(cfg, max, s) && CanMove(cfg, max, s, m)
    ensures Inv(cfg, max, Next(cfg, max, s, m))
  {
    hide Reachable, Scheduled, Can, Do, Launch, Checking.Enabled, Checking.Step;
    match m
    case Work(i) => StepKeepsScheduled(s.plan, s.work, max, i);
    case Inform(call) => LaunchKeepsScheduled(s.plan, s.work, max, call);
    case Serve(a) =>
      var serving := StepOn(cfg, s.serving, a);
      CallsStay(cfg, s.serving, a);
      if a.Enter? && |serving.flights| > |s.serving.flights| {
        LaunchKeepsScheduled(s.plan, s.work, max, a.call);
      }
  }

  lemma {:induction false} RunsKeepInv(cfg: Config, max: nat, s: System, run: seq<Move>)
    requires Inv(cfg, max, s) && Possible(cfg, max, s, run)
    ensures Inv(cfg, max, After(cfg, max, s, run))
    decreases |run|
  {
    hide Inv, CanMove, Next;
    if run != [] {
      MoveKeepsInv(cfg, max, s, run[0]);
      RunsKeepInv(cfg, max, Next(cfg, max, s, run[0]), run[1..]);
    }
  }

  // ---- The budget, over all checks together ----

  /** Over every run of all callers and all their checks: the occupied slots are the goroutines inside `run`
      past the acquire, of whatever check, and never more than the maximum. */
  lemma OneBudget(cfg: Config, max: nat, now: int, run: seq<Move>)
    requires Possible(cfg, max, Initial(now), run)
    ensures
      var s := After(cfg, max, Initial(now), run);
      s.work.occupied == Checking.Sum(Checking.HoldsSlot(), s.work.routines) && s.work.occupied <= max
  {
    InitialInv(cfg, max, now);
    RunsKeepInv(cfg, max, Initial(now), run);
    var s := After(cfg, max, Initial(now), run);
    ScheduledInv(s.plan, s.work, max);
  }

  /** The joint runs refine those of the `Check` protocol, so all that is proved of it holds here: a flight whose
      goroutines have returned may be decided on the list they left, no further condition. */
  lemma ReadyMayDecide(cfg: Config, max: nat, s: System, f: nat, rows: Rows)
    requires Inv(cfg, max, s) && max > 0 && Ready(s, f, rows)
    ensures Reachable(cfg, s.serving) && CanMove(cfg, max, s, Serve(Decide(f, rows)))
  {
    hide Scheduled, Reachable, Done, Verdicts.LeftBy;
    DoneIsLeft(s.plan, s.work, max, s.callOf[f]);
  }

  // ---- Every caller is answered within the budget ----

  lemma {:induction false} WorkOn(cfg: Config, max: nat, s: System, schedule: seq<nat>) returns (run: seq<Move>)
    requires Checking.Feasible(s.work, schedule, max)
    ensures Possible(cfg, max, s, run) && NoOtherCall(run, [])
    ensures After(cfg, max, s, run) == s.(work := Checking.Run(s.work, schedule, max))
    decreases |schedule|
  {
    hide Checking.Step, Checking.Enabled;
    if schedule == [] {
      run := [];
    } else {
      var m := Work(schedule[0]);
      var rest := WorkOn(cfg, max, Next(cfg, max, s, m), schedule[1..]);
      run := [m] + rest;
      assert run[1..] == rest;
    }
  }

  /** The only calls a run starts are of this list. */
  ghost predicate NoOtherCall(run: seq<Move>, calls: seq<Checking.Call>) {
    forall k :: 0 <= k < |run| ==>
      && !run[k].Inform?
      && (run[k].Serve? && run[k].action.Enter? ==> run[k].action.call in calls)
  }

  lemma {:induction false} RunsJoin(cfg: Config, max: nat, s: System, first: seq<Move>, second: seq<Move>)
    requires Possible(cfg, max, s, first) && Possible(cfg, max, After(cfg, max, s, first), second)
    ensures Possible(cfg, max, s, first + second)
    ensures After(cfg, max, s, first + second) == After(cfg, max, After(cfg, max, s, first), second)
    decreases |first|
  {
    hide CanMove, Next;
    if first == [] {
      assert first + second == second;
    } else {
      assert (first + second)[1..] == first[1..] + second;
      RunsJoin(cfg, max, Next(cfg, max, s, first[0]), first[1..], second);
    }
  }

  /** The check a caller waits for can be carried to its end, whatever else is at work, and then be decided. */
  lemma CheckEnds(cfg: Config, max: nat, s: System, i: nat) returns (run: seq<Move>)
    requires Inv(cfg, max, s) && max > 0 && i < |s.serving.callers| && WaitsForCheck(s.serving, i)
    ensures Possible(cfg, max, s, run) && NoOtherCall(run, [])
    ensures
      var end := After(cfg, max, s, run).serving;
      i < |end.callers| && StepsToAnswer(end, i) < StepsToAnswer(s.serving, i)
  {
    hide Reachable, Scheduled, Can, Do, StepsToAnswer, Checking.Inv;
    var f := s.serving.callers[i].progress.flight;
    ScheduledInv(s.plan, s.work, max);
    var schedule := Checking.EveryRunFinishes(s.plan, s.work, max);
    var work := WorkOn(cfg, max, s, schedule);
    var s1 := After(cfg, max, s, work);
    RunsKeepInv(cfg, max, s, work);
    ResultsPerCall(s1.plan, s1.work, max);
    var rows := s1.work.results[s1.callOf[f]];
    assert Ready(s1, f, rows);
    ReadyMayDecide(cfg, max, s1, f, rows);
    DecidingHelps(cfg, s1.serving, i, rows);
    var m := Serve(Decide(f, rows));
    assert [m][1..] == [];
    assert Possible(cfg, max, s1, [m]) && After(cfg, max, s1, [m]) == Next(cfg, max, s1, m);
    RunsJoin(cfg, max, s, work, [m]);
    run := work + [m];
  }

  lemma ResultsPerCall(plan: seq<Checking.Call>, work: Checking.State, max: nat)
    requires Scheduled(plan, work, max)
    ensures |work.results| == |plan|
  {
    hide Scheduled;
    ScheduledInv(plan, work, max);
  }

  lemma DecidingHelps(cfg: Config, s: Serving.State, i: nat, rows: Rows)
    requires i < |s.callers| && WaitsForCheck(s, i) && Can(cfg, s, Decide(s.callers[i].progress.flight, rows))
    ensures
      var end := Do(cfg, s, Decide(s.callers[i].progress.flight, rows));
      i < |end.callers| && StepsToAnswer(end, i) < StepsToAnswer(s, i)
  {
    hide Verdict, Verdicts.LeftBy;
  }

  lemma OneMove(cfg: Config, max: nat, s: System, i: nat, call: Checking.Call) returns (run: seq<Move>)
    requires Inv(cfg, max, s) && max > 0 && i < |s.serving.callers| && !s.serving.callers[i].progress.Answered?
    ensures Possible(cfg, max, s, run) && NoOtherCall(run, [call])
    ensures
      var end := After(cfg, max, s, run).serving;
      i < |end.callers| && StepsToAnswer(end, i) < StepsToAnswer(s.serving, i)
  {
    hide Reachable, Scheduled, Can, Do, StepsToAnswer, Planned;
    if WaitsForCheck(s.serving, i) {
      run := CheckEnds(cfg, max, s, i);
    } else {
      var a := NobodyIsStuck(cfg, s.serving, i, call);
      var m := Serve(a);
      run := [m];
      assert run[1..] == [];
      assert After(cfg, max, s, run) == Next(cfg, max, s, m);
    }
  }

  /** From every state all callers and their checks can reach together, some run of everyone's moves answers a
      given caller, starting no check but one for it: nobody waits forever for a slot of the shared budget. */
  lemma {:induction false} CallersAreAnswered(cfg: Config, max: nat, s: System, i: nat, call: Checking.Call)
    returns (run: seq<Move>)
    requires Inv(cfg, max, s) && max > 0 && i < |s.serving.callers|
    ensures Possible(cfg, max, s, run) && NoOtherCall(run, [call])
    ensures
      var end := After(cfg, max, s, run).serving;
      i < |end.callers| && end.callers[i].progress.Answered?
    decreases StepsToAnswer(s.serving, i)
  {
    hide Inv, StepsToAnswer, CanMove, Next;
    if s.serving.callers[i].progress.Answered? {
      run := [];
    } else {
      var first := OneMove(cfg, max, s, i, call);
      RunsKeepInv(cfg, max, s, first);
      var rest := CallersAreAnswered(cfg, max, After(cfg, max, s, first), i, call);
      RunsJoin(cfg, max, s, first, rest);
      run := first + rest;
    }
  }
}
