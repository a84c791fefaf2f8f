/** internal/engine/engine.go: `check` and `run` as goroutines competing for slots.

    A plan lists the `check` calls of a run; each starts one goroutine per corroborating
    provider and one that walks the primary chain. What each provider does when asked is fixed
    by the plan and arbitrary (cancellation is one of the things it can do), so a run is
    determined by its schedule: the goroutine index chosen at each step. */
module Checking {
  import opened Basics
  import opened Core
  import Resolver

  /** What happens when the engine turns to a provider. */
  datatype Outcome =
    | Unsupported                      // Supports said no: no slot is taken
    | NeverAdmitted(reason: string)    // cancelled while waiting for a slot
    | Failed(reason: string)           // Check returned an error
    | Answered(result: ProviderResult) // Check returned a result

  datatype Provider = Provider(name: string, outcome: Outcome)

  datatype Call = Call(corroborating: seq<Provider>, primary: seq<Provider>)

  datatype Role = Corroborating | Primary

  datatype Phase = Asking | Waiting | Holding | Appending(result: ProviderResult)

  /** `todo[0]` is the provider at hand; the goroutine has returned when nothing is left to do. */
  datatype Goroutine = Goroutine(call: nat, role: Role, todo: seq<Provider>, phase: Phase) {
    predicate Returned() {
      todo == [] && phase == Asking
    }

    predicate WellFormed() {
      && (phase != Asking ==> todo != [] && !todo[0].outcome.Unsupported?)
      && (phase == Holding ==> !todo[0].outcome.NeverAdmitted?)
    }
  }

  /** `occupied` counts the tokens in the `slots` channel. */
  datatype State = State(routines: seq<Goroutine>, results: seq<seq<ProviderResult>>, occupied: nat)

  predicate Conclusive(result: ProviderResult) {
    result.registration != RegistrationUnknown
  }

  /** The row the primary chain leaves behind for a provider that failed. */
  function FailureRow(name: string, reason: string): (r: ProviderResult)
    ensures r.provider == name && r.registration == RegistrationUnknown && r.status == StatusUnknown
    ensures r.evidence == [name + ":query_failed"] && r.error == reason
    ensures r.raw == None && r.info == None && r.source == ""
  {
    assert name + ":" + "query_failed" == name + ":query_failed";
    ProviderResult(name, RegistrationUnknown, StatusUnknown, [EvidenceTag(name, "query_failed")], "", reason, None,
                   None)
  }

  /** `run` fills in the provider's name when the result carries none. */
  function Named(p: Provider, result: ProviderResult): (r: ProviderResult)
    ensures r == result.(provider := r.provider)
    ensures r.provider == p.name || (result.provider != "" && r.provider == result.provider)
    ensures result.provider != "" ==> r == result
  {
    if result.provider == "" then result.(provider := p.name) else result
  }

  // ---- One step of one goroutine ----

  predicate Enabled(s: State, i: nat, max: nat) {
    && i < |s.routines|
    && s.routines[i].todo != []
    && (s.routines[i].phase == Waiting && !s.routines[i].todo[0].outcome.NeverAdmitted? ==> s.occupied < max)
  }

  /** The goroutine's state after the provider at hand failed. */
  function AfterFailure(g: Goroutine, reason: string): Goroutine
    requires g.todo != []
  {
    match g.role
    case Primary => g.(phase := Appending(FailureRow(g.todo[0].name, reason)))
    case Corroborating => g.(todo := g.todo[1..], phase := Asking)
  }

  function Advance(g: Goroutine): Goroutine
    requires g.todo != []
  {
    var p := g.todo[0];
    match g.phase
    case Asking =>
      if p.outcome.Unsupported? then g.(todo := g.todo[1..]) else g.(phase := Waiting)
    case Waiting =>
      if p.outcome.NeverAdmitted? then AfterFailure(g, p.outcome.reason) else g.(phase := Holding)
    case Holding =>
      (match p.outcome
       case Failed(reason) => AfterFailure(g, reason)
       case Answered(result) => g.(phase := Appending(Named(p, result)))
       case _ => g)
    case Appending(result) =>
      g.(todo := if Conclusive(result) then [] else g.todo[1..], phase := Asking)
  }

  /** A slot is taken on entering `Holding` and returned on leaving it; the list grows on leaving `Appending`. */
  function Step(s: State, i: nat, max: nat): State
    requires Enabled(s, i, max)
  {
    var g := s.routines[i];
    var g' := Advance(g);
    var occupied :=
      if g'.phase == Holding then s.occupied + 1
      else if g.phase == Holding && s.occupied > 0 then s.occupied - 1
      else s.occupied;
    var results :=
      if g.phase.Appending? && g.call < |s.results|
      then s.results[g.call := s.results[g.call] + [g.phase.result]]
      else s.results;
    State(s.routines[i := g'], results, occupied)
  }

  predicate Feasible(s: State, schedule: seq<nat>, max: nat)
    decreases |schedule|
  {
    schedule == [] || (Enabled(s, schedule[0], max) && Feasible(Step(s, schedule[0], max), schedule[1..], max))
  }

  function Run(s: State, schedule: seq<nat>, max: nat): State
    requires Feasible(s, schedule, max)
    decreases |schedule|
  {
    if schedule == [] then s else Run(Step(s, schedule[0], max), schedule[1..], max)
  }

  ghost predicate Finished(s: State) {
    forall g :: g in s.routines ==> g.Returned()
  }

  // ---- How a plan starts ----

  function Corroborators(call: nat, ps: seq<Provider>): seq<Goroutine> {
    seq(|ps|, i requires 0 <= i < |ps| => Goroutine(call, Corroborating, [ps[i]], Asking))
  }

  function RoutinesOf(call: nat, c: Call): seq<Goroutine> {
    Corroborators(call, c.corroborating) + [Goroutine(call, Primary, c.primary, Asking)]
  }

  function AllRoutines(plan: seq<Call>): seq<Goroutine> {
    if plan == [] then []
    else AllRoutines(plan[..|plan| - 1]) + RoutinesOf(|plan| - 1, plan[|plan| - 1])
  }

  function Start(plan: seq<Call>): State {
    State(AllRoutines(plan), seq(|plan|, _ => []), 0)
  }

  // ---- The sequential reading of one `check` ----

  /** The rows a goroutine appends, in order, from asking its next provider. */
  function Rows(role: Role, todo: seq<Provider>): seq<ProviderResult> {
    if todo == [] then []
    else
      match todo[0].outcome
      case Unsupported => Rows(role, todo[1..])
      case NeverAdmitted(reason) =>
        (if role == Primary then [FailureRow(todo[0].name, reason)] else []) + Rows(role, todo[1..])
      case Failed(reason) =>
        (if role == Primary then [FailureRow(todo[0].name, reason)] else []) + Rows(role, todo[1..])
      case Answered(result) =>
        [Named(todo[0], result)] + if Conclusive(result) then [] else Rows(role, todo[1..])
  }

  function CorroboratingRows(ps: seq<Provider>): seq<ProviderResult> {
    if ps == [] then []
    else CorroboratingRows(ps[..|ps| - 1]) + Rows(Corroborating, [ps[|ps| - 1]])
  }

  /** The list `check` would build one provider at a time. */
  function SequentialRows(c: Call): seq<ProviderResult> {
    CorroboratingRows(c.corroborating) + Rows(Primary, c.primary)
  }

  /** The rows a goroutine has still to append. */
  function Pending(g: Goroutine): seq<ProviderResult> {
    match g.phase
    case Appending(result) =>
      [result] + if Conclusive(result) || g.todo == [] then [] else Rows(g.role, g.todo[1..])
    case _ => Rows(g.role, g.todo)
  }

  // ---- Sums over goroutines ----

  function Sum(weight: Goroutine -> int, gs: seq<Goroutine>): int {
    if gs == [] then 0 else Sum(weight, gs[..|gs| - 1]) + weight(gs[|gs| - 1])
  }

  lemma {:induction false} SumUpdate(weight: Goroutine -> int, gs: seq<Goroutine>, i: nat, g: Goroutine)
    requires i < |gs|
    ensures Sum(weight, gs[i := g]) == Sum(weight, gs) - weight(gs[i]) + weight(g)
  {
    var n := |gs| - 1;
    if i == n {
      assert gs[i := g][..n] == gs[..n];
    } else {
      assert gs[i := g][..n] == gs[..n][i := g];
      SumUpdate(weight, gs[..n], i, g);
    }
  }

  lemma {:induction false} SumAppend(weight: Goroutine -> int, a: seq<Goroutine>, b: seq<Goroutine>)
    ensures Sum(weight, a + b) == Sum(weight, a) + Sum(weight, b)
  {
    if b == [] {
      assert a + b == a;
    } else {
      assert (a + b)[..|a + b| - 1] == a + b[..|b| - 1];
      SumAppend(weight, a, b[..|b| - 1]);
    }
  }

  lemma {:induction false} SumOfZeros(weight: Goroutine -> int, gs: seq<Goroutine>)
    requires forall g :: g in gs ==> weight(g) == 0
    ensures Sum(weight, gs) == 0
  {
    if gs != [] {
      SumOfZeros(weight, gs[..|gs| - 1]);
    }
  }

  lemma {:induction false} SumBounds(weight: Goroutine -> int, gs: seq<Goroutine>)
    requires forall g :: g in gs ==> weight(g) >= 0
    ensures Sum(weight, gs) >= 0
    ensures forall g :: g in gs ==> weight(g) <= Sum(weight, gs)
  {
    if gs != [] {
      SumBounds(weight, gs[..|gs| - 1]);
    }
  }

  /** 1 for a goroutine inside `run` past the acquire. */
  function HoldsSlot(): Goroutine -> int {
    (g: Goroutine) => if g.phase == Holding then 1 else 0
  }

  /** Steps a goroutine can still take. */
  function StepsLeft(): Goroutine -> int {
    (g: Goroutine) => 4 * |g.todo| - match g.phase
      case Asking => 0
      case Waiting => 1
      case Holding => 2
      case Appending(_) => 3
  }

  /** How often `row` is still to be appended to the list of `call`. */
  function StillOwed(call: nat, row: ProviderResult): Goroutine -> int {
    (g: Goroutine) => if g.call == call then multiset(Pending(g))[row] else 0
  }

  // ---- What every step keeps ----

  ghost predicate SlotsConserved(s: State, max: nat) {
    s.occupied == Sum(HoldsSlot(), s.routines) && s.occupied <= max
  }

  ghost predicate Shaped(plan: seq<Call>, s: State) {
    && |s.results| == |plan|
    && forall g :: g in s.routines ==> g.WellFormed() && g.call < |plan|
  }

  /** Rows in the list plus rows owed are the rows of the sequential reading. */
  ghost predicate RowsConserved(plan: seq<Call>, s: State)
    requires |s.results| == |plan|
  {
    forall c: nat, row :: c < |plan| ==>
      multiset(s.results[c])[row] + Sum(StillOwed(c, row), s.routines) == multiset(SequentialRows(plan[c]))[row]
  }

  ghost predicate Inv(plan: seq<Call>, s: State, max: nat) {
    Shaped(plan, s) && SlotsConserved(s, max) && RowsConserved(plan, s)
  }

  lemma AdvanceOwes(g: Goroutine)
    requires g.todo != [] && g.WellFormed()
    ensures Advance(g).WellFormed() && Advance(g).call == g.call
    ensures Pending(g) == (if g.phase.Appending? then [g.phase.result] else []) + Pending(Advance(g))
    ensures 0 <= StepsLeft()(Advance(g)) < StepsLeft()(g)
  {
    var p := g.todo[0];
    assert Rows(g.role, []) == [];
    assert g.todo == [p] + g.todo[1..];
  }

  lemma StepKeepsSlots(plan: seq<Call>, s: State, i: nat, max: nat)
    requires Shaped(plan, s) && SlotsConserved(s, max) && Enabled(s, i, max)
    ensures SlotsConserved(Step(s, i, max), max)
  {
    var g := s.routines[i];
    assert g in s.routines;
    SumUpdate(HoldsSlot(), s.routines, i, Advance(g));
    SumBounds(HoldsSlot(), s.routines);
    assert g.phase == Holding ==> HoldsSlot()(g) == 1;
  }

  lemma StepKeepsRows(plan: seq<Call>, s: State, i: nat, max: nat)
    requires Shaped(plan, s) && RowsConserved(plan, s) && Enabled(s, i, max)
    ensures Shaped(plan, Step(s, i, max)) && RowsConserved(plan, Step(s, i, max))
  {
    var g, s' := s.routines[i], Step(s, i, max);
    assert g in s.routines;
    AdvanceOwes(g);
    forall h | h in s'.routines ensures h.WellFormed() && h.call < |plan| {
      assert h == Advance(g) || h in s.routines;
    }
    forall c: nat, row | c < |plan|
      ensures multiset(s'.results[c])[row] + Sum(StillOwed(c, row), s'.routines) ==
              multiset(SequentialRows(plan[c]))[row]
    {
      SumUpdate(StillOwed(c, row), s.routines, i, Advance(g));
    }
  }

  lemma {:induction false} RunKeepsInv(plan: seq<Call>, s: State, schedule: seq<nat>, max: nat)
    requires Inv(plan, s, max) && Feasible(s, schedule, max)
    ensures Inv(plan, Run(s, schedule, max), max)
    ensures Sum(StepsLeft(), Run(s, schedule, max).routines) + |schedule| <= Sum(StepsLeft(), s.routines)
    decreases |schedule|
  {
    if schedule != [] {
      var i := schedule[0];
      StepKeepsSlots(plan, s, i, max);
      StepKeepsRows(plan, s, i, max);
      assert s.routines[i] in s.routines;
      AdvanceOwes(s.routines[i]);
      SumUpdate(StepsLeft(), s.routines, i, Advance(s.routines[i]));
      RunKeepsInv(plan, Step(s, i, max), schedule[1..], max);
    }
  }

  // ---- The initial state ----

  lemma {:induction false} StartIsShaped(plan: seq<Call>)
    ensures forall g :: g in AllRoutines(plan) ==>
              g.phase == Asking && g.call < |plan| && exists c :: c == g.call && g in RoutinesOf(c, plan[c])
  {
    if plan != [] {
      var n := |plan| - 1;
      StartIsShaped(plan[..n]);
      forall g | g in AllRoutines(plan)
        ensures g.phase == Asking && g.call < |plan| && exists c :: c == g.call && g in RoutinesOf(c, plan[c])
      {
        if g in RoutinesOf(n, plan[n]) {
          assert g.call == n;
        } else {
          assert g in AllRoutines(plan[..n]);
          var c :| c == g.call && g in RoutinesOf(c, plan[..n][c]);
          assert plan[..n][c] == plan[c];
        }
      }
    }
  }

  lemma {:induction false} CorroboratorsOwe(call: nat, ps: seq<Provider>, row: ProviderResult)
    ensures Sum(StillOwed(call, row), Corroborators(call, ps)) == multiset(CorroboratingRows(ps))[row]
  {
    var gs := Corroborators(call, ps);
    if ps != [] {
      var n := |ps| - 1;
      assert gs[..n] == Corroborators(call, ps[..n]);
      CorroboratorsOwe(call, ps[..n], row);
      assert gs[n] == Goroutine(call, Corroborating, [ps[n]], Asking);
    }
  }

  lemma {:induction false} StartOwes(plan: seq<Call>, c: nat, row: ProviderResult)
    ensures Sum(StillOwed(c, row), AllRoutines(plan)) ==
            if c < |plan| then multiset(SequentialRows(plan[c]))[row] else 0
  {
    if plan != [] {
      var n := |plan| - 1;
      var w := StillOwed(c, row);
      var front, corr, chain := AllRoutines(plan[..n]), Corroborators(n, plan[n].corroborating),
        Goroutine(n, Primary, plan[n].primary, Asking);
      StartOwes(plan[..n], c, row);
      SumAppend(w, front, corr + [chain]);
      SumAppend(w, corr, [chain]);
      assert Sum(w, [chain]) == w(chain) by {
        assert [chain][..0] == [];
      }
      if c == n {
        CorroboratorsOwe(n, plan[n].corroborating, row);
      } else {
        SumOfZeros(w, corr);
      }
    }
  }

  lemma StartKeepsInv(plan: seq<Call>, max: nat)
    ensures Inv(plan, Start(plan), max)
  {
    var s := Start(plan);
    StartIsShaped(plan);
    SumOfZeros(HoldsSlot(), s.routines);
    forall c: nat, row | c < |plan|
      ensures multiset(s.results[c])[row] + Sum(StillOwed(c, row), s.routines) == multiset(SequentialRows(plan[c]))[row]
    {
      StartOwes(plan, c, row);
    }
  }

  /** Provider calls a plan can make at most. */
  function Asks(plan: seq<Call>): nat {
    if plan == [] then 0
    else Asks(plan[..|plan| - 1]) + |plan[|plan| - 1].corroborating| + |plan[|plan| - 1].primary|
  }

  lemma {:induction false} CorroboratorsSteps(call: nat, ps: seq<Provider>)
    ensures Sum(StepsLeft(), Corroborators(call, ps)) == 4 * |ps|
  {
    var gs := Corroborators(call, ps);
    if ps != [] {
      var n := |ps| - 1;
      assert gs[..n] == Corroborators(call, ps[..n]);
      CorroboratorsSteps(call, ps[..n]);
    }
  }

  lemma {:induction false} StartSteps(plan: seq<Call>)
    ensures Sum(StepsLeft(), AllRoutines(plan)) == 4 * Asks(plan)
  {
    if plan != [] {
      var n := |plan| - 1;
      var corr, chain := Corroborators(n, plan[n].corroborating), Goroutine(n, Primary, plan[n].primary, Asking);
      StartSteps(plan[..n]);
      CorroboratorsSteps(n, plan[n].corroborating);
      SumAppend(StepsLeft(), AllRoutines(plan[..n]), corr + [chain]);
      SumAppend(StepsLeft(), corr, [chain]);
      assert [chain][..0] == [];
    }
  }

  // ---- Slots, progress, termination ----

  /** In every reachable state the tokens in the channel are the goroutines past the acquire,
      never more than the configured maximum, and the run is at most four steps per provider. */
  lemma SlotsAreConserved(plan: seq<Call>, schedule: seq<nat>, max: nat)
    requires Feasible(Start(plan), schedule, max)
    ensures
      var s := Run(Start(plan), schedule, max);
      s.occupied == Sum(HoldsSlot(), s.routines) && s.occupied <= max
    ensures |schedule| <= 4 * Asks(plan)
  {
    StartKeepsInv(plan, max);
    RunKeepsInv(plan, Start(plan), schedule, max);
    StartSteps(plan);
    var s := Run(Start(plan), schedule, max);
    forall g | g in s.routines ensures StepsLeft()(g) >= 0 {
      assert g.WellFormed();
    }
    SumBounds(StepsLeft(), s.routines);
  }

  /** A holder never waits for a second slot, so whatever has not finished can move. */
  lemma NeverStuck(plan: seq<Call>, s: State, max: nat) returns (i: nat)
    requires Inv(plan, s, max) && max > 0 && !Finished(s)
    ensures Enabled(s, i, max)
  {
    var g :| g in s.routines && !g.Returned();
    i :| i < |s.routines| && s.routines[i] == g;
    assert g.WellFormed();
    if !Enabled(s, i, max) {
      // Every slot is taken, hence taken by someone who can return it.
      if forall h :: h in s.routines ==> HoldsSlot()(h) == 0 {
        SumOfZeros(HoldsSlot(), s.routines);
      }
      var h :| h in s.routines && HoldsSlot()(h) != 0;
      i :| i < |s.routines| && s.routines[i] == h;
      assert h.WellFormed();
    }
  }

  /** Every run can be carried to the end, and there every slot has been returned. */
  lemma {:induction false} EveryRunFinishes(plan: seq<Call>, s: State, max: nat) returns (schedule: seq<nat>)
    requires Inv(plan, s, max) && max > 0
    ensures Feasible(s, schedule, max)
    ensures Finished(Run(s, schedule, max)) && Run(s, schedule, max).occupied == 0
    decreases Sum(StepsLeft(), s.routines)
  {
    if Finished(s) {
      schedule := [];
      SumOfZeros(HoldsSlot(), s.routines);
    } else {
      var i := NeverStuck(plan, s, max);
      StepKeepsSlots(plan, s, i, max);
      StepKeepsRows(plan, s, i, max);
      assert s.routines[i] in s.routines;
      AdvanceOwes(s.routines[i]);
      SumUpdate(StepsLeft(), s.routines, i, Advance(s.routines[i]));
      forall g | g in Step(s, i, max).routines ensures StepsLeft()(g) >= 0 {
        assert g.WellFormed();
      }
      SumBounds(StepsLeft(), Step(s, i, max).routines);
      var rest := EveryRunFinishes(plan, Step(s, i, max), max);
      schedule := [i] + rest;
      assert schedule[1..] == rest;
    }
  }

  /** When everything has returned, each list holds exactly the rows of its sequential reading. */
  lemma FinishedLists(plan: seq<Call>, schedule: seq<nat>, max: nat, c: nat)
    requires Feasible(Start(plan), schedule, max) && c < |plan|
    requires Finished(Run(Start(plan), schedule, max))
    ensures |Run(Start(plan), schedule, max).results| == |plan|
    ensures multiset(Run(Start(plan), schedule, max).results[c]) == multiset(SequentialRows(plan[c]))
    ensures Run(Start(plan), schedule, max).occupied == 0
  {
    var s := Run(Start(plan), schedule, max);
    StartKeepsInv(plan, max);
    RunKeepsInv(plan, Start(plan), schedule, max);
    SumOfZeros(HoldsSlot(), s.routines);
    forall row ensures multiset(s.results[c])[row] == multiset(SequentialRows(plan[c]))[row] {
      SumOfZeros(StillOwed(c, row), s.routines);
    }
  }
}
