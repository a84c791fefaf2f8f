/** What `check` and `Info` answer, whatever the schedule (internal/engine/engine.go:111-211). */
module Verdicts {
  import opened Basics
  import opened Core
  import opened Resolver
  import opened Checking

  /** `rows` is a list some complete run of some batch leaves for the call `c`. */
  ghost predicate LeftBy(c: Call, rows: seq<ProviderResult>) {
    exists plan: seq<Call>, schedule: seq<nat>, max: nat, i: nat :: CompleteRun(plan, schedule, max, i, c, rows)
  }

  ghost predicate CompleteRun(plan: seq<Call>, schedule: seq<nat>, max: nat, i: nat, c: Call,
                              rows: seq<ProviderResult>)
  {
    && i < |plan| && plan[i] == c
    && Feasible(Start(plan), schedule, max)
    && Finished(Run(Start(plan), schedule, max))
    && i < |Run(Start(plan), schedule, max).results|
    && Run(Start(plan), schedule, max).results[i] == rows
  }

  lemma LeftRows(c: Call, rows: seq<ProviderResult>)
    requires LeftBy(c, rows)
    ensures multiset(rows) == multiset(SequentialRows(c))
  {
    var plan: seq<Call>, schedule: seq<nat>, max: nat, i: nat :| CompleteRun(plan, schedule, max, i, c, rows);
    FinishedLists(plan, schedule, max, i);
  }

  // ---- Which providers speak in a list ----

  predicate WellNamed(p: Provider) {
    p.outcome.Answered? ==> p.outcome.result.provider == "" || p.outcome.result.provider == p.name
  }

  ghost predicate DifferentNames(ps: seq<Provider>) {
    forall i, j :: 0 <= i < j < |ps| ==> ps[i].name != ps[j].name
  }

  /** Every provider of the call has its own name and answers under it. */
  ghost predicate DistinctlyNamed(c: Call) {
    && DifferentNames(c.corroborating + c.primary)
    && forall p :: p in c.corroborating + c.primary ==> WellNamed(p)
  }

  /** Some provider of the list is called `name`. */
  ghost predicate HasName(ps: seq<Provider>, name: string) {
    exists i :: 0 <= i < |ps| && ps[i].name == name
  }

  ghost predicate SpokenBy(ps: seq<Provider>, rows: seq<ProviderResult>) {
    forall r :: r in rows ==> HasName(ps, r.provider)
  }

  lemma {:induction false} RowsSpokenBy(role: Role, todo: seq<Provider>)
    requires forall p :: p in todo ==> WellNamed(p)
    ensures SpokenBy(todo, Rows(role, todo))
  {
    if todo != [] {
      var rest := todo[1..];
      RowsSpokenBy(role, rest);
      assert WellNamed(todo[0]);
      forall r | r in Rows(role, todo) ensures HasName(todo, r.provider) {
        if r in Rows(role, rest) {
          var i :| 0 <= i < |rest| && rest[i].name == r.provider;
          assert todo[i + 1].name == r.provider;
        } else {
          assert todo[0].name == r.provider;
        }
      }
    }
  }

  lemma {:induction false} CorroboratingRowsSpokenBy(ps: seq<Provider>)
    requires forall p :: p in ps ==> WellNamed(p)
    ensures SpokenBy(ps, CorroboratingRows(ps))
  {
    if ps != [] {
      var n := |ps| - 1;
      CorroboratingRowsSpokenBy(ps[..n]);
      RowsSpokenBy(Corroborating, [ps[n]]);
      forall r | r in CorroboratingRows(ps) ensures HasName(ps, r.provider) {
        if r in CorroboratingRows(ps[..n]) {
          var i :| 0 <= i < n && ps[..n][i].name == r.provider;
          assert ps[i].name == r.provider;
        } else {
          assert HasName([ps[n]], r.provider);
          assert ps[n].name == r.provider;
        }
      }
    }
  }

  /** Lists spoken by differently named providers have no provider in common. */
  lemma AtMostOnceJoined(ps: seq<Provider>, qs: seq<Provider>, x: seq<ProviderResult>, y: seq<ProviderResult>,
                         name: string)
    requires DifferentNames(ps + qs)
    requires SpokenBy(ps, x) && SpokenBy(qs, y)
    requires AtMostOnce(x, name) && AtMostOnce(y, name)
    ensures AtMostOnce(x + y, name)
  {
    var rows := x + y;
    forall i, j | 0 <= i < j < |rows| ensures !(rows[i].provider == name && rows[j].provider == name) {
      if i < |x| <= j {
        assert rows[i] in x && rows[j] in y;
        var k :| 0 <= k < |ps| && ps[k].name == rows[i].provider;
        var l :| 0 <= l < |qs| && qs[l].name == rows[j].provider;
        assert (ps + qs)[k].name != (ps + qs)[|ps| + l].name;
      }
    }
  }

  lemma DifferentParts(ps: seq<Provider>, qs: seq<Provider>)
    requires DifferentNames(ps + qs)
    ensures DifferentNames(ps) && DifferentNames(qs)
  {
    forall i, j | 0 <= i < j < |ps| ensures ps[i].name != ps[j].name {
      assert (ps + qs)[i].name != (ps + qs)[j].name;
    }
    forall i, j | 0 <= i < j < |qs| ensures qs[i].name != qs[j].name {
      assert (ps + qs)[|ps| + i].name != (ps + qs)[|ps| + j].name;
    }
  }

  lemma NobodyLeftNoRows(role: Role)
    ensures Rows(role, []) == []
  {
  }

  /** The row of the provider at hand, if it leaves one. */
  function HeadRows(role: Role, p: Provider): seq<ProviderResult> {
    match p.outcome
    case Unsupported => []
    case NeverAdmitted(reason) => if role == Primary then [FailureRow(p.name, reason)] else []
    case Failed(reason) => if role == Primary then [FailureRow(p.name, reason)] else []
    case Answered(result) => [Named(p, result)]
  }

  lemma RowsSplit(role: Role, todo: seq<Provider>)
    requires todo != []
    ensures Rows(role, todo) ==
            HeadRows(role, todo[0]) +
            if todo[0].outcome.Answered? && Conclusive(todo[0].outcome.result) then [] else Rows(role, todo[1..])
  {
    hide Named, Conclusive, FailureRow;
  }

  /** A goroutine's rows are at most one from the provider at hand, then perhaps those of the rest. */
  lemma FirstProviderRows(role: Role, todo: seq<Provider>)
    requires todo != []
    ensures
      var head := Rows(role, [todo[0]]);
      |head| <= 1 && (Rows(role, todo) == head || Rows(role, todo) == head + Rows(role, todo[1..]))
  {
    hide Rows;
    var single := [todo[0]];
    NobodyLeftNoRows(role);
    RowsSplit(role, todo);
    RowsSplit(role, single);
    assert single[1..] == [];
  }

  lemma {:induction false} RowsAreDistinct(role: Role, todo: seq<Provider>, name: string)
    requires DifferentNames(todo) && forall p :: p in todo ==> WellNamed(p)
    ensures AtMostOnce(Rows(role, todo), name)
  {
    hide Rows, WellNamed;
    if todo == [] {
      NobodyLeftNoRows(role);
    } else {
      var rest := todo[1..];
      assert todo == [todo[0]] + rest;
      DifferentParts([todo[0]], rest);
      RowsAreDistinct(role, rest, name);
      RowsSpokenBy(role, rest);
      RowsSpokenBy(role, [todo[0]]);
      FirstProviderRows(role, todo);
      AtMostOnceJoined([todo[0]], rest, Rows(role, [todo[0]]), Rows(role, rest), name);
    }
  }

  lemma {:induction false} CorroboratingRowsAreDistinct(ps: seq<Provider>, name: string)
    requires DifferentNames(ps) && forall p :: p in ps ==> WellNamed(p)
    ensures AtMostOnce(CorroboratingRows(ps), name)
  {
    if ps != [] {
      var n := |ps| - 1;
      assert ps == ps[..n] + [ps[n]];
      DifferentParts(ps[..n], [ps[n]]);
      CorroboratingRowsAreDistinct(ps[..n], name);
      RowsAreDistinct(Corroborating, [ps[n]], name);
      CorroboratingRowsSpokenBy(ps[..n]);
      RowsSpokenBy(Corroborating, [ps[n]]);
      AtMostOnceJoined(ps[..n], [ps[n]], CorroboratingRows(ps[..n]), Rows(Corroborating, [ps[n]]), name);
    }
  }

  lemma SequentialRowsAreDistinct(c: Call, name: string)
    requires DistinctlyNamed(c)
    ensures AtMostOnce(SequentialRows(c), name)
  {
    var a, b := c.corroborating, c.primary;
    DifferentParts(a, b);
    CorroboratingRowsAreDistinct(a, name);
    RowsAreDistinct(Primary, b, name);
    CorroboratingRowsSpokenBy(a);
    RowsSpokenBy(Primary, b);
    AtMostOnceJoined(a, b, CorroboratingRows(a), Rows(Primary, b), name);
  }

  // ---- Schedule independence ----

  /** Every interleaving of the goroutines ends with the verdict, confidence, conflict flag and
      sorted evidence of asking the providers one after the other. */
  lemma VerdictIgnoresSchedule(c: Call, rows: seq<ProviderResult>)
    requires DistinctlyNamed(c) && LeftBy(c, rows)
    ensures Reconcile(rows) == Reconcile(SequentialRows(c))
  {
    LeftRows(c, rows);
    SequentialRowsAreDistinct(c, RDAP);
    SequentialRowsAreDistinct(c, WHOIS);
    SequentialRowsAreDistinct(c, DNS);
    OrderDoesNotMatter(rows, SequentialRows(c));
  }

  // ---- Provenance inside one check ----

  /** A provider of the call answered "not registered" under the name RDAP or WHOIS. */
  ghost predicate RegistryAnsweredFree(c: Call) {
    exists p :: && p in c.corroborating + c.primary && p.outcome.Answered?
                && p.outcome.result.registration == NotRegistered
                && (Named(p, p.outcome.result).provider == RDAP || Named(p, p.outcome.result).provider == WHOIS)
  }

  lemma {:induction false} RowsComeFromAnswers(role: Role, todo: seq<Provider>, row: ProviderResult)
    requires row in Rows(role, todo) && row.registration == NotRegistered
    ensures exists p :: p in todo && p.outcome.Answered? && Named(p, p.outcome.result) == row
  {
    var rest := Rows(role, todo[1..]);
    if row in rest {
      RowsComeFromAnswers(role, todo[1..], row);
      var p :| p in todo[1..] && p.outcome.Answered? && Named(p, p.outcome.result) == row;
      assert p in todo;
    } else {
      assert todo[0] in todo;
    }
  }

  lemma {:induction false} CorroboratingRowsComeFromAnswers(ps: seq<Provider>, row: ProviderResult)
    requires row in CorroboratingRows(ps) && row.registration == NotRegistered
    ensures exists p :: p in ps && p.outcome.Answered? && Named(p, p.outcome.result) == row
  {
    var n := |ps| - 1;
    if row in CorroboratingRows(ps[..n]) {
      CorroboratingRowsComeFromAnswers(ps[..n], row);
      var p :| p in ps[..n] && p.outcome.Answered? && Named(p, p.outcome.result) == row;
      assert p in ps;
    } else {
      RowsComeFromAnswers(Corroborating, [ps[n]], row);
      assert ps[n] in ps;
    }
  }

  /** "available" from a check means RDAP or WHOIS actually answered "not registered" in that check;
      names need not be distinct, and failures and cancellations are among the outcomes covered. */
  lemma AvailableHasAWitness(c: Call, rows: seq<ProviderResult>)
    requires LeftBy(c, rows) && Reconcile(rows).availability == Available
    ensures RegistryAnsweredFree(c)
  {
    AvailableNeedsARegistry(rows);
    var row :| row in rows && (row.provider == RDAP || row.provider == WHOIS) && row.registration == NotRegistered;
    LeftRows(c, rows);
    assert row in multiset(SequentialRows(c));
    if row in CorroboratingRows(c.corroborating) {
      CorroboratingRowsComeFromAnswers(c.corroborating, row);
      var p :| p in c.corroborating && p.outcome.Answered? && Named(p, p.outcome.result) == row;
      assert p in c.corroborating + c.primary;
    } else {
      RowsComeFromAnswers(Primary, c.primary, row);
      var p :| p in c.primary && p.outcome.Answered? && Named(p, p.outcome.result) == row;
      assert p in c.corroborating + c.primary;
    }
  }

  // ---- The shape of the fallback chain ----

  function Supported(ps: seq<Provider>): seq<Provider> {
    if ps == [] then []
    else (if ps[0].outcome.Unsupported? then [] else [ps[0]]) + Supported(ps[1..])
  }

  function RowOf(p: Provider): ProviderResult
    requires !p.outcome.Unsupported?
  {
    match p.outcome
    case Answered(result) => Named(p, result)
    case NeverAdmitted(reason) => FailureRow(p.name, reason)
    case Failed(reason) => FailureRow(p.name, reason)
  }

  lemma {:induction false} SupportedIsFiltered(ps: seq<Provider>)
    ensures forall p :: p in Supported(ps) <==> p in ps && !p.outcome.Unsupported?
  {
    if ps != [] {
      SupportedIsFiltered(ps[1..]);
      assert ps == [ps[0]] + ps[1..];
    }
  }

  /** `rows` is one row per provider of `tried`, in order, up to and including the first conclusive one. */
  ghost predicate ChainOf(rows: seq<ProviderResult>, tried: seq<Provider>) {
    && |rows| <= |tried|
    && (forall i :: 0 <= i < |rows| ==> !tried[i].outcome.Unsupported? && rows[i] == RowOf(tried[i]))
    && (forall i :: 0 <= i < |rows| - 1 ==> !Conclusive(rows[i]))
    && (|rows| < |tried| ==> rows != [] && Conclusive(rows[|rows| - 1]))
  }

  lemma ChainOfCons(row: ProviderResult, p: Provider, rows: seq<ProviderResult>, tried: seq<Provider>)
    requires !p.outcome.Unsupported? && row == RowOf(p) && !Conclusive(row) && ChainOf(rows, tried)
    ensures ChainOf([row] + rows, [p] + tried)
  {
    var rows', tried' := [row] + rows, [p] + tried;
    forall i | 0 <= i < |rows'|
      ensures !tried'[i].outcome.Unsupported? && rows'[i] == RowOf(tried'[i])
              && (i < |rows'| - 1 ==> !Conclusive(rows'[i]))
    {
      if i > 0 {
        assert rows'[i] == rows[i - 1] && tried'[i] == tried[i - 1];
      }
    }
  }

  lemma ChainOfNone()
    ensures ChainOf([], [])
  {
  }

  lemma ChainOfOne(p: Provider, rest: seq<Provider>)
    requires !p.outcome.Unsupported? && Conclusive(RowOf(p))
    ensures ChainOf([RowOf(p)] + [], [p] + rest)
  {
  }

  /** The chain goes on exactly after a row that settles nothing. */
  lemma ChainGoesOn(ps: seq<Provider>)
    requires ps != [] && !ps[0].outcome.Unsupported?
    ensures Rows(Primary, ps) == [RowOf(ps[0])] + if Conclusive(RowOf(ps[0])) then [] else Rows(Primary, ps[1..])
  {
  }

  /** The primary chain leaves one row per supported provider, in order, up to and including the
      first conclusive one. */
  lemma {:induction false} ChainShape(ps: seq<Provider>)
    ensures ChainOf(Rows(Primary, ps), Supported(ps))
  {
    hide Conclusive, RowOf, Rows, ChainOf;
    if ps == [] {
      NobodyLeftNoRows(Primary);
      ChainOfNone();
    } else {
      ChainShape(ps[1..]);
      if ps[0].outcome.Unsupported? {
        SkippedRows(ps);
        assert Supported(ps) == Supported(ps[1..]);
      } else {
        ChainGoesOn(ps);
        if Conclusive(RowOf(ps[0])) {
          ChainOfOne(ps[0], Supported(ps[1..]));
        } else {
          ChainOfCons(RowOf(ps[0]), ps[0], Rows(Primary, ps[1..]), Supported(ps[1..]));
        }
      }
    }
  }

  lemma SkippedRows(ps: seq<Provider>)
    requires ps != [] && ps[0].outcome.Unsupported?
    ensures Rows(Primary, ps) == Rows(Primary, ps[1..])
  {
  }

  // ---- The chain in the list of a run ----

  /** The rows that carry the name of one of the providers, in the order of the list. */
  ghost function Of(ps: seq<Provider>, rows: seq<ProviderResult>): seq<ProviderResult> {
    if rows == [] then []
    else
      Of(ps, rows[..|rows| - 1]) + if HasName(ps, rows[|rows| - 1].provider) then [rows[|rows| - 1]] else []
  }

  lemma {:induction false} OfAppend(ps: seq<Provider>, rows: seq<ProviderResult>, more: seq<ProviderResult>)
    ensures Of(ps, rows + more) == Of(ps, rows) + Of(ps, more)
  {
    hide HasName;
    if more == [] {
      assert rows + more == rows;
    } else {
      assert (rows + more)[..|rows + more| - 1] == rows + more[..|more| - 1];
      OfAppend(ps, rows, more[..|more| - 1]);
    }
  }

  lemma {:induction false} OfOwn(ps: seq<Provider>, rows: seq<ProviderResult>)
    requires SpokenBy(ps, rows)
    ensures Of(ps, rows) == rows
  {
    hide HasName;
    if rows != [] {
      OfOwn(ps, rows[..|rows| - 1]);
      assert rows == rows[..|rows| - 1] + [rows[|rows| - 1]];
    }
  }

  ghost predicate NoneNamed(ps: seq<Provider>, rows: seq<ProviderResult>) {
    forall r :: r in rows ==> !HasName(ps, r.provider)
  }

  lemma {:induction false} OfOthers(ps: seq<Provider>, rows: seq<ProviderResult>)
    requires NoneNamed(ps, rows)
    ensures Of(ps, rows) == []
  {
    hide HasName;
    if rows != [] {
      OfOthers(ps, rows[..|rows| - 1]);
    }
  }

  /** Goroutine i walks the chain of call k: its rows in the list and those it owes are the chain's, in order.
      The call's other goroutines owe no row under a name of the chain. */
  ghost predicate ChainAt(c: Call, s: Checking.State, k: nat, i: nat) {
    && i < |s.routines| && k < |s.results| && s.routines[i].call == k
    && Of(c.primary, s.results[k]) + Pending(s.routines[i]) == Rows(Primary, c.primary)
    && forall j :: 0 <= j < |s.routines| && j != i && s.routines[j].call == k ==>
         NoneNamed(c.primary, Pending(s.routines[j]))
  }

  /** What a step appends to a list: the row the goroutine had ready. */
  function Appended(g: Goroutine): seq<ProviderResult> {
    if g.phase.Appending? then [g.phase.result] else []
  }

  lemma StepAppends(s: Checking.State, j: nat, max: nat, k: nat)
    requires Enabled(s, j, max) && k < |s.results|
    ensures
      var s' := Step(s, j, max);
      && |s'.results| == |s.results| && s'.routines == s.routines[j := Advance(s.routines[j])]
      && s'.results[k] == s.results[k] + if s.routines[j].call == k then Appended(s.routines[j]) else []
  {
  }

  lemma OwesAppended(g: Goroutine)
    requires g.todo != [] && g.WellFormed()
    ensures Pending(g) == Appended(g) + Pending(Advance(g)) && Advance(g).call == g.call
  {
    AdvanceOwes(g);
  }

  lemma StepKeepsChain(plan: seq<Call>, s: Checking.State, j: nat, max: nat, c: Call, k: nat, i: nat)
    requires Shaped(plan, s) && Enabled(s, j, max)
    requires ChainAt(c, s, k, i) && SpokenBy(c.primary, Rows(Primary, c.primary))
    ensures ChainAt(c, Step(s, j, max), k, i)
  {
    hide HasName, Rows, Advance, Step, Of, Pending, Appended;
    var g, s' := s.routines[j], Step(s, j, max);
    assert g in s.routines;
    OwesAppended(g);
    StepAppends(s, j, max, k);
    if g.call == k {
      OfAppend(c.primary, s.results[k], Appended(g));
      if j == i {
        assert forall r :: r in Appended(g) ==> r in Rows(Primary, c.primary);
        OfOwn(c.primary, Appended(g));
        assert Of(c.primary, s'.results[k]) + Pending(s'.routines[i]) == Of(c.primary, s.results[k]) + Pending(g);
      } else {
        assert NoneNamed(c.primary, Appended(g)) && NoneNamed(c.primary, Pending(Advance(g)));
        OfOthers(c.primary, Appended(g));
        assert Of(c.primary, s'.results[k]) == Of(c.primary, s.results[k]);
      }
    } else {
      assert s'.results[k] == s.results[k];
    }
    forall h | 0 <= h < |s'.routines| && h != i && s'.routines[h].call == k
      ensures NoneNamed(c.primary, Pending(s'.routines[h]))
    {
      if h != j {
        assert s'.routines[h] == s.routines[h];
      }
    }
  }

  lemma {:induction false} RunKeepsChain(plan: seq<Call>, s: Checking.State, schedule: seq<nat>, max: nat, c: Call,
                                         k: nat, i: nat)
    requires Checking.Inv(plan, s, max) && Feasible(s, schedule, max)
    requires ChainAt(c, s, k, i) && SpokenBy(c.primary, Rows(Primary, c.primary))
    ensures ChainAt(c, Run(s, schedule, max), k, i)
    decreases |schedule|
  {
    hide ChainAt, Rows, Step;
    if schedule != [] {
      StepKeepsSlots(plan, s, schedule[0], max);
      StepKeepsRows(plan, s, schedule[0], max);
      StepKeepsChain(plan, s, schedule[0], max, c, k, i);
      RunKeepsChain(plan, Step(s, schedule[0], max), schedule[1..], max, c, k, i);
    }
  }

  /** Every call of a plan has one goroutine for its chain; its others ask one corroborating provider each. */
  ghost predicate Starts(c: Call, k: nat, g: Goroutine, chain: bool) {
    if chain then g == Goroutine(k, Primary, c.primary, Asking)
    else exists p :: p in c.corroborating && g == Goroutine(k, Corroborating, [p], Asking)
  }

  lemma CallStarts(c: Call, k: nat, j: nat)
    requires j < |RoutinesOf(k, c)|
    ensures RoutinesOf(k, c)[j].call == k && Starts(c, k, RoutinesOf(k, c)[j], j == |c.corroborating|)
  {
    if j < |c.corroborating| {
      assert c.corroborating[j] in c.corroborating;
    }
  }

  lemma {:induction false} PlanStarts(plan: seq<Call>, k: nat) returns (i: nat)
    requires k < |plan|
    ensures i < |AllRoutines(plan)|
    ensures forall j :: 0 <= j < |AllRoutines(plan)| && (j == i || AllRoutines(plan)[j].call == k) ==>
              Starts(plan[k], k, AllRoutines(plan)[j], j == i)
  {
    hide Starts, RoutinesOf;
    var n := |plan| - 1;
    var front, own := AllRoutines(plan[..n]), RoutinesOf(n, plan[n]);
    assert AllRoutines(plan) == front + own;
    forall j | 0 <= j < |own| ensures own[j].call == n && Starts(plan[n], n, own[j], j == |plan[n].corroborating|) {
      CallStarts(plan[n], n, j);
    }
    if k == n {
      CallsBelow(plan[..n]);
      OwnChain(n, plan[n]);
      i := |front| + |plan[n].corroborating|;
    } else {
      i := PlanStarts(plan[..n], k);
    }
  }

  lemma OwnChain(k: nat, c: Call)
    ensures |RoutinesOf(k, c)| == |c.corroborating| + 1
  {
  }

  lemma CallsBelow(plan: seq<Call>)
    ensures forall g :: g in AllRoutines(plan) ==> g.call < |plan|
  {
    StartIsShaped(plan);
  }

  lemma StartKeepsChain(plan: seq<Call>, k: nat) returns (i: nat)
    requires k < |plan| && DistinctlyNamed(plan[k])
    ensures ChainAt(plan[k], Start(plan), k, i)
  {
    hide HasName, Rows;
    var c := plan[k];
    i := PlanStarts(plan, k);
    var routines := Start(plan).routines;
    forall j | 0 <= j < |routines| && j != i && routines[j].call == k
      ensures NoneNamed(c.primary, Pending(routines[j]))
    {
      assert Starts(c, k, routines[j], false);
      var p :| p in c.corroborating && routines[j] == Goroutine(k, Corroborating, [p], Asking);
      CorroboratorsAreNotInTheChain(c, p);
    }
    assert Starts(c, k, routines[i], true);
  }

  lemma CorroboratorsAreNotInTheChain(c: Call, p: Provider)
    requires DistinctlyNamed(c) && p in c.corroborating
    ensures NoneNamed(c.primary, Rows(Corroborating, [p]))
  {
    var all, a := c.corroborating + c.primary, |c.corroborating|;
    assert p in all;
    RowsSpokenBy(Corroborating, [p]);
    var i :| 0 <= i < a && c.corroborating[i] == p;
    forall j | 0 <= j < |c.primary| ensures c.primary[j].name != p.name {
      assert all[i].name != all[a + j].name;
    }
    forall r | r in Rows(Corroborating, [p]) ensures r.provider == p.name {
      assert HasName([p], r.provider);
    }
  }

  /** In the list of every run, whatever else stands between them, the rows of the primary chain are one per
      supported provider, in order, up to and including the first conclusive one. */
  lemma ChainInOrder(c: Call, rows: seq<ProviderResult>)
    requires DistinctlyNamed(c) && LeftBy(c, rows)
    ensures Of(c.primary, rows) == Rows(Primary, c.primary)
    ensures ChainOf(Of(c.primary, rows), Supported(c.primary))
  {
    hide Rows, ChainOf, Of;
    ChainShape(c.primary);
    assert forall p :: p in c.primary ==> p in c.corroborating + c.primary;
    RowsSpokenBy(Primary, c.primary);
    var plan: seq<Call>, schedule: seq<nat>, max: nat, k: nat :| CompleteRun(plan, schedule, max, k, c, rows);
    var i := StartKeepsChain(plan, k);
    StartKeepsInv(plan, max);
    RunKeepsChain(plan, Start(plan), schedule, max, c, k, i);
    var s := Run(Start(plan), schedule, max);
    assert s.routines[i] in s.routines;
    ReturnedOwesNothing(s.routines[i]);
  }

  lemma ReturnedOwesNothing(g: Goroutine)
    requires g.Returned()
    ensures Pending(g) == []
  {
  }

  // ---- Info ----

  function FirstInfo(rows: seq<ProviderResult>): Option<string> {
    if rows == [] then None
    else if rows[0].info.Some? then rows[0].info
    else FirstInfo(rows[1..])
  }

  ghost predicate AtMostOneInfo(rows: seq<ProviderResult>) {
    forall i, j :: 0 <= i < j < |rows| ==> !(rows[i].info.Some? && rows[j].info.Some?)
  }

  /** Only a conclusive answer of the primary chain carries registration details. */
  ghost predicate InfoFromAuthority(c: Call) {
    && (forall p :: p in c.corroborating && p.outcome.Answered? ==> p.outcome.result.info.None?)
    && (forall p :: p in c.primary && p.outcome.Answered? && !Conclusive(p.outcome.result) ==>
        p.outcome.result.info.None?)
  }

  lemma {:induction false} FirstInfoIsARow(rows: seq<ProviderResult>)
    ensures FirstInfo(rows).Some? ==> exists r :: r in rows && r.info.Some? && r.info == FirstInfo(rows)
    ensures FirstInfo(rows).None? ==> forall r :: r in rows ==> r.info.None?
  {
    if rows != [] {
      FirstInfoIsARow(rows[1..]);
      assert rows == [rows[0]] + rows[1..];
      if FirstInfo(rows).Some? {
        if rows[0].info.Some? {
          assert rows[0] in rows;
        } else {
          var r :| r in rows[1..] && r.info.Some? && r.info == FirstInfo(rows[1..]);
          assert r in rows;
        }
      }
    }
  }

  lemma {:induction false} CorroboratorsCarryNoInfo(ps: seq<Provider>)
    requires forall p :: p in ps && p.outcome.Answered? ==> p.outcome.result.info.None?
    ensures forall r :: r in CorroboratingRows(ps) ==> r.info.None?
  {
    if ps != [] {
      CorroboratorsCarryNoInfo(ps[..|ps| - 1]);
      assert ps[|ps| - 1] in ps;
      assert Rows(Corroborating, [ps[|ps| - 1]][1..]) == [];
    }
  }

  lemma SilentRow(p: Provider)
    requires !p.outcome.Unsupported? && !Conclusive(RowOf(p))
    requires p.outcome.Answered? && !Conclusive(p.outcome.result) ==> p.outcome.result.info.None?
    ensures RowOf(p).info.None?
  {
  }

  lemma SequentialInfo(c: Call)
    requires InfoFromAuthority(c)
    ensures AtMostOneInfo(SequentialRows(c))
  {
    hide Conclusive, RowOf, Rows, CorroboratingRows, Supported;
    CorroboratorsCarryNoInfo(c.corroborating);
    ChainShape(c.primary);
    SupportedIsFiltered(c.primary);
    var x, y, tried := CorroboratingRows(c.corroborating), Rows(Primary, c.primary), Supported(c.primary);
    forall i | 0 <= i < |y| - 1 ensures y[i].info.None? {
      assert !Conclusive(y[i]) && y[i] == RowOf(tried[i]) && tried[i] in tried;
      SilentRow(tried[i]);
    }
    var rows := x + y;
    forall i, j | 0 <= i < j < |rows| ensures !(rows[i].info.Some? && rows[j].info.Some?) {
      if i < |x| {
        assert rows[i] in x;
      } else {
        assert rows[i] == y[i - |x|];
      }
    }
  }

  lemma {:induction false} InfoRowsAreUnique(rows: seq<ProviderResult>, r: ProviderResult)
    requires AtMostOneInfo(rows) && r.info.Some?
    ensures multiset(rows)[r] <= 1
  {
    if rows != [] {
      var n := |rows| - 1;
      assert rows == rows[..n] + [rows[n]];
      InfoRowsAreUnique(rows[..n], r);
      if rows[n] == r {
        assert r !in rows[..n];
      }
    }
  }

  lemma InfoRowsCoincide(rows: seq<ProviderResult>, x: ProviderResult, y: ProviderResult)
    requires AtMostOneInfo(rows) && x in rows && y in rows && x.info.Some? && y.info.Some?
    ensures x == y
  {
    var i :| 0 <= i < |rows| && rows[i] == x;
    var j :| 0 <= j < |rows| && rows[j] == y;
    assert i == j;
  }

  lemma TwiceCounts(rows: seq<ProviderResult>, i: nat, j: nat)
    requires i < j < |rows|
    ensures rows[i] == rows[j] ==> multiset(rows)[rows[i]] >= 2
  {
    assert rows == rows[..i] + [rows[i]] + rows[i + 1..j] + [rows[j]] + rows[j + 1..];
  }

  lemma InfoPermuted(a: seq<ProviderResult>, b: seq<ProviderResult>)
    requires multiset(a) == multiset(b) && AtMostOneInfo(b)
    ensures AtMostOneInfo(a)
  {
    forall i, j | 0 <= i < j < |a| ensures !(a[i].info.Some? && a[j].info.Some?) {
      if a[i].info.Some? && a[j].info.Some? {
        assert a[i] in multiset(b) && a[j] in multiset(b);
        InfoRowsCoincide(b, a[i], a[j]);
        InfoRowsAreUnique(b, a[i]);
        TwiceCounts(a, i, j);
      }
    }
  }

  /** At most one source of a check carries registration details, whatever the schedule. */
  lemma SingleInfo(c: Call, rows: seq<ProviderResult>)
    requires InfoFromAuthority(c) && LeftBy(c, rows)
    ensures AtMostOneInfo(rows)
  {
    LeftRows(c, rows);
    SequentialInfo(c);
    InfoPermuted(rows, SequentialRows(c));
  }

  datatype InfoAnswer =
    | Details(info: string)
    | NoRegistration
    | NoData(status: Status)

  /** `Info`: the first details found in the list, else a bare "not registered", else an error. */
  function InfoFrom(rows: seq<ProviderResult>): InfoAnswer {
    match FirstInfo(rows)
    case Some(info) => Details(info)
    case None =>
      if Reconcile(rows).availability == Available then NoRegistration else NoData(Reconcile(rows).status)
  }

  /** Row i carries these details and no row before it any. */
  ghost predicate FirstAt(rows: seq<ProviderResult>, i: int, info: string) {
    0 <= i < |rows| && rows[i].info == Some(info) && forall j :: 0 <= j < i ==> rows[j].info == None
  }

  /** The first row that carries details carries these. */
  ghost predicate FirstDetails(rows: seq<ProviderResult>, info: string) {
    exists i :: FirstAt(rows, i, info)
  }

  lemma FirstAtNext(row: ProviderResult, rest: seq<ProviderResult>, i: nat, info: string)
    ensures FirstAt([row] + rest, i + 1, info) <==> row.info == None && FirstAt(rest, i, info)
  {
    var rows := [row] + rest;
    assert forall j :: 0 <= j < |rest| ==> rows[j + 1] == rest[j];
    if FirstAt(rows, i + 1, info) {
      assert rows[0].info == None;
    }
    if row.info == None && FirstAt(rest, i, info) {
      forall j | 0 <= j < i + 1 ensures rows[j].info == None {
        assert j > 0 ==> rows[j] == rest[j - 1];
      }
    }
  }

  lemma FirstDetailsCons(row: ProviderResult, rest: seq<ProviderResult>, info: string)
    ensures FirstDetails([row] + rest, info) <==>
            row.info == Some(info) || (row.info == None && FirstDetails(rest, info))
  {
    var rows := [row] + rest;
    assert FirstAt(rows, 0, info) <==> row.info == Some(info);
    hide FirstAt;
    forall i | FirstAt(rest, i, info) && row.info == None ensures FirstAt(rows, i + 1, info) {
      StartsAtZero(rest, i, info);
      FirstAtNext(row, rest, i, info);
    }
    forall i | FirstAt(rows, i, info) && i != 0 ensures row.info == None && FirstAt(rest, i - 1, info) {
      StartsAtZero(rows, i, info);
      FirstAtNext(row, rest, i - 1, info);
    }
  }

  lemma StartsAtZero(rows: seq<ProviderResult>, i: int, info: string)
    requires FirstAt(rows, i, info)
    ensures 0 <= i < |rows|
  {
  }

  lemma {:induction false} FirstInfoIsFirst(rows: seq<ProviderResult>, info: string)
    ensures FirstInfo(rows) == Some(info) <==> FirstDetails(rows, info)
    ensures FirstInfo(rows) == None <==> forall r :: r in rows ==> r.info == None
  {
    hide FirstDetails;
    if rows == [] {
      NoDetails(info);
    } else {
      FirstInfoIsFirst(rows[1..], info);
      FirstDetailsCons(rows[0], rows[1..], info);
      assert rows == [rows[0]] + rows[1..];
    }
  }

  lemma NoDetails(info: string)
    ensures !FirstDetails([], info)
  {
  }

  /** `Info` answers with the first details in the list; without any, with a bare "not registered" exactly for
      an "available" verdict, and otherwise with an error that names the status. */
  lemma InfoExactly(rows: seq<ProviderResult>)
    ensures forall info :: InfoFrom(rows) == Details(info) <==> FirstDetails(rows, info)
    ensures InfoFrom(rows) == NoRegistration <==>
            (forall r :: r in rows ==> r.info == None) && Reconcile(rows).availability == Available
    ensures forall status :: InfoFrom(rows) == NoData(status) <==>
              && (forall r :: r in rows ==> r.info == None)
              && Reconcile(rows).availability != Available && Reconcile(rows).status == status
  {
    hide Reconcile, FirstInfo, FirstDetails;
    FirstInfoIsFirst(rows, "");
    forall info ensures InfoFrom(rows) == Details(info) <==> FirstDetails(rows, info) {
      FirstInfoIsFirst(rows, info);
    }
  }

  /** For the list of every run: details come out exactly when some source has them, and then they are its. */
  lemma InfoOfRun(c: Call, rows: seq<ProviderResult>, info: string)
    requires InfoFromAuthority(c) && LeftBy(c, rows)
    ensures InfoFrom(rows) == Details(info) <==> exists r :: r in rows && r.info == Some(info)
  {
    hide Reconcile, FirstInfo, InfoFrom;
    InfoExactly(rows);
    SingleInfo(c, rows);
    forall r | r in rows && r.info == Some(info) ensures FirstDetails(rows, info) {
      var i :| 0 <= i < |rows| && rows[i] == r;
      assert FirstAt(rows, i, info);
    }
  }

  /** A bare "not registered" from `Info` has a registry's word behind it. */
  lemma NoRegistrationHasAWitness(c: Call, rows: seq<ProviderResult>)
    requires LeftBy(c, rows) && InfoFrom(rows) == NoRegistration
    ensures RegistryAnsweredFree(c) && forall r :: r in rows ==> r.info.None?
  {
    AvailableHasAWitness(c, rows);
    FirstInfoIsARow(rows);
  }

  /** A metadata answer does not depend on the schedule either. */
  lemma InfoIgnoresSchedule(c: Call, rows: seq<ProviderResult>)
    requires DistinctlyNamed(c) && InfoFromAuthority(c) && LeftBy(c, rows)
    ensures InfoFrom(rows) == InfoFrom(SequentialRows(c))
  {
    var base := SequentialRows(c);
    VerdictIgnoresSchedule(c, rows);
    LeftRows(c, rows);
    SequentialInfo(c);
    FirstInfoIsARow(rows);
    FirstInfoIsARow(base);
    forall r ensures r in rows <==> r in base {
      assert r in multiset(rows) <==> r in multiset(base);
    }
    if FirstInfo(rows).Some? {
      var r :| r in rows && r.info.Some? && r.info == FirstInfo(rows);
      var r' :| r' in base && r'.info.Some? && r'.info == FirstInfo(base);
      var i :| 0 <= i < |base| && base[i] == r;
      var j :| 0 <= j < |base| && base[j] == r';
      assert i == j;
    }
  }

  /** The chain asks `first` before `second`. */
  ghost predicate AsksBefore(ps: seq<Provider>, first: string, second: string) {
    exists i, j :: 0 <= i < j < |ps| && ps[i].name == first && ps[j].name == second
  }

  /** Wherever RDAP stands before WHOIS in the chain, a conclusive RDAP row leaves WHOIS unasked: `resolve`'s
      "RDAP free, WHOIS registered" branch is never taken. */
  lemma RdapSilencesWhois(c: Call, rows: seq<ProviderResult>)
    requires DistinctlyNamed(c) && LeftBy(c, rows) && AsksBefore(c.primary, RDAP, WHOIS)
    ensures LastOf(rows, RDAP).Some? && Conclusive(LastOf(rows, RDAP).value) ==> LastOf(rows, WHOIS).None?
    ensures !(Reports(LastOf(rows, RDAP), NotRegistered) && Reports(LastOf(rows, WHOIS), Registered))
  {
    LastOfIsARow(rows, RDAP);
    LastOfIsARow(rows, WHOIS);
    if LastOf(rows, RDAP).Some? && Conclusive(LastOf(rows, RDAP).value) && LastOf(rows, WHOIS).Some? {
      var i, j :| 0 <= i < j < |c.primary| && c.primary[i].name == RDAP && c.primary[j].name == WHOIS;
      ChainInOrder(c, rows);
      OfKeeps(c.primary, rows, LastOf(rows, RDAP).value);
      OfKeeps(c.primary, rows, LastOf(rows, WHOIS).value);
      DifferentParts(c.corroborating, c.primary);
      assert forall p :: p in c.primary ==> p in c.corroborating + c.primary;
      ConclusiveEndsChain(c.primary, RDAP, WHOIS, LastOf(rows, RDAP).value);
    }
  }

  lemma {:induction false} OfKeeps(ps: seq<Provider>, rows: seq<ProviderResult>, r: ProviderResult)
    requires r in rows && HasName(ps, r.provider)
    ensures r in Of(ps, rows)
  {
    hide HasName;
    if r != rows[|rows| - 1] {
      assert rows == rows[..|rows| - 1] + [rows[|rows| - 1]];
      OfKeeps(ps, rows[..|rows| - 1], r);
    }
  }

  /** In a chain that asks `first` before `second`, a conclusive row of the former excludes one of the latter. */
  lemma {:induction false} ConclusiveEndsChain(ps: seq<Provider>, first: string, second: string, row: ProviderResult)
    requires DifferentNames(ps) && AsksBefore(ps, first, second) && forall p :: p in ps ==> WellNamed(p)
    requires row in Rows(Primary, ps) && row.provider == first && Conclusive(row)
    ensures forall r :: r in Rows(Primary, ps) ==> r.provider != second
  {
    hide Conclusive, Rows, RowOf, WellNamed;
    var i, j :| 0 <= i < j < |ps| && ps[i].name == first && ps[j].name == second;
    var rest := ps[1..];
    assert ps == [ps[0]] + rest;
    DifferentParts([ps[0]], rest);
    RowsSpokenBy(Primary, rest);
    if ps[0].outcome.Unsupported? {
      SkippedRows(ps);
    } else {
      ChainGoesOn(ps);
      HeadSpeaks(ps[0]);
    }
    if i == 0 {
      forall r | r in Rows(Primary, rest) ensures r.provider != first {
        var k :| 0 <= k < |rest| && rest[k].name == r.provider;
        assert ps[k + 1].name != ps[0].name;
      }
    } else {
      assert rest[i - 1].name == first && rest[j - 1].name == second;
      assert AsksBefore(rest, first, second) && ps[0].name != first && ps[0].name != second;
      ConclusiveEndsChain(rest, first, second, row);
    }
  }

  lemma HeadSpeaks(p: Provider)
    requires !p.outcome.Unsupported? && WellNamed(p)
    ensures RowOf(p).provider == p.name
  {
  }
}
