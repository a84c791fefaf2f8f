/** internal/provider/rdap/bootstrap.go: the registry of RDAP services and its refresh. */
module Bootstrap {
  type Services = map<string, seq<string>>

  const MINUTE := 60_000_000_000

  // ---- The refresh protocol, for any number of concurrent callers ----

  datatype Phase =
    | Called                       // BaseURLs entered
    | SawStale                     // first look said stale
    | Locked                       // TryLock succeeded
    | Fetching(fetch: nat)         // second look said stale; the fetch with this number is under way
    | Unlocking                    // the deferred Unlock is next
    | Reading                      // about to read the map
    | Returned(served: Services, seen: nat) // the map read, after `seen` finished fetches

  datatype Fetch =
    | Running(began: int)
    | Succeeded(began: int, ended: int, services: Services)
    | Failed(began: int, ended: int)

  /** `fetches` records the fetches started so far; the rest is the program's state. */
  datatype State = State(
    now: int,
    services: Services,
    fetchedAt: int,
    locked: bool,
    callers: seq<Phase>,
    fetches: seq<Fetch>)

  /** Fetches run one after the other, so only the newest can be unfinished. */
  function FinishedCount(fetches: seq<Fetch>): nat {
    if fetches != [] && fetches[|fetches| - 1].Running? then |fetches| - 1 else |fetches|
  }

  predicate Stale(s: State, ttl: int) {
    s.now - s.fetchedAt > ttl
  }

  datatype Action =
    | Tick(to: int)
    | Call
    | FirstLook(i: nat)
    | TryLock(i: nat)
    | SecondLook(i: nat)
    | FetchOk(i: nat, fetched: Services)
    | FetchFails(i: nat)
    | Unlock(i: nat)
    | Read(i: nat)

  predicate Can(s: State, a: Action) {
    match a
    case Tick(to) => s.now <= to
    case Call => true
    case FirstLook(i) => i < |s.callers| && s.callers[i] == Called
    case TryLock(i) => i < |s.callers| && s.callers[i] == SawStale
    case SecondLook(i) => i < |s.callers| && s.callers[i] == Locked
    case FetchOk(i, _) => i < |s.callers| && s.callers[i].Fetching? && s.callers[i].fetch < |s.fetches|
      && s.fetches[s.callers[i].fetch].Running?
    case FetchFails(i) => i < |s.callers| && s.callers[i].Fetching? && s.callers[i].fetch < |s.fetches|
      && s.fetches[s.callers[i].fetch].Running?
    case Unlock(i) => i < |s.callers| && s.callers[i] == Unlocking
    case Read(i) => i < |s.callers| && s.callers[i] == Reading
  }

  /** `fetchedAt` after a failure at `now`: the next look finds it stale a minute later. */
  function BackedOff(now: int, ttl: int): int {
    now - ttl + MINUTE
  }

  function Do(s: State, a: Action, ttl: int): State
    requires Can(s, a)
  {
    match a
    case Tick(to) => s.(now := to)
    case Call => s.(callers := s.callers + [Called])
    case FirstLook(i) => s.(callers := s.callers[i := if Stale(s, ttl) then SawStale else Reading])
    case TryLock(i) =>
      if s.locked then s.(callers := s.callers[i := Reading]) else s.(callers := s.callers[i := Locked], locked := true)
    case SecondLook(i) =>
      if Stale(s, ttl) then
        s.(callers := s.callers[i := Fetching(|s.fetches|)], fetches := s.fetches + [Running(s.now)])
      else s.(callers := s.callers[i := Unlocking])
    case FetchOk(i, fetched) =>
      var f := s.callers[i].fetch;
      s.(callers := s.callers[i := Unlocking], services := fetched, fetchedAt := s.now,
         fetches := s.fetches[f := Succeeded(s.fetches[f].began, s.now, fetched)])
    case FetchFails(i) =>
      var f := s.callers[i].fetch;
      s.(callers := s.callers[i := Unlocking], fetchedAt := BackedOff(s.now, ttl),
         fetches := s.fetches[f := Failed(s.fetches[f].began, s.now)])
    case Unlock(i) => s.(callers := s.callers[i := Reading], locked := false)
    case Read(i) => s.(callers := s.callers[i := Returned(s.services, FinishedCount(s.fetches))])
  }

  predicate Possible(s: State, run: seq<Action>, ttl: int)
    decreases |run|
  {
    run == [] || (Can(s, run[0]) && Possible(Do(s, run[0], ttl), run[1..], ttl))
  }

  function After(s: State, run: seq<Action>, ttl: int): State
    requires Possible(s, run, ttl)
    decreases |run|
  {
    if run == [] then s else After(Do(s, run[0], ttl), run[1..], ttl)
  }

  function Initial(embedded: Services, fetchedAt: int, now: int): State {
    State(now, embedded, fetchedAt, false, [], [])
  }

  // ---- What every step keeps ----

  predicate HoldsLock(p: Phase) {
    p.Locked? || p.Fetching? || p.Unlocking?
  }

  ghost predicate LockInv(s: State) {
    && (!s.locked ==> forall i :: 0 <= i < |s.callers| ==> !HoldsLock(s.callers[i]))
    && (forall i, j :: 0 <= i < j < |s.callers| ==> !(HoldsLock(s.callers[i]) && HoldsLock(s.callers[j])))
  }

  /** Only the newest fetch can be running, and only while someone is fetching it. */
  ghost predicate FetchInv(s: State) {
    && (forall f :: 0 <= f < |s.fetches| - 1 ==> !s.fetches[f].Running?)
    && (forall i :: 0 <= i < |s.callers| && s.callers[i].Fetching? ==>
          s.callers[i].fetch == |s.fetches| - 1 && s.fetches[|s.fetches| - 1].Running?)
    && (s.fetches != [] && s.fetches[|s.fetches| - 1].Running? ==>
          exists i :: 0 <= i < |s.callers| && s.callers[i].Fetching?)
  }

  /** The earliest moment a look finds the registry stale after this fetch: strictly later than this. */
  function FreshUntil(f: Fetch, ttl: int): int
    requires !f.Running?
  {
    if f.Succeeded? then f.ended + ttl else f.ended + MINUTE
  }

  /** The finished fetches, oldest first. */
  function Finished(fetches: seq<Fetch>): seq<Fetch> {
    fetches[..FinishedCount(fetches)]
  }

  /** When the registry stops being fresh: the first look after this finds it stale. */
  function FreshEnd(fetches: seq<Fetch>, first: int, ttl: int): int {
    var done := Finished(fetches);
    if done == [] || done[|done| - 1].Running? then first + ttl else FreshUntil(done[|done| - 1], ttl)
  }

  /** The fetch after f began strictly later than f kept the registry fresh. */
  ghost predicate Spaced(fetches: seq<Fetch>, f: nat, ttl: int) {
    f + 1 < |fetches| ==> !fetches[f].Running? && fetches[f + 1].began > FreshUntil(fetches[f], ttl)
  }

  ghost predicate TimeInv(s: State, first: int, ttl: int) {
    && s.fetchedAt + ttl == FreshEnd(s.fetches, first, ttl)
    && (forall f :: 0 <= f < |s.fetches| ==>
        s.fetches[f].began <= s.now && (!s.fetches[f].Running? ==> s.fetches[f].began <= s.fetches[f].ended <= s.now))
    && (forall f: nat :: Spaced(s.fetches, f, ttl))
  }

  /** The map of the latest success, or the embedded one. */
  function Latest(fetches: seq<Fetch>, embedded: Services): Services {
    if fetches == [] then embedded
    else if fetches[|fetches| - 1].Succeeded? then fetches[|fetches| - 1].services
    else Latest(fetches[..|fetches| - 1], embedded)
  }

  ghost predicate MapInv(s: State, embedded: Services) {
    s.services == Latest(Finished(s.fetches), embedded)
  }

  /** A caller got the whole map of the newest success among the fetches finished when it read. */
  ghost predicate ServedInv(s: State, embedded: Services) {
    forall i :: 0 <= i < |s.callers| && s.callers[i].Returned? ==>
      s.callers[i].seen <= FinishedCount(s.fetches)
        && s.callers[i].served == Latest(s.fetches[..s.callers[i].seen], embedded)
  }

  /** Nobody leaves the lock behind. */
  ghost predicate HeldInv(s: State) {
    s.locked ==> exists i :: 0 <= i < |s.callers| && HoldsLock(s.callers[i])
  }

  ghost predicate Inv(s: State, embedded: Services, first: int, ttl: int) {
    && LockInv(s) && HeldInv(s) && FetchInv(s) && TimeInv(s, first, ttl)
    && MapInv(s, embedded) && ServedInv(s, embedded)
  }

  lemma KeepsLock(s: State, a: Action, ttl: int)
    requires LockInv(s) && Can(s, a)
    ensures LockInv(Do(s, a, ttl))
  {
  }

  lemma KeepsHeld(s: State, a: Action, ttl: int)
    requires LockInv(s) && HeldInv(s) && Can(s, a)
    ensures HeldInv(Do(s, a, ttl))
  {
    hide Stale;
    var s' := Do(s, a, ttl);
    if s.locked {
      var i :| 0 <= i < |s.callers| && HoldsLock(s.callers[i]);
      assert s'.locked ==> HoldsLock(s'.callers[i]);
    } else if a.TryLock? {
      assert HoldsLock(s'.callers[a.i]);
    }
  }

  lemma KeepsFetches(s: State, a: Action, ttl: int)
    requires LockInv(s) && FetchInv(s) && Can(s, a)
    ensures FetchInv(Do(s, a, ttl))
  {
    hide LockInv, Stale, HoldsLock;
    var s' := Do(s, a, ttl);
    match a
    case Call =>
      if s.fetches != [] && s.fetches[|s.fetches| - 1].Running? {
        var i :| 0 <= i < |s.callers| && s.callers[i].Fetching?;
        assert s'.callers[i].Fetching?;
      }
    case SecondLook(i) =>
      if Stale(s, ttl) {
        NobodyElseFetches(s, i);
        StartedFetch(s, s', i);
      } else {
        KeepsFetcher(s, s', i);
      }
    case FetchOk(i, _) =>
      NobodyElseFetches(s, i);
      EndedFetch(s, s', i);
    case FetchFails(i) =>
      NobodyElseFetches(s, i);
      EndedFetch(s, s', i);
    case FirstLook(i) => KeepsFetcher(s, s', i);
    case TryLock(i) => KeepsFetcher(s, s', i);
    case Unlock(i) => KeepsFetcher(s, s', i);
    case Read(i) => KeepsFetcher(s, s', i);
    case Tick(_) =>
  }

  /** Whoever holds the lock is the only one that can be fetching. */
  lemma NobodyElseFetches(s: State, i: nat)
    requires LockInv(s) && i < |s.callers| && (s.callers[i].Locked? || s.callers[i].Fetching?)
    ensures forall j :: 0 <= j < |s.callers| && j != i ==> !s.callers[j].Fetching?
  {
    assert HoldsLock(s.callers[i]);
    forall j | 0 <= j < |s.callers| && s.callers[j].Fetching? ensures j == i {
      assert HoldsLock(s.callers[j]);
    }
  }

  lemma StartedFetch(s: State, s': State, i: nat)
    requires FetchInv(s) && i < |s.callers| && !s.callers[i].Fetching?
    requires forall j :: 0 <= j < |s.callers| && j != i ==> !s.callers[j].Fetching?
    requires s'.callers == s.callers[i := Fetching(|s.fetches|)] && s'.fetches == s.fetches + [Running(s.now)]
    ensures FetchInv(s')
  {
    assert s'.callers[i].Fetching?;
    assert forall f :: 0 <= f < |s.fetches| ==> s'.fetches[f] == s.fetches[f];
  }

  lemma EndedFetch(s: State, s': State, i: nat)
    requires FetchInv(s) && i < |s.callers| && s.callers[i].Fetching? && s.callers[i].fetch < |s.fetches|
    requires forall j :: 0 <= j < |s.callers| && j != i ==> !s.callers[j].Fetching?
    requires s'.callers == s.callers[i := Unlocking] && |s'.fetches| == |s.fetches|
    requires !s'.fetches[s.callers[i].fetch].Running?
    requires forall f :: 0 <= f < |s.fetches| && f != s.callers[i].fetch ==> s'.fetches[f] == s.fetches[f]
    ensures FetchInv(s')
  {
  }

  lemma KeepsFetcher(s: State, s': State, i: nat)
    requires FetchInv(s) && i < |s.callers| && !s.callers[i].Fetching?
    requires s'.fetches == s.fetches && |s'.callers| == |s.callers| && !s'.callers[i].Fetching?
    requires forall j :: 0 <= j < |s.callers| && j != i ==> s'.callers[j] == s.callers[j]
    ensures FetchInv(s')
  {
    if s.fetches != [] && s.fetches[|s.fetches| - 1].Running? {
      var j :| 0 <= j < |s.callers| && s.callers[j].Fetching?;
      assert s'.callers[j].Fetching?;
    }
  }

  /** A caller in `Fetching` means the newest fetch is running and the finished ones are all before it. */
  lemma Completing(s: State, i: nat)
    requires FetchInv(s) && i < |s.callers| && s.callers[i].Fetching?
    ensures s.callers[i].fetch == |s.fetches| - 1 && FinishedCount(s.fetches) == |s.fetches| - 1
  {
  }

  lemma KeepsTime(s: State, a: Action, first: int, ttl: int)
    requires LockInv(s) && FetchInv(s) && TimeInv(s, first, ttl) && Can(s, a)
    ensures TimeInv(Do(s, a, ttl), first, ttl)
  {
    var s' := Do(s, a, ttl);
    match a
    case SecondLook(i) =>
      if Stale(s, ttl) {
        StartsFetch(s, i, first, ttl);
      }
    case FetchOk(i, fetched) =>
      Completing(s, i);
      EndsFetch(s, s', first, ttl);
    case FetchFails(i) =>
      Completing(s, i);
      EndsFetch(s, s', first, ttl);
    case _ => assert s'.fetches == s.fetches && s'.fetchedAt == s.fetchedAt && s.now <= s'.now;
  }

  /** Whoever holds the lock without fetching knows that no fetch is running. */
  lemma NoFetchRunning(s: State, i: nat)
    requires LockInv(s) && FetchInv(s) && i < |s.callers| && HoldsLock(s.callers[i]) && !s.callers[i].Fetching?
    ensures FinishedCount(s.fetches) == |s.fetches|
  {
    forall j | 0 <= j < |s.callers| ensures !s.callers[j].Fetching? {
      assert s.callers[j].Fetching? ==> HoldsLock(s.callers[j]);
    }
  }

  lemma StartsFetch(s: State, i: nat, first: int, ttl: int)
    requires LockInv(s) && FetchInv(s) && TimeInv(s, first, ttl) && Can(s, SecondLook(i)) && Stale(s, ttl)
    ensures TimeInv(Do(s, SecondLook(i), ttl), first, ttl)
  {
    var s', n := Do(s, SecondLook(i), ttl), |s.fetches|;
    NoFetchRunning(s, i);
    assert Finished(s'.fetches) == s.fetches == Finished(s.fetches);
    forall f: nat ensures Spaced(s'.fetches, f, ttl) {
      assert Spaced(s.fetches, f, ttl);
    }
  }

  lemma EndsFetch(s: State, s': State, first: int, ttl: int)
    requires TimeInv(s, first, ttl) && s.fetches != [] && s.fetches[|s.fetches| - 1].Running? && s'.now == s.now
    requires |s'.fetches| == |s.fetches| && s'.fetches[..|s.fetches| - 1] == s.fetches[..|s.fetches| - 1]
    requires
      var last := s'.fetches[|s.fetches| - 1];
      !last.Running? && last.began == s.fetches[|s.fetches| - 1].began && last.ended == s.now
        && s'.fetchedAt + ttl == FreshUntil(last, ttl)
    ensures TimeInv(s', first, ttl)
  {
    assert forall f :: 0 <= f < |s.fetches| - 1 ==> s'.fetches[f] == s.fetches[..|s.fetches| - 1][f];
    assert Finished(s'.fetches) == s'.fetches;
    forall f: nat ensures Spaced(s'.fetches, f, ttl) {
      assert Spaced(s.fetches, f, ttl);
    }
  }

  lemma KeepsMap(s: State, a: Action, embedded: Services, ttl: int)
    requires LockInv(s) && FetchInv(s) && MapInv(s, embedded) && Can(s, a)
    ensures MapInv(Do(s, a, ttl), embedded)
  {
    var s' := Do(s, a, ttl);
    match a
    case SecondLook(i) =>
      NoFetchRunning(s, i);
      if Stale(s, ttl) {
        assert Finished(s'.fetches) == s.fetches == Finished(s.fetches);
      }
    case FetchOk(i, fetched) =>
      Completing(s, i);
      assert Finished(s'.fetches) == s'.fetches;
    case FetchFails(i) =>
      Completing(s, i);
      assert Finished(s'.fetches) == s'.fetches;
      assert s'.fetches[..|s.fetches| - 1] == Finished(s.fetches);
    case _ =>
  }

  lemma KeepsServed(s: State, a: Action, embedded: Services, ttl: int)
    requires LockInv(s) && FetchInv(s) && MapInv(s, embedded) && ServedInv(s, embedded) && Can(s, a)
    ensures ServedInv(Do(s, a, ttl), embedded)
  {
    var s' := Do(s, a, ttl);
    FinishedOnlyGrows(s, a, ttl);
    forall i | 0 <= i < |s'.callers| && s'.callers[i].Returned?
      ensures s'.callers[i].seen <= FinishedCount(s'.fetches)
              && s'.callers[i].served == Latest(s'.fetches[..s'.callers[i].seen], embedded)
    {
      if i < |s.callers| && s.callers[i] == s'.callers[i] {
        var n, m := s.callers[i].seen, FinishedCount(s.fetches);
        assert s'.fetches[..n] == s'.fetches[..m][..n] && s.fetches[..n] == s.fetches[..m][..n];
      }
    }
  }

  lemma FinishedOnlyGrows(s: State, a: Action, ttl: int)
    requires LockInv(s) && FetchInv(s) && Can(s, a)
    ensures
      var n := FinishedCount(s.fetches);
      n <= FinishedCount(Do(s, a, ttl).fetches) && Do(s, a, ttl).fetches[..n] == s.fetches[..n]
  {
    match a
    case SecondLook(i) => NoFetchRunning(s, i);
    case FetchOk(i, _) => Completing(s, i);
    case FetchFails(i) => Completing(s, i);
    case _ =>
  }

  lemma {:induction false} RunsKeepInv(s: State, run: seq<Action>, embedded: Services, first: int, ttl: int)
    requires Inv(s, embedded, first, ttl) && Possible(s, run, ttl)
    ensures Inv(After(s, run, ttl), embedded, first, ttl)
    decreases |run|
  {
    if run != [] {
      var a := run[0];
      KeepsLock(s, a, ttl);
      KeepsHeld(s, a, ttl);
      KeepsFetches(s, a, ttl);
      KeepsTime(s, a, first, ttl);
      KeepsMap(s, a, embedded, ttl);
      KeepsServed(s, a, embedded, ttl);
      RunsKeepInv(Do(s, a, ttl), run[1..], embedded, first, ttl);
    }
  }

  // ---- What the registry promises ----

  /** For any concurrent callers: at most one fetch is in flight; the next one begins strictly more than ttl
      after a success ended, strictly more than a minute after a failure ended. */
  lemma FetchesAreSpaced(embedded: Services, first: int, now: int, run: seq<Action>, ttl: int)
    requires Possible(Initial(embedded, first, now), run, ttl)
    ensures
      var s := After(Initial(embedded, first, now), run, ttl);
      && (forall i, j :: 0 <= i < j < |s.callers| ==> !(s.callers[i].Fetching? && s.callers[j].Fetching?))
      && (forall f, g :: 0 <= f < g < |s.fetches| && s.fetches[f].Succeeded? && g == f + 1 ==>
          s.fetches[g].began > s.fetches[f].ended + ttl)
      && (forall f, g :: 0 <= f < g < |s.fetches| && s.fetches[f].Failed? && g == f + 1 ==>
          s.fetches[g].began > s.fetches[f].ended + MINUTE)
      && (forall f :: 0 <= f < |s.fetches| - 1 ==> !s.fetches[f].Running?)
  {
    var s0 := Initial(embedded, first, now);
    RunsKeepInv(s0, run, embedded, first, ttl) by {
      assert forall f: nat :: Spaced(s0.fetches, f, ttl);
    }
    var s := After(s0, run, ttl);
    forall i, j | 0 <= i < j < |s.callers| ensures !(s.callers[i].Fetching? && s.callers[j].Fetching?) {
      assert !(HoldsLock(s.callers[i]) && HoldsLock(s.callers[j]));
    }
    forall f, g | 0 <= f < g < |s.fetches| && g == f + 1 ensures s.fetches[g].began > FreshUntil(s.fetches[f], ttl) {
      assert Spaced(s.fetches, f, ttl);
    }
  }

  /** The reachable states. */
  ghost predicate Reached(s: State, embedded: Services, first: int, ttl: int) {
    exists now: int, run: seq<Action> ::
      Possible(Initial(embedded, first, now), run, ttl) && After(Initial(embedded, first, now), run, ttl) == s
  }

  lemma ReachedInv(s: State, embedded: Services, first: int, ttl: int)
    requires Reached(s, embedded, first, ttl)
    ensures Inv(s, embedded, first, ttl)
  {
    var now: int, run: seq<Action> :|
      Possible(Initial(embedded, first, now), run, ttl) && After(Initial(embedded, first, now), run, ttl) == s;
    RunsKeepInv(Initial(embedded, first, now), run, embedded, first, ttl) by {
      assert forall f: nat :: Spaced(Initial(embedded, first, now).fetches, f, ttl);
    }
  }

  /** The time is past when the newest finished fetch is older than ttl, or than a minute if it failed; before any
      fetch has finished, when the first map is older than ttl. */
  predicate Due(s: State, first: int, ttl: int) {
    var n := FinishedCount(s.fetches);
    if n == 0 then s.now > first + ttl
    else
      match s.fetches[n - 1]
      case Succeeded(_, ended, _) => s.now > ended + ttl
      case Failed(_, ended) => s.now > ended + 60_000_000_000
      case Running(_) => false
  }

  /** A look finds the registry stale exactly when the time is past. */
  lemma StaleExactly(s: State, embedded: Services, first: int, ttl: int)
    requires Reached(s, embedded, first, ttl)
    ensures Stale(s, ttl) <==> Due(s, first, ttl)
  {
    ReachedInv(s, embedded, first, ttl);
    var n := FinishedCount(s.fetches);
    assert n > 0 ==> Finished(s.fetches)[n - 1] == s.fetches[n - 1] && !s.fetches[n - 1].Running?;
  }

  /** A caller that finds the registry past its time gets it fetched, unless somebody is at it already: its own
      three steps start a fetch at once. One that does not find it so reads the map and fetches nothing. */
  lemma DueGetsFetched(s: State, embedded: Services, first: int, ttl: int, i: nat)
    requires Reached(s, embedded, first, ttl) && i < |s.callers| && s.callers[i] == Called
    ensures s.locked ==> exists j :: 0 <= j < |s.callers| && HoldsLock(s.callers[j])
    ensures
      var steps := [FirstLook(i), TryLock(i), SecondLook(i)];
      Due(s, first, ttl) && !s.locked ==>
        Possible(s, steps, ttl) && After(s, steps, ttl).fetches == s.fetches + [Running(s.now)]
    ensures
      var steps := [FirstLook(i), Read(i)];
      !Due(s, first, ttl) ==>
        && Possible(s, steps, ttl) && After(s, steps, ttl).fetches == s.fetches
        && i < |After(s, steps, ttl).callers|
        && After(s, steps, ttl).callers[i] == Returned(s.services, FinishedCount(s.fetches))
  {
    hide Due, Inv, Reached;
    StaleExactly(s, embedded, first, ttl);
    SomebodyHolds(s, embedded, first, ttl);
    var s1 := Do(s, FirstLook(i), ttl);
    if Stale(s, ttl) {
      if !s.locked {
        var s2 := Do(s1, TryLock(i), ttl);
        var s3 := Do(s2, SecondLook(i), ttl);
        ThreeSteps(s, FirstLook(i), TryLock(i), SecondLook(i), ttl);
      }
    } else {
      var s2 := Do(s1, Read(i), ttl);
      TwoSteps(s, FirstLook(i), Read(i), ttl);
    }
  }

  lemma SomebodyHolds(s: State, embedded: Services, first: int, ttl: int)
    requires Reached(s, embedded, first, ttl)
    ensures s.locked ==> exists j :: 0 <= j < |s.callers| && HoldsLock(s.callers[j])
  {
    ReachedInv(s, embedded, first, ttl);
  }

  lemma TwoSteps(s: State, a: Action, b: Action, ttl: int)
    requires Can(s, a) && Can(Do(s, a, ttl), b)
    ensures Possible(s, [a, b], ttl) && After(s, [a, b], ttl) == Do(Do(s, a, ttl), b, ttl)
  {
    hide Can, Do;
    var s1 := Do(s, a, ttl);
    assert [a, b][1..] == [b] && [b][1..] == [];
    assert Possible(Do(s1, b, ttl), [], ttl);
    assert Possible(s1, [b], ttl) && After(s1, [b], ttl) == Do(s1, b, ttl);
  }

  lemma ThreeSteps(s: State, a: Action, b: Action, c: Action, ttl: int)
    requires Can(s, a) && Can(Do(s, a, ttl), b) && Can(Do(Do(s, a, ttl), b, ttl), c)
    ensures Possible(s, [a, b, c], ttl) && After(s, [a, b, c], ttl) == Do(Do(Do(s, a, ttl), b, ttl), c, ttl)
  {
    hide Can, Do;
    TwoSteps(Do(s, a, ttl), b, c, ttl);
    assert [a, b, c][1..] == [b, c];
  }

  /** Steps of its own still ahead of a caller, at most. */
  function StepsAhead(p: Phase): nat {
    match p
    case Called => 6
    case SawStale => 5
    case Locked => 4
    case Fetching(_) => 3
    case Unlocking => 2
    case Reading => 1
    case Returned(_, _) => 0
  }

  /** No caller waits for another: until it returns it always has a step of its own, and six are enough. */
  lemma NobodyWaits(s: State, embedded: Services, first: int, ttl: int, i: nat) returns (a: Action)
    requires Reached(s, embedded, first, ttl) && i < |s.callers| && !s.callers[i].Returned?
    ensures Can(s, a) && i < |Do(s, a, ttl).callers|
    ensures StepsAhead(Do(s, a, ttl).callers[i]) < StepsAhead(s.callers[i])
  {
    ReachedInv(s, embedded, first, ttl);
    match s.callers[i]
    case Called => a := FirstLook(i);
    case SawStale => a := TryLock(i);
    case Locked => a := SecondLook(i);
    case Fetching(f) => a := FetchFails(i);
    case Unlocking => a := Unlock(i);
    case Reading => a := Read(i);
  }

  /** Every caller is served the embedded map or the whole map of the newest fetch that had succeeded: never
      a mixture, never the loss of a map to a failure. */
  lemma ServesWholeMaps(embedded: Services, first: int, now: int, run: seq<Action>, ttl: int, i: nat)
    requires Possible(Initial(embedded, first, now), run, ttl)
    requires i < |After(Initial(embedded, first, now), run, ttl).callers|
    requires After(Initial(embedded, first, now), run, ttl).callers[i].Returned?
    ensures
      var s := After(Initial(embedded, first, now), run, ttl);
      var p := s.callers[i];
      && p.seen <= |s.fetches|
      && ((p.served == embedded && forall f :: 0 <= f < p.seen ==> !s.fetches[f].Succeeded?)
          || exists f :: && 0 <= f < p.seen && s.fetches[f].Succeeded? && p.served == s.fetches[f].services
                         && forall g :: f < g < p.seen ==> !s.fetches[g].Succeeded?)
  {
    var s0 := Initial(embedded, first, now);
    RunsKeepInv(s0, run, embedded, first, ttl) by {
      assert forall f: nat :: Spaced(s0.fetches, f, ttl);
    }
    var s := After(s0, run, ttl);
    LatestIsNewest(s.fetches, s.callers[i].seen, embedded);
  }

  lemma {:induction false} LatestIsNewest(fetches: seq<Fetch>, n: nat, embedded: Services)
    requires n <= |fetches|
    ensures
      var map0 := Latest(fetches[..n], embedded);
      || (map0 == embedded && forall f :: 0 <= f < n ==> !fetches[f].Succeeded?)
      || exists f :: && 0 <= f < n && fetches[f].Succeeded? && map0 == fetches[f].services
                     && forall g :: f < g < n ==> !fetches[g].Succeeded?
  {
    if n > 0 {
      LatestIsNewest(fetches, n - 1, embedded);
      assert fetches[..n][..n - 1] == fetches[..n - 1];
      if fetches[n - 1].Succeeded? {
        assert Latest(fetches[..n], embedded) == fetches[n - 1].services;
      }
    }
  }
}
