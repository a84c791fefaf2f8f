/** internal/engine/suggest.go:56-119 and engine.go:95-109: checking a batch and ranking what is kept. */
module Ranking {
  import opened Core
  import opened DomainName
  import opened Expansion
  import Sorting

  type Answer = CheckResult<seq<ProviderResult>>

  // ---- less ----

  /** Requested TLD order, then plain base names, then un-hyphenated, shorter, alphabetical. */
  predicate Less(a: Candidate, b: Candidate) {
    if a.tldRank != b.tldRank then a.tldRank < b.tldRank
    else if a.exactBase != b.exactBase then a.exactBase
    else if a.hyphenated != b.hyphenated then b.hyphenated
    else if |a.domain| != |b.domain| then |a.domain| < |b.domain|
    else Sorting.StringLess(a.domain, b.domain)
  }

  /** What the order prefers, key by key: the earlier TLD of the request, then a plain base name, then no hyphen,
      then the shorter domain, then the one with the smaller byte at the first difference. */
  lemma LessByKeys(a: Candidate, b: Candidate)
    requires Less(a, b)
    ensures a.tldRank <= b.tldRank
    ensures a.tldRank == b.tldRank && b.exactBase ==> a.exactBase
    ensures a.tldRank == b.tldRank && a.exactBase == b.exactBase && a.hyphenated ==> b.hyphenated
    ensures a.tldRank == b.tldRank && a.exactBase == b.exactBase && a.hyphenated == b.hyphenated ==>
              |a.domain| <= |b.domain|
    ensures a.tldRank == b.tldRank && a.exactBase == b.exactBase && a.hyphenated == b.hyphenated
            && |a.domain| == |b.domain| ==>
              exists k :: 0 <= k < |a.domain| && a.domain[..k] == b.domain[..k] && a.domain[k] < b.domain[k]
  {
    if a.tldRank == b.tldRank && a.exactBase == b.exactBase && a.hyphenated == b.hyphenated
       && |a.domain| == |b.domain|
    {
      Sorting.StringLessByFirstDifference(a.domain, b.domain);
      var k :| Sorting.SmallerAt(a.domain, b.domain, k);
      assert 0 <= k < |a.domain| && a.domain[..k] == b.domain[..k] && a.domain[k] < b.domain[k];
    }
  }

  /** On candidates with distinct domains `less` is a strict total order. */
  lemma LessIsTotal(cs: seq<Candidate>)
    requires DistinctDomains(cs)
    ensures Sorting.StrictTotalOn(Less, Sorting.Elements(cs))
  {
    forall a | a in cs ensures !Less(a, a) {
      Sorting.StringLessIrreflexive(a.domain);
    }
    forall a, b, c | a in cs && b in cs && c in cs && Less(a, b) && Less(b, c) ensures Less(a, c) {
      if Sorting.StringLess(a.domain, b.domain) && Sorting.StringLess(b.domain, c.domain) {
        Sorting.StringLessTransitive(a.domain, b.domain, c.domain);
      }
    }
    forall a, b | a in cs && b in cs && a != b ensures Less(a, b) || Less(b, a) {
      var i :| 0 <= i < |cs| && cs[i] == a;
      var j :| 0 <= j < |cs| && cs[j] == b;
      assert a.domain != b.domain;
      Sorting.StringLessTotal(a.domain, b.domain);
    }
  }

  /** The ranking is the one ascending arrangement of the candidates. */
  lemma RankingIsUnique(cs: seq<Candidate>, arrangement: seq<Candidate>)
    requires DistinctDomains(cs)
    requires multiset(arrangement) == multiset(cs)
    ensures Sorting.Ascending(Less, arrangement) <==> arrangement == Sorting.Sort(Less, cs)
  {
    var elems := Sorting.Elements(cs);
    LessIsTotal(cs);
    Sorting.SortAscends(Less, cs, elems);
    Sorting.SortPermutes(Less, cs);
    if Sorting.Ascending(Less, arrangement) {
      Sorting.AscendingIsUnique(Less, Sorting.Sort(Less, cs), arrangement, elems) by {
        assert Sorting.Elements(Sorting.Sort(Less, cs)) <= elems;
      }
    }
  }

  // ---- CheckMany ----

  /** Goroutine i writes its own answer to results[i]; `schedule` is the order in which they finish. */
  method CheckMany(n: nat, answer: nat -> Answer, schedule: seq<nat>, blank: Answer) returns (results: seq<Answer>)
    requires Covers(schedule, n)
    ensures results == Answers(n, answer)
  {
    var slots := new Answer[n](_ => blank);
    for k := 0 to |schedule|
      invariant forall j :: 0 <= j < k ==> slots[schedule[j]] == answer(schedule[j])
    {
      slots[schedule[k]] := answer(schedule[k]);
    }
    forall i: nat | i < n ensures slots[i] == answer(i) {
      assert i in schedule;
      var j :| 0 <= j < |schedule| && schedule[j] == i;
      assert slots[schedule[j]] == answer(schedule[j]);
    }
    results := slots[..];
  }

  /** Every goroutine below n finishes, in any order. */
  ghost predicate Covers(schedule: seq<nat>, n: nat) {
    && (forall j :: 0 <= j < |schedule| ==> schedule[j] < n)
    && (forall i: nat :: i < n ==> i in schedule)
  }

  function Answers(n: nat, answer: nat -> Answer): seq<Answer> {
    seq(n, i requires 0 <= i < n => answer(i))
  }

  // ---- Suggest ----

  datatype SuggestResult = SuggestResult(results: seq<Answer>, generated: nat, checked: nat, truncated: bool)

  /** MaxCandidates cuts the list before anything is checked or ranked. */
  function Cut<T>(cs: seq<T>, max: int): seq<T> {
    if max > 0 && |cs| > max then cs[..max] else cs
  }

  /** The candidates that survive the availability filter. `serve` is what `Check` answers for a domain. */
  function Kept(cs: seq<Candidate>, serve: string -> Answer, onlyAvailable: bool): seq<Candidate> {
    if cs == [] then []
    else
      var before, c := Kept(cs[..|cs| - 1], serve, onlyAvailable), cs[|cs| - 1];
      if onlyAvailable && serve(c.domain).availability != Available then before else before + [c]
  }

  function Served(cs: seq<Candidate>, serve: string -> Answer): seq<Answer> {
    seq(|cs|, i requires 0 <= i < |cs| => serve(cs[i].domain))
  }

  function Ranked(cs: seq<Candidate>, limit: int): seq<Candidate> {
    Cut(Sorting.Sort(Less, cs), limit)
  }

  /** The program's comparison of two indices: that of the candidates behind them. */
  function ByCandidate(cs: seq<Candidate>): (int, int) -> bool {
    (a: int, b: int) => 0 <= a < |cs| && 0 <= b < |cs| && Less(cs[a], cs[b])
  }

  predicate InRange(cs: seq<Candidate>, order: seq<int>) {
    forall k :: 0 <= k < |order| ==> 0 <= order[k] < |cs|
  }

  /** The candidates read through an index array. */
  function Through(cs: seq<Candidate>, order: seq<int>): seq<Candidate>
    requires InRange(cs, order)
  {
    seq(|order|, k requires 0 <= k < |order| => cs[order[k]])
  }

  lemma {:induction false} InsertThrough(cs: seq<Candidate>, x: int, order: seq<int>)
    requires 0 <= x < |cs| && InRange(cs, order)
    ensures InRange(cs, Sorting.Insert(ByCandidate(cs), x, order))
    ensures Through(cs, Sorting.Insert(ByCandidate(cs), x, order)) == Sorting.Insert(Less, cs[x], Through(cs, order))
  {
    var mine := Through(cs, order);
    if order != [] {
      var n := |order| - 1;
      assert mine[..n] == Through(cs, order[..n]);
      InsertThrough(cs, x, order[..n]);
    }
  }

  /** Sorting the indices and reading through them is sorting the candidates. */
  lemma {:induction false} SortThrough(cs: seq<Candidate>, order: seq<int>)
    requires InRange(cs, order)
    ensures InRange(cs, Sorting.Sort(ByCandidate(cs), order))
    ensures Through(cs, Sorting.Sort(ByCandidate(cs), order)) == Sorting.Sort(Less, Through(cs, order))
  {
    hide Less, Sorting.Insert;
    var mine := Through(cs, order);
    if order != [] {
      var n := |order| - 1;
      assert mine[..n] == Through(cs, order[..n]);
      SortThrough(cs, order[..n]);
      InsertThrough(cs, order[n], Sorting.Sort(ByCandidate(cs), order[..n]));
    }
  }

  /** `sort.SliceStable` on a slice: the library's contract, in place. */
  method SliceStable(order: array<int>, less: (int, int) -> bool)
    modifies order
    ensures order[..] == Sorting.Sort(less, old(order[..]))
  {
    var sorted := Sorting.Sort(less, order[..]);
    Sorting.SortPermutes(less, order[..]);
    forall i | 0 <= i < order.Length {
      order[i] := sorted[i];
    }
    assert order[..] == sorted;
  }

  /** The availability filter, keeping answers and candidates side by side. */
  method Filter(cs: seq<Candidate>, checks: seq<Answer>, serve: string -> Answer, onlyAvailable: bool)
    returns (kept: seq<Answer>, keptCandidates: seq<Candidate>)
    requires checks == Served(cs, serve)
    ensures keptCandidates == Kept(cs, serve, onlyAvailable)
    ensures kept == Served(keptCandidates, serve)
  {
    kept, keptCandidates := [], [];
    for i := 0 to |checks|
      invariant keptCandidates == Kept(cs[..i], serve, onlyAvailable)
      invariant kept == Served(keptCandidates, serve)
    {
      assert cs[..i + 1][..i] == cs[..i];
      if onlyAvailable && checks[i].availability != Available {
        continue;
      }
      kept := kept + [checks[i]];
      keptCandidates := keptCandidates + [cs[i]];
    }
    assert cs[..|cs|] == cs;
  }

  /** The index array: every kept position, sorted by the candidates behind them. */
  method Order(keptCandidates: seq<Candidate>) returns (order: seq<int>)
    ensures InRange(keptCandidates, order) && Through(keptCandidates, order) == Sorting.Sort(Less, keptCandidates)
  {
    var indices := new int[|keptCandidates|](i => i);
    ghost var start := indices[..];
    assert Through(keptCandidates, start) == keptCandidates;
    SliceStable(indices, ByCandidate(keptCandidates));
    SortThrough(keptCandidates, start);
    order := indices[..];
  }

  /** The results read through the index array, up to the limit. */
  method Rank(kept: seq<Answer>, keptCandidates: seq<Candidate>, serve: string -> Answer, limit: int)
    returns (results: seq<Answer>)
    requires kept == Served(keptCandidates, serve)
    ensures results == Served(Ranked(keptCandidates, limit), serve)
  {
    var order := Order(keptCandidates);
    ghost var sorted := Through(keptCandidates, order);
    var top := if limit <= 0 || limit > |order| then |order| else limit;
    results := [];
    for k := 0 to top
      invariant |results| == k && forall j :: 0 <= j < k ==> results[j] == serve(sorted[j].domain)
    {
      results := results + [kept[order[k]]];
    }
    assert Ranked(keptCandidates, limit) == sorted[..top];
  }

  /** The candidates that are checked. */
  ghost function Checked(tables: Tables, req: Request): seq<Candidate> {
    Cut(Candidates(tables, req), req.maxCandidates)
  }

  /** The answers `Suggest` returns. */
  ghost function Results(tables: Tables, req: Request, serve: string -> Answer): seq<Answer> {
    Served(Ranked(Kept(Checked(tables, req), serve, req.onlyAvailable), req.limit), serve)
  }

  method Suggest(tables: Tables, req: Request, serve: string -> Answer, schedule: seq<nat>, blank: Answer)
    returns (r: SuggestResult)
    requires Covers(schedule, |Checked(tables, req)|)
    ensures
      var all, cut := Candidates(tables, req), Checked(tables, req);
      && r.generated == |all| && r.checked == |cut| && (r.truncated <==> |cut| < |all|)
      && r.results == Results(tables, req, serve)
  {
    var candidates := Expand(tables, req);
    var generated, truncated := |candidates|, false;
    if req.maxCandidates > 0 && |candidates| > req.maxCandidates {
      candidates := candidates[..req.maxCandidates];
      truncated := true;
    }
    var checks := CheckMany(|candidates|, ServeAt(candidates, serve, blank), schedule, blank);
    assert checks == Served(candidates, serve);
    var kept, keptCandidates := Filter(candidates, checks, serve, req.onlyAvailable);
    var results := Rank(kept, keptCandidates, serve, req.limit);
    r := SuggestResult(results, generated, |candidates|, truncated);
  }

  function ServeAt(cs: seq<Candidate>, serve: string -> Answer, blank: Answer): nat -> Answer {
    (i: nat) => if i < |cs| then serve(cs[i].domain) else blank
  }

  // ---- What a ranked answer promises ----

  lemma DistinctFront(cs: seq<Candidate>)
    requires cs != [] && DistinctDomains(cs)
    ensures DistinctDomains(cs[..|cs| - 1])
    ensures forall c :: c in cs[..|cs| - 1] ==> c.domain != cs[|cs| - 1].domain
  {
  }

  lemma {:induction false} KeptIsFiltered(cs: seq<Candidate>, serve: string -> Answer, onlyAvailable: bool)
    ensures forall c :: c in Kept(cs, serve, onlyAvailable) <==>
              c in cs && (onlyAvailable ==> serve(c.domain).availability == Available)
    ensures DistinctDomains(cs) ==> DistinctDomains(Kept(cs, serve, onlyAvailable))
  {
    if cs != [] {
      var n := |cs| - 1;
      var front := cs[..n];
      KeptIsFiltered(front, serve, onlyAvailable);
      assert cs == front + [cs[n]];
      if DistinctDomains(cs) {
        DistinctFront(cs);
        var kept := Kept(front, serve, onlyAvailable);
        assert forall i :: 0 <= i < |kept| ==> kept[i] in front;
      }
    }
  }

  lemma CutIsDistinct(cs: seq<Candidate>, max: int)
    requires DistinctDomains(cs)
    ensures DistinctDomains(Cut(cs, max))
  {
  }

  lemma SortedIsDistinct(cs: seq<Candidate>, sorted: seq<Candidate>, i: nat, j: nat)
    requires DistinctDomains(cs) && multiset(sorted) == multiset(cs) && i < j < |sorted|
    ensures sorted[i] != sorted[j]
  {
    if sorted[i] == sorted[j] {
      var c := sorted[i];
      assert sorted == sorted[..i] + [c] + sorted[i + 1..j] + [c] + sorted[j + 1..];
      assert multiset(sorted)[c] >= 2;
      OnlyOnce(cs, c);
    }
  }

  lemma SortedIsStrict(cs: seq<Candidate>, i: nat, j: nat)
    requires DistinctDomains(cs) && |Sorting.Sort(Less, cs)| == |cs| && i < j < |cs|
    ensures Less(Sorting.Sort(Less, cs)[i], Sorting.Sort(Less, cs)[j])
  {
    hide Less, Sorting.Sort;
    var sorted := Sorting.Sort(Less, cs);
    LessIsTotal(cs);
    Sorting.SortPermutes(Less, cs);
    RankingIsUnique(cs, sorted);
    SortedIsDistinct(cs, sorted, i, j);
    assert sorted[i] in sorted && sorted[j] in sorted;
    assert !Less(sorted[j], sorted[i]);
    assert sorted[i] in Sorting.Elements(cs) && sorted[j] in Sorting.Elements(cs);
  }

  /** The candidates whose answers are returned are in strictly ascending rank, and every kept candidate
      the limit drops ranks below every one returned. */
  lemma NothingDroppedOutranks(cs: seq<Candidate>, limit: int)
    requires DistinctDomains(cs)
    ensures
      var top := Ranked(cs, limit);
      && |top| == (if 0 < limit < |cs| then limit else |cs|)
      && (forall i, j :: 0 <= i < j < |top| ==> Less(top[i], top[j]))
      && (forall c, d :: c in top && d in cs && d !in top ==> Less(c, d))
  {
    hide Less, Sorting.Sort;
    var sorted, top := Sorting.Sort(Less, cs), Ranked(cs, limit);
    Sorting.SortPermutes(Less, cs);
    assert top <= sorted;
    forall i, j | 0 <= i < j < |top| ensures Less(top[i], top[j]) {
      SortedIsStrict(cs, i, j);
    }
    forall c, d | c in top && d in cs && d !in top ensures Less(c, d) {
      var i :| 0 <= i < |top| && top[i] == c;
      var j :| 0 <= j < |sorted| && sorted[j] == d;
      assert j >= |top|;
      SortedIsStrict(cs, i, j);
    }
  }

  lemma {:induction false} OnlyOnce(cs: seq<Candidate>, c: Candidate)
    requires DistinctDomains(cs)
    ensures multiset(cs)[c] <= 1
  {
    if cs != [] {
      var n := |cs| - 1;
      var front := cs[..n];
      assert cs == front + [cs[n]];
      DistinctFront(cs);
      OnlyOnce(front, c);
      if c == cs[n] {
        assert c !in front;
      }
    }
  }

  /** A larger limit only extends the list of results: it changes neither what is checked nor the ranking. */
  lemma LargerLimitExtends(tables: Tables, req: Request, serve: string -> Answer, large: int)
    requires 0 < req.limit && (large <= 0 || req.limit <= large)
    ensures Results(tables, req, serve) <= Results(tables, req.(limit := large), serve)
  {
    hide Kept, Sorting.Sort, Enumerate, Firsts;
    SameVariants(req, req.(limit := large), req.names, DistinctTlds(tables, req.tlds));
    assert Checked(tables, req) == Checked(tables, req.(limit := large));
  }

  /** Result k is the answer to a candidate that was checked; with the filter on it says "available". */
  lemma ResultsAreChecked(tables: Tables, req: Request, serve: string -> Answer, k: nat) returns (c: Candidate)
    requires k < |Results(tables, req, serve)|
    ensures c in Checked(tables, req) && Results(tables, req, serve)[k] == serve(c.domain)
    ensures c == Ranked(Kept(Checked(tables, req), serve, req.onlyAvailable), req.limit)[k]
    ensures req.onlyAvailable ==> serve(c.domain).availability == Available
  {
    hide Kept, Checked, Less, Sorting.Sort;
    var kept := Kept(Checked(tables, req), serve, req.onlyAvailable);
    c := Ranked(kept, req.limit)[k];
    KeptIsFiltered(Checked(tables, req), serve, req.onlyAvailable);
    Sorting.SortPermutes(Less, kept);
    assert c in Sorting.Sort(Less, kept);
  }

  /** Of any two results the first is preferred, key by key. */
  lemma ResultsAreRanked(tables: Tables, req: Request, serve: string -> Answer, i: nat, j: nat)
    returns (a: Candidate, b: Candidate)
    requires i < j < |Results(tables, req, serve)|
    ensures a in Checked(tables, req) && Results(tables, req, serve)[i] == serve(a.domain)
    ensures b in Checked(tables, req) && Results(tables, req, serve)[j] == serve(b.domain)
    ensures a.tldRank <= b.tldRank
    ensures a.tldRank == b.tldRank && b.exactBase ==> a.exactBase
    ensures a.tldRank == b.tldRank && a.exactBase == b.exactBase && a.hyphenated ==> b.hyphenated
    ensures a.tldRank == b.tldRank && a.exactBase == b.exactBase && a.hyphenated == b.hyphenated ==>
              |a.domain| <= |b.domain|
    ensures a.tldRank == b.tldRank && a.exactBase == b.exactBase && a.hyphenated == b.hyphenated
            && |a.domain| == |b.domain| ==>
              exists k :: 0 <= k < |a.domain| && a.domain[..k] == b.domain[..k] && a.domain[k] < b.domain[k]
  {
    hide Less, Ranked, Kept, Checked;
    a := ResultsAreChecked(tables, req, serve, i);
    b := ResultsAreChecked(tables, req, serve, j);
    KeptIsDistinct(tables, req, serve);
    NothingDroppedOutranks(Kept(Checked(tables, req), serve, req.onlyAvailable), req.limit);
    LessByKeys(a, b);
  }

  lemma KeptIsDistinct(tables: Tables, req: Request, serve: string -> Answer)
    ensures DistinctDomains(Kept(Checked(tables, req), serve, req.onlyAvailable))
  {
    hide Kept, Firsts, Enumerate;
    FirstsAreDistinct(tables, Enumerate(req, req.names, DistinctTlds(tables, req.tlds)));
    CutIsDistinct(Candidates(tables, req), req.maxCandidates);
    KeptIsFiltered(Checked(tables, req), serve, req.onlyAvailable);
  }

  /** A candidate that passed the filter and is not among the results was dropped by the limit, and every result
      is preferred to it: none is of a later TLD. */
  lemma DroppedRanksLower(tables: Tables, req: Request, serve: string -> Answer, d: Candidate, i: nat)
    returns (a: Candidate)
    requires d in Checked(tables, req) && (req.onlyAvailable ==> serve(d.domain).availability == Available)
    requires serve(d.domain) !in Results(tables, req, serve) && i < |Results(tables, req, serve)|
    ensures a in Checked(tables, req) && Results(tables, req, serve)[i] == serve(a.domain)
    ensures a.tldRank <= d.tldRank
    ensures a.tldRank == d.tldRank && d.exactBase ==> a.exactBase
    ensures a.tldRank == d.tldRank && a.exactBase == d.exactBase && a.hyphenated ==> d.hyphenated
    ensures a.tldRank == d.tldRank && a.exactBase == d.exactBase && a.hyphenated == d.hyphenated ==>
              |a.domain| <= |d.domain|
    ensures 0 < req.limit == |Results(tables, req, serve)|
  {
    hide Less, Ranked, Kept, Checked;
    a := ResultsAreChecked(tables, req, serve, i);
    var kept := Kept(Checked(tables, req), serve, req.onlyAvailable);
    var top := Ranked(kept, req.limit);
    KeptIsDistinct(tables, req, serve);
    KeptIsFiltered(Checked(tables, req), serve, req.onlyAvailable);
    NothingDroppedOutranks(kept, req.limit);
    forall k | 0 <= k < |top| ensures top[k] != d {
      assert Results(tables, req, serve)[k] == serve(top[k].domain);
    }
    assert a in top;
    LessByKeys(a, d);
    AllKeptAreRanked(kept, req.limit);
  }

  lemma AllKeptAreRanked(kept: seq<Candidate>, limit: int)
    ensures !(0 < limit < |kept|) ==> forall d :: d in kept ==> d in Ranked(kept, limit)
  {
    hide Less, Sorting.Sort;
    Sorting.SortPermutes(Less, kept);
  }

  /** What is checked is a prefix of the candidates, cut at the request's maximum if there is one. */
  lemma CheckedIsAPrefix(tables: Tables, req: Request)
    ensures Checked(tables, req) <= Candidates(tables, req)
    ensures |Checked(tables, req)| ==
            if 0 < req.maxCandidates < |Candidates(tables, req)| then req.maxCandidates else |Candidates(tables, req)|
  {
    hide Candidates;
  }

  lemma CheckedAreCandidates(tables: Tables, req: Request, c: Candidate)
    requires c in Checked(tables, req)
    ensures c in Candidates(tables, req)
  {
  }

  /** `top` is a best-first choice from `kept`: in strictly ascending rank, and nothing left out outranks it. */
  ghost predicate BestOf(top: seq<Candidate>, kept: seq<Candidate>) {
    && (forall i, j :: 0 <= i < j < |top| ==> Less(top[i], top[j]))
    && (forall c :: c in top ==> c in kept)
    && (forall c, d :: c in top && d in kept && d !in top ==> Less(c, d))
  }

  lemma RankedIsBest(kept: seq<Candidate>, limit: int)
    requires DistinctDomains(kept)
    ensures BestOf(Ranked(kept, limit), kept)
  {
    NothingDroppedOutranks(kept, limit);
    Sorting.SortPermutes(Less, kept);
    var top, sorted := Ranked(kept, limit), Sorting.Sort(Less, kept);
    forall c | c in top ensures c in kept {
      assert c in sorted;
    }
  }

  /** Each answer is its own candidate's, and with the filter on it says "available". */
  lemma AnswersMatch(cut: seq<Candidate>, serve: string -> Answer, onlyAvailable: bool, top: seq<Candidate>)
    requires forall d :: serve(d).domain == d
    requires forall c :: c in top ==> c in Kept(cut, serve, onlyAvailable)
    ensures forall i :: 0 <= i < |top| ==>
              && Served(top, serve)[i].domain == top[i].domain
              && (onlyAvailable ==> Served(top, serve)[i].availability == Available)
  {
    KeptIsFiltered(cut, serve, onlyAvailable);
    forall i | 0 <= i < |top|
      ensures Served(top, serve)[i].domain == top[i].domain
              && (onlyAvailable ==> Served(top, serve)[i].availability == Available)
    {
      assert top[i] in top;
    }
  }

  /** The whole pipeline: `Suggest` returns the answers to the best-ranked of the kept candidates, best first,
      each its own candidate's; nothing checked and kept outranks anything returned; and with the availability
      filter on every answer returned says "available". */
  lemma SuggestReturnsTheBest(tables: Tables, req: Request, serve: string -> Answer)
    requires forall d :: serve(d).domain == d
    ensures
      var kept := Kept(Checked(tables, req), serve, req.onlyAvailable);
      var top, results := Ranked(kept, req.limit), Results(tables, req, serve);
      && BestOf(top, kept) && |results| == |top|
      && forall i :: 0 <= i < |top| ==>
           && results[i].domain == top[i].domain
           && (req.onlyAvailable ==> results[i].availability == Available)
  {
    hide Ranked, Less, Parse, Kept, Firsts, Enumerate;
    var all := Candidates(tables, req);
    var cut := Checked(tables, req);
    FirstsAreDistinct(tables, Enumerate(req, req.names, DistinctTlds(tables, req.tlds)));
    CutIsDistinct(all, req.maxCandidates);
    KeptIsFiltered(cut, serve, req.onlyAvailable);
    var kept := Kept(cut, serve, req.onlyAvailable);
    RankedIsBest(kept, req.limit);
    AnswersMatch(cut, serve, req.onlyAvailable, Ranked(kept, req.limit));
  }
}
