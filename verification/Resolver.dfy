/** internal/engine/resolver.go: reconciling what the providers said. */
module Resolver {
  import opened Basics
  import opened Core
  import Sorting

  datatype Resolution = Resolution(
    availability: Availability,
    status: Status,
    confidence: Confidence,
    evidence: seq<string>,
    conflict: bool)

  /** The last row a provider left in the list: later rows overwrite earlier ones. */
  function LastOf(results: seq<ProviderResult>, name: string): Option<ProviderResult> {
    if results == [] then None
    else if results[|results| - 1].provider == name then Some(results[|results| - 1])
    else LastOf(results[..|results| - 1], name)
  }

  function AllEvidence(results: seq<ProviderResult>): seq<string> {
    if results == [] then []
    else AllEvidence(results[..|results| - 1]) + results[|results| - 1].evidence
  }

  predicate Reports(result: Option<ProviderResult>, registration: Registration) {
    result.Some? && result.value.registration == registration
  }

  /** The decision table, in the order the program tries its branches. */
  function Decide(rdap: Option<ProviderResult>, whois: Option<ProviderResult>, dns: Option<ProviderResult>,
                  evidence: seq<string>): Resolution
  {
    var delegated := Reports(dns, Registered);
    if Reports(rdap, Registered) then
      Resolution(Unavailable, rdap.value.status, High, evidence, false)
    else if Reports(rdap, NotRegistered) then
      if delegated then Resolution(Available, StatusAvailable, Low, evidence, true)
      else if Reports(whois, Registered) then Resolution(Available, StatusAvailable, Low, evidence, true)
      else Resolution(Available, StatusAvailable, High, evidence, false)
    else if Reports(whois, Registered) then
      Resolution(Unavailable, whois.value.status, High, evidence, false)
    else if Reports(whois, NotRegistered) then
      if delegated then Resolution(Unknown, StatusUnknown, Low, evidence, true)
      else Resolution(Available, StatusAvailable, Medium, evidence, false)
    else if delegated then
      Resolution(Unavailable, StatusRegistered, Medium, evidence, false)
    else
      var status := if rdap.Some? && rdap.value.status == StatusRateLimited then StatusRateLimited else StatusUnknown;
      Resolution(Unknown, status, Low, evidence, false)
  }

  function Reconcile(results: seq<ProviderResult>): Resolution {
    Decide(LastOf(results, RDAP), LastOf(results, WHOIS), LastOf(results, DNS),
           Sorting.Sort(Sorting.StringLess, AllEvidence(results)))
  }

  /** `sort.Strings` on a slice: the library's contract, in place. */
  method SortStrings(a: array<string>)
    modifies a
    ensures a[..] == Sorting.Sort(Sorting.StringLess, old(a[..]))
  {
    var sorted := Sorting.Sort(Sorting.StringLess, a[..]);
    Sorting.SortPermutes(Sorting.StringLess, a[..]);
    forall i | 0 <= i < a.Length {
      a[i] := sorted[i];
    }
    assert a[..] == sorted;
  }

  /** The program's own loop: remember the newest row per provider, collect evidence, then decide. */
  method Resolve(results: seq<ProviderResult>) returns (r: Resolution)
    ensures r == Reconcile(results)
  {
    var rdap, whois, dns: Option<ProviderResult> := None, None, None;
    var evidence: seq<string> := [];
    for i := 0 to |results|
      invariant rdap == LastOf(results[..i], RDAP)
      invariant whois == LastOf(results[..i], WHOIS)
      invariant dns == LastOf(results[..i], DNS)
      invariant evidence == AllEvidence(results[..i])
    {
      var result := results[i];
      assert results[..i + 1][..i] == results[..i];
      evidence := evidence + result.evidence;
      if result.provider == RDAP {
        rdap := Some(result);
      } else if result.provider == WHOIS {
        whois := Some(result);
      } else if result.provider == DNS {
        dns := Some(result);
      }
    }
    assert results[..|results|] == results;
    var tags := new string[|evidence|](i requires 0 <= i < |evidence| => evidence[i]);
    assert tags[..] == evidence;
    SortStrings(tags);
    r := Decide(rdap, whois, dns, tags[..]);
  }

  // ---- The verdict does not depend on the order of the list ----

  /** No two rows of the list come from the same provider `name`. */
  ghost predicate AtMostOnce(results: seq<ProviderResult>, name: string) {
    forall i, j :: 0 <= i < j < |results| ==> !(results[i].provider == name && results[j].provider == name)
  }

  lemma {:induction false} LastOfIsARow(results: seq<ProviderResult>, name: string)
    ensures LastOf(results, name).Some? ==>
              LastOf(results, name).value in results && LastOf(results, name).value.provider == name
    ensures LastOf(results, name).None? ==> forall r :: r in results ==> r.provider != name
  {
    if results != [] {
      var front, last := results[..|results| - 1], results[|results| - 1];
      assert results == front + [last];
      LastOfIsARow(front, name);
      forall r | r in results ensures r in front || r == last {}
    }
  }

  /** With at most one row per name, the row found is the only one there is. */
  lemma LastOfTheOnlyRow(results: seq<ProviderResult>, name: string, row: ProviderResult)
    requires AtMostOnce(results, name)
    requires row in results && row.provider == name
    ensures LastOf(results, name) == Some(row)
  {
    LastOfIsARow(results, name);
    var found := LastOf(results, name).value;
    var i :| 0 <= i < |results| && results[i] == found;
    var j :| 0 <= j < |results| && results[j] == row;
    assert i == j;
  }

  lemma LastOfPermuted(a: seq<ProviderResult>, b: seq<ProviderResult>, name: string)
    requires multiset(a) == multiset(b)
    requires AtMostOnce(b, name)
    ensures LastOf(a, name) == LastOf(b, name)
  {
    LastOfIsARow(a, name);
    LastOfIsARow(b, name);
    match LastOf(a, name)
    case Some(row) =>
      assert row in multiset(b);
      LastOfTheOnlyRow(b, name, row);
    case None =>
      forall r | r in b ensures r in a {
        assert r in multiset(a);
      }
  }

  lemma {:induction false} EvidenceConcat(a: seq<ProviderResult>, b: seq<ProviderResult>)
    ensures AllEvidence(a + b) == AllEvidence(a) + AllEvidence(b)
  {
    if b == [] {
      assert a + b == a;
    } else {
      assert (a + b)[..|a + b| - 1] == a + b[..|b| - 1];
      EvidenceConcat(a, b[..|b| - 1]);
    }
  }

  lemma EvidenceOfOne(row: ProviderResult)
    ensures AllEvidence([row]) == row.evidence
  {
    assert [row][..0] == [];
  }

  function DropAt<T>(s: seq<T>, i: nat): seq<T>
    requires i < |s|
  {
    s[..i] + s[i + 1..]
  }

  lemma EvidenceWithout(results: seq<ProviderResult>, i: nat)
    requires i < |results|
    ensures multiset(AllEvidence(results)) == multiset(AllEvidence(DropAt(results, i))) + multiset(results[i].evidence)
  {
    hide AllEvidence;
    var left, right := results[..i], results[i + 1..];
    assert results == left + [results[i]] + right;
    EvidenceConcat(left + [results[i]], right);
    EvidenceConcat(left, [results[i]]);
    EvidenceOfOne(results[i]);
    EvidenceConcat(left, right);
  }

  lemma {:induction false} EvidencePermuted(a: seq<ProviderResult>, b: seq<ProviderResult>)
    requires multiset(a) == multiset(b)
    ensures multiset(AllEvidence(a)) == multiset(AllEvidence(b))
    decreases |a|
  {
    assert |a| == |multiset(a)| == |multiset(b)| == |b|;
    if a != [] {
      var n := |a| - 1;
      assert a == a[..n] + [a[n]];
      assert a[n] in multiset(b);
      var i :| 0 <= i < |b| && b[i] == a[n];
      var b' := DropAt(b, i);
      assert b == b[..i] + [b[i]] + b[i + 1..];
      assert multiset(b') == multiset(b) - multiset{b[i]};
      assert multiset(a[..n]) == multiset(a) - multiset{a[n]};
      EvidencePermuted(a[..n], b');
      EvidenceWithout(b, i);
    }
  }

  /** The rows of the three deciding providers are unambiguous. */
  ghost predicate OneRowEach(results: seq<ProviderResult>) {
    AtMostOnce(results, RDAP) && AtMostOnce(results, WHOIS) && AtMostOnce(results, DNS)
  }

  /** Any arrangement of the same rows gives the same verdict and the same evidence. */
  lemma OrderDoesNotMatter(a: seq<ProviderResult>, b: seq<ProviderResult>)
    requires multiset(a) == multiset(b)
    requires OneRowEach(b)
    ensures Reconcile(a) == Reconcile(b)
  {
    LastOfPermuted(a, b, RDAP);
    LastOfPermuted(a, b, WHOIS);
    LastOfPermuted(a, b, DNS);
    EvidencePermuted(a, b);
    var ea, eb := AllEvidence(a), AllEvidence(b);
    var tags := Sorting.Elements(ea);
    Sorting.StringsAreOrdered(tags);
    Sorting.SortIgnoresOrder(Sorting.StringLess, ea, eb, tags);
  }

  /** Without that, order can matter: two contradicting rows of one provider. */
  lemma OrderMattersForRepeatedRows() returns (a: seq<ProviderResult>, b: seq<ProviderResult>)
    ensures multiset(a) == multiset(b) && Reconcile(a).availability != Reconcile(b).availability
  {
    var taken := ProviderResult(RDAP, Registered, StatusRegistered, [], "", "", None, None);
    var free := taken.(registration := NotRegistered);
    a, b := [taken, free], [free, taken];
    assert a[..1] == [taken] && b[..1] == [free];
    assert multiset(a) == multiset{taken, free} == multiset(b);
    assert LastOf(a, RDAP) == Some(free) && LastOf(b, RDAP) == Some(taken);
  }

  // ---- What each verdict is worth ----

  /** RDAP or WHOIS said in so many words that no registration exists. */
  ghost predicate SomeRegistrySaysFree(results: seq<ProviderResult>) {
    exists r :: r in results && (r.provider == RDAP || r.provider == WHOIS) && r.registration == NotRegistered
  }

  /** "available" needs an explicit "not registered" from RDAP or WHOIS: no failure,
      silence or DNS answer can produce it. */
  lemma AvailableNeedsARegistry(results: seq<ProviderResult>)
    requires Reconcile(results).availability == Available
    ensures SomeRegistrySaysFree(results)
  {
    LastOfIsARow(results, RDAP);
    LastOfIsARow(results, WHOIS);
  }

  // ---- The verdict, from the rows alone ----

  /** `row` stands in the list and no later row has its provider. */
  ghost predicate IsLast(results: seq<ProviderResult>, name: string, row: ProviderResult) {
    exists i :: && 0 <= i < |results| && results[i] == row && row.provider == name
                && forall j :: i < j < |results| ==> results[j].provider != name
  }

  lemma {:induction false} LastOfIsLast(results: seq<ProviderResult>, name: string, row: ProviderResult)
    ensures LastOf(results, name) == Some(row) <==> IsLast(results, name, row)
  {
    if results != [] {
      var n := |results| - 1;
      LastOfIsLast(results[..n], name, row);
      if IsLast(results[..n], name, row) && results[n].provider != name {
        var i :| && 0 <= i < n && results[..n][i] == row
                 && forall j :: i < j < n ==> results[..n][j].provider != name;
        forall j | i < j < |results| ensures results[j].provider != name {
          assert j < n ==> results[..n][j] == results[j];
        }
        assert results[i] == row;
      }
      if i :| && 0 <= i < |results| && results[i] == row && row.provider == name
              && forall j :: i < j < |results| ==> results[j].provider != name {
        assert i == n || results[..n][i] == row;
        assert forall j :: i < j < n ==> results[..n][j] == results[j];
      }
    }
  }

  /** The last row under the name makes this statement. */
  ghost predicate LastSays(results: seq<ProviderResult>, name: string, registration: Registration) {
    exists row :: IsLast(results, name, row) && row.registration == registration
  }

  ghost predicate LastSettles(results: seq<ProviderResult>, name: string) {
    LastSays(results, name, Registered) || LastSays(results, name, NotRegistered)
  }

  lemma LastSaysIsReported(results: seq<ProviderResult>, name: string, registration: Registration)
    ensures Reports(LastOf(results, name), registration) <==> LastSays(results, name, registration)
  {
    hide LastOf, IsLast;
    if LastOf(results, name).Some? {
      LastOfIsLast(results, name, LastOf(results, name).value);
    }
    forall row | IsLast(results, name, row) ensures LastOf(results, name) == Some(row) {
      LastOfIsLast(results, name, row);
    }
  }

  /** "taken" by the first of RDAP, WHOIS and DNS that settles the question. */
  ghost predicate Taken(results: seq<ProviderResult>) {
    || LastSays(results, RDAP, Registered)
    || (!LastSettles(results, RDAP) && LastSays(results, WHOIS, Registered))
    || (!LastSettles(results, RDAP) && !LastSettles(results, WHOIS) && LastSays(results, DNS, Registered))
  }

  /** "free" by RDAP, or by WHOIS when RDAP does not settle it and DNS shows no delegation. */
  ghost predicate Free(results: seq<ProviderResult>) {
    || LastSays(results, RDAP, NotRegistered)
    || (&& !LastSettles(results, RDAP) && LastSays(results, WHOIS, NotRegistered)
        && !LastSays(results, DNS, Registered))
  }

  lemma AllReports(results: seq<ProviderResult>)
    ensures forall name, registration ::
              LastSays(results, name, registration) <==> Reports(LastOf(results, name), registration)
  {
    hide LastSays, Reports;
    forall name, registration ensures
      LastSays(results, name, registration) <==> Reports(LastOf(results, name), registration) {
      LastSaysIsReported(results, name, registration);
    }
  }

  /** The verdict is "unavailable" exactly for a name taken in that sense, "available" exactly for one free. */
  lemma VerdictExactly(results: seq<ProviderResult>)
    ensures Reconcile(results).availability == Unavailable <==> Taken(results)
    ensures Reconcile(results).availability == Available <==> Free(results)
    ensures Reconcile(results).availability == Unknown <==> !Taken(results) && !Free(results)
  {
    hide LastOf, AllEvidence, LastSays;
    AllReports(results);
  }

  /** The status is that of the source that settles the question; "rate limited" stands in for "unknown"
      exactly when nothing settles it and RDAP was throttled. */
  lemma StatusExactly(results: seq<ProviderResult>, row: ProviderResult)
    ensures IsLast(results, RDAP, row) && row.registration == Registered ==> Reconcile(results).status == row.status
    ensures IsLast(results, WHOIS, row) && row.registration == Registered && !LastSettles(results, RDAP) ==>
              Reconcile(results).status == row.status
    ensures Taken(results) && !LastSays(results, RDAP, Registered) && !LastSays(results, WHOIS, Registered) ==>
              Reconcile(results).status == StatusRegistered
    ensures Free(results) ==> Reconcile(results).status == StatusAvailable
    ensures !Taken(results) && !Free(results) && !LastSettles(results, WHOIS) ==>
              Reconcile(results).status ==
              if LastRateLimited(results) then StatusRateLimited else StatusUnknown
    ensures !Taken(results) && !Free(results) && LastSettles(results, WHOIS) ==>
              Reconcile(results).status == StatusUnknown
  {
    hide LastOf, AllEvidence, LastSays, IsLast, LastRateLimited;
    AllReports(results);
    LastOfIsLast(results, RDAP, row);
    LastOfIsLast(results, WHOIS, row);
    RateLimitedIsReported(results);
  }

  /** The last RDAP row says that RDAP was throttled. */
  ghost predicate LastRateLimited(results: seq<ProviderResult>) {
    exists row :: IsLast(results, RDAP, row) && row.status == StatusRateLimited
  }

  lemma RateLimitedIsReported(results: seq<ProviderResult>)
    ensures LastRateLimited(results) <==>
            LastOf(results, RDAP).Some? && LastOf(results, RDAP).value.status == StatusRateLimited
  {
    hide LastOf, IsLast;
    if LastOf(results, RDAP).Some? {
      LastOfIsLast(results, RDAP, LastOf(results, RDAP).value);
    }
    forall row | IsLast(results, RDAP, row) ensures LastOf(results, RDAP) == Some(row) {
      LastOfIsLast(results, RDAP, row);
    }
  }

  /** Confidence and conflict: "high" for RDAP's and WHOIS's "taken" and for an uncontradicted "free" from RDAP,
      "medium" for an uncontradicted "free" from WHOIS and a "taken" from DNS alone, "low" otherwise. A conflict
      is a "free" against a "taken" of a lesser source. */
  lemma ConfidenceExactly(results: seq<ProviderResult>)
    ensures
      var r := Reconcile(results);
      && (r.confidence == High <==>
            || LastSays(results, RDAP, Registered)
            || (LastSays(results, RDAP, NotRegistered) && !r.conflict)
            || (!LastSettles(results, RDAP) && LastSays(results, WHOIS, Registered)))
      && (r.confidence == Medium <==>
            && !LastSettles(results, RDAP)
            && (|| (LastSays(results, WHOIS, NotRegistered) && !r.conflict)
                || (!LastSettles(results, WHOIS) && LastSays(results, DNS, Registered))))
      && (r.conflict <==>
            || (LastSays(results, RDAP, NotRegistered)
                && (LastSays(results, WHOIS, Registered) || LastSays(results, DNS, Registered)))
            || (&& !LastSettles(results, RDAP)
                && LastSays(results, WHOIS, NotRegistered) && LastSays(results, DNS, Registered)))
  {
    hide LastOf, AllEvidence, LastSays;
    AllReports(results);
  }

  /** How often a tag occurs over all rows. */
  function Mentions(results: seq<ProviderResult>, tag: string): nat {
    if results == [] then 0 else Mentions(results[1..], tag) + multiset(results[0].evidence)[tag]
  }

  lemma {:induction false} MentionsAreCollected(results: seq<ProviderResult>, tag: string)
    ensures multiset(AllEvidence(results))[tag] == Mentions(results, tag)
  {
    if results != [] {
      MentionsAreCollected(results[1..], tag);
      assert results == [results[0]] + results[1..];
      EvidenceConcat([results[0]], results[1..]);
      EvidenceOfOne(results[0]);
    }
  }

  lemma SortedByBytes(tags: seq<string>, i: nat, j: nat)
    requires i < j < |tags| && |Sorting.Sort(Sorting.StringLess, tags)| == |tags|
    ensures
      var sorted := Sorting.Sort(Sorting.StringLess, tags);
      sorted[i] == sorted[j] || exists k :: Sorting.SmallerAt(sorted[i], sorted[j], k)
  {
    hide Sorting.Sort, Sorting.StringLess, Sorting.SmallerAt, Sorting.StrictTotalOn;
    var elems, sorted := Sorting.Elements(tags), Sorting.Sort(Sorting.StringLess, tags);
    Sorting.StringsAreOrdered(elems);
    Sorting.SortAscends(Sorting.StringLess, tags, elems);
    assert !Sorting.StringLess(sorted[j], sorted[i]);
    if sorted[i] != sorted[j] {
      Sorting.StringLessTotal(sorted[i], sorted[j]);
      Sorting.StringLessByFirstDifference(sorted[i], sorted[j]);
    }
  }

  /** The evidence is every row's, each tag as often as the rows mention it, in byte order. */
  lemma EvidenceExactly(results: seq<ProviderResult>)
    ensures forall tag :: multiset(Reconcile(results).evidence)[tag] == Mentions(results, tag)
    ensures forall i, j :: 0 <= i < j < |Reconcile(results).evidence| ==>
              var a, b := Reconcile(results).evidence[i], Reconcile(results).evidence[j];
              a == b || exists k :: Sorting.SmallerAt(a, b, k)
  {
    hide AllEvidence, Mentions, LastOf, Sorting.Sort, Sorting.StringLess, Sorting.SmallerAt;
    var all := AllEvidence(results);
    assert Reconcile(results).evidence == Sorting.Sort(Sorting.StringLess, all);
    hide Reconcile;
    Sorting.SortPermutes(Sorting.StringLess, all);
    forall tag ensures multiset(Reconcile(results).evidence)[tag] == Mentions(results, tag) {
      MentionsAreCollected(results, tag);
    }
    forall i, j | 0 <= i < j < |all|
      ensures
        var a, b := Reconcile(results).evidence[i], Reconcile(results).evidence[j];
        a == b || exists k :: Sorting.SmallerAt(a, b, k)
    {
      SortedByBytes(all, i, j);
    }
  }

  /** Dropping every row of one provider. */
  function Without(results: seq<ProviderResult>, name: string): seq<ProviderResult> {
    if results == [] then []
    else
      var front := Without(results[..|results| - 1], name);
      if results[|results| - 1].provider == name then front else front + [results[|results| - 1]]
  }

  lemma {:induction false} WithoutKeepsOthers(results: seq<ProviderResult>, name: string, other: string)
    ensures LastOf(Without(results, name), other) == if other == name then None else LastOf(results, other)
  {
    if results != [] {
      var n := |results| - 1;
      WithoutKeepsOthers(results[..n], name, other);
      var front := Without(results[..n], name);
      assert (front + [results[n]])[..|front|] == front;
    }
  }

  /** A DNS answer never creates an "available": whatever is available with the DNS rows is
      available without them. */
  lemma DnsNeverFrees(results: seq<ProviderResult>)
    requires Reconcile(results).availability == Available
    ensures Reconcile(Without(results, DNS)).availability == Available
  {
    hide LastOf, Without, AllEvidence;
    WithoutKeepsOthers(results, DNS, RDAP);
    WithoutKeepsOthers(results, DNS, WHOIS);
    WithoutKeepsOthers(results, DNS, DNS);
  }

  /** The converse fails: losing the DNS answer (a failed lookup) turns a verdict into
      "available" in exactly one situation, RDAP inconclusive and WHOIS free against a delegation. */
  lemma LosingDnsFrees(results: seq<ProviderResult>)
    ensures (Reconcile(results).availability != Available
             && Reconcile(Without(results, DNS)).availability == Available)
       <==> (&& !Reports(LastOf(results, RDAP), Registered)
             && !Reports(LastOf(results, RDAP), NotRegistered)
             && Reports(LastOf(results, WHOIS), NotRegistered)
             && Reports(LastOf(results, DNS), Registered))
  {
    hide LastOf, Without, AllEvidence;
    WithoutKeepsOthers(results, DNS, RDAP);
    WithoutKeepsOthers(results, DNS, WHOIS);
    WithoutKeepsOthers(results, DNS, DNS);
  }

  // ---- The rules of authority ----

  /** The row answers the question one way or the other. */
  predicate Settles(result: Option<ProviderResult>) {
    Reports(result, Registered) || Reports(result, NotRegistered)
  }

  /** RDAP is authoritative: when it answers, availability and status are those of RDAP alone, and the
      others can only lower the confidence, exactly when they contradict a "not registered". */
  lemma RdapIsAuthoritative(results: seq<ProviderResult>)
    requires Settles(LastOf(results, RDAP))
    ensures
      var r, alone := Reconcile(results), Reconcile(Without(Without(results, WHOIS), DNS));
      && r.availability == alone.availability && r.status == alone.status
      && alone.confidence == High && !alone.conflict
      && r.confidence == (if r.conflict then Low else High)
      && (r.conflict <==> && Reports(LastOf(results, RDAP), NotRegistered)
                          && (Reports(LastOf(results, WHOIS), Registered) || Reports(LastOf(results, DNS), Registered)))
  {
    hide LastOf, Without, AllEvidence;
    var rest := Without(results, WHOIS);
    WithoutKeepsOthers(results, WHOIS, RDAP);
    WithoutKeepsOthers(results, WHOIS, WHOIS);
    WithoutKeepsOthers(rest, DNS, RDAP);
    WithoutKeepsOthers(rest, DNS, WHOIS);
    WithoutKeepsOthers(rest, DNS, DNS);
  }

  /** WHOIS decides when RDAP does not answer, unless it says "not registered" against a delegation. The
      "lower confidence" the rules announce is given exactly to its "not registered": a WHOIS "registered"
      is as good as RDAP's. */
  lemma WhoisDecidesSecond(results: seq<ProviderResult>)
    requires !Settles(LastOf(results, RDAP)) && Settles(LastOf(results, WHOIS))
    ensures
      var r, alone := Reconcile(results), Reconcile(Without(Without(results, RDAP), DNS));
      && (r.conflict <==> Reports(LastOf(results, WHOIS), NotRegistered) && Reports(LastOf(results, DNS), Registered))
      && (r.conflict ==> r.availability == Unknown && r.confidence == Low)
      && (!r.conflict ==>
            && r.availability == alone.availability && r.status == alone.status
            && r.confidence == alone.confidence)
      && (r.confidence == High <==> Reports(LastOf(results, WHOIS), Registered))
  {
    hide LastOf, Without, AllEvidence;
    var rest := Without(results, RDAP);
    WithoutKeepsOthers(results, RDAP, RDAP);
    WithoutKeepsOthers(results, RDAP, WHOIS);
    WithoutKeepsOthers(rest, DNS, RDAP);
    WithoutKeepsOthers(rest, DNS, WHOIS);
    WithoutKeepsOthers(rest, DNS, DNS);
  }

  /** "unavailable" is some source's "registered", and carries that source's status: RDAP's and WHOIS's with
      high confidence, a mere delegation's with medium. */
  lemma UnavailableNeedsARegistration(results: seq<ProviderResult>)
    requires Reconcile(results).availability == Unavailable
    ensures exists row ::
              && row in results && row.registration == Registered
              && (row.provider == RDAP || row.provider == WHOIS || row.provider == DNS)
              && Reconcile(results).status == (if row.provider == DNS then StatusRegistered else row.status)
              && Reconcile(results).confidence == (if row.provider == DNS then Medium else High)
  {
    LastOfIsARow(results, RDAP);
    LastOfIsARow(results, WHOIS);
    LastOfIsARow(results, DNS);
    var row := if Reports(LastOf(results, RDAP), Registered) then LastOf(results, RDAP).value
               else if Reports(LastOf(results, WHOIS), Registered) then LastOf(results, WHOIS).value
               else LastOf(results, DNS).value;
    assert row in results;
  }
}
