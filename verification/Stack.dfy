/** The program as wired (cmd/domain-lens-mcp/main.go:103-120): RDAP, then WHOIS where it is switched on, DNS
    alongside where it is; from the HTTP responses through the verdict to the answer a caller of `Check` gets. */
module Stack {
  import opened Basics
  import opened Core
  import opened Resolver
  import opened Verdicts
  import Checking
  import DomainName
  import Expansion
  import Ranking
  import Rdap
  import Serving
  import ServingTheorems

  // ---- What surrounds one check ----

  /** The engine's turn to RDAP: the bases `Supports` finds, why no slot was granted if none was, and the
      bases, responses and retry count of the lookup. The registry may be refreshed in between. */
  datatype RdapTurn = RdapTurn(
    listed: seq<Rdap.Base>,
    refusal: Option<string>,
    bases: seq<Rdap.Base>,
    worlds: nat -> Rdap.World,
    maxRetries: int)
  {
    /** A slot was granted and the lookup made. */
    predicate Asked() {
      listed != [] && refusal.None?
    }

    function Run(): Rdap.LookupRun {
      Rdap.Lookup(bases, worlds, maxRetries)
    }

    /** What the engine sees of it; nothing when the lookup panics and takes the process down. */
    function Seen(): Option<Checking.Outcome> {
      if listed == [] then Some(Checking.Unsupported)
      else if refusal.Some? then Some(Checking.NeverAdmitted(refusal.value))
      else
        match Run()
        case LookupPanic(_) => None
        case LookupRun(result, _) =>
          match result
          case Ok(row) => Some(Checking.Answered(row))
          case Err(_) => Some(Checking.Failed("rdap lookup failed"))
    }
  }

  /** WHOIS and DNS as the engine sees them; None where they are switched off. */
  datatype Surroundings = Surroundings(rdap: RdapTurn, whois: Option<Checking.Outcome>, dns: Option<Checking.Outcome>)

  function Only(name: string, outcome: Option<Checking.Outcome>): seq<Checking.Provider> {
    match outcome case Some(o) => [Checking.Provider(name, o)] case None => []
  }

  /** The call the engine makes in these surroundings, unless the RDAP lookup panics. */
  function Wired(w: Surroundings): Option<Checking.Call> {
    if w.rdap.Seen().None? then None
    else Some(Checking.Call(Only(DNS, w.dns), Only(RDAP, w.rdap.Seen()) + Only(WHOIS, w.whois)))
  }

  /** Each source answers under its own name; DNS never says "not registered"; a parsed 200 is a registration. */
  ghost predicate Honest(w: Surroundings) {
    && (forall i: nat :: Rdap.HonestParser(w.rdap.worlds(i).script))
    && (w.whois.Some? && w.whois.value.Answered? ==> w.whois.value.result.provider == WHOIS)
    && (w.dns.Some? && w.dns.value.Answered? ==>
          w.dns.value.result.provider == DNS && w.dns.value.result.registration != NotRegistered)
  }

  predicate Says(outcome: Option<Checking.Outcome>, registration: Registration) {
    outcome.Some? && outcome.value.Answered? && outcome.value.result.registration == registration
  }

  /** RDAP was asked and a request of it got a 404. */
  ghost predicate RdapGot404(w: Surroundings) {
    w.rdap.Asked() && Rdap.Got404(w.rdap.bases, w.rdap.worlds, w.rdap.maxRetries)
  }

  /** RDAP's answer ends the chain. */
  predicate RdapConclusive(w: Surroundings) {
    w.rdap.Seen().Some? && w.rdap.Seen().value.Answered? && Checking.Conclusive(w.rdap.Seen().value.result)
  }

  // ---- The list a check leaves, source by source ----

  /** The row a provider leaves, if it is asked. */
  function RowLeft(role: Checking.Role, name: string, outcome: Option<Checking.Outcome>): Option<ProviderResult> {
    if outcome.None? then None
    else
      match outcome.value
      case Unsupported => None
      case NeverAdmitted(reason) => if role.Primary? then Some(Checking.FailureRow(name, reason)) else None
      case Failed(reason) => if role.Primary? then Some(Checking.FailureRow(name, reason)) else None
      case Answered(result) => Some(Checking.Named(Checking.Provider(name, outcome.value), result))
  }

  function AsList(row: Option<ProviderResult>): seq<ProviderResult> {
    match row case Some(r) => [r] case None => []
  }

  lemma RowOfOne(role: Checking.Role, name: string, outcome: Option<Checking.Outcome>)
    ensures Checking.Rows(role, Only(name, outcome)) == AsList(RowLeft(role, name, outcome))
  {
    if outcome.Some? {
      assert Only(name, outcome)[1..] == [];
    }
  }

  lemma WiredSequence(w: Surroundings)
    requires Wired(w).Some?
    ensures Checking.SequentialRows(Wired(w).value) ==
            AsList(RowLeft(Checking.Corroborating, DNS, w.dns)) +
            (AsList(RowLeft(Checking.Primary, RDAP, w.rdap.Seen())) +
             if RdapConclusive(w) then [] else AsList(RowLeft(Checking.Primary, WHOIS, w.whois)))
  {
    hide w.rdap.Seen;
    var c, rdap := Wired(w).value, w.rdap.Seen();
    RowOfOne(Checking.Corroborating, DNS, w.dns);
    RowOfOne(Checking.Primary, WHOIS, w.whois);
    assert Checking.CorroboratingRows(c.corroborating) == Checking.Rows(Checking.Corroborating, c.corroborating) by {
      if w.dns.Some? {
        assert c.corroborating[..0] == [];
      }
    }
    assert c.primary[0] == Checking.Provider(RDAP, rdap.value) && c.primary[1..] == Only(WHOIS, w.whois);
  }

  lemma WiredNames(w: Surroundings)
    requires Honest(w) && Wired(w).Some?
    ensures DistinctlyNamed(Wired(w).value)
  {
    hide Rdap.Lookup;
    var c := Wired(w).value;
    var all := c.corroborating + c.primary;
    assert RDAP != WHOIS && RDAP != DNS && WHOIS != DNS;
    if w.rdap.Asked() {
      Rdap.RowsAreRdap(w.rdap.bases, w.rdap.worlds, w.rdap.maxRetries);
    }
    forall p | p in all ensures WellNamed(p) {}
  }

  lemma LastOfJoin(a: seq<ProviderResult>, b: Option<ProviderResult>, name: string)
    ensures LastOf(a + AsList(b), name) == if b.Some? && b.value.provider == name then b else LastOf(a, name)
  {
    if b.Some? {
      assert (a + AsList(b))[..|a|] == a;
    } else {
      assert a + AsList(b) == a;
    }
  }

  lemma LastOfThree(a: Option<ProviderResult>, b: Option<ProviderResult>, c: Option<ProviderResult>, name: string)
    ensures LastOf(AsList(a) + AsList(b) + AsList(c), name) ==
            if c.Some? && c.value.provider == name then c
            else if b.Some? && b.value.provider == name then b
            else if a.Some? && a.value.provider == name then a
            else None
  {
    hide LastOf;
    LastOfJoin(AsList(a) + AsList(b), c, name);
    LastOfJoin(AsList(a), b, name);
    LastOfJoin([], a, name);
    assert [] + AsList(a) == AsList(a);
    NobodyInAnEmptyList(name);
  }

  lemma WiredLast(w: Surroundings, rows: seq<ProviderResult>, name: string)
    requires Honest(w) && Wired(w).Some? && LeftBy(Wired(w).value, rows)
    ensures LastOf(rows, name) == LastOf(Checking.SequentialRows(Wired(w).value), name)
  {
    hide LastOf, AtMostOnce, LeftBy, DistinctlyNamed, Wired, Honest;
    WiredNames(w);
    LeftRows(Wired(w).value, rows);
    SequentialRowsAreDistinct(Wired(w).value, name);
    LastOfPermuted(rows, Checking.SequentialRows(Wired(w).value), name);
  }

  /** Whatever the schedule, `resolve` finds each source's own row, and WHOIS's only after an inconclusive RDAP. */
  lemma WiredRows(w: Surroundings, rows: seq<ProviderResult>)
    requires Honest(w) && Wired(w).Some? && LeftBy(Wired(w).value, rows)
    ensures LastOf(rows, DNS) == RowLeft(Checking.Corroborating, DNS, w.dns)
    ensures LastOf(rows, RDAP) == RowLeft(Checking.Primary, RDAP, w.rdap.Seen())
    ensures LastOf(rows, WHOIS) == if RdapConclusive(w) then None else RowLeft(Checking.Primary, WHOIS, w.whois)
  {
    hide LastOf, LeftBy, RowLeft, Honest, Wired, RdapConclusive;
    var dns, rdap := RowLeft(Checking.Corroborating, DNS, w.dns), RowLeft(Checking.Primary, RDAP, w.rdap.Seen());
    var whois := if RdapConclusive(w) then None else RowLeft(Checking.Primary, WHOIS, w.whois);
    WiredLast(w, rows, DNS);
    WiredLast(w, rows, RDAP);
    WiredLast(w, rows, WHOIS);
    WiredSequence(w);
    assert Checking.SequentialRows(Wired(w).value) == AsList(dns) + AsList(rdap) + AsList(whois);
    RowsAreNamed(w);
    LastOfThree(dns, rdap, whois, DNS);
    LastOfThree(dns, rdap, whois, RDAP);
    LastOfThree(dns, rdap, whois, WHOIS);
    assert RDAP != WHOIS && RDAP != DNS && WHOIS != DNS;
  }

  lemma NobodyInAnEmptyList(name: string)
    ensures LastOf([], name) == None
  {
  }

  lemma RowsAreNamed(w: Surroundings)
    requires Honest(w) && Wired(w).Some?
    ensures
      var dns, whois := RowLeft(Checking.Corroborating, DNS, w.dns), RowLeft(Checking.Primary, WHOIS, w.whois);
      var rdap := RowLeft(Checking.Primary, RDAP, w.rdap.Seen());
      && (dns.Some? ==> dns.value.provider == DNS) && (whois.Some? ==> whois.value.provider == WHOIS)
      && (rdap.Some? ==> rdap.value.provider == RDAP)
  {
    hide Rdap.Lookup;
    if w.rdap.Asked() {
      Rdap.RowsAreRdap(w.rdap.bases, w.rdap.worlds, w.rdap.maxRetries);
    }
  }

  // ---- From responses to the verdict ----

  /** What makes a name "available": a 404 from RDAP, or no match from WHOIS when RDAP came to nothing and DNS
      shows no delegation. */
  ghost predicate ProvenFree(w: Surroundings) {
    RdapGot404(w) || (!RdapConclusive(w) && Says(w.whois, NotRegistered) && !Says(w.dns, Registered))
  }

  /** From responses to verdict, whatever the schedule: "available" exactly for those reasons. Throttling, 5xx,
      transport errors, open circuits, cancellations, refusals and DNS cannot produce it. */
  lemma AvailableFromResponses(w: Surroundings, rows: seq<ProviderResult>)
    requires Honest(w) && Wired(w).Some? && LeftBy(Wired(w).value, rows)
    ensures Reconcile(rows).availability == Available <==> ProvenFree(w)
  {
    hide LastOf, AllEvidence, LeftBy, Rdap.Lookup, Rdap.Got404;
    WiredRows(w, rows);
    RdapSpeaksBy404(w);
  }

  /** What the engine sees of RDAP says "not registered" exactly after a 404, and settles nothing else by halves. */
  lemma RdapSpeaksBy404(w: Surroundings)
    requires Honest(w) && w.rdap.Seen().Some?
    ensures Says(w.rdap.Seen(), NotRegistered) <==> RdapGot404(w)
  {
    hide Rdap.Lookup, Rdap.Got404;
    Rdap.LookupFreeOnlyBy404(w.rdap.bases, w.rdap.worlds, w.rdap.maxRetries);
  }

  /** RDAP was asked and a request of it got a 200 that parses. */
  ghost predicate RdapGot200(w: Surroundings) {
    w.rdap.Asked() && Rdap.Got200(w.rdap.bases, w.rdap.worlds, w.rdap.maxRetries)
  }

  /** What makes a name "unavailable": a 200 from RDAP; a record from WHOIS when RDAP is not conclusive; or a
      delegation in DNS when RDAP sent neither a 200 nor a 404 and WHOIS, if it was asked, settled nothing. */
  ghost predicate ProvenTaken(w: Surroundings) {
    || RdapGot200(w)
    || (!RdapConclusive(w) && Says(w.whois, Registered))
    || (&& !RdapGot200(w) && !RdapGot404(w) && Says(w.dns, Registered)
        && (RdapConclusive(w) || (!Says(w.whois, Registered) && !Says(w.whois, NotRegistered))))
  }

  /** From responses to verdict, the other way: "unavailable" exactly for those reasons. */
  lemma UnavailableFromResponses(w: Surroundings, rows: seq<ProviderResult>)
    requires Honest(w) && Wired(w).Some? && LeftBy(Wired(w).value, rows)
    ensures Reconcile(rows).availability == Unavailable <==> ProvenTaken(w)
  {
    hide LastOf, AllEvidence, LeftBy, Rdap.Lookup, Rdap.Got404, Rdap.Got200;
    WiredRows(w, rows);
    RdapSpeaksBy404(w);
    RdapSpeaksBy200(w);
  }

  lemma RdapSpeaksBy200(w: Surroundings)
    requires Honest(w) && w.rdap.Seen().Some?
    ensures Says(w.rdap.Seen(), Registered) <==> RdapGot200(w)
  {
    hide Rdap.Lookup, Rdap.Got200;
    Rdap.LookupTakenOnlyBy200(w.rdap.bases, w.rdap.worlds, w.rdap.maxRetries);
  }

  // ---- Registration details ----

  /** WHOIS gives details only with an answer, DNS never (internal/provider/whois/parse.go:62-83). */
  predicate Sparse(w: Surroundings) {
    && (w.whois.Some? && w.whois.value.Answered? && !Checking.Conclusive(w.whois.value.result) ==>
          w.whois.value.result.info.None?)
    && (w.dns.Some? && w.dns.value.Answered? ==> w.dns.value.result.info.None?)
  }

  /** As wired, only a conclusive answer of the chain carries details: RDAP's inconclusive rows have none. */
  lemma WiredInfo(w: Surroundings)
    requires Honest(w) && Sparse(w) && Wired(w).Some?
    ensures InfoFromAuthority(Wired(w).value)
  {
    hide Rdap.Lookup, Rdap.HonestParser;
    if w.rdap.Asked() {
      Rdap.RowsAreRdap(w.rdap.bases, w.rdap.worlds, w.rdap.maxRetries);
    }
  }

  /** So as wired `Info` answers the same under every schedule, from at most one source, and its bare "not
      registered" is proven. */
  lemma InfoAsWired(w: Surroundings, rows: seq<ProviderResult>)
    requires Honest(w) && Sparse(w) && Wired(w).Some? && LeftBy(Wired(w).value, rows)
    ensures AtMostOneInfo(rows)
    ensures InfoFrom(rows) == InfoFrom(Checking.SequentialRows(Wired(w).value))
    ensures InfoFrom(rows) == NoRegistration ==> ProvenFree(w)
  {
    hide Honest, Wired, Sparse, LeftBy, DistinctlyNamed, InfoFromAuthority, ProvenFree, FirstInfo, Reconcile;
    WiredInfo(w);
    WiredNames(w);
    SingleInfo(Wired(w).value, rows);
    InfoIgnoresSchedule(Wired(w).value, rows);
    AvailableFromResponses(w, rows);
  }

  /** Details carried by a conclusive answer. */
  predicate Tells(outcome: Option<Checking.Outcome>, info: string) {
    && outcome.Some? && outcome.value.Answered? && Checking.Conclusive(outcome.value.result)
    && outcome.value.result.info == Some(info)
  }

  /** As wired `Info` gives details exactly when a conclusive answer has them: RDAP's, or WHOIS's if RDAP was not
      conclusive. */
  lemma DetailsAsWired(w: Surroundings, rows: seq<ProviderResult>, info: string)
    requires Honest(w) && Sparse(w) && Wired(w).Some? && LeftBy(Wired(w).value, rows)
    ensures InfoFrom(rows) == Details(info) <==>
            Tells(w.rdap.Seen(), info) || (!RdapConclusive(w) && Tells(w.whois, info))
  {
    hide Wired, LeftBy, InfoFrom, Reconcile, InfoFromAuthority, Honest, Sparse, RowLeft, Checking.SequentialRows, Tells,
      RdapConclusive, w.rdap.Seen, AsList;
    var base := Checking.SequentialRows(Wired(w).value);
    var dns, rdap := RowLeft(Checking.Corroborating, DNS, w.dns), RowLeft(Checking.Primary, RDAP, w.rdap.Seen());
    var whois := if RdapConclusive(w) then None else RowLeft(Checking.Primary, WHOIS, w.whois);
    WiredInfo(w);
    InfoOfRun(Wired(w).value, rows, info);
    LeftRows(Wired(w).value, rows);
    WiredSequence(w);
    NoList();
    assert base == AsList(dns) + (AsList(rdap) + AsList(whois));
    forall r ensures r in rows <==> dns == Some(r) || rdap == Some(r) || whois == Some(r) {
      assert r in multiset(rows) <==> r in multiset(base);
      InThree(dns, rdap, whois, r);
    }
    RowsTell(w, info);
  }

  lemma NoList()
    ensures AsList(None) == []
  {
  }

  lemma InThree(a: Option<ProviderResult>, b: Option<ProviderResult>, c: Option<ProviderResult>, r: ProviderResult)
    ensures r in AsList(a) + (AsList(b) + AsList(c)) <==> a == Some(r) || b == Some(r) || c == Some(r)
  {
  }

  lemma RowsTell(w: Surroundings, info: string)
    requires Honest(w) && Sparse(w) && Wired(w).Some?
    ensures
      var dns, rdap := RowLeft(Checking.Corroborating, DNS, w.dns), RowLeft(Checking.Primary, RDAP, w.rdap.Seen());
      var whois := RowLeft(Checking.Primary, WHOIS, w.whois);
      && (dns.Some? ==> dns.value.info == None)
      && (rdap.Some? && rdap.value.info == Some(info) <==> Tells(w.rdap.Seen(), info))
      && (whois.Some? && whois.value.info == Some(info) <==> Tells(w.whois, info))
  {
    hide Rdap.Lookup, Rdap.HonestParser;
    if w.rdap.Asked() {
      Rdap.RowsAreRdap(w.rdap.bases, w.rdap.worlds, w.rdap.maxRetries);
    }
  }

  // ---- To the answer a caller gets ----

  /** The whole way, for any callers of `Check`, any schedules, cache contents, failures and cancellations: an
      "available" answer was served by a check around which RDAP sent a 404, or WHOIS reported no match. */
  lemma AvailableToCallers(cfg: Serving.Config, s: Serving.State, i: nat, around: nat -> Surroundings)
    requires ServingTheorems.Reachable(cfg, s) && i < |s.callers| && s.callers[i].progress.Answered?
    requires forall f: nat :: f < |s.flights| ==> Honest(around(f)) && Wired(around(f)) == Some(s.flights[f].call)
    requires s.callers[i].progress.answer.availability == Available
    ensures exists f: nat :: ServingTheorems.ServedBy(cfg, s, s.callers[i], f) && ProvenFree(around(f))
  {
    hide Honest, Wired, ProvenFree, Serving.Verdict, LeftBy;
    var f, rows := ServingTheorems.AnswerHasRows(cfg, s, i);
    AvailableFromResponses(around(f), rows);
    assert ServingTheorems.ServedBy(cfg, s, s.callers[i], f) && ProvenFree(around(f));
  }

  /** Some caller of `Check` spelled the domain this way and got this answer. */
  ghost predicate WasAnswered(s: Serving.State, domain: string, answer: Serving.Answer) {
    exists i :: && 0 <= i < |s.callers| && s.callers[i].input == domain
                && s.callers[i].progress.Answered? && s.callers[i].progress.answer == answer
  }

  /** This answer for `domain` went to caller i out of flight f, whose check proved it; and that check was for
      `domain` itself. */
  ghost predicate Backed(cfg: Serving.Config, s: Serving.State, around: nat -> Surroundings, domain: string,
                         answer: Serving.Answer, i: nat, f: nat)
  {
    && i < |s.callers| && s.callers[i].input == domain == answer.domain
    && s.callers[i].progress.Answered? && s.callers[i].progress.answer == answer
    && ServingTheorems.ServedBy(cfg, s, s.callers[i], f) && ProvenFree(around(f))
    && (DomainName.Encoded(cfg.tables, domain) ==> s.flights[f].key == domain)
  }

  /** `Suggest` asks `Check` once per candidate. Every "available" among its results, all of them when it
      filters, is one of those answers, for the suggested name and proven in the same way. */
  lemma SuggestionsAreProven(cfg: Serving.Config, s: Serving.State, around: nat -> Surroundings,
                             req: Expansion.Request, serve: string -> Serving.Answer, k: nat)
    requires ServingTheorems.Reachable(cfg, s)
    requires forall f: nat :: f < |s.flights| ==> Honest(around(f)) && Wired(around(f)) == Some(s.flights[f].call)
    requires forall c :: c in Ranking.Checked(cfg.tables, req) ==> WasAnswered(s, c.domain, serve(c.domain))
    requires k < |Ranking.Results(cfg.tables, req, serve)|
    ensures req.onlyAvailable ==> Ranking.Results(cfg.tables, req, serve)[k].availability == Available
    ensures
      var answer := Ranking.Results(cfg.tables, req, serve)[k];
      answer.availability == Available ==>
        exists c, i: nat, f: nat ::
          c in Ranking.Checked(cfg.tables, req) && Backed(cfg, s, around, c.domain, answer, i, f)
  {
    hide Honest, Wired, Ranking.Results, Ranking.Checked, ServingTheorems.Reachable, Backed;
    var c := Ranking.ResultsAreChecked(cfg.tables, req, serve, k);
    if serve(c.domain).availability == Available {
      var i :| && 0 <= i < |s.callers| && s.callers[i].input == c.domain
               && s.callers[i].progress.Answered? && s.callers[i].progress.answer == serve(c.domain);
      Ranking.CheckedAreCandidates(cfg.tables, req, c);
      var f := AnswerIsBacked(cfg, s, around, req, c, i);
    }
  }

  lemma AnswerIsBacked(cfg: Serving.Config, s: Serving.State, around: nat -> Surroundings, req: Expansion.Request,
                       c: Expansion.Candidate, i: nat)
    returns (f: nat)
    requires ServingTheorems.Reachable(cfg, s) && i < |s.callers| && s.callers[i].progress.Answered?
    requires forall g: nat :: g < |s.flights| ==> Honest(around(g)) && Wired(around(g)) == Some(s.flights[g].call)
    requires s.callers[i].input == c.domain && s.callers[i].progress.answer.availability == Available
    requires c in Expansion.Candidates(cfg.tables, req)
    ensures Backed(cfg, s, around, c.domain, s.callers[i].progress.answer, i, f)
  {
    hide Honest, Wired, ProvenFree, ServingTheorems.Reachable, Expansion.Candidates, DomainName.Parse,
      DomainName.Encoded;
    AvailableToCallers(cfg, s, i, around);
    f :| ServingTheorems.ServedBy(cfg, s, s.callers[i], f) && ProvenFree(around(f));
    ServingTheorems.AnswersKeepTheSpelling(cfg, s, i);
    var text := Expansion.CandidatesAreAccepted(cfg.tables, req, c);
    if DomainName.Encoded(cfg.tables, c.domain) {
      DomainName.AcceptedParsesToItself(cfg.tables, text);
    }
  }

  // ---- Where the chain is cut short by nothing ----

  /** RDAP ends the chain without having said anything if and only if it is asked with a negative retry count
      and reaches a base it could have queried. */
  ghost predicate Blinded(w: Surroundings) {
    && w.rdap.Asked() && w.rdap.maxRetries < 0
    && exists k: nat ::
         Rdap.Tried(w.rdap.bases, w.rdap.worlds, k, w.rdap.maxRetries) && w.rdap.bases[k].joinable
  }

  lemma BlindedExactly(w: Surroundings)
    requires Honest(w) && Wired(w).Some?
    ensures RdapConclusive(w) && !Says(w.rdap.Seen(), Registered) && !Says(w.rdap.Seen(), NotRegistered) <==> Blinded(w)
  {
    hide Rdap.Lookup, Rdap.Tried;
    Rdap.ZeroRowExactly(w.rdap.bases, w.rdap.worlds, w.rdap.maxRetries);
  }

  /** Then WHOIS is never asked, and the verdict is left to DNS: never "available", even when WHOIS would
      report no match. */
  lemma NegativeRetriesSilenceWhois(w: Surroundings, rows: seq<ProviderResult>)
    requires Honest(w) && Wired(w).Some? && LeftBy(Wired(w).value, rows)
    ensures RdapConclusive(w) && !Settles(LastOf(rows, RDAP)) <==> Blinded(w)
    ensures Blinded(w) ==> LastOf(rows, WHOIS).None?
    ensures Blinded(w) ==>
              Reconcile(rows).availability == if Says(w.dns, Registered) then Unavailable else Unknown
  {
    hide LastOf, AllEvidence, LeftBy, Rdap.Lookup, Blinded;
    WiredRows(w, rows);
    BlindedExactly(w);
  }
}
