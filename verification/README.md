# The domain verdict engine: a verified model

A Dafny model of the part of domain-lens that decides whether a domain is free, and of the machinery that
protects that decision: the concurrent check of one name, the reconciliation of what the providers said,
the result cache and the sharing of checks in flight, RDAP lookups with retries and fallback bases, the
per-host circuit breaker and backoff, the refresh of the RDAP registry, the expansion and ranking of
suggestions, and the parsing of names. The central promise, that a failure, a silence or an "unknown" never
turns into "available", is proved from HTTP responses up to the answer a caller receives, for every schedule
(`Stack.AvailableToCallers`).

## How the model is built

- **Checking, Verdicts** - `check` and `run` as goroutines competing for slots, one transition per step. A run
  is a schedule; a check leaves a list of rows behind. Every schedule's list is a permutation of the list the
  providers would give one after the other, so the verdict does not depend on the schedule.
- **Resolver** - the fold over the list as the program writes it (a loop, evidence sorted in place), proved
  equal to a function of the last row per provider, and the rules of authority about that function.
- **Caching, Serving, ServingTheorems, Sharing** - the cache as an object that agrees with the plain history of
  its puts; `Check` for any number of callers (cache read, join or lead, put, release, purge) as a transition
  system with one step per critical section; and `Check` over real arrays, where sharing and copying show.
- **Budget** - the two transition systems joined: the callers of `Check` and `Info` and the goroutines of all the
  checks they start, stepping between one another under one budget of slots. Its runs refine those of **Serving**,
  so everything proved there holds of them.
- **RateLimit, Rdap, Stack** - the limiter as objects, tied to the history of reports; `Backoff` in wrapping
  64-bit arithmetic; the retry and fallback loops against the live limiter; and the program as wired together.
- **Bootstrap, BootstrapFile** - the refresh protocol for any number of concurrent callers, the registry object
  as one caller sees it, and the reading of the IANA file.
- **Text, DomainName, Expansion, Ranking, Sorting, Core** - Go's string functions, URL stripping and labels,
  the enumeration of candidates and its deduplication, the ranking, and sorting with a caller's order.

## What the proofs found

- **A negative retry count blinds the engine.** With `RDAP_RETRIES` below zero, which the configuration
  accepts, `query` returns an empty result and no error. The engine takes it for a conclusive answer: WHOIS is
  never asked, and no name is ever "available". This happens exactly when a base is reached that can be queried
  (`Rdap.ZeroRowExactly`, `Stack.NegativeRetriesSilenceWhois`).
- **More than 35 retries can take the process down.** `Backoff` wraps from attempt 35 on, and at exactly
  listed attempts it hands the random source a bound that is not positive, which panics
  (`RateLimit.BackoffPanics`). A query panics if and only if it backs off without a Retry-After hint at one of
  them (`Rdap.QueryPanicsExactly`): never with up to 35 retries, and with more of them already after 36
  transport failures in a row (`Rdap.ManyRetriesCanPanic`). Without hints it has slept at least 127.75s by then
  (`Rdap.PanicTakesTime`), so the request timeout must have been raised above its default of 10s as well, or the
  context ends the query first. The configuration bounds neither.
- **A failed DNS lookup can turn "unknown" into "available"**, in exactly one situation: RDAP settles nothing,
  WHOIS says "not registered", and DNS would have shown a delegation (`Resolver.LosingDnsFrees`).
- **WHOIS does not always decide "at lower confidence"**, as the comment on `resolve` has it: only its "not
  registered" does; its "registered" gets high confidence (`Resolver.WhoisDecidesSecond`). The code is followed.
- **One check per cache lifetime does not hold.** While an entry is fresh a second check of the name starts if
  and only if a caller that read the cache before the entry was put enters when none is in flight
  (`ServingTheorems.SecondCheckExactly`), and that happens with any providers
  (`ServingTheorems.EarlyReadStartsSecondCheck`). One check *in flight* per name does hold.
- **Without a scheme, text after "://" in a path or query replaces the host** (`DomainName.SchemelessOutcome`,
  `DomainName.HostReplaced`).
- **The branch "RDAP free, WHOIS registered" is dead** wherever RDAP stands before WHOIS in the chain
  (`Verdicts.RdapSilencesWhois`): a conclusive RDAP row keeps WHOIS from being asked. `Parse`'s last check, for an
  empty TLD, is dead as well (`DomainName.AcceptedExactly`).

## Model

| member | source | states |
|---|---|---|
| Resolver.Resolve | internal/engine/resolver.go:29-93 | The loop over the list, the in-place sort of the evidence and the decision compute `Reconcile`, which the exact statements below fix field by field |
| Resolver.VerdictExactly | internal/engine/resolver.go:51-92 | "unavailable" if and only if the last RDAP row says registered, or RDAP settles nothing and the last WHOIS row does, or neither settles and the last DNS row does; "available" if and only if the last RDAP row says not registered, or RDAP settles nothing, the last WHOIS row says so and DNS shows no delegation; "unknown" in all other cases |
| Resolver.StatusExactly | internal/engine/resolver.go:51-92 | The status in every case: the deciding row's own for a registered RDAP or WHOIS row, "registered" when DNS decides, "available" for a free name, else "rate limited" when WHOIS settles nothing and the last RDAP row was rate-limited, else "unknown" |
| Resolver.ConfidenceExactly | internal/engine/resolver.go:51-92 | High, medium and the conflict flag, each if and only if the stated combination of last rows holds; low otherwise |
| Resolver.EvidenceExactly | internal/engine/resolver.go:38-49 | The evidence holds every tag as often as the rows mention it, in ascending byte order by first difference |
| Resolver.LastOfIsLast | internal/engine/resolver.go:37-48 | The row a provider is judged by is its last one in the list, none exactly when it has none |
| Resolver.OrderDoesNotMatter | internal/engine/resolver.go:37-49 | Two arrangements of the same rows, one row per deciding provider, give the same verdict, status, confidence, conflict flag and evidence |
| Resolver.OrderMattersForRepeatedRows | internal/engine/resolver.go:40-47 | With two contradicting rows of one provider the arrangement can decide: without any such condition the statement above is false |
| Resolver.AvailableNeedsARegistry | internal/engine/resolver.go:53-92 | "available" only if RDAP or WHOIS reported "not registered" in so many words |
| Resolver.UnavailableNeedsARegistration | internal/engine/resolver.go:53-86 | "unavailable" is some source's "registered" and carries its status; medium confidence when only DNS says so |
| Resolver.RdapIsAuthoritative | internal/engine/resolver.go:53-69 | When RDAP answers, dropping WHOIS and DNS changes neither availability nor status; confidence falls to low exactly when they contradict a "not registered" |
| Resolver.WhoisDecidesSecond | internal/engine/resolver.go:71-82 | When RDAP settles nothing WHOIS decides, unless it says free against a delegation; high confidence exactly for its "registered" |
| Resolver.DnsNeverFrees | internal/engine/resolver.go:51-92 | What is "available" with the DNS rows is "available" without them |
| Resolver.LosingDnsFrees | internal/engine/resolver.go:71-82 | Losing the DNS rows makes a verdict "available" if and only if RDAP settles nothing, WHOIS says free and DNS shows a delegation |
| Checking.StepKeepsSlots | internal/engine/engine.go:213-233 | Every step of every goroutine keeps the occupied slots equal to the goroutines past the acquire, and within the maximum |
| Checking.StepKeepsRows | internal/engine/engine.go:139-194 | Every step keeps, per check and row, rows appended plus rows owed equal to the rows of the sequential reading |
| Checking.RunKeepsInv | internal/engine/engine.go:139-233 | The invariant holds along every run, and every step of a run uses up one of a bounded number of steps |
| Checking.SlotsAreConserved | internal/engine/engine.go:46-61 | In every state reachable from any plan of checks, occupied slots are the holders, at most the maximum, and a run has at most four steps per provider |
| Checking.NeverStuck | internal/engine/engine.go:213-233 | In every unfinished state some goroutine can step: a holder never waits for a second slot |
| Checking.EveryRunFinishes | internal/engine/engine.go:196-196 | From every reachable state a schedule leads to the end, where every slot has been returned |
| Checking.FinishedLists | internal/engine/engine.go:139-198 | However the goroutines interleave, each check's list ends as a permutation of its sequential reading, with all slots returned |
| Verdicts.VerdictIgnoresSchedule | internal/engine/engine.go:139-211 | With distinct provider names, every schedule gives the verdict of asking the providers one after the other |
| Verdicts.AvailableHasAWitness | internal/engine/engine.go:169-198 | An "available" verdict means a provider of that check answered "not registered" under the name RDAP or WHOIS |
| Verdicts.ChainInOrder | internal/engine/engine.go:169-194 | In the list of every run, the rows of the primary chain are one per supported provider, in order, up to and including the first conclusive one, whatever stands between them |
| Verdicts.StepKeepsChain | internal/engine/engine.go:169-194 | Every step of every goroutine keeps the chain's rows in the list, followed by those it owes, equal to the chain in order |
| Verdicts.SingleInfo | internal/engine/engine.go:118-125 | In the list of every run at most one source carries registration details |
| Verdicts.InfoIgnoresSchedule | internal/engine/engine.go:111-137 | `Info` gives the same details, the same bare "not registered" or the same error under every schedule; what it gives is fixed by the next rows |
| Verdicts.InfoExactly | internal/engine/engine.go:118-136 | For every list: the answer is details if and only if a row carries some, and then the first such row's; a bare "not registered" if and only if no row does and the verdict is "available"; an error with the verdict's status otherwise |
| Verdicts.InfoOfRun | internal/engine/engine.go:118-125 | In the list of a run, the answer is these details if and only if some row carries them |
| Verdicts.NoRegistrationHasAWitness | internal/engine/engine.go:127-135 | A bare "not registered" from `Info` means RDAP or WHOIS answered "not registered" in that check, and no source had details |
| Verdicts.RdapSilencesWhois | internal/engine/resolver.go:64-66 | Wherever RDAP stands before WHOIS in the chain, a conclusive RDAP row means no WHOIS row, so this branch is never reached |
| Caching.CacheRefinesHistory | internal/engine/cache.go:48-87 | After any gets, puts and purges in time order, a get at t hits exactly before the expiry of the newest stored put to the key, with that result marked cached |
| Caching.ServedWithinLifetime | internal/engine/cache.go:18-27 | What a reader is served was put under its key and is read strictly before the put plus the lifetime of its own availability, each of the three having its own |
| Caching.LatestIsNewest | internal/engine/cache.go:66-75 | The put a reader is served from is the newest one with a positive lifetime; a put without one leaves the older entry in place |
| Caching.RunsAgree | internal/engine/cache.go:48-87 | Along every run each entry is the newest stored put of its key, and a missing entry has expired: deletions cannot be observed |
| Caching.PurgeAgrees | internal/engine/cache.go:77-87 | A purge that read its clock before later puts ran still removes nothing that is alive |
| Caching.ResultCache.Get | internal/engine/cache.go:48-64 | Returns what the history of puts serves at that time, deletes an expired entry, changes nothing else |
| Caching.ResultCache.Put | internal/engine/cache.go:66-75 | Adds the put to the history; stores it if its availability has a positive lifetime, else leaves the entries as they are |
| Caching.ResultCache.Purge | internal/engine/cache.go:77-87 | Keeps exactly the entries not expired at the clock reading, and keeps the history |
| Serving.RunsKeepInv | internal/engine/engine.go:63-93 | The invariant of the `Check` protocol (group, flights, puts, cache, callers, leaders) holds along every run of any callers |
| Serving.KeepsCache | internal/engine/cache.go:48-87 | Every step of the protocol keeps the shared cache in agreement with the puts made so far |
| Serving.KeepsCallers | internal/engine/engine.go:78-92 | Every step keeps what is known of every caller: what it saw in the cache, which flight it entered and when, what it was answered |
| ServingTheorems.AvailableIsProven | internal/engine/engine.go:63-93 | In every reachable state an "available" answer traces to one check in which RDAP or WHOIS reported "not registered"; a cached one is served strictly within the Available lifetime of its put, a shared one was in flight when its caller entered |
| ServingTheorems.AnswersComeFromChecks | internal/engine/engine.go:78-92 | Every answer but a refusal is one finished check's, marked cached exactly for a hit, with the caller's spelling and payload choice |
| ServingTheorems.AnswersAreVerdicts | internal/engine/engine.go:198-210 | Every field of an answer: spelling, encoded name and its TLD from the caller's input; availability, status, confidence, evidence and conflict as its check's list reconciles; marked cached exactly for a hit |
| ServingTheorems.RefusedExactly | internal/engine/engine.go:65-76 | A caller is refused if and only if its input does not parse, and then with "unknown", low confidence and the one tag "input:invalid", no sources and not cached |
| ServingTheorems.HitsAreFresh | internal/engine/engine.go:78-81 | A hit is served from the newest put its read could see, strictly before that put's expiry |
| ServingTheorems.OneFlightPerName | internal/engine/engine.go:83-88 | At most one check started by `Check` is in flight per ASCII name |
| ServingTheorems.ChecksNeverExceedMisses | internal/engine/engine.go:78-88 | The checks started for a name never outnumber the cache misses on it |
| ServingTheorems.SharersAgree | internal/engine/engine.go:84-92 | Callers of one flight get equal answers up to their spelling and the payloads they did not ask for |
| ServingTheorems.PayloadsSurvive | internal/engine/engine.go:78-92 | A caller gets the list its check left, row for row: unchanged if it asked for payloads, and with each payload gone and every other field unchanged if it did not, whoever else read it stripped |
| ServingTheorems.SecondCheckExactly | internal/engine/engine.go:78-84 | While a put of a name is fresh, a caller entering `Do` read the cache before that put, and it starts a second check if and only if none of the name is in flight |
| ServingTheorems.EarlyReadStartsSecondCheck | internal/engine/engine.go:78-84 | For any two calls of the engine, a run in which the second check of a name starts after the first was put and while its entry is fresh |
| ServingTheorems.EveryCheckCanEnd | internal/engine/engine.go:196-196 | Every check, whatever its providers do, can be carried through to a list |
| ServingTheorems.NobodyIsStuck | internal/engine/engine.go:63-93 | While a caller has no answer, it or the flight it waits for has a step that brings it strictly closer to one, whatever call the engine would make for it |
| ServingTheorems.NobodySetsBack | internal/engine/engine.go:63-93 | No step of anyone takes a caller further from its answer |
| ServingTheorems.EveryCallerIsAnswered | internal/engine/engine.go:63-93 | From every reachable state, for any call the engine would make, a run of at most six steps that starts no other answers a given caller |
| Budget.OneBudget | internal/engine/engine.go:46-61 | Over every run of all callers of `Check` and `Info` and of all their checks, the occupied slots are the goroutines past the acquire, of whatever check, and at most the maximum |
| Budget.MoveKeepsInv | internal/engine/engine.go:139-233 | Every move of a caller or goroutine keeps the callers reachable in the `Check` protocol and the goroutines where some schedule of all calls takes them, late calls included |
| Budget.DoneIsLeft | internal/engine/engine.go:196-198 | When the goroutines of one call have returned, whatever the others do, its list is one that a complete run leaves |
| Budget.ReadyMayDecide | internal/engine/engine.go:196-210 | So a check may be decided on the list its own goroutines left, and the joint runs refine those of the protocol |
| Budget.CallersAreAnswered | internal/engine/engine.go:63-93 | From every state reached together, some run of everyone's moves answers a given caller, starting no check but one for it: nobody waits forever for a slot |
| Sharing.StripRaw | internal/engine/engine.go:238-249 | Returns a result over a fresh array: the same rows with their payloads if asked for, else each row with its payload gone and nothing else changed; writes nothing that existed before |
| Sharing.Engine.Lead | internal/engine/engine.go:84-88 | The leader's part: the put joins the history, and the shared array is recorded with all its payloads beside the earlier ones |
| Sharing.Engine.HandOut | internal/engine/engine.go:90-92 | The leader, each follower and each cache reader, at any later time, get an array of their own: the shared rows as they are, or each without its payload; no shared array changes |
| Sharing.Engine.Check | internal/engine/engine.go:78-92 | Over any calls, every shared array keeps all its payloads, and each answer has an array of its own: the rows as shared if payloads were asked for, else each row without its payload only |
| Sharing.Engine.Fly | internal/engine/engine.go:83-92 | All callers of one flight get, in pairwise distinct arrays, the rows as shared or each without its payload, as each asked; the array they share keeps its payloads |
| RateLimit.FailuresAreTheTrailingRun | internal/ratelimit/ratelimit.go:94-112 | After any reports about any hosts, a host's failure count is the length of its unbroken tail of failures |
| RateLimit.OpenUntilByLastReport | internal/ratelimit/ratelimit.go:103-112 | The circuit stays open until the host's last failure plus the open duration if the count reached the threshold, and is closed otherwise |
| RateLimit.BreakerCharacterised | internal/ratelimit/ratelimit.go:80-112 | A host is rejected at t if and only if its tail of failures reaches the threshold and t is before the last failure plus the open duration |
| RateLimit.RecordAffects | internal/ratelimit/ratelimit.go:94-112 | One more report changes the failure count and the circuit of its own host only |
| RateLimit.HostLimiter.constructor | internal/ratelimit/ratelimit.go:63-78 | A new limiter has no hosts, and its threshold and open duration are those given, or 5 and 30s for values that are not positive |
| RateLimit.HostLimiter.State | internal/ratelimit/ratelimit.go:114-123 | Returns the host's one state object, created on first use; no other entry changes |
| RateLimit.HostLimiter.Wait | internal/ratelimit/ratelimit.go:80-92 | Refuses with the circuit's end exactly while the history of reports has it open, else gives the token bucket's answer |
| RateLimit.HostLimiter.ReportSuccess | internal/ratelimit/ratelimit.go:94-101 | Adds a success to the history; the fields still match the history for every host, and no other host's object is touched |
| RateLimit.HostLimiter.ReportFailure | internal/ratelimit/ratelimit.go:103-112 | Adds a failure to the history, with the same guarantees |
| RateLimit.BackoffBounds | internal/ratelimit/ratelimit.go:125-136 | For attempts 0 to 34 no product overflows, the jitter bound is positive and the delay is in (0, 30s]; without a hint it is in [base/2, base) for base = min(500ms * 2^n, 8s) |
| RateLimit.HintIsHonoured | internal/ratelimit/ratelimit.go:127-130 | With a hint the delay is the hint, or 30s if the hint is longer, whatever the attempt and the draw |
| RateLimit.IdealBases | internal/ratelimit/ratelimit.go:131-132 | The bases are 0.5s, 1s, 2s and 4s, and 8s from attempt 4 on |
| RateLimit.JitterCovers | internal/ratelimit/ratelimit.go:133-135 | Every delay from half the base up to twice that half is given by some draw: together with the bounds, those delays and no others |
| RateLimit.BackoffPanics | internal/ratelimit/ratelimit.go:127-136 | For every attempt and hint, `Backoff` panics if and only if there is no hint and the attempt is one of those listed; from 63 on that depends on the platform's conversion |
| RateLimit.PlatformsLeaveNoRoom | internal/ratelimit/ratelimit.go:131-134 | With either conversion in use, to the least or the greatest int64, every attempt from 63 on is one of them |
| RateLimit.TotalSleepBounded | internal/ratelimit/ratelimit.go:127-136 | The delays of any number of retries add up to at most 30s each |
| RateLimit.UnhintedSleep | internal/ratelimit/ratelimit.go:131-135 | Without hints the delays of n retries add up to less than the closed-form sum of the bases, and to at least half of it while nothing wraps |
| Rdap.RunQuery | internal/provider/rdap/rdap.go:94-122 | The retry loop against the live limiter, backing off between attempts, has the specified result or panic and makes the specified report, on a limiter whose fields still match the history |
| Rdap.QueryStopsAt | internal/provider/rdap/rdap.go:102-121 | The loop stops at the first attempt that does not lead to a retry, and that attempt alone decides result or panic, number of requests and report |
| Rdap.BacksOffExactly | internal/provider/rdap/rdap.go:113-119 | Another attempt follows if and only if this one was admitted, is not the last, ended by a transport failure or throttling and the context is alive |
| Rdap.QueryEndsByResponse | internal/provider/rdap/rdap.go:138-170 | What each kind of response of the attempt a query ends at makes of it: the parsed row, the "not registered" row, or the error for that kind |
| Rdap.QueryPanicsExactly | internal/provider/rdap/rdap.go:113-119 | A query panics if and only if it reaches an attempt it wants to retry, without a hint, at a number where `Backoff` has no room |
| Rdap.FewRetriesNeverPanic | internal/provider/rdap/rdap.go:102-119 | Up to 35 retries no query panics |
| Rdap.ManyRetriesCanPanic | internal/provider/rdap/rdap.go:102-119 | With more, transport failures alone end in a panic after 36 requests, with neither result nor report |
| Rdap.QueryAccounting | internal/provider/rdap/rdap.go:94-122 | At most maxRetries + 1 requests; a query that panics makes no report; any other makes one success report if and only if the error is nil, one failure report if and only if a request's error ends the loop, none otherwise |
| Rdap.QuerySleepBounded | internal/provider/rdap/rdap.go:117-119 | A query sleeps at most 30s per retry, and without Retry-After hints less than the closed-form sum of the bases |
| Rdap.PanicTakesTime | internal/provider/rdap/rdap.go:117-119 | Without hints a query that panics has slept at least 127.75s before |
| Rdap.NegativeRetries | internal/provider/rdap/rdap.go:101-121 | A nil error without a report happens if and only if the retry count is negative and the base usable; the result is then the zero row |
| Rdap.FreeOnlyBy404 | internal/provider/rdap/rdap.go:138-170 | A query says "not registered" if and only if an attempt it reached was admitted and got a 404 (section 5.3 of RFC 7480) |
| Rdap.TakenOnlyBy200 | internal/provider/rdap/rdap.go:138-150 | A query says "registered" if and only if an attempt it reached was admitted and got a parsed 200 |
| Rdap.ThrottledExactly | internal/provider/rdap/rdap.go:113-165 | A query ends rate-limited if and only if its base is usable and it reaches an admitted attempt whose response is throttling and which is the last, or finds the context done |
| Rdap.Check | internal/provider/rdap/rdap.go:57-92 | The loop over bases has the specified result or panic, records exactly the bases it tried, the last being the one it ends at, each with the limiter's own answers after the reports made so far, and adds exactly the reports of those queries |
| Rdap.LookupEndsAt | internal/provider/rdap/rdap.go:67-91 | The first base that does not give way by failing with the context alive, or the last, alone decides the result or the panic |
| Rdap.LookupPanicsExactly | internal/provider/rdap/rdap.go:67-78 | A lookup panics if and only if the query of a tried base does |
| Rdap.FirstBaseWins | internal/provider/rdap/rdap.go:67-91 | At most bases * (maxRetries + 1) requests; the first base whose query succeeds gives the result; if none does there is an error, the rate-limited row or a panic |
| Rdap.LookupFreeOnlyBy404 | internal/provider/rdap/rdap.go:57-171 | A lookup says "not registered" if and only if a request of a tried base got a 404 |
| Rdap.LookupTakenOnlyBy200 | internal/provider/rdap/rdap.go:57-150 | A lookup says "registered" if and only if a request of a tried base got a parsed 200 |
| Rdap.LookupFails | internal/provider/rdap/rdap.go:91-91 | When the query of the base it ends at fails otherwise than by throttling, the lookup fails with that error |
| Rdap.RateLimitedExactly | internal/provider/rdap/rdap.go:80-91 | The rate-limited row arises if and only if the base the lookup ends at, the earlier ones having failed, has a usable URL and an admitted attempt answered with throttling that was the last or found the context done |
| Rdap.ZeroRowExactly | internal/provider/rdap/rdap.go:101-121 | A lookup returns a row that is neither a registration nor a denial, nor unknown, if and only if the retry count is negative and a tried base can be queried |
| Rdap.FailuresAreQueries | internal/provider/rdap/rdap.go:107-115 | A host's failure count is the number of failing queries since its last successful one, retries within a query not counted |
| Rdap.OpenCircuitNeedsFailedQueries | internal/provider/rdap/rdap.go:107-115 | A host's circuit is open only after at least the threshold of failing queries with no success in between |
| Stack.WiredRows | cmd/domain-lens-mcp/main.go:103-120 | As wired, with WHOIS and DNS on or off, `resolve` finds exactly each source's own row under every schedule, and WHOIS's only after an RDAP that was not conclusive |
| Stack.AvailableFromResponses | cmd/domain-lens-mcp/main.go:103-120 | As wired, under every schedule, "available" if and only if an RDAP request got a 404, or RDAP came to nothing, WHOIS reported no match and DNS showed no delegation; RDAP may be unsupported, never admitted or failing |
| Stack.UnavailableFromResponses | cmd/domain-lens-mcp/main.go:103-120 | As wired, under every schedule, "unavailable" if and only if an RDAP request got a parsed 200, or RDAP said nothing and WHOIS, asked after it, reported a registration, or neither settled and DNS showed a delegation |
| Stack.AvailableToCallers | internal/engine/engine.go:63-93 | In every reachable state of `Check` as wired, an "available" answer was served by a check for which that condition held |
| Stack.SuggestionsAreProven | internal/engine/suggest.go:56-101 | Every "available" among the results of `Suggest`, all of them when it filters, is a caller's answer to a checked candidate, served by such a check for that very name |
| Stack.WiredInfo | cmd/domain-lens-mcp/main.go:103-120 | As wired, only a conclusive answer of the chain carries registration details |
| Stack.DetailsAsWired | internal/engine/engine.go:118-125 | As wired, `Info` gives these details if and only if RDAP's answer carries them, or RDAP was not conclusive and WHOIS's answer does |
| Stack.InfoAsWired | internal/engine/engine.go:111-137 | As wired, `Info` answers the same under every schedule, from at most one source, and its bare "not registered" is proven by the same condition |
| Stack.BlindedExactly | cmd/domain-lens-mcp/main.go:103-109 | RDAP ends the chain without saying anything if and only if it is asked with a negative retry count and reaches a base that can be queried |
| Stack.NegativeRetriesSilenceWhois | cmd/domain-lens-mcp/main.go:103-109 | Exactly then the RDAP row in the list is conclusive and settles nothing; WHOIS leaves no row and the verdict is "unavailable" if DNS shows a delegation, else "unknown" |
| Bootstrap.RunsKeepInv | internal/provider/rdap/bootstrap.go:68-116 | The invariant of the refresh protocol (lock, fetches, times, map, answers) holds along every run of any callers |
| Bootstrap.KeepsTime | internal/provider/rdap/bootstrap.go:96-113 | Every step keeps the recorded time meaning "fresh until ttl after the last success, or a minute after the last failure" |
| Bootstrap.StaleExactly | internal/provider/rdap/bootstrap.go:84-88 | The registry is found stale if and only if it is due by the record of fetches: more than ttl after the last fetch ended if it succeeded or if there was none, more than a minute if it failed |
| Bootstrap.FetchesAreSpaced | internal/provider/rdap/bootstrap.go:90-116 | At most one fetch is in flight; the next begins strictly more than ttl after a success ended and strictly more than a minute after a failure ended |
| Bootstrap.DueGetsFetched | internal/provider/rdap/bootstrap.go:68-116 | A caller that finds the registry due with the lock free has it fetched; one that finds it not due reads without a fetch; a held lock is held by some caller |
| Bootstrap.NobodyWaits | internal/provider/rdap/bootstrap.go:66-93 | Every caller that has not returned has a step of its own that brings it closer to returning, whoever holds the lock |
| Bootstrap.ServesWholeMaps | internal/provider/rdap/bootstrap.go:68-75 | Every caller is served the first map or the whole map of the newest success among the fetches finished when it read |
| BootstrapFile.Registry.TryRefresh | internal/provider/rdap/bootstrap.go:90-116 | Nothing changes when the lock is held or the registry fresh; else a success replaces the map, a failure keeps it, and the moment of the next staleness is exact |
| BootstrapFile.Registry.BaseURLs | internal/provider/rdap/bootstrap.go:66-75 | Answers from one whole map, the new one exactly after a refresh that succeeded |
| BootstrapFile.HttpsFirstIsStablePartition | internal/provider/rdap/bootstrap.go:181-192 | The same URLs, every https one before every other, each group in its old order |
| BootstrapFile.SortHTTPSFirst | internal/provider/rdap/bootstrap.go:181-192 | The in-place rewrite leaves exactly that arrangement |
| BootstrapFile.ParseBootstrap | internal/provider/rdap/bootstrap.go:144-179 | Fails exactly on an unreadable file or one without services; else holds a TLD exactly when a usable entry lists it, with the cleaned URLs of the last such entry, https first |
| BootstrapFile.CleanURLsByEntry | internal/provider/rdap/bootstrap.go:158-165 | A listed URL is kept without the blanks around it and without one final slash; a blank one is dropped |
| BootstrapFile.TldKeyIs | internal/provider/rdap/bootstrap.go:171-175 | A listed TLD is entered in lower case without blanks around it; a blank one has no key |
| DomainName.StripInvertsAuthority | internal/domainname/name.go:127-142 | Taking apart userinfo, host, port and tail returns the host (section 3.2 of RFC 3986) |
| DomainName.LiteralKeepsItsPort | internal/domainname/name.go:137-140 | Text with a closing bracket and no delimiter keeps everything after its colons: a port is cut only where there is no bracket |
| DomainName.UrlRoundTrip | internal/domainname/name.go:127-142 | A URL of any colon-free scheme is stripped to exactly its host |
| DomainName.SchemelessOutcome | internal/domainname/name.go:127-142 | Without a scheme: the host, unless "://" occurs in the tail or is completed by an empty port, and then what is stripped from the text after it |
| DomainName.HostReplaced | internal/domainname/name.go:128-130 | Any host is replaced by any other that follows "/://" |
| DomainName.UrlParsesAsHost | internal/domainname/name.go:48-109 | Pasting a URL, with blanks around it or not, and typing its host give the same name or the same refusal |
| DomainName.FinalDotIgnored | internal/domainname/name.go:56-60 | The fully qualified spelling of a host, with its final dot, means the same name or the same refusal |
| DomainName.AcceptedExactly | internal/domainname/name.go:68-99 | A name is accepted if and only if it has at least two labels of 1 to 63 bytes within 253 in all and is not a public suffix; the last check never fires |
| DomainName.AcceptedParsesToItself | internal/domainname/name.go:48-109 | An accepted name means itself when it is parsed again, provided `idna` gives an encoded name back |
| DomainName.AcceptedNames | internal/domainname/name.go:86-108 | Every accepted name ends in its SLD, a dot and its public suffix, which the list gives for it; the SLD is one of its labels, and the input is kept |
| DomainName.AcceptedLabels | internal/domainname/name.go:68-108 | The TLD is the last label of the name and of its suffix; labels have 1 to 63 bytes and the name at most 253 (section 2.3.4 of RFC 1035) |
| DomainName.RegistrableByLabels | internal/domainname/name.go:33-37 | A name is registrable if and only if it has one label more than its public suffix |
| DomainName.TldSpellings | internal/domainname/name.go:112-123 | Blanks around a TLD, one leading dot and the case of its letters make no difference: ".COM" and "com" are one TLD, the lower-cased encoding of the lower-cased text |
| Text.IndexIsFirst | internal/domainname/name.go:128-128 | `strings.Index` as modelled finds the first occurrence, or none exactly when there is none |
| Text.LastIndexIsLast | internal/domainname/name.go:134-138 | `strings.LastIndex` as modelled finds the last occurrence, or none exactly when there is none |
| Text.LabelsJoin | internal/domainname/name.go:75-79 | The labels of two dot-joined texts are the labels of both, in order |
| Expansion.NormalizedLabels | internal/engine/suggest.go:211-217 | A normalized label has no dot, space, underscore or upper-case letter and no hyphen at either end |
| Expansion.CleanLabelsSurvive | internal/engine/suggest.go:211-217 | A label without excluded characters and outer hyphens, in any case and with blanks around it, normalizes to its lower case |
| Expansion.ReplaceByCharacter | internal/engine/suggest.go:213-216 | Character by character, spaces and dots vanish, an underscore becomes a hyphen and everything else stays |
| Expansion.Expander.Add | internal/engine/suggest.go:134-149 | Keeps the candidates equal to the first-occurrence deduplication of everything tried so far |
| Expansion.NormalizeTLDs | internal/engine/suggest.go:123-130 | Computes the distinct TLDs in order of first appearance |
| Expansion.DistinctTldsAreDistinct | internal/engine/suggest.go:123-130 | Those TLDs are pairwise different and exactly the ones the request names |
| Expansion.DistinctTldsExtend | internal/engine/suggest.go:123-130 | Naming more TLDs only appends to them, so a TLD keeps its rank |
| Expansion.TldHacks | internal/engine/suggest.go:188-203 | The loop computes the hacks of the base in the order of the TLDs |
| Expansion.HacksAreSplits | internal/engine/suggest.go:188-203 | The hacks are exactly the splits of the base into a head and one of the TLDs, the head non-empty and not ending in a hyphen, all with the same rank and no marks |
| Expansion.EnumerateHolds | internal/engine/suggest.go:151-184 | The enumeration holds exactly the variants of the names: base or glued affix under the TLD of its rank, hyphenated only on request, or a split |
| Expansion.AffixedInOrder | internal/engine/suggest.go:158-177 | Affixed variants follow the order of the affixes, each affix's plain variant before its hyphenated one, prefixes in front of the base and suffixes behind it |
| Expansion.PerTldInOrder | internal/engine/suggest.go:156-178 | Under one TLD: the base first, then all prefixed variants, then all suffixed ones |
| Expansion.HacksInOrder | internal/engine/suggest.go:188-203 | The splits of a base follow the order of the TLDs |
| Expansion.PerNameInOrder | internal/engine/suggest.go:151-184 | The variants of one name are in the order of their ranks, the base first within each TLD and the splits last |
| Expansion.Expand | internal/engine/suggest.go:121-186 | The nested loops with their `seen` set compute the first-occurrence deduplication of the pure enumeration |
| Expansion.FirstsAreDistinct | internal/engine/suggest.go:139-142 | Candidate domains are pairwise distinct and exactly those some accepted variant yields |
| Expansion.FirstsCarryFirstMarks | internal/engine/suggest.go:139-148 | A candidate carries the rank and marks of the first variant of its domain, better ones that follow notwithstanding |
| Expansion.FirstsExtend | internal/engine/suggest.go:139-148 | More variants only append candidates |
| Expansion.MoreNamesAppend | internal/engine/suggest.go:151-184 | Appending names to a request only appends candidates |
| Expansion.EnumerateCount | internal/engine/suggest.go:151-184 | The variants number at most names * TLDs * (2 + (1 + h) * affixes), h being 1 when hyphenating |
| Expansion.ExpansionIsSound | internal/engine/suggest.go:121-186 | The candidates have distinct domains, exactly those the enumeration yields, within the same bound |
| Expansion.CandidatesAreVariants | internal/engine/suggest.go:134-149 | Every candidate is a variant of one of the names that parses to a registrable name, with that variant's rank and marks |
| Ranking.LessIsTotal | internal/engine/suggest.go:103-119 | The five-key order is a strict total order on candidates with distinct domains |
| Ranking.LessByKeys | internal/engine/suggest.go:103-119 | What comes first, key by key: the smaller TLD rank, then a base name before an affixed one, then un-hyphenated, then shorter, then the smaller byte at the first difference |
| Ranking.RankingIsUnique | internal/engine/suggest.go:84-90 | An arrangement of the candidates is ascending if and only if it is the sorted one |
| Ranking.SortThrough | internal/engine/suggest.go:84-90 | Sorting an index array by the candidates behind it and reading through it is sorting the candidates |
| Ranking.CheckMany | internal/engine/engine.go:95-109 | In whatever order the goroutines finish, answer i is that of input i |
| Ranking.Suggest | internal/engine/suggest.go:56-101 | The pipeline returns the answers of the sorted, cut list of the kept candidates; `Generated`, `Checked` and `Truncated` count before and after the cut |
| Ranking.KeptIsFiltered | internal/engine/suggest.go:74-82 | The filter keeps exactly the candidates whose answer passes, still with distinct domains |
| Ranking.NothingDroppedOutranks | internal/engine/suggest.go:88-100 | What is returned is in strictly ascending rank, and nothing the limit drops outranks any of it |
| Ranking.ResultsAreRanked | internal/engine/suggest.go:84-119 | Of any two results of the pipeline, the earlier has the smaller TLD rank, or the same rank and, key by key, the preferred marks, length and bytes |
| Ranking.DroppedRanksLower | internal/engine/suggest.go:74-100 | A kept candidate missing from the results has no smaller TLD rank, and no preferred mark or shorter domain within its rank, than any result; this happens only when the limit is met |
| Ranking.LargerLimitExtends | internal/engine/suggest.go:56-101 | A larger limit in the request only extends the list of results |
| Ranking.ResultsAreChecked | internal/engine/suggest.go:72-99 | Every result is the answer to a candidate that was checked, and says "available" when filtered |
| Ranking.SuggestReturnsTheBest | internal/engine/suggest.go:56-101 | The whole pipeline returns the best-ranked of the kept candidates, best first, each with its own answer, all "available" when filtered |
| Ranking.CheckedIsAPrefix | internal/engine/suggest.go:61-66 | The candidates checked are the first ones generated, as many as the maximum allows and all when there is none |
| Sorting.AscendingIsUnique | internal/engine/resolver.go:49-49 | Two ascending arrangements of one multiset under a strict total order are the same sequence |
| Sorting.SortIgnoresOrder | internal/engine/resolver.go:49-49 | Sorting two arrangements of one multiset gives one sequence |

## Assumptions

- `idna` and the public suffix list are arbitrary functions; the label lemmas assume that a suffix is the name
  itself or a label-aligned tail of it (`DomainName.SomeNameIsAccepted` gives one such list).
- `DomainName.AcceptedParsesToItself`, and with it the name behind a suggestion, assumes of `idna` that it gives an
  encoded name back, without delimiters or outer blanks.
- A provider's answer is fixed per check and arbitrary; `Rdap` lemmas about "not registered" assume that a
  parsed 200 is a registration under RDAP's name, which is how internal/provider/rdap/parse.go:88-97 builds it.
- Schedule independence and the order of the chain assume distinct provider names and at most one row per name, which is what the wiring gives.
- `Stack.WiredInfo` assumes that WHOIS gives registration details only with a conclusive answer
  (internal/provider/whois/parse.go:62-83) and DNS never (internal/provider/dnsprobe/dnsprobe.go:46-70); for RDAP
  it is proved.
- The clock does not run backwards, except for a purge's reading.

## Left out

- HTTP, TCP port 43, DNS sockets and JSON: a request is an outcome (parsed 200, 404, throttled, transport failure, other), a decoded file a value.
- The text classification of WHOIS and RDAP bodies, their marker lists and date layouts: single branches, used through their outcomes.
- The token bucket of `golang.org/x/time/rate`: an arbitrary answer of `Wait` once the circuit lets a request through.
- What a panic in a check does to the other callers of the process: it is taken to end the process, so it has no row and no answer.
- Time-outs as durations: a context that ends is a provider outcome, a refused admission or a cut sleep.
- The insides of singleflight, errgroup and Go's sorts: their contracts are modelled.
- Unicode: lower-casing is ASCII only, the display form of a name and whether two passes of `normalizeLabel` agree are not modelled.
- The order of `Sources`, and the source and provider `Info` names for a bare "not registered": they depend on the schedule.
- The time stamp of an answer: it is carried along as given and not tied to the clock of the cache.
- Latencies, error texts, the publication date of the registry, logging, the MCP server, flags and the health endpoint.
- Checking.StepKeepsSlots: covers provider calls only, because `Supports` runs without a slot in the program too.
- ServingTheorems.OneFlightPerName: covers the checks `Check` starts; `Info` starts its own outside the group and the cache.
- Serving.RunsKeepInv: callers, flights and cache are values in a step relation rather than objects, because several goroutines share them; `Sharing.Engine.Check` and `Caching.ResultCache` show the arrays and the object one call at a time.
- Bootstrap.RunsKeepInv: a step relation for the same reason; `BootstrapFile.Registry` is the object, for one caller at a time.
- Rdap.RunQuery: no other goroutine reports to the limiter between two attempts of a query, and so for `Rdap.Check` between two bases; the lemmas about queries and lookups take arbitrary refusals and cover that case.
- RateLimit.HostLimiter.Wait: reading the circuit's end and reading the clock are one step.
- Rdap.QuerySleepBounded: a sleep cut short counts in full.
