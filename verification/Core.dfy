/** Small wrapper types shared by every module. */
module Basics {
  datatype Option<+T> = None | Some(value: T)

  datatype Result<+T, +E> = Ok(value: T) | Err(error: E)
}

/** The vocabulary shared by providers, the resolver and the engine (internal/core/result.go). */
module Core {
  import opened Basics

  datatype Availability = Available | Unavailable | Unknown

  datatype Status =
    | StatusAvailable
    | StatusRegistered
    | StatusReserved
    | StatusPremium
    | StatusBlocked
    | StatusPendingDelete
    | StatusRedemption
    | StatusRateLimited
    | StatusUnknown
    | StatusOther(text: string)

  datatype Confidence = High | Medium | Low

  /** What one source reports. The program keeps this as a free string, so a value
      outside its three constants (the empty string of a zero result, say) is possible. */
  datatype Registration =
    | Registered
    | NotRegistered
    | RegistrationUnknown
    | RegistrationOther(text: string)

  datatype ProviderResult = ProviderResult(
    provider: string,
    registration: Registration,
    status: Status,
    evidence: seq<string>,
    source: string,
    error: string,
    raw: Option<string>,
    info: Option<string>)

  /** The engine's answer. `S` is how the list of sources is held: a `seq` where
      only its contents matter, an `array` where sharing matters. */
  datatype CheckResult<+S> = CheckResult(
    domain: string,
    normalizedDomain: string,
    tld: string,
    availability: Availability,
    status: Status,
    confidence: Confidence,
    evidence: seq<string>,
    conflict: bool,
    sources: S,
    checkedAt: int,
    cached: bool,
    error: string)

  const RDAP := "rdap"
  const WHOIS := "whois"
  const DNS := "dns"

  /** A provider-scoped evidence tag such as "rdap:query_failed". */
  function EvidenceTag(provider: string, tag: string): string {
    provider + ":" + tag
  }
}
