/** The input and output shapes of the claim-verification flow. The flow itself
    (a generative-model prompt with a search tool) is not modelled; the handler
    that calls it sees only one of the outcomes below. The module also holds
    how the handlers read a thrown value (`Thrown`, `ThrownMessage`), which both
    server actions share. */
module HealthClaimSchema {
  import opened Wrappers

  /** The two accepted language tags of a claim. */
  datatype Language = En | Hi

  function LanguageTag(l: Language): string {
    match l
    case En => "en"
    case Hi => "hi"
  }

  /** The language whose tag is `tag`, if any: the `z.enum(['en', 'hi'])` check. */
  function ParseLanguage(tag: string): (r: Option<Language>)
    ensures r.Some? ==> LanguageTag(r.value) == tag
    ensures r.None? ==> forall l: Language :: LanguageTag(l) != tag
  {
    if tag == "en" then Some(En) else if tag == "hi" then Some(Hi) else None
  }

  /** The flow's input: the claim text and its language. */
  datatype VerifyHealthClaimInput = VerifyHealthClaimInput(claim: string, language: Language)

  /** The four-way classification of a claim. */
  datatype Status = VerifiedClaim | UnprovenClaim | DebunkedMyth | NotApplicable

  function StatusName(s: Status): string {
    match s
    case VerifiedClaim => "Verified Claim"
    case UnprovenClaim => "Unproven Claim"
    case DebunkedMyth => "Debunked Myth"
    case NotApplicable => "Not Applicable"
  }

  /** A verdict: the status, optional one-sentence summary, tips and solution,
      and an optional ordered list of source URLs. */
  datatype VerificationResult = VerificationResult(
    status: Status,
    truthfulness: Option<string>,
    tips: Option<string>,
    solution: Option<string>,
    sources: Option<seq<string>>)

  /** What the flow returns. The schema requires `verificationResult`, but an
      unchecked `output!` can still hand back an object without it, which the
      handler tests for; so it is optional here. */
  datatype VerifyHealthClaimOutput = VerifyHealthClaimOutput(verificationResult: Option<VerificationResult>)

  /** A value thrown by an awaited call: an `Error` with its message, or
      anything else. */
  datatype Thrown = ErrorThrown(message: string) | OtherThrown

  /** `error instanceof Error ? error.message : 'An unexpected error occurred.'` */
  function ThrownMessage(t: Thrown): (m: string)
    ensures t.ErrorThrown? ==> m == t.message
    ensures t.OtherThrown? ==> m == "An unexpected error occurred."
  {
    match t
    case ErrorThrown(msg) => msg
    case OtherThrown => "An unexpected error occurred."
  }

  /** What one awaited call of the verification flow produces: a (possibly
      missing) output object, or a thrown value. */
  datatype VerifierOutcome =
    | VerifierReturned(output: Option<VerifyHealthClaimOutput>)
    | VerifierThrew(thrown: Thrown)
}
