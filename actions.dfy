/** The two server actions: claim verification, a transition from the previous
    form state to the next one, and image analysis. The awaited flows are
    function parameters; a flow that is never consulted cannot affect the
    result. */
module Actions {
  import opened Wrappers
  import opened JsString
  import opened HealthClaimSchema
  import opened ImageAnalysis

  const ClaimTooShort := "Please enter a health claim with at least 10 characters."
  const InvalidInput := "Invalid input."
  const CouldNotProcess := "The AI could not process the claim. Please try again."
  const NoImageData := "No image data provided."
  const CouldNotExtract := "Could not extract text from the image. Please try a clearer image."
  const MinClaimLength := 10

  // ---------------------------------------------------------------------------
  // Form input and its validation

  /** What `formData.get(name)` returns: no entry (null), a text value, or an
      uploaded file. */
  datatype FormEntry = Missing | Text(text: string) | FileEntry

  datatype ClaimForm = ClaimForm(claim: FormEntry, language: FormEntry)

  /** The name zod gives to the type of a value that is not a string. */
  function ReceivedType(e: FormEntry): string
    requires !e.Text?
  {
    if e.Missing? then "null" else "object"
  }

  predicate ClaimFieldValid(e: FormEntry) {
    e.Text? && |e.text| >= MinClaimLength
  }

  predicate LanguageFieldValid(e: FormEntry) {
    e.Text? && ParseLanguage(e.text).Some?
  }

  /** The issues of `z.string().min(10, …)` for the claim field. The message
      for a value that is not a string is zod's default. */
  function ClaimIssues(e: FormEntry): (issues: seq<string>)
    ensures issues == [] <==> ClaimFieldValid(e)
    ensures e.Text? && |e.text| < MinClaimLength ==> issues == [ClaimTooShort]
    ensures forall m :: m in issues ==> m != ""
  {
    match e
    case Text(s) => if |s| < MinClaimLength then [ClaimTooShort] else []
    case _ => ["Expected string, received " + ReceivedType(e)]
  }

  /** The issues of `z.enum(['en', 'hi'])` for the language field, with zod's
      default messages. */
  function LanguageIssues(e: FormEntry): (issues: seq<string>)
    ensures issues == [] <==> LanguageFieldValid(e)
    ensures |issues| <= 1 && forall m :: m in issues ==> m != ""
  {
    match e
    case Text(s) =>
      if ParseLanguage(s).Some? then []
      else ["Invalid enum value. Expected 'en' | 'hi', received '" + s + "'"]
    case _ => ["Expected 'en' | 'hi', received " + ReceivedType(e)]
  }

  /** `Object.values(fieldErrors).flat()[0] || 'Invalid input.'`: the first
      message, fields taken in schema order. */
  function FirstMessage(messages: seq<string>): (m: string)
    ensures messages != [] && messages[0] != "" ==> m == messages[0]
    ensures messages == [] || messages[0] == "" ==> m == InvalidInput
  {
    if messages != [] && messages[0] != "" then messages[0] else InvalidInput
  }

  /** `claimSchema.safeParse`: the validated input, or the message of the first
      failing field. The claim is checked before the language, so its message
      wins when both fail; the generic fallback message never appears. */
  function ValidateClaimForm(form: ClaimForm): (r: Result<VerifyHealthClaimInput, string>)
    ensures r.Success? <==> ClaimFieldValid(form.claim) && LanguageFieldValid(form.language)
    ensures r.Success? ==>
              && r.value.claim == form.claim.text
              && |r.value.claim| >= MinClaimLength
              && LanguageTag(r.value.language) == form.language.text
    ensures form.claim.Text? && |form.claim.text| < MinClaimLength ==> r == Failure(ClaimTooShort)
    ensures !ClaimFieldValid(form.claim) ==> r == Failure(ClaimIssues(form.claim)[0])
    ensures ClaimFieldValid(form.claim) && !LanguageFieldValid(form.language) ==>
              r == Failure(LanguageIssues(form.language)[0])
    ensures r.Failure? ==> r.error != InvalidInput && r.error != ""
  {
    var issues := ClaimIssues(form.claim) + LanguageIssues(form.language);
    if issues == [] then
      Success(VerifyHealthClaimInput(form.claim.text, ParseLanguage(form.language.text).value))
    else
      var m := FirstMessage(issues);
      assert issues[0] in issues;
      assert m == issues[0];
      MessagesAreSpecific(form);
      Failure(m)
  }

  /** None of the field messages is the generic fallback. */
  lemma MessagesAreSpecific(form: ClaimForm)
    ensures forall m :: m in ClaimIssues(form.claim) + LanguageIssues(form.language) ==> m != InvalidInput
  {
    var issues := ClaimIssues(form.claim) + LanguageIssues(form.language);
    forall m | m in issues
      ensures |m| > |InvalidInput|
    {
    }
  }

  // ---------------------------------------------------------------------------
  // handleClaimVerification

  /** The form state: last result, last error, and the counter the form watches
      to know when to clear its input. The field is declared a number but read
      as `prevState.formKey ?? 0`, so an unset counter is allowed for. */
  datatype ClaimVerificationState = ClaimVerificationState(
    result: Option<VerifyHealthClaimOutput>,
    error: Option<string>,
    formKey: Option<int>)

  function FormKeyValue(s: ClaimVerificationState): int {
    s.formKey.GetOr(0)
  }

  /** `An unexpected error occurred: ${m}. Please try again later.` */
  function UnexpectedError(m: string): string {
    "An unexpected error occurred: " + m + ". Please try again later."
  }

  /** One submission of the claim form. `verify` is the verification flow; it is
      called with the validated claim and language, and only when validation
      succeeds. Exactly one of `result` and `error` is set afterwards. */
  function HandleClaimVerification(prev: ClaimVerificationState, form: ClaimForm,
                                   verify: VerifyHealthClaimInput -> VerifierOutcome)
    : (next: ClaimVerificationState)
    ensures next.result.Some? != next.error.Some?
    // validation failure: field message, result cleared, counter kept
    ensures ValidateClaimForm(form).Failure? ==>
              next == ClaimVerificationState(None, Some(ValidateClaimForm(form).error), prev.formKey)
    ensures form.claim.Text? && |form.claim.text| < MinClaimLength ==>
              next == ClaimVerificationState(None, Some(ClaimTooShort), prev.formKey)
    // the three outcomes of the flow
    ensures ValidateClaimForm(form).Success? ==>
              match verify(ValidateClaimForm(form).value)
              case VerifierReturned(Some(out)) =>
                if out.verificationResult.Some? then
                  next == ClaimVerificationState(Some(out), None, Some(FormKeyValue(prev) + 1))
                else
                  next == ClaimVerificationState(None, Some(CouldNotProcess), prev.formKey)
              case VerifierReturned(None) =>
                next == ClaimVerificationState(None, Some(CouldNotProcess), prev.formKey)
              case VerifierThrew(t) =>
                next == ClaimVerificationState(None, Some(UnexpectedError(ThrownMessage(t))), prev.formKey)
    // the counter moves up by one on success and stays put otherwise
    ensures next.result.Some? ==> next.formKey == Some(FormKeyValue(prev) + 1)
    ensures next.result.None? ==> next.formKey == prev.formKey
    ensures FormKeyValue(next) >= FormKeyValue(prev)
    ensures next.result.Some? ==> next.result.value.verificationResult.Some?
  {
    match ValidateClaimForm(form)
    case Failure(message) => prev.(error := Some(message), result := None)
    case Success(input) =>
      match verify(input)
      case VerifierThrew(t) =>
        prev.(error := Some(UnexpectedError(ThrownMessage(t))), result := None)
      case VerifierReturned(output) =>
        if output.None? || output.value.verificationResult.None? then
          prev.(error := Some(CouldNotProcess), result := None)
        else
          ClaimVerificationState(output, None, Some(FormKeyValue(prev) + 1))
  }

  /** Invalid input never reaches the verification flow: any two flows give
      the same next state. */
  lemma InvalidClaimSkipsVerifier(prev: ClaimVerificationState, form: ClaimForm,
                                  f: VerifyHealthClaimInput -> VerifierOutcome,
                                  g: VerifyHealthClaimInput -> VerifierOutcome)
    requires !ClaimFieldValid(form.claim) || !LanguageFieldValid(form.language)
    ensures HandleClaimVerification(prev, form, f) == HandleClaimVerification(prev, form, g)
  {
  }

  /** The counter is monotone over any sequence of submissions, and it grows by
      exactly the number of successful ones. */
  function Submissions(start: ClaimVerificationState, forms: seq<ClaimForm>,
                       verify: VerifyHealthClaimInput -> VerifierOutcome): (s: ClaimVerificationState)
    decreases |forms|
  {
    if forms == [] then start
    else HandleClaimVerification(Submissions(start, forms[..|forms| - 1], verify), forms[|forms| - 1], verify)
  }

  /** The number of submissions in `forms` that end with a result. */
  function Successes(start: ClaimVerificationState, forms: seq<ClaimForm>,
                     verify: VerifyHealthClaimInput -> VerifierOutcome): nat
    decreases |forms|
  {
    if forms == [] then 0
    else
      var before := Submissions(start, forms[..|forms| - 1], verify);
      Successes(start, forms[..|forms| - 1], verify)
        + (if HandleClaimVerification(before, forms[|forms| - 1], verify).result.Some? then 1 else 0)
  }

  lemma {:induction false} FormKeyCountsSuccesses(start: ClaimVerificationState, forms: seq<ClaimForm>,
                                                  verify: VerifyHealthClaimInput -> VerifierOutcome)
    ensures FormKeyValue(Submissions(start, forms, verify))
            == FormKeyValue(start) + Successes(start, forms, verify)
    decreases |forms|
  {
    if forms != [] {
      FormKeyCountsSuccesses(start, forms[..|forms| - 1], verify);
    }
  }

  // ---------------------------------------------------------------------------
  // handleImageAnalysis

  /** What one awaited call of the image flow produces. */
  datatype AnalyzerOutcome =
    | AnalyzerReturned(output: Option<AnalyzeImageOutput>)
    | AnalyzerThrew(thrown: Thrown)

  datatype ImageAnalysisState = ImageAnalysisState(result: Option<AnalyzeImageOutput>, error: Option<string>)

  /** handleImageAnalysis: an empty URI is refused without calling `analyze`;
      otherwise a result with non-empty text is passed on and everything else
      becomes an error. Exactly one of `result` and `error` is set. */
  function HandleImageAnalysis(imageDataUri: string, analyze: string -> AnalyzerOutcome): (r: ImageAnalysisState)
    ensures r.result.Some? != r.error.Some?
    ensures imageDataUri == "" ==> r == ImageAnalysisState(None, Some(NoImageData))
    ensures r.result.Some? ==> r.result.value.extractedText != ""
                               && analyze(imageDataUri) == AnalyzerReturned(r.result)
    ensures imageDataUri != "" ==>
              match analyze(imageDataUri)
              case AnalyzerReturned(out) =>
                out.Some? && out.value.extractedText != "" ==> r.result == out
              case AnalyzerThrew(t) =>
                r.error == Some("Image analysis failed: " + ThrownMessage(t))
    ensures imageDataUri != "" && analyze(imageDataUri).AnalyzerReturned?
            && !(analyze(imageDataUri).output.Some? && analyze(imageDataUri).output.value.extractedText != "") ==>
              r.error == Some(CouldNotExtract)
  {
    if imageDataUri == "" then
      ImageAnalysisState(None, Some(NoImageData))
    else
      match analyze(imageDataUri)
      case AnalyzerThrew(t) => ImageAnalysisState(None, Some("Image analysis failed: " + ThrownMessage(t)))
      case AnalyzerReturned(output) =>
        if output.None? || output.value.extractedText == "" then
          ImageAnalysisState(None, Some(CouldNotExtract))
        else
          ImageAnalysisState(output, None)
  }

  /** The image flow as the action sees it: a returned value, or the `Error`
      it threw. */
  function AsAnalyzerOutcome(r: Result<AnalyzeImageOutput, string>): AnalyzerOutcome {
    match r
    case Success(out) => AnalyzerReturned(Some(out))
    case Failure(m) => AnalyzerThrew(ErrorThrown(m))
  }

  /** The action wired to the real image flow. Since that flow never returns
      empty text, "could not extract" is never reported; the errors are the
      empty-URI message or one of the flow's three messages, prefixed. */
  function AnalyzeUploadedImage(imageDataUri: string, env: Environment,
                                textDetection: VisionRequest -> OcrOutcome): (r: ImageAnalysisState)
    ensures r.error != Some(CouldNotExtract)
    ensures r.error.Some? ==>
              r.error.value in {NoImageData,
                                "Image analysis failed: " + CredentialsMissing,
                                "Image analysis failed: " + InvalidDataUri,
                                "Image analysis failed: " + VisionFailed}
    ensures imageDataUri != "" && !CredentialsPresent(env) ==>
              r.error == Some("Image analysis failed: " + CredentialsMissing)
    ensures r.result.Some? ==>
              AnalyzeImageForHealthClaim(imageDataUri, env, textDetection) == Success(r.result.value)
    ensures r.error == Some(NoImageData) <==> imageDataUri == ""
    ensures imageDataUri != "" ==>
              match AnalyzeImageForHealthClaim(imageDataUri, env, textDetection)
              case Success(out) => r.result == Some(out)
              case Failure(m) => r.error == Some("Image analysis failed: " + m)
  {
    var analyze := (uri: string) => AsAnalyzerOutcome(AnalyzeImageForHealthClaim(uri, env, textDetection));
    var flow := AnalyzeImageForHealthClaim(imageDataUri, env, textDetection);
    AnalyzeWithFlow(imageDataUri, flow, analyze);
    HandleImageAnalysis(imageDataUri, analyze)
  }

  /** handleImageAnalysis over an analyser that behaves like the image flow
      on this URI: it throws one of the flow's messages or returns text. */
  lemma AnalyzeWithFlow(uri: string, flow: Result<AnalyzeImageOutput, string>, analyze: string -> AnalyzerOutcome)
    requires analyze(uri) == AsAnalyzerOutcome(flow)
    requires flow.Failure? ==> flow.error in {CredentialsMissing, InvalidDataUri, VisionFailed}
    requires flow.Success? ==> flow.value.extractedText != ""
    ensures var r := HandleImageAnalysis(uri, analyze);
            && r.error != Some(CouldNotExtract)
            && (r.error.Some? ==>
                  r.error.value in {NoImageData,
                                    "Image analysis failed: " + CredentialsMissing,
                                    "Image analysis failed: " + InvalidDataUri,
                                    "Image analysis failed: " + VisionFailed})
            && (uri != "" && flow.Failure? ==> r.error == Some("Image analysis failed: " + flow.error))
            && (uri != "" && flow.Success? ==> r.result == Some(flow.value))
            && (r.error == Some(NoImageData) <==> uri == "")
            && (r.result.Some? ==> flow == Success(r.result.value))
  {
    PrefixedMessagesDiffer();
  }

  /** The prefixed messages differ from the "could not extract" message and
      from the empty-URI message, and those two differ from each other. */
  lemma PrefixedMessagesDiffer()
    ensures forall m :: m in {CredentialsMissing, InvalidDataUri, VisionFailed}
                        ==> "Image analysis failed: " + m != CouldNotExtract
    ensures forall m :: m in {CredentialsMissing, InvalidDataUri, VisionFailed}
                        ==> "Image analysis failed: " + m != NoImageData
    ensures NoImageData != CouldNotExtract
  {
    forall m | m in {CredentialsMissing, InvalidDataUri, VisionFailed}
      ensures "Image analysis failed: " + m != CouldNotExtract
      ensures "Image analysis failed: " + m != NoImageData
    {
      assert |"Image analysis failed: " + m| != |CouldNotExtract|;
      assert |"Image analysis failed: " + m| > |NoImageData|;
    }
  }
}
