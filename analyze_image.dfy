/** The image-OCR flow: builds service-account credentials from the
    environment, takes the base64 payload out of the image data URI, asks the
    OCR service for text detection, and returns the trimmed first text
    annotation or a fixed fallback sentence. A thrown `Error` is a `Failure`
    carrying its message. */
module ImageAnalysis {
  import opened Wrappers
  import opened JsString

  const CredentialsMissing := "Google Cloud service account credentials (GOOGLE_CLIENT_EMAIL, GOOGLE_PRIVATE_KEY) are not set in environment variables."
  const InvalidDataUri := "Invalid image data URI format."
  const NoTextFallback := "No text could be extracted from the image. Please try a clearer image."
  const VisionFailed := "Failed to analyze image with Google Cloud Vision."
  const ApiEndpoint := "eu-vision.googleapis.com"
  const TextDetection := "TEXT_DETECTION"
  const Base64Marker := ";base64,"

  /** The two environment variables the flow reads, each possibly unset. */
  datatype Environment = Environment(googleClientEmail: Option<string>, googlePrivateKey: Option<string>)

  /** The credentials object handed to the OCR client. */
  datatype Credentials = Credentials(clientEmail: Option<string>, privateKey: Option<string>)

  /** What is sent to the OCR service: the client's endpoint and credentials,
      the image content and the requested feature. */
  datatype VisionRequest = VisionRequest(
    apiEndpoint: string,
    clientEmail: string,
    privateKey: string,
    content: string,
    feature: string)

  datatype TextAnnotation = TextAnnotation(description: Option<string>)

  /** One awaited text-detection call: it fails (any rejection, or an empty
      response array), or it returns a possibly missing list of annotations. */
  datatype OcrOutcome = OcrFailed | OcrResponse(textAnnotations: Option<seq<TextAnnotation>>)

  datatype AnalyzeImageOutput = AnalyzeImageOutput(extractedText: string)

  /** The private key with every literal backslash-n turned into a newline; an
      unset variable stays unset, and a key is empty after exactly when it
      was empty before. */
  function BuildCredentials(env: Environment): (c: Credentials)
    ensures c.clientEmail == env.googleClientEmail
    ensures c.privateKey.Some? <==> env.googlePrivateKey.Some?
    ensures c.privateKey.Some? ==> !HasEscapedNewline(c.privateKey.value)
    ensures Truthy(c.privateKey) <==> Truthy(env.googlePrivateKey)
    ensures env.googlePrivateKey.Some? ==> c.privateKey == Some(UnescapeNewlines(env.googlePrivateKey.value))
  {
    Credentials(
      env.googleClientEmail,
      match env.googlePrivateKey
      case None => None
      case Some(k) => Some(UnescapeNewlines(k)))
  }

  /** Both credential fields are set and non-empty. */
  predicate CredentialsPresent(env: Environment) {
    Truthy(env.googleClientEmail) && Truthy(env.googlePrivateKey)
  }

  predicate EndsWithMarker(s: string) {
    EndsWith(s, Base64Marker)
  }

  /** `;base64,` cannot overlap itself. */
  lemma MarkerFirstCharUnique()
    ensures FirstCharUnique(Base64Marker)
  {
  }

  /** `imageDataUri.split(';base64,').pop()`: the text after the LAST
      `;base64,`, or the whole string when there is none. It is empty exactly
      when the URI is empty or ends with the marker. */
  function Base64Payload(uri: string): (p: string)
    ensures |p| <= |uri| && p == uri[|uri| - |p|..]
    ensures !Contains(uri, Base64Marker) ==> p == uri
    ensures Contains(uri, Base64Marker) ==>
              && OccursAt(uri, Base64Marker, |uri| - |p| - |Base64Marker|)
              && forall k :: OccursAt(uri, Base64Marker, k) ==> k <= |uri| - |p| - |Base64Marker|
    ensures p == "" <==> uri == "" || EndsWithMarker(uri)
  {
    MarkerFirstCharUnique();
    LastPieceAfterLastOccurrence(uri, Base64Marker);
    LastPiece(uri, Base64Marker)
  }

  /** The OCR request, or the error thrown before any call: missing
      credentials first, then an empty payload. */
  function PrepareRequest(uri: string, env: Environment): (r: Result<VisionRequest, string>)
    ensures !CredentialsPresent(env) ==> r == Failure(CredentialsMissing)
    ensures CredentialsPresent(env) ==>
              (r == Failure(InvalidDataUri) <==> uri == "" || EndsWithMarker(uri))
    ensures r.Failure? ==> r.error == CredentialsMissing || r.error == InvalidDataUri
    ensures r.Success? <==> CredentialsPresent(env) && !(uri == "" || EndsWithMarker(uri))
    ensures r.Success? ==>
              && r.value.apiEndpoint == ApiEndpoint
              && r.value.feature == TextDetection
              && Some(r.value.clientEmail) == env.googleClientEmail
              && env.googlePrivateKey.Some?
              && r.value.privateKey == UnescapeNewlines(env.googlePrivateKey.value)
              && r.value.content == Base64Payload(uri) && r.value.content != ""
  {
    var credentials := BuildCredentials(env);
    if !Truthy(credentials.clientEmail) || !Truthy(credentials.privateKey) then
      Failure(CredentialsMissing)
    else
      var payload := Base64Payload(uri);
      if payload == "" then
        Failure(InvalidDataUri)
      else
        Success(VisionRequest(ApiEndpoint, credentials.clientEmail.value,
                              credentials.privateKey.value, payload, TextDetection))
  }

  /** `detections?.[0]?.description?.trim() || ''` */
  function FirstDescription(annotations: Option<seq<TextAnnotation>>): (d: string)
    ensures d == "" <==>
              || annotations.None? || annotations.value == []
              || annotations.value[0].description.None?
              || Blank(annotations.value[0].description.value, 0, |annotations.value[0].description.value|)
    ensures d != "" ==> d == Trim(annotations.value[0].description.value)
  {
    match annotations
    case None => ""
    case Some(list) =>
      if list == [] then ""
      else match list[0].description
        case None => ""
        case Some(text) => Trim(text)
  }

  /** The result of the text-detection call: a failure is normalised to one
      fixed message, no usable text gives the fallback sentence, otherwise the
      trimmed first description, which is never empty and never starts or
      ends with white space. */
  function ReadDetection(outcome: OcrOutcome): (r: Result<AnalyzeImageOutput, string>)
    ensures outcome.OcrFailed? <==> r == Failure(VisionFailed)
    ensures r.Failure? ==> outcome.OcrFailed?
    ensures r.Success? ==>
              var text := r.value.extractedText;
              && text != ""
              && (text == NoTextFallback <==> FirstDescription(outcome.textAnnotations) in {"", NoTextFallback})
              && (text != NoTextFallback ==>
                    text == FirstDescription(outcome.textAnnotations)
                    && !IsTrimmable(text[0]) && !IsTrimmable(text[|text| - 1]))
  {
    match outcome
    case OcrFailed => Failure(VisionFailed)
    case OcrResponse(annotations) =>
      var extracted := FirstDescription(annotations);
      if extracted == "" then
        Success(AnalyzeImageOutput(NoTextFallback))
      else
        Success(AnalyzeImageOutput(extracted))
  }

  /** analyzeImageForHealthClaim: the OCR call `textDetection` is consulted
      only with the prepared request, and only once credentials and payload
      have passed their checks. */
  function AnalyzeImageForHealthClaim(uri: string, env: Environment, textDetection: VisionRequest -> OcrOutcome)
    : (r: Result<AnalyzeImageOutput, string>)
    ensures !CredentialsPresent(env) ==> r == Failure(CredentialsMissing)
    ensures CredentialsPresent(env) && (uri == "" || EndsWithMarker(uri)) ==> r == Failure(InvalidDataUri)
    ensures r.Failure? ==> r.error in {CredentialsMissing, InvalidDataUri, VisionFailed}
    ensures r == Failure(InvalidDataUri) ==> CredentialsPresent(env) && (uri == "" || EndsWithMarker(uri))
    ensures r.Success? ==> r.value.extractedText != ""
    ensures CredentialsPresent(env) && !(uri == "" || EndsWithMarker(uri)) ==>
              r == ReadDetection(textDetection(VisionRequest(
                     ApiEndpoint, env.googleClientEmail.value, UnescapeNewlines(env.googlePrivateKey.value),
                     Base64Payload(uri), TextDetection)))
  {
    match PrepareRequest(uri, env)
    case Failure(e) => Failure(e)
    case Success(request) => ReadDetection(textDetection(request))
  }

  /** A failed guard answers without the OCR service: any two services give
      the same result. */
  lemma GuardPrecedesOcr(uri: string, env: Environment, f: VisionRequest -> OcrOutcome, g: VisionRequest -> OcrOutcome)
    requires !CredentialsPresent(env) || uri == "" || EndsWithMarker(uri)
    ensures AnalyzeImageForHealthClaim(uri, env, f) == AnalyzeImageForHealthClaim(uri, env, g)
  {
  }
}
