# Health-claim verifier: verified model of the decision logic

This project models in Dafny the three pieces of sequential logic at the core of a
health-claim checker. A user submits a claim, or a photo of one, and gets
back a verdict card.

* **Server actions** (`src/lib/actions.ts`), in module `Actions`.
  - `handleClaimVerification` validates the form. The claim needs at least 10 characters and the language must be `en` or `hi`. It then calls the verification flow and builds the next form state: `result`, `error`, and the `formKey` counter the form watches.
  - `handleImageAnalysis` refuses an empty data URI. Otherwise it calls the image flow and turns its outcome into exactly one of `result` or `error`.
* **Image OCR flow** (`src/ai/flows/analyze-image-for-health-claim.ts`), in module `ImageAnalysis`.
  - Builds service-account credentials from two environment variables. In the private key, each literal backslash-n becomes a newline.
  - Refuses missing credentials.
  - Takes the base64 payload after the last `;base64,` of the data URI and refuses an empty payload.
  - Asks the OCR service for text detection and returns the trimmed first annotation, or a fixed fallback sentence.
  - Normalises any OCR failure to one message.
* **Result card** (`src/components/verification-result.tsx`), in module `VerificationResultView`.
  - The badge and description for each status.
  - The `||` fallback texts for the summary, tips and solution.
  - The sources list, with a separator after every item but the last.
  - The `isPlaying` state of the spoken result, as the class `AudioPlayback`.

Supporting modules:
- `Wrappers` holds `Option` and `Result`.
- `JsString` models the JavaScript string operations the core uses: `trim`, `replace(/\\n/g, '\n')`, `split(sep).pop()` and `||` on an optional string.
- `HealthClaimSchema` holds the flow's input and output shapes, following `src/ai/flows/verify-health-claim.ts:16-33`.

External calls are parameters of the functions that make them:
- the verification flow is `verify: VerifyHealthClaimInput -> VerifierOutcome`;
- the image flow, as the action sees it, is `analyze: string -> AnalyzerOutcome`;
- the OCR service is `textDetection: VisionRequest -> OcrOutcome`.

Each outcome datatype lists what one awaited call can produce: a value, a missing value, or a thrown `Error` (with its message) or other value. "Not called" is stated as independence: two different services give the same answer. The environment is an explicit `Environment` record of two optional strings.

The model follows the code as written, including these points:
- With no `;base64,` in the URI, the whole string is sent to OCR. "Invalid image data URI format." is raised only when the text after the last marker is empty, i.e. for an empty URI or one that ends with the marker.
- A validation failure clears `result` rather than keeping the previous one. It keeps `formKey`.
- `formKey` is read as `prevState.formKey ?? 0`, so the model allows for an unset counter (`Option<int>`).

## Model

| member | source | states |
|---|---|---|
| JsString.OrElse | src/components/verification-result.tsx:122-147 | `a \|\| fallback` is `a` when it is defined and non-empty, else the fallback; a non-empty fallback makes the result non-empty |
| JsString.TrimStart | src/ai/flows/analyze-image-for-health-claim.ts:71 | the result is a suffix of the input, everything cut off is white space, and it does not start with white space |
| JsString.TrimEnd | src/ai/flows/analyze-image-for-health-claim.ts:71 | the result is a prefix of the input, everything cut off is white space, and it does not end with white space |
| JsString.Trim | src/ai/flows/analyze-image-for-health-claim.ts:71 | the result is a contiguous slice of the input with only white space around it; a non-empty result neither starts nor ends with white space; it is empty exactly when the input is all white space |
| JsString.TrimSlice | src/ai/flows/analyze-image-for-health-claim.ts:71 | trimming the start and then the end leaves a slice with only white space on both sides, empty exactly when the input is all white space |
| JsString.TrimIdempotent | src/ai/flows/analyze-image-for-health-claim.ts:71 | trimming a trimmed string changes nothing |
| JsString.UnescapeNewlines | src/ai/flows/analyze-image-for-health-claim.ts:39 | the normalised key contains no backslash-n pair, is never longer than the input, and is empty exactly when the input is |
| JsString.NoEscapedNewlineCons | src/ai/flows/analyze-image-for-health-claim.ts:39 | putting a character in front of a string with no backslash-n pair creates none, unless it is a backslash and the string starts with n |
| JsString.UnescapeNewlinesIdentity | src/ai/flows/analyze-image-for-health-claim.ts:39 | a string with no backslash-n pair is left unchanged |
| JsString.UnescapeNewlinesIdempotent | src/ai/flows/analyze-image-for-health-claim.ts:39 | normalising twice gives the same result as normalising once |
| JsString.EscapeNewlines | src/ai/flows/analyze-image-for-health-claim.ts:39 | the one-line encoding of a multi-line key is never shorter than the key, and is empty exactly when the key is |
| JsString.UnescapeEscapeNewlines | src/ai/flows/analyze-image-for-health-claim.ts:39 | a key without a literal backslash-n is recovered exactly from its one-line form |
| JsString.IndexOf | src/ai/flows/analyze-image-for-health-claim.ts:55 | the returned position is the first occurrence of the separator at or after the start; none is returned only when there is no occurrence |
| JsString.Split | src/ai/flows/analyze-image-for-health-claim.ts:55 | a split always has at least one piece, so `pop()` never yields undefined |
| JsString.SplitFrom | src/ai/flows/analyze-image-for-health-claim.ts:55 | the split of a suffix always has at least one piece |
| JsString.SplitJoin | src/ai/flows/analyze-image-for-health-claim.ts:55 | joining the pieces with the separator gives the input back |
| JsString.SplitFromJoin | src/ai/flows/analyze-image-for-health-claim.ts:55 | the same for the split of any suffix |
| JsString.LastPieceStart | src/ai/flows/analyze-image-for-health-claim.ts:55 | the last piece starts at the scan start or right after an occurrence of the separator, and no occurrence begins at or after it |
| JsString.LastOfSplitFrom | src/ai/flows/analyze-image-for-health-claim.ts:55 | the last piece of the split is the suffix from LastPieceStart on |
| JsString.LastPiece | src/ai/flows/analyze-image-for-health-claim.ts:55 | `split(sep).pop()` is the suffix of the input after the last piece boundary |
| JsString.OccurrencesApart | src/ai/flows/analyze-image-for-health-claim.ts:55 | two occurrences of a separator whose first character is unique in it are at least a separator's length apart |
| JsString.LastOccurrenceFacts | src/ai/flows/analyze-image-for-health-claim.ts:55 | for such a separator, the last piece starts at 0 exactly when there is no occurrence, and otherwise right after the last one |
| JsString.EmptyLastPieceFacts | src/ai/flows/analyze-image-for-health-claim.ts:55-57 | for such a separator, the last piece is empty exactly when the input is empty or ends with the separator |
| JsString.LastPieceAfterLastOccurrence | src/ai/flows/analyze-image-for-health-claim.ts:55-57 | `split(sep).pop()` is the whole input when the separator is absent, otherwise what follows its last occurrence, and it is empty exactly when the input is empty or ends with the separator |
| HealthClaimSchema.ParseLanguage | src/lib/actions.ts:15 | a tag is accepted exactly when it is the tag of one of the two languages |
| HealthClaimSchema.ThrownMessage | src/lib/actions.ts:50 | an `Error` contributes its own message; any other thrown value gives "An unexpected error occurred." (the same reading is used at line 76) |
| ImageAnalysis.MarkerFirstCharUnique | src/ai/flows/analyze-image-for-health-claim.ts:55 | `;base64,` cannot overlap itself |
| ImageAnalysis.BuildCredentials | src/ai/flows/analyze-image-for-health-claim.ts:37-40 | the email is passed through; a set key becomes the variable with every backslash-n pair turned into a newline, so it contains no such pair and is non-empty exactly when the variable is; an unset key stays unset |
| ImageAnalysis.Base64Payload | src/ai/flows/analyze-image-for-health-claim.ts:55 | the payload is a suffix of the URI: the whole URI when `;base64,` is absent, otherwise the text after its last occurrence; it is empty exactly when the URI is empty or ends with the marker |
| ImageAnalysis.PrepareRequest | src/ai/flows/analyze-image-for-health-claim.ts:37-66 | missing credentials are refused first; with credentials, "Invalid image data URI format." is raised exactly for an empty payload; a request is built exactly when credentials are present and the payload is non-empty, and it goes to the EU endpoint for text detection with the email, the normalised key and the payload |
| ImageAnalysis.FirstDescription | src/ai/flows/analyze-image-for-health-claim.ts:71 | empty exactly when there are no annotations, the first has no description, or its description is all white space; otherwise the trimmed description |
| ImageAnalysis.ReadDetection | src/ai/flows/analyze-image-for-health-claim.ts:68-83 | any OCR failure becomes "Failed to analyze image with Google Cloud Vision."; without usable text the fallback sentence is returned; otherwise the trimmed first description; the text is never empty |
| ImageAnalysis.AnalyzeImageForHealthClaim | src/ai/flows/analyze-image-for-health-claim.ts:31-84 | the credentials error comes first; with credentials, the invalid-URI error is raised exactly when the URI is empty or ends with `;base64,`; otherwise the result is the OCR outcome, read as ReadDetection, for the request with the environment's email, the normalised key and the payload; only the three messages are thrown and returned text is never empty |
| ImageAnalysis.GuardPrecedesOcr | src/ai/flows/analyze-image-for-health-claim.ts:42-59 | when a guard fails the OCR service is not consulted: any two services give the same result |
| Actions.ClaimIssues | src/lib/actions.ts:14 | no issue exactly when the claim is a string of at least 10 characters; a shorter string gives exactly the length message |
| Actions.LanguageIssues | src/lib/actions.ts:15 | no issue exactly when the language is `en` or `hi`; at most one non-empty message otherwise |
| Actions.FirstMessage | src/lib/actions.ts:29-30 | the first field message, or "Invalid input." when there is none |
| Actions.ValidateClaimForm | src/lib/actions.ts:13-36 | success exactly when both fields are valid, carrying the claim and the language; the claim's message wins over the language's; the generic fallback message never appears |
| Actions.MessagesAreSpecific | src/lib/actions.ts:29-30 | no field message equals "Invalid input." |
| Actions.HandleClaimVerification | src/lib/actions.ts:18-57 | exactly one of result and error is set; a validation failure gives its message, clears the result and keeps formKey; an output with a verification result is stored with formKey = (prev ?? 0) + 1; no output or no verification result gives the "could not process" message; a thrown m gives "An unexpected error occurred: m. Please try again later."; formKey never decreases |
| Actions.InvalidClaimSkipsVerifier | src/lib/actions.ts:28-40 | invalid input never reaches the verifier: any two verifiers give the same next state |
| Actions.FormKeyCountsSuccesses | src/lib/actions.ts:28-56 | over any sequence of submissions, formKey grows by exactly the number that end with a result |
| Actions.HandleImageAnalysis | src/lib/actions.ts:64-79 | exactly one of result and error; an empty URI gives "No image data provided." without consulting the analyser; non-empty text is passed on unchanged; empty or missing text gives the "could not extract" message; a thrown m gives "Image analysis failed: m" |
| Actions.AnalyzeUploadedImage | src/lib/actions.ts:64-79 | wired to the real image flow: "No image data provided." exactly for an empty URI; otherwise the flow's text is the result when it succeeds and its message, prefixed with "Image analysis failed: ", is the error when it throws; "could not extract" never occurs, and the only errors are the empty-URI message and the three prefixed flow messages |
| Actions.AnalyzeWithFlow | src/lib/actions.ts:64-79 | the same for any analyser that on this URI behaves like the image flow: the empty-URI message exactly for an empty URI, the flow's output on success, its prefixed message on failure |
| Actions.PrefixedMessagesDiffer | src/lib/actions.ts:66-77 | the prefixed flow messages differ from both the "could not extract" message and the empty-URI message, and those two differ from each other |
| VerificationResultView.GetTruthfulnessInfo | src/components/verification-result.tsx:16-55 | "Verified Claim" gets the default green ShieldCheck badge and the supported-by-evidence description, "Debunked Myth" the destructive ShieldX badge and the contradicted-by-evidence description, "Unproven Claim" the secondary yellow AlertTriangle badge and the not-enough-evidence description; each badge is captioned with its status; every other value, absent included, gets the grey Not Applicable badge and description |
| VerificationResultView.BadgeNamesStatus | src/components/verification-result.tsx:16-55 | for each schema status the badge is labelled with its name, and different statuses get different badges and descriptions |
| VerificationResultView.DescriptionsDistinct | src/components/verification-result.tsx:25-52 | the four descriptions are pairwise distinct |
| VerificationResultView.RenderSources | src/components/verification-result.tsx:160-179 | an absent or empty list shows the fallback text; otherwise item i is keyed i and links to and shows source i, in source order, and has a separator after it exactly when it is not the last, which makes n - 1 separators |
| VerificationResultView.LinksOfItems | src/components/verification-result.tsx:162-172 | the items' links are the sources in order |
| VerificationResultView.SeparatorsBetween | src/components/verification-result.tsx:173 | a separator after every item but the last makes n - 1 separators |
| VerificationResultView.RenderResult | src/components/verification-result.tsx:57-181 | the badge names the status; the headline is the non-empty summary or the status description; tips and solution are shown as given or as "No information provided."; no text block is empty; the play button shows exactly when audio is available and pulses while playing |
| VerificationResultView.AudioPlayback.constructor | src/components/verification-result.tsx:63-93 | `isPlaying` starts false, and the listeners are attached exactly when an audio element exists at mount |
| VerificationResultView.AudioPlayback.Toggle | src/components/verification-result.tsx:66-74 | pause when playing, play when not, nothing without an element |
| VerificationResultView.AudioPlayback.Dispatch | src/components/verification-result.tsx:79-85 | with listeners attached, `play` sets `isPlaying` and `pause` or `ended` clears it; without listeners nothing changes |
| VerificationResultView.AudioPlayback.Rerender | src/components/verification-result.tsx:76-116 | the element exists exactly when audio is available; withdrawing the audio removes the element, which loses the listeners for good and clears `isPlaying`; an element mounted again has no listeners since the effect does not run again; otherwise `isPlaying` is kept |
| VerificationResultView.AudioPlayback.Click | src/components/verification-result.tsx:66-85 | a click answered by the element flips `isPlaying` when listening, and never sets it without listeners |

## Left out

- The verification flow itself (the generative-model prompt, its search tool and the Genkit schema enforcement) is not part of this model. It is the parameter `verify`, and its output may lack `verificationResult`, as an unchecked `output!` allows.
- The OCR client: its construction and the network call are the parameter `textDetection`. An empty response array, where `const [result]` would be undefined and reading it would throw inside the `try`, is folded into `OcrFailed`. A failure of the client constructor, which happens outside the `try`, is not modelled.
- zod is not part of this model. The messages for a non-string field and for a bad enum value follow zod 3's default wording. The claim-length message is the one the source sets.
- ClaimIssues: the 10-character minimum counts Dafny characters, which are Unicode scalar values, while zod counts UTF-16 code units; a character outside the Basic Multilingual Plane counts once here but twice in the source, so a claim of 5 to 9 such characters is refused here and accepted there.
- HandleClaimVerification: `formKey` is an unbounded integer, so JavaScript number precision past 2^53 is not modelled.
- Logging (`console.error`), toasts, styling classes other than the badge's, icons apart from their identity, and the reset button are not modelled.
- AudioPlayback: the promise returned by `play()` and its possible rejection are not modelled, and neither is the removal of listeners on unmount. An event is assumed to answer each command. A change of `src` on an element that stays rendered (which restarts loading) is modelled as keeping `isPlaying`.
- The speech-recognition hook, the pages and the other UI components, the search tool, `src/ai/dev.ts` and `src/lib/types.ts` are not part of this model.
