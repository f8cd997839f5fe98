/** The result card: which badge and description a status gets, the fallback
    texts, how sources are laid out, and the play/pause state of the spoken
    result. */
module VerificationResultView {
  import opened Wrappers
  import opened JsString
  import opened HealthClaimSchema

  const FallbackText := "No information provided."
  const VerifiedDescription := "This claim is supported by scientific evidence from trusted sources."
  const DebunkedDescription := "This claim is contradicted by scientific evidence and may be harmful."
  const UnprovenDescription := "There is not enough scientific evidence to support or refute this claim."
  const NotApplicableDescription := "The provided text was not recognized as a verifiable health claim."

  // ---------------------------------------------------------------------------
  // getTruthfulnessInfo

  datatype BadgeVariant = Default | Destructive | Secondary
  datatype Icon = ShieldCheck | ShieldX | AlertTriangle | ShieldQuestion

  datatype Badge = Badge(variant: BadgeVariant, className: string, icon: Icon, caption: string)

  datatype TruthfulnessInfo = TruthfulnessInfo(badge: Badge, description: string)

  const VerifiedInfo := TruthfulnessInfo(
    Badge(Default, "bg-green-600 hover:bg-green-700 text-white", ShieldCheck, "Verified Claim"),
    VerifiedDescription)

  const DebunkedInfo := TruthfulnessInfo(Badge(Destructive, "", ShieldX, "Debunked Myth"), DebunkedDescription)

  const UnprovenInfo := TruthfulnessInfo(
    Badge(Secondary, "bg-yellow-500 hover:bg-yellow-600 text-white", AlertTriangle, "Unproven Claim"),
    UnprovenDescription)

  const NotApplicableInfo := TruthfulnessInfo(
    Badge(Secondary, "bg-gray-500 hover:bg-gray-600 text-white", ShieldQuestion, "Not Applicable"),
    NotApplicableDescription)

  /** The three statuses the card singles out; every other value, including
      "Not Applicable" and an absent status, takes the default branch. */
  predicate SinglesOut(status: Option<string>) {
    status.Some? && status.value in {"Verified Claim", "Debunked Myth", "Unproven Claim"}
  }

  /** getTruthfulnessInfo: a singled-out status gets a badge labelled with that
      status; anything else gets the "Not Applicable" badge and description. */
  function GetTruthfulnessInfo(status: Option<string>): (info: TruthfulnessInfo)
    ensures status == Some("Verified Claim") ==> info == VerifiedInfo
    ensures status == Some("Debunked Myth") ==> info == DebunkedInfo
    ensures status == Some("Unproven Claim") ==> info == UnprovenInfo
    ensures SinglesOut(status) ==> info.badge.caption == status.value
    ensures !SinglesOut(status) ==> info == NotApplicableInfo
    ensures info.description != ""
    ensures info.badge.caption in {"Verified Claim", "Debunked Myth", "Unproven Claim", "Not Applicable"}
  {
    if status == Some("Verified Claim") then VerifiedInfo
    else if status == Some("Debunked Myth") then DebunkedInfo
    else if status == Some("Unproven Claim") then UnprovenInfo
    else NotApplicableInfo
  }

  /** For every status the schema allows, the badge is labelled with the
      status's own name, and different statuses get different badges and
      descriptions. */
  lemma BadgeNamesStatus(a: Status, b: Status)
    ensures GetTruthfulnessInfo(Some(StatusName(a))).badge.caption == StatusName(a)
    ensures a != b ==> GetTruthfulnessInfo(Some(StatusName(a))).badge != GetTruthfulnessInfo(Some(StatusName(b))).badge
    ensures a != b ==> GetTruthfulnessInfo(Some(StatusName(a))).description
                       != GetTruthfulnessInfo(Some(StatusName(b))).description
  {
    DescriptionsDistinct();
  }

  lemma DescriptionsDistinct()
    ensures |{VerifiedDescription, DebunkedDescription, UnprovenDescription, NotApplicableDescription}| == 4
  {
    assert |VerifiedDescription| == 68 && |DebunkedDescription| == 69;
    assert |UnprovenDescription| == 72 && |NotApplicableDescription| == 66;
  }

  // ---------------------------------------------------------------------------
  // Sources

  /** One list item: the link (its target and its text) and whether a
      separator follows it. */
  datatype SourceItem = SourceItem(key: nat, href: string, text: string, separatorAfter: bool)

  datatype SourcesView = SourcesFallback(text: string) | SourceList(items: seq<SourceItem>)

  /** The sources card: the fallback text for an absent or empty list, else one
      item per source, in order, each item but the last followed by a
      separator. */
  function RenderSources(sources: Option<seq<string>>): (v: SourcesView)
    ensures v.SourcesFallback? <==> sources.None? || sources.value == []
    ensures v.SourcesFallback? ==> v.text == FallbackText
    ensures v.SourceList? ==>
              && |v.items| == |sources.value|
              && Links(v.items) == sources.value
              && SeparatorCount(v.items) == |sources.value| - 1
              && forall i :: 0 <= i < |v.items| ==>
                   && v.items[i].key == i
                   && v.items[i].href == sources.value[i]
                   && v.items[i].text == sources.value[i]
                   && (v.items[i].separatorAfter <==> i < |v.items| - 1)
  {
    if sources.None? || sources.value == [] then
      SourcesFallback(FallbackText)
    else
      var list := sources.value;
      var items := seq(|list|, i requires 0 <= i < |list| => SourceItem(i, list[i], list[i], i < |list| - 1));
      LinksOfItems(items, list);
      SeparatorsBetween(items);
      SourceList(items)
  }

  /** The link targets of the items, in order. */
  function Links(items: seq<SourceItem>): seq<string> {
    if items == [] then [] else [items[0].href] + Links(items[1..])
  }

  /** How many items are followed by a separator. */
  function SeparatorCount(items: seq<SourceItem>): nat {
    if items == [] then 0 else (if items[0].separatorAfter then 1 else 0) + SeparatorCount(items[1..])
  }

  lemma {:induction false} LinksOfItems(items: seq<SourceItem>, list: seq<string>)
    requires |items| == |list|
    requires forall i :: 0 <= i < |items| ==> items[i].href == list[i] && items[i].text == list[i]
    ensures Links(items) == list
  {
    if items != [] {
      LinksOfItems(items[1..], list[1..]);
    }
  }

  /** A separator after every item but the last makes n - 1 separators. */
  lemma {:induction false} SeparatorsBetween(items: seq<SourceItem>)
    requires items != []
    requires forall i :: 0 <= i < |items| ==> items[i].separatorAfter == (i < |items| - 1)
    ensures SeparatorCount(items) == |items| - 1
  {
    if |items| > 1 {
      SeparatorsBetween(items[1..]);
    }
  }

  // ---------------------------------------------------------------------------
  // The card as a whole

  datatype AudioControl = PlayButton(pulsing: bool) | LoadingSpinner

  datatype ResultCard = ResultCard(
    badge: Badge,
    audio: AudioControl,
    headline: string,
    tips: string,
    solution: string,
    sources: SourcesView)

  /** The rendered card. The headline is the one-sentence summary, or the status
      description when there is none; tips and solution are shown as given, or
      as the fallback text. No text block is ever empty, and every non-empty
      field is shown verbatim. The play button appears when audio is available
      and pulses while it plays; otherwise a spinner is shown. */
  function RenderResult(result: VerificationResult, audioDataUri: Option<string>, isPlaying: bool): (card: ResultCard)
    ensures card.badge == GetTruthfulnessInfo(Some(StatusName(result.status))).badge
    ensures card.badge.caption == StatusName(result.status)
    ensures card.headline != "" && card.tips != "" && card.solution != ""
    ensures Truthy(result.truthfulness) ==> card.headline == result.truthfulness.value
    ensures !Truthy(result.truthfulness) ==>
              card.headline == GetTruthfulnessInfo(Some(StatusName(result.status))).description
    ensures card.tips == (if Truthy(result.tips) then result.tips.value else FallbackText)
    ensures card.solution == (if Truthy(result.solution) then result.solution.value else FallbackText)
    ensures card.sources == RenderSources(result.sources)
    ensures card.audio.PlayButton? <==> Truthy(audioDataUri)
    ensures card.audio.PlayButton? ==> card.audio.pulsing == isPlaying
  {
    var info := GetTruthfulnessInfo(Some(StatusName(result.status)));
    BadgeNamesStatus(result.status, result.status);
    ResultCard(
      info.badge,
      if Truthy(audioDataUri) then PlayButton(isPlaying) else LoadingSpinner,
      OrElse(result.truthfulness, info.description),
      OrElse(result.tips, FallbackText),
      OrElse(result.solution, FallbackText),
      RenderSources(result.sources))
  }

  // ---------------------------------------------------------------------------
  // Audio playback state

  /** What the play button asks of the audio element. */
  datatype AudioCommand = Play | Pause

  /** What the audio element reports back. */
  datatype MediaEvent = PlayEvent | PauseEvent | EndedEvent

  /** The event the element fires once it carries out a command. */
  function EventFor(c: AudioCommand): MediaEvent {
    match c
    case Play => PlayEvent
    case Pause => PauseEvent
  }

  /** The `isPlaying` state of the card and the audio element it controls.
      The listeners are attached once, after the first render, to the element
      rendered then, if any. An element rendered later, after the audio was
      withdrawn and came back, is a new element without listeners. */
  class AudioPlayback {
    /** The React state `isPlaying`. */
    var isPlaying: bool
    /** Whether `audioRef.current` is set (an audio element is rendered). */
    var elementPresent: bool
    /** Whether the rendered element is the one the listeners were attached to. */
    var listening: bool

    /** Listeners live on a rendered element, and without them nothing can
        set `isPlaying`. */
    ghost predicate Valid()
      reads this
    {
      && (listening ==> elementPresent)
      && (!listening ==> !isPlaying)
    }

    /** First render and mount effect: `isPlaying` starts false, the element
        exists exactly when audio is available, and the listeners are attached
        exactly when it exists. */
    constructor (audioDataUri: Option<string>)
      ensures Valid()
      ensures !isPlaying
      ensures elementPresent == Truthy(audioDataUri)
      ensures listening == elementPresent
    {
      isPlaying := false;
      elementPresent := Truthy(audioDataUri);
      listening := Truthy(audioDataUri);
    }

    /** toggleAudio: pause when playing, play otherwise, nothing without an
        element. It does not itself change `isPlaying`. */
    method Toggle() returns (command: Option<AudioCommand>)
      requires Valid()
      ensures command.None? <==> !elementPresent
      ensures command == Some(Pause) <==> elementPresent && isPlaying
      ensures command == Some(Play) <==> elementPresent && !isPlaying
    {
      if elementPresent {
        if isPlaying {
          command := Some(Pause);
        } else {
          command := Some(Play);
        }
      } else {
        command := None;
      }
    }

    /** A media event: `play` sets `isPlaying`, `pause` and `ended` clear it,
        provided the listeners are attached. */
    method Dispatch(e: MediaEvent)
      requires Valid()
      modifies this`isPlaying
      ensures Valid()
      ensures listening ==> isPlaying == (e == PlayEvent)
      ensures !listening ==> isPlaying == old(isPlaying)
    {
      if listening {
        isPlaying := e == PlayEvent;
      }
    }

    /** A later render. With audio the element stays (or a new one without
        listeners is mounted); without audio the element is removed, which
        pauses it, so its `pause` listener clears `isPlaying`. The effect does
        not run again, so an element mounted later never gets listeners. */
    method Rerender(audioDataUri: Option<string>)
      requires Valid()
      modifies this`elementPresent, this`listening, this`isPlaying
      ensures Valid()
      ensures elementPresent == Truthy(audioDataUri)
      ensures listening == (old(listening) && Truthy(audioDataUri))
      ensures isPlaying == (old(isPlaying) && Truthy(audioDataUri))
    {
      if !Truthy(audioDataUri) {
        isPlaying := false;
        listening := false;
      }
      elementPresent := Truthy(audioDataUri);
    }

    /** A click on the play button followed by the element's answer: with
        listeners and an element the state flips; without listeners it stays
        false. */
    method Click()
      requires Valid()
      modifies this`isPlaying
      ensures Valid()
      ensures listening && elementPresent ==> isPlaying == !old(isPlaying)
      ensures !elementPresent ==> isPlaying == old(isPlaying)
      ensures !listening ==> !isPlaying
    {
      var command := Toggle();
      if command.Some? {
        Dispatch(EventFor(command.value));
      }
    }
  }
}
