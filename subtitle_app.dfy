/**
 * The `App` component of src/App.js: its four state cells, the submit
 * handler that updates them around the request to the subtitle backend,
 * and the two places where the view derives something from the state (the
 * embedded player and the timestamps of the subtitle cards).
 *
 * The request is not modelled: its result is an `Outcome` given to the
 * handler when it resumes.
 */
module SubtitleApp {
  import opened Options
  import opened TimeFormat
  import opened VideoId
  import VideoIdExamples

  /** One segment of the backend's response, with whole seconds. */
  datatype Segment = Segment(start: nat, end: nat, original: string, translated: string)

  /** The state cells `url`, `subtitles`, `loading` and `error`. */
  datatype View = View(url: string, subtitles: seq<Segment>, loading: bool, error: string)

  /** How the POST to the backend settled: the response body, or any thrown error. */
  datatype Outcome = Success(data: seq<Segment>) | Failure

  const FailureMessage := "Something went wrong. Please check the URL or try again."

  /** The initial values of the four `useState` calls. */
  const Initial := View("", [], false, "")

  /** `setUrl` from the input field's `onChange`. */
  function Edit(v: View, text: string): (w: View)
    ensures w.url == text
    ensures w.subtitles == v.subtitles && w.loading == v.loading && w.error == v.error
  {
    v.(url := text)
  }

  /** The handler up to the request: `setLoading(true)` and `setError('')`. */
  function Start(v: View): (w: View)
    ensures w.loading && w.error == ""
    ensures w.url == v.url && w.subtitles == v.subtitles
  {
    v.(loading := true, error := "")
  }

  /**
   * The handler after the request: on success the response data become the
   * subtitles; on failure the fixed message is shown and the subtitles are
   * cleared; in both cases `finally` turns loading off.
   */
  function Complete(v: View, outcome: Outcome): (w: View)
    ensures !w.loading && w.url == v.url
    ensures outcome.Success? ==> w.subtitles == outcome.data && w.error == v.error
    ensures outcome.Failure? ==> w.subtitles == [] && w.error == FailureMessage
  {
    match outcome
    case Success(data) => v.(subtitles := data, loading := false)
    case Failure => v.(subtitles := [], loading := false, error := FailureMessage)
  }

  /**
   * One whole run of the handler, nothing else happening while the request
   * is pending: loading is off again, the error shows exactly when the
   * request failed, and the subtitles are the response or nothing.
   */
  lemma HandleSubmitEffect(v: View, outcome: Outcome)
    ensures var w := Complete(Start(v), outcome);
      && !w.loading && w.url == v.url
      && (w.error == "" <==> outcome.Success?)
      && (w.error != "" ==> w.error == FailureMessage)
      && w.subtitles == (if outcome.Success? then outcome.data else [])
  {
  }

  //
  // Runs of the component as sequences of events.
  //

  /**
   * What can happen to the component: the user types into the field, clicks
   * the button (the handler runs up to the request), or a pending request
   * settles (the handler resumes).
   */
  datatype Event = Typed(text: string) | Clicked | Settled(outcome: Outcome)

  function Apply(v: View, e: Event): View {
    match e
    case Typed(text) => Edit(v, text)
    case Clicked => Start(v)
    case Settled(outcome) => Complete(v, outcome)
  }

  /** The state after a run from the initial state. */
  function Replay(events: seq<Event>): View {
    if events == [] then Initial
    else Apply(Replay(events[..|events| - 1]), events[|events| - 1])
  }

  /** The number of requests sent and not yet settled. */
  function Pending(events: seq<Event>): int {
    if events == [] then 0
    else
      var before := Pending(events[..|events| - 1]);
      match events[|events| - 1]
      case Typed(_) => before
      case Clicked => before + 1
      case Settled(_) => before - 1
  }

  /**
   * A run where the user clicks only while no request is pending, and each
   * request settles before the next click.
   */
  predicate OneAtATime(events: seq<Event>) {
    events == [] ||
    (OneAtATime(events[..|events| - 1]) &&
     match events[|events| - 1]
     case Typed(_) => true
     case Clicked => Pending(events[..|events| - 1]) == 0
     case Settled(_) => Pending(events[..|events| - 1]) == 1)
  }

  /**
   * What holds of the state between events: loading shows exactly while a
   * request is pending, the error is empty or the fixed message, and the
   * message never shows beside subtitles or while loading.
   */
  predicate Consistent(v: View, pending: int) {
    && v.loading == (pending == 1)
    && (v.error == "" || v.error == FailureMessage)
    && (v.error != "" ==> v.subtitles == [] && !v.loading)
  }

  lemma {:induction false} OneAtATimeConsistent(events: seq<Event>)
    requires OneAtATime(events)
    ensures 0 <= Pending(events) <= 1
    ensures Consistent(Replay(events), Pending(events))
  {
    if events != [] {
      OneAtATimeConsistent(events[..|events| - 1]);
    }
  }

  /**
   * Clicking again while a request is pending breaks that: here the second
   * request is still pending when loading goes off, and a failure followed
   * by a success leaves the error message beside subtitles.
   */
  lemma OverlappingSubmits(seg: Segment)
    ensures var events := [Clicked, Clicked, Settled(Success([seg]))];
      Pending(events) == 1 && !Replay(events).loading
    ensures var w := Replay([Clicked, Clicked, Settled(Failure), Settled(Success([seg]))]);
      w.error == FailureMessage && w.subtitles == [seg]
  {
    var e1 := [Clicked, Clicked, Settled(Success([seg]))];
    assert e1[..2] == [Clicked, Clicked] && e1[..2][..1] == [Clicked];
    assert [Clicked][..0] == [];
    assert Pending([Clicked]) == 1;
    assert Pending(e1[..2]) == 2;
    assert Pending(e1) == 1;
    var e2 := [Clicked, Clicked, Settled(Failure), Settled(Success([seg]))];
    assert e2[..3] == [Clicked, Clicked, Settled(Failure)];
    assert e2[..3][..2] == [Clicked, Clicked] && e2[..3][..2][..1] == [Clicked];
  }

  //
  // What the view derives from the state.
  //

  const EmbedPrefix := "https://www.youtube.com/embed/"

  /** JavaScript truthiness of `extractVideoId`'s result: null and "" are falsy. */
  predicate Truthy(v: Option<string>) {
    v.Some? && v.value != ""
  }

  /** `videoId && <iframe src=...>`: the player's address, when the player is shown. */
  function EmbedSrc(url: string): (r: Option<string>)
    ensures r.Some? <==> ExtractVideoId(url).Some?
    ensures r.Some? ==> r.value == EmbedPrefix + ExtractVideoId(url).value
  {
    var videoId := ExtractVideoId(url);
    if Truthy(videoId) then Some(EmbedPrefix + videoId.value) else None
  }

  /** The player is shown exactly when some position of the address matches the pattern. */
  lemma EmbedShownIffMatch(url: string)
    ensures EmbedSrc(url).Some? <==> exists i :: 0 <= i <= |url| && MatchesAt(url, i)
  {
    ExtractVideoIdNone(url);
  }

  /** A short link embeds the video it names. */
  lemma EmbedShortLink(id: string)
    requires id != [] && '&' !in id
    ensures EmbedSrc(VideoIdExamples.ShortPage + id) == Some(EmbedPrefix + id)
  {
    VideoIdExamples.ShortLink(id);
  }

  /** The text of one subtitle card: its two timestamps and its two texts. */
  datatype Card = Card(from: string, to: string, original: string, translated: string)

  function CardOf(seg: Segment): (c: Card)
    ensures ParseTime(c.from) == Some(seg.start) && ParseTime(c.to) == Some(seg.end)
    ensures c.original == seg.original && c.translated == seg.translated
  {
    Card(FormatTime(seg.start), FormatTime(seg.end), seg.original, seg.translated)
  }

  /** `subtitles.map(...)`: one card per segment, in order, whose timestamps read back as the segment's. */
  function Cards(subtitles: seq<Segment>): (cards: seq<Card>)
    ensures |cards| == |subtitles|
    ensures forall k :: 0 <= k < |cards| ==>
      ParseTime(cards[k].from) == Some(subtitles[k].start)
      && ParseTime(cards[k].to) == Some(subtitles[k].end)
      && cards[k].original == subtitles[k].original
      && cards[k].translated == subtitles[k].translated
  {
    seq(|subtitles|, k requires 0 <= k < |subtitles| => CardOf(subtitles[k]))
  }

  /** A card whose timestamps read back as a segment's times and whose texts are its texts is that segment's card. */
  lemma CardOfUnique(seg: Segment, c: Card)
    requires ParseTime(c.from) == Some(seg.start) && ParseTime(c.to) == Some(seg.end)
    requires c.original == seg.original && c.translated == seg.translated
    ensures c == CardOf(seg)
  {
    ParseTimeFormat(c.from, seg.start);
    ParseTimeFormat(c.to, seg.end);
  }

  /** The contract of Cards determines the cards: any list meeting it is the rendered one. */
  lemma CardsUnique(subtitles: seq<Segment>, cards: seq<Card>)
    requires |cards| == |subtitles|
    requires forall k :: 0 <= k < |cards| ==>
      ParseTime(cards[k].from) == Some(subtitles[k].start)
      && ParseTime(cards[k].to) == Some(subtitles[k].end)
      && cards[k].original == subtitles[k].original
      && cards[k].translated == subtitles[k].translated
    ensures cards == Cards(subtitles)
  {
    forall k | 0 <= k < |cards|
      ensures cards[k] == Cards(subtitles)[k]
    {
      CardOfUnique(subtitles[k], cards[k]);
    }
  }

  //
  // The component itself, its state cells updated in place.
  //

  class App {
    var url: string
    var subtitles: seq<Segment>
    var loading: bool
    var error: string

    function State(): View
      reads this
    {
      View(url, subtitles, loading, error)
    }

    constructor ()
      ensures State() == Initial
    {
      url, subtitles, loading, error := "", [], false, "";
    }

    /** The input field's `onChange`. */
    method SetUrl(text: string)
      modifies this
      ensures State() == Edit(old(State()), text)
    {
      url := text;
    }

    /** `handleSubmit` up to the `await`. */
    method BeginSubmit()
      modifies this
      ensures State() == Start(old(State()))
    {
      loading := true;
      error := "";
    }

    /** `handleSubmit` after the `await`: the `try` or `catch` branch, then `finally`. */
    method FinishSubmit(outcome: Outcome)
      modifies this
      ensures State() == Complete(old(State()), outcome)
    {
      match outcome {
        case Success(data) =>
          subtitles := data;
        case Failure =>
          error := FailureMessage;
          subtitles := [];
      }
      loading := false;
    }

    /** `handleSubmit` run to the end with nothing else happening while the request is pending. */
    method HandleSubmit(outcome: Outcome)
      modifies this
      ensures State() == Complete(Start(old(State())), outcome)
      ensures !loading && url == old(url)
      ensures error == "" <==> outcome.Success?
    {
      BeginSubmit();
      FinishSubmit(outcome);
    }
  }
}
