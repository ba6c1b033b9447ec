# YouTube Subtitle Generator front end, modelled in Dafny

The front end is one React component, `App` in `src/App.js`. The user pastes
a YouTube address and presses a button. The component then posts the address
to a subtitle backend and shows the returned segments as cards. Each card
carries the segment's start and end time as `HH:MM:SS` and its original and
translated text. While the address names a video, the component also embeds
that video's player.

The project models the parts of the component that compute something:

- `formatTime` (module `TimeFormat`) turns whole seconds into hours, minutes
  and seconds. Each field is the number's decimal digits, padded with '0' to
  at least two characters, and the fields are joined by ':'. Its partner is
  `ParseTime`, which reads back exactly the strings `formatTime` writes. The
  round trip `ParseTime(FormatTime(n)) == Some(n)` is part of `FormatTime`'s
  contract, and `ParseTimeFormat` proves the other direction.
- `extractVideoId` (module `VideoId`) applies the regular expression
  `(?:youtube\.com.*v=|youtu\.be\/)([^&]+)` with JavaScript's backtracking
  semantics:
  - start positions are tried leftmost first;
  - at each position, the `youtube.com` alternative is tried before `youtu.be/`;
  - greedy `.*` stops at line terminators;
  - the group is the longest non-empty run of characters other than '&'.

  The executable search is proved equal to a declarative statement of which
  match the pattern takes (`ExtractVideoIdCorrect`). Module `VideoIdExamples`
  proves what it yields on the usual link forms. A short link gives its id
  without any condition that the id avoids "youtube.com…v=": the match at
  the "youtu.be/" position starts further left than any match inside the id,
  so it wins.
- The submit handler and the view (module `SubtitleApp`):
  - the four state cells as a `View` record, with the transitions `Edit`,
    `Start` and `Complete` as functions;
  - the same cells as fields of a class `App`, whose methods update them in
    place, each proved to equal the transition function;
  - whole runs of events, and the invariant that holds when each request
    settles before the next click;
  - the `videoId &&` condition for the embedded player;
  - the `formatTime` calls on each card.

The network request is not modelled: the handler receives its `Outcome`
(the response data, or failure) as a parameter.

The model follows the code as written, in particular:
- Pressing the button does not clear the subtitles shown before (lines 29-30
  set only `loading` and `error`).
- No address is rejected before the request is sent.
- There is no separate "no subtitles found" state. An empty response simply
  shows no cards.

## Model

| member | source | states |
|---|---|---|
| TimeFormat.DigitChar | src/App.js:12-14 | the character of a decimal digit is a digit and has that value |
| TimeFormat.ToDecimal | src/App.js:12-14 | `toString()` of a natural number: digits that read back as the number, a leading '0' only for 0, one digit exactly below 10 |
| TimeFormat.ToDecimalAtMostTwo | src/App.js:12-14 | the decimal string has at most two digits exactly when the number is below 100 |
| TimeFormat.PadStart | src/App.js:12-14 | `padStart`: length is the width or the original length, whichever is larger; the original string is the suffix and everything before it is the fill |
| TimeFormat.ParseDecimalLeadingZero | src/App.js:12-14 | a leading '0' does not change the value of a digit string |
| TimeFormat.Field | src/App.js:12-14 | one padded field: digits reading back as the number, at least two long, exactly two when the number is below 100, starting with '0' exactly when the number is below 10 |
| TimeFormat.SameLengthSameValue | src/App.js:12-14 | digit strings of the same length and value are equal |
| TimeFormat.NoLeadingZeroPositive | src/App.js:12-14 | a digit string not starting with '0' denotes a positive number |
| TimeFormat.CanonicalDigits | src/App.js:12-14 | a digit string without a leading '0' (or "0" itself) is the `toString()` of its value |
| TimeFormat.TwoDigitsBelowHundred | src/App.js:12-14 | two digits denote a number below 100 |
| TimeFormat.FieldUnique | src/App.js:12-14 | a padded field is determined by its value: any digit string of at least two characters with that value, and no leading '0' when longer than two, is `Field` of it |
| TimeFormat.Split | src/App.js:9-11 | hours, minutes and seconds add up to the total, and minutes and seconds are below 60 |
| TimeFormat.SplitUnique | src/App.js:9-11 | any hours, minutes below 60 and seconds below 60 that add up to the total are the split of it |
| TimeFormat.Join | src/App.js:12-14 | the ':'-joined string has the colons 6 and 3 from the end and the three fields between them |
| TimeFormat.JoinReadsBack | src/App.js:12-14 | canonical fields joined form a clock string whose fields read back as the clock they came from |
| TimeFormat.HoursBelowHundred | src/App.js:9 | hours are below 100 exactly when the total is below 360000 |
| TimeFormat.FormatClock | src/App.js:12-14 | a clock shown as `HH:MM:SS` is clock-shaped (minutes and seconds below 60, hours without a leading '0' beyond two digits), reads back as its total, and is 8 characters long exactly when hours are below 100 |
| TimeFormat.FormatTime | src/App.js:8-15 | `formatTime(n)` is clock-shaped, `ParseTime` gives back n, and the length is 8 exactly when n < 360000 (hours are never cut); with ParseTimeFormat this pins the string |
| TimeFormat.ParseTime | src/App.js:12-14 | reading back accepts only strings `formatTime` writes (minutes and seconds below 60, no extra leading '0' on hours), all at least 8 characters long |
| TimeFormat.SplitAtColons | src/App.js:12-14 | a string with ':' 6 and 3 from its end is its three fields joined |
| TimeFormat.FormatTimeFields | src/App.js:8-15 | `formatTime(n)` joins the padded fields of the split of n |
| TimeFormat.ParseTimeFormat | src/App.js:8-15 | every string ParseTime reads as n is exactly `formatTime(n)`: the two are inverse |
| TimeFormat.FormatTimeInjective | src/App.js:8-15 | different totals never show the same string |
| TimeFormat.FormatTimeExample | src/App.js:8-15 | 3661 seconds show as "01:01:01" |
| VideoId.LineEnd | src/App.js:18 | how far `.*` reaches: no line terminator before it, and a line terminator or the end at it |
| VideoId.RunEnd | src/App.js:18 | where `[^&]+` stops: no '&' before it, and '&' or the end at it |
| VideoId.LastParam | src/App.js:18 | the backtracking of greedy `.*`: the largest position in the range where `v=` and a non-'&' follow, or none in the range |
| VideoId.MatchAt | src/App.js:18 | a match from a position has its group at a character other than '&' |
| VideoId.SearchFrom | src/App.js:18 | the leftmost position that matches, with no match before it, or no match at all |
| VideoId.ExtractVideoId | src/App.js:17-20 | a returned id is never empty and holds no '&' |
| VideoId.LineEndBound | src/App.js:18 | no line terminator before k exactly when k is within the line |
| VideoId.MatchAtGroup | src/App.js:18 | the search at one position fails exactly when neither alternative matches, and its group is the one the pattern's backtracking order gives |
| VideoId.ExtractVideoIdNone | src/App.js:18-19 | the result is null exactly when no position matches either alternative |
| VideoId.RunIsMaximal | src/App.js:18 | the run taken from the group start is non-empty, free of '&' and followed by '&' or the end |
| VideoId.ExtractVideoIdShape | src/App.js:18-19 | a returned id is such a maximal run of the input |
| VideoId.MaximalRunUnique | src/App.js:18 | two maximal runs from the same position are equal |
| VideoId.LeftmostMatch | src/App.js:18-19 | when no earlier position matches, the result is the run from the group of this match |
| VideoId.LastParamMatch | src/App.js:18 | the first alternative's group follows the last working `v=` on the line |
| VideoId.ExtractVideoIdSound | src/App.js:18-19 | a returned id is the group of the leftmost match |
| VideoId.ExtractVideoIdComplete | src/App.js:18-19 | the group of the leftmost match is returned |
| VideoId.ExtractVideoIdCorrect | src/App.js:17-20 | the result is an id exactly when that id is the group of the leftmost match of the pattern |
| VideoIdExamples.NoMatchIn | src/App.js:18 | no match starts at a character other than 'y' |
| VideoIdExamples.NoMatchInScheme | src/App.js:18 | no match starts inside "https://" |
| VideoIdExamples.RunToEnd | src/App.js:18 | a run with no '&' up to the end stops at the end |
| VideoIdExamples.TailIsId | src/App.js:18 | an '&'-free tail of the input is the whole run taken from its start |
| VideoIdExamples.NoParamInId | src/App.js:18 | after a trailing "=", no `v=` starts inside an id that holds none |
| VideoIdExamples.ShortLink | src/App.js:18-19 | "https://youtu.be/" + id gives id for every non-empty id free of '&' |
| VideoIdExamples.ShortLinkWithoutId | src/App.js:18-19 | "https://youtu.be/" alone gives null |
| VideoIdExamples.WatchPageStart | src/App.js:18 | in an address starting with the watch page, nothing matches before "youtube.com" |
| VideoIdExamples.WatchLink | src/App.js:18-19 | "https://www.youtube.com/watch?v=" + id gives id for every non-empty id free of '&' and of "v=" |
| VideoIdExamples.LastParamOfLine | src/App.js:18 | after a one-line continuation of the watch page, the value of the last `v=` is returned |
| VideoIdExamples.GreedyTakesLastParam | src/App.js:18 | greedy `.*`: in watch?v=first&keyv=value the result is value, not the video's id |
| VideoIdExamples.GreedyExample | src/App.js:18-19 | "https://www.youtube.com/watch?v=abc&rev=1" gives "1" |
| SubtitleApp.Edit | src/App.js:54 | typing sets the address and leaves the other cells alone |
| SubtitleApp.Start | src/App.js:29-30 | pressing the button turns loading on and clears the error, and leaves address and subtitles alone |
| SubtitleApp.Complete | src/App.js:31-39 | after the request loading is off and the address is unchanged; success shows the data and keeps the error, failure shows the fixed message and no subtitles |
| SubtitleApp.HandleSubmitEffect | src/App.js:28-40 | a whole submit leaves loading off, shows an error exactly when the request failed, and shows the response or nothing |
| SubtitleApp.OneAtATimeConsistent | src/App.js:23-40 | when each request settles before the next click, loading shows exactly while a request is pending and the message never shows beside subtitles |
| SubtitleApp.OverlappingSubmits | src/App.js:28-40 | a second click while a request is pending breaks that: loading goes off with a request pending, and the message can show beside subtitles |
| SubtitleApp.EmbedSrc | src/App.js:65-70 | the player is shown exactly when `extractVideoId` is not null, with the embed address of that id |
| SubtitleApp.EmbedShownIffMatch | src/App.js:65-70 | the player is shown exactly when some position of the address matches the pattern |
| SubtitleApp.EmbedShortLink | src/App.js:65-70 | a short link embeds the video it names |
| SubtitleApp.CardOf | src/App.js:84-87 | a card's timestamps read back as the segment's start and end, and its texts are the segment's; by CardOfUnique this determines the card |
| SubtitleApp.CardOfUnique | src/App.js:84-87 | any card meeting CardOf's contract is the segment's card, so its timestamps are exactly `formatTime` of start and end |
| SubtitleApp.Cards | src/App.js:79-91 | one card per segment, in order, each with that segment's times and texts; by CardsUnique this determines the list |
| SubtitleApp.CardsUnique | src/App.js:79-91 | any list of cards meeting Cards' contract is the rendered list |
| SubtitleApp.App.constructor | src/App.js:23-26 | the cells start as "", [], false and "" |
| SubtitleApp.App.SetUrl | src/App.js:54 | the field's onChange updates the cells as `Edit` |
| SubtitleApp.App.BeginSubmit | src/App.js:29-30 | the handler up to the request updates the cells as `Start` |
| SubtitleApp.App.FinishSubmit | src/App.js:31-39 | the handler after the request updates the cells as `Complete` |
| SubtitleApp.App.HandleSubmit | src/App.js:28-40 | the whole handler updates the cells as `Start` then `Complete`: loading off, address unchanged, error empty exactly on success |

## Left out

- The POST to the subtitle backend (line 32) is network I/O. Its result is a parameter, `Outcome`: the response data, or a failure standing for any thrown error.
- The backend that generates the subtitles is not part of this repository.
- `await` suspension is not modelled, and neither is React's batching of `useState` updates and re-rendering. A run is a sequence of events, each applied whole.
- JSX, react-bootstrap, the iframe's other attributes and CSS are not modelled. The exceptions are the `videoId &&` condition, the embed address, and the `formatTime` calls on each card.
- The rendering of `error &&` (line 63) and of the spinner (line 58) is not modelled. They only show the `error` and `loading` cells.
- TimeFormat.FormatTime: modelled on whole non-negative seconds only. Fractional, negative, NaN and very large inputs depend on floating-point `Math.floor`, on `%` taking the sign of the dividend, and on exponential `toString`. For non-negative fractional inputs, `Math.floor` makes them behave like their floor.
- Segment: `start` and `end` are whole seconds, because `formatTime` is modelled on naturals.
- Strings are sequences of Unicode characters, not UTF-16 code units. Only the ASCII characters of the pattern and the four line terminators matter to the match.
- Line terminators are modelled explicitly and not excluded by a precondition.
- The methods of `App` state their new state in terms of `old`. Their properties are proved about the transition functions they are shown to equal.
