# W3wTextField: a functional model of the autosuggest text field

`W3wTextField` is a UIKit text field that suggests what3words three-word addresses as
the user types. This project models its behaviour apart from the UI, as pure Dafny
functions over immutable values, and proves properties of that model:

- `wrappers.dfy`, module `Wrappers`: `Option`, `Result` and the Swift runtime traps
  the code can hit. These are a force-unwrap of `nil` and an out-of-range array index.
- `text.dfy`, module `Text`: the string operations the control uses.
  - Swift's `split(separator:)`, which omits empty pieces.
  - `trimmingCharacters(in: .whitespaces)` and ASCII `lowercased()`.
  - `dropLast()`, which removes the last `Character`, however many scalars it spans.
  - The blank skipping that `atof` does before reading a number.
- `geo.dfy`, module `Geo`: `Coordinates(coordinateString:)`, the three `Clip`
  initialisers and `CLLocationCoordinate2DIsValid`.
- `options.dfy`, module `Options`: `AutoSuggestOption`, and the option each property
  observer builds from its string or number.
- `debouncer.dfy`, module `Debouncing`: `Debouncer`, which keeps only the latest callback.
- `flags.dfy`, module `Flags`: the index and offset arithmetic of `W3wUtils.getFlagImage`
  over its 256-code, 16 by 16 atlas.
- `textfield.dfy`, module `TextField`: the control as a state machine.
  - Events: property assignments, `searchText` assignments, keystrokes, the start of
    editing, the debounce timer, backend answers and row selection.
  - Effects: backend requests, the selection callback and diagnostics.

Numbers are read by `atof` and `NSString.doubleValue`. Their numeric reading is a
function parameter (`strtod`, `doubleValue`) with no further assumptions. Every statement
therefore holds for any reading of a token. `Atof` itself models only the leading-blank
skip that C's `atof` performs. In the same way, Unicode text segmentation is a parameter
(`lastCharacter`, the length in scalars of a string's last `Character`), so the
statements about `dropLast()` hold for any segmentation. The three parameters travel
together as `TextField.Runtime`.

Force-unwraps of `nil` and out-of-range indexing are not preconditions. They are
`Failure`/`Crash` outcomes, so each modelled event handler is total and says when it
would stop the app. Drawing table rows is not modelled, and it can stop the app too
(see below).

Behaviour of the code worth knowing:

- There is no stale-response guard. Every autosuggest answer with a non-`nil` list
  replaces both lists, whichever request it answers.
- Setting `searchText` to the empty string neither clears the suggestions nor cancels a
  pending debounced request. That request reads `searchText` when the timer goes off, so
  it asks the backend about the empty text (`TextField.EmptyTextStillQueries`).
- The pair limits declared in `Clip` (25 for a polygon, 2 for a bounding box, 1 for a
  circle) are never checked. Extra pairs are kept, and a trailing unpaired token is
  dropped silently.
- The country filter is the raw string as assigned. It is not split into codes.
- A non-numeric token is whatever `atof` makes of it, not a parse error.
- Drawing a row of the list (`cellForRowAt`, Sources/W3wTextField.swift:531) runs
  `getFlagImage` on the suggestion's country. A suggestion whose country `Flags.FlagTile`
  rejects, such as "XK" or "", therefore stops the app once its row is shown, for
  instance when a backend answer holding it is reloaded into the table.

## Model

| member | source | states |
|---|---|---|
| `Text.Split` | Sources/W3wTextField.swift:26 | every piece is non-empty and free of the separator; there are no pieces exactly when the string consists of separators only (the empty string included) |
| `Text.SplitAtSeparator` | Sources/W3wTextField.swift:25-27 | a separator divides the pieces of what precedes it from the pieces of what follows it; with `SplitSingle` this fixes the split of every string, so ",a,,b," gives "a" and "b" |
| `Text.SplitSingle` | Sources/W3wTextField.swift:25-27 | a non-empty string without the separator is a single piece |
| `Text.SplitJoin` | Sources/W3wTextField.swift:40-42 | splitting the comma-joined pieces gives the pieces back: the round trip behind the Clip initialisers' re-parse of "a, b" |
| `Text.Trim` | Sources/W3wTextField.swift:478-481 | the result is the infix of the input left after a white-space prefix and a white-space suffix, and its own ends are not white space, so exactly the longest such prefix and suffix are removed; a string whose ends are not white space is unchanged |
| `Text.DropLast` | Sources/W3wTextField.swift:480 | the result is a proper prefix of a non-empty input, shorter by exactly the scalars of its last `Character`; the empty string stays empty |
| `Text.LastCharacterLength` | Sources/W3wTextField.swift:480 | the last `Character` of a non-empty string spans between one scalar and the whole string, as segmentation finds it |
| `Text.LowerAscii` | Sources/W3wTextField.swift:693 | lower-casing maps each ASCII capital to its small letter |
| `Text.LowerAsciiIdempotent` | Sources/W3wTextField.swift:693 | lower-casing a lower-cased string changes nothing |
| `Flags.TileInIgnoresCase` | Sources/W3wTextField.swift:693 | a name and its lower-cased form get the same tile, or both trap |
| `Text.DropLeading` | Sources/W3wTextField.swift:26-27 | every dropped character matches and the first kept one does not |
| `Text.DropLeadingSuffix` | Sources/W3wTextField.swift:26-27 | what `DropLeading` keeps is a suffix of the input |
| `Geo.AtofSkipsBlanks` | Sources/W3wTextField.swift:26-27 | `atof` reads the string from its first character that is not C white space, having skipped all the white space before it |
| `Geo.ParseCoordinates` | Sources/W3wTextField.swift:25-29 | traps exactly when the string has no non-comma character (e.g. ""); a string without commas gives latitude = longitude = atof of the whole string |
| `Geo.ParsePairString` | Sources/W3wTextField.swift:39-46 | re-parsing the interpolated "a, b" gives latitude atof(a) and longitude atof(b), because atof skips the blank |
| `Geo.StridePairs` | Sources/W3wTextField.swift:41-45 | the stride loop yields (n - i) / 2 coordinates from n tokens, the k-th being (atof of token i+2k, atof of token i+2k+1), so an odd trailing token is dropped |
| `Geo.ClipOfPairs` | Sources/W3wTextField.swift:39-55 | a polygon or bounding-box string of n tokens gives n / 2 pairs in order, pair k from tokens 2k and 2k+1, with no limit on their number |
| `Geo.ClipCircle` | Sources/W3wTextField.swift:57-64 | traps exactly when there are no tokens; otherwise the pairs as for a polygon and the radius string is the last token, even when that token also sits in a pair |
| `Geo.IsValid` | Sources/W3wTextField.swift:126 | a coordinate is valid exactly when its latitude lies in [-90, 90] and its longitude in [-180, 180] |
| `Options.FocusOption` | Sources/W3wTextField.swift:122-130 | traps exactly when there are no tokens; otherwise yields the focus at (atof of the first token, atof of the last token) if it is a valid coordinate, and nothing if it is not |
| `Options.BoundingBoxOption` | Sources/W3wTextField.swift:147-152 | traps exactly when there are fewer than two tokens; otherwise south/west come from tokens 0 and 1 and north/east from the last complete pair |
| `Options.CircleOption` | Sources/W3wTextField.swift:155-161 | traps exactly when there are fewer than two tokens; otherwise the centre is tokens 0 and 1 and the radius is doubleValue of the last token |
| `Options.PolygonOption` | Sources/W3wTextField.swift:164-169 | never traps; the polygon has one vertex per complete pair, in order |
| `Debouncing.Call` | Sources/W3wTextField.swift:663-672 | after a call, the pending callback is the one just supplied, whatever was pending before |
| `Debouncing.Fire` | Sources/W3wTextField.swift:674-677 | the timer invokes the pending callback and leaves none pending |
| `Debouncing.BurstThenFire` | Sources/W3wTextField.swift:652-677 | after any non-empty burst of calls the timer invokes only the last callback, and a second timer event invokes nothing |
| `Flags.FirstIndexOf` | Sources/W3wTextField.swift:693 | the result is the first position holding the name, and there is none exactly when the name is absent |
| `Flags.TileIn` | Sources/W3wTextField.swift:692-697 | traps exactly when the lower-cased name is absent; otherwise the tile lies on the 64 by 48 grid inside the atlas and reads back to the first position of the name |
| `Flags.FlagTile` | Sources/W3wTextField.swift:690-697 | over the 256 country codes: a tile exists exactly when the lower-cased name is a listed code, and it reads back to that code |
| `Flags.TileIndex` | Sources/W3wTextField.swift:684-697 | the offsets x = (i % 16) * 64 and y = (i / 16) * 48 stay inside the 1024 by 768 atlas and determine i again |
| `Flags.DistinctNamesDistinctTiles` | Sources/W3wTextField.swift:692-697 | two names that differ after lower-casing never get the same tile |
| `TextField.Observe` | Sources/W3wTextField.swift:108-169 | each property observer keeps the earlier options and appends at most one; it appends exactly one unless the setting is `debug` or an invalid focus, and the one it appends is the option its value parses to (`FocusOption`, `BoundingBoxOption`, `CircleOption`, `PolygonOption`, or the number or country as given); it traps exactly on a focus with no tokens or a box/circle with fewer than two; nothing else changes |
| `TextField.AssignSearchText` | Sources/W3wTextField.swift:210-245 | an empty text returns early, changing nothing but the text; a non-empty text leaves the autosuggest job pending and clears the selection |
| `TextField.ShouldChangeCharacters` | Sources/W3wTextField.swift:472-503 | a lone blank is refused with no change; another non-empty replacement gives text ++ trim(replacement); an empty one gives trim(dropLast(text)), the text without its last `Character`, ignoring the range; each accepted key requests an address lookup of the new search text |
| `TextField.KeystrokeThenTimer` | Sources/W3wTextField.swift:210-218 | an accepted key followed by the timer requests the address lookup of the new search text and then, exactly when that text is non-empty or a request was already pending, one autosuggest request for the same text |
| `TextField.HandleTimer` | Sources/W3wTextField.swift:217-218 | when the timer goes off, a pending job requests suggestions for the search text and options of that moment; afterwards nothing is pending |
| `TextField.HandleSuggestions` | Sources/W3wTextField.swift:218-237 | a `nil` list changes nothing, even with an error; any other list replaces both lists wholesale in backend order; an error is reported as an assertion failure in debug mode and printed otherwise |
| `TextField.ReplaceSuggestions` | Sources/W3wTextField.swift:226-236 | the remove-all-then-append loop ends with both arrays equal to the backend's list |
| `TextField.DidBeginEditing` | Sources/W3wTextField.swift:462-466 | beginning to edit empties both lists and changes nothing else |
| `TextField.DidSelectRow` | Sources/W3wTextField.swift:537-553 | traps exactly when the row is outside the shown list; otherwise selects the row, sets the field text to its words and emits the same words |
| `TextField.Step` | Sources/W3wTextField.swift:202-206 | every event keeps the shown list equal to `optionArray` and the options a prefix of the new ones; only observers change options; only observers and selection trap; only the timer requests suggestions |
| `TextField.Run` | Sources/W3wTextField.swift:202-206 | over any trace the options only grow and the shown list keeps mirroring `optionArray` |
| `TextField.UnconfiguredKeepsOptions` | Sources/W3wTextField.swift:82 | a trace without property assignments leaves the options unchanged |
| `TextField.FreshControl` | Sources/W3wTextField.swift:82 | a fresh control that is never configured has no options and mirrors `optionArray`, whatever happens to it |
| `TextField.AssignmentsThenTimer` | Sources/W3wTextField.swift:210-238 | a burst of `searchText` assignments followed by two timer events makes exactly one request, with the last text assigned, whenever a request was pending or some assigned text was non-empty |
| `TextField.EmptyTextStillQueries` | Sources/W3wTextField.swift:213-215 | assigning a non-empty search text and then the empty one before the timer goes off still requests suggestions, for the empty text |
| `TextField.ResponseThenSelect` | Sources/W3wTextField.swift:537-552 | after a response, selecting row i selects it, shows the words of row i of the response and emits them |
| `TextField.SettingsAppendOneEach` | Sources/W3wTextField.swift:108-169 | k assignments to always-appending properties add exactly k options after the earlier ones, with nothing else changed |

## Left out

- UIKit layout, styling, animation and table cells are not modelled: `setupUI`,
  `showList`, `hideList`, `reSizeTable`, `touchAction`, `SuggestionTableViewCell`,
  `cellForRowAt`, row heights and `roundCorners`. They are presentation, except that
  `cellForRowAt` looks up the country flag, which can trap; `SuggestResponse` therefore
  never traps in the model, though showing its rows can.
- The list lifecycle callbacks (`listWillAppear` and the rest) and `isSelected` are not
  modelled. They only fire from the presentation code above, and the one registered by
  `listDidAppear` is stored but never invoked anywhere in the control.
- Keyboard notification observers, `getConvertedPoint`, `parentViewController` and
  `textFieldShouldReturn` are not modelled. They depend on platform view objects.
- The backend calls (`autosuggest`, `convertToCoordinates`) and `setAPIKey` are not
  modelled. They are network calls to an external library. A request is an `Effect`,
  and its answer comes back as a `SuggestResponse` or `ConvertResponse` event.
- The 0.2-second debounce interval and `Timer` scheduling are not modelled. The timer
  going off is the explicit `TimerFired` event.
- Animation completions and main-queue hops are not modelled. Their effects, such as
  showing the check mark (a main-queue hop) and the selected text (the completion of a
  0.5-second animation), apply when the event is handled.
- The `[weak self]` closure running after the control is gone is not modelled. That
  would be a crash on `self!`, and it needs an object lifetime.
- Geo.Atof: the numeric reading of a token is an uninterpreted parameter. IEEE
  rounding, overflow and NaN are not modelled. A NaN coordinate would fail
  `CLLocationCoordinate2DIsValid`.
- Text.LowerAscii: only the ASCII capitals are lower-cased, one scalar each. Foundation's
  `lowercased()` also maps non-ASCII letters ("É" to "é", KELVIN SIGN to "k", and "İ"
  to two scalars), so a lookup that only reaches a code through such a mapping, as
  "\u{212A}E" reaches "ke", differs from the program.
- Flags.TileIn: lower-casing covers only ASCII letters; Foundation's Unicode
  `lowercased()` is not modelled. A name that lower-cases to a listed code only through
  a non-ASCII mapping is treated as absent: "\u{212A}E" (KELVIN SIGN, then E) gives "ke",
  Kenya, in the program but traps here.
- Text.Split: strings are sequences of Unicode scalars, and Swift's `split` compares
  `Character`s. A comma that segmentation joins to a neighbour, as in ",\u{0301}" (a
  comma with a combining acute accent), is a separator here but not in the program.
- TextField.ShouldChangeCharacters: the end of the last `Character` comes from the
  segmentation parameter, which is not derived from the Unicode segmentation rules.
  For text "\u{1F1EC}\u{1F1E7}" (one flag) the program's deletion leaves "", and the model
  does too only under a segmentation that treats the flag as one `Character`.
- Text.IsWhitespace: `CharacterSet.whitespaces` is written out as tab plus the Unicode
  space separators of the current Unicode version. It is not derived from a Unicode
  table.
- Image loading and cropping in `getFlagImage` are not modelled. Only the index and
  the offset arithmetic are kept.
- The stored values of the configurable properties (`nResults`, `autoFocus` and the
  rest) are not modelled. Nothing reads them except their own observers, which are
  modelled.
- Whether an `assertionFailure` stops the app depends on the build configuration. It is
  modelled as a reported `AssertionFailure` effect.
- Text ranges are not modelled. The field text after an allowed keystroke is whatever
  UIKit computes, carried by the `Keystroke` event, since the control never reads the
  range.
