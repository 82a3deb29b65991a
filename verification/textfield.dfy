/** The non-visual behaviour of `W3wTextField`: its options, text buffer, debounced
    autosuggest request, suggestion lists and row selection, as a state machine over
    events. Backend calls and the debounce timer are not performed: a request is an
    `Effect` the control emits, and its answer, like the timer going off, is an `Event`. */
module TextField {
  import opened Wrappers
  import opened Text
  import opened Geo
  import opened Options
  import opened Debouncing

  /** `W3wSuggestion`, restricted to the fields the control reads. */
  datatype Suggestion = Suggestion(words: string, nearestPlace: string, country: string)

  /** The one closure the control hands to its debouncer: ask the backend for suggestions
      for the `searchText` and `options` current WHEN IT RUNS, not when it was handed over. */
  datatype Job = AutosuggestCurrentText

  /** The library behaviour the model leaves open: `atof`'s reading of a number after the
      leading blanks and `NSString.doubleValue`, which the option observers use, and the
      length of a string's last `Character` under Unicode text segmentation, which
      `dropLast()` uses. */
  datatype Runtime = Runtime(strtod: string -> real, doubleValue: string -> real, lastCharacter: string -> nat)

  /** The state of the control that its behaviour depends on. */
  datatype Control = Control(
    options: seq<AutoSuggestOption>,
    isDebugMode: bool,
    text: string,                   // the field's visible text
    searchText: string,
    optionArray: seq<Suggestion>,
    dataArray: seq<Suggestion>,     // the rows the list shows
    selectedIndex: Option<nat>,
    debouncer: Debouncer<Job>,
    checkMarkHidden: bool)

  /** A fresh control: no options (initial property values run no observer), empty text
      and lists, nothing pending, check mark hidden. */
  const Initial: Control :=
    Control([], false, "", "", [], [], None, Debouncer(None), true)

  /** Assignments to the configurable properties. */
  datatype Setting =
    | SetNResults(nResults: int)
    | SetDebug(debug: bool)
    | SetAutoFocus(autoFocus: string)
    | SetNFocusResults(nFocusResults: int)
    | SetClipToCountry(clipToCountry: string)
    | SetClipToBoundingBox(clipToBoundingBox: string)
    | SetClipToCircle(clipToCircle: string)
    | SetClipToPolygon(clipToPolygon: string)

  /** Everything that can happen to the control. */
  datatype Event =
    | Configure(setting: Setting)
    | SetSearchText(newSearchText: string)
    | SetOptionArray(newOptionArray: seq<Suggestion>)
    | BeginEditing
      // a key press; `edited` is the text UIKit shows if the change is allowed
    | Keystroke(replacement: string, edited: string)
    | TimerFired
      // the backend's answer to an autosuggest request
    | SuggestResponse(suggestions: Option<seq<Suggestion>>, error: Option<string>)
      // the backend's answer to a convert-to-coordinates request
    | ConvertResponse(found: bool)
    | SelectRow(row: nat)

  /** Everything the control asks of the outside world. */
  datatype Effect =
    | Autosuggest(input: string, requestOptions: seq<AutoSuggestOption>)
    | ConvertToCoordinates(words: string)
    | DidSelect(selectedText: string)
    | AssertionFailure(message: string)
    | Print(message: string)

  /** The control after an event and what it asked for, or the trap that stopped it. */
  datatype Outcome = Next(control: Control, effects: seq<Effect>) | Crash(trap: Trap)

  /** `dataArray` follows `optionArray`. */
  predicate Mirrors(c: Control) {
    c.dataArray == c.optionArray
  }

  function Append(c: Control, option: AutoSuggestOption): Control {
    c.(options := c.options + [option])
  }

  /** The property observers: each appends the option its value denotes (the focus only
      when valid, `debug` none) and never replaces an earlier one. */
  function Observe(rt: Runtime, c: Control, s: Setting): (r: Outcome)
    ensures r.Crash? <==>
      || (s.SetAutoFocus? && Split(s.autoFocus, ',') == [])
      || (s.SetClipToBoundingBox? && |Split(s.clipToBoundingBox, ',')| < 2)
      || (s.SetClipToCircle? && |Split(s.clipToCircle, ',')| < 2)
    ensures r.Crash? ==> r.trap == ForceUnwrapOfNil
    ensures r.Next? ==>
      && r.effects == []
      && r.control == c.(options := r.control.options, isDebugMode := r.control.isDebugMode)
      && c.options <= r.control.options
      && |r.control.options| <= |c.options| + 1
      && (r.control.isDebugMode == if s.SetDebug? then s.debug else c.isDebugMode)
    ensures r.Next? ==>
      (|r.control.options| == |c.options| <==>
        s.SetDebug? || (s.SetAutoFocus? && FocusOption(rt.strtod, s.autoFocus).value.None?))
    ensures r.Next? && s.SetNResults? ==> r.control.options[|c.options|] == NumberResults(s.nResults)
    ensures r.Next? && s.SetNFocusResults? ==> r.control.options[|c.options|] == NumberFocusResults(s.nFocusResults)
    ensures r.Next? && s.SetClipToCountry? ==> r.control.options[|c.options|] == ClipToCountry(s.clipToCountry)
    ensures r.Next? && s.SetAutoFocus? && |r.control.options| > |c.options| ==>
      r.control.options[|c.options|] == FocusOption(rt.strtod, s.autoFocus).value.value
    ensures r.Next? && s.SetClipToBoundingBox? ==>
      r.control.options[|c.options|] == BoundingBoxOption(rt.strtod, s.clipToBoundingBox).value
    ensures r.Next? && s.SetClipToCircle? ==>
      r.control.options[|c.options|] == CircleOption(rt.strtod, rt.doubleValue, s.clipToCircle).value
    ensures r.Next? && s.SetClipToPolygon? ==>
      r.control.options[|c.options|] == PolygonOption(rt.strtod, s.clipToPolygon)
  {
    match s
    case SetNResults(n) => Next(Append(c, NumberResults(n)), [])
    case SetDebug(b) => Next(c.(isDebugMode := b), [])
    case SetAutoFocus(f) =>
      (match FocusOption(rt.strtod, f)
       case Failure(trap) => Crash(trap)
       case Success(None) => Next(c, [])
       case Success(Some(o)) => Next(Append(c, o), []))
    case SetNFocusResults(n) => Next(Append(c, NumberFocusResults(n)), [])
    case SetClipToCountry(country) => Next(Append(c, ClipToCountry(country)), [])
    case SetClipToBoundingBox(box) =>
      (match BoundingBoxOption(rt.strtod, box)
       case Failure(trap) => Crash(trap)
       case Success(o) => Next(Append(c, o), []))
    case SetClipToCircle(circle) =>
      (match CircleOption(rt.strtod, rt.doubleValue, circle)
       case Failure(trap) => Crash(trap)
       case Success(o) => Next(Append(c, o), []))
    case SetClipToPolygon(polygon) => Next(Append(c, PolygonOption(rt.strtod, polygon)), [])
  }

  /** The `searchText` observer. An empty text returns early: nothing is scheduled, and a
      request scheduled before stays pending. A non-empty text hands the autosuggest job
      to the debouncer, replacing any pending one, and clears the selection. */
  function AssignSearchText(c: Control, s: string): (r: Control)
    ensures r.searchText == s
    ensures s == "" ==> r == c.(searchText := s)
    ensures s != "" ==> r.debouncer.callback == Some(AutosuggestCurrentText) && r.selectedIndex == None
    ensures r == c.(searchText := s, debouncer := r.debouncer, selectedIndex := r.selectedIndex)
  {
    var c1 := c.(searchText := s);
    if s == "" then c1
    else c1.(debouncer := Call(c1.debouncer, Some(AutosuggestCurrentText)), selectedIndex := None)
  }

  /** What `textField(_:shouldChangeCharactersIn:replacementString:)` decides. */
  datatype Decision = Decision(accepted: bool, control: Control, effects: seq<Effect>)

  /** The keystroke rule. A lone blank is refused and changes nothing. Any other
      replacement is accepted: a non-empty one appends its trimmed form to the field's
      text, an empty one (a deletion) takes the field's text minus its last `Character`,
      trimmed, whatever range was deleted. The result is assigned to `searchText` and a
      lookup of it as a three-word address is requested. */
  function ShouldChangeCharacters(rt: Runtime, c: Control, replacement: string): (r: Decision)
    ensures !r.accepted <==> replacement == " "
    ensures !r.accepted ==> r.control == c && r.effects == []
    ensures r.accepted && replacement != "" ==> r.control.searchText == c.text + Trim(replacement)
    ensures replacement == "" ==> r.control.searchText == Trim(DropLast(rt.lastCharacter, c.text))
    ensures r.accepted ==>
      && r.control == AssignSearchText(c, r.control.searchText)
      && r.effects == [ConvertToCoordinates(r.control.searchText)]
  {
    if replacement == " " then Decision(false, c, [])
    else
      var s := if replacement != "" then c.text + Trim(replacement) else Trim(DropLast(rt.lastCharacter, c.text));
      Decision(true, AssignSearchText(c, s), [ConvertToCoordinates(s)])
  }

  /** The debounce timer going off: the pending job, if any, asks the backend for
      suggestions with the search text and options of that moment; then nothing is
      pending. */
  function HandleTimer(c: Control): (r: Outcome)
    ensures r.Next?
    ensures r.control == c.(debouncer := r.control.debouncer)
    ensures r.control.debouncer.callback == None
    ensures r.effects == if c.debouncer.callback.Some? then [Autosuggest(c.searchText, c.options)] else []
  {
    var fired := Fire(c.debouncer);
    Next(c.(debouncer := fired.next),
         if fired.invoked.Some? then [Autosuggest(c.searchText, c.options)] else [])
  }

  /** The autosuggest completion handler. An error is reported (an assertion failure in
      debug mode, printed otherwise). A `nil` list leaves both lists alone; any other list,
      the empty one included, replaces both, in the backend's order. There is no check
      that the answer belongs to the latest request. */
  function HandleSuggestions(c: Control, suggestions: Option<seq<Suggestion>>, error: Option<string>): (r: Outcome)
    ensures r.Next?
    ensures r.effects == match error
      case None => []
      case Some(message) => if c.isDebugMode then [AssertionFailure(message)] else [Print(message)]
    ensures suggestions.None? ==> r.control == c
    ensures suggestions.Some? ==>
      r.control == c.(optionArray := suggestions.value, dataArray := suggestions.value)
  {
    var report := match error
      case None => []
      case Some(message) => if c.isDebugMode then [AssertionFailure(message)] else [Print(message)];
    match suggestions
    case None => Next(c, report)
    case Some(list) => Next(c.(optionArray := list, dataArray := list), report)
  }

  /** The list update of the completion handler as the source performs it: both arrays
      emptied, then each suggestion appended to `optionArray` with `dataArray` copied after
      every append. It ends with both arrays equal to the backend's list. */
  method ReplaceSuggestions(suggestions: seq<Suggestion>) returns (optionArray: seq<Suggestion>, dataArray: seq<Suggestion>)
    ensures optionArray == suggestions
    ensures dataArray == suggestions
  {
    optionArray := [];
    dataArray := optionArray;
    var i := 0;
    while i < |suggestions|
      invariant i <= |suggestions|
      invariant optionArray == suggestions[..i]
      invariant dataArray == optionArray
    {
      optionArray := optionArray + [suggestions[i]];
      dataArray := optionArray;
      i := i + 1;
    }
  }

  /** `textFieldDidBeginEditing`: both lists are emptied; nothing else changes. */
  function DidBeginEditing(c: Control): (r: Outcome)
    ensures r.Next? && r.effects == []
    ensures r.control.optionArray == [] && r.control.dataArray == []
    ensures r.control == c.(optionArray := [], dataArray := [])
  {
    Next(c.(optionArray := [], dataArray := []), [])
  }

  /** `tableView(_:didSelectRowAt:)`: row `row` of the shown list becomes the selection,
      its words are handed to the selection callback and become the field's text. A row
      outside the list traps; the search text and pending request are untouched. */
  function DidSelectRow(c: Control, row: nat): (r: Outcome)
    ensures r.Crash? <==> row >= |c.dataArray|
    ensures r.Crash? ==> r.trap == IndexOutOfRange
    ensures r.Next? ==>
      && r.control == c.(selectedIndex := Some(row), text := c.dataArray[row].words)
      && r.effects == [DidSelect(c.dataArray[row].words)]
  {
    if row < |c.dataArray| then
      var selected := c.dataArray[row];
      Next(c.(selectedIndex := Some(row), text := selected.words), [DidSelect(selected.words)])
    else
      Crash(IndexOutOfRange)
  }

  /** One event. Options only ever grow, and only through the property observers; the
      shown list keeps mirroring `optionArray`; only the observers and row selection can
      trap; a backend autosuggest request is made only when the timer goes off; an allowed
      keystroke leaves UIKit's edited text in the field; and the check mark is hidden
      exactly when the last address lookup to answer found nothing. */
  function Step(rt: Runtime, c: Control, e: Event): (r: Outcome)
    ensures r.Next? ==> c.options <= r.control.options
    ensures r.Next? && !e.Configure? ==> r.control.options == c.options
    ensures r.Next? && Mirrors(c) ==> Mirrors(r.control)
    ensures r.Crash? ==> e.Configure? || e.SelectRow?
    ensures r.Next? && !e.TimerFired? ==> forall k :: 0 <= k < |r.effects| ==> !r.effects[k].Autosuggest?
    ensures e.Keystroke? ==> r.Next? && r.control.text == if e.replacement == " " then c.text else e.edited
    ensures e.ConvertResponse? ==> r.Next? && r.control == c.(checkMarkHidden := !e.found)
  {
    match e
    case Configure(s) => Observe(rt, c, s)
    case SetSearchText(s) => Next(AssignSearchText(c, s), [])
    case SetOptionArray(list) => Next(c.(optionArray := list, dataArray := list), [])
    case BeginEditing => DidBeginEditing(c)
    case Keystroke(replacement, edited) =>
      var d := ShouldChangeCharacters(rt, c, replacement);
      if d.accepted then Next(d.control.(text := edited), d.effects) else Next(c, [])
    case TimerFired => HandleTimer(c)
    case SuggestResponse(suggestions, error) => HandleSuggestions(c, suggestions, error)
    case ConvertResponse(found) => Next(c.(checkMarkHidden := !found), [])
    case SelectRow(row) => DidSelectRow(c, row)
  }

  /** A sequence of events, stopping at the first trap; the effects in order. Over any
      trace the options only grow and the shown list mirrors `optionArray`. */
  function Run(rt: Runtime, c: Control, events: seq<Event>): (r: Outcome)
    ensures r.Next? ==> c.options <= r.control.options
    ensures r.Next? && Mirrors(c) ==> Mirrors(r.control)
    decreases |events|
  {
    if events == [] then Next(c, [])
    else
      match Step(rt, c, events[0])
      case Crash(trap) => Crash(trap)
      case Next(c1, effects1) =>
        match Run(rt, c1, events[1..])
        case Crash(trap) => Crash(trap)
        case Next(c2, effects2) => Next(c2, effects1 + effects2)
  }

  /** Assignments of `texts` to `searchText`, one after the other. */
  function Assignments(texts: seq<string>): (r: seq<Event>)
    ensures |r| == |texts|
    ensures forall i :: 0 <= i < |texts| ==> r[i] == SetSearchText(texts[i])
  {
    seq(|texts|, i requires 0 <= i < |texts| => SetSearchText(texts[i]))
  }

  predicate SomeNonEmpty(texts: seq<string>) {
    exists j :: 0 <= j < |texts| && texts[j] != ""
  }

  /** A burst of `searchText` assignments followed by two timer events, from a control
      whose debouncer is already pending or where some assignment is non-empty, makes
      exactly one autosuggest request: with the LAST assigned text, even when that text
      is empty, and the options of the moment. */
  lemma {:induction false} AssignmentsThenTimer(rt: Runtime, c: Control, texts: seq<string>)
    requires texts != []
    requires c.debouncer.callback.Some? || SomeNonEmpty(texts)
    ensures var r := Run(rt, c, Assignments(texts) + [TimerFired, TimerFired]);
      && r.Next?
      && r.effects == [Autosuggest(texts[|texts| - 1], c.options)]
    decreases |texts|
  {
    var events := Assignments(texts) + [TimerFired, TimerFired];
    var c1 := AssignSearchText(c, texts[0]);
    assert Step(rt, c, events[0]) == Next(c1, []);
    if |texts| == 1 {
      assert events[1..] == [TimerFired, TimerFired];
      var c2 := HandleTimer(c1).control;
      assert Run(rt, c2, [TimerFired]) == Next(HandleTimer(c2).control, []) by {
        assert [TimerFired][1..] == [];
      }
      assert Run(rt, c1, events[1..]) == Next(HandleTimer(c2).control, [Autosuggest(texts[0], c.options)]);
    } else {
      assert events[1..] == Assignments(texts[1..]) + [TimerFired, TimerFired];
      if c1.debouncer.callback.None? {
        var j :| 0 <= j < |texts| && texts[j] != "";
        assert j > 0 && texts[1..][j - 1] != "";
      }
      AssignmentsThenTimer(rt, c1, texts[1..]);
    }
  }

  /** Typing a text and then deleting it before the timer goes off still makes a request,
      with the empty text: an empty search text cancels nothing. */
  lemma EmptyTextStillQueries(rt: Runtime, c: Control, typed: string)
    requires typed != ""
    ensures var r := Run(rt, c, [SetSearchText(typed), SetSearchText(""), TimerFired, TimerFired]);
      r.Next? && r.effects == [Autosuggest("", c.options)]
  {
    assert SomeNonEmpty([typed, ""]) by { assert [typed, ""][0] != ""; }
    AssignmentsThenTimer(rt, c, [typed, ""]);
    assert Assignments([typed, ""]) == [SetSearchText(typed), SetSearchText("")];
  }

  /** An accepted key press followed by the timer going off: the address lookup of the
      new search text comes first, then, when the key left a non-empty search text or a
      request was already pending, one autosuggest request for that same text. The field
      shows UIKit's edited text. */
  lemma {:induction false} KeystrokeThenTimer(rt: Runtime, c: Control, replacement: string, edited: string)
    requires replacement != " "
    ensures var s := if replacement != "" then c.text + Trim(replacement)
                     else Trim(DropLast(rt.lastCharacter, c.text));
      var r := Run(rt, c, [Keystroke(replacement, edited), TimerFired]);
      && r.Next?
      && r.control.text == edited
      && r.control.searchText == s
      && r.control.debouncer.callback == None
      && r.effects == if s != "" || c.debouncer.callback.Some?
                      then [ConvertToCoordinates(s), Autosuggest(s, c.options)]
                      else [ConvertToCoordinates(s)]
  {
    var events := [Keystroke(replacement, edited), TimerFired];
    var d := ShouldChangeCharacters(rt, c, replacement);
    var s := d.control.searchText;
    var c1 := d.control.(text := edited);
    assert Step(rt, c, events[0]) == Next(c1, [ConvertToCoordinates(s)]);
    assert events[1..] == [TimerFired];
    var t := HandleTimer(c1);
    assert [TimerFired][1..] == [];
    assert Run(rt, c1, [TimerFired]) == Next(t.control, t.effects + []);
  }

  /** A response followed by the selection of one of its rows selects that row of the
      response, emits its words and shows them in the field. */
  lemma {:induction false} ResponseThenSelect(rt: Runtime, c: Control, list: seq<Suggestion>, row: nat)
    requires row < |list|
    ensures var r := Run(rt, c, [SuggestResponse(Some(list), None), SelectRow(row)]);
      && r.Next?
      && r.control.selectedIndex == Some(row)
      && r.control.text == list[row].words
      && r.effects == [DidSelect(list[row].words)]
  {
    var events := [SuggestResponse(Some(list), None), SelectRow(row)];
    var c1 := c.(optionArray := list, dataArray := list);
    assert Step(rt, c, events[0]) == Next(c1, []);
    assert events[1..] == [SelectRow(row)];
    var c2 := c1.(selectedIndex := Some(row), text := list[row].words);
    assert Step(rt, c1, SelectRow(row)) == Next(c2, [DidSelect(list[row].words)]);
    assert [SelectRow(row)][1..] == [];
    assert Run(rt, c1, [SelectRow(row)]) == Next(c2, [DidSelect(list[row].words)] + []);
  }

  /** Events other than property assignments leave the options as they are, over any
      trace. */
  lemma {:induction false} UnconfiguredKeepsOptions(rt: Runtime, c: Control, events: seq<Event>)
    requires forall k :: 0 <= k < |events| ==> !events[k].Configure?
    ensures Run(rt, c, events).Next? ==> Run(rt, c, events).control.options == c.options
    decreases |events|
  {
    if events != [] {
      match Step(rt, c, events[0])
      case Crash(_) =>
      case Next(c1, _) =>
        assert forall k :: 0 <= k < |events[1..]| ==> !events[1..][k].Configure? by {
          forall k | 0 <= k < |events[1..]| ensures !events[1..][k].Configure? {
            assert events[1..][k] == events[k + 1];
          }
        }
        UnconfiguredKeepsOptions(rt, c1, events[1..]);
    }
  }

  /** A fresh control that is never configured keeps no options, so every request it
      makes carries none, and its shown list always mirrors `optionArray`. */
  lemma FreshControl(rt: Runtime, events: seq<Event>)
    requires forall k :: 0 <= k < |events| ==> !events[k].Configure?
    ensures var r := Run(rt, Initial, events);
      r.Next? ==> r.control.options == [] && Mirrors(r.control)
  {
    UnconfiguredKeepsOptions(rt, Initial, events);
  }

  /** Settings that always append (every one but `debug` and `autoFocus`). */
  predicate AlwaysAppends(s: Setting) {
    !s.SetDebug? && !s.SetAutoFocus?
  }

  function Configurations(settings: seq<Setting>): (r: seq<Event>)
    ensures |r| == |settings|
    ensures forall i :: 0 <= i < |settings| ==> r[i] == Configure(settings[i])
  {
    seq(|settings|, i requires 0 <= i < |settings| => Configure(settings[i]))
  }

  /** Assigning `k` always-appending properties in a row, without a trap, leaves the earlier
      options in place and adds exactly `k` options after them, nothing else changing. */
  lemma {:induction false} SettingsAppendOneEach(rt: Runtime, c: Control, settings: seq<Setting>)
    requires forall i :: 0 <= i < |settings| ==> AlwaysAppends(settings[i])
    ensures var r := Run(rt, c, Configurations(settings));
      r.Next? ==> |r.control.options| == |c.options| + |settings|
    ensures var r := Run(rt, c, Configurations(settings));
      r.Next? ==> r.control == c.(options := r.control.options)
    ensures var r := Run(rt, c, Configurations(settings));
      r.Next? ==> r.effects == []
    decreases |settings|
  {
    if settings != [] {
      var events := Configurations(settings);
      assert events[1..] == Configurations(settings[1..]);
      match Step(rt, c, events[0])
      case Crash(_) =>
      case Next(c1, _) =>
        SettingsAppendOneEach(rt, c1, settings[1..]);
    }
  }
}
