# Range sliders, set filters and column set-up of an ag-Grid table

This project models, in Dafny, the filtering core of a React front end that shows
tables in ag-Grid. The core has six parts.

- **The grid set-up** (`aggrid.jsx`). Each column description becomes a grid column
  definition:
  - a filter kind;
  - fixed width or flex;
  - the time-of-day filter value;
  - the cell style (threshold colour, then the colour map, where the last match
    wins).

  The same pass collects the lists that feed the filter tool panel. On the first
  data render, with no saved state, each column's `filterInclude` /
  `filterExclude` lists become initial set-filter models. The tool panel's stored
  width is also read back here.
- **The time helpers** (`utils.ts`). These are:
  - `displayTimeString` and `displayDateTimeString`, which zero-pad the UTC fields;
  - the `time` branch of `parseDateTimeValue`, with its `Date.UTC` arithmetic;
  - `extractTimeInMilliseconds`.

  The model proves that parsing a displayed time gives back the time of day.
- **The number range slider** of the tool panel. It covers:
  - the scan of the rows for the domain and the displayed window;
  - the two handles and the two text boxes (typing, focus, blur);
  - the commit of a range model whenever the window changes;
  - dragging the whole window along the track. The window keeps its width and
    stays inside the domain.
- **The two date range sliders**: the tool-panel one and the one mounted as a grid
  filter. Each has the same scan, handles, text boxes and track drag. The grid
  filter also has ag-Grid's `getModel` / `doesFilterPass` / `isFilterActive`
  interface.
- **The set filter** of the tool panel. It is a checklist of the distinct
  displayed values, sorted by the comparator, with a search box, "(All)", Apply
  and Reset. It also has the refresh signal that makes the other set filters
  rescan after an Apply.
- **The two column-visibility filters**: one in the tool panel and one mounted as
  a grid filter. Each is a checklist of the grid's columns that Apply turns into
  `hide` flags on the column definitions.

## How the model is organised

- Components whose state React updates become classes. Each class has that
  state's fields and one method per event handler. Each method states the new
  state in terms of the specification functions.
- The loops become methods proved against those functions:
  - the drag loop over pointer moves;
  - the column classification;
  - the row scan that builds `uniqueValues`;
  - `handleCheck`'s walk over the list;
  - the in-place `forEach` over the column definitions.
- Pure helpers become functions, and the lemmas state their properties:
  - the round trips between rendering and parsing;
  - the if-and-only-if descriptions of every list that is built;
  - ordering and permutation for the sort;
  - width, containment and commits for the drag.
- JavaScript's numbers are modelled in two ways:
  - as `real` where only comparisons and arithmetic matter;
  - as a small `JsNum` datatype, with `NaN` and the infinities, where `Math.max` /
    `Math.min` over an empty or non-numeric list matters.

  `Date` values are integers of milliseconds, within the ±8.64e15 range of a valid
  time.
- The search boxes fold case with the host's `toLowerCase`, which is a
  parameter (`Text.CaseMap`): it covers all of Unicode and is not a
  per-character map.
- React re-runs the set filter's rescan effect only when the refresh signal
  changes under `Object.is` (`FilterModel.Fires`). A new object always counts
  as a change; a boolean or string counts only when its value changes.
- The number filter's mount scan sets the minimum's text box from its own initial
  state. That initial state is `"0"`, so the box shows `"0"` while the maximum's
  box shows the displayed maximum. The model keeps this as written
  (`NumberFilterPanel.NumberFilter.constructor`).

## Model

| member | source | states |
|---|---|---|
| Text.NatToStringRoundTrip | frontend/src/components/utils.ts:7 | the decimal text of a non-negative integer reads back as that integer |
| Text.PadStart | frontend/src/components/utils.ts:7-13 | `padStart` gives the text right-aligned in at least `width` characters, filled on the left with the pad character, and unchanged when it is already that wide |
| Text.PaddedRoundTrip | frontend/src/components/utils.ts:7-13 | a zero-padded decimal rendering is all digits and still denotes the same number |
| Text.MatchesSearch | frontend/src/components/tool_panel/text_filter.jsx:88-89 | a key matches iff the folded term occurs at some position of the folded key (both folded with the host's `toLowerCase`); a term that folds to "" matches every key, and a match is never longer than the key |
| Text.ContainsIff | frontend/src/components/tool_panel/text_filter.jsx:89 | a search term matches iff it occurs at some position of the text |
| Text.EmptyContained | frontend/src/components/tool_panel/text_filter.jsx:84-89 | the empty search term matches every text |
| Text.IndexOf | frontend/src/components/utils.ts:73 | the position found is within the text and holds the character sought |
| Text.IndexOfFirst | frontend/src/components/utils.ts:73 | no earlier position holds the character, so the position is the first occurrence |
| Text.Split | frontend/src/components/utils.ts:81-82 | `split` always returns at least one part |
| Text.SplitCons | frontend/src/components/utils.ts:81-82 | splitting a separator-free head, the separator and a tail gives the head and then the parts of the tail |
| Text.SplitNone | frontend/src/components/utils.ts:81-82 | a text without the separator splits into itself alone |
| JsNumber.Trunc | frontend/src/components/utils.ts:84 | truncation toward zero: the result is within one of the input, on the side of zero |
| JsNumber.TruncOfInt | frontend/src/components/utils.ts:84 | truncating a whole number leaves it unchanged |
| JsNumber.JsRem | frontend/src/components/utils.ts:4 | JavaScript's `%` equals the Euclidean remainder for non-negative dividends and is non-positive and above `-b` for negative ones |
| JsNumber.ParseUnsigned | frontend/src/components/tool_panel/number_filter.jsx:91 | `Number()` of an unsigned decimal text is never negative, and a text it accepts holds a digit |
| JsNumber.ParseDecimal | frontend/src/components/tool_panel/number_filter.jsx:91 | `Number("")` is 0; any other text it accepts holds a digit; a negative result comes only from a leading `-` |
| JsNumber.ParseDigits | frontend/src/components/utils.ts:82 | `Number()` of a non-empty digit string is the value those digits denote |
| JsNumber.ParseIntToString | frontend/src/components/tool_panel/number_filter.jsx:91 | `Number()` of an integer's decimal text is that integer, negative ones included |
| JsNumber.SkipSpace | frontend/src/components/aggrid.jsx:132 | `parseInt`'s leading-whitespace skip returns a suffix that does not start with a JavaScript white-space or line-terminator character (tab, VT, FF, space, NBSP, BOM, the Unicode space separators, LF, CR, U+2028, U+2029) |
| JsNumber.SkipSpacePrefix | frontend/src/components/aggrid.jsx:132 | skipping white space before a text gives what skipping it on the text alone gives |
| JsNumber.ParseIntPrefix | frontend/src/components/aggrid.jsx:132 | `parseInt` gives a number only for a text holding a digit, and a negative one only when the first character after the white space is `-` |
| JsNumber.SignedDigits | frontend/src/components/aggrid.jsx:132 | after the white space: an optional sign and the longest digit run; a number only when a digit is present, negative only after `-` |
| JsNumber.ParseIntSkipsSpace | frontend/src/components/aggrid.jsx:132 | white space before the text does not change what `parseInt` reads |
| JsNumber.DigitPrefix | frontend/src/components/aggrid.jsx:132 | the longest run of digits at the head of the text |
| JsNumber.ParseIntOfRendering | frontend/src/components/aggrid.jsx:132 | `parseInt` of a stored decimal rendering, followed by anything that is not a digit, gives back the number |
| JsNumber.ParseIntOfDigits | frontend/src/components/aggrid.jsx:132 | `parseInt` of digits followed by a non-digit is the value of the digits |
| JsNumber.MathMax | frontend/src/components/tool_panel/number_filter.jsx:25-27 | `Math.max` of the spread list: -Infinity iff the list is empty, NaN iff a value is not a number, and otherwise an upper bound that is one of the values |
| JsNumber.MathMin | frontend/src/components/tool_panel/number_filter.jsx:26-28 | `Math.min` of the spread list: +Infinity iff the list is empty, NaN iff a value is not a number, and otherwise a lower bound that is one of the values |
| TimeUtils.FieldsRecombine | frontend/src/components/utils.ts:97-106 | the UTC hours, minutes, seconds and milliseconds are each in range, and their weighted sum is the time modulo one day |
| TimeUtils.ExtractTimeInMilliseconds | frontend/src/components/utils.ts:94-109 | a number iff the timestamp is a valid time (NaN otherwise), and then the milliseconds since UTC midnight, in [0, 86400000) |
| TimeUtils.ExtractTimeIdempotent | frontend/src/components/utils.ts:94-109 | extracting the time of day from a time of day leaves it unchanged |
| TimeUtils.PaddedField | frontend/src/components/utils.ts:7-13 | a field below 10^width is rendered as exactly `width` digits that spell it |
| TimeUtils.Pad2Field | frontend/src/components/utils.ts:7-11 | hours, minutes and seconds are rendered as two digits that spell them |
| TimeUtils.Pad3Field | frontend/src/components/utils.ts:13 | the milliseconds remainder is rendered as three digits that spell it |
| TimeUtils.DisplayTimeString | frontend/src/components/utils.ts:1-15 | at least twelve characters; for a valid time, two-digit hours, minutes and seconds with `:`, `:` and `.` at positions 2, 5 and 8; for an invalid one, the text starts `NaN:NaN:NaN.` |
| TimeUtils.Clock | frontend/src/components/utils.ts:7-14 | the join of in-range fields puts `:`, `:` and `.` at 2, 5 and 8, with two digits before each |
| TimeUtils.DisplayDateTimeString | frontend/src/components/utils.ts:28-48 | the date part, then `T` at its end, then exactly `displayTimeString` of the same time; so at least 13 characters longer than the date part |
| TimeUtils.TimeTextOf | frontend/src/components/utils.ts:1-15 | the time rendering spelled out for valid and invalid times |
| TimeUtils.RenderedText | frontend/src/components/utils.ts:1-15 | for a non-negative time, the rendering is the padded UTC fields, with the `time % 1000` remainder equal to the UTC milliseconds |
| TimeUtils.DisplayTimeShape | frontend/src/components/utils.ts:1-15 | the rendering has the shape `HH:MM:SS.mmm` and is all digits apart from the separators |
| TimeUtils.DateTimeSplit | frontend/src/components/utils.ts:28-48 | the date-time rendering is the date part, `T`, then exactly the time rendering |
| TimeUtils.DateTimeEndsWithTime | frontend/src/components/utils.ts:28-48 | the first `T` of a date-time rendering follows the date part, and what follows it is the time rendering |
| TimeUtils.ParseTime | frontend/src/components/utils.ts:80-85 | the `time` branch throws iff the text has fewer than three `:` parts, is never null, and any value it yields is within a day |
| TimeUtils.UtcTimeOfDay | frontend/src/components/utils.ts:83-85 | `Date.UTC` of the fields followed by the time extraction: a field that is not a number gives an invalid date, and any value is within a day |
| TimeUtils.TimeOfDay | frontend/src/components/utils.ts:90 | a value iff the total is a valid time, and then the total modulo one day |
| TimeUtils.ParseDateTimeValue | frontend/src/components/utils.ts:69-92 | an unknown formatter gives null; the `time` formatter never gives null and any value is within a day |
| TimeUtils.UtcTimeOfDayOfInts | frontend/src/components/utils.ts:83-85 | with whole-number fields, `Date.UTC` followed by the extraction is the weighted sum of the fields modulo one day |
| TimeUtils.ParseTimeParts | frontend/src/components/utils.ts:81-85 | a text that splits into hours, minutes and `seconds.ms` parses through `Number` of each part |
| TimeUtils.SplitTimeText | frontend/src/components/utils.ts:81-82 | the two splits of a digit-field time text give back its four fields |
| TimeUtils.ParseJoin | frontend/src/components/utils.ts:80-85 | parsing four digit fields joined by `:`, `:` and `.` uses the values those digits denote |
| TimeUtils.ParseDigitFields | frontend/src/components/utils.ts:80-90 | parsing digit fields that spell in-range hours, minutes, seconds and milliseconds gives their weighted sum |
| TimeUtils.ParseRenderedFields | frontend/src/components/utils.ts:80-90 | parsing the padded rendering of in-range fields gives their weighted sum |
| TimeUtils.ParseFieldsOfDay | frontend/src/components/utils.ts:80-90 | parsing the padded rendering of in-range fields gives the time of day they make up |
| TimeUtils.ParseUtcFields | frontend/src/components/utils.ts:80-90 | parsing the padded UTC fields of any time gives that time modulo one day |
| TimeUtils.ParseDisplayedTime | frontend/src/components/utils.ts:80-90 | the round trip: parsing `displayTimeString(t)` as a time gives `t` modulo one day for every non-negative valid `t` |
| TimeUtils.TimeOfDayRoundTrip | frontend/src/components/utils.ts:80-90 | the round trip: parsing the rendering of a time of day gives it back unchanged |
| FilterModel.Values | frontend/src/components/tool_panel/number_filter.jsx:20-21 | the scan's `values` list holds every row's value, in row order |
| FilterModel.DisplayedValuesIff | frontend/src/components/tool_panel/number_filter.jsx:20-23 | a value is in `displayedValues` iff some displayed row carries it |
| FilterModel.DisplayedAreValues | frontend/src/components/tool_panel/number_filter.jsx:20-23 | every displayed value is among all values, so a non-empty displayed list implies a non-empty value list |
| FilterModel.Toggled | frontend/src/components/tool_panel/number_filter.jsx:55 | the number slider's refresh flips the raised state of the panel's signal |
| FilterModel.ShouldRescan | frontend/src/components/tool_panel/text_filter.jsx:10 | a boolean or string signal never skips the rescan; an object signal skips it iff it names this column |
| FilterModel.Fires | frontend/src/components/tool_panel/text_filter.jsx:28 | the effect re-runs on every new object signal, and on a boolean or string signal iff it differs from the previous one (`Object.is`) |
| FilterModel.RescanAfterApply | frontend/src/components/tool_panel/text_filter.jsx:9-28 | after Apply on a column every other set filter rescans; after Reset or a number-slider commit every set filter rescans; after a date-slider commit they rescan iff the signal was not already `"filter"` |
| FilterModel.RepeatedDateCommitStale | frontend/src/components/tool_panel/date_filter.jsx:90 | a second date-slider commit in a row leaves the signal `"filter"` unchanged, so no set filter rescans |
| RangeSlider.CalculateStep | frontend/src/components/tool_panel/number_filter.jsx:12-15 | the step is one hundredth of a non-empty domain and 1 for a single point, and positive whenever min <= max |
| RangeSlider.StepSpansDomain | frontend/src/components/tool_panel/number_filter.jsx:12-15 | a hundred steps span a non-empty domain exactly, and the step is positive whenever min <= max |
| RangeSlider.ClampBelow | frontend/src/components/tool_panel/number_filter.jsx:79 | the lower handle stops at the upper bound: the new value is the slide or the bound, whichever is smaller |
| RangeSlider.ClampAbove | frontend/src/components/tool_panel/number_filter.jsx:83 | the upper handle stops at the lower bound: the new value is the slide or the bound, whichever is larger |
| RangeSlider.ClampsKeepOrder | frontend/src/components/tool_panel/number_filter.jsx:76-87 | both clamps keep an ordered window ordered |
| RangeSlider.ClampMaxAsWritten | frontend/src/components/tool_panel/date_filter.jsx:199 | the tool-panel date slider's upper handle as wired: the result never exceeds the lower bound |
| RangeSlider.ClampMaxAsWrittenInverts | frontend/src/components/tool_panel/date_filter.jsx:61-71 | with lower bound 5, the wired upper handle sets 3 (an inverted window) for a slide to 3 and pins at 5 for a slide to 8, where the intended clamp gives 5 and 8 |
| RangeSlider.ShiftStep | frontend/src/components/tool_panel/number_filter.jsx:131-151 | one pointer move of the number slider's track drag keeps the window's width and keeps a window inside the domain inside it |
| RangeSlider.EdgeStepAsWritten | frontend/src/components/tool_panel/date_filter.jsx:124-142 | the tool-panel date slider's move as written (shown state and local copies): inside the domain, both shift by the offset |
| RangeSlider.EdgeStepAsWrittenCollapses | frontend/src/components/tool_panel/date_filter.jsx:141 | when the window runs past the upper edge, the locals become `(max, max)` and the shown window starts at `max` and ends below it |
| RangeSlider.EdgeStepAsWrittenExample | frontend/src/components/tool_panel/date_filter.jsx:141 | on domain 0..100, window 40..90 and a 20-unit move right, the shown window is (100, 50) and the locals (100, 100); the corrected step gives (50, 100) |
| RangeSlider.EdgeStep | frontend/src/components/tool_panel/date_filter.jsx:128-142 | the date slider's move, with the upper edge pinned as the lower one is: the width is kept and a window inside the domain stays inside |
| RangeSlider.EdgeStepAgrees | frontend/src/components/tool_panel/date_filter.jsx:128-142 | the written and corrected moves differ only in the upper-edge branch |
| RangeSlider.Offsets | frontend/src/components/tool_panel/number_filter.jsx:126-134 | the pointer positions of a drag give exactly one value offset per move |
| RangeSlider.OffsetsNext | frontend/src/components/tool_panel/number_filter.jsx:133-134 | each move's offset is `dt` times the distance from the previous pointer position |
| RangeSlider.Move | frontend/src/components/tool_panel/number_filter.jsx:135-151 | either slider's move keeps the width and keeps the window inside the domain |
| RangeSlider.Changed | frontend/src/components/tool_panel/number_filter.jsx:46-57 | the commit effect: no commit iff the window is unchanged, otherwise one `>= lo AND <= hi` number model |
| RangeSlider.DragCommits | frontend/src/components/tool_panel/number_filter.jsx:46-57 | a drag commits at most once per move |
| RangeSlider.DragNext | frontend/src/components/tool_panel/number_filter.jsx:131-152 | one more move applies one more step to the window reached so far |
| RangeSlider.DragKeepsWidth | frontend/src/components/tool_panel/number_filter.jsx:131-151 | a whole drag keeps the window's width |
| RangeSlider.DragStaysWithin | frontend/src/components/tool_panel/number_filter.jsx:135-151 | a whole drag keeps a window inside the domain inside it |
| RangeSlider.DragCommitsWithin | frontend/src/components/tool_panel/number_filter.jsx:46-57 | every model committed during a drag is an ordered range within the domain with the starting width, and the last one is where the drag ends |
| RangeSlider.MoveWindow | frontend/src/components/tool_panel/number_filter.jsx:133-151 | the handler's in-place updates of `minV`/`maxV` compute one shift step |
| RangeSlider.ShiftDrag | frontend/src/components/tool_panel/number_filter.jsx:125-152 | the move-handler loop ends on the drag's window and commits exactly the drag's changes |
| RangeSlider.MoveEdgeWindow | frontend/src/components/tool_panel/date_filter.jsx:126-142 | the date handler's updates compute one (corrected) edge step |
| RangeSlider.EdgeDrag | frontend/src/components/tool_panel/date_filter.jsx:118-144 | the date move-handler loop ends on the drag's window |
| DateFormat.NumberText | frontend/src/components/tool_panel/number_filter.jsx:118 | `toString` of a whole number is its decimal text |
| DateFormat.NumberTextRoundTrip | frontend/src/components/tool_panel/number_filter.jsx:118 | `Number()` of a whole number's `toString` gives the number back |
| DateFormat.FormatValue | frontend/src/components/tool_panel/date_filter.jsx:29-36 | the unknown formatter shows the number itself; the others use the utils renderings |
| DateFormat.FormatTimeRoundTrip | frontend/src/components/tool_panel/date_filter.jsx:56 | parsing a shown time of day gives it back |
| DateFormat.FormatDateTimeJoins | frontend/src/components/tool_panel/date_filter.jsx:54 | a shown date-time is the date part, `T`, and the shown time |
| DateFormat.FormatOtherRoundTrip | frontend/src/components/tool_panel/date_filter.jsx:57 | with an unknown formatter, a shown whole number reads back as itself |
| DateFormat.TimeClip | frontend/src/components/utils.ts:95 | `new Date(x)` is valid iff `x` is within ±8.64e15, and is then that whole number of milliseconds |
| DateFormat.TimeOfCell | frontend/src/components/tool_panel/date_filter.jsx:16 | a time-formatted cell becomes a whole number within one day, or NaN |
| DateFormat.TimeOfDayCell | frontend/src/components/tool_panel/date_filter.jsx:16 | a time of day is its own extracted time |
| DateFormat.TimeOfCellFixes | frontend/src/components/tool_panel/date_filter.jsx:16 | extracting the time twice is extracting it once |
| DateFormat.ScanRows | frontend/src/components/tool_panel/date_filter.jsx:15-19 | the scan keeps each row's display flag and maps each value through the time extraction exactly when the formatter is `time` |
| DateFormat.ChangeOutcome | frontend/src/components/tool_panel/date_filter.jsx:94-115 | typing: ignored iff the parse throws, accepted iff the parse gives a non-zero value (then that value), otherwise the box is reset |
| DateFormat.ShownTimeAccepted | frontend/src/components/tool_panel/date_filter.jsx:95-105 | typing back a shown time of day after midnight is accepted as that time |
| DateFormat.MidnightReverted | frontend/src/components/tool_panel/date_filter.jsx:106-114 | typing back the shown midnight is rejected, because the parsed 0 is falsy |
| DateFormat.OtherFormatNeverAccepts | frontend/src/components/utils.ts:86-88 | with an unknown formatter, no typed text is ever accepted |
| DateFormat.TimeValuesInDay | frontend/src/components/tool_panel/date_filter.jsx:15-19 | every scanned time value is within one day |
| DateFormat.ExtremesInDay | frontend/src/components/tool_panel/date_filter.jsx:21-24 | the extremes of values within a day are within the day |
| NumberFilterPanel.Scan | frontend/src/components/tool_panel/number_filter.jsx:17-38 | a displayed window is seeded iff no value is NaN and some row is displayed; otherwise the domain is [0, 0] with step 1 |
| NumberFilterPanel.ScanBounds | frontend/src/components/tool_panel/number_filter.jsx:17-38 | the seeded window is inside the domain, the step is the calculated one, and every row's value is a number within the domain |
| NumberFilterPanel.ScanSeedsDisplayed | frontend/src/components/tool_panel/number_filter.jsx:27-33 | the seeded window's ends are displayed values, and every displayed value lies between them |
| NumberFilterPanel.TypedMin | frontend/src/components/tool_panel/number_filter.jsx:92-97 | typing into the minimum box: the new minimum is the typed number when it is at most the maximum, otherwise unchanged |
| NumberFilterPanel.TypedMax | frontend/src/components/tool_panel/number_filter.jsx:99-102 | typing into the maximum box: the new maximum is the typed number when it is at least the minimum, otherwise unchanged |
| NumberFilterPanel.TypedBoundsIff | frontend/src/components/tool_panel/number_filter.jsx:89-103 | a typed number is taken exactly when it keeps the window ordered |
| NumberFilterPanel.FocusTextKeepsBound | frontend/src/components/tool_panel/number_filter.jsx:115-123 | re-typing the text that focus shows leaves the bound unchanged |
| NumberFilterPanel.NumberFilter.constructor | frontend/src/components/tool_panel/number_filter.jsx:3-57 | the mount: domain from the scan, window seeded from the displayed values, the minimum's box left at "0", one commit of the seeded window |
| NumberFilterPanel.NumberFilter.Slide | frontend/src/components/tool_panel/number_filter.jsx:76-87 | a handle moves to its clamp, the box shows the new value, and the window commits iff it changed |
| NumberFilterPanel.NumberFilter.InputChange | frontend/src/components/tool_panel/number_filter.jsx:89-103 | the box keeps the typed text, the bound follows the typed bounds rule, and the window commits iff it changed |
| NumberFilterPanel.NumberFilter.Focus | frontend/src/components/tool_panel/number_filter.jsx:115-123 | the box enters editing and shows the bound's plain text; nothing else changes |
| NumberFilterPanel.NumberFilter.Blur | frontend/src/components/tool_panel/number_filter.jsx:105-113 | the box leaves editing and shows the formatted bound; nothing else changes |
| NumberFilterPanel.NumberFilter.TrackDrag | frontend/src/components/tool_panel/number_filter.jsx:125-160 | the window ends on the drag's window, and the commits are the drag's changes |
| DateFilterPanel.Scan | frontend/src/components/tool_panel/date_filter.jsx:11-44 | the scan stops iff some value is NaN; otherwise the domain bounds are -Infinity / +Infinity iff there are no rows and finite otherwise, and the seeded window is (+Infinity, -Infinity) iff no row is displayed and finite otherwise |
| DateFilterPanel.ScanDomain | frontend/src/components/tool_panel/date_filter.jsx:11-44 | when the scan stops or seeds from a displayed row, its result in real numbers: [0, 0] with no window after a stop, else the scan's own bounds and window |
| DateFilterPanel.ScanWithin | frontend/src/components/tool_panel/date_filter.jsx:21-43 | the seeded window is ordered and inside the domain |
| DateFilterPanel.TimeScanWithinDay | frontend/src/components/tool_panel/date_filter.jsx:15-27 | with the time formatter, the domain lies within one day |
| DateFilterPanel.DateFilter.constructor | frontend/src/components/tool_panel/date_filter.jsx:4-44 | the mount (when the scan stops or some row is displayed): domain and window from the scan, the boxes showing the formatted window, no commit |
| DateFilterPanel.DateFilter.Slide | frontend/src/components/tool_panel/date_filter.jsx:61-71 | a handle moves to its (corrected) clamp and its box shows it; an ordered window stays ordered; nothing is committed |
| DateFilterPanel.DateFilter.HandleMouseUp | frontend/src/components/tool_panel/date_filter.jsx:191 | releasing a handle commits the current window unchanged |
| DateFilterPanel.DateFilter.Change | frontend/src/components/tool_panel/date_filter.jsx:94-115 | typing: an accepted value moves the bound, keeps the text and commits; a reset restores the box and commits the window unchanged; a throw changes nothing |
| DateFilterPanel.DateFilter.TrackDrag | frontend/src/components/tool_panel/date_filter.jsx:118-153 | the window ends on the (corrected) drag's window and releasing commits it |
| DateFilterPanel.DragCommitWithin | frontend/src/components/tool_panel/date_filter.jsx:124-149 | with the corrected edge step, the window committed on release is inside the domain and as wide as the starting one |
| DateGridFilter.Scan | frontend/src/components/custom_filters/date_filter.jsx:20-52 | a window is seeded iff no value is NaN, and it is [0, 0] when no row is displayed; otherwise the domain and window are [0, 0] |
| DateGridFilter.ScanWithin | frontend/src/components/custom_filters/date_filter.jsx:30-35 | with displayed rows, the seeded window is inside the domain and spans every displayed value |
| DateGridFilter.ScanEndsDisplayed | frontend/src/components/custom_filters/date_filter.jsx:30-35 | with displayed rows, both ends of the seeded window are displayed values |
| DateGridFilter.PassesIsRangeModel | frontend/src/components/custom_filters/date_filter.jsx:155-158 | a row passes iff its value lies in the window, as the range model admits it; a non-number never passes |
| DateGridFilter.InactivePassesDomain | frontend/src/components/custom_filters/date_filter.jsx:155-159 | with the window at the domain, every value of the domain passes, and no value outside it ever does |
| DateGridFilter.PassesScanned | frontend/src/components/custom_filters/date_filter.jsx:25 | corrected (see Findings row 4): under the `time` formatter a row passes iff its time of day is a number inside the window; under any other, iff its value is |
| DateGridFilter.ScannedPassesDomain | frontend/src/components/custom_filters/date_filter.jsx:20-52 | corrected (see Findings row 4): with the window at the scanned domain, every scanned row passes, under any formatter |
| DateGridFilter.TimeWindowRejectsRawValue | frontend/src/components/custom_filters/date_filter.jsx:155-158 | as written (see Findings row 4): a row 25 h after the epoch has time of day 1 h, which the window [1 h, 1.5 h] admits, but its raw value is rejected |
| DateGridFilter.DateFilter.GetModel | frontend/src/components/custom_filters/date_filter.jsx:151-154 | the model is the current window |
| DateGridFilter.DateFilter.DoesFilterPass | frontend/src/components/custom_filters/date_filter.jsx:155-158 | as written (see Findings row 4): a row passes iff its raw value is a number inside the window |
| DateGridFilter.DateFilter.IsFilterActive | frontend/src/components/custom_filters/date_filter.jsx:159 | inactive iff the window is the whole domain |
| DateGridFilter.DateFilter.constructor | frontend/src/components/custom_filters/date_filter.jsx:10-52 | the mount: domain and window from the scan, the boxes formatted, not sliding, no notification |
| DateGridFilter.DateFilter.Slide | frontend/src/components/custom_filters/date_filter.jsx:84-93 | a handle moves to its clamp and its box shows it; nothing is notified |
| DateGridFilter.DateFilter.HandleMouseDown | frontend/src/components/custom_filters/date_filter.jsx:203 | pressing a handle starts a slide and changes nothing else |
| DateGridFilter.DateFilter.DocumentMouseUp | frontend/src/components/custom_filters/date_filter.jsx:60-73 | a mouse-up notifies the grid once iff a slide was in progress, and ends the slide |
| DateGridFilter.DateFilter.Change | frontend/src/components/custom_filters/date_filter.jsx:95-108 | typing: an accepted value moves the bound and keeps the text, a reset restores the box, and a throw changes nothing; no notification |
| DateGridFilter.DateFilter.TrackDrag | frontend/src/components/custom_filters/date_filter.jsx:110-148 | the window ends on the drag's window; releasing notifies once, plus once more from the document listener if a slide was in progress |
| Checklist.Keys | frontend/src/components/tool_panel/text_filter.jsx:58 | the item values, in list order |
| Checklist.Toggle | frontend/src/components/tool_panel/text_filter.jsx:31-36 | exactly the items with the clicked label flip their check; the others are unchanged |
| Checklist.ToggleTwice | frontend/src/components/tool_panel/text_filter.jsx:30-44 | clicking the same label twice restores the list |
| Checklist.ToggleKeepsKeys | frontend/src/components/tool_panel/text_filter.jsx:30-44 | a click keeps the values and their order |
| Checklist.SetAll | frontend/src/components/tool_panel/text_filter.jsx:46-50 | "(All)" gives every item the box's state and changes nothing else |
| Checklist.SetAllAgrees | frontend/src/components/tool_panel/text_filter.jsx:46-55 | after "(All)", every item is checked iff the box is on (or the list is empty), and the values are kept |
| Checklist.CheckedKeys | frontend/src/components/tool_panel/text_filter.jsx:58 | the submitted values number at most the items |
| Checklist.CheckedKeysIff | frontend/src/components/tool_panel/text_filter.jsx:58 | a value is submitted iff some checked item carries it |
| Checklist.CheckedKeysOfSetAll | frontend/src/components/tool_panel/column_filter.jsx:51 | with every item checked all values are submitted, and with none checked none are |
| Checklist.Search | frontend/src/components/tool_panel/text_filter.jsx:88-89 | the search keeps at most the items it was given |
| Checklist.SearchIff | frontend/src/components/tool_panel/text_filter.jsx:88-89 | an item is shown iff it is listed and its value, folded by the host's `toLowerCase`, contains the folded term |
| Checklist.SearchAppend | frontend/src/components/tool_panel/text_filter.jsx:89 | the search filters each part of a list independently |
| Checklist.SearchEmpty | frontend/src/components/tool_panel/text_filter.jsx:84-89 | the empty term (which every case map sends to "") shows the whole list |
| Checklist.Dedup | frontend/src/components/tool_panel/text_filter.jsx:12-17 | the `Set` of displayed values has at most as many entries as there were values |
| Checklist.DedupIff | frontend/src/components/tool_panel/text_filter.jsx:12-17 | a value is in the `Set` iff it was added |
| Checklist.DedupDistinct | frontend/src/components/tool_panel/text_filter.jsx:12-17 | the `Set` holds no value twice |
| Checklist.DedupSnoc | frontend/src/components/tool_panel/text_filter.jsx:16 | adding a value appends it iff it is new, keeping first-insertion order |
| Checklist.DistinctDisplayed | frontend/src/components/tool_panel/text_filter.jsx:12-19 | the scan loop builds the insertion-ordered `Set` of the displayed values |
| Checklist.Insert | frontend/src/components/tool_panel/text_filter.jsx:23 | inserting adds exactly one element, at the front or after the first |
| Checklist.Sort | frontend/src/components/tool_panel/text_filter.jsx:23 | sorting keeps the length |
| Checklist.InsertSorted | frontend/src/components/tool_panel/text_filter.jsx:23 | inserting into a sorted list keeps it sorted under a total comparator |
| Checklist.InsertPermutes | frontend/src/components/tool_panel/text_filter.jsx:23 | inserting adds exactly that element to the multiset |
| Checklist.SortSpec | frontend/src/components/tool_panel/text_filter.jsx:23 | the sort is sorted by the comparator and a permutation of its input |
| Checklist.Checked | frontend/src/components/tool_panel/text_filter.jsx:19-22 | each value becomes one checked item, in order |
| Checklist.CheckedSubmitsValues | frontend/src/components/tool_panel/text_filter.jsx:19-22 | a freshly built list is all checked and submits exactly its values |
| Checklist.ColumnItems | frontend/src/components/tool_panel/column_filter.jsx:10-14 | one item per grid column: its id, its header, checked iff visible |
| Checklist.HideUnchecked | frontend/src/components/custom_filters/column_filter.jsx:53-58 | each definition's `hide` becomes "field is not a checked column id", and nothing else changes |
| Checklist.HideUncheckedIff | frontend/src/components/custom_filters/column_filter.jsx:53-58 | after Apply, a column is shown iff some checked item has its field as id |
| TextFilterPanel.Fresh | frontend/src/components/tool_panel/text_filter.jsx:12-27 | a rescan lists at most one item per row |
| TextFilterPanel.Rescan | frontend/src/components/tool_panel/text_filter.jsx:12-27 | the effect's body computes the fresh list |
| TextFilterPanel.PermutationDistinct | frontend/src/components/tool_panel/text_filter.jsx:23 | sorting a distinct list keeps it distinct |
| TextFilterPanel.FreshSpec | frontend/src/components/tool_panel/text_filter.jsx:12-27 | a rescan lists every displayed value exactly once, sorted by the comparator, all checked, and nothing else |
| TextFilterPanel.FreshSubmitsAll | frontend/src/components/tool_panel/text_filter.jsx:57-58 | applying straight after a rescan submits every listed value |
| TextFilterPanel.ToggleMatching | frontend/src/components/tool_panel/text_filter.jsx:31-36 | the walk over the list computes the click's toggle |
| TextFilterPanel.TextFilter.constructor | frontend/src/components/tool_panel/text_filter.jsx:3-28 | the mount runs the rescan unless the signal names this column, and records the signal |
| TextFilterPanel.TextFilter.Refreshed | frontend/src/components/tool_panel/text_filter.jsx:9-28 | the new signal is recorded; when the effect does not re-run (same boolean or string) or the signal names this column the list is unchanged; otherwise the list is rebuilt; the search text is kept |
| TextFilterPanel.TextFilter.Check | frontend/src/components/tool_panel/text_filter.jsx:30-44 | a click toggles the matching items, recomputes "(All)" and re-applies an active search |
| TextFilterPanel.TextFilter.CheckAll | frontend/src/components/tool_panel/text_filter.jsx:46-55 | "(All)" sets every item and shows the whole list |
| TextFilterPanel.TextFilter.FilterNodes | frontend/src/components/tool_panel/text_filter.jsx:81-92 | the term is stored and the visible list is the search of the full list |
| TextFilterPanel.TextFilter.Apply | frontend/src/components/tool_panel/text_filter.jsx:57-70 | Apply submits the checked values as a set model, returns a new signal naming this column and clears the search; the signal the filter last saw is kept until the caller refreshes it |
| TextFilterPanel.TextFilter.Reset | frontend/src/components/tool_panel/text_filter.jsx:72-79 | Reset removes the model, returns a new signal naming no column and clears the search; the signal the filter last saw is kept until the caller refreshes it |
| TextFilterPanel.CheckKeepsSearch | frontend/src/components/tool_panel/text_filter.jsx:43 | a click does not change which values an active search shows |
| ColumnGridFilter.ListedColumns | frontend/src/components/custom_filters/column_filter.jsx:10-11 | the listed columns are at most the grid's |
| ColumnGridFilter.ListedColumnsIff | frontend/src/components/custom_filters/column_filter.jsx:10-16 | every grid column except `columnFilter` is listed, and nothing else |
| ColumnGridFilter.OnlyFilterColumnHidden | frontend/src/components/custom_filters/column_filter.jsx:66-69 | Reset hides exactly the `columnFilter` column and keeps every field and id |
| ColumnGridFilter.OnlyFilterColumnHiddenIdempotent | frontend/src/components/custom_filters/column_filter.jsx:65-69 | resetting twice is resetting once |
| ColumnGridFilter.DoesFilterPass | frontend/src/components/custom_filters/column_filter.jsx:99 | every row passes |
| ColumnGridFilter.IsFilterActive | frontend/src/components/custom_filters/column_filter.jsx:100 | the filter is never active |
| ColumnGridFilter.ColumnFilter.constructor | frontend/src/components/custom_filters/column_filter.jsx:9-23 | the mount lists the columns other than `columnFilter`, checked when visible |
| ColumnGridFilter.ColumnFilter.Check | frontend/src/components/custom_filters/column_filter.jsx:25-39 | a click toggles the columns with that header and shows the whole list; with a search term present, the handler then throws |
| ColumnGridFilter.ColumnFilter.CheckAll | frontend/src/components/custom_filters/column_filter.jsx:41-50 | "(All)" sets every column and shows the whole list |
| ColumnGridFilter.ColumnFilter.FilterNodes | frontend/src/components/custom_filters/column_filter.jsx:83-95 | the term is stored; an empty one leaves the visible list alone, and any other shows the matching column ids |
| ColumnGridFilter.ColumnFilter.Apply | frontend/src/components/custom_filters/column_filter.jsx:52-63 | new definitions hide exactly the columns that are not checked, and the search clears |
| ColumnGridFilter.ColumnFilter.Reset | frontend/src/components/custom_filters/column_filter.jsx:65-81 | only `columnFilter` stays hidden and every item is checked |
| ColumnFilterPanel.HideUncheckedInPlace | frontend/src/components/tool_panel/column_filter.jsx:53-56 | the in-place `forEach` leaves the array equal to the hide-unchecked definitions |
| ColumnFilterPanel.ShowAllInPlace | frontend/src/components/tool_panel/column_filter.jsx:63-66 | the in-place `forEach` shows every definition and changes nothing else |
| ColumnFilterPanel.ColumnFilter.constructor | frontend/src/components/tool_panel/column_filter.jsx:9-21 | the mount lists every grid column, checked when visible |
| ColumnFilterPanel.ColumnFilter.Check | frontend/src/components/tool_panel/column_filter.jsx:23-37 | with any column listed, the click throws on an undeclared variable and changes nothing |
| ColumnFilterPanel.ColumnFilter.CheckAll | frontend/src/components/tool_panel/column_filter.jsx:39-48 | "(All)" sets every column and shows the whole list |
| ColumnFilterPanel.ColumnFilter.FilterNodes | frontend/src/components/tool_panel/column_filter.jsx:79-91 | the term is stored and the visible list is the search of the column ids |
| ColumnFilterPanel.ColumnFilter.Apply | frontend/src/components/tool_panel/column_filter.jsx:50-60 | the grid's definitions are rewritten in place to hide the unchecked columns, and the search clears |
| ColumnFilterPanel.ColumnFilter.Reset | frontend/src/components/tool_panel/column_filter.jsx:62-77 | every definition is shown in place and every item is checked |
| ColumnFilterPanel.ApplyAfterReset | frontend/src/components/tool_panel/column_filter.jsx:50-77 | Apply after Reset shows exactly the columns whose field is some listed column id |
| AgGrid.KindOf | frontend/src/components/aggrid.jsx:24-40 | the definition's own `filter` property: `text` gives the set filter, `number` and `date` the number filter, anything else leaves it unset, so `defaultColDef`'s `filter: true` gives ag-Grid's default filter |
| AgGrid.GridDefOf | frontend/src/components/aggrid.jsx:20-97 | the definition carries the field, the header, the initial hide, the filter kind, the time-of-day getter, fixed width or flex (a zero width is falsy), and the initial sort |
| AgGrid.Entries | frontend/src/components/aggrid.jsx:27 | a panel list holds at most one entry per column |
| AgGrid.EntriesIff | frontend/src/components/aggrid.jsx:24-40 | an entry is in a kind's panel list iff some column of that kind produced it |
| AgGrid.ClassifyColumn | frontend/src/components/aggrid.jsx:24-40 | the switch appends the column's entry to its kind's list only, and reports whether it was a filter kind |
| AgGrid.GridDefs | frontend/src/components/aggrid.jsx:16-100 | one definition per column |
| AgGrid.GridDefsAt | frontend/src/components/aggrid.jsx:16-100 | the i-th definition is the i-th column's |
| AgGrid.AnyFilterIff | frontend/src/components/aggrid.jsx:19-39 | `isFilters` is set iff some column has a filter kind |
| AgGrid.ClassifyStep | frontend/src/components/aggrid.jsx:20-98 | one column of the memo's loop extends every list by that column's contribution |
| AgGrid.BuildColumnDefs | frontend/src/components/aggrid.jsx:16-101 | the memo returns every column's definition, and hands the panel lists over iff some column was seen with the column filter on or a filter kind |
| AgGrid.FilterValue | frontend/src/components/aggrid.jsx:64-67 | only time columns get a filter value other than the cell |
| AgGrid.FilterValuesMatchScan | frontend/src/components/aggrid.jsx:66 | the grid filters a time column on the same time-of-day value that the slider scans, which lies within a day |
| AgGrid.BaseColor | frontend/src/components/aggrid.jsx:74-81 | with a threshold, the colour is `colorUp` iff the value is at least the threshold and `colorDown` otherwise; without one, the column colour |
| AgGrid.Overridden | frontend/src/components/aggrid.jsx:83-85 | the colour is the base colour when no colour-map entry equals the value, and otherwise the base or the colour of an entry that equals it |
| AgGrid.LastMatchWins | frontend/src/components/aggrid.jsx:83-85 | the colour map's last entry equal to the value decides the colour |
| AgGrid.NoMatchKeepsBase | frontend/src/components/aggrid.jsx:83-85 | with no matching entry the base colour stays |
| AgGrid.CellStyle | frontend/src/components/aggrid.jsx:73-88 | the style's colour is the overridden base colour, and its background and alignment are the column's |
| AgGrid.PanelWidth | frontend/src/components/aggrid.jsx:132 | the tool panel's width is never zero: missing, unparsable or zero text falls back to 223 |
| AgGrid.PanelWidthRoundTrip | frontend/src/components/aggrid.jsx:132 | a stored positive width reads back unchanged; a stored 0 falls back to 223 |
| AgGrid.ColumnRows | frontend/src/components/aggrid.jsx:194-195 | each row contributes its value in that column and its display flag |
| AgGrid.IncludeValues | frontend/src/components/aggrid.jsx:188 | the include list keeps at most the wanted values |
| AgGrid.IncludeValuesIff | frontend/src/components/aggrid.jsx:188 | a value is submitted iff it is wanted and not excluded |
| AgGrid.ScanStep | frontend/src/components/aggrid.jsx:194-200 | one row of the `uniqueValues` loop keeps the key order and the display map exact |
| AgGrid.ScanKeys | frontend/src/components/aggrid.jsx:193-201 | `uniqueValues` holds each value once in first-seen order, mapped to whether any row with it is displayed |
| AgGrid.ShownIsSpec | frontend/src/components/aggrid.jsx:193-201 | that map is exactly "value is displayed" over the column's values |
| AgGrid.ExcludeValuesAsWritten | frontend/src/components/aggrid.jsx:202-205 | the written pipeline: every value it keeps is a displayed, non-excluded key |
| AgGrid.HiddenValueLeavesUndefined | frontend/src/components/aggrid.jsx:202-205 | as written, any value that only occurs hidden leaves an `undefined` entry in the submitted values |
| AgGrid.ExcludeExample | frontend/src/components/aggrid.jsx:202-205 | rows `a` (displayed) and `b` (hidden) with `a` excluded submit `[undefined]` as written and `[]` corrected |
| AgGrid.ExcludeValues | frontend/src/components/aggrid.jsx:202-205 | the corrected pipeline keeps at most the keys |
| AgGrid.ExcludeValuesIff | frontend/src/components/aggrid.jsx:202-205 | corrected: a value is submitted iff it is a key, displayed, and not excluded |
| AgGrid.ExcludeForIff | frontend/src/components/aggrid.jsx:192-205 | corrected: a value is submitted iff some displayed row carries it and it is not excluded |
| AgGrid.ExcludeFor | frontend/src/components/aggrid.jsx:192-205 | corrected (see Findings row 3): at most one value per row, none of them excluded |
| AgGrid.ColumnInitial | frontend/src/components/aggrid.jsx:184-214 | corrected in its exclude branch (see Findings row 3): a column throws iff it has a non-empty include list and no exclude list |
| AgGrid.InitialsStopAtThrow | frontend/src/components/aggrid.jsx:183-215 | once a column throws, no later column contributes a model |
| AgGrid.Initials | frontend/src/components/aggrid.jsx:183-215 | corrected in the exclude branch (see Findings row 3): the walk throws iff some column throws, and sets at most one model per column, each for a listed field |
| AgGrid.ColumnStep | frontend/src/components/aggrid.jsx:184-214 | corrected in the exclude branch (see Findings row 3): the loop body for one column computes that column's initial model |
| AgGrid.FirstDataRendered | frontend/src/components/aggrid.jsx:180-216 | corrected in the exclude branch (see Findings row 3): with saved state nothing is set; otherwise the models are the columns' initial models, up to the first throw |

## Left out

- Browser I/O is left out: `localStorage`, the `ResizeObserver`, `onStateUpdated`
  and the React render. Stored strings and saved state are parameters.
- `Intl.NumberFormat` (the number filter's `valueFormatter` and the grid's cell
  formatter) is an opaque `real -> string` parameter.
- `cellRenderer` and the grid's number `valueFormatter` are left out, because they
  only build display markup.
- Host-local time is a parameter (`localParse`, `datePart`): `getFullYear`,
  `new Date(year, month, ...)`, and the `date` / `datetime` parse branches. Only
  the UTC `time` path is computed.
- `displayDateString` and `formattedDateAndTime` are not modelled apart from as
  the date part above.
- `Number#toString` of non-integral numbers is a parameter (`fraction`,
  `nonIntegral`). Only whole numbers are rendered exactly.
- `Number()` is modelled on optional signs, digits and one decimal point. There
  is no whitespace trimming, no exponents, and no `Infinity` / hex forms.
- JsNumber.ParseIntPrefix: the `0x` / `0X` prefix, which makes `parseInt` read
  hexadecimal, is left out. The text it reads is a stored column width, which
  the grid writes in decimal.
- NaN and ±Infinity reach the sliders only through the scan (`JsNum`); window
  bounds are finite reals.
- DateFilterPanel.DateFilter.constructor: requires that the scan stops at a NaN
  value or sees a displayed row (`FiniteScan`). `Scan` itself is total and states
  the seed (+Infinity, -Infinity) for valid values with no displayed row, and the
  domain (-Infinity, +Infinity) for no rows. The slider's window is held in reals,
  and formatting an infinite bound is host behaviour, so that mount is left out.
- DateGridFilter.Scan: requires at least one row. With none, `Math.max()` of the
  empty list makes the domain infinite.
- NumberFilterPanel.NumberFilter.TrackDrag: requires a positive track width. A
  zero width gives an infinite `dt`.
- DateFilterPanel.DateFilter.TrackDrag: requires a positive track width, for the
  same reason.
- DateGridFilter.DateFilter.TrackDrag: requires a positive track width, for the
  same reason.
- RangeSlider.ShiftDrag: each drag is modelled as one uninterrupted sequence of
  pointer moves. Interleaving with slides or typing during the drag is left out.
- The slider background (`linear-gradient` percentages) is left out, because it
  is display only.
- Search terms are compared as substrings after folding both sides with the
  host's `toLowerCase`, which is a parameter (`CaseMap`). Regex metacharacters,
  and the exception an invalid pattern raises, are left out.
- `localeCompare` is an abstract total comparator (`leq`). The stable insertion
  sort stands for `Array#sort`.
- Set-filter values are modelled as strings. The `String(...)` of non-string
  cells is left out.
- AgGrid.ColumnSpec: `colorMap` is always a (possibly empty) list. A column
  definition without one makes `Object.entries(undefined)` throw in the cell
  style callback; that exception is left out.
- `Object.entries` is modelled in insertion order. Integer-like keys coming first
  is left out.
- TextFilterPanel.TextFilter.Check: items are modelled as values. The in-place
  mutation of the shared item objects, and the aliasing it creates with earlier
  lists, is left out.
- ColumnGridFilter.ColumnFilter.Check: the throw is modelled after the state
  updates. Whether React keeps those queued updates once the handler throws is
  left out.
- ColumnGridFilter.ColumnFilter.Apply: the call to `setFilterLayout` on the tool
  panel is left out, because it is a foreign call.
- The promise ordering of `setColumnFilterModel(...).then(...)` is left out:
  `onFilterChanged` and the refresh are modelled as happening with the commit.
- Nothing in `aggrid.jsx` mounts the column filters. They are modelled as
  components on their own.
- `panel.jsx`, `filter_panel.jsx` and `app.jsx` are not part of this model.

## Findings

| source | as written | input that shows it | evidently intended | confidence | as-written member | corrected member |
|---|---|---|---|---|---|---|
| frontend/src/components/tool_panel/date_filter.jsx:199 | the upper handle passes `minValue` as its comparator, so any slide at or above the minimum pins the maximum to the minimum, and a slide below it is taken as is | minimum 5: sliding the maximum to 8 sets it to 5, and sliding it to 3 gives the inverted window (5, 3) | the upper handle never goes below the minimum (`max(v, minValue)`), as the grid's date filter does | high; not executed | RangeSlider.ClampMaxAsWrittenInverts | RangeSlider.ClampAbove |
| frontend/src/components/tool_panel/date_filter.jsx:141 | at the upper edge, `handleBoundary` is given `max` as the new minimum, so the shown window inverts and the locals collapse to `(max, max)`, which mouse-up then commits | domain 0..100, window 40..90, a move of 20 units to the right: shown (100, 50), committed (100, 100) | the window stops at the upper edge keeping its width, (50, 100), as at the lower edge | high; not executed | RangeSlider.EdgeStepAsWrittenExample | RangeSlider.EdgeStep |
| frontend/src/components/aggrid.jsx:202-205 | `map` returns `undefined` for a value that is not displayed, and the exclude `filter` keeps it | rows `a` (displayed) and `b` (hidden), exclude `["a"]`: submitted values `[undefined]` | only displayed, non-excluded values are submitted: `[]` | high; not executed | AgGrid.HiddenValueLeavesUndefined | AgGrid.ExcludeValues |
| frontend/src/components/custom_filters/date_filter.jsx:155-158 | `doesFilterPass` compares the raw cell value with the window, although under the `time` formatter (line 25) the window was scanned on times of day | `time` column with rows 90000000 and 93600000 ms (1 h and 2 h of day): the domain is [3600000, 7200000]; narrowed to [3600000, 5400000], the row 90000000 (1 h of day) fails | under `time`, the row's time of day is tested, as it was scanned | medium; not executed | DateGridFilter.TimeWindowRejectsRawValue | DateGridFilter.PassesScanned |
