# meteo-one: query resolution, last-lookup memory and the weather client

A model, in Dafny, of the core of the meteo-one browser weather widget:

- `src/apiService.js`. `getWeatherByCity` validates the query. It classifies a failed provider reply into a `WeatherApiError`, and normalises a successful reply into the widget's weather record (module `ApiService`, file `api_service.dfy`).
- The expression-level helpers of `src/main.js` (module `Widget`, file `widget.dfy`):
  - the coordinate recogniser `isCoords` and normaliser `normCoords`;
  - the "my location" sentinel test;
  - the cleaning of typed text;
  - the if/else chain of `search` that turns the typed text, an optional override and the stored last lookup into a query or a message;
  - the error-message tables;
  - the render-time placeholders;
  - the shaping of the chart series.
- The `App` class of `src/main.js` (module `WidgetApp`, file `app.dfy`). A Dafny class holds:
  - the stored last lookup and its storage slot;
  - the pending spinner and back timers;
  - the queries issued;
  - the chart data;
  - a `View` record of the element properties the methods write.

  Each handler is a method whose `modifies` clause names the fields it may change. Its `ensures` gives their new values through transition functions (`Loading`, `Hidden`, `Toggled`, `Faded`, `PaintChip`, `SetSlot`, `AfterSearch`). Each of these pins its result in its own contract (`AfterSearch` through the contracts of `Loading`, `Hidden` and `Faded`), and lemmas prove how repeated calls combine.
- The JavaScript string operations the core relies on (module `Text`, file `text.dfy`): `trim` with the ECMAScript whitespace set, `replace(/\s+/g, ' ')`, ASCII `toLowerCase`, `split`/`join` on one character, integer-to-text.
- `Option`/`Result` (module `Wrappers`, file `wrappers.dfy`).

The asynchronous `search` is split in two. `App.Search` runs the if/else chain and, for a query, issues the request (it appends the query to `requests`). `App.Settle(q, fetched)` is the `then`/`catch`/`finally` continuation once the fetch has produced `fetched`.

The fetch is an input datatype: `NetworkFailure`, `ParseFailure` or `Reply(ok, status, body)`. `Number(n).toFixed(3)`, the text of a number and `Math.round(Number(n))` are parameters (`fixed3`, `numText`, `round`), because they are IEEE-754 double behaviour.

Where the code and its description differ, the model follows the code:

- `normCoords` returns a non-coordinate query unchanged. It does not trim it.
- A non-empty icon that does not start with `//` is kept as it is, even if it is relative.
- Normalising twice equals normalising once only if `toFixed(3)` is stable on its own output. This fails at negative zero: `NormCoordsNotIdempotentAtNegativeZero`.
  - The widget itself normalises twice on success: `search` builds `exact = normCoords(...)` and `setLast` normalises `exact` again.
  - For a latitude such as -0.0001, the stored query is therefore "0.000,…" and not the "-0.000,…" that was built.
  - Both are valid queries for the same place.
- A slot loaded from storage need not be well formed. A stored label with an empty query makes a matching typed label resolve to "", and the client then fails with VALIDATION. Slots written by `setLast` cannot cause this (`ResolvedQueryIsValid`).

## Model

| member | source | states |
|---|---|---|
| Text.Trim | src/main.js:6 | the result has no whitespace at either end and is a contiguous slice of the input starting after its leading whitespace |
| Text.TrimRemovesSpace | src/main.js:6 | everything `trim` removes, on both sides, is ECMAScript whitespace |
| Text.TrimNoop | src/main.js:6 | a text without whitespace at its ends trims to itself |
| Text.TrimKeepsContent | src/main.js:158 | trimming keeps every non-whitespace character, in order |
| Text.Collapse | src/main.js:158 | `replace(/\s+/g, ' ')` gives single-spaced text, empty iff the input is, starting with whitespace iff the input does |
| Text.CollapseAppend | src/main.js:158 | text that ends in a non-whitespace character collapses independently of what follows it |
| Text.CollapseRun | src/main.js:158 | a whitespace run between two words becomes exactly one space, and neither word is touched |
| Text.TrimSingleSpaced | src/main.js:158 | trimming single-spaced text keeps it single-spaced |
| Text.ToLower | src/main.js:168 | `toLowerCase` (ASCII) keeps the length and lower-cases each character in place |
| Text.Contains | src/main.js:14 | the substring test holds iff the pattern occurs at some position |
| Text.Split | src/main.js:10 | `split(',')` gives at least one piece, no piece contains the separator, and joining the pieces gives back the text |
| Text.Join | src/main.js:12 | `join(',')` begins with the first piece, followed by the separator when there is more than one piece |
| Text.SplitJoin | src/main.js:10-12 | splitting undoes joining pieces that do not contain the separator |
| Text.SplitOnce | src/main.js:10 | a text with exactly one separator splits into its two sides |
| Text.IntToString | src/main.js:256-258 | the decimal text of an integer reads back as that integer, has a minus sign iff it is negative, and no leading zero after the sign ("0" alone, never "-0") |
| Text.NatToString | src/main.js:256-258 | the decimal text of a natural number is digits only, reads back as the number, and starts with '0' iff the number is 0 |
| Text.CanonicalNatRoundTrip | src/main.js:256-258 | every digit string without a leading zero is the text of its own value |
| Text.CanonicalIntRoundTrip | src/main.js:256-258 | every integer text without a leading zero is the text of the integer it denotes, so the rendering is one to one onto such texts |
| Text.StartsWith | src/apiService.js:76 | `startsWith(p)` holds iff the text is `p` followed by the rest of the text |
| Widget.IsCoords | src/main.js:6 | accepts exactly the texts whose trimmed form is `-?\d+(\.\d+)?`, one comma, `-?\d+(\.\d+)?` |
| Widget.ScanPairSound | src/main.js:6 | what the character-level recogniser accepts is a coordinate pair |
| Widget.ScanPairComplete | src/main.js:6 | every coordinate pair is accepted by the recogniser |
| Widget.ScanUnsignedComplete | src/main.js:6 | the number scanner finds every `\d+(\.\d+)?` that ends at a comma or at the end |
| Widget.ScanNumberComplete | src/main.js:6 | the same for an optionally signed number |
| Widget.CoordsSplitInTwo | src/main.js:8-10 | a coordinate query, untrimmed, splits at its only comma into exactly two sides |
| Widget.NormCoords | src/main.js:7-13 | a non-coordinate query is returned unchanged; a coordinate query becomes exactly its two sides, each formatted by `toFixed(3)`, comma-joined; a non-empty query stays non-empty |
| Widget.NormCoordsIdempotent | src/main.js:7-13 | if `toFixed(3)` never writes a comma and is stable on its own output, normalising twice is normalising once |
| Widget.NormCoordsOfPair | src/main.js:7-13 | two numbers joined by a comma are a coordinate query, normalised side by side |
| Widget.NormCoordsNotIdempotent | src/main.js:7-13 | if `toFixed(3)` is not stable on the left side's rendering, normalising twice differs from once |
| Widget.NormCoordsNotIdempotentAtNegativeZero | src/main.js:7-13 | with `toFixed(3)` giving "-0.000" for -0.0001 and "0.000" for "-0.000", `normCoords("-0.0001,1")` normalised again differs from itself |
| Widget.IsMyLocation | src/main.js:14 | the sentinel test holds iff some casing of "my location" occurs anywhere in the text, so trimming first does not matter |
| Widget.SentinelAnywhere | src/main.js:14 | "My Location" in any casing, with any text around it, is the sentinel |
| Widget.Typed | src/main.js:157-158 | the cleaned text has no whitespace at its ends, no whitespace run longer than one plain space, and the same non-whitespace characters as the raw text |
| Widget.TypedIdempotent | src/main.js:158 | cleaning clean text changes nothing |
| Widget.TypedJoinsWords | src/main.js:158 | two clean words around any whitespace run are typed as the words joined by one space |
| Widget.Resolve | src/main.js:160-171 | with no non-blank override, empty cleaned text is rejected with "Type a city name."; the search is rejected iff there is no non-blank override and the cleaned text is empty or is the sentinel without a stored query; a rejection says "Type a city name." or "No saved location yet."; a query is the trimmed override, the cleaned text or the stored query |
| Widget.OverrideWins | src/main.js:161 | a non-blank override wins, trimmed, whatever was typed or stored |
| Widget.SentinelResolution | src/main.js:163-165 | the sentinel resolves to the stored query, or is refused with "No saved location yet." |
| Widget.LabelMatchReusesQuery | src/main.js:166-170 | text equal to the stored label, ignoring case, resolves to the stored query |
| Widget.TypedTextIsQuery | src/main.js:171 | otherwise the cleaned text is the query |
| Widget.ResolvedQueryNonEmpty | src/main.js:160-171 | with a well-formed slot every resolved query is non-empty |
| Widget.ResolvedQueryIsValid | src/main.js:177 | with a well-formed slot a resolved query never fails with VALIDATION, whatever the fetch returns |
| Widget.Msg | src/main.js:191-202 | the message differs from "Something went wrong." iff the error is a `WeatherApiError` of one of the six explained kinds |
| Widget.MsgNamesKind | src/main.js:191-202 | each explained kind's message reads back as that kind |
| Widget.MsgDistinguishesKinds | src/main.js:191-202 | different explained kinds give different messages |
| Widget.GeoMessage | src/main.js:103-109 | code 1 gives the permission message, code 2 "Position unavailable.", anything else (a missing code included) the timeout message |
| Widget.Deg | src/main.js:15 | the text ends in " °C" after a no-break space; for a number the rest is canonical integer text (no leading zero, never "-0") that reads back as its rounding; for a missing value it is "NaN" |
| Widget.OrDash | src/main.js:265-269 | an astronomy field shows "-" iff it is missing or empty (or is "-"), otherwise the field itself |
| Widget.OrDashNullish | src/main.js:270-272 | the AQI index shows "-" iff it is missing, otherwise its canonical decimal text |
| Widget.ZeroIndexIsShown | src/main.js:265-272 | an AQI index of 0 shows "0", while an empty astronomy string shows "-" |
| Widget.RenderScreen | src/main.js:254-272 | the city is the title; the current temperature is canonical integer text that reads back as its rounding; the maximum, minimum and feels-like temperatures are `deg` of the day's and current values; the UV is the text of the current UV and the condition its text; the astronomy and AQI lines carry the placeholders above |
| Widget.ChartsFrom | src/main.js:288-294 | nothing for an empty hour list; otherwise four series of the hour list's length, label i the hour's `hhmm`, temperatures and feels-like rounded, UV as given |
| Widget.ChartLabelsAreClockTimes | src/main.js:288-294 | for provider hours stamped "date time", the chart labels are the time parts, in the provider's order |
| ApiService.ProviderKind | src/apiService.js:43-48 | only 1006, 2006, 2007 and 2008 are mapped; 1006 is NOT_FOUND and the others UNAUTHORIZED |
| ApiService.CodeText | src/apiService.js:44-55 | the `code` string is a fixed tag, or `HTTP_` followed by text that reads back as the status; only `HTTP_` codes start with 'H' |
| ApiService.CodeTextInjective | src/apiService.js:44-55 | different kinds have different `code` strings |
| ApiService.FirstDay | src/apiService.js:62 | the first forecast day, present iff the forecast has a non-empty day list |
| ApiService.Classify | src/apiService.js:41-59 | the kind is one derived from a reply, the details are exactly the status and the provider code, and the message is never empty |
| ApiService.ProviderCodeWins | src/apiService.js:49-50 | a mapped provider code decides the kind, whatever the status |
| ApiService.StatusFallback | src/apiService.js:49-55 | without a mapped code, 401 is UNAUTHORIZED, 429 is RATE_LIMIT and any other status s is `HTTP_s`, 200 included |
| ApiService.ClassifyMessage | src/apiService.js:56 | the message is the provider's own, or `HTTP <status>` without one |
| ApiService.IconUrl | src/apiService.js:75-79 | "" iff the icon is missing or empty; `https:` prefixed to a protocol-relative icon; any other icon kept |
| ApiService.IconUrlNeverProtocolRelative | src/apiService.js:75-79 | no produced icon URL starts with `//` |
| ApiService.HhMm | src/apiService.js:90 | `hhmm` contains no space, and is "" without a time stamp or when the stamp has no space |
| ApiService.HhMmOfStamp | src/apiService.js:90 | for a stamp "date clock" followed by nothing or by further space-separated fields, `hhmm` is the clock: the second field |
| ApiService.ToHourPoint | src/apiService.js:88-94 | an hour keeps its stamp, temperatures and UV, with `hhmm` from its stamp |
| ApiService.Hourly | src/apiService.js:88 | same length and order as the provider's hour list, empty when it is absent |
| ApiService.Normalise | src/apiService.js:62-94 | DATA without a first forecast day; with a first day but no location or current block, a TypeError; success iff the day, location and current block are present; then the title is "name, country", the time zone and coordinates are the location's, the current temperatures and UV are the provider's, the condition text is its text or "", the icon URL is `IconUrl` of its icon, the day and astronomy fields are the first day's (all null when absent), the AQI index is the provider's or null, and the hours are `Hourly` of the first day's hours |
| ApiService.GetWeatherByCity | src/apiService.js:31-96 | an empty query fails with VALIDATION before any request; network and parse failures give NETWORK and PARSE; a reply that is not ok or carries an error fails with `Classify` of its status and error, any other reply gives `Normalise` of its body; VALIDATION comes only from an empty query |
| ApiService.SuccessIconNotProtocolRelative | src/apiService.js:75-79 | whatever the provider answers, a returned record's icon URL never starts with `//` |
| ApiService.EmptyQueryNeedsNoRequest | src/apiService.js:32-34 | an empty query fails the same way whatever the network would answer |
| ApiService.ProviderCodeDecidesReply | src/apiService.js:41-59 | a reply carrying code 1006 is NOT_FOUND and one carrying 2006-2008 UNAUTHORIZED, whatever the status, with the status and code as details |
| ApiService.RateLimitReply | src/apiService.js:51-56 | a 429 reply without an error object is RATE_LIMIT with message "HTTP 429" |
| ApiService.MissingDayIsData | src/apiService.js:62-63 | an ok reply without a first forecast day fails with DATA |
| WidgetApp.Loading | src/main.js:137-154 | loading on: the button is disabled, busy and reads "Searching…", the spinner untouched; off: the idle button |
| WidgetApp.LoadingStates | src/main.js:137-154 | turning loading on twice is turning it on once, and `setLoading(false)` gives the same idle button whatever came before |
| WidgetApp.Hidden | src/main.js:129-135 | `hideError` keeps a missing banner missing, and an existing one is emptied and hidden |
| WidgetApp.HiddenShowsNothing | src/main.js:129-135 | hiding twice is hiding once, and a shown message is cleared |
| WidgetApp.Toggled | src/main.js:219-229 | after a toggle exactly one pane is shown: the forecast iff the search pane was not hidden |
| WidgetApp.ToggleSwaps | src/main.js:219-229 | once exactly one pane is shown, each toggle swaps them and two toggles restore them |
| WidgetApp.Faded | src/main.js:215-218 | a fade always changes the opacity: "1" exactly when it was "0", "0" for anything else (the initial "" included) |
| WidgetApp.FadeFlips | src/main.js:215-218 | two fades restore an opacity of "0" or "1" |
| WidgetApp.PaintChip | src/main.js:75-81 | the chip is hidden iff the slot lacks a label or a query; shown, it reads the label; hidden, it keeps its text |
| WidgetApp.SetSlot | src/main.js:68-74 | `setLast` changes the slot only when label and query are both non-empty, and then stores the label with the normalised query |
| WidgetApp.SetSlotKeepsWellFormed | src/main.js:68-81 | `setLast` keeps the slot empty or filled in both fields, and a slot it fills shows its label on the chip |
| WidgetApp.CoordsQueryNotBlank | src/main.js:97 | a query built from a position never trims to "" |
| WidgetApp.CoordsQueryIsOverride | src/main.js:97-99 | so, searched as an override, it resolves to itself trimmed, whatever the box says |
| WidgetApp.RecordFillsSlot | src/main.js:180-181 | a record with a title fills the slot with that title and its own coordinates, normalised twice |
| WidgetApp.SuccessFillsSlot | src/main.js:178-182 | every successful lookup has a non-empty title, so it always fills the slot |
| WidgetApp.AfterSearch | src/main.js:160-175 | a rejected search only shows its message; a resolved one hides the message (`Hidden`), turns the border black, sets the button as `setLoading(true)` does (`Loading`), fades the container (`Faded`), and touches nothing else |
| WidgetApp.Issued | src/main.js:160-177 | a rejected search issues no request, a resolved one exactly its query |
| WidgetApp.App.constructor | src/main.js:20-35 | the slot is loaded from storage and painted onto the chip; no timer, request or chart yet |
| WidgetApp.App.PaintLastChip | src/main.js:75-81 | only the chip changes, to the painting of the slot |
| WidgetApp.App.SetLast | src/main.js:68-74 | with both arguments non-empty, the slot is set to the normalised query, saved, and its label shown on the chip; otherwise nothing changes |
| WidgetApp.App.ShowError | src/main.js:116-128 | the banner exists, reads the message and is shown |
| WidgetApp.App.HideError | src/main.js:129-135 | an existing banner is emptied and hidden, and the box's border turns black |
| WidgetApp.App.TypeText | src/main.js:53 | typing into the box hides the error |
| WidgetApp.App.SetLoading | src/main.js:137-154 | the button goes busy or idle, and the spinner timer is pending iff loading started |
| WidgetApp.App.SpinnerFires | src/main.js:146 | the pending spinner timer reveals the spinner |
| WidgetApp.App.Fade | src/main.js:215-218 | only the opacity changes, as `Faded` says |
| WidgetApp.App.Toggle | src/main.js:219-229 | only the panes change, as `Toggled` says |
| WidgetApp.App.Search | src/main.js:156-177 | the page changes as `AfterSearch` says for the resolution of the box's text, the override and the slot; the issued requests grow by exactly the resolved query; the slot is not touched |
| WidgetApp.App.Proceed | src/main.js:162-177 | for a rejection only the message is shown; for a query the page changes as `AfterSearch` says, the query is requested and the spinner timer is pending |
| WidgetApp.App.Render | src/main.js:231-275 | the panes swap, the container fades, the forecast texts are written, and the charts are rebuilt unless the hour list is empty |
| WidgetApp.App.Settle | src/main.js:177-188 | success: rendered, the slot holds the title with the record's coordinates normalised twice, saved and shown on the chip; failure: faded back, red border, the message for the error shown, slot and charts untouched; both: the button idle and no spinner timer |
| WidgetApp.App.Continue | src/main.js:178-188 | for the outcome of the lookup: success renders and remembers, failure shows the message; either way the button is idle and no spinner timer is pending |
| WidgetApp.App.Succeed | src/main.js:178-182 | the record is rendered and its title stored with its own coordinates normalised twice, saved and shown on the chip |
| WidgetApp.App.Remember | src/main.js:180-181 | the slot holds the record's title and its coordinate query normalised twice, saved and shown on the chip |
| WidgetApp.App.Fail | src/main.js:183-187 | the container fades back, the border turns red and the message for the error is shown |
| WidgetApp.App.ChipClicked | src/main.js:45-51 | with a stored query, the box gets the label and the stored query is searched; otherwise nothing changes |
| WidgetApp.App.UseLocation | src/main.js:83-89 | without geolocation only the message is shown; otherwise the locate button is disabled, reads "Locating…" and its text is kept for restoring |
| WidgetApp.App.LocationFound | src/main.js:90-101 | the box reads "My location", exactly the trimmed coordinate query is requested, and the locate button is restored |
| WidgetApp.App.FillAndSearch | src/main.js:97-99 | the box gets the text and exactly the trimmed query is requested, as a resolved search |
| WidgetApp.App.Done | src/main.js:90-93 | the locate button is enabled and its text restored, and no position is awaited any more |
| WidgetApp.App.LocationFailed | src/main.js:102-111 | the geolocation message is shown and the locate button restored |
| WidgetApp.App.Back | src/main.js:204-206 | the container fades and one more back timer is pending |
| WidgetApp.App.BackFires | src/main.js:206-212 | the panes swap, the box is emptied, the error hidden, the container faded, and one timer fewer is pending |

## Left out

- `fetch`, `r.json()` and URL building with `encodeURIComponent` (src/apiService.js:15-29, 36-38) are network I/O and a foreign encoder. Their outcome is the `Fetched` input, and only the NETWORK and PARSE kinds of `fetchJson` are kept.
- The module-level API key check (src/apiService.js:1-3) is startup configuration. It names `WeatherApiError` before its declaration, so it would raise a ReferenceError.
- `localStorage` and `JSON.parse`/`stringify` (src/main.js:56-67) are modelled as values:
  - the loaded slot is a constructor argument (None when absent or unreadable);
  - the saved slot is the field `saved`;
  - a failed save is not modelled.
  - A stored object is taken to have string fields; a missing field reads as "".
- The geolocation API is modelled by the `geolocation` flag and the `LocationFound`/`LocationFailed` callbacks. Timers are pending flags or counts: the spinner and back timers fire only when a method says so, and their durations are not modelled.
- Overlapping searches are not modelled. `Settle` may run for any query in any order, and with several requests in flight the last to settle wins. That is a race, not a property.
- Chart.js, CSS variables, icon `src`/`srcset`, the favicon, `blur` and element creation are UI and library glue (src/main.js:235-252, 277-389, src/DOMActions.js). The page's initial markup is a constructor argument.
- `Number(n).toFixed(3)`, `Math.round(Number(n))` and `String(n)` on doubles are parameters with no properties assumed, except where a lemma states one. NaN and infinities are not modelled, and provider numbers are `real`.
- JSON `null` and a missing field are both `None`. A missing day temperature renders as "NaN °C", as `Math.round(Number(undefined))` gives; a provider `null` would render as "0 °C" (`Number(null)` is 0), which the model does not distinguish.
- `toLowerCase` is modelled for ASCII letters only. Other characters are left unchanged.
- Widget.IsMyLocation: stated for ASCII case folding only, because `toLowerCase` is modelled for ASCII letters.
- `typeof qOverride === 'string'` is modelled by `Option<string>`. A non-string value is `None`. A non-string query to `getWeatherByCity` cannot be expressed: queries are strings here.
- A thrown exception inside `render` (which would reach the `catch` of `search`) is not modelled: `Render` always completes.
- ApiService.Normalise: reports a missing location or current block as a `TypeError` failure. The texts of such exceptions are not modelled.
