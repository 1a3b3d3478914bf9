# Taxi demand dashboard: the front-end decision logic in Dafny

`Frontend/app.js` is the browser script of a taxi-demand prediction page. A
user submits a form (city, date and time, weather, traffic, event flag). The
script sends it to the prediction service and shows three things: the
predicted demand, the taxis required and a demand level. It also draws a
six-hour line chart. When the service cannot be reached, or the request fails
in any other way, the script shows a randomly drawn "demo" estimate instead.

This project rebuilds that logic as pure functions and proves what it does:

- `DemandLevel`: the four-way classifier `getDemandLevelLabel`.
- `JsValues`: the JavaScript semantics the classifier and the form depend on:
  - `ToNumber`, including the string-to-number grammar;
  - a `<` comparison that is false against NaN;
  - `Math.round` and `Math.max`;
  - `String.prototype.trim` over the ECMAScript white-space set;
  - the decimal text of integers.
- `Input`: reading and validating the form.
- `Gateway`: how the network round trip ends. Either it succeeds with the two
  response fields, or it fails.
- `Fallback`: the demo estimate `Math.floor(50 + r * 100)` and
  `Math.round(fallback * 0.7)`, computed exactly.
- `Series`: the chart's hour labels and values.
- `ChartHandle`: the global chart handle, destroyed before each re-creation.
- `Controller`: the page state, the status enum `setStatus` selects, and the
  submit handler as a transition function `Step`.
  - `Submit` runs the handler up to the request.
  - `Settle` runs the rest once the request has succeeded or failed.
  - `Run` folds `Step` over a sequence of events.
- `DoubleRounding`: IEEE-754 double addition and multiplication, just far
  enough to evaluate the two fallback expressions exactly as a browser does.
  It backs the two findings below.

The clock, `Math.sin` and `Math.random` are not computed. Their values reach
the model as parameters:

- the start hour;
- the six sine values;
- the six per-point noise draws;
- the fallback draw.

They are bundled in `Controller.Env`. The DOM becomes the `Page` record.

Two behaviours of the code are worth knowing:

- **A missing or non-numeric field is not an error.** It reaches the success
  path as `undefined` (or whatever value it has), is written to the field as
  it is (`undefined` and `null` leave it empty), and classifies as
  "Very High" when it converts to NaN. See `Gateway.Interpret`
  and `Controller.SettleOk`.
- **Nothing guards against overlapping submissions.** `Controller.Run` takes
  any interleaving of submissions and settlements. Settlements are applied in
  the order the requests complete, as the handler's `await` resumes. A
  `Settle` is not matched to the request it answers.

## Model

| member | source | states |
|---|---|---|
| `DemandLevel.Classify` | Frontend/app.js:20-25 | Low exactly below 40 (negatives and -Infinity included), Medium exactly on [40, 90), High exactly on [90, 150), Very High exactly from 150 up, for +Infinity and for NaN. Each test is `JsValues.LessThan`, the `<` of lines 21-23, which is false whenever the number is NaN; the returned texts are those of `DemandLevel.Label` |
| `DemandLevel.Monotone` | Frontend/app.js:20-25 | a larger number never gets a lower level in the order Low < Medium < High < Very High |
| `DemandLevel.Boundaries` | Frontend/app.js:21-24 | 39.999 and -5 are Low; 40, 90 and 150 fall into the higher band; NaN is Very High |
| `JsValues.ToNumber` | Frontend/app.js:21-23 | the number `<` compares a server value as: a number is itself; among non-strings only `undefined` (and NaN itself) give NaN; `null` gives 0, `true` 1 and `false` 0 |
| `JsValues.StringToNumber` | Frontend/app.js:21-23 | a string converts under JavaScript's numeric-literal rules: a blank string is 0, and a run of decimal digits, leading zeros included, is its decimal value |
| `JsValues.ToNumberOfNonNumbers` | Frontend/app.js:21-23 | before comparing, `undefined` coerces to NaN, `null` to 0, and a blank string to 0 |
| `JsValues.Round` | Frontend/app.js:42 | `Math.round` gives the integer k with k - 1/2 <= x < k + 1/2: the nearest integer, halves rounded up |
| `JsValues.RoundUnique` | Frontend/app.js:42 | that integer is unique |
| `JsValues.Scale` | Frontend/app.js:42 | `baseDemand * factor` for a positive factor: NaN stays NaN, +Infinity stays +Infinity, and a finite base gives the finite exact product |
| `JsValues.RoundNumber` | Frontend/app.js:42 | `Math.round` on any number: a finite number goes to `Round` of it, and NaN and the infinities come back unchanged |
| `JsValues.MaxWith` | Frontend/app.js:42 | `Math.max(c, n)` is NaN exactly when n is NaN, otherwise the larger of the two and at least c |
| `JsValues.Trim` | Frontend/app.js:87 | `trim()` returns the infix of the input left after the white-space prefix and suffix are removed; a non-empty result starts and ends with a non-white-space character |
| `JsValues.TrimEmptyIff` | Frontend/app.js:87 | the trimmed string is empty exactly when the input is all white space |
| `JsValues.NatToDecimal` | Frontend/app.js:36 | the decimal text of an integer is non-empty, all digits, with no leading zero and one digit exactly below 10 |
| `JsValues.DecimalRoundTrip` | Frontend/app.js:36 | the decimal text of n reads back as n |
| `JsValues.DecimalInjective` | Frontend/app.js:133-134 | distinct integers have distinct decimal texts |
| `JsValues.DecimalStringToNumber` | Frontend/app.js:133-134 | the text shown for an integer converts back to that number under JavaScript's string-to-number rules |
| `Input.Validate` | Frontend/app.js:87-96 | rejected exactly when the trimmed city or the datetime is empty; otherwise the query carries the trimmed city and the other four fields unchanged |
| `Input.RejectsExactlyBlank` | Frontend/app.js:87-96 | rejected exactly when the city is all white space or the datetime is empty; a white-space datetime is accepted |
| `Gateway.Interpret` | Frontend/app.js:108-119 | success exactly when a 2xx response came with a body whose field reads do not throw, carrying the two fields unchanged; no response and a non-2xx status are failures |
| `Gateway.MissingFieldsAreNotAnError` | Frontend/app.js:117-119 | a 2xx response without the fields succeeds with `undefined` values |
| `Fallback.Taxis` | Frontend/app.js:130 | the integer formula (7f + 5) / 10 is within one half of 0.7 f, halves rounded up |
| `Fallback.TaxisIsRound` | Frontend/app.js:130 | that formula equals `Math.round(0.7 * f)` in exact arithmetic |
| `Fallback.Draw` | Frontend/app.js:128-130 | for a draw in [0, 1) the demand is the floor of 50 + 100 r, an integer in 50..149; the taxi count is `Math.round(0.7 * demand)`, in 35..104 |
| `Fallback.DrawReachesEvery` | Frontend/app.js:128 | every demand in 50..149 is produced by some draw |
| `Fallback.DrawLevel` | Frontend/app.js:128-129 | a fallback demand is always Medium or High |
| `Fallback.DemoTexts` | Frontend/app.js:129-134 | the three texts are the level, the decimal text of the demand and that of the taxi count, each followed by " (demo)" |
| `Fallback.DemoTextsReadBack` | Frontend/app.js:133-134 | with the tag removed, the demand and taxi texts convert back to the numbers drawn |
| `Series.PadStart` | Frontend/app.js:36 | `padStart` reaches the requested width, keeps the text as its suffix, and fills the front with the pad character |
| `Series.HourLabel` | Frontend/app.js:36 | an hour label is two digits followed by ":00" |
| `Series.HourLabelRoundTrip` | Frontend/app.js:36 | the label of hour h reads back as h |
| `Series.LabelAt` | Frontend/app.js:34-36 | label i names the hour (start + i) mod 24 |
| `Series.HourLabels` | Frontend/app.js:32-37 | there are six labels, and label i names the hour (start + i) mod 24 |
| `Series.ConsecutiveHours` | Frontend/app.js:34-36 | each label names the hour after the previous label's, wrapping at midnight |
| `Series.DistinctLabels` | Frontend/app.js:34-36 | the six labels are pairwise distinct |
| `Series.Factor` | Frontend/app.js:41 | the point factor 0.8 + 0.25 sin + 0.1 noise lies in [0.55, 1.15) |
| `Series.Point` | Frontend/app.js:42 | a point is NaN exactly when the base is NaN; for a finite base it is an integer of at least 5, equal to the rounded product whenever that exceeds 5 |
| `Series.Project` | Frontend/app.js:32-43 | six labels and six values; value i is the point for factor i; every value is at least 5 (or +Infinity) unless the base is NaN, and then every value is NaN |
| `ChartHandle.Destroy` | Frontend/app.js:45 | the handle no longer holds a live chart; the old one, if any, is counted destroyed, so a disciplined canvas has no live chart afterwards |
| `ChartHandle.Create` | Frontend/app.js:47 | one more instance is alive and the handle points to it; on an empty disciplined canvas it is the only one |
| `ChartHandle.Redraw` | Frontend/app.js:45-47 | the new chart is in the handle, one instance was created and the old one, if any, destroyed; if only the handle's chart was alive before, exactly one is alive after |
| `ChartHandle.DestroyBeforeCreate` | Frontend/app.js:45-47 | the update destroys before it creates: no chart is alive between the two steps and exactly one after, so two are never alive at once |
| `ChartHandle.CreateWithoutDestroyLeaks` | Frontend/app.js:45-47 | creating over a live chart without the destroy leaves two instances alive |
| `Controller.Init` | Frontend/app.js:144-145 | the page starts idle, with no chart and no request sent |
| `Controller.Step` | Frontend/app.js:84-141 | a step never returns to idle, keeps the one-live-chart discipline, and sends at most one request while keeping the earlier ones |
| `Controller.InvalidSubmitChangesOnlyStatus` | Frontend/app.js:93-96 | a blank city or empty datetime sets the error status and the validation message and changes nothing else: no request, same panel, same chart |
| `Controller.SubmitSendsIffValid` | Frontend/app.js:93-106 | a request is sent exactly when the form is valid; it carries the trimmed city and the other fields as read, and the status is loading |
| `Controller.Submitted` | Frontend/app.js:87-98 | the submit branch: the status is error exactly when validation fails, one request is appended exactly when it succeeds, and the result panel and chart are unchanged |
| `Controller.Succeeded` | Frontend/app.js:118-125 | the success branch: status success, the two server values in the demand and taxi fields, the level field the label of the demand's classification, no new request, and the chart discipline kept |
| `Controller.FellBack` | Frontend/app.js:128-140 | the fallback branch: status error, the panel showing the demo texts of the fallback drawn from the random value, no new request, and the chart discipline kept |
| `Controller.SettleOk` | Frontend/app.js:117-125 | on success the server's two values are shown verbatim, the level is the classification of the demand without the demo tag, the chart is drawn from the demand, and the status is success |
| `Controller.SettleFailed` | Frontend/app.js:126-141 | on failure the fallback's level, demand and taxis are shown, each followed by " (demo)"; the chart is drawn from the fallback demand and the status is error |
| `Controller.DemoIffFailed` | Frontend/app.js:108-141 | after settling, demo data and the error status are shown exactly when the request failed |
| `Controller.Run` | Frontend/app.js:84-145 | over any interleaving of submissions and settlements, requests are only appended, the one-live-chart discipline is kept, and after any event the page is not idle |
| `Controller.RunSendsOnePerValidSubmit` | Frontend/app.js:84-113 | over any run, requests are only appended, one per valid submission |
| `Controller.RunKeepsOneChart` | Frontend/app.js:45-47 | over any run, at most one chart instance is alive |
| `Controller.IdleOnlyAtStart` | Frontend/app.js:94-145 | from the initial page, the status is idle exactly when no event has happened |
| `Controller.StepNeverIdle` | Frontend/app.js:94-137 | once the page has left idle, no run brings it back |
| `DoubleRounding.RoundToDouble` | Frontend/app.js:128-130 | the result's last place is the one the 53rd significant bit of the exact value occupies; the result is within half of that place of the exact value and has an even significand on a tie |
| `DoubleRounding.NearestUnique` | Frontend/app.js:128-130 | two doubles that both round the same value with that last place are equal, so the nearest double is unique |
| `DoubleRounding.Mul` | Frontend/app.js:128-130 | a double product is the nearest double to the exact product |
| `DoubleRounding.Add` | Frontend/app.js:128 | a double sum is the nearest double to the exact sum |
| `DoubleRounding.FloorOf` | Frontend/app.js:128 | `Math.floor` of a double is the largest integer at most its value |
| `DoubleRounding.RoundHalfUp` | Frontend/app.js:130 | `Math.round` of a double is the largest integer at most its value plus 1/2 |
| `DoubleRounding.PointSevenIsNearest` | Frontend/app.js:130 | the literal 0.7 denotes 3152519739159347 * 2^-52, which has a 52-bit significand and lies below 7/10 by at most 2^-54, half a unit in the last place of a double in [1/2, 1) |
| `DoubleRounding.TaxisAsWritten` | Frontend/app.js:130 | the taxi count as the browser computes it: `Math.round` of the nearest double to f times the double 0.7 |
| `DoubleRounding.DemandAsWritten` | Frontend/app.js:128 | the fallback as the browser computes it for a draw k * 2^-53: `Math.floor` of the nearest double to 50 plus the nearest double to 100 times the draw |
| `DoubleRounding.TaxisAsWrittenAt85` | Frontend/app.js:130 | for a fallback of 85 the double expression gives 59 taxis, where the exact rounding gives 60 |
| `DoubleRounding.DemandAsWrittenAtTop` | Frontend/app.js:128 | for the draw 1 - 2^-53 the double expression gives 150, outside the range 50..149 that `Fallback.Draw` proves for the exact evaluation |

## Left out

- DOM lookups, CSS class changes and text writes (`app.js` lines 1-5, 11-16, 29). They are the fields of `Controller.Page`; `setStatus` is the assignment of a `Status` and a message.
- Chart.js configuration (`app.js` lines 47-80). It is presentation inside a foreign library. The chart is its `ChartData` (labels and values).
- `fetch`, request headers and JSON serialisation and parsing (`app.js` lines 109-117). They are reduced to a `Gateway.Transport` value: no response, or a status and a body that is unparsable, `null` or has two field values.
- Server field values are numbers, `undefined`, `null`, booleans or strings. Arrays and objects, whose number conversion goes through `toString`, are left out.
- `console.error` (`app.js` line 127). It is logging only.
- `Date`, time zones and daylight-saving changes in `getHours` (`app.js` lines 33-36). The start hour is a parameter, and the next five hours are taken as consecutive clock hours.
- `Math.sin` and `Math.random`. Their values are parameters.
- A chart library that throws inside the success branch would send the handler to the fallback branch. This is not modelled; `Redraw` always succeeds.
- Overlapping submissions are modelled only through their order of completion: `Run` accepts any interleaving of `Submit` and `Settle` events, and a `Settle` carries its own outcome, not a reference to the request it answers. `Settle` has no status precondition, as the code has none.
- `textContent` conversion. A `Raw` cell holds the value assigned to `textContent` before the browser converts it to a string; the conversion (`undefined` and `null` to the empty string, numbers to their shortest decimal text) is not modelled.
- `Series.Point`: computes `base * factor` and its rounding in exact real arithmetic, not in doubles.
- `Fallback.Draw`: computes the fallback in exact arithmetic, which is the evidently intended behaviour. The double evaluation the browser performs is `DoubleRounding.DemandAsWritten`.
- `Fallback.Taxis`: the same; the browser's double evaluation is `DoubleRounding.TaxisAsWritten`.
- `DoubleRounding.RoundToDouble`: does not model the exponent range (overflow, subnormals). Every value it is applied to is far from both limits.
- `JsValues.ToNumber`: its own contract does not spell out the string case. The string case is the contract of `JsValues.StringToNumber` (blank and digit texts) together with `JsValues.ToNumberOfNonNumbers`.
- `JsValues.StringToNumber`: real-valued; it does not round decimal text to the nearest double. Only integer texts are read back in the model.

## Findings

| source | as written | input that shows it | evidently intended | confidence | as-written member | corrected member |
|---|---|---|---|---|---|---|
| Frontend/app.js:130 | `Math.round(fallback * 0.7)` multiplies by the double nearest to 0.7, which lies just below it, so a product whose exact value ends in .5 can round down | fallback = 85: 85 * 0.7 evaluates to 59.49999999999999 and the page shows 59 taxis | the nearest integer to 0.7 * 85 = 59.5, halves up: 60 | not executed | `DoubleRounding.TaxisAsWrittenAt85` | `Fallback.TaxisIsRound` |
| Frontend/app.js:128 | `Math.floor(50 + Math.random() * 100)` rounds the sum to a double before the floor | a draw of 1 - 2^-53, which an engine drawing 53-bit random values can return: the product rounds to 100 - 2^-46, the sum ties between two doubles and rounds to 150 | a fallback in 50..149 | not executed | `DoubleRounding.DemandAsWrittenAtTop` | `Fallback.Draw` |
