# Enviro-Watch web client, modelled in Dafny

Enviro-Watch lets residents report environmental problems on a map. Examples are noise, heat and chemical spills. It also shows the technology facilities near them as likely sources. This project models the logic of the web client's single component, `web/src/App.jsx`:

- **Reporting.** A click or touch on the map selects a coordinate and draws a red pin. "Use my location" selects the user's position the same way (with a pin only once the selection overlay exists) and runs the facility search around it. The form toggles issue categories in and out of the selection and holds free-text notes. Submitting puts the new report at the front of the reports and resets the form. When the incidents overlay exists, it also adds a marker titled with the report's first issue.
- **Searching the reports.** A blank or whitespace-only term shows every report. Otherwise a report is shown when:
  - the label of one of its issues contains the lower-cased term, or
  - its notes do.
- **Authority contacts.** An issue key maps to a contact, with a default contact for unlisted keys.
- **The map-type button.** It is meant to cycle through five map styles; as written it always asks for "road" (see Findings).
- **The facility search.**
  - It runs ten keyword searches and concatenates their results. A failed request, an HTTP error or an empty body contributes nothing.
  - It drops results at a position already seen, keeping the first.
  - It keeps the results whose lower-cased name, a category or the address mentions one of 22 technology keywords.
  - It shapes at most six of them into numbered display records, with fallback names and operators.
  - When nothing is relevant, it publishes three fixed samples around the search centre.
  - When the search throws, it publishes one sample and leaves the map alone.

Modules:

| file | module | contents |
|---|---|---|
| `wrappers.dfy` | `Wrappers` | `Option` |
| `seqs.dfy` | `Seqs` | `Array.prototype.filter` as `Filter`, and order-preserving subsequences |
| `text.dfy` | `Text` | lower-casing, `includes`, `trim`, decimal rendering |
| `geo.dfy` | `Geo` | coordinates, map points (longitude first), features, pointer events |
| `facilities.dfy` | `Facilities` | the facility search pipeline |
| `reports.dfy` | `Reports` | issue options, issue toggling, report search |
| `contacts.dfy` | `Contacts` | authority contacts |
| `map_styles.dfy` | `MapStyles` | the style cycle |
| `session.dfy` | `App` | the class `Session` |

`Session` holds the component's state and the three map overlays. Its methods change them the way the component's handlers do. Its invariant `Valid()` states that:

- the search results always belong to the current term;
- the incidents overlay holds the markers of the reports submitted since it was created, in submission order; reports submitted before it existed have none;
- the selection overlay holds at most one marker, and while a selection is pending that marker, if there is one, is at the selection;
- the selected issues never hold a key twice.

Conventions of the model:

- Coordinates are integers in millionths of a degree. The sample offsets (0.005, 0.003, 0.002, 0.004 degrees) are therefore exact.
- The per-term HTTP request is a parameter, `fetch`, giving each term's outcome.
- The random impact label of the `i`-th record is a parameter, `roll(i)`.
- The map's pixel-to-position projection is an optional parameter. It is absent when the map has neither projection method.

The component never range-checks latitude or longitude; the model accepts any coordinate too.

## Model

| member | source | states |
|---|---|---|
| Seqs.Filter | web/src/App.jsx:194 | the filtered sequence is no longer than the input and holds only input elements satisfying the predicate |
| Seqs.FilterPicks | web/src/App.jsx:341-365 | filtering keeps, in order, exactly the positions whose element satisfies the predicate |
| Seqs.FilterMembers | web/src/App.jsx:341-365 | an element survives filtering iff it is in the input and satisfies the predicate |
| Text.Lower | web/src/App.jsx:342-344 | lower-casing keeps the length, turns each ASCII upper-case letter into its lower-case letter (code point plus 32), leaves no upper-case letter and changes nothing else |
| Text.LowerIdempotent | web/src/App.jsx:342-344 | lower-casing twice is lower-casing once |
| Text.ContainsIff | web/src/App.jsx:355-357 | `includes` holds iff the needle occurs at some index of the haystack |
| Text.TrimEmptyIff | web/src/App.jsx:178 | a term trims to the empty string iff it is all whitespace |
| Text.Contains | web/src/App.jsx:185-187 | `includes`, defined as a scan from the left for a position where the needle starts; `Text.ContainsIff` characterises it |
| Text.Trim | web/src/App.jsx:178 | `trim`, defined as removing JavaScript whitespace at both ends; `Text.TrimEmptyIff` characterises when it is empty |
| Text.NatToString | web/src/App.jsx:372 | a number renders as a non-empty string of decimal digits, with no leading zero, whose decimal value is the number |
| Text.NatToStringInjective | web/src/App.jsx:372 | different numbers render as different strings, so the fallback names "Technology Facility n" differ |
| Geo.PointRoundTrip | web/src/App.jsx:133-139 | turning a {lat, lng} selection into a [lng, lat] point and back loses nothing, both ways |
| Geo.ResolvePointer | web/src/App.jsx:132-151 | an event resolves to no coordinate iff it has no two-element position and no usable pixel projection; a two-element position is read as [lng, lat] |
| Geo.ResolvedMarkerAtEventPosition | web/src/App.jsx:133-140 | the marker drawn for a position event sits exactly at the event's [lng, lat] |
| Geo.ResolvedPixelIsProjection | web/src/App.jsx:142-150 | without a position, the selection is the projection of the event's pixel |
| Facilities.Contribution | web/src/App.jsx:307-325 | a term's contribution, defined as its results when the request succeeds with a non-empty list and nothing otherwise; characterised by `Facilities.FailedTermContributesNothing` |
| Facilities.Gathered | web/src/App.jsx:299-326 | the gathered results, defined as the contributions of the terms concatenated in term order; characterised by `Facilities.GatheredMembers` and `Facilities.GatheredAppend` |
| Facilities.GatherResults | web/src/App.jsx:299-326 | the per-term loop concatenates exactly each term's contribution, in term order |
| Facilities.GatheredAppend | web/src/App.jsx:299-326 | gathering over two runs of terms is the concatenation of gathering over each |
| Facilities.FailedTermContributesNothing | web/src/App.jsx:307-325 | a term whose request fails, returns an HTTP error or an empty body leaves the gathered results as if it were absent |
| Facilities.GatheredMembers | web/src/App.jsx:317-320 | a result is gathered iff some term's response body holds it |
| Facilities.AllFailedGathersNothing | web/src/App.jsx:299-326 | when every term's request fails, returns an HTTP error or answers with no or an empty result list, nothing is gathered |
| Facilities.FindIndex | web/src/App.jsx:332-335 | `findIndex` by position returns the first index at that position, or -1 when there is none |
| Facilities.DedupPrefix | web/src/App.jsx:331-336 | dedup over the first n results is no longer than n and keeps only input results |
| Facilities.Dedup | web/src/App.jsx:331-336 | dedup is no longer than its input and keeps only input results; `Facilities.DedupKeepsFirsts` states exactly which |
| Facilities.FirstAtFound | web/src/App.jsx:331-336 | a result passes the dedup test (its index is the `findIndex` of its position) iff no earlier result has its position |
| Facilities.DedupKeepsFirsts | web/src/App.jsx:331-336 | dedup keeps, in order, exactly the results that are the first at their position |
| Facilities.DedupIsSubsequence | web/src/App.jsx:331-336 | the deduplicated results are an order-preserving subsequence of the input |
| Facilities.DedupPositions | web/src/App.jsx:331-336 | after dedup positions are pairwise distinct and every input position is still represented |
| Facilities.DedupOfDistinct | web/src/App.jsx:331-336 | results whose positions already differ are left unchanged by dedup |
| Facilities.DedupIdempotent | web/src/App.jsx:331-336 | deduplicating twice is deduplicating once |
| Facilities.AnyCategoryContainsIff | web/src/App.jsx:343 | some lower-cased category contains the keyword iff it occurs in one of them |
| Facilities.MentionsIff | web/src/App.jsx:354-358 | a result mentions a keyword iff it occurs in its lower-cased name, a category or its address |
| Facilities.Mentions | web/src/App.jsx:354-358 | the keyword test, defined over the lower-cased name, categories and address; characterised by `Facilities.MentionsIff` |
| Facilities.IsRelevant | web/src/App.jsx:341-361 | relevance, defined as some technology keyword being mentioned; characterised by `Facilities.IsRelevantIff` |
| Facilities.Relevant | web/src/App.jsx:341-365 | the relevance filter, defined with `Filter`; characterised by `Facilities.RelevantSelects` |
| Facilities.AnyKeywordIff | web/src/App.jsx:354-358 | `techKeywords.some` holds iff some keyword in the list is mentioned |
| Facilities.IsRelevantIff | web/src/App.jsx:341-361 | a result is relevant iff one of the 22 technology keywords occurs in its name, a category or its address |
| Facilities.RelevantSelects | web/src/App.jsx:341-365 | the relevant results are, in order, exactly the relevant ones of the input |
| Facilities.Facility | web/src/App.jsx:370-379 | the display record of one result, with the name, operator and description fallbacks; characterised by `Facilities.ShapeRecords` |
| Facilities.Shape | web/src/App.jsx:369-379 | `slice(0, 6).map(...)` over the relevant results; characterised by `Facilities.ShapeRecords` |
| Facilities.ShapePosition | web/src/App.jsx:369-379 | the i-th shaped record sits at the position of the i-th relevant result |
| Facilities.ShapeRecords | web/src/App.jsx:369-379 | shaping gives min(n, 6) records numbered 1..n, each at its result's position, with the drawn impact and the name, operator and description fallbacks |
| Facilities.ShapeDistinct | web/src/App.jsx:369-379 | results at distinct positions give records with distinct ids and distinct positions |
| Facilities.RelevantOfDedupLocated | web/src/App.jsx:331-341 | when every result has a position, so does every relevant deduplicated result |
| Facilities.RelevantOfDedupDistinct | web/src/App.jsx:331-365 | the relevant deduplicated results have pairwise distinct positions |
| Facilities.ShapedFromRelevant | web/src/App.jsx:369-379 | every shaped record sits at the position of a relevant result of the search |
| Facilities.Aggregate | web/src/App.jsx:280-493 | the search ends in the error path iff some gathered result lacks a position |
| Facilities.AggregateFound | web/src/App.jsx:369-383 | with a relevant result, 1 to 6 records numbered 1..n at distinct positions are published, each at the position of a relevant gathered result |
| Facilities.SampleCenters | web/src/App.jsx:420-451 | the three fixed samples, offset from the search centre; their shape is stated by `Facilities.AggregateSampled` |
| Facilities.ErrorSample | web/src/App.jsx:476-487 | the single error sample, equal to the first fixed sample |
| Facilities.AggregateSampled | web/src/App.jsx:417-454 | when no result that survives dedup is relevant, exactly the three samples with ids 1, 2, 3 are published |
| Facilities.AllFailedPublishesSamples | web/src/App.jsx:299-454 | when every term's request fails, returns an HTTP error or answers with no or an empty result list, the three samples are published |
| Facilities.AggregateNonEmpty | web/src/App.jsx:366-488 | the published facility list always holds between one and six records |
| Facilities.FacilityFeatures | web/src/App.jsx:387-400 | one map feature per record, in order, each at the record's coordinate |
| Reports.FindOption | web/src/App.jsx:185 | the option lookup returns an option with the key, or none when no option has it |
| Reports.FindOptionIn | web/src/App.jsx:185 | the option `find` returns is one of the options |
| Reports.LabelOf | web/src/App.jsx:185 | the label of a key, defined through `find`; characterised by `Reports.LabelOfOption` |
| Reports.LabelOfOption | web/src/App.jsx:185 | a key has a label iff some issue category has that key, and the label is that category's name |
| Reports.Without | web/src/App.jsx:194 | `filter(x => x !== key)`; characterised by `Reports.WithoutMultiset` |
| Reports.Toggle | web/src/App.jsx:194 | the checkbox toggle, defined as in the source; characterised by `Reports.ToggleMembership`, `Reports.TogglePresent` and `Reports.ToggleAbsent` |
| Reports.ToggleMembership | web/src/App.jsx:193-194 | after a toggle the key is selected iff it was not, and every other key keeps its state |
| Reports.WithoutMultiset | web/src/App.jsx:194 | removing a key drops all its occurrences and keeps every other key with its count |
| Reports.TogglePresent | web/src/App.jsx:194 | toggling a selected key removes it, keeps the rest in order and with their counts |
| Reports.ToggleAbsent | web/src/App.jsx:194 | toggling an unselected key appends it at the end |
| Reports.ToggleTwiceRestores | web/src/App.jsx:193-194 | toggling an unselected key twice restores the selection |
| Reports.ToggleKeepsNoDuplicates | web/src/App.jsx:193-194 | toggling never makes the selection hold a key twice |
| Reports.LabelContains | web/src/App.jsx:185 | the label of an issue exists and, lower-cased, contains the term |
| Reports.AnyIssueLabelContains | web/src/App.jsx:184-186 | `issues.some(...)` over the label test, as a scan; characterised by `Reports.AnyIssueLabelContainsIff` |
| Reports.AnyIssueLabelContainsIff | web/src/App.jsx:184-186 | the scan holds iff some issue's label contains the term |
| Reports.MatchesSearch | web/src/App.jsx:183-188 | a report matches iff an issue label or its non-empty notes contain the lower-cased term; used by `Reports.SearchSelects` |
| Reports.SearchIncidents | web/src/App.jsx:177-191 | the search results are no more than the reports and are drawn from them |
| Reports.SearchBlankReturnsAll | web/src/App.jsx:178-181 | a blank or whitespace-only term returns all reports unchanged |
| Reports.SearchSelects | web/src/App.jsx:183-190 | for a non-blank term the results are the reports at exactly the matching positions, in order, so a report that appears twice and matches is kept twice; membership is stated both ways |
| Reports.SearchFindsByLabel | web/src/App.jsx:184-186 | a report with an issue whose label contains the lower-cased term is found |
| Reports.LabelFound | web/src/App.jsx:184-186 | one matching issue label makes the `some` over the issues hold |
| Contacts.GetAuthorityContact | web/src/App.jsx:507-509 | the contact returned is always one of the table's entries |
| Contacts.DefaultExactlyForUnlisted | web/src/App.jsx:24-55 | the default contact is returned iff the key is not listed (or is `default`); a listed key gets its own entry |
| Contacts.IssueOptionsUsingDefault | web/src/App.jsx:9-55 | of the twelve issue categories, exactly heat, truck traffic, odor, light, construction, wildlife and vegetation fall back to the default contact |
| MapStyles.IndexOf | web/src/App.jsx:201 | `indexOf` returns the first index holding the style, or -1 when none does |
| MapStyles.NextIn | web/src/App.jsx:202-203 | `(indexOf + 1) % length` over any non-empty list yields an entry of the list |
| MapStyles.NextStyle | web/src/App.jsx:199-203 | the next style is always one of the five styles |
| MapStyles.NextOfUnknown | web/src/App.jsx:201-203 | a style not in the list is followed by "road" |
| MapStyles.NextOfKnown | web/src/App.jsx:199-203 | each listed style is followed by the next one, the last by the first |
| MapStyles.CycleReturns | web/src/App.jsx:199-203 | for any style list without repeats, stepping through it with `(indexOf + 1) % length` returns to the start after `length` steps and never sooner |
| MapStyles.AfterChangesOfKnown | web/src/App.jsx:199-203 | k presses move a listed style k places around the cycle |
| MapStyles.FiveChangesReturn | web/src/App.jsx:199-203 | five presses return to the starting style and fewer never do |
| MapStyles.IndexOfValue | web/src/App.jsx:200-201 | under strict equality `indexOf` finds only a string equal to a list entry |
| MapStyles.NextStyleAsWritten | web/src/App.jsx:199-203 | the handler as written yields one of the five styles |
| MapStyles.AsWrittenAlwaysRoad | web/src/App.jsx:200-203 | as written, every press computes "road" as the new style, so from "road" the button does nothing |
| MapStyles.StyleMemberGivesCycle | web/src/App.jsx:200-203 | looking up the style's name gives the intended cycle |
| App.Session.Valid | web/src/App.jsx:64-129 | the session invariant: overlays only on a created map, the incident markers mirror the reports submitted since the overlay exists, a pin at a pending selection, results of the current term, no issue selected twice |
| App.Session.constructor | web/src/App.jsx:64-95 | start-up state is empty, the map exists iff a key is configured, style "road", no overlays |
| App.Session.OnMapReady | web/src/App.jsx:99-129 | the ready event creates the three overlays empty and keeps the invariant |
| App.Session.HandleMapInteraction | web/src/App.jsx:132-151 | a resolved coordinate becomes the selection with exactly one marker there; otherwise nothing changes |
| App.Session.SelectLocation | web/src/App.jsx:230-234 | the user's position becomes the selection; the selection overlay is reset to one marker there only when it exists; the invariant holds |
| App.Session.LocateUser | web/src/App.jsx:209-246 | the position is selected as above and the facilities become the pipeline's outcome around it, the facility overlay redrawn as in `App.Session.FetchDataCenters` |
| App.Session.SetNotes | web/src/App.jsx:981 | the notes become the text box's text and nothing else changes |
| App.Session.ToggleIssue | web/src/App.jsx:193-194 | the selected issues become the toggle of the old ones and stay duplicate-free |
| App.Session.SetSearchTerm | web/src/App.jsx:176-191 | the term is set and the results become the search of the reports by it |
| App.MirrorAfterSubmit | web/src/App.jsx:262-271 | putting a report in front of the reports keeps the overlay a mirror of the newest reports, with its marker appended, or with no marker while the overlay is still empty |
| App.Session.ChangeMapStyle | web/src/App.jsx:196-207 | without a map nothing changes; otherwise the style moves one step along the cycle |
| App.Session.Submit | web/src/App.jsx:248-278 | without a selection or an issue nothing changes; otherwise the report goes in front, the form resets, and a marker titled with the first issue is appended exactly when the incidents overlay exists; the invariant holds |
| App.Session.Record | web/src/App.jsx:262-271 | the report goes in front, the results are recomputed for the current term, and its marker is appended exactly when the incidents overlay exists; the invariant holds |
| App.Session.FetchDataCenters | web/src/App.jsx:280-493 | the facilities become the pipeline's outcome; the overlay is redrawn from them when it exists and the search did not throw, and kept otherwise |

## Left out

- The HTTP requests themselves are parameters (`fetch`). This covers URL building, query encoding, the maps key in the URL, and response parsing beyond the fields used.
- The report and incident endpoints are left out. Incident refresh is a timer that only clears a loading flag. These calls have no effect on the modelled state.
- App.Session.FetchDataCenters: the facility search is asynchronous in the source: it awaits up to ten requests. The model treats it as one step, the moment the search publishes; everything after its last response runs without interruption. Overlapping searches publish in the order they finish, not the order they started; that is not modelled.
- App.Session.LocateUser: "use my location" does not wait for the search it starts. The model covers only the schedule where nothing runs between the selection and the moment the search publishes. A map click, a submit or a second search in between is not modelled.
- The browser's geolocation request is a parameter: `LocateUser` receives the position it answers with. Its failure paths only show an alert and change nothing modelled. The start-up timer that asks for it, the `userLocation` state, the camera move and the user-location marker are left out; they are browser I/O and display.
- Creating the map, its layers and icons, and fitting the camera to the facilities are left out. They are calls into the map library.
- The test and debug helpers after line 510 are left out. So is the rendered markup.
- The `submitting`, `loadingIncidents`, `loadingDataCenters`, `locationLoading` and `activeSection` flags are left out. They only drive the display.
- What the map library's `setStyle` does with the style name it is given is not modelled; the model records the name as the new style.
- Coordinates are integers, not floating-point numbers. The model only adds constant offsets and compares positions for equality.
- Text.Lower: lower-cases ASCII letters only, where `toLowerCase` also folds the rest of Unicode.
- A category without a name is left out; in the source it throws inside the relevance filter. A result without a position is modelled: it throws inside dedup and takes the error path.
- Contacts.GetAuthorityContact: does not model keys inherited from the object prototype (such as `toString`). In the source these return a value that is not a contact.
- The selection's red pin stays on the map after a submit resets the selection, as in the source. A position that arrives before the map is ready is selected without a pin. The invariant therefore ties a pin, when there is one, to the pending selection, and does not demand one.
- Dedup keeps the first result at each position even when that result is irrelevant. A relevant result at the same position is then lost, as in the source.

## Findings

| source | as written | input that shows it | evidently intended | confidence | as-written member | corrected member |
|---|---|---|---|---|---|---|
| web/src/App.jsx:200-203 | the map's current style is looked up with `styles.indexOf(map.getStyle())`; the map library returns a style-options object, not a style name, so the index is always -1 and every press passes "road" to `setStyle` | a map showing "road": pressing the button asks for "road" again instead of "satellite", so the map stays on "road" | look up the options' style name, so that each press moves one step along the five-style cycle | medium: not executed; rests on the map library's documented return type of `getStyle` | MapStyles.AsWrittenAlwaysRoad | MapStyles.FiveChangesReturn |

`App.Session.ChangeMapStyle` uses the corrected `MapStyles.NextStyle`.
