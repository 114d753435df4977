# Drone dashboard front end, modelled in Dafny

This project models the React front end of a drone lab dashboard. Drones
publish telemetry over MQTT on `lab/drone/{id}/telemetry`, and the
dashboard's own GOTO orders appear on `lab/drone/{id}/commands`. A fleet
API lists, starts, stops, commands and deletes drones. The model covers
the logic of four components:

- **Map panel** (`MapPanel`, class `MapStore`):
  - The latest telemetry per drone, with a trail of at most 200 positions.
  - The last GOTO target per drone, keyed by the command topic.
  - The views drawn from them: sorted ids, a palette colour per id, the ids
    shown under the filter, and the map centre (the mean of the visible
    positions, or a fallback over Montpellier).
- **Telemetry feed** (`TelemetryFeed`, class `Feed`):
  - Messages that look like telemetry become lines at the top of a list
    capped at 150.
  - One tab per drone present, an "all" tab, a tab set from the `selected`
    prop, and a clear button. `App` passes its `selected` state, whose
    setter it hands to the fleet table as `onSelect`; `DroneTable` never
    calls `onSelect`, so in this application the prop stays "".
- **Page buttons** (`Pager`): `makePageItems`, which lists page numbers and
  "…" gaps.
- **Fleet table** (`DroneTable`, class `FleetTable`):
  - A log of the newest 51 lines.
  - The GOTO form's parsing and lat/lon gate.
  - Search (trimmed, case-folded substring on the id).
  - The running-first or by-id order.
  - Paging, the clamp that pulls the page back into range, and the delete
    confirmation with its page fix-up.

Shared modules:

- `JsValues`: JavaScript values after `JSON.parse`, with truthiness.
- `Messages`: the payload fields the handlers read.
- `Text`: the string built-ins used, i.e. the default sort order,
  `split('/')`, `trim`, `toLowerCase`, `includes`, `replace(',', '.')`
  and `new Set`.
- `Sorting`: a stable insertion sort standing for `Array.prototype.sort`.
- `Seqs`: `filter` and `slice`.

The components re-run their derived values (`useMemo`) and effects whenever
their state changes. Here each derived value is a function of the state it
depends on. Each state update is a method of the component's class, proved
against a function on the old state.

The telemetry handlers store `status`, lat and lon exactly as received:
they do no range check and no mapping of status values, only the
`typeof === "number"` test on lat and lon (MapPanel.jsx:57-85,
TelemetryFeed.jsx:12-46). The model does the same.

## Model

| member | source | states |
|---|---|---|
| MapPanel.NextHistory | front/src/components/MapPanel.jsx:67-70 | the new point is always last; below the cap nothing is lost; at the cap exactly the oldest point is dropped; a trail within 200 stays within 200 |
| MapPanel.TelemetryKey | front/src/components/MapPanel.jsx:60 | the key is never empty: `drone_id` when it is a non-empty string, "unknown" otherwise |
| MapPanel.WithTelemetry | front/src/components/MapPanel.jsx:59-84 | the update the handler makes to `pos`; its effect is stated by TelemetryEffect below |
| MapPanel.TelemetryEffect | front/src/components/MapPanel.jsx:57-85 | a message without numeric lat and lon changes nothing; otherwise the drone's entry (created if new, under "unknown" when `drone_id` is falsy) carries the message's lat, lon, alt, status and ts, its trail is extended by the new point, and every other drone's entry is unchanged |
| MapPanel.TelemetryKeepsHistoriesValid | front/src/components/MapPanel.jsx:65-83 | every trail keeps 1 to 200 points and ends at the drone's current position |
| MapPanel.TelemetryKeepsConsistent | front/src/components/MapPanel.jsx:65-83 | the insertion-ordered key list stays free of duplicates and in step with the map: a new drone is appended once |
| MapPanel.HistoryIsWindow | front/src/components/MapPanel.jsx:57-85 | for any stream of messages, a drone's trail is the last 200 of the positions it reported after the trail it had, oldest first; rejected messages and other drones' messages do not touch it; the drone is present exactly when it was before or reported a position |
| MapPanel.OldestEvicted | front/src/components/MapPanel.jsx:67-70 | after 201 accepted positions for a new drone, the first has been evicted and the trail is exactly the other 200 |
| MapPanel.MapStore.ApplyTelemetry | front/src/components/MapPanel.jsx:57-85 | the handler's update of `pos` and of the key order; targets are untouched; the store invariant is kept |
| MapPanel.TargetKey | front/src/components/MapPanel.jsx:92-93 | the key is a single non-empty topic segment: never empty and never holding '/' |
| MapPanel.IsGoto | front/src/components/MapPanel.jsx:89-96 | a command sets a target only with a payload whose `cmd` is "goto" and whose args hold numeric lat and lon |
| MapPanel.TargetKeyOfCommandTopic | front/src/components/MapPanel.jsx:92-93 | on a topic `prefix/drone/{id}/commands` the key taken from the third segment is the drone id |
| MapPanel.WithCommand | front/src/components/MapPanel.jsx:88-102 | only a `goto` payload with object args and numeric lat and lon changes the targets: it sets the topic's drone to that lat, lon and alt and leaves every other target as it was |
| MapPanel.MapStore.ApplyCommand | front/src/components/MapPanel.jsx:88-102 | the handler's update of `targets`; positions and key order are untouched |
| MapPanel.MapStore.Refresh | front/src/components/MapPanel.jsx:49-52 | the refresh button empties positions and targets |
| MapPanel.DroneIds | front/src/components/MapPanel.jsx:111-113 | the ids are strictly ascending in code-point order, and an id is listed exactly when it has a position |
| MapPanel.ColorById | front/src/components/MapPanel.jsx:116-122 | every listed id, and no other, gets a palette colour; with no id repeated, the id at index i gets palette entry i mod 6 |
| MapPanel.VisibleIds | front/src/components/MapPanel.jsx:125-128 | the "all" filter shows every id; any other filter shows exactly that id when it is known and nothing otherwise |
| MapPanel.VisiblePoints | front/src/components/MapPanel.jsx:132-135 | at most one point per id; when every id has a position, the points are those positions in id order |
| MapPanel.Center | front/src/components/MapPanel.jsx:131-142 | with no visible position the centre is the fallback (43.611, 3.877) |
| MapPanel.CenterWithinBox | front/src/components/MapPanel.jsx:131-142 | the centre lies in every latitude/longitude box that holds all visible drones |
| MapPanel.CenterOfOne | front/src/components/MapPanel.jsx:137-141 | with one drone in view the centre is that drone's position |
| MapPanel.VisibleIdsHavePositions | front/src/components/MapPanel.jsx:125-135 | in a consistent store every id the filter shows has a position, so the centre averages exactly the drones on screen |
| MapPanel.SortedColorShifts | front/src/components/MapPanel.jsx:111-122 | as written, drone "b" has colour 0 alone and colour 1 once "a" reports, and the two colours differ |
| MapPanel.StableColorKept | front/src/components/MapPanel.jsx:115-122 | with colours by first-seen order, no telemetry message ever recolours a drone already shown |
| TelemetryFeed.Accepts | front/src/components/TelemetryFeed.jsx:14-30 | a message is taken only if it is an object with a truthy `drone_id`, a `position`, and numeric `position.lat` and `position.lon` |
| TelemetryFeed.EntryOf | front/src/components/TelemetryFeed.jsx:33-42 | the line carries the message's id, status, lat, lon, alt, speed and battery; its time is `ts` when truthy and the clock reading otherwise |
| TelemetryFeed.FeedAfter | front/src/components/TelemetryFeed.jsx:12-46 | a message that is not an object, has a falsy `drone_id`, or lacks a position with numeric lat and lon changes nothing; otherwise its line goes first, the older lines follow in order, and the list is cut at 150 |
| TelemetryFeed.FeedIsNewestWindow | front/src/components/TelemetryFeed.jsx:32-45 | for any stream of messages, the feed is the accepted lines newest first, followed by the earlier lines, cut at 150 |
| TelemetryFeed.FeedFromEmpty | front/src/components/TelemetryFeed.jsx:7-45 | from an empty feed, the feed is the newest 150 accepted lines, newest first |
| TelemetryFeed.Feed.Handle | front/src/components/TelemetryFeed.jsx:12-46 | the handler's update of the lines; the open tab is untouched; at most 150 lines, each from a named drone |
| TelemetryFeed.DroneIds | front/src/components/TelemetryFeed.jsx:66-69 | the tabs are strictly ascending, and an id has a tab exactly when it is non-empty and some line carries it |
| TelemetryFeed.SenderHasTab | front/src/components/TelemetryFeed.jsx:32-45 | a drone whose message was just accepted has a tab |
| TelemetryFeed.FilteredLines | front/src/components/TelemetryFeed.jsx:72-75 | the "all" tab shows every line; a drone's tab shows each line of that drone as often as the feed holds it, and no other line |
| TelemetryFeed.FilteredLinesAppend | front/src/components/TelemetryFeed.jsx:74 | the tab's lines of two stretches of the feed are those of the first followed by those of the second, so the filter keeps the feed's order |
| TelemetryFeed.FilteredLinesIdempotent | front/src/components/TelemetryFeed.jsx:72-75 | filtering twice by a tab is filtering once |
| TelemetryFeed.NewLineTopsItsTab | front/src/components/TelemetryFeed.jsx:43-44 | the line just added shows first in its drone's tab |
| TelemetryFeed.Feed.Select | front/src/components/TelemetryFeed.jsx:60-63 | a non-empty `selected` prop becomes the active tab; an empty one changes nothing; the lines are untouched |
| TelemetryFeed.Feed.Clear | front/src/components/TelemetryFeed.jsx:77 | the feed becomes empty; the tab is kept |
| Pager.PageItems | front/src/components/ui/Utils.jsx:1-14 | up to 7 pages lists pages 1..total; otherwise page 1 comes first and the last page last; for a page in range there are never more than 7 buttons |
| Pager.MakePageItems | front/src/components/ui/Utils.jsx:1-14 | the builder loop pushes exactly the buttons `PageItems` describes |
| Pager.PagesIncreasing | front/src/components/ui/Utils.jsx:4-12 | the numbered buttons lie in 1..total and go strictly up |
| Pager.CurrentListed | front/src/components/ui/Utils.jsx:2-9 | the current page, when in range, always has a button |
| Pager.NeighboursListed | front/src/components/ui/Utils.jsx:5-9 | every page from `left` to `right` has a button |
| Pager.GapPlacement | front/src/components/ui/Utils.jsx:8-10 | a "…" follows page 1 exactly when `left > 2`, and one precedes the last page exactly when `right < total - 1` |
| Pager.CurrentOutOfRange | front/src/components/ui/Utils.jsx:4-13 | with the current page off either end, only page 1, "…" and the last page are listed |
| Pager.AdjacentPagesConsecutive | front/src/components/ui/Utils.jsx:9 | two page buttons next to each other are consecutive pages |
| Pager.GapsWellPlaced | front/src/components/ui/Utils.jsx:4-13 | no "…" comes first or last, each sits between two page buttons, and it hides at least one page |
| DroneTable.LogAfter | front/src/components/DroneTable.jsx:41-42 | the new line is last, after the newest 50 old lines (or all of them) in their order |
| DroneTable.LogIsWindow | front/src/components/DroneTable.jsx:41-42 | however many lines are added, the log is the newest 51 lines, oldest first |
| DroneTable.FleetTable.AddLog | front/src/components/DroneTable.jsx:41-42 | the log becomes `LogAfter` of the old log and the line; every other field is unchanged |
| DroneTable.FleetTable.Load | front/src/components/DroneTable.jsx:27-37 | on success the rows are replaced, and the first drone is chosen for GOTO if none was; on failure the rows stay and an error line is logged; every other field is unchanged |
| DroneTable.Normalized | front/src/components/DroneTable.jsx:82 | the result is the trimmed text with its first comma turned into a point and every other character kept, so no comma is left before the first one |
| DroneTable.ParseDec | front/src/components/DroneTable.jsx:80-85 | the result is finite exactly when `Number` of the normalised text is, and then equals it; otherwise it is absent |
| DroneTable.IsValidLat | front/src/components/DroneTable.jsx:86 | a latitude is valid when finite and within [-90, 90] |
| DroneTable.IsValidLon | front/src/components/DroneTable.jsx:87 | a longitude is valid when finite and within [-180, 180] |
| DroneTable.GotoAllowed | front/src/components/DroneTable.jsx:94 | the gate: a drone is chosen and both coordinates are valid |
| DroneTable.GotoGate | front/src/components/DroneTable.jsx:80-94 | a GOTO passes exactly when a drone is chosen and `Number` of each normalised coordinate is finite and in range; NaN and the infinities are refused |
| DroneTable.BlankFieldsPassGate | front/src/components/DroneTable.jsx:80-94 | blank lat and lon fields parse to 0 (as `Number("")` is 0) and pass the gate |
| DroneTable.FleetTable.SendCommand | front/src/components/DroneTable.jsx:64-77 | the request is handed over once, the outcome is logged (OK or ERROR), and the busy mark ends cleared; every other field is unchanged |
| DroneTable.FleetTable.OnGoto | front/src/components/DroneTable.jsx:86-99 | a GOTO with the parsed lat, lon and alt is sent to the chosen drone exactly when a drone is chosen, lat is finite in [-90, 90] and lon is finite in [-180, 180]; when sent, the outcome is logged as OK or ERROR and the busy mark ends cleared; otherwise nothing is sent, nothing is marked busy and "GOTO invalide" is logged; every other field is unchanged |
| DroneTable.Matches | front/src/components/DroneTable.jsx:106-108 | a blank search keeps every row; otherwise the lower-cased id must contain the trimmed, lower-cased search |
| DroneTable.Matching | front/src/components/DroneTable.jsx:106-109 | the search keeps at most the rows it was given |
| DroneTable.Processed | front/src/components/DroneTable.jsx:104-121 | the listed rows are a permutation of the rows the search keeps |
| DroneTable.ProcessedIsMatching | front/src/components/DroneTable.jsx:104-121 | each row is listed as often as it occurs when its lower-cased id contains the trimmed, lower-cased search (or the search is blank), and never otherwise |
| DroneTable.RunningFirst | front/src/components/DroneTable.jsx:111-116 | running rows before the others, then by id |
| DroneTable.ById | front/src/components/DroneTable.jsx:118 | rows by id |
| DroneTable.RunningFirstIsTotalPreorder | front/src/components/DroneTable.jsx:111-116 | the running-first comparator is total and transitive, so the sort is well defined |
| DroneTable.ByIdIsTotalPreorder | front/src/components/DroneTable.jsx:118 | the by-id comparator is total and transitive |
| DroneTable.RunningRowsFirst | front/src/components/DroneTable.jsx:110-116 | with `activeFirst` on, every running row precedes every other row, and rows of one group are in id order |
| DroneTable.RowsById | front/src/components/DroneTable.jsx:117-119 | with `activeFirst` off, the rows are in id order |
| DroneTable.TotalPages | front/src/components/DroneTable.jsx:123 | `Math.max(1, Math.ceil(n / k))` is at least 1, with `Math.ceil` rounding up for negative `n` too |
| DroneTable.TotalPagesBounds | front/src/components/DroneTable.jsx:123 | the page count is the smallest count of at least one page that holds every row |
| DroneTable.PageRows | front/src/components/DroneTable.jsx:124-127 | a page holds at most `pageSize` rows, in list order from `(page - 1) * pageSize`; it is empty exactly when it starts past the end |
| DroneTable.PagesCoverAll | front/src/components/DroneTable.jsx:123-127 | pages 1 to `totalPages`, one after the other, are the whole list: nothing lost or repeated |
| DroneTable.PageInRangeNotEmpty | front/src/components/DroneTable.jsx:123-127 | a page in range of a non-empty list always shows rows |
| DroneTable.ClampedPage | front/src/components/DroneTable.jsx:134 | a page in range stays put and a page past the count becomes exactly the count; the result never exceeds the count and stays at least 1 |
| DroneTable.FleetTable.ClampPage | front/src/components/DroneTable.jsx:134 | the effect sets the page to the clamp of the old page against the current page count; nothing else changes |
| DroneTable.FleetTable.SetSearch | front/src/components/DroneTable.jsx:160 | typing a search sets it and returns to page 1; every other field is unchanged |
| DroneTable.FleetTable.SetPageSize | front/src/components/DroneTable.jsx:165 | choosing a page size sets it and returns to page 1; every other field is unchanged |
| DroneTable.RemoveId | front/src/components/DroneTable.jsx:456 | each row of another drone is kept as often as it occurs, and no row of the deleted drone remains |
| DroneTable.RemoveIdAppend | front/src/components/DroneTable.jsx:456 | removing from two stretches of the list is removing from each in turn, so the kept rows stay in their order |
| DroneTable.PageAfterDelete | front/src/components/DroneTable.jsx:459-461 | with t the page count for one row fewer than were shown, the page stays put when at most t and becomes exactly t otherwise; it never rises and stays at least 1 |
| DroneTable.DeletePageMatchesClamp | front/src/components/DroneTable.jsx:459-461 | when the deleted drone had exactly one row and the search listed it, the page the delete picks is the page the clamp picks for the new list |
| DroneTable.FleetTable.ConfirmDelete | front/src/components/DroneTable.jsx:450-470 | with no drone chosen nothing changes; otherwise, on success the drone's rows go, "OK" is logged and the page is lowered against the shown list less one; on failure only an error line is logged; the busy mark ends cleared either way |
| DroneTable.FleetTable.DropDeleted | front/src/components/DroneTable.jsx:455-461 | the success branch of the delete: rows filtered, delete logged, page fixed up |
| Text.Trim | front/src/components/DroneTable.jsx:106-107 | the result is a piece of the input with no trimmable character at either end, and only trimmable characters were dropped around it |
| Text.Lower | front/src/components/DroneTable.jsx:107-108 | each character is lowered (ASCII letters only) and the length is kept |
| Text.Contains | front/src/components/DroneTable.jsx:108 | `includes` holds exactly when the needle occurs at some index |
| Text.ReplaceFirst | front/src/components/DroneTable.jsx:82 | only the first occurrence of the character is replaced, and the length is kept |
| Text.SortStrings | front/src/components/MapPanel.jsx:112 | the result is sorted in code-point order and a permutation of the input |
| Text.SortDistinct | front/src/components/TelemetryFeed.jsx:67-68 | sorting ids without repetitions gives a strictly ascending list with the same ids |
| Text.SortDependsOnElementsOnly | front/src/components/MapPanel.jsx:111-113 | two id lists with the same ids and no repetitions sort to the same list, so insertion order does not matter |
| Text.Distinct | front/src/components/TelemetryFeed.jsx:67-68 | `new Set` keeps each id once, and exactly the ids given |
| Text.Split | front/src/components/MapPanel.jsx:92 | `split('/')` gives at least one piece, none containing the delimiter |
| Text.JoinSplit | front/src/components/MapPanel.jsx:92 | joining the pieces gives the topic back |
| Text.SplitJoin | front/src/components/MapPanel.jsx:92-93 | splitting the join of pieces without the delimiter gives the pieces back |
| Sorting.SortBySorted | front/src/components/DroneTable.jsx:111-118 | under a total preorder comparator the insertion sort's result is sorted; it is always a permutation of its input |
| Sorting.SortedUnique | front/src/components/MapPanel.jsx:112 | two sorted permutations of one another are equal under an antisymmetric order |
| Seqs.FilterAppend | front/src/components/TelemetryFeed.jsx:74 | `filter` keeps the order of the elements it keeps |
| Seqs.FilterCounts | front/src/components/DroneTable.jsx:108 | `filter` keeps each accepted element as often as it occurs and drops every other element |

## Left out

- The MQTT transport (`front/src/services/mqtt.js` is not part of this model). This covers the connection, the re-delivery of a payload as a raw string when `JSON.parse` fails, and the fact that every listener sees every message. Each handler is modelled as receiving a payload already reduced to the fields it reads; a non-object payload is `NotAnObject`.
- Subscription set-up and tear-down in the effects: this is lifecycle only.
- `drone_id` values that are not strings: the model takes the id as a string, with "" for a falsy one.
- DroneTable.RunningFirst / DroneTable.ById: `localeCompare` is modelled as code-point lexicographic order. Locale collation is not modelled.
- Text.SortStrings: sorts in code-point order, while JavaScript's default `sort` compares UTF-16 code units. The two orders differ only between a character above U+FFFF and one in U+E000..U+FFFF: JavaScript puts the former first, since its surrogates are below 0xE000.
- Text.Lower: `toLowerCase` is modelled for ASCII letters only.
- `Number(...)` is a parameter of `ParseDec`: JavaScript's string-to-number grammar is not modelled.
- DroneTable.ParseDec: the `v == null` guard is not modelled, because the GOTO form's fields are always strings.
- Log lines record the level and a structured event. The French wording and `toLocaleTimeString` are not modelled: the time stamp is a parameter.
- The API calls (`listDrones`, `sendCmd`, `deleteDrone`, `startDrone`, `stopDrone`) are represented by their outcome, which is a parameter (`data`, `delivered`, `deleted`).
- Interleavings of concurrent async actions are not modelled. The busy map is modelled only before and after each action.
- `fetchDrones` after a start or stop is not modelled.
- `doStart`, `doStop`, the edit form, the expanded row and the modal's open state are left out. They are API calls and UI toggles, and no logic beyond what `SendCommand` already shows.
- The `runningIds` set is not modelled: no logic reads it beyond rendering.
- The page buttons' `setPage` handlers (first, previous, next, last) are left out. They are one-line clamps that the effect at line 134 also covers.
- DroneTable.DeletePageMatchesClamp: stated only for a drone with exactly one row that the search lists. The fix-up at `front/src/components/DroneTable.jsx:459-461` assumes the listed rows shrink by exactly one. With several rows for the id, the length it uses is too large, the page may stay above the new last page, and the clamp effect at line 134 then lowers it. With a deleted row the search did not list, the length it uses is one too small, the page can drop one page more than needed, and the clamp, which only lowers, leaves it there.
- Leaflet rendering, `fitToDrones`, follow mode and the filter selector.
- Floating-point arithmetic: coordinates are exact reals, so the centre is an exact mean. Only finite numbers are modelled: a numeric literal too large for a double parses to ±Infinity, which passes the `typeof` test in the handlers and is not represented.
- Pager.GapPlacement: requires the current page to be in range. An out-of-range page is covered by Pager.CurrentOutOfRange.

## Findings

| source | as written | input that shows it | evidently intended | confidence | as-written member | corrected member |
|---|---|---|---|---|---|---|
| front/src/components/MapPanel.jsx:115-122 | the colour comes from the id's index in the sorted id list, although the comment calls it stable | drone "b" reports alone and gets colour 0; then "a" reports and "b" moves to index 1, colour 1 | a colour fixed per drone, e.g. by first-seen order, so no drone is recoloured | medium, not executed | MapPanel.SortedColorShifts | MapPanel.StableColorKept |
