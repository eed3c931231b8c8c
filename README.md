# Tour routing core, modelled in Dafny

This project models the tour-routing core of a home-buying web app: a buyer picks listings and the server plans a showing tour.
The modelled steps are:

- It validates the request and clamps the dwell and buffer times.
- It asks an OSRM routing service for a travel-time table. The table goes through a retry-with-backoff fetch and a five-minute cache. When the service gives none, a geometric estimate is used.
- It orders the stops with a nearest-neighbour heuristic, or with the buyer's own order when that order is a permutation of the selection.
- It builds the arrival/departure schedule and an iCalendar (RFC 5545) document of the showings.
- It assembles the route points.

Around that core the project also models:

- the helpers of the tour and map pages that produce the ids the server accepts: selection caps, the drag-and-drop and arrow-key reordering, the default start time, the "to next" leg, the selection toggle and the route preview;
- the buyer-brief endpoint: the schema of a generated brief, the checks made on the model's reply, and the price disclosure.

One Dafny module per source file:

| file | module | source |
|---|---|---|
| order.dfy | TourOrder | lib/tour/order.ts |
| tour_route.dfy | TourRoute | app/api/tour/route.ts |
| ics.dfy, ical_date.dfy | Ics, ICalDate | lib/ics.ts |
| osrm.dfy | Osrm | lib/osrm.ts |
| tour_page.dfy | TourPage | app/tour/page.tsx |
| map_page.dfy | MapPage | app/map/page.tsx |
| github_models.dfy | GithubModels | lib/llm/githubModels.ts |
| brief_route.dfy | BriefRoute | app/api/brief/route.ts |
| lists.dfy, strings.dfy, js_math.dfy, wrappers.dfy | Lists, Strings, JsMath, Wrappers | the JavaScript built-ins these files use (`filter`, `indexOf`, `splice`, `Set`, `join`, `trim`, `padStart`, `Math.round`, …) |

Modelling conventions:

- Instants are integer milliseconds since the epoch, as `Date.getTime()` returns them.
- Minutes and coordinates are Dafny `real`s.
- `new Date(x)` truncates toward zero and is modelled by `JsMath.Trunc`. `Math.round` is the floor of `x + 0.5`.
- Imperative code is modelled as imperative Dafny:
  - the heuristic's `visited` array;
  - the schedule loop;
  - the ICS line pushes;
  - the backoff loop;
  - the caches, as a class with map fields;
  - the fallback table's nested loops;
  - the page's in-place `splice`, on an `array`.
- Each of these methods is proved against a specification function or predicate.
- The clock, `Math.random`, the network, the JSON parser and the listing catalog (`data/listings.json`) are parameters.

## Model

| member | source | states |
|---|---|---|
| TourOrder.NearestNeighborOrder | lib/tour/order.ts:4-33 | an empty table gives `[]`; a start outside `[0, n)` gives the "Invalid startIndex" error; otherwise the result satisfies `IsNearestNeighborOrder`: it starts at the start, is a permutation of `0..n-1`, and each step picks the nearest unvisited usable entry, lowest index on ties, or the lowest unvisited index when no entry is usable |
| TourOrder.ScanNearest | lib/tour/order.ts:13-20 | -1 exactly when no unvisited position has a usable entry from the current one; otherwise the unvisited position with the smallest usable entry, the lowest index among equal entries |
| TourOrder.FirstUnvisited | lib/tour/order.ts:23-26 | returns the lowest index not yet visited, or -1 exactly when every index is visited |
| TourOrder.GreedyStepUnique | lib/tour/order.ts:15-27 | the greedy rule determines the next stop: two indices that both satisfy it are equal |
| TourOrder.NearestNeighborOrderUnique | lib/tour/order.ts:12-31 | the heuristic's order is a function of the table and the start: two orders that satisfy the specification are equal |
| TourOrder.PermutationCovers | lib/tour/order.ts:8-30 | an order that is a permutation of `0..n-1` contains every index |
| TourOrder.UnvisitedExists | lib/tour/order.ts:23-26 | while fewer than n stops are ordered, some index is still unvisited, so the fallback scan finds one |
| TourOrder.DistinctWithin | lib/tour/order.ts:8-10 | a duplicate-free list drawn from a pool is no longer than the pool |
| TourOrder.TriangleOrder | tests/order.test.ts:9-17 | on the triangle table from 0, the only valid order is `[0, 1, 2]` |
| TourOrder.DisconnectedOrder | tests/order.test.ts:19-28 | on the table with -1 entries from 0, the order is `[0, 2, 1]`: three long, starting at 0 |
| TourRoute.Validate | app/api/tour/route.ts:22-43 | a rejection is a 400; an accepted request carries the catalog selection of the de-duplicated ids (2 to 10 listings), the clamped dwell (default 20, in 5..120) and buffer (default 5, in 0..30), the start time or else the current time, and the start coordinate exactly when one was sent, which is then in range |
| TourRoute.ValidateAccepts | app/api/tour/route.ts:22-43 | a request is accepted iff it has 2 to 10 distinct ids, at least two are in the catalog, and any start is finite and in range; each rejection has its own message, checked in source order |
| TourRoute.DuplicateIdsCollapse | app/api/tour/route.ts:22 | repeating an id already in the request changes nothing |
| TourRoute.Matching | app/api/tour/route.ts:29 | the filter keeps exactly the catalog listings whose id was requested |
| TourRoute.Selected | app/api/tour/route.ts:29 | at most ten listings, each from the catalog with a requested id |
| TourRoute.SelectedInCatalogOrder | app/api/tour/route.ts:29 | the selection keeps catalog order; with at most ten matches it is all of them |
| TourRoute.Dwell | app/api/tour/route.ts:34 | the dwell is in 5..120 minutes |
| TourRoute.Buffer | app/api/tour/route.ts:35 | the buffer is in 0..30 minutes |
| TourRoute.ClampsIdempotent | app/api/tour/route.ts:34-35 | missing values default to 20 and 5; an in-range rounded value passes through unchanged; clamping a clamped value changes nothing |
| TourRoute.IdIndex | app/api/tour/route.ts:55 | the id-to-index map finds a position holding the id, and finds none iff the id is not selected |
| TourRoute.KnownIndicesAll | app/api/tour/route.ts:56 | mapping the ids keeps them all iff every id is selected; each kept index then holds its id |
| TourRoute.ManualOrderAccepted | app/api/tour/route.ts:53-58 | the manual order is used iff it is as long as the selection, has no duplicate and names only selected ids; it is then a permutation of the stop indices in the buyer's order |
| TourRoute.HeuristicStopsAsWritten | app/api/tour/route.ts:62 | the mapping as written never lengthens the heuristic order |
| TourRoute.HeuristicDropsFirstStop | app/api/tour/route.ts:62 | without a start coordinate, the mapping as written loses stop 0: k−1 entries for k stops |
| TourRoute.HeuristicAsWrittenSkipsFirstListing | app/api/tour/route.ts:60-64 | without a start coordinate and with distinct catalog ids, the as-written mapping lists one stop fewer than selected, never the first selected listing, in the ids, in every schedule row and in the route points |
| TourRoute.HeuristicDropsFirstStopExample | app/api/tour/route.ts:62 | for two stops without a start, `[0, 1]` becomes `[1]` as written and stays `[0, 1]` corrected |
| TourRoute.HeuristicStopsPermutation | app/api/tour/route.ts:59-63 | the corrected mapping always yields a permutation of the stops; with a start it is the heuristic order without position 0, shifted down by one |
| TourRoute.ChooseOrder | app/api/tour/route.ts:52-63 | the stop order is a permutation of the selection: the manual order when accepted, otherwise the corrected mapping of a nearest-neighbour order of the table from 0 |
| TourRoute.BuildSchedule | app/api/tour/route.ts:75-95 | one row per ordered stop, in order, with ETA = previous ETD (or the start) + travel + buffer and ETD = ETA + dwell; per-leg durations and pairs; the drive total is the sum of `travel \|\| 0` |
| TourRoute.ScheduleInOrder | app/api/tour/route.ts:90-94 | with non-negative travel times, each visit ends after it starts, the first starts no earlier than the start time, and the next arrival is no earlier than the previous departure |
| TourRoute.ArrivalClosedForm | app/api/tour/route.ts:79-95 | with whole-minute travel, stop i's arrival is start + (legs' travel + (i+1)·buffer + i·dwell) minutes |
| TourRoute.UnknownTravelGoesBack | app/api/tour/route.ts:85-90 | an "unknown" travel of -1 with no buffer puts the arrival one minute before the previous departure and lowers the drive total by 1 |
| TourRoute.TourEvents | app/api/tour/route.ts:97-107 | one event per schedule row |
| TourRoute.TourEventFields | app/api/tour/route.ts:97-107 | event i spans its row's ETA to ETD, is titled "Showing {i+1}: {address}" with i+1 in decimal, and is located at the address |
| TourRoute.DescriptionCarriesNote | app/api/tour/route.ts:98-99 | the description starts with the fixed sentence; it is longer iff the trimmed note is non-empty, and the note then follows "\nNotes: " |
| TourRoute.RouteCoords | app/api/tour/route.ts:111-113 | the route points are the optional start, then each stop's point in tour order |
| TourRoute.RoutePositions | app/api/tour/route.ts:45-47 | the table is asked about the start coordinate first when there is one, then each selected stop's point in selection order |
| TourRoute.PickAll | app/api/tour/route.ts:64 | entry k of the ordered listings is the selected listing at order[k] |
| TourRoute.PermutedIds | app/api/tour/route.ts:120 | the response's id order has every selected id and only those, with no repeats when the catalog ids are distinct |
| TourRoute.RouteSummary | app/api/tour/route.ts:114-117 | with route details: their geometry, the leg distances in order and their total; without: no geometry, no legs and the distance estimate |
| TourRoute.Itinerary | app/api/tour/route.ts:52-108 | the chosen plan's order, its schedule rows, drive total and the calendar of its events |
| TourRoute.ResponseFitsPlan | app/api/tour/route.ts:119-127 | a response assembled from the itinerary lists the ordered ids, the rows, the drive total and the calendar for that plan |
| TourRoute.Respond | app/api/tour/route.ts:51-130 | a 500 exactly when the route request throws; otherwise a response that fits the plan and carries the route summary for the plan's points |
| TourRoute.PlanWithTable | app/api/tour/route.ts:48-49 | the plan and response are those for the service's table when it gave one and for the estimated table otherwise |
| TourRoute.PlanTour | app/api/tour/route.ts:11-131 | a validation failure is returned as is; failures are 400 or 500; a thrown table request is a 500; otherwise the table or its fallback determines the plan and the response |
| ICalDate.DayOfEra | lib/ics.ts:11-13 | the day within its 400-year era is in 0..146096 and rebuilds the day count |
| ICalDate.YearOfEra | lib/ics.ts:11-13 | the year within the era is in 0..399 and leaves a day-of-year in 0..365 |
| ICalDate.MonthIndex | lib/ics.ts:12-13 | the March-based month is in 0..11 and leaves a day of month in 1..31 |
| ICalDate.CivilDaysRoundTrip | lib/ics.ts:11-13 | converting a day count to a civil date and back gives the day count; month is in 1..12 and day in 1..31 |
| ICalDate.UtcRanges | lib/ics.ts:11-17 | the UTC fields of any instant have calendar ranges |
| ICalDate.PadTwo | lib/ics.ts:4-6 | `pad` of 0..99 is two digits whose value is the number |
| ICalDate.YearDigits | lib/ics.ts:11 | a year in 1000..9999 prints as four digits with that value |
| ICalDate.ToICalDateShape | lib/ics.ts:8-20 | for four-digit years the stamp is 16 characters, digits around "T" and "Z", and parses back to the instant's UTC fields |
| ICalDate.RenderShape | lib/ics.ts:10-19 | rendering fields in range and parsing the text gives the fields back |
| ICalDate.ToICalDateInjective | lib/ics.ts:8-20 | two instants with the same stamp fall in the same second |
| ICalDate.UtcSeconds | lib/ics.ts:15-17 | hour, minute and second are the instant's second of the day |
| ICalDate.ToICalDateExample | tests/ics.test.ts:5-8 | 2024-01-02 03:04:05 UTC gives "20240102T030405Z" |
| ICalDate.ToICalDateAt | lib/ics.ts:8-20 | any instant on 2024-01-02 renders as "20240102T" then its padded hour, minute and second, then "Z" |
| Ics.EscapeRoundTrip | lib/ics.ts:56-63 | TEXT escaping is undone by unescaping: nothing is lost |
| Ics.EscapeNoNewline | lib/ics.ts:56-63 | escaped text has no line feed, so it stays on its content line |
| Ics.EscapePlain | lib/ics.ts:56-63 | text without backslash, line feed, comma or semicolon is unchanged |
| Ics.EscapeTextConcat | lib/ics.ts:56-63 | escaping works character by character: it distributes over concatenation |
| Ics.Texts | lib/ics.ts:40-41 | one escaped text record per event |
| Ics.GenerateIcs | lib/ics.ts:31-54 | the document is the calendar's lines joined with CRLF |
| Ics.WriteEvents | lib/ics.ts:40-51 | the loop's pushes produce the events' blocks in input order |
| Ics.WriteEvent | lib/ics.ts:42-50 | the pushes for one event produce its block |
| Ics.CalendarEventCount | lib/ics.ts:31-54 | the calendar opens with the five header lines, closes with END:VCALENDAR, and has exactly one BEGIN:VEVENT and one END:VEVENT per event |
| Ics.BlockAt | lib/ics.ts:40-51 | event i's block follows the blocks of the events before it and carries the shared DTSTAMP |
| Ics.EventOptionalLines | lib/ics.ts:41-49 | LOCATION and DESCRIPTION lines appear iff those fields are present and non-empty; a supplied uid is used as is |
| Ics.CalendarSplitsIntoLines | lib/ics.ts:31-54 | when no input holds a line feed, splitting the document at CRLF gives back exactly its lines, and it ends with END:VCALENDAR |
| Ics.OneEventCalendar | lib/ics.ts:31-54 | a one-event calendar is the header, the event's block and the closing line |
| Ics.ShowingCalendar | tests/ics.test.ts:10-21 | the test's showing yields BEGIN:VCALENDAR, BEGIN:VEVENT, DTSTART:20240102T100000Z, DTEND:20240102T103000Z, its SUMMARY, LOCATION and DESCRIPTION at fixed lines |
| Osrm.FetchWithBackoff | lib/osrm.ts:11-24 | the response is the one of the last fetch; fetching stops at the first success or non-retryable status, otherwise after `attempts` tries plus one final fetch; the k-th wait is 400·2^k ms |
| Osrm.BackoffStopsUnique | lib/osrm.ts:11-24 | the number of fetches is determined by the responses |
| Osrm.BackoffTotalDelay | lib/osrm.ts:12-18 | the waits total 400·(2^k − 1) ms, at most 2800 ms with the default 3 attempts |
| Osrm.ThreeUnavailableThenFinal | lib/osrm.ts:13-23 | three 503s in a row lead to a fourth, final fetch |
| Osrm.NonRetryableReturnedAtOnce | lib/osrm.ts:15-21 | a non-retryable failure is returned after a single fetch |
| Osrm.TableKeyInjective | lib/osrm.ts:32-33 | with a faithful number printer, different non-empty coordinate lists get different cache keys |
| Osrm.CoordTextInjective | lib/osrm.ts:32 | with a faithful number printer, "lng,lat" determines the coordinate |
| Osrm.CacheServesWithinTtl | lib/osrm.ts:28-36 | an entry stored at ts is a hit iff less than 300000 ms have passed |
| Osrm.ToMinutes | lib/osrm.ts:43-45 | the minute table has the shape of the seconds table, cell by cell |
| Osrm.ToMinutesFaithful | lib/osrm.ts:45 | a numeric cell becomes seconds/60 and stays usable; a non-numeric one becomes the -1 sentinel that the heuristic skips |
| Osrm.LegDetails | lib/osrm.ts:80-83 | one leg detail per leg |
| Osrm.LegDetailsUnits | lib/osrm.ts:80-83 | leg distance is metres/1000 and duration seconds/60, with missing values as 0 |
| Osrm.GetRouteDetails | lib/osrm.ts:66-87 | fewer than two points give none without a fetch; a network error throws; a failed status or a missing route gives none; otherwise the route's legs and totals in km and minutes |
| Osrm.RoutingClient.constructor | lib/osrm.ts:26-27 | both caches start empty |
| Osrm.RoutingClient.GetTable | lib/osrm.ts:30-48 | no points give `[]`; a cache hit is served without fetching; otherwise the backoff fetch, none on a failed status, and on success the minute table, which is stored with the current time; the route cache is untouched |
| Osrm.RoutingClient.GetRouteGeoJson | lib/osrm.ts:50-64 | fewer than two points give none; a hit is served without fetching; a fetched geometry is stored only when present; the table cache is untouched |
| Osrm.FallbackTable | lib/osrm.ts:102-111 | the fallback table is n by n |
| Osrm.FallbackMatrix | lib/osrm.ts:102-111 | the nested loops fill an n-by-n table with 0 on the diagonal and the estimate elsewhere |
| Osrm.FallbackSymmetricUsable | tests/osrm.test.ts:5-16 | with a symmetric estimator the table is symmetric; with a non-negative one every entry is usable |
| TourPage.PageSelection | app/tour/page.tsx:38 | at most six listings, each a catalog listing with a requested id |
| TourPage.PageSelectionInCatalogOrder | app/tour/page.tsx:38 | the page's selection keeps catalog order, and is every match when there are at most six |
| TourPage.DefaultStartOnQuarter | app/tour/page.tsx:46-50 | the default start is on a local quarter hour, no earlier than the current minute's start and at most 14 minutes later |
| TourPage.OrderIdsToSend | app/tour/page.tsx:74 | the manual order is sent iff reorder mode is on and it has one id per selected listing |
| TourPage.SpliceMove | app/tour/page.tsx:181 | the in-place double `splice` leaves the array equal to `Move` of its old contents |
| TourPage.Drop | app/tour/page.tsx:176-182 | an unknown dragged or target id changes nothing; otherwise the dragged id moves to the target's index; the ids are preserved as a multiset |
| TourPage.ArrowMove | app/tour/page.tsx:360-366 | the target index is in range; a move onto the same index changes nothing; otherwise the id (the last one, when the id is missing) moves there; the ids are preserved as a multiset |
| TourPage.ArrowSwapsNeighbours | app/tour/page.tsx:362-365 | for a listed id, Up swaps it with the one above and Down with the one below; nothing moves at the ends |
| TourPage.MoveKeepsOrderAccepted | app/api/tour/route.ts:53-58 | a manual order the server accepts is still accepted after any drag or arrow move |
| TourPage.ToNextLegJoinsStops | app/tour/page.tsx:346-348 | the chosen leg is the route leg between stop idx and stop idx+1, with or without a start point |
| TourPage.ToNextMinutes | app/tour/page.tsx:342 | minutes to the next stop exist iff there is a next stop, and are its travel rounded |
| MapPage.Toggle | app/map/page.tsx:35-37 | an absent id is appended at the end; a present id is removed everywhere while the other ids keep their order |
| MapPage.ToggleTwice | app/map/page.tsx:36 | toggling an absent id twice restores the selection |
| MapPage.ToggleKeepsDistinct | app/map/page.tsx:36 | a duplicate-free selection stays duplicate-free, and removing shortens it by one |
| MapPage.Recommended | app/map/page.tsx:259 | the first four catalog ids, in order |
| MapPage.NonZero | app/map/page.tsx:143-145 | `x \|\| null` is null exactly for 0 |
| MapPage.Preview | app/map/page.tsx:126-160 | with fewer than two ids the route and drive time are cleared and the status is idle, while order and distance are kept; otherwise the status is ok iff the tour request succeeds, and an error clears everything |
| MapPage.PreviewSendsNothing | app/map/page.tsx:129-134 | with fewer than two ids the tour endpoint's answer cannot affect the preview |
| MapPage.CommuteMinutes | app/map/page.tsx:55-56 | no minutes iff the duration is missing or 0; otherwise the rounded duration/60 |
| MapPage.Commutes | app/map/page.tsx:42-61 | one chip per destination in order; a failed request gives no minutes |
| GithubModels.SchemaIssue | lib/llm/githubModels.ts:7-11 | no issue iff the brief meets the schema |
| GithubModels.SafeParse | lib/llm/githubModels.ts:74 | validation succeeds iff the value has the brief's shape and meets the schema, and then returns that brief unchanged |
| GithubModels.ErrorMessage | lib/llm/githubModels.ts:18-76 | every error has a non-empty message, except a thrown one, which keeps its own |
| GithubModels.GenerateBuyerBrief | lib/llm/githubModels.ts:15-79 | no token fails with MissingToken; success happens iff the token is set, the reply is ok, and the content is present, parses and validates; a returned brief is valid and is the parsed value |
| GithubModels.Checked | lib/llm/githubModels.ts:74-78 | passes iff schema validation passes |
| GithubModels.MissingTokenSendsNothing | lib/llm/githubModels.ts:16-19 | without a token the reply cannot matter: no request is made |
| GithubModels.GenerateErrors | lib/llm/githubModels.ts:60-77 | a failed status, empty content, non-JSON content and a schema failure (of decoded content, or of string content that parses) each give their own error, in that order |
| BriefRoute.HasDollarDigitIff | app/api/brief/route.ts:15 | the left-to-right scan matches iff some `$` is directly followed by a digit |
| BriefRoute.WithDisclosure | app/api/brief/route.ts:16 | the summary is kept as a prefix; with price context it is followed by a blank line and the TREC text; otherwise it is unchanged |
| BriefRoute.Failed | app/api/brief/route.ts:19-21 | a 500 whose error is the message, or "Failed to generate brief" when the message is empty |
| BriefRoute.PostBrief | app/api/brief/route.ts:9-22 | failures are 500s; a success is a valid brief with the model's priorities and next steps and the summary with the disclosure when there is price context |
| BriefRoute.PostBriefSucceeds | app/api/brief/route.ts:17 | appending keeps a valid brief valid, so revalidation never fails after a successful model call |
| BriefRoute.PostBriefReportsModelError | app/api/brief/route.ts:19-21 | a failing model call becomes a 500 carrying the call's message |
| BriefRoute.DisclosureWhen | app/api/brief/route.ts:15-16 | the summary changes iff a budget is truthy or the summary has `$` followed by a digit |
| Lists.Without | app/map/page.tsx:36 | `filter((x) => x !== id)`: the id is gone, every other element stays, and nothing new appears |
| Lists.WithoutIsSubsequence | app/map/page.tsx:36 | the filter keeps the remaining ids in their order |
| Lists.Dedup | app/api/tour/route.ts:22 | `Array.from(new Set(ids))` has no duplicates and the same elements |
| Lists.DedupKeepsLength | app/api/tour/route.ts:53 | de-duplicating keeps the length iff there were no duplicates |
| Lists.IndexOf | app/tour/page.tsx:178-179 | the first position of the element, or -1 iff it is absent |
| Lists.MoveAt | app/tour/page.tsx:181 | after a move the element is at `to`, the ones between shift by one, and the others stay |
| Lists.MovePermutes | app/tour/page.tsx:181 | a move keeps every element with its multiplicity |
| Lists.DistinctPermutation | app/api/tour/route.ts:53 | a permutation of a duplicate-free list is duplicate-free |
| Strings.NatToStringValue | app/api/tour/route.ts:103 | `String(n)` is all digits and reads back as n |
| Strings.PadStartShape | lib/ics.ts:5 | `padStart` adds zeros in front up to the width and never truncates |
| Strings.SplitJoin | lib/ics.ts:53 | splitting a CRLF join whose parts hold no line feed gives the parts back |
| Strings.Trim | app/api/tour/route.ts:98 | `trim()` is no longer than its input and starts and ends with a non-space |
| Strings.TrimSlice | app/api/tour/route.ts:98 | `trim()` is a slice of the input with only white space cut off on both sides |
| Strings.TrimIdempotent | app/api/tour/route.ts:98 | trimming twice is trimming once |
| JsMath.Round | app/api/tour/route.ts:34-35 | `Math.round(x)` is within half a unit of x, halves rounding up |
| JsMath.Ceil | app/tour/page.tsx:48 | `Math.ceil(x)` is the least integer at or above x |
| JsMath.Trunc | app/api/tour/route.ts:90 | truncation toward zero: under x for positive x, over it for negative x |
| JsMath.Clamp | app/api/tour/route.ts:34-35 | `Math.max(lo, Math.min(hi, x))` is in range, is x when x is in range, and is the nearer bound otherwise |

## Left out

- The haversine estimator and `computeFallbackKm` (lib/osrm.ts:89-100, app/api/tour/route.ts:133-142) are floating-point trigonometry. They are parameters (`est`, `estimate`, `fallbackKm`).
- Floating point in general: minutes and coordinates are exact reals. NaN and infinities are modelled only where the code tests them (the start coordinate's `isFinite`).
- I/O and timing:
  - The network, JSON decoding, `setTimeout` waits, `Date.now()`, `new Date()`, `Math.random()` and the listing catalog are all parameters.
  - The waits are returned as a list, not slept.
- Time zones: the default start time uses a fixed offset from UTC. Daylight-saving changes within the hour are not modelled.
- ISO timestamps:
  - A `startTime` string becomes an instant, or `None` when missing or empty.
  - A malformed date that makes `toISOString` throw (a 500 in the source) is not modelled.
  - Schedule rows carry instants rather than ISO strings.
- Osrm.CoordText: JavaScript's number-to-string formatting is a parameter. It is assumed injective ("faithful") where injectivity is proved.
- Strings.IsJsSpace lists the characters `trim` removes one by one, with the space separators of current Unicode. A space separator added in a later Unicode version would not be covered.
- TourRoute.PlanTour requires that a table the service returns has one row and one column per point. The source takes OSRM's shape on trust.
- TourRoute.PlanTour takes two clock readings as parameters: `nowMs` for the default start time and `stampMs` for DTSTAMP. The source reads the clock twice.
- TourRoute.ChooseOrder uses the corrected heuristic mapping (see Findings), and so do TourRoute.Itinerary, TourRoute.Respond, TourRoute.PlanWithTable and TourRoute.PlanTour, which plan with it. With no start coordinate and no accepted manual order, the program as written lists one stop fewer: the first selected listing gets no order entry, schedule row, calendar event or route point. The model's response keeps that stop. The as-written mapping is modelled, and its effect on the response is proved in `TourRoute.HeuristicAsWrittenSkipsFirstListing`.
- TourPage.ArrowMove requires a non-empty list. On an empty list the source's double `splice` would insert `undefined`, which the page never does, because the list is the order of a planned tour.
- The uncaught-exception paths:
  - A network error in `fetch` propagates as an exception in the source. The model carries it as `Threw` and turns it into the handler's 500.
  - The 500s of the tour and brief handlers for other runtime errors (a malformed upstream payload) are covered only through `Threw` answers.
- The React state, localStorage persistence, geolocation, overlays, map rendering and the service worker are presentation code outside the core.
- The GitHub Models request body (model name, prompts, JSON schema hint) is a constant payload with no behaviour to prove. Only the reply checks are modelled.
- GithubModels.SchemaIssue: the text of a schema failure is the model's own short description of the first issue. The source passes zod's `error.message`, a JSON listing of every issue, and the brief endpoint returns it in its 500 body. The model promises when a failure occurs, not its wording.
- The JSON Schema in the GitHub Models request (lib/llm/githubModels.ts:30-45) is enforced by the remote service. Only the local zod schema is modelled.

Behaviours of the code worth knowing, each stated in the model:

- After three retryable failures, lib/osrm.ts:23 makes a fourth, final fetch and returns its response (`Osrm.ThreeUnavailableThenFinal`).
- lib/osrm.ts does not catch errors from `fetch`. They propagate to the tour handler, which answers with a 500 (`Osrm.GetRouteDetails`, `TourRoute.PlanTour`).
- A manual order that does not name every selected listing once is ignored without an error: the handler falls back to the heuristic (app/api/tour/route.ts:53-59, `TourRoute.ManualOrderAccepted`).
- An unknown travel time (-1 in the table) is added to the times as it is, so with no buffer an arrival can fall a minute before the previous departure (`TourRoute.UnknownTravelGoesBack`).

## Findings

| source | as written | input that shows it | evidently intended | confidence | as-written member | corrected member |
|---|---|---|---|---|---|---|
| app/api/tour/route.ts:62 | `nn.filter((i) => i !== 0)` removes table position 0 also when there is no start coordinate, where position 0 is the first stop | two stops, no start coordinate, no manual order: the heuristic gives `[0, 1]`, the mapping `[1]`, and stop 0 gets no schedule row, event or route point | remove position 0 only when it is the start coordinate; without one, keep the heuristic order as is | not executed | TourRoute.HeuristicAsWrittenSkipsFirstListing | TourRoute.HeuristicStopsPermutation |
