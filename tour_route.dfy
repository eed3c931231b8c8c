/** The tour planner behind `POST /api/tour` (app/api/tour/route.ts): it
    validates the request, orders the stops (the buyer's manual order when
    it names exactly the selected listings, the nearest-neighbour heuristic
    otherwise), schedules arrival and departure times, and renders the
    calendar and the route request.

    Instants are integer milliseconds; durations are exact minutes. The
    clock, the random UID source, the routing service and the
    great-circle estimator are parameters. */
module TourRoute {
  import opened Wrappers
  import opened Lists
  import opened Strings
  import opened JsMath
  import opened TourOrder
  import opened Osrm
  import opened Ics

  /** A catalog entry: the fields of `data/listings.json` the planner reads. */
  datatype Listing = Listing(id: string, address: string, lng: real, lat: real)

  /** A number of the request body: finite, or NaN / an infinity. */
  datatype Num = Finite(v: real) | NonFinite

  datatype StartCoord = StartCoord(lat: Num, lng: Num)

  /** The request body. `startTime` is the parsed ISO instant (`None` when
      missing or empty); a missing `ids` is the empty list; a missing note
      map is the empty map. */
  datatype TourRequest = TourRequest(
    ids: seq<string>,
    startTime: Option<int>,
    dwellMinutes: Option<real>,
    bufferMinutes: Option<real>,
    startCoord: Option<StartCoord>,
    notes: map<string, string>,
    orderIds: Option<seq<string>>)

  /** An error response: its status and the `error` text. */
  datatype HttpError = HttpError(status: int, message: string)

  /** One row of the schedule. */
  datatype Stop = Stop(id: string, address: string, eta: int, etd: int, travelMinutes: real, visitMinutes: int)

  /** The JSON body of a successful response. */
  datatype TourResponse = TourResponse(
    order: seq<string>,
    schedule: seq<Stop>,
    ics: string,
    route: Option<Geometry>,
    totalDriveMinutes: real,
    legDistancesKm: seq<real>,
    totalDistanceKm: real)

  const MinuteMs: int := 60 * 1000

  // ---------------------------------------------------------------------
  // Validation

  function Ids(listings: seq<Listing>): (r: seq<string>)
    ensures |r| == |listings| && forall k :: 0 <= k < |r| ==> r[k] == listings[k].id
  {
    seq(|listings|, k requires 0 <= k < |listings| => listings[k].id)
  }

  /** `catalog.filter((l) => ids.includes(l.id))`. */
  function Matching(catalog: seq<Listing>, ids: seq<string>): (r: seq<Listing>)
    ensures |r| <= |catalog|
    ensures forall k :: 0 <= k < |r| ==> r[k] in catalog && r[k].id in ids
    ensures forall k :: 0 <= k < |catalog| && catalog[k].id in ids ==> catalog[k] in r
  {
    if catalog == [] then []
    else
      var rest := Matching(catalog[1..], ids);
      assert forall k :: 1 <= k < |catalog| ==> catalog[k] == catalog[1..][k - 1];
      if catalog[0].id in ids then [catalog[0]] + rest else rest
  }

  /** `.slice(0, 10)` of the catalog matches: the listings of the tour, in
      catalog order. */
  function Selected(catalog: seq<Listing>, ids: seq<string>): (r: seq<Listing>)
    ensures |r| <= 10
    ensures forall k :: 0 <= k < |r| ==> r[k] in catalog && r[k].id in ids
  {
    var all := Matching(catalog, ids);
    if |all| <= 10 then all else all[..10]
  }

  /** The selection keeps the catalog's order. */
  lemma {:induction false} SelectedInCatalogOrder(catalog: seq<Listing>, ids: seq<string>)
    ensures IsSubsequence(Matching(catalog, ids), catalog)
    ensures IsSubsequence(Selected(catalog, ids), catalog)
    ensures |Matching(catalog, ids)| <= 10 ==> Selected(catalog, ids) == Matching(catalog, ids)
  {
    MatchingInCatalogOrder(catalog, ids);
    var all := Matching(catalog, ids);
    if |all| > 10 {
      SubsequencePrefix(all, catalog, 10);
    }
  }

  lemma {:induction false} MatchingInCatalogOrder(catalog: seq<Listing>, ids: seq<string>)
    ensures IsSubsequence(Matching(catalog, ids), catalog)
  {
    if catalog != [] {
      var rest := Matching(catalog[1..], ids);
      MatchingInCatalogOrder(catalog[1..], ids);
      if catalog[0].id in ids {
        assert ([catalog[0]] + rest)[1..] == rest;
      } else {
        SubsequenceOfTail(rest, catalog);
      }
    }
  }

  /** The start-coordinate check: both numbers finite, the latitude within
      90 degrees and the longitude within 180. */
  predicate ValidStart(c: StartCoord) {
    && c.lat.Finite? && c.lng.Finite?
    && Abs(c.lat.v) <= 90.0 && Abs(c.lng.v) <= 180.0
  }

  /** `Math.max(5, Math.min(120, Math.round(dwellMinutes ?? 20)))`. */
  function Dwell(d: Option<real>): (r: int)
    ensures 5 <= r <= 120
  {
    Clamp(Round(if d.Some? then d.value else 20.0), 5, 120)
  }

  /** `Math.max(0, Math.min(30, Math.round(bufferMinutes ?? 5)))`. */
  function Buffer(b: Option<real>): (r: int)
    ensures 0 <= r <= 30
  {
    Clamp(Round(if b.Some? then b.value else 5.0), 0, 30)
  }

  /** What survives validation. */
  datatype Settings = Settings(selected: seq<Listing>, dwell: int, buffer: int, startMs: int, start: Option<LngLat>)

  /** Lines 22-43 of the handler: de-duplicate the ids, bound their number,
      select the catalog entries, clamp the times and check the start. */
  function Validate(req: TourRequest, catalog: seq<Listing>, nowMs: int): (r: Result<Settings, HttpError>)
    ensures r.Failure? ==> r.error.status == 400
    ensures r.Success? ==>
      && 2 <= |r.value.selected| <= 10
      && 5 <= r.value.dwell <= 120 && 0 <= r.value.buffer <= 30
      && (r.value.start.Some? <==> req.startCoord.Some?)
    ensures r.Success? ==>
      && r.value.selected == Selected(catalog, Dedup(req.ids))
      && r.value.dwell == Dwell(req.dwellMinutes)
      && r.value.buffer == Buffer(req.bufferMinutes)
      && r.value.startMs == (if req.startTime.Some? then req.startTime.value else nowMs)
      && (req.startCoord.Some? ==>
            && ValidStart(req.startCoord.value)
            && r.value.start == Some(LngLat(req.startCoord.value.lng.v, req.startCoord.value.lat.v)))
  {
    var unique := Dedup(req.ids);
    if |unique| < 2 then Failure(HttpError(400, "Pick at least two listings"))
    else if |unique| > 10 then Failure(HttpError(400, "Max 10 listings per tour"))
    else
      var selected := Selected(catalog, unique);
      if |selected| < 2 then Failure(HttpError(400, "No listings selected"))
      else if req.startCoord.Some? && !ValidStart(req.startCoord.value) then
        Failure(HttpError(400, "Invalid start coordinate"))
      else
        var startMs := if req.startTime.Some? then req.startTime.value else nowMs;
        var start := match req.startCoord
          case Some(c) => Some(LngLat(c.lng.v, c.lat.v))
          case None => None;
        Success(Settings(selected, Dwell(req.dwellMinutes), Buffer(req.bufferMinutes), startMs, start))
  }

  /** A request is accepted exactly when it names 2 to 10 distinct ids, at
      least two of them are in the catalog, and any start coordinate is in
      range; each rejection carries its own message, checked in this order. */
  lemma ValidateAccepts(req: TourRequest, catalog: seq<Listing>, nowMs: int)
    ensures var r := Validate(req, catalog, nowMs);
      var unique := Dedup(req.ids);
      && (r.Success? <==>
            && 2 <= |unique| <= 10
            && |Selected(catalog, unique)| >= 2
            && (req.startCoord.Some? ==> ValidStart(req.startCoord.value)))
      && (|unique| < 2 ==> r.error.message == "Pick at least two listings")
      && (|unique| > 10 ==> r.error.message == "Max 10 listings per tour")
      && (2 <= |unique| <= 10 && |Selected(catalog, unique)| < 2 ==> r.error.message == "No listings selected")
      && ((2 <= |unique| <= 10 && |Selected(catalog, unique)| >= 2 && req.startCoord.Some?
           && !ValidStart(req.startCoord.value)) ==> r.error.message == "Invalid start coordinate")
  {
  }

  /** Duplicate ids count once: repeating an id changes nothing. */
  lemma DuplicateIdsCollapse(req: TourRequest, catalog: seq<Listing>, nowMs: int, k: nat)
    requires k < |req.ids|
    ensures Validate(req.(ids := req.ids + [req.ids[k]]), catalog, nowMs) == Validate(req, catalog, nowMs)
  {
    DedupAppendSeen(req.ids, req.ids[k]);
  }

  /** Appending an element already present leaves `Array.from(new Set(…))` alone. */
  lemma DedupAppendSeen(s: seq<string>, x: string)
    requires x in s
    ensures Dedup(s + [x]) == Dedup(s)
  {
    DedupFromAppendSeen(s, [], x);
  }

  lemma {:induction false} DedupFromAppendSeen(s: seq<string>, seen: seq<string>, x: string)
    requires Distinct(seen) && (x in s || x in seen)
    ensures DedupFrom(s + [x], seen) == DedupFrom(s, seen)
    decreases |s|
  {
    if s == [] {
      assert x in seen;
      assert DedupFrom([x], seen) == DedupFrom([], seen);
    } else {
      assert (s + [x])[0] == s[0] && (s + [x])[1..] == s[1..] + [x];
      if s[0] in seen {
        DedupFromAppendSeen(s[1..], seen, x);
      } else {
        var seen' := seen + [s[0]];
        assert Distinct(seen') by {
          forall i, j | 0 <= i < j < |seen'| ensures seen'[i] != seen'[j] {
            if j == |seen| {
              assert seen'[i] == seen[i];
            }
          }
        }
        assert x in s[1..] || x in seen' by {
          if x !in s[1..] && x !in seen {
            assert s == [s[0]] + s[1..];
            assert x == s[0];
          }
        }
        DedupFromAppendSeen(s[1..], seen', x);
      }
    }
  }

  /** The clamps keep a value that is already in range and are idempotent. */
  lemma ClampsIdempotent(d: Option<real>, b: Option<real>)
    ensures Dwell(Some(Dwell(d) as real)) == Dwell(d)
    ensures Buffer(Some(Buffer(b) as real)) == Buffer(b)
    ensures d.None? ==> Dwell(d) == 20
    ensures b.None? ==> Buffer(b) == 5
    ensures d.Some? && 5 <= Round(d.value) <= 120 ==> Dwell(d) == Round(d.value)
    ensures b.Some? && 0 <= Round(b.value) <= 30 ==> Buffer(b) == Round(b.value)
  {
    WholeNumbers(Dwell(d));
    WholeNumbers(Buffer(b));
  }

  // ---------------------------------------------------------------------
  // Stop order

  /** `new Map(selected.map((s, i) => [s.id, i])).get(id)`: the position of
      the listing with that id, the last one when several share it (a later
      `set` overwrites an earlier one). */
  function IdIndex(selected: seq<Listing>, id: string): (r: Option<nat>)
    ensures r.Some? ==> r.value < |selected| && selected[r.value].id == id
    ensures r.None? <==> id !in Ids(selected)
  {
    if selected == [] then None
    else if selected[|selected| - 1].id == id then Some(|selected| - 1)
    else
      var r := IdIndex(selected[..|selected| - 1], id);
      assert Ids(selected) == Ids(selected[..|selected| - 1]) + [selected[|selected| - 1].id];
      r
  }

  /** `orderIds.map((id) => idToIndex.get(id)).filter((v) => v !== undefined)`. */
  function KnownIndices(selected: seq<Listing>, orderIds: seq<string>): (r: seq<nat>)
    ensures |r| <= |orderIds|
    ensures forall k :: 0 <= k < |r| ==> r[k] < |selected|
  {
    if orderIds == [] then []
    else
      (match IdIndex(selected, orderIds[0]) case Some(i) => [i] case None => [])
      + KnownIndices(selected, orderIds[1..])
  }

  /** Lines 53-58: the manual order is taken when it is as long as the
      selection, has no duplicate, and every id is a selected listing. */
  function ManualOrder(selected: seq<Listing>, orderIds: Option<seq<string>>): (r: Option<seq<nat>>)
  {
    match orderIds
    case None => None
    case Some(ids) =>
      if |ids| == |selected| && |Dedup(ids)| == |selected| then
        var mapped := KnownIndices(selected, ids);
        if |mapped| == |selected| then Some(mapped) else None
      else None
  }

  /** When every id is known, the mapping keeps them all, position by position. */
  lemma {:induction false} KnownIndicesAll(selected: seq<Listing>, orderIds: seq<string>)
    ensures |KnownIndices(selected, orderIds)| == |orderIds| <==>
      forall k :: 0 <= k < |orderIds| ==> orderIds[k] in Ids(selected)
    ensures |KnownIndices(selected, orderIds)| == |orderIds| ==>
      forall k :: 0 <= k < |orderIds| ==> selected[KnownIndices(selected, orderIds)[k]].id == orderIds[k]
  {
    if orderIds != [] {
      KnownIndicesAll(selected, orderIds[1..]);
      var rest := KnownIndices(selected, orderIds[1..]);
      assert forall k :: 1 <= k < |orderIds| ==> orderIds[k] == orderIds[1..][k - 1];
      if IdIndex(selected, orderIds[0]).Some? {
        var r := KnownIndices(selected, orderIds);
        assert r == [IdIndex(selected, orderIds[0]).value] + rest;
        assert forall k :: 1 <= k < |r| ==> r[k] == rest[k - 1];
      }
    }
  }

  /** The manual order is used exactly when it is a permutation of the
      selected ids; it then names each selected position once, in the
      buyer's order. */
  lemma ManualOrderAccepted(selected: seq<Listing>, orderIds: seq<string>)
    ensures ManualOrder(selected, Some(orderIds)).Some? <==>
      |orderIds| == |selected| && Distinct(orderIds)
      && forall k :: 0 <= k < |orderIds| ==> orderIds[k] in Ids(selected)
    ensures ManualOrder(selected, Some(orderIds)).Some? ==>
      var p := ManualOrder(selected, Some(orderIds)).value;
      IsPermutationOfRange(p, |selected|) && forall k :: 0 <= k < |p| ==> selected[p[k]].id == orderIds[k]
  {
    DedupKeepsLength(orderIds);
    KnownIndicesAll(selected, orderIds);
    if ManualOrder(selected, Some(orderIds)).Some? {
      var p := KnownIndices(selected, orderIds);
      forall i, j | 0 <= i < j < |p| ensures p[i] != p[j] {
        assert selected[p[i]].id == orderIds[i] && selected[p[j]].id == orderIds[j];
      }
    }
  }

  /** The heuristic's positions mapped back to stops, as line 62 writes it:
      `nn.filter((i) => i !== 0).map((i) => (hasStart ? i - 1 : i))`. */
  function HeuristicStopsAsWritten(nn: seq<nat>, hasStart: bool): (r: seq<nat>)
    ensures |r| <= |nn|
  {
    var kept := Without(nn, 0);
    seq(|kept|, k requires 0 <= k < |kept| => if hasStart then kept[k] - 1 else kept[k])
  }

  /** The mapping the handler needs: with a start coordinate, position 0 is
      the start and stop `i` is position `i + 1`; without one, the positions
      are the stops themselves, and the order starting from stop 0 is kept
      whole. */
  function HeuristicStops(nn: seq<nat>, hasStart: bool): seq<nat> {
    if hasStart then HeuristicStopsAsWritten(nn, true) else nn
  }

  function Offset(hasStart: bool): nat {
    if hasStart then 1 else 0
  }

  /** The corrected mapping turns the nearest-neighbour order from position
      0 into an order of all the stops, each once. */
  lemma HeuristicStopsPermutation(nn: seq<nat>, hasStart: bool, stops: nat)
    requires IsPermutationOfRange(nn, stops + Offset(hasStart))
    requires |nn| > 0 ==> nn[0] == 0
    ensures IsPermutationOfRange(HeuristicStops(nn, hasStart), stops)
    ensures hasStart ==> forall k :: 0 <= k < stops ==> HeuristicStops(nn, hasStart)[k] == nn[k + 1] - 1
  {
    if hasStart {
      WithoutHead(nn);
      var r := HeuristicStops(nn, hasStart);
      assert |r| == stops;
      forall k | 0 <= k < stops ensures r[k] == nn[k + 1] - 1 {
        assert nn[1..][k] == nn[k + 1];
      }
      forall i, j | 0 <= i < j < |r| ensures r[i] != r[j] {
        assert nn[i + 1] != nn[j + 1];
      }
    }
  }

  /** Without a start coordinate, line 62 as written removes stop 0 (the
      order's first entry) and so plans a tour one stop short that never
      visits the first selected listing. */
  lemma HeuristicDropsFirstStop(nn: seq<nat>, stops: nat)
    requires stops >= 1 && IsPermutationOfRange(nn, stops) && nn[0] == 0
    ensures |HeuristicStopsAsWritten(nn, false)| == stops - 1
    ensures 0 !in HeuristicStopsAsWritten(nn, false)
  {
    WithoutHead(nn);
  }

  /** Two stops, no start: the as-written mapping keeps only stop 1. */
  lemma HeuristicDropsFirstStopExample()
    ensures HeuristicStopsAsWritten([0, 1], false) == [1]
    ensures HeuristicStops([0, 1], false) == [0, 1]
  {
    assert Without([0, 1], 0) == [1] by {
      assert [0, 1][1..] == [1];
    }
  }

  // ---------------------------------------------------------------------
  // Schedule

  predicate Square(m: Matrix, n: nat) {
    |m| == n && forall i :: 0 <= i < n ==> |m[i]| == n
  }

  /** What the schedule loop reads: the table over the route positions
      (the start, if any, then the stops), the stop order, and the times. */
  datatype Plan = Plan(m: Matrix, order: seq<nat>, hasStart: bool, stops: nat, startMs: int, dwell: int, buffer: int)

  predicate PlanOk(p: Plan) {
    && Square(p.m, p.stops + Offset(p.hasStart))
    && forall k :: 0 <= k < |p.order| ==> p.order[k] < p.stops
  }

  /** `toIdx`: the table position of the `i`-th stop. */
  function ToIndex(p: Plan, i: nat): nat
    requires i < |p.order|
  {
    p.order[i] + Offset(p.hasStart)
  }

  /** `fromIdx`: the table position left for the `i`-th stop; -1 for the
      first stop of a tour without a start, whose leg is not looked up. */
  function FromIndex(p: Plan, i: nat): int
    requires i < |p.order|
  {
    if p.hasStart then (if i == 0 then 0 else p.order[i - 1] + 1)
    else if i == 0 then -1 else p.order[i - 1]
  }

  /** `travel` for the `i`-th stop: the table entry of its leg; the first
      stop costs nothing without a start. A -1 (unknown) entry is kept:
      `travel || 0` only replaces 0 and NaN. */
  function Travel(p: Plan, i: nat): real
    requires PlanOk(p) && i < |p.order|
  {
    if i == 0 then (if p.hasStart then p.m[0][ToIndex(p, 0)] else 0.0)
    else p.m[FromIndex(p, i)][ToIndex(p, i)]
  }

  /** The arrival at the `i`-th stop: the previous departure (the start
      time for the first stop) plus travel and buffer, as `new Date` keeps
      it (truncated to a whole millisecond). */
  function Arrival(p: Plan, i: nat): int
    requires PlanOk(p) && i < |p.order|
    decreases i, 0
  {
    var leave := if i == 0 then p.startMs else Departure(p, i - 1);
    MinutesLater(leave, Travel(p, i) + p.buffer as real)
  }

  /** `new Date(t + minutes * 60000)`: the instant `minutes` later, with
      the fraction of a millisecond dropped. */
  function MinutesLater(t: int, minutes: real): int {
    Trunc(t as real + minutes * MinuteMs as real)
  }

  /** The departure from the `i`-th stop: `dwell` minutes after arriving. */
  function Departure(p: Plan, i: nat): int
    requires PlanOk(p) && i < |p.order|
    decreases i, 1
  {
    Arrival(p, i) + p.dwell * MinuteMs
  }

  /** The drive minutes of the first `n` legs. */
  function DriveTotal(p: Plan, n: nat): real
    requires PlanOk(p) && n <= |p.order|
  {
    if n == 0 then 0.0 else DriveTotal(p, n - 1) + Travel(p, n - 1)
  }

  /** The schedule row of the `i`-th stop. */
  function Row(selected: seq<Listing>, p: Plan, i: nat): Stop
    requires PlanOk(p) && p.stops == |selected| && i < |p.order|
  {
    Stop(selected[p.order[i]].id, selected[p.order[i]].address, Arrival(p, i), Departure(p, i), Travel(p, i), p.dwell)
  }

  /** Lines 75-95: one row per stop in order, with its arrival and
      departure; the leg durations and table positions; and the drive total. */
  method BuildSchedule(selected: seq<Listing>, p: Plan)
    returns (schedule: seq<Stop>, totalDrive: real, legDurations: seq<real>, legPairs: seq<(int, int)>)
    requires PlanOk(p) && p.stops == |selected|
    ensures |schedule| == |p.order| && |legDurations| == |p.order| && |legPairs| == |p.order|
    ensures forall i :: 0 <= i < |p.order| ==>
      && schedule[i] == Row(selected, p, i)
      && legDurations[i] == Travel(p, i)
      && legPairs[i] == (FromIndex(p, i), ToIndex(p, i))
    ensures totalDrive == DriveTotal(p, |p.order|)
  {
    var t := p.startMs;
    totalDrive := 0.0;
    schedule, legDurations, legPairs := [], [], [];
    for i := 0 to |p.order|
      invariant |schedule| == i && |legDurations| == i && |legPairs| == i
      invariant t == if i == 0 then p.startMs else Departure(p, i - 1)
      invariant forall k :: 0 <= k < i ==>
        && schedule[k] == Row(selected, p, k)
        && legDurations[k] == Travel(p, k)
        && legPairs[k] == (FromIndex(p, k), ToIndex(p, k))
      invariant totalDrive == DriveTotal(p, i)
    {
      var cur := selected[p.order[i]];
      var fromIdx := if p.hasStart then (if i == 0 then 0 else p.order[i - 1] + 1)
                     else if i == 0 then -1 else p.order[i - 1];
      var toIdx := if p.hasStart then p.order[i] + 1 else p.order[i];
      var travel := if i == 0 then (if p.hasStart then p.m[0][toIdx] else 0.0) else p.m[fromIdx][toIdx];
      assert fromIdx == FromIndex(p, i) && toIdx == ToIndex(p, i) && travel == Travel(p, i);
      legDurations := legDurations + [travel];
      legPairs := legPairs + [(fromIdx, toIdx)];
      totalDrive := totalDrive + travel;
      t := MinutesLater(t, travel + p.buffer as real);
      var eta := t;
      assert eta == Arrival(p, i);
      var etd := eta + p.dwell * MinuteMs;
      schedule := schedule + [Stop(cur.id, cur.address, eta, etd, travel, p.dwell)];
      assert schedule[i] == Row(selected, p, i);
      t := etd;
    }
  }

  /** With known (non-negative) travel and a non-negative buffer, the
      visits follow one another without overlap: each stop is left after it
      is reached, and the next is reached no earlier than that. */
  lemma ScheduleInOrder(p: Plan, i: nat)
    requires PlanOk(p) && i < |p.order|
    requires p.dwell >= 1 && p.buffer >= 0
    requires forall k :: 0 <= k < |p.order| ==> Travel(p, k) >= 0.0
    ensures Arrival(p, i) < Departure(p, i)
    ensures i == 0 ==> Arrival(p, 0) >= p.startMs
    ensures i + 1 < |p.order| ==> Arrival(p, i + 1) >= Departure(p, i)
  {
    if i + 1 < |p.order| {
      assert Travel(p, i + 1) >= 0.0;
    }
  }

  /** With a whole-minute leg nothing is truncated: the arrival is the
      previous departure (or the start) plus the leg and the buffer. */
  lemma ArrivalWholeStep(p: Plan, i: nat)
    requires PlanOk(p) && i < |p.order|
    requires Travel(p, i) == Travel(p, i).Floor as real
    ensures Arrival(p, i) == (if i == 0 then p.startMs else Departure(p, i - 1))
                             + (Travel(p, i).Floor + p.buffer) * MinuteMs
  {
    var leave := if i == 0 then p.startMs else Departure(p, i - 1);
    var travel := Travel(p, i);
    assert Arrival(p, i) == MinutesLater(leave, travel + p.buffer as real);
    WholeMinutesLeg(leave, travel, p.buffer);
  }

  /** A leg of whole minutes plus a whole-minute buffer moves a whole
      millisecond instant exactly. */
  lemma WholeMinutesLeg(leave: int, travel: real, buffer: int)
    requires travel == travel.Floor as real
    ensures MinutesLater(leave, travel + buffer as real) == leave + (travel.Floor + buffer) * MinuteMs
  {
    var whole := leave + (travel.Floor + buffer) * MinuteMs;
    assert leave as real + (travel + buffer as real) * MinuteMs as real == whole as real;
    WholeNumbers(whole);
  }

  /** The arithmetic of one step of the closed form: adding a stop's dwell
      and the next leg with its buffer, all in whole minutes. */
  lemma ClosedFormStep(before: int, drive: real, w: int, legs: int, stays: int, buffer: int, dwell: int)
    requires before as real == MinuteMs as real * (drive + (legs + stays) as real)
    ensures (before + dwell * MinuteMs + (w + buffer) * MinuteMs) as real
         == MinuteMs as real * ((drive + w as real) + ((legs + buffer) + (stays + dwell)) as real)
  {
  }

  /** With whole-minute travel, every arrival is the start plus, in whole
      minutes, the drive so far, one buffer per leg and one dwell per
      earlier stop: nothing is lost to truncation. */
  lemma {:induction false} ArrivalClosedForm(p: Plan, i: nat)
    requires PlanOk(p) && i < |p.order|
    requires forall k :: 0 <= k <= i ==> Travel(p, k) == Travel(p, k).Floor as real
    ensures (Arrival(p, i) - p.startMs) as real
         == MinuteMs as real * (DriveTotal(p, i + 1) + ((i + 1) * p.buffer + i * p.dwell) as real)
  {
    var w := Travel(p, i).Floor;
    ArrivalWholeStep(p, i);
    var drive := DriveTotal(p, i);
    assert DriveTotal(p, i + 1) == drive + w as real;
    var legs := i * p.buffer;
    assert (i + 1) * p.buffer == legs + p.buffer;
    if i == 0 {
      assert drive == 0.0 && legs == 0;
      ClosedFormStep(0, 0.0, w, 0, 0, p.buffer, 0);
    } else {
      var stays := (i - 1) * p.dwell;
      assert i * p.dwell == stays + p.dwell;
      ArrivalClosedForm(p, i - 1);
      var before := Arrival(p, i - 1) - p.startMs;
      assert Arrival(p, i) - p.startMs == before + p.dwell * MinuteMs + (w + p.buffer) * MinuteMs;
      ClosedFormStep(before, drive, w, legs, stays, p.buffer, p.dwell);
    }
  }

  /** An unknown (-1) leg is not caught: with no buffer the stop is reached
      a minute before the previous one is left, and the drive total drops
      by a minute. */
  lemma UnknownTravelGoesBack(p: Plan, i: nat)
    requires PlanOk(p) && 0 < i < |p.order|
    requires Travel(p, i) == -1.0 && p.buffer == 0
    ensures Arrival(p, i) == Departure(p, i - 1) - MinuteMs
    ensures DriveTotal(p, i + 1) == DriveTotal(p, i) - 1.0
  {
    WholeNumbers(Departure(p, i - 1) - MinuteMs);
  }

  // ---------------------------------------------------------------------
  // Calendar events

  const TourDescription: string := "Tour coordinated by Noah. Drive times via OSRM (demo)."

  /** The event description: the fixed sentence, then the note on its own
      line when there is one. */
  function Description(note: string): string {
    TourDescription + (if note != "" then "\nNotes: " + note else "")
  }

  /** `body.notes?.[id]?.trim()`, absent notes reading as empty. */
  function NoteFor(notes: map<string, string>, id: string): string {
    if id in notes then Trim(notes[id]) else ""
  }

  /** The event of the `i`-th schedule row. */
  function EventFor(s: Stop, i: nat, notes: map<string, string>): IcsEvent {
    IcsEvent(None, s.eta, s.etd, "Showing " + NatToString(i + 1) + ": " + s.address,
             Some(Description(NoteFor(notes, s.id))), Some(s.address))
  }

  /** Lines 97-107: one event per schedule row, in order. */
  function TourEvents(schedule: seq<Stop>, notes: map<string, string>): (r: seq<IcsEvent>)
    ensures |r| == |schedule|
  {
    seq(|schedule|, i requires 0 <= i < |schedule| => EventFor(schedule[i], i, notes))
  }

  /** The description always opens with the fixed sentence, and the note
      can be read back from it: it is there exactly when the trimmed note
      is non-empty, and then it follows the "Notes: " label. */
  lemma DescriptionCarriesNote(note: string)
    ensures var d := Description(note);
      && |TourDescription| <= |d| && d[..|TourDescription|] == TourDescription
      && (|d| > |TourDescription| <==> note != "")
      && (note != "" ==> d[|TourDescription| + 8..] == note)
  {
  }

  /** An event spans its stop's visit, is numbered from 1, and is located
      at the stop's address. */
  lemma TourEventFields(schedule: seq<Stop>, notes: map<string, string>, i: nat)
    requires i < |schedule|
    ensures var ev := TourEvents(schedule, notes)[i];
      && ev.uid.None?
      && ev.start == schedule[i].eta && ev.end == schedule[i].etd
      && ev.location == Some(schedule[i].address)
      && var n := NatToString(i + 1);
         ev.title == "Showing " + n + ": " + schedule[i].address
         && AllDigits(n) && DecimalValue(n) == i + 1
  {
    NatToStringValue(i + 1);
  }

  // ---------------------------------------------------------------------
  // Route coordinates

  function StopPoint(l: Listing): LngLat {
    LngLat(l.lng, l.lat)
  }

  /** The points of the route request: the start, if any, then every stop
      in tour order. */
  function RoutePoints(start: Option<LngLat>, selected: seq<Listing>, order: seq<nat>): seq<LngLat>
    requires forall k :: 0 <= k < |order| ==> order[k] < |selected|
  {
    (match start case Some(c) => [c] case None => [])
    + seq(|order|, k requires 0 <= k < |order| => StopPoint(selected[order[k]]))
  }

  /** Lines 111-113, which build the route request's points with pushes. */
  method RouteCoords(start: Option<LngLat>, selected: seq<Listing>, order: seq<nat>) returns (route: seq<LngLat>)
    requires forall k :: 0 <= k < |order| ==> order[k] < |selected|
    ensures route == RoutePoints(start, selected, order)
    ensures |route| == Offset(start.Some?) + |order|
    ensures start.Some? ==> route[0] == start.value
    ensures forall k :: 0 <= k < |order| ==> route[Offset(start.Some?) + k] == StopPoint(selected[order[k]])
  {
    route := [];
    if start.Some? {
      route := route + [start.value];
    }
    var off := Offset(start.Some?);
    for k := 0 to |order|
      invariant |route| == off + k
      invariant start.Some? ==> route[0] == start.value
      invariant forall j :: 0 <= j < k ==> route[off + j] == StopPoint(selected[order[j]])
    {
      route := route + [StopPoint(selected[order[k]])];
    }
  }

  // ---------------------------------------------------------------------
  // The handler

  /** `e.message || 'Failed to build tour'`. */
  function ServerError(message: string): HttpError {
    HttpError(500, if message != "" then message else "Failed to build tour")
  }

  /** `coords` at lines 45-47, the table positions the handler asks the
      routing service about: the route points of the stops in selection
      order. */
  function RoutePositions(s: Settings): (coords: seq<LngLat>)
    ensures |coords| == Offset(s.start.Some?) + |s.selected|
    ensures s.start.Some? ==> coords[0] == s.start.value
    ensures forall k :: 0 <= k < |s.selected| ==> coords[Offset(s.start.Some?) + k] == StopPoint(s.selected[k])
  {
    RoutePoints(s.start, s.selected, Identity(|s.selected|))
  }

  /** The order that visits the stops as selected. */
  function Identity(n: nat): (r: seq<nat>)
    ensures |r| == n && forall k :: 0 <= k < n ==> r[k] == k
  {
    seq(n, k requires 0 <= k < n => k)
  }

  /** The table the schedule is read from: the service's, or the estimate
      when the service answered `null`. */
  function TableOrFallback(answer: Option<Matrix>, coords: seq<LngLat>, estimate: (LngLat, LngLat) -> real): Matrix {
    match answer
    case Some(m) => m
    case None => FallbackTable(coords, estimate)
  }

  /** The order of the stops: the manual one when accepted, otherwise the
      heuristic from position 0 mapped back to stops. */
  method ChooseOrder(selected: seq<Listing>, orderIds: Option<seq<string>>, m: Matrix, hasStart: bool)
    returns (order: seq<nat>)
    requires |selected| >= 1 && Square(m, |selected| + Offset(hasStart))
    ensures IsPermutationOfRange(order, |selected|)
    ensures ManualOrder(selected, orderIds).Some? ==> order == ManualOrder(selected, orderIds).value
    ensures ManualOrder(selected, orderIds).None? ==>
      exists nn :: IsNearestNeighborOrder(m, 0, nn) && order == HeuristicStops(nn, hasStart)
  {
    var manual := ManualOrder(selected, orderIds);
    if manual.Some? {
      ManualOrderAccepted(selected, orderIds.value);
      return manual.value;
    }
    var nn := NearestNeighborOrder(m, 0);
    HeuristicStopsPermutation(nn.value, hasStart, |selected|);
    order := HeuristicStops(nn.value, hasStart);
  }

  /** Every id of the response order is a selected listing, every selected
      listing is in it, and (the catalog ids being distinct) none twice. */
  predicate OrderCoversSelection(order: seq<string>, selected: seq<Listing>) {
    && |order| == |selected|
    && (forall k :: 0 <= k < |order| ==> order[k] in Ids(selected))
    && (forall j :: 0 <= j < |selected| ==> selected[j].id in order)
    && (Distinct(Ids(selected)) ==> Distinct(order))
  }

  lemma PermutedIds(selected: seq<Listing>, p: seq<nat>)
    requires IsPermutationOfRange(p, |selected|)
    ensures OrderCoversSelection(Ids(PickAll(selected, p)), selected)
  {
    var order := Ids(PickAll(selected, p));
    PermutationCovers(p, |selected|);
    forall j | 0 <= j < |selected| ensures selected[j].id in order {
      assert j in p;
      var k :| 0 <= k < |p| && p[k] == j;
      assert order[k] == selected[j].id;
    }
    forall k | 0 <= k < |order| ensures order[k] in Ids(selected) {
      assert order[k] == Ids(selected)[p[k]];
    }
    if Distinct(Ids(selected)) {
      forall i, j | 0 <= i < j < |order| ensures order[i] != order[j] {
        assert order[i] == Ids(selected)[p[i]] && order[j] == Ids(selected)[p[j]];
      }
    }
  }

  /** `stopOrderIdx.map((i) => selected[i])`. */
  function PickAll(selected: seq<Listing>, p: seq<nat>): (r: seq<Listing>)
    requires forall k :: 0 <= k < |p| ==> p[k] < |selected|
    ensures |r| == |p| && forall k :: 0 <= k < |p| ==> r[k] == selected[p[k]]
  {
    seq(|p|, k requires 0 <= k < |p| => selected[p[k]])
  }

  /** What line 62's mapping does to the response when there is no start
      coordinate: with distinct catalog ids, the tour lists one stop fewer
      than were selected and never the first selected listing, and neither
      does any schedule row planned on it nor the route request's points. */
  lemma HeuristicAsWrittenSkipsFirstListing(selected: seq<Listing>, nn: seq<nat>, p: Plan)
    requires |selected| >= 1 && IsPermutationOfRange(nn, |selected|) && nn[0] == 0
    requires Distinct(Ids(selected))
    requires p.order == HeuristicStopsAsWritten(nn, false) && !p.hasStart
    requires p.stops == |selected| && Square(p.m, |selected|)
    ensures PlanOk(p)
    ensures |Ids(PickAll(selected, p.order))| == |selected| - 1
    ensures selected[0].id !in Ids(PickAll(selected, p.order))
    ensures forall i :: 0 <= i < |p.order| ==> Row(selected, p, i).id != selected[0].id
    ensures |RoutePoints(None, selected, p.order)| == |selected| - 1
  {
    HeuristicDropsFirstStop(nn, |selected|);
    var order := p.order;
    forall k | 0 <= k < |order| ensures 0 < order[k] < |selected| {
      assert order[k] in Without(nn, 0);
    }
    forall k | 0 <= k < |order| ensures selected[order[k]].id != selected[0].id {
      assert Ids(selected)[order[k]] != Ids(selected)[0];
    }
    var ids := Ids(PickAll(selected, order));
    forall k | 0 <= k < |ids| ensures ids[k] != selected[0].id {
      assert ids[k] == selected[order[k]].id;
    }
  }

  /** How the plan was chosen: from the table the handler settled on,
      the validated settings, and the order rule. */
  ghost predicate PlanChosen(plan: Plan, s: Settings, orderIds: Option<seq<string>>, m: Matrix) {
    && plan.m == m
    && plan.hasStart == s.start.Some? && plan.stops == |s.selected|
    && plan.startMs == s.startMs && plan.dwell == s.dwell && plan.buffer == s.buffer
    && PlanOk(plan) && IsPermutationOfRange(plan.order, |s.selected|)
    && (ManualOrder(s.selected, orderIds).Some? ==> plan.order == ManualOrder(s.selected, orderIds).value)
    && (ManualOrder(s.selected, orderIds).None? ==>
          exists nn :: IsNearestNeighborOrder(m, 0, nn) && plan.order == HeuristicStops(nn, plan.hasStart))
  }

  /** What a successful response holds for that plan: the stops' ids in the
      plan's order, their schedule rows, the drive total and the calendar. */
  predicate ResponseFits(resp: TourResponse, s: Settings, req: TourRequest, plan: Plan, stampMs: int, random: nat -> string)
    requires PlanOk(plan) && plan.stops == |s.selected| && |plan.order| == |s.selected|
  {
    && resp.order == Ids(PickAll(s.selected, plan.order))
    && OrderCoversSelection(resp.order, s.selected)
    && (ManualOrder(s.selected, req.orderIds).Some? ==> resp.order == req.orderIds.value)
    && |resp.schedule| == |s.selected|
    && (forall i :: 0 <= i < |s.selected| ==> resp.schedule[i] == Row(s.selected, plan, i))
    && resp.totalDriveMinutes == DriveTotal(plan, |s.selected|)
    && resp.ics == Join(CalendarLines(TourEvents(resp.schedule, req.notes), DefaultProdId, stampMs, random), "\r\n")
  }

  /** Lines 114-117: the geometry, the leg distances and the total distance
      of the route answer, or, when there is none, no geometry, no legs and
      the distance estimate. */
  function RouteSummary(d: Option<RouteDetails>, routeCoords: seq<LngLat>, fallbackKm: seq<LngLat> -> real)
    : (r: (Option<Geometry>, seq<real>, real))
    ensures d.Some? ==> r.0 == d.value.geometry && r.2 == d.value.totalKm
    ensures d.Some? ==> |r.1| == |d.value.legs| && forall k :: 0 <= k < |r.1| ==> r.1[k] == d.value.legs[k].distanceKm
    ensures d.None? ==> r == (None, [], fallbackKm(routeCoords))
  {
    match d
    case Some(rd) => (rd.geometry, seq(|rd.legs|, k requires 0 <= k < |rd.legs| => rd.legs[k].distanceKm), rd.totalKm)
    case None => (None, [], fallbackKm(routeCoords))
  }

  /** Lines 51-108: the stop order, its schedule and the calendar. */
  method Itinerary(s: Settings, req: TourRequest, m: Matrix, stampMs: int, random: nat -> string)
    returns (order: seq<nat>, schedule: seq<Stop>, totalDrive: real, ics: string, ghost plan: Plan)
    requires |s.selected| >= 1 && Square(m, |s.selected| + Offset(s.start.Some?))
    ensures PlanChosen(plan, s, req.orderIds, m) && plan.order == order
    ensures |schedule| == |s.selected| && |order| == |s.selected|
    ensures forall i :: 0 <= i < |s.selected| ==> schedule[i] == Row(s.selected, plan, i)
    ensures totalDrive == DriveTotal(plan, |s.selected|)
    ensures ics == Join(CalendarLines(TourEvents(schedule, req.notes), DefaultProdId, stampMs, random), "\r\n")
  {
    order := ChooseOrder(s.selected, req.orderIds, m, s.start.Some?);
    var p := Plan(m, order, s.start.Some?, |s.selected|, s.startMs, s.dwell, s.buffer);
    plan := p;
    var legDurations, legPairs;
    schedule, totalDrive, legDurations, legPairs := BuildSchedule(s.selected, p);
    ics := GenerateIcs(TourEvents(schedule, req.notes), DefaultProdId, stampMs, random);
  }

  /** The outcome of the handler once the table `m` is known: the plan
      chosen from it, a 500 exactly when the route request throws, and
      otherwise a response that fits the plan and carries the route answer
      for the plan's points. */
  ghost predicate Responded(
    r: Result<TourResponse, HttpError>, plan: Plan, s: Settings, req: TourRequest, m: Matrix,
    stampMs: int, random: nat -> string,
    details: seq<LngLat> -> Call<Option<RouteDetails>>, fallbackKm: seq<LngLat> -> real)
  {
    && PlanChosen(plan, s, req.orderIds, m)
    && |plan.order| == |s.selected|
    && var points := RoutePoints(s.start, s.selected, plan.order);
       && (r.Failure? <==> details(points).Threw?)
       && (r.Failure? ==> r.error == ServerError(details(points).message))
       && (r.Success? ==>
             && ResponseFits(r.value, s, req, plan, stampMs, random)
             && (r.value.route, r.value.legDistancesKm, r.value.totalDistanceKm)
                == RouteSummary(details(points).value, points, fallbackKm))
  }

  /** Lines 51-127, once the table is known: the itinerary, then the route
      request and the response. */
  method Respond(
    s: Settings, req: TourRequest, m: Matrix, stampMs: int, random: nat -> string,
    details: seq<LngLat> -> Call<Option<RouteDetails>>, fallbackKm: seq<LngLat> -> real)
    returns (r: Result<TourResponse, HttpError>, ghost plan: Plan)
    requires |s.selected| >= 1 && Square(m, |s.selected| + Offset(s.start.Some?))
    ensures Responded(r, plan, s, req, m, stampMs, random, details, fallbackKm)
  {
    var order, schedule, totalDrive, ics;
    order, schedule, totalDrive, ics, plan := Itinerary(s, req, m, stampMs, random);
    var routeCoords := RouteCoords(s.start, s.selected, order);
    var d := details(routeCoords);
    if d.Threw? {
      return Failure(ServerError(d.message)), plan;
    }
    var ids := Ids(PickAll(s.selected, order));
    var summary := RouteSummary(d.value, routeCoords, fallbackKm);
    r := Success(TourResponse(ids, schedule, ics, summary.0, totalDrive, summary.1, summary.2));
    ResponseFitsPlan(r.value, s, req, plan, stampMs, random);
  }

  /** The response built from an itinerary fits its plan. */
  lemma ResponseFitsPlan(resp: TourResponse, s: Settings, req: TourRequest, plan: Plan, stampMs: int, random: nat -> string)
    requires PlanChosen(plan, s, req.orderIds, plan.m) && |plan.order| == |s.selected|
    requires resp.order == Ids(PickAll(s.selected, plan.order))
    requires |resp.schedule| == |s.selected|
    requires forall i :: 0 <= i < |s.selected| ==> resp.schedule[i] == Row(s.selected, plan, i)
    requires resp.totalDriveMinutes == DriveTotal(plan, |s.selected|)
    requires resp.ics == Join(CalendarLines(TourEvents(resp.schedule, req.notes), DefaultProdId, stampMs, random), "\r\n")
    ensures ResponseFits(resp, s, req, plan, stampMs, random)
  {
    PermutedIds(s.selected, plan.order);
    if ManualOrder(s.selected, req.orderIds).Some? {
      ManualOrderAccepted(s.selected, req.orderIds.value);
      assert resp.order == req.orderIds.value;
    }
  }

  /** `POST /api/tour`. The routing service's answers for a list of
      positions are the parameters `table` (the durations in minutes, or
      `null`) and `details`; `estimate` is the great-circle estimator and
      `fallbackKm` the distance estimate used when no route came back.
      The service is trusted to answer a table request for `n` positions
      with an `n`-by-`n` table.

      A rejected request is a 400 with its message; an exception from the
      service is a 500. Otherwise the response lists the stops in the chosen
      order (a permutation of the selected listings), schedules them from
      the start time with the clamped dwell and buffer, and carries the
      calendar of the visits. */
  method PlanTour(
    req: TourRequest, catalog: seq<Listing>, nowMs: int, stampMs: int, random: nat -> string,
    table: seq<LngLat> -> Call<Option<Matrix>>, estimate: (LngLat, LngLat) -> real,
    details: seq<LngLat> -> Call<Option<RouteDetails>>, fallbackKm: seq<LngLat> -> real)
    returns (r: Result<TourResponse, HttpError>, ghost plan: Plan)
    requires forall coords :: table(coords).Returned? && table(coords).value.Some? ==>
      Square(table(coords).value.value, |coords|)
    ensures Validate(req, catalog, nowMs).Failure? ==> r == Failure(Validate(req, catalog, nowMs).error)
    ensures r.Failure? ==> r.error.status == 400 || r.error.status == 500
    ensures Validate(req, catalog, nowMs).Success? ==>
      var s := Validate(req, catalog, nowMs).value;
      var answer := table(RoutePositions(s));
      && (answer.Threw? ==> r == Failure(ServerError(answer.message)))
      && (answer.Returned? ==>
            Responded(r, plan, s, req, TableOrFallback(answer.value, RoutePositions(s), estimate),
                      stampMs, random, details, fallbackKm))
  {
    plan := Plan([], [], false, 0, 0, 0, 0);
    var v := Validate(req, catalog, nowMs);
    if v.Failure? {
      return Failure(v.error), plan;
    }
    var s := v.value;
    var coords := RoutePositions(s);
    var answer := table(coords);
    if answer.Threw? {
      return Failure(ServerError(answer.message)), plan;
    }
    r, plan := PlanWithTable(s, req, answer.value, stampMs, random, estimate, details, fallbackKm);
  }

  /** Line 49 onwards: the service's table, or the estimated one when the
      service has none (`fallbackMatrix`), then the response. */
  method PlanWithTable(
    s: Settings, req: TourRequest, table: Option<Matrix>, stampMs: int, random: nat -> string,
    estimate: (LngLat, LngLat) -> real,
    details: seq<LngLat> -> Call<Option<RouteDetails>>, fallbackKm: seq<LngLat> -> real)
    returns (r: Result<TourResponse, HttpError>, ghost plan: Plan)
    requires |s.selected| >= 1
    requires table.Some? ==> Square(table.value, |RoutePositions(s)|)
    ensures Responded(r, plan, s, req, TableOrFallback(table, RoutePositions(s), estimate),
                      stampMs, random, details, fallbackKm)
  {
    var coords := RoutePositions(s);
    var m: Matrix;
    if table.Some? {
      m := table.value;
    } else {
      m := FallbackMatrix(coords, estimate);
    }
    r, plan := Respond(s, req, m, stampMs, random, details, fallbackKm);
  }
}
