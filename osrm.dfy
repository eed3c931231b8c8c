/** The routing client of lib/osrm.ts: the retry policy of
    `fetchWithBackoff`, the five-minute caches of `getTable` and
    `getRouteGeoJSON`, the seconds-to-minutes conversion, the leg mapping of
    `getRouteDetails`, and `fallbackMatrix`.

    The network is an input: `net(k)` is what the k-th `fetch` of one call
    yields, and the JSON body of the final successful response is passed in
    as an already decoded value. The clock (`Date.now()`) is the parameter
    `now`; `setTimeout` waits are returned as the list of delays. */
module Osrm {
  import opened Wrappers
  import opened Strings
  import opened TourOrder

  /** `LngLat`. */
  datatype LngLat = LngLat(lng: real, lat: real)

  /** A route geometry as OSRM returns it (a GeoJSON line string). */
  datatype Geometry = LineString(coordinates: seq<LngLat>)

  /** What one `fetch` call yields: a response with its HTTP status, or a
      rejected promise (a network error), which propagates as an exception. */
  datatype FetchOutcome = Http(status: int) | NetworkError(message: string)

  /** The result of a JavaScript call that may throw. */
  datatype Call<T> = Returned(value: T) | Threw(message: string)

  /** `res.ok`. */
  predicate Ok(o: FetchOutcome) {
    o.Http? && 200 <= o.status <= 299
  }

  /** `res.status === 429 || res.status >= 500`. */
  predicate RetryableFailure(o: FetchOutcome) {
    o.Http? && (o.status == 429 || o.status >= 500)
  }

  function Pow2(k: nat): (r: nat)
    ensures r >= 1
  {
    if k == 0 then 1 else 2 * Pow2(k - 1)
  }

  /** The wait before retry `k` (0-based): 400 ms, doubled each time. */
  function BackoffDelay(k: nat): nat {
    400 * Pow2(k)
  }

  /** The retry budget `fetchWithBackoff` is called with. */
  const DefaultAttempts: int := 3

  /** A run of `fetchWithBackoff(url, init, attempts)` that makes `fetches`
      fetches: every fetch but the last was a retryable failure, and the run
      stopped early only on a response that was not one (or on a network
      error); after `attempts` retryable failures one more fetch is made
      unconditionally. */
  predicate BackoffStops(net: nat -> FetchOutcome, attempts: int, fetches: nat) {
    var budget := if attempts > 0 then attempts else 0;
    && 1 <= fetches <= budget + 1
    && (forall k :: 0 <= k < fetches - 1 ==> RetryableFailure(net(k)))
    && (fetches <= budget ==> !RetryableFailure(net(fetches - 1)))
  }

  /** `fetchWithBackoff`: returns the response of the last fetch it makes,
      how many fetches it made, and the delays it waited between them. */
  method FetchWithBackoff(net: nat -> FetchOutcome, attempts: int)
    returns (res: FetchOutcome, fetches: nat, delays: seq<nat>)
    ensures BackoffStops(net, attempts, fetches)
    ensures res == net(fetches - 1)
    ensures |delays| == fetches - 1
    ensures forall k :: 0 <= k < |delays| ==> delays[k] == BackoffDelay(k)
  {
    var delay: nat := 400;
    delays := [];
    fetches := 0;
    var i := 0;
    while i < attempts
      invariant 0 <= i <= (if attempts > 0 then attempts else 0)
      invariant fetches == i && |delays| == i
      invariant forall k :: 0 <= k < i ==> RetryableFailure(net(k))
      invariant forall k :: 0 <= k < i ==> delays[k] == BackoffDelay(k)
      invariant delay == BackoffDelay(i)
    {
      res := net(fetches);
      fetches := fetches + 1;
      if res.NetworkError? || Ok(res) {
        // a rejected fetch throws out of the loop; an ok response is returned
        return;
      }
      if RetryableFailure(res) {
        delays := delays + [delay];
        delay := delay * 2;
        i := i + 1;
        continue;
      }
      return;
    }
    // final try
    res := net(fetches);
    fetches := fetches + 1;
  }

  /** The retry policy leaves no choice: the number of fetches is fixed by
      the responses. */
  lemma BackoffStopsUnique(net: nat -> FetchOutcome, attempts: int, f1: nat, f2: nat)
    requires BackoffStops(net, attempts, f1) && BackoffStops(net, attempts, f2)
    ensures f1 == f2
  {
  }

  function Sum(s: seq<nat>): nat {
    if s == [] then 0 else s[0] + Sum(s[1..])
  }

  /** The delays of a run add up to 400 * (2^retries - 1) ms: with the
      default budget of 3, at most 400 + 800 + 1600 = 2800 ms. */
  lemma {:induction false} BackoffTotalDelay(delays: seq<nat>)
    requires forall k :: 0 <= k < |delays| ==> delays[k] == BackoffDelay(k)
    ensures Sum(delays) == 400 * (Pow2(|delays|) - 1)
    ensures |delays| <= DefaultAttempts ==> Sum(delays) <= 2800
  {
    if delays != [] {
      var n := |delays|;
      var init := delays[..n - 1];
      BackoffTotalDelay(init);
      SumSnoc(init, delays[n - 1]);
      assert delays == init + [delays[n - 1]];
    }
    if |delays| <= DefaultAttempts {
      assert Pow2(|delays|) <= 8 by {
        assert Pow2(0) == 1 && Pow2(1) == 2 && Pow2(2) == 4 && Pow2(3) == 8;
      }
    }
  }

  lemma {:induction false} SumSnoc(s: seq<nat>, x: nat)
    ensures Sum(s + [x]) == Sum(s) + x
  {
    if s != [] {
      assert (s + [x])[1..] == s[1..] + [x];
      SumSnoc(s[1..], x);
    }
  }

  /** Three 503 answers in a row exhaust the retries: a fourth fetch is made
      and its response is the one returned. */
  lemma ThreeUnavailableThenFinal(net: nat -> FetchOutcome, fetches: nat)
    requires net(0) == Http(503) && net(1) == Http(503) && net(2) == Http(503)
    requires BackoffStops(net, DefaultAttempts, fetches)
    ensures fetches == 4
  {
  }

  /** A response that is neither ok nor retryable (a 404, say) is returned
      at once, with no further fetch. */
  lemma NonRetryableReturnedAtOnce(net: nat -> FetchOutcome, attempts: int, fetches: nat)
    requires attempts >= 1 && net(0).Http? && !Ok(net(0)) && !RetryableFailure(net(0))
    requires BackoffStops(net, attempts, fetches)
    ensures fetches == 1
  {
  }

  /** One cached response and the instant it was stored. */
  datatype CacheEntry<V> = CacheEntry(ts: int, value: V)

  /** `TTL_MS`: five minutes. */
  const TtlMs: int := 5 * 60 * 1000

  /** `cached && now - cached.ts < TTL_MS`. */
  predicate IsHit<V>(cache: map<string, CacheEntry<V>>, key: string, now: int) {
    key in cache && now - cache[key].ts < TtlMs
  }

  /** `${c.lng},${c.lat}`, with `show` standing for JavaScript's number-to-string. */
  function CoordText(c: LngLat, show: real -> string): string {
    show(c.lng) + "," + show(c.lat)
  }

  function CoordTexts(coords: seq<LngLat>, show: real -> string): (r: seq<string>)
    ensures |r| == |coords|
    ensures forall k :: 0 <= k < |coords| ==> r[k] == CoordText(coords[k], show)
  {
    seq(|coords|, k requires 0 <= k < |coords| => CoordText(coords[k], show))
  }

  /** `coords.map((c) => `${c.lng},${c.lat}`).join(';')`. */
  function Joined(coords: seq<LngLat>, show: real -> string): string {
    Join(CoordTexts(coords, show), ";")
  }

  /** The `tableCache` key. */
  function TableKey(coords: seq<LngLat>, show: real -> string): string {
    "table:" + Joined(coords, show)
  }

  /** The `routeCache` key. */
  function RouteKey(coords: seq<LngLat>, show: real -> string): string {
    "route:" + Joined(coords, show)
  }

  /** Number rendering that is one-to-one and never produces the key's
      separators. */
  ghost predicate FaithfulShow(show: real -> string) {
    && (forall x: real, y: real :: show(x) == show(y) ==> x == y)
    && (forall x: real :: ',' !in show(x) && ';' !in show(x))
  }

  /** Keys identify coordinate lists: two non-empty lists share a cache
      entry only when they are the same list, in the same order. */
  lemma TableKeyInjective(a: seq<LngLat>, b: seq<LngLat>, show: real -> string)
    requires FaithfulShow(show) && |a| > 0 && |b| > 0
    requires TableKey(a, show) == TableKey(b, show)
    ensures a == b
  {
    assert Joined(a, show) == TableKey(a, show)[6..] == TableKey(b, show)[6..] == Joined(b, show);
    var ta := CoordTexts(a, show);
    var tb := CoordTexts(b, show);
    forall k | 0 <= k < |a| ensures ';' !in ta[k] {
      assert ta[k] == show(a[k].lng) + "," + show(a[k].lat);
    }
    forall k | 0 <= k < |b| ensures ';' !in tb[k] {
      assert tb[k] == show(b[k].lng) + "," + show(b[k].lat);
    }
    SplitJoin(ta, ";");
    SplitJoin(tb, ";");
    assert ta == tb;
    forall k | 0 <= k < |a| ensures a[k] == b[k] {
      CoordTextInjective(a[k], b[k], show);
    }
  }

  lemma CoordTextInjective(p: LngLat, q: LngLat, show: real -> string)
    requires FaithfulShow(show)
    requires CoordText(p, show) == CoordText(q, show)
    ensures p == q
  {
    assert Join([show(p.lng), show(p.lat)], ",") == CoordText(p, show);
    assert Join([show(q.lng), show(q.lat)], ",") == CoordText(q, show);
    SplitJoin([show(p.lng), show(p.lat)], ",");
    SplitJoin([show(q.lng), show(q.lat)], ",");
  }

  /** One cell of OSRM's `durations`: a number of seconds, or anything else
      (OSRM sends `null` for an unroutable pair). */
  datatype Cell = Seconds(s: real) | NotNumber

  /** `typeof s === 'number' ? s / 60 : -1`. */
  function CellMinutes(c: Cell): real {
    match c
    case Seconds(s) => s / 60.0
    case NotNumber => -1.0
  }

  /** The conversion of the whole table, keeping its shape. */
  function ToMinutes(durations: seq<seq<Cell>>): (mins: Matrix)
    ensures |mins| == |durations|
    ensures forall i :: 0 <= i < |mins| ==> |mins[i]| == |durations[i]|
    ensures forall i, j :: 0 <= i < |mins| && 0 <= j < |mins[i]| ==> mins[i][j] == CellMinutes(durations[i][j])
  {
    seq(|durations|, i requires 0 <= i < |durations| =>
      seq(|durations[i]|, j requires 0 <= j < |durations[i]| => CellMinutes(durations[i][j])))
  }

  /** Converted entries carry the same duration (minutes times 60 are the
      seconds) and, for OSRM's non-negative durations, the -1 sentinel is
      exactly what the ordering heuristic treats as unusable. */
  lemma ToMinutesFaithful(durations: seq<seq<Cell>>, i: nat, j: nat)
    requires i < |durations| && j < |durations[i]|
    requires durations[i][j].Seconds? ==> durations[i][j].s >= 0.0
    ensures durations[i][j].Seconds? ==> ToMinutes(durations)[i][j] * 60.0 == durations[i][j].s
    ensures Usable(ToMinutes(durations), i, j) <==> durations[i][j].Seconds?
  {
  }

  /** `json?.durations || []`: a missing table reads as empty. */
  function TablePayload(durations: Option<seq<seq<Cell>>>): seq<seq<Cell>> {
    match durations
    case Some(d) => d
    case None => []
  }

  /** The route of an OSRM `route` response: geometry, legs and totals,
      each of which may be missing. */
  datatype RoutePayload = RoutePayload(
    geometry: Option<Geometry>,
    legs: seq<LegPayload>,
    distance: Option<real>,
    duration: Option<real>)

  datatype LegPayload = LegPayload(distance: Option<real>, duration: Option<real>)

  /** What `getRouteDetails` returns. */
  datatype RouteDetails = RouteDetails(
    geometry: Option<Geometry>,
    legs: seq<LegDetail>,
    totalKm: real,
    totalMin: real)

  datatype LegDetail = LegDetail(distanceKm: real, durationMin: real)

  function OrZero(x: Option<real>): real {
    match x
    case Some(v) => v
    case None => 0.0
  }

  /** The leg mapping: metres to kilometres, seconds to minutes, a missing
      value counting as 0. */
  function LegDetails(legs: seq<LegPayload>): (r: seq<LegDetail>)
    ensures |r| == |legs|
  {
    seq(|legs|, k requires 0 <= k < |legs| =>
      LegDetail(OrZero(legs[k].distance) / 1000.0, OrZero(legs[k].duration) / 60.0))
  }

  /** Each leg keeps its measurements, only the units change. */
  lemma LegDetailsUnits(legs: seq<LegPayload>, k: nat)
    requires k < |legs|
    ensures LegDetails(legs)[k].distanceKm * 1000.0 == OrZero(legs[k].distance)
    ensures LegDetails(legs)[k].durationMin * 60.0 == OrZero(legs[k].duration)
  {
  }

  /** `getRouteDetails(coords)`: no request for fewer than two points; an
      unsuccessful final response or a response without a route is `null`;
      otherwise the route's legs and totals in kilometres and minutes. It
      does not use a cache. */
  method GetRouteDetails(coords: seq<LngLat>, net: nat -> FetchOutcome, route: Option<RoutePayload>)
    returns (r: Call<Option<RouteDetails>>, fetches: nat)
    ensures |coords| < 2 ==> r == Returned(None) && fetches == 0
    ensures |coords| >= 2 ==> BackoffStops(net, DefaultAttempts, fetches)
    ensures |coords| >= 2 && net(fetches - 1).NetworkError? ==> r == Threw(net(fetches - 1).message)
    ensures |coords| >= 2 && net(fetches - 1).Http? && !Ok(net(fetches - 1)) ==> r == Returned(None)
    ensures |coords| >= 2 && Ok(net(fetches - 1)) ==>
      r == Returned(match route
                    case None => None
                    case Some(p) => Some(RouteDetails(p.geometry, LegDetails(p.legs),
                                                      OrZero(p.distance) / 1000.0, OrZero(p.duration) / 60.0)))
  {
    if |coords| < 2 {
      return Returned(None), 0;
    }
    var res, n, _ := FetchWithBackoff(net, DefaultAttempts);
    fetches := n;
    if res.NetworkError? {
      return Threw(res.message), fetches;
    }
    if !Ok(res) {
      return Returned(None), fetches;
    }
    if route.None? {
      return Returned(None), fetches;
    }
    var p := route.value;
    r := Returned(Some(RouteDetails(p.geometry, LegDetails(p.legs), OrZero(p.distance) / 1000.0, OrZero(p.duration) / 60.0)));
  }

  /** The routing client's two module-level caches. */
  class RoutingClient {
    var tableCache: map<string, CacheEntry<Matrix>>
    var routeCache: map<string, CacheEntry<Geometry>>

    constructor ()
      ensures tableCache == map[] && routeCache == map[]
    {
      tableCache := map[];
      routeCache := map[];
    }

    /** `getTable(coords)`: `[]` for no coordinates; a fresh cached table
        without fetching; otherwise the fetched table converted to minutes
        and stored under the key with `ts = now`, or `null` (cache untouched)
        when the final response is not ok. */
    method GetTable(coords: seq<LngLat>, now: int, show: real -> string,
                    net: nat -> FetchOutcome, durations: Option<seq<seq<Cell>>>)
      returns (r: Call<Option<Matrix>>, fetches: nat)
      modifies this
      ensures routeCache == old(routeCache)
      ensures |coords| == 0 ==> r == Returned(Some([])) && fetches == 0 && tableCache == old(tableCache)
      ensures |coords| > 0 && IsHit(old(tableCache), TableKey(coords, show), now) ==>
        && r == Returned(Some(old(tableCache)[TableKey(coords, show)].value))
        && fetches == 0 && tableCache == old(tableCache)
      ensures |coords| > 0 && !IsHit(old(tableCache), TableKey(coords, show), now) ==>
        && BackoffStops(net, DefaultAttempts, fetches)
        && (net(fetches - 1).NetworkError? ==> r == Threw(net(fetches - 1).message) && tableCache == old(tableCache))
        && (net(fetches - 1).Http? && !Ok(net(fetches - 1)) ==> r == Returned(None) && tableCache == old(tableCache))
        && (Ok(net(fetches - 1)) ==>
              var mins := ToMinutes(TablePayload(durations));
              r == Returned(Some(mins))
              && tableCache == old(tableCache)[TableKey(coords, show) := CacheEntry(now, mins)])
    {
      if |coords| == 0 {
        return Returned(Some([])), 0;
      }
      var key := TableKey(coords, show);
      if key in tableCache && now - tableCache[key].ts < TtlMs {
        return Returned(Some(tableCache[key].value)), 0;
      }
      var res, n, _ := FetchWithBackoff(net, DefaultAttempts);
      fetches := n;
      if res.NetworkError? {
        return Threw(res.message), fetches;
      }
      if !Ok(res) {
        return Returned(None), fetches;
      }
      var mins := ToMinutes(TablePayload(durations));
      tableCache := tableCache[key := CacheEntry(now, mins)];
      r := Returned(Some(mins));
    }

    /** `getRouteGeoJSON(coords)`: `null` for fewer than two points; a fresh
        cached geometry without fetching; otherwise the fetched geometry,
        stored only when there is one. */
    method GetRouteGeoJson(coords: seq<LngLat>, now: int, show: real -> string,
                           net: nat -> FetchOutcome, geometry: Option<Geometry>)
      returns (r: Call<Option<Geometry>>, fetches: nat)
      modifies this
      ensures tableCache == old(tableCache)
      ensures |coords| < 2 ==> r == Returned(None) && fetches == 0 && routeCache == old(routeCache)
      ensures |coords| >= 2 && IsHit(old(routeCache), RouteKey(coords, show), now) ==>
        && r == Returned(Some(old(routeCache)[RouteKey(coords, show)].value))
        && fetches == 0 && routeCache == old(routeCache)
      ensures |coords| >= 2 && !IsHit(old(routeCache), RouteKey(coords, show), now) ==>
        && BackoffStops(net, DefaultAttempts, fetches)
        && (net(fetches - 1).NetworkError? ==> r == Threw(net(fetches - 1).message) && routeCache == old(routeCache))
        && (net(fetches - 1).Http? && !Ok(net(fetches - 1)) ==> r == Returned(None) && routeCache == old(routeCache))
        && (Ok(net(fetches - 1)) ==>
              && r == Returned(geometry)
              && routeCache == match geometry
                               case Some(g) => old(routeCache)[RouteKey(coords, show) := CacheEntry(now, g)]
                               case None => old(routeCache))
    {
      if |coords| < 2 {
        return Returned(None), 0;
      }
      var key := RouteKey(coords, show);
      if key in routeCache && now - routeCache[key].ts < TtlMs {
        return Returned(Some(routeCache[key].value)), 0;
      }
      var res, n, _ := FetchWithBackoff(net, DefaultAttempts);
      fetches := n;
      if res.NetworkError? {
        return Threw(res.message), fetches;
      }
      if !Ok(res) {
        return Returned(None), fetches;
      }
      if geometry.Some? {
        routeCache := routeCache[key := CacheEntry(now, geometry.value)];
      }
      r := Returned(geometry);
    }
  }

  /** A table stored at `ts` is served until five minutes have passed. */
  lemma CacheServesWithinTtl(cache: map<string, CacheEntry<Matrix>>, key: string, m: Matrix, ts: int, now: int)
    requires key in cache && cache[key] == CacheEntry(ts, m)
    ensures IsHit(cache, key, now) <==> now < ts + 300000
  {
  }

  /** One entry of the fallback table: zero on the diagonal, the estimate elsewhere. */
  function FallbackEntry(coords: seq<LngLat>, est: (LngLat, LngLat) -> real, i: nat, j: nat): real
    requires i < |coords| && j < |coords|
  {
    if i == j then 0.0 else est(coords[i], coords[j])
  }

  /** The whole fallback table, entry by entry. */
  function FallbackTable(coords: seq<LngLat>, est: (LngLat, LngLat) -> real): (m: Matrix)
    ensures |m| == |coords| && forall i :: 0 <= i < |m| ==> |m[i]| == |coords|
  {
    seq(|coords|, i requires 0 <= i < |coords| =>
      seq(|coords|, j requires 0 <= j < |coords| => FallbackEntry(coords, est, i, j)))
  }

  /** `fallbackMatrix(coords)`: an n-by-n table with a zero diagonal and
      the estimator's value (`haversineMinutes` at 35 km/h, here the
      parameter `est`) off the diagonal. */
  method FallbackMatrix(coords: seq<LngLat>, est: (LngLat, LngLat) -> real) returns (m: Matrix)
    ensures |m| == |coords|
    ensures forall i :: 0 <= i < |m| ==> |m[i]| == |coords|
    ensures forall i, j :: 0 <= i < |coords| && 0 <= j < |coords| ==>
      m[i][j] == FallbackEntry(coords, est, i, j)
    ensures m == FallbackTable(coords, est)
  {
    var n := |coords|;
    m := [];
    for i := 0 to n
      invariant |m| == i
      invariant forall r :: 0 <= r < i ==> |m[r]| == n
      invariant forall r, j :: 0 <= r < i && 0 <= j < n ==>
        m[r][j] == FallbackEntry(coords, est, r, j)
    {
      var row: seq<real> := [];
      for j := 0 to n
        invariant |row| == j
        invariant forall c :: 0 <= c < j ==> row[c] == FallbackEntry(coords, est, i, c)
      {
        row := row + [FallbackEntry(coords, est, i, j)];
      }
      m := m + [row];
    }
    var table := FallbackTable(coords, est);
    forall i | 0 <= i < n ensures m[i] == table[i] {
      assert forall j :: 0 <= j < n ==> m[i][j] == table[i][j];
    }
  }

  /** With a symmetric estimator the fallback table is symmetric, and with
      a non-negative one every entry is usable by the ordering heuristic. */
  lemma FallbackSymmetricUsable(coords: seq<LngLat>, est: (LngLat, LngLat) -> real, m: Matrix, i: nat, j: nat)
    requires |m| == |coords| && forall r :: 0 <= r < |m| ==> |m[r]| == |coords|
    requires forall r, c :: 0 <= r < |coords| && 0 <= c < |coords| ==>
      m[r][c] == FallbackEntry(coords, est, r, c)
    requires i < |coords| && j < |coords|
    ensures (forall a, b :: est(a, b) == est(b, a)) ==> m[i][j] == m[j][i]
    ensures (forall a, b :: est(a, b) >= 0.0) ==> Usable(m, i, j)
  {
    assert m[i][j] == FallbackEntry(coords, est, i, j);
    assert m[j][i] == FallbackEntry(coords, est, j, i);
  }
}
