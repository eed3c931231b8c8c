/** The list helpers of the tour page (app/tour/page.tsx): which listings
    it plans for, the default start time, the order it sends back, the two
    ways a buyer reorders stops (drag and drop, arrow keys) and the choice
    of the "to next" leg. The reorder handlers copy the id list into an
    array and `splice` it in place. */
module TourPage {
  import opened Wrappers
  import opened Lists
  import opened JsMath
  import opened Osrm
  import opened TourRoute

  // ---------------------------------------------------------------------
  // Selection and start time

  /** `listings.filter((l) => ids.includes(l.id)).slice(0, 6)`. */
  function PageSelection(catalog: seq<Listing>, ids: seq<string>): (r: seq<Listing>)
    ensures |r| <= 6
    ensures forall k :: 0 <= k < |r| ==> r[k] in catalog && r[k].id in ids
  {
    var all := Matching(catalog, ids);
    if |all| <= 6 then all else all[..6]
  }

  /** The page plans at most six listings, in catalog order, and all the
      catalog's matches when there are no more than six. */
  lemma PageSelectionInCatalogOrder(catalog: seq<Listing>, ids: seq<string>)
    ensures IsSubsequence(PageSelection(catalog, ids), catalog)
    ensures |Matching(catalog, ids)| <= 6 ==> PageSelection(catalog, ids) == Matching(catalog, ids)
  {
    MatchingInCatalogOrder(catalog, ids);
    var all := Matching(catalog, ids);
    if |all| > 6 {
      SubsequencePrefix(all, catalog, 6);
    }
  }

  const HourMs: int := 60 * 60 * 1000
  const QuarterMs: int := 15 * 60 * 1000

  /** The default start: the clock's local time with the minutes raised to
      the next quarter hour (`Math.ceil(m / 15) * 15`, 60 rolling over into
      the next hour) and seconds and milliseconds cleared. `offsetMin` is
      the local zone's offset from UTC. */
  function DefaultStart(nowMs: int, offsetMin: int): int {
    var local := nowMs + offsetMin * 60000;
    var hourStart := local - local % HourMs;
    var minutes := (local % HourMs) / 60000;
    hourStart + Ceil(minutes as real / 15.0) * 15 * 60000 - offsetMin * 60000
  }

  /** The default start falls on a local quarter hour, no earlier than the
      start of the current minute and at most 14 minutes later. */
  lemma DefaultStartOnQuarter(nowMs: int, offsetMin: int)
    ensures (DefaultStart(nowMs, offsetMin) + offsetMin * 60000) % QuarterMs == 0
    ensures -60000 < DefaultStart(nowMs, offsetMin) - nowMs <= 14 * 60000
  {
    var local := nowMs + offsetMin * 60000;
    var hourStart := local - local % HourMs;
    var minutes := (local % HourMs) / 60000;
    var q := Ceil(minutes as real / 15.0);
    assert minutes as real / 15.0 <= q as real < minutes as real / 15.0 + 1.0;
    assert minutes <= q * 15 <= minutes + 14;
    assert hourStart == (local / HourMs) * HourMs;
    assert hourStart + q * 15 * 60000 == (local / HourMs * 4 + q) * QuarterMs;
  }

  // ---------------------------------------------------------------------
  // Sending the order

  /** `reorderMode && manualOrderIds?.length === selected.length ? manualOrderIds : undefined`. */
  function OrderIdsToSend(reorderMode: bool, manual: Option<seq<string>>, selectedCount: nat): (r: Option<seq<string>>)
    ensures r.Some? <==> reorderMode && manual.Some? && |manual.value| == selectedCount
    ensures r.Some? ==> r == manual
  {
    if reorderMode && manual.Some? && |manual.value| == selectedCount then manual else None
  }

  /** `manualOrderIds || resp.order`: the list being reordered. */
  function CurrentOrder(manual: Option<seq<string>>, responseOrder: seq<string>): seq<string> {
    if manual.Some? then manual.value else responseOrder
  }

  // ---------------------------------------------------------------------
  // Reordering

  /** `a.splice(to, 0, a.splice(from, 1)[0])` on the copied array: the
      element at `from` leaves, the ones between close the gap, and it comes
      back at `to`. */
  method SpliceMove<T>(a: array<T>, from: nat, to: nat)
    requires from < a.Length && to < a.Length
    modifies a
    ensures a[..] == Move(old(a[..]), from, to)
  {
    ghost var s := a[..];
    var x := a[from];
    if from < to {
      var k := from;
      while k < to
        invariant from <= k <= to
        invariant forall j :: from <= j < k ==> a[j] == s[j + 1]
        invariant forall j :: 0 <= j < a.Length && !(from <= j < k) ==> a[j] == s[j]
      {
        a[k] := a[k + 1];
        k := k + 1;
      }
    } else {
      var k := from;
      while k > to
        invariant to <= k <= from
        invariant forall j :: k < j <= from ==> a[j] == s[j - 1]
        invariant forall j :: 0 <= j < a.Length && !(k < j <= from) ==> a[j] == s[j]
      {
        a[k] := a[k - 1];
        k := k - 1;
      }
    }
    ghost var b := a[..];
    a[to] := x;
    forall j | 0 <= j < a.Length ensures a[j] == Move(s, from, to)[j] {
      MoveAt(s, from, to, j);
      if j != to {
        assert a[j] == b[j];
      }
    }
  }

  /** Copies a list into a fresh array (`.slice()`). */
  method ToArray<T>(s: seq<T>) returns (a: array<T>)
    ensures fresh(a) && a[..] == s
  {
    a := new T[|s|](i requires 0 <= i < |s| => s[i]);
  }

  /** The drop handler (lines 177-182): the dragged id moves to the index
      of the id it is dropped on; when either is not in the list nothing
      changes. */
  method Drop(current: seq<string>, draggedId: string, targetId: string) returns (next: seq<string>)
    ensures IndexOf(current, draggedId) == -1 || IndexOf(current, targetId) == -1 ==> next == current
    ensures draggedId in current && targetId in current ==>
      next == Move(current, IndexOf(current, draggedId), IndexOf(current, targetId))
    ensures multiset(next) == multiset(current)
  {
    var a := ToArray(current);
    var from := IndexOf(current, draggedId);
    var to := IndexOf(current, targetId);
    if from == -1 || to == -1 {
      return current;
    }
    SpliceMove(a, from, to);
    next := a[..];
    MovePermutes(current, from, to);
  }

  /** The index an arrow key moves to: one up, one down, held at the ends. */
  function ArrowTarget(n: nat, from: int, up: bool): int {
    if up then Max(0, from - 1) else Min(n - 1, from + 1)
  }

  /** The arrow-key handler (lines 360-366). The row's id is looked up; a
      move onto the same index is dropped. `splice` reads an index of -1 as
      the last element, so an id missing from a non-empty list moves the
      last id to the front. */
  method ArrowMove(current: seq<string>, id: string, up: bool) returns (next: seq<string>)
    requires |current| >= 1
    ensures var from := IndexOf(current, id);
      var to := ArrowTarget(|current|, from, up);
      && 0 <= to < |current|
      && (from == to ==> next == current)
      && (from != to ==> next == Move(current, if from == -1 then |current| - 1 else from, to))
    ensures multiset(next) == multiset(current)
  {
    var a := ToArray(current);
    var from := IndexOf(current, id);
    var to := ArrowTarget(|current|, from, up);
    if from == to {
      return current;
    }
    var start := if from == -1 then |current| - 1 else from;
    SpliceMove(a, start, to);
    next := a[..];
    MovePermutes(current, start, to);
  }

  /** An arrow move of a listed id swaps it with its neighbour above (Up) or
      below (Down), and leaves the first id on Up and the last on Down
      where they are. */
  lemma ArrowSwapsNeighbours(current: seq<string>, id: string, up: bool)
    requires id in current
    ensures var from := IndexOf(current, id);
      var to := ArrowTarget(|current|, from, up);
      && (from == to <==> (up && from == 0) || (!up && from == |current| - 1))
      && (from != to ==>
            var next := Move(current, from, to);
            && (if up then to == from - 1 else to == from + 1)
            && next[from] == current[to] && next[to] == current[from]
            && forall k :: 0 <= k < |current| && k != from && k != to ==> next[k] == current[k])
  {
    var from := IndexOf(current, id);
    var to := ArrowTarget(|current|, from, up);
    if from != to {
      MoveAt(current, from, to, from);
      MoveAt(current, from, to, to);
      forall k | 0 <= k < |current| && k != from && k != to
        ensures Move(current, from, to)[k] == current[k]
      {
        MoveAt(current, from, to, k);
      }
    }
  }

  /** A reordered list the server accepted as a manual order is accepted
      again: a move keeps it a permutation of the selected ids. */
  lemma MoveKeepsOrderAccepted(selected: seq<Listing>, ids: seq<string>, from: nat, to: nat)
    requires from < |ids| && to < |ids|
    requires ManualOrder(selected, Some(ids)).Some?
    ensures ManualOrder(selected, Some(Move(ids, from, to))).Some?
  {
    var moved := Move(ids, from, to);
    ManualOrderAccepted(selected, ids);
    MovePermutes(ids, from, to);
    DistinctPermutation(ids, moved);
    forall k | 0 <= k < |moved| ensures moved[k] in Ids(selected) {
      assert moved[k] in multiset(ids);
    }
    ManualOrderAccepted(selected, moved);
  }

  // ---------------------------------------------------------------------
  // The "to next" leg

  /** The route leg from stop `idx` to the next one (lines 346-348): legs
      are counted from the start when there are as many as stops. The last
      stop, an empty leg list and a missing leg give none. */
  function ToNextDistance(legs: seq<real>, stops: nat, idx: nat): Option<real> {
    if |legs| == 0 then None
    else
      var legIndex := if |legs| == stops then idx + 1 else idx;
      if idx + 1 < stops && legIndex < |legs| then Some(legs[legIndex]) else None
  }

  /** The leg chosen is the one that joins stop `idx` to stop `idx + 1` of
      the route request: with a start the route has one point more than
      there are stops (and as many legs as stops), without one a leg fewer
      than stops. */
  lemma ToNextLegJoinsStops(start: Option<LngLat>, selected: seq<Listing>, order: seq<nat>,
                            legs: seq<real>, idx: nat)
    requires forall k :: 0 <= k < |order| ==> order[k] < |selected|
    requires |order| >= 2 && idx + 1 < |order|
    requires |legs| + 1 == |RoutePoints(start, selected, order)|
    ensures ToNextDistance(legs, |order|, idx).Some?
    ensures var k := if start.Some? then idx + 1 else idx;
      var points := RoutePoints(start, selected, order);
      && ToNextDistance(legs, |order|, idx) == Some(legs[k])
      && points[k] == StopPoint(selected[order[idx]])
      && points[k + 1] == StopPoint(selected[order[idx + 1]])
  {
  }

  /** The "to next" minutes: the next stop's travel, rounded; none after
      the last stop. */
  function ToNextMinutes(schedule: seq<Stop>, idx: nat): (r: Option<int>)
    ensures r.Some? <==> idx + 1 < |schedule|
    ensures r.Some? ==> schedule[idx + 1].travelMinutes - 0.5 < r.value as real <= schedule[idx + 1].travelMinutes + 0.5
  {
    if idx + 1 < |schedule| then Some(Round(schedule[idx + 1].travelMinutes)) else None
  }
}
