/** The helpers of the map page (app/map/page.tsx) that feed the tour
    planner: the selection toggle, the recommended selection, the route
    preview and the commute chips. */
module MapPage {
  import opened Wrappers
  import opened Lists
  import opened JsMath
  import opened Osrm
  import opened TourRoute

  // ---------------------------------------------------------------------
  // Selection

  /** `ids.includes(id) ? ids.filter((x) => x !== id) : [...ids, id]`. */
  function Toggle(ids: seq<string>, id: string): (r: seq<string>)
    ensures id !in ids ==> r == ids + [id]
    ensures id in ids ==> id !in r && IsSubsequence(r, ids)
    ensures id in ids ==> forall k :: 0 <= k < |ids| && ids[k] != id ==> ids[k] in r
  {
    if id in ids then
      WithoutIsSubsequence(ids, id);
      Without(ids, id)
    else ids + [id]
  }

  /** Toggling an id the selection lacks, twice, gives the selection back. */
  lemma ToggleTwice(ids: seq<string>, id: string)
    requires id !in ids
    ensures Toggle(Toggle(ids, id), id) == ids
  {
    WithoutSnoc(ids, id);
  }

  /** A selection without duplicates keeps none after a toggle. */
  lemma ToggleKeepsDistinct(ids: seq<string>, id: string)
    requires Distinct(ids)
    ensures Distinct(Toggle(ids, id))
    ensures id in ids ==> |Toggle(ids, id)| == |ids| - 1
  {
    if id in ids {
      WithoutDistinct(ids, id);
    }
  }

  /** "Select 4 recommended": the ids of the first four catalog listings. */
  function Recommended(catalog: seq<Listing>): (r: seq<string>)
    ensures |r| == Min(4, |catalog|)
    ensures forall k :: 0 <= k < |r| ==> r[k] == catalog[k].id
  {
    Ids(if |catalog| <= 4 then catalog else catalog[..4])
  }

  // ---------------------------------------------------------------------
  // Route preview

  datatype OsrmStatus = Idle | Ok | Error

  /** What the map shows of the previewed tour. */
  datatype PreviewView = PreviewView(
    route: Option<Geometry>,
    totalDrive: Option<real>,
    orderIds: Option<seq<string>>,
    totalDistanceKm: Option<real>,
    status: OsrmStatus)

  /** The preview's request body: the selection and the start, if any. */
  datatype PreviewRequest = PreviewRequest(ids: seq<string>, startCoord: Option<StartCoord>)

  /** JavaScript's `x || null` on a number: zero becomes null. */
  function NonZero(x: real): (r: Option<real>)
    ensures r.None? <==> x == 0.0
    ensures r.Some? ==> r.value == x
  {
    if x == 0.0 then None else Some(x)
  }

  /** Lines 126-160. Fewer than two ids clear the route and drive time and
      go idle, keeping the order and distance shown; otherwise the tour
      endpoint is asked (`Threw` for a network or decoding failure) and its
      answer, or its absence, is shown. */
  function Preview(view: PreviewView, selectedIds: seq<string>, startCoord: Option<StartCoord>,
                   tour: PreviewRequest -> Call<Result<TourResponse, HttpError>>): (r: PreviewView)
    ensures |selectedIds| < 2 ==>
      && r.status == Idle && r.route.None? && r.totalDrive.None?
      && r.orderIds == view.orderIds && r.totalDistanceKm == view.totalDistanceKm
    ensures |selectedIds| >= 2 ==>
      var answer := tour(PreviewRequest(selectedIds, startCoord));
      (r.status == Ok <==> answer.Returned? && answer.value.Success?)
    ensures r.status == Error ==> r.route.None? && r.totalDrive.None? && r.orderIds.None? && r.totalDistanceKm.None?
  {
    if |selectedIds| < 2 then
      view.(route := None, totalDrive := None, status := Idle)
    else
      match tour(PreviewRequest(selectedIds, startCoord))
      case Returned(Success(resp)) =>
        PreviewView(resp.route, NonZero(resp.totalDriveMinutes), Some(resp.order),
                    NonZero(resp.totalDistanceKm), Ok)
      case _ => PreviewView(None, None, None, None, Error)
  }

  /** With fewer than two ids the preview sends no request: the answer of
      the endpoint cannot change what is shown. */
  lemma PreviewSendsNothing(view: PreviewView, selectedIds: seq<string>, startCoord: Option<StartCoord>,
                            tour1: PreviewRequest -> Call<Result<TourResponse, HttpError>>,
                            tour2: PreviewRequest -> Call<Result<TourResponse, HttpError>>)
    requires |selectedIds| < 2
    ensures Preview(view, selectedIds, startCoord, tour1) == Preview(view, selectedIds, startCoord, tour2)
  {
  }

  // ---------------------------------------------------------------------
  // Commute chips

  const Destinations: seq<string> := ["Downtown", "UT Austin", "The Domain"]

  /** One chip: a label and the minutes, if known. */
  datatype Commute = Commute(destination: string, minutes: Option<int>)

  /** Line 56: `sec ? Math.round(sec / 60) : null`; a missing or zero
      duration shows no minutes. */
  function CommuteMinutes(durationSec: Option<real>): (r: Option<int>)
    ensures r.None? <==> durationSec.None? || durationSec.value == 0.0
    ensures r.Some? ==> durationSec.value / 60.0 - 0.5 < r.value as real <= durationSec.value / 60.0 + 0.5
  {
    match durationSec
    case Some(sec) => if sec == 0.0 then None else Some(Round(sec / 60.0))
    case None => None
  }

  /** The chip for one destination's answer; any failure shows no minutes. */
  function CommuteChip(destination: string, answer: Call<Option<real>>): Commute {
    Commute(destination, match answer case Returned(sec) => CommuteMinutes(sec) case Threw(_) => None)
  }

  /** Lines 43-61: one chip per destination, in order; a failed request
      shows that destination without minutes and the loop goes on. */
  method Commutes(answers: seq<Call<Option<real>>>) returns (results: seq<Commute>)
    requires |answers| == |Destinations|
    ensures |results| == |Destinations|
    ensures forall k :: 0 <= k < |results| ==> results[k].destination == Destinations[k]
    ensures forall k :: 0 <= k < |results| ==>
      results[k].minutes == (if answers[k].Threw? then None else CommuteMinutes(answers[k].value))
  {
    results := [];
    for k := 0 to |Destinations|
      invariant |results| == k
      invariant forall j :: 0 <= j < k ==> results[j] == CommuteChip(Destinations[j], answers[j])
    {
      results := results + [CommuteChip(Destinations[k], answers[k])];
    }
  }
}
