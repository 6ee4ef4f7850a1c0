/** The window generator (`generate_lane`): the lookahead slice of the base
    path starting at the closest-ahead waypoint, passed through at full
    speed or routed through the velocity profiler when a stop line lies
    inside the window. */
module LaneGenerator {
  import opened Geometry
  import opened PathDistance
  import opened Deceleration

  /** Number of waypoints published per cycle. */
  const LookaheadWps: nat := 20

  /** The stop-line value meaning "no stop requested". */
  const NoStopline: int := -1

  /** The exception the profiler raises: `distance` indexes past the end of
      the window when the stop index does not fall inside it. */
  datatype LaneError = IndexOutOfRange

  datatype Result<T> = Ok(value: T) | Err(error: LaneError)

  function MinNat(a: nat, b: nat): (r: nat)
    ensures r <= a && r <= b && (r == a || r == b)
  {
    if a < b then a else b
  }

  /** Python's `s[lo:hi]` for non-negative bounds `lo <= hi`: both bounds are
      cut back to the length, so the slice is shorter near the end and
      never wraps around. */
  function PySlice<T>(s: seq<T>, lo: nat, hi: nat): (r: seq<T>)
    requires lo <= hi
    ensures |r| == if lo < |s| then MinNat(hi, |s|) - lo else 0
    ensures forall j :: 0 <= j < |r| ==> lo + j < |s| && r[j] == s[lo + j]
  {
    s[MinNat(lo, |s|)..MinNat(hi, |s|)]
  }

  /** `base_wp.waypoints[closest_idx:closest_idx + LOOKAHEAD_WPS]`: the
      window holds `min(LOOKAHEAD_WPS, N - closest)` consecutive base
      waypoints in order starting at `closest`, and none when `closest` is
      at or past the end of the path. */
  function Window(base: seq<Waypoint>, closest: nat): (w: seq<Waypoint>)
    ensures |w| == if closest < |base| then MinNat(LookaheadWps, |base| - closest) else 0
    ensures forall j :: 0 <= j < |w| ==> closest + j < |base| && w[j] == base[closest + j]
  {
    PySlice(base, closest, closest + LookaheadWps)
  }

  /** Whether the stop line is absent or beyond the window, so that the
      window is published at full speed. Otherwise the stop line lies
      before the window's end and the local stop index is below
      `LOOKAHEAD_WPS - 2`. */
  predicate PassesThrough(stopline: int, closest: nat): (r: bool)
    ensures !r ==> stopline != NoStopline && stopline < closest + LookaheadWps
    ensures !r ==> StopIndex(stopline, closest) < LookaheadWps - StopMargin
  {
    stopline == NoStopline || stopline >= closest + LookaheadWps
  }

  /** The lane the updater publishes for the given closest-ahead index. */
  function GenerateLane(sqrt: real -> real, base: seq<Waypoint>, closest: nat, stopline: int): (r: Result<seq<Waypoint>>)
    ensures r.Ok? ==> |r.value| == |Window(base, closest)| <= LookaheadWps
    ensures r.Ok? ==> forall j :: 0 <= j < |r.value| ==>
              closest + j < |base| &&
              r.value[j].pose == base[closest + j].pose && r.value[j].speed <= base[closest + j].speed
  {
    var window := Window(base, closest);
    if PassesThrough(stopline, closest) then Ok(window)
    else if |window| > 0 && StopIndex(stopline, closest) >= |window| then Err(IndexOutOfRange)
    else Ok(Decelerated(sqrt, window, closest, stopline))
  }

  /** Both branches of the generator: the unmodified window when there is
      no stop line inside it, and otherwise the profiled window unless the
      profiler fails. */
  lemma GenerateLaneBranches(sqrt: real -> real, base: seq<Waypoint>, closest: nat, stopline: int)
    ensures PassesThrough(stopline, closest) ==> GenerateLane(sqrt, base, closest, stopline) == Ok(Window(base, closest))
    ensures !PassesThrough(stopline, closest) && GenerateLane(sqrt, base, closest, stopline).Ok? ==>
              var w := Window(base, closest);
              (|w| == 0 || StopIndex(stopline, closest) < |w|) &&
              GenerateLane(sqrt, base, closest, stopline).value == Decelerated(sqrt, w, closest, stopline)
  {
  }

  /** The generator fails only for a stop line that is not an index of the
      path: a stop line inside the path and a closest index inside the path
      always give a lane. */
  lemma GenerateLaneFailsOnlyOffPath(sqrt: real -> real, base: seq<Waypoint>, closest: nat, stopline: int)
    requires closest < |base|
    requires stopline < |base|
    ensures GenerateLane(sqrt, base, closest, stopline).Ok?
  {
    var w := Window(base, closest);
    if !PassesThrough(stopline, closest) {
      var s := StopIndex(stopline, closest);
      assert s < |w| by {
        if stopline - closest - StopMargin > 0 {
          assert s == stopline - closest - StopMargin;
          assert s < |base| - closest;
          assert s < LookaheadWps;
        }
      }
    }
  }

  /** The generator fails exactly when a stop line other than the sentinel
      lies before the window's end, the vehicle is localised inside the
      path, and the stop line is at `N + 2` or later, two or more past the
      path's length `N`: then the local stop index falls outside the
      (shortened) window. */
  lemma GenerateLaneFailsExactly(sqrt: real -> real, base: seq<Waypoint>, closest: nat, stopline: int)
    ensures GenerateLane(sqrt, base, closest, stopline).Err? <==>
              stopline != NoStopline && closest < |base| &&
              |base| + StopMargin <= stopline < closest + LookaheadWps
  {
  }

  /** A negative stop line other than the sentinel is not a pass-through:
      the whole window is profiled against local stop index 0 and every
      speed becomes `min(0, nominal)`. */
  lemma NegativeStoplineStopsWholeWindow(sqrt: real -> real, base: seq<Waypoint>, closest: nat, stopline: int)
    requires IsSqrt(sqrt)
    requires stopline < 0 && stopline != NoStopline
    ensures var r := GenerateLane(sqrt, base, closest, stopline);
            var w := Window(base, closest);
            r.Ok? && |r.value| == |w| &&
            forall j :: 0 <= j < |w| ==> r.value[j] == Waypoint(w[j].pose, Min(0.0, w[j].speed))
  {
    var w := Window(base, closest);
    assert StopIndex(stopline, closest) == 0;
    forall j | 0 <= j < |w|
      ensures Decelerated(sqrt, w, closest, stopline)[j] == Waypoint(w[j].pose, Min(0.0, w[j].speed))
    {
      DeceleratedStopsAtAndBeyondStopIndex(sqrt, w, closest, stopline, j);
    }
  }
}
