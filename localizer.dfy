/** Closest-ahead localisation (`get_closest_wp_idx`): the nearest waypoint
    to the vehicle, advanced by one when the vehicle has already passed it
    in the direction of travel. */
module Localizer {
  import opened Geometry

  /** `k` is a nearest waypoint to `q` in squared Euclidean distance. */
  ghost predicate IsNearest(pts: seq<Point2>, q: Point2, k: nat)
  {
    k < |pts| && forall j :: 0 <= j < |pts| ==> SqDist(pts[k], q) <= SqDist(pts[j], q)
  }

  /** What the nearest-neighbour query answers: a nearest index, the first
      one among equally near waypoints. */
  function Nearest(pts: seq<Point2>, q: Point2): (k: nat)
    requires |pts| > 0
    ensures IsNearest(pts, q, k)
    ensures forall j :: 0 <= j < k ==> SqDist(pts[k], q) < SqDist(pts[j], q)
    decreases |pts|
  {
    if |pts| == 1 then 0
    else
      var k := Nearest(pts[..|pts| - 1], q);
      assert pts[..|pts| - 1][k] == pts[k];
      assert forall j :: 0 <= j < |pts| - 1 ==> pts[..|pts| - 1][j] == pts[j];
      if SqDist(pts[|pts| - 1], q) < SqDist(pts[k], q) then |pts| - 1 else k
  }

  /** The waypoint before `k` on the circular path: Python's `wp_2d[k - 1]`,
      which reads the last entry when `k` is 0. */
  function Previous(n: nat, k: nat): (p: nat)
    requires k < n
    ensures p < n
    ensures p + 1 == k || (k == 0 && p == n - 1)
  {
    if k == 0 then n - 1 else k - 1
  }

  /** Heading test: the dot product of the path direction arriving at `k`
      with the vector from `k` to the vehicle. It is zero on a one-waypoint
      path, where the direction vector vanishes, and for a vehicle standing
      on waypoint `k`. */
  function HeadingDot(pts: seq<Point2>, k: nat, q: Point2): (d: real)
    requires k < |pts|
    ensures |pts| == 1 ==> d == 0.0
    ensures q == pts[k] ==> d == 0.0
  {
    Dot(Sub(pts[k], pts[Previous(|pts|, k)]), Sub(q, pts[k]))
  }

  /** The second step of the localizer: keep `k` unless the vehicle is past
      it, then take the next waypoint around the path. */
  function AheadOf(pts: seq<Point2>, k: nat, q: Point2): (r: nat)
    requires k < |pts|
    ensures r < |pts|
    ensures r == k || r == (k + 1) % |pts|
  {
    if HeadingDot(pts, k, q) > 0.0 then (k + 1) % |pts| else k
  }

  /** The localizer: nearest waypoint, then the heading test. */
  function ClosestAheadIndex(pts: seq<Point2>, q: Point2): (r: nat)
    requires |pts| > 0
    ensures r < |pts|
    ensures r == Nearest(pts, q) || r == (Nearest(pts, q) + 1) % |pts|
  {
    AheadOf(pts, Nearest(pts, q), q)
  }

  /** The localizer moves off the nearest waypoint exactly when the heading
      test is positive; on a one-waypoint path the previous waypoint is the
      waypoint itself, the direction vector is zero and nothing moves. */
  lemma AheadOfAdvancesIffPassed(pts: seq<Point2>, k: nat, q: Point2)
    requires k < |pts|
    ensures AheadOf(pts, k, q) != k <==> HeadingDot(pts, k, q) > 0.0
    ensures |pts| == 1 ==> HeadingDot(pts, k, q) == 0.0
  {
    if |pts| == 1 {
      assert Previous(|pts|, k) == k;
      assert Sub(pts[k], pts[k]) == Point2(0.0, 0.0);
    } else {
      assert (k + 1) % |pts| != k by {
        if k + 1 < |pts| {
          assert (k + 1) % |pts| == k + 1;
        } else {
          assert (k + 1) % |pts| == 0;
        }
      }
    }
  }

  /** A vehicle standing exactly on a waypoint is localised to the first
      waypoint at the vehicle's own position, without the heading test
      moving it on. */
  lemma LocalisedOnWaypoint(pts: seq<Point2>, j: nat)
    requires j < |pts|
    ensures var r := ClosestAheadIndex(pts, pts[j]);
            r == Nearest(pts, pts[j]) && pts[r] == pts[j] && r <= j
  {
    var q := pts[j];
    var k := Nearest(pts, q);
    assert SqDist(pts[j], q) == 0.0;
    assert SqDist(pts[k], q) == 0.0;
    SqDistZero(pts[k], q);
    assert Sub(q, pts[k]) == Point2(0.0, 0.0);
  }
}
