/** The velocity profiler (`decelerate_waypoints`): every waypoint of the
    lookahead window keeps its pose and gets the smaller of its nominal
    speed and the speed from which the vehicle can still stop, at the
    maximum deceleration, at a point two waypoints short of the stop line. */
module Deceleration {
  import opened Geometry
  import opened PathDistance

  /** Maximum deceleration, in metres per second squared. */
  const MaxDecel: real := 5.0

  /** How many waypoints short of the stop line the vehicle aims to stop. */
  const StopMargin: int := 2

  /** Python's `min(a, b)`: the first argument unless the second is smaller. */
  function Min(a: real, b: real): (r: real)
    ensures r <= a && r <= b
    ensures r == a || r == b
  {
    if b < a then b else a
  }

  /** Local index, within the window, of the point to stop at:
      `max(stopline - closest - 2, 0)`. */
  function StopIndex(stopline: int, closest: nat): (s: nat)
    ensures s >= stopline - closest - StopMargin
    ensures s == 0 || s == stopline - closest - StopMargin
  {
    if stopline - closest - StopMargin > 0 then stopline - closest - StopMargin else 0
  }

  /** `sqrt(2 * MAX_DECEL * dist)`, with speeds below 1 m/s clamped to 0. */
  function BrakingVelocity(sqrt: real -> real, dist: real): (v: real)
    ensures v == 0.0 || v >= 1.0
  {
    var vel := sqrt(2.0 * MaxDecel * dist);
    if vel < 1.0 then 0.0 else vel
  }

  /** The braking speed inverts the stopping distance `v * v == 2 * a * d`,
      and it is zero exactly when that speed would be below 1 m/s. */
  lemma BrakingVelocityStopsInDistance(sqrt: real -> real, dist: real)
    requires IsSqrt(sqrt)
    requires dist >= 0.0
    ensures BrakingVelocity(sqrt, dist) >= 0.0
    ensures BrakingVelocity(sqrt, dist) == 0.0 <==> 2.0 * MaxDecel * dist < 1.0
    ensures 2.0 * MaxDecel * dist >= 1.0 ==>
              BrakingVelocity(sqrt, dist) * BrakingVelocity(sqrt, dist) == 2.0 * MaxDecel * dist
  {
    SqrtBelowOne(sqrt, 2.0 * MaxDecel * dist);
  }

  lemma BrakingVelocityMonotone(sqrt: real -> real, d1: real, d2: real)
    requires IsSqrt(sqrt)
    requires 0.0 <= d1 <= d2
    ensures 0.0 <= BrakingVelocity(sqrt, d1) <= BrakingVelocity(sqrt, d2)
  {
    SqrtMonotone(sqrt, 2.0 * MaxDecel * d1, 2.0 * MaxDecel * d2);
    SqrtBelowOne(sqrt, 2.0 * MaxDecel * d1);
  }

  /** The pre-`min` speed at local index `i` for the local stop index `s`:
      clamped, and from the stop index on the speed for zero distance. */
  function WaypointBrakingVelocity(sqrt: real -> real, w: seq<Waypoint>, i: nat, s: nat): (v: real)
    requires i < |w| && s < |w|
    ensures v == 0.0 || v >= 1.0
    ensures i >= s ==> v == BrakingVelocity(sqrt, 0.0)
  {
    BrakingVelocity(sqrt, PathLength(sqrt, w, i, s))
  }

  /** Waypoint `i` with its speed capped by the braking speed towards the
      local stop index `s`; the pose is kept. */
  function ProfiledWaypoint(sqrt: real -> real, w: seq<Waypoint>, i: nat, s: nat): (p: Waypoint)
    requires i < |w| && s < |w|
    ensures p.pose == w[i].pose
    ensures p.speed <= w[i].speed && p.speed <= WaypointBrakingVelocity(sqrt, w, i, s)
    ensures p.speed == w[i].speed || p.speed == WaypointBrakingVelocity(sqrt, w, i, s)
  {
    Waypoint(w[i].pose, Min(WaypointBrakingVelocity(sqrt, w, i, s), w[i].speed))
  }

  /** The profiled waypoints: same poses, in the same order, each speed
      capped by the braking speed towards the local stop index. */
  function Decelerated(sqrt: real -> real, w: seq<Waypoint>, closest: nat, stopline: int): (r: seq<Waypoint>)
    requires |w| == 0 || StopIndex(stopline, closest) < |w|
    ensures |r| == |w|
    ensures forall i :: 0 <= i < |w| ==> r[i].pose == w[i].pose && r[i].speed <= w[i].speed
  {
    var s := StopIndex(stopline, closest);
    seq(|w|, i requires 0 <= i < |w| => ProfiledWaypoint(sqrt, w, i, s))
  }

  /** Each profiled speed is the nominal speed, zero, or a braking speed of
      at least 1 m/s that is below the nominal speed. */
  lemma DeceleratedSpeedCases(sqrt: real -> real, w: seq<Waypoint>, closest: nat, stopline: int, i: nat)
    requires |w| == 0 || StopIndex(stopline, closest) < |w|
    requires i < |w|
    ensures var r := Decelerated(sqrt, w, closest, stopline);
            r[i].speed == w[i].speed || r[i].speed == 0.0 || 1.0 <= r[i].speed < w[i].speed
  {
  }

  /** At the stop index and at every later waypoint the distance to go is
      zero, so the profiled speed is `min(0, nominal)`: the vehicle is
      commanded to stand still there whenever the nominal speed is not
      negative. */
  lemma DeceleratedStopsAtAndBeyondStopIndex(sqrt: real -> real, w: seq<Waypoint>, closest: nat, stopline: int, i: nat)
    requires IsSqrt(sqrt)
    requires |w| == 0 || StopIndex(stopline, closest) < |w|
    requires StopIndex(stopline, closest) <= i < |w|
    ensures Decelerated(sqrt, w, closest, stopline)[i].speed == Min(0.0, w[i].speed)
    ensures w[i].speed >= 0.0 ==> Decelerated(sqrt, w, closest, stopline)[i].speed == 0.0
  {
    SqrtZero(sqrt);
  }

  /** With non-negative nominal speeds no profiled speed is negative. */
  lemma DeceleratedNonNegative(sqrt: real -> real, w: seq<Waypoint>, closest: nat, stopline: int, i: nat)
    requires IsSqrt(sqrt)
    requires |w| == 0 || StopIndex(stopline, closest) < |w|
    requires i < |w| && w[i].speed >= 0.0
    ensures Decelerated(sqrt, w, closest, stopline)[i].speed >= 0.0
  {
    var s := StopIndex(stopline, closest);
    BrakingVelocityStopsInDistance(sqrt, PathLength(sqrt, w, i, s));
  }

  /** Approaching the stop index the braking speed never rises; where the
      nominal speeds agree, neither does the profiled speed. */
  lemma DeceleratedNonIncreasingTowardsStop(sqrt: real -> real, w: seq<Waypoint>, closest: nat, stopline: int, i: nat, j: nat)
    requires IsSqrt(sqrt)
    requires |w| == 0 || StopIndex(stopline, closest) < |w|
    requires i <= j < |w|
    ensures var s := StopIndex(stopline, closest);
            WaypointBrakingVelocity(sqrt, w, j, s) <= WaypointBrakingVelocity(sqrt, w, i, s)
    ensures w[i].speed == w[j].speed ==>
              Decelerated(sqrt, w, closest, stopline)[j].speed <= Decelerated(sqrt, w, closest, stopline)[i].speed
  {
    var s := StopIndex(stopline, closest);
    PathLengthNonIncreasing(sqrt, w, i, j, s);
    BrakingVelocityMonotone(sqrt, PathLength(sqrt, w, j, s), PathLength(sqrt, w, i, s));
  }

  /** The loop of `decelerate_waypoints`, appending one profiled waypoint
      per input waypoint. */
  method Decelerate(sqrt: real -> real, waypoints: seq<Waypoint>, closest: nat, stopline: int) returns (temp: seq<Waypoint>)
    requires IsSqrt(sqrt)
    requires |waypoints| == 0 || StopIndex(stopline, closest) < |waypoints|
    ensures temp == Decelerated(sqrt, waypoints, closest, stopline)
  {
    ghost var s := StopIndex(stopline, closest);
    temp := [];
    var i := 0;
    while i < |waypoints|
      invariant i <= |waypoints|
      invariant |temp| == i
      invariant forall k :: 0 <= k < i ==> temp[k] == ProfiledWaypoint(sqrt, waypoints, k, s)
    {
      var wp := waypoints[i];
      var stopIdx := if stopline - closest - StopMargin > 0 then stopline - closest - StopMargin else 0;
      var dist := Distance(sqrt, waypoints, i, stopIdx);
      var vel := sqrt(2.0 * MaxDecel * dist);
      if vel < 1.0 {
        vel := 0.0;
      }
      temp := temp + [Waypoint(wp.pose, Min(vel, wp.speed))];
      i := i + 1;
    }
  }
}
