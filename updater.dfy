/** The waypoint updater node's state and callbacks. The subscriptions,
    the publisher and the 50 Hz rate are not modelled: each callback is a
    method that writes its fields, and one iteration of the publishing loop
    is the method `LoopTick`. */
module Updater {
  import opened Geometry
  import opened Localizer
  import opened Deceleration
  import opened LaneGenerator

  datatype Option<T> = None | Some(value: T)

  /** The nearest-neighbour index over the waypoint positions. Only its
      answers are modelled, not the tree. */
  datatype KdTree = KdTree(points: seq<Point2>)
  {
    /** Index of a nearest waypoint to `q`. */
    function Query(q: Point2): (k: nat)
      requires |points| > 0
      ensures IsNearest(points, q, k)
    {
      Nearest(points, q)
    }
  }

  /** Building the index: construction fails on an empty list of points. */
  function BuildKdTree(pts: seq<Point2>): (t: Option<KdTree>)
    ensures t.Some? <==> |pts| > 0
    ensures t.Some? ==> t.value.points == pts
  {
    if |pts| > 0 then Some(KdTree(pts)) else None
  }

  /** The `[x, y]` list of the waypoints' positions, in path order. */
  function Positions2D(wps: seq<Waypoint>): (r: seq<Point2>)
    ensures |r| == |wps|
    ensures forall i :: 0 <= i < |wps| ==> r[i] == Planar(wps[i].pose.position)
  {
    seq(|wps|, i requires 0 <= i < |wps| => Planar(wps[i].pose.position))
  }

  class WaypointUpdater {
    var pose: Option<Pose>
    var baseWp: Option<seq<Waypoint>>
    var stoplineWpIdx: int
    var wp2d: Option<seq<Point2>>
    var wpTree: Option<KdTree>

    /** The index, once built, answers for the recorded positions, and
        those are never empty. */
    ghost predicate Valid()
      reads this
    {
      wpTree.Some? ==> wp2d.Some? && wpTree.value.points == wp2d.value && |wp2d.value| > 0
    }

    /** Python's `not self.wp_2d`: no position list, or an empty one. */
    predicate Wp2dMissing(): (r: bool)
      reads this
      ensures Valid() && r ==> wpTree.None?
    {
      wp2d.None? || wp2d.value == []
    }

    /** The guard of the publishing loop: the base path, the pose and the
        index are all present. */
    predicate CanPublish(): (r: bool)
      reads this
      ensures r ==> wpTree.Some? && (Valid() ==> wp2d.Some? && |wp2d.value| > 0 && wpTree.value.points == wp2d.value)
    {
      baseWp.Some? && pose.Some? && wpTree.Some?
    }

    constructor ()
      ensures Valid()
      ensures pose == None && baseWp == None && stoplineWpIdx == NoStopline
      ensures wp2d == None && wpTree == None
      ensures !CanPublish()
    {
      pose := None;
      baseWp := None;
      stoplineWpIdx := NoStopline;
      wp2d := None;
      wpTree := None;
    }

    method PoseCb(msg: Pose)
      requires Valid()
      modifies this
      ensures Valid()
      ensures pose == Some(msg)
      ensures baseWp == old(baseWp) && stoplineWpIdx == old(stoplineWpIdx)
      ensures wp2d == old(wp2d) && wpTree == old(wpTree)
    {
      pose := Some(msg);
    }

    method TrafficCb(data: int)
      requires Valid()
      modifies this
      ensures Valid()
      ensures stoplineWpIdx == data
      ensures pose == old(pose) && baseWp == old(baseWp)
      ensures wp2d == old(wp2d) && wpTree == old(wpTree)
    {
      stoplineWpIdx := data;
    }

    /** Always replaces the base path; records the positions and builds the
        index only while no position list is held. When the index cannot be
        built (an empty path) the callback stops after recording the empty
        list, so no index exists afterwards. */
    method WaypointsCb(waypoints: seq<Waypoint>)
      requires Valid()
      modifies this
      ensures Valid()
      ensures baseWp == Some(waypoints)
      ensures old(Wp2dMissing()) ==> wp2d == Some(Positions2D(waypoints))
      ensures old(Wp2dMissing()) ==>
                wpTree == if |waypoints| > 0 then Some(KdTree(Positions2D(waypoints))) else None
      ensures !old(Wp2dMissing()) ==> wp2d == old(wp2d) && wpTree == old(wpTree)
      ensures old(wpTree.Some?) ==> wp2d == old(wp2d) && wpTree == old(wpTree)
      ensures pose == old(pose) && stoplineWpIdx == old(stoplineWpIdx)
    {
      baseWp := Some(waypoints);
      if Wp2dMissing() {
        var pts := Positions2D(waypoints);
        wp2d := Some(pts);
        var tree := BuildKdTree(pts);
        if tree.Some? {
          wpTree := tree;
        }
      }
    }

    /** The index of the waypoint just ahead of the vehicle. */
    method GetClosestWpIdx() returns (closest: nat)
      requires Valid() && pose.Some? && wpTree.Some?
      ensures closest < |wp2d.value|
      ensures closest == ClosestAheadIndex(wp2d.value, Planar(pose.value.position))
    {
      var q := Planar(pose.value.position);
      var k := wpTree.value.Query(q);
      closest := AheadOf(wp2d.value, k, q);
    }

    /** The lane the current snapshot of the fields determines: at most
      `LOOKAHEAD_WPS` waypoints, the plain window when no stop line is set,
      and an error exactly when the stop line is at `N + 2` or later (two or
      more past the path's length `N`) but before the window's end. */
    ghost function CurrentLane(sqrt: real -> real): (r: Result<seq<Waypoint>>)
      reads this
      requires Valid() && CanPublish()
      ensures r.Ok? ==> |r.value| <= LookaheadWps
      ensures var closest := ClosestAheadIndex(wp2d.value, Planar(pose.value.position));
              stoplineWpIdx == NoStopline ==> r == Ok(Window(baseWp.value, closest))
      ensures var closest := ClosestAheadIndex(wp2d.value, Planar(pose.value.position));
              r.Err? <==> stoplineWpIdx != NoStopline && closest < |baseWp.value| &&
                          |baseWp.value| + StopMargin <= stoplineWpIdx < closest + LookaheadWps
    {
      var closest := ClosestAheadIndex(wp2d.value, Planar(pose.value.position));
      GenerateLaneFailsExactly(sqrt, baseWp.value, closest, stoplineWpIdx);
      LaneGenerator.GenerateLane(sqrt, baseWp.value, closest, stoplineWpIdx)
    }

    /** `generate_lane`: localise, slice, and profile when a stop line lies
        inside the window. */
    method GenerateLane(sqrt: real -> real) returns (lane: Result<seq<Waypoint>>)
      requires Valid() && CanPublish() && IsSqrt(sqrt)
      ensures lane == CurrentLane(sqrt)
    {
      var closest := GetClosestWpIdx();
      var farthest := closest + LookaheadWps;
      var window := PySlice(baseWp.value, closest, farthest);
      if stoplineWpIdx == NoStopline || stoplineWpIdx >= farthest {
        lane := Ok(window);
      } else if |window| > 0 && StopIndex(stoplineWpIdx, closest) >= |window| {
        lane := Err(IndexOutOfRange);
      } else {
        var temp := Decelerate(sqrt, window, closest, stoplineWpIdx);
        lane := Ok(temp);
      }
    }

    /** One iteration of the publishing loop: a lane is produced exactly
        when the guard holds, and it is the lane of the current snapshot. */
    method LoopTick(sqrt: real -> real) returns (published: Option<Result<seq<Waypoint>>>)
      requires Valid() && IsSqrt(sqrt)
      ensures published.Some? <==> CanPublish()
      ensures CanPublish() ==> published == Some(CurrentLane(sqrt))
    {
      if baseWp.Some? && pose.Some? && wpTree.Some? {
        var lane := GenerateLane(sqrt);
        published := Some(lane);
      } else {
        published := None;
      }
    }
  }
}
