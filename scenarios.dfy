/** Worked examples of the updater on a small straight path. */
module Scenarios {
  import opened Geometry
  import opened PathDistance
  import opened Deceleration
  import opened Localizer
  import opened LaneGenerator
  import opened Updater

  const Level: Quaternion := Quaternion(0.0, 0.0, 0.0, 1.0)

  function At(x: real, speed: real): (w: Waypoint)
    ensures w.pose.position == Point3(x, 0.0, 0.0) && w.speed == speed
  {
    Waypoint(Pose(Point3(x, 0.0, 0.0), Level), speed)
  }

  /** Five waypoints 10 m apart along the x axis, all at 10 m/s. */
  function StraightPath(): (p: seq<Waypoint>)
  {
    [At(0.0, 10.0), At(10.0, 10.0), At(20.0, 10.0), At(30.0, 10.0), At(40.0, 10.0)]
  }

  /** The positions the index is built from. */
  lemma StraightPathPoints()
    ensures Positions2D(StraightPath()) ==
              [Point2(0.0, 0.0), Point2(10.0, 0.0), Point2(20.0, 0.0), Point2(30.0, 0.0), Point2(40.0, 0.0)]
  {
    var pts := Positions2D(StraightPath());
    assert |pts| == 5;
    assert pts[0] == Point2(0.0, 0.0);
    assert pts[1] == Point2(10.0, 0.0);
    assert pts[2] == Point2(20.0, 0.0);
    assert pts[3] == Point2(30.0, 0.0);
    assert pts[4] == Point2(40.0, 0.0);
  }

  /** Vehicle on waypoint 0, stop line at waypoint 3: the local stop index is
      1, the first waypoint keeps 10 m/s (sqrt(2 * 5 * 10) = 10) and every
      waypoint from the stop index on is commanded to 0, because the
      distance from a waypoint past the stop index is an empty sum. */
  lemma StopLineOnStraightPath(sqrt: real -> real)
    requires IsSqrt(sqrt)
    ensures var path := StraightPath();
            var closest := ClosestAheadIndex(Positions2D(path), Point2(0.0, 0.0));
            closest == 0 &&
            GenerateLane(sqrt, path, closest, 3) ==
              Ok([At(0.0, 10.0), At(10.0, 0.0), At(20.0, 0.0), At(30.0, 0.0), At(40.0, 0.0)])
  {
    var path := StraightPath();
    LocalisedAtOrigin();
    assert Window(path, 0) == path;
    GenerateLaneFailsOnlyOffPath(sqrt, path, 0, 3);
    GenerateLaneBranches(sqrt, path, 0, 3);
    StraightPathProfile(sqrt);
  }

  lemma LocalisedAtOrigin()
    ensures ClosestAheadIndex(Positions2D(StraightPath()), Point2(0.0, 0.0)) == 0
  {
    var pts := Positions2D(StraightPath());
    assert pts[0] == Point2(0.0, 0.0);
    LocalisedOnWaypoint(pts, 0);
  }

  lemma StraightPathProfile(sqrt: real -> real)
    requires IsSqrt(sqrt)
    ensures Decelerated(sqrt, StraightPath(), 0, 3) ==
              [At(0.0, 10.0), At(10.0, 0.0), At(20.0, 0.0), At(30.0, 0.0), At(40.0, 0.0)]
  {
    var path := StraightPath();
    assert StopIndex(3, 0) == 1;
    SegmentLengthFromSquare(sqrt, Position(path, 0), Position(path, 1), 10.0);
    assert PathLength(sqrt, path, 0, 1) == 10.0;
    SqrtOfSquare(sqrt, 10.0);
    assert BrakingVelocity(sqrt, 10.0) == 10.0;
    var r := Decelerated(sqrt, path, 0, 3);
    assert r[0] == At(0.0, 10.0);
    DeceleratedStopsAtAndBeyondStopIndex(sqrt, path, 0, 3, 1);
    DeceleratedStopsAtAndBeyondStopIndex(sqrt, path, 0, 3, 2);
    DeceleratedStopsAtAndBeyondStopIndex(sqrt, path, 0, 3, 3);
    DeceleratedStopsAtAndBeyondStopIndex(sqrt, path, 0, 3, 4);
  }

  lemma SegmentLengthFromSquare(sqrt: real -> real, a: Point3, b: Point3, d: real)
    requires IsSqrt(sqrt)
    requires 0.0 <= d
    requires Square(a.x - b.x) + Square(a.y - b.y) + Square(a.z - b.z) == d * d
    ensures SegmentLength(sqrt, a, b) == d
  {
    SqrtOfSquare(sqrt, d);
  }

  /** With no stop line every published speed is the nominal one, wherever
      the vehicle is. */
  lemma NoStoplineKeepsNominalSpeeds(sqrt: real -> real, base: seq<Waypoint>, closest: nat)
    ensures var r := GenerateLane(sqrt, base, closest, NoStopline);
            r.Ok? && forall j :: 0 <= j < |r.value| ==> r.value[j] == base[closest + j]
  {
    GenerateLaneBranches(sqrt, base, closest, NoStopline);
  }

  /** A vehicle 1 m past waypoint 1 in the direction of travel is localised
      to waypoint 2. */
  lemma PastWaypointAdvances()
    ensures ClosestAheadIndex(Positions2D(StraightPath()), Point2(11.0, 0.0)) == 2
  {
    var pts := Positions2D(StraightPath());
    StraightPathPoints();
    var q := Point2(11.0, 0.0);
    var k := Nearest(pts, q);
    assert k == 1 by {
      assert SqDist(pts[k], q) <= SqDist(pts[1], q) == 1.0;
      assert SqDist(pts[0], q) == 121.0;
      assert SqDist(pts[2], q) == 81.0;
      assert SqDist(pts[3], q) == 361.0;
      assert SqDist(pts[4], q) == 841.0;
    }
    assert HeadingDot(pts, 1, q) == 10.0;
  }

  /** A client of the node: callbacks in the order the messages arrive,
      then one loop iteration. */
  method StopLineSession(sqrt: real -> real) returns (published: Option<Result<seq<Waypoint>>>)
    requires IsSqrt(sqrt)
    ensures published == Some(Ok([At(0.0, 10.0), At(10.0, 0.0), At(20.0, 0.0), At(30.0, 0.0), At(40.0, 0.0)]))
  {
    var node := new WaypointUpdater();
    published := node.LoopTick(sqrt);
    assert published == None;
    node.WaypointsCb(StraightPath());
    node.PoseCb(Pose(Point3(0.0, 0.0, 0.0), Level));
    node.TrafficCb(3);
    published := node.LoopTick(sqrt);
    StopLineOnStraightPath(sqrt);
  }
}
