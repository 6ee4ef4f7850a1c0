/** Values shared by the waypoint updater: positions, poses, waypoints, the
    vector arithmetic of the localizer and the square root used for segment
    lengths and stopping speeds. Floating point is modelled by `real`. */
module Geometry {

  /** A 2D point, one entry of the list of waypoint positions the
      nearest-neighbour index is built from. */
  datatype Point2 = Point2(x: real, y: real)

  /** A 3D position of a waypoint or of the vehicle. */
  datatype Point3 = Point3(x: real, y: real, z: real)

  datatype Quaternion = Quaternion(x: real, y: real, z: real, w: real)

  /** Position and orientation, as carried by a waypoint and by the vehicle's
      current-pose message. */
  datatype Pose = Pose(position: Point3, orientation: Quaternion)

  /** A path sample: its pose and its target speed (the linear x component
      of its twist, in metres per second). */
  datatype Waypoint = Waypoint(pose: Pose, speed: real)

  /** The (x, y) part of a position, as used for localisation. */
  function Planar(p: Point3): (r: Point2)
  {
    Point2(p.x, p.y)
  }

  function Square(a: real): (r: real)
    ensures r >= 0.0
  {
    a * a
  }

  function Sub(a: Point2, b: Point2): (r: Point2)
  {
    Point2(a.x - b.x, a.y - b.y)
  }

  function Dot(u: Point2, v: Point2): (r: real)
  {
    u.x * v.x + u.y * v.y
  }

  /** Squared Euclidean distance in the plane, the quantity the
      nearest-neighbour query minimises. */
  function SqDist(a: Point2, b: Point2): (r: real)
    ensures r >= 0.0
  {
    Square(a.x - b.x) + Square(a.y - b.y)
  }

  /** A point at squared distance zero is the point itself. */
  lemma SqDistZero(a: Point2, b: Point2)
    requires SqDist(a, b) == 0.0
    ensures a == b
  {
    assert Square(a.x - b.x) == 0.0;
    assert Square(a.y - b.y) == 0.0;
    SquareZero(a.x - b.x);
    SquareZero(a.y - b.y);
  }

  lemma SquareZero(a: real)
    requires Square(a) == 0.0
    ensures a == 0.0
  {
    if a > 0.0 {
      SquareStrictlyMonotone(0.0, a);
    } else if a < 0.0 {
      SquareStrictlyMonotone(0.0, -a);
    }
  }

  /** `sqrt` is a square root on the non-negative reals: what the model
      assumes of the library square root (rounding is out of scope). */
  ghost predicate IsSqrt(sqrt: real -> real)
  {
    forall x: real :: 0.0 <= x ==> 0.0 <= sqrt(x) && sqrt(x) * sqrt(x) == x
  }

  lemma SquareStrictlyMonotone(a: real, b: real)
    requires 0.0 <= a < b
    ensures a * a < b * b
  {
    var ab := a * b;
    assert a * a <= ab;
    assert ab < b * b;
  }

  lemma SqrtZero(sqrt: real -> real)
    requires IsSqrt(sqrt)
    ensures sqrt(0.0) == 0.0
  {
    var s := sqrt(0.0);
    assert 0.0 <= s && s * s == 0.0;
    if s > 0.0 {
      SquareStrictlyMonotone(0.0, s);
    }
  }

  lemma SqrtMonotone(sqrt: real -> real, x: real, y: real)
    requires IsSqrt(sqrt)
    requires 0.0 <= x <= y
    ensures 0.0 <= sqrt(x) <= sqrt(y)
  {
    var sx, sy := sqrt(x), sqrt(y);
    assert 0.0 <= sx && sx * sx == x;
    assert 0.0 <= sy && sy * sy == y;
    if sy < sx {
      SquareStrictlyMonotone(sy, sx);
    }
  }

  /** The clamp threshold of the deceleration profile can be read off the
      argument: a root below 1 comes exactly from an argument below 1. */
  lemma SqrtBelowOne(sqrt: real -> real, x: real)
    requires IsSqrt(sqrt)
    requires 0.0 <= x
    ensures sqrt(x) < 1.0 <==> x < 1.0
  {
    var s := sqrt(x);
    assert 0.0 <= s && s * s == x;
    if s < 1.0 {
      SquareStrictlyMonotone(s, 1.0);
    } else {
      assert 1.0 * 1.0 <= s * s by {
        if 1.0 < s {
          SquareStrictlyMonotone(1.0, s);
        }
      }
    }
  }

  lemma SqrtOfSquare(sqrt: real -> real, x: real)
    requires IsSqrt(sqrt)
    requires 0.0 <= x
    ensures sqrt(x * x) == x
  {
    var s := sqrt(x * x);
    assert 0.0 <= x * x;
    assert 0.0 <= s && s * s == x * x;
    if s < x {
      SquareStrictlyMonotone(s, x);
    } else if x < s {
      SquareStrictlyMonotone(x, s);
    }
  }
}
