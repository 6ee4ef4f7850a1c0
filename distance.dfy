/** Path length along a sequence of waypoints: the `distance` helper of the
    waypoint updater, as a specification function and as the accumulating
    loop the updater runs. */
module PathDistance {
  import opened Geometry

  /** Euclidean length of the straight segment between two 3D positions:
      for a square root, a non-negative value whose square is the squared
      distance. */
  function SegmentLength(sqrt: real -> real, a: Point3, b: Point3): (r: real)
    ensures IsSqrt(sqrt) ==> r >= 0.0 && r * r == Square(a.x - b.x) + Square(a.y - b.y) + Square(a.z - b.z)
  {
    sqrt(Square(a.x - b.x) + Square(a.y - b.y) + Square(a.z - b.z))
  }

  function Position(w: seq<Waypoint>, i: nat): (p: Point3)
    requires i < |w|
  {
    w[i].pose.position
  }

  /** The length of the polyline through `w[start], w[start+1], ..., w[stop]`;
      zero when `start >= stop`, since then there is no segment to sum, and
      never negative for a square root. */
  function PathLength(sqrt: real -> real, w: seq<Waypoint>, start: nat, stop: nat): (r: real)
    requires start > stop || stop < |w|
    ensures IsSqrt(sqrt) ==> r >= 0.0
    decreases stop
  {
    if start >= stop then 0.0
    else PathLength(sqrt, w, start, stop - 1) + SegmentLength(sqrt, Position(w, stop - 1), Position(w, stop))
  }

  /** The length of the degenerate segment from a point to itself. */
  lemma SegmentLengthSelf(sqrt: real -> real, a: Point3)
    requires IsSqrt(sqrt)
    ensures SegmentLength(sqrt, a, a) == 0.0
  {
    assert Square(a.x - a.x) + Square(a.y - a.y) + Square(a.z - a.z) == 0.0;
    SqrtZero(sqrt);
  }

  /** Path length is additive over any intermediate waypoint. */
  lemma {:induction false} PathLengthSplit(sqrt: real -> real, w: seq<Waypoint>, start: nat, mid: nat, stop: nat)
    requires start <= mid <= stop < |w|
    ensures PathLength(sqrt, w, start, stop) == PathLength(sqrt, w, start, mid) + PathLength(sqrt, w, mid, stop)
    decreases stop
  {
    if mid < stop {
      PathLengthSplit(sqrt, w, start, mid, stop - 1);
    }
  }

  /** Moving the start towards (or past) the stop point never lengthens the
      remaining path. */
  lemma PathLengthNonIncreasing(sqrt: real -> real, w: seq<Waypoint>, start: nat, later: nat, stop: nat)
    requires IsSqrt(sqrt)
    requires start <= later
    requires start > stop || stop < |w|
    ensures PathLength(sqrt, w, later, stop) <= PathLength(sqrt, w, start, stop)
  {
    if later < stop {
      PathLengthSplit(sqrt, w, start, later, stop);
    }
  }

  /** The accumulating loop of the updater's `distance`: `last` plays the
      role of the reassigned `wp1`, and the first step adds the zero-length
      segment from `w[wp1]` to itself. */
  method Distance(sqrt: real -> real, w: seq<Waypoint>, wp1: nat, wp2: nat) returns (dist: real)
    requires IsSqrt(sqrt)
    requires wp1 > wp2 || wp2 < |w|
    ensures dist == PathLength(sqrt, w, wp1, wp2)
    ensures dist >= 0.0
  {
    dist := 0.0;
    var last := wp1;
    var i := wp1;
    while i <= wp2
      invariant wp1 <= i
      invariant i == wp1 || i <= wp2 + 1
      invariant last == if i == wp1 then wp1 else i - 1
      invariant dist == if i == wp1 then 0.0 else PathLength(sqrt, w, wp1, last)
      decreases wp2 + 1 - i
    {
      if i == wp1 {
        SegmentLengthSelf(sqrt, Position(w, i));
      }
      dist := dist + SegmentLength(sqrt, Position(w, last), Position(w, i));
      last := i;
      i := i + 1;
    }
  }
}
