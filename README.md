# Waypoint updater: a Dafny model

The waypoint updater node of a self-driving-car ROS stack takes a static base path of
waypoints, the vehicle's latest pose and the latest stop-line waypoint index. On every
loop iteration it publishes the next `LOOKAHEAD_WPS` (20) waypoints ahead of the vehicle.
When a stop line lies inside that window, it lowers each waypoint's target speed to
`min(sqrt(2 * MAX_DECEL * d), nominal)`, where `d` is the remaining path length to a
point two waypoints short of the stop line. Speeds below 1 m/s are clamped to 0.

The model has one module per component:

- `Geometry` (geometry.dfy): points, poses, waypoints, and the square root. The square
  root is a function parameter `sqrt: real -> real`. It is constrained by `IsSqrt`: for
  every `x >= 0`, `sqrt(x) >= 0` and `sqrt(x) * sqrt(x) == x`. From that the model proves the
  facts the profiler relies on: `sqrt(0) == 0`, monotonicity, and `sqrt(x) < 1 <==> x < 1`.
- `PathDistance` (distance.dfy): `distance` as a specification function `PathLength`, and the
  source's accumulating loop as the method `Distance`, proved equal to it.
- `Deceleration` (deceleration.dfy): `decelerate_waypoints` as the function `Decelerated`, and
  the source's appending loop as the method `Decelerate`, proved equal to it. Lemmas cover the
  speed ceiling, the clamp, zero speed at and past the stop index, and monotonicity.
- `Localizer` (localizer.dfy): `get_closest_wp_idx`. The KD-tree query is the argmin of
  squared distance (`Nearest`). It is followed by the heading test, with Python's `k - 1`
  wrapping to the last waypoint.
- `LaneGenerator` (lane.dfy): `generate_lane`, meaning the Python slice (clamped, never
  wrapping) and the two-way branch on the stop line.
- `Updater` (updater.dfy): the node as a class `WaypointUpdater`. Its fields are `pose`,
  `baseWp`, `stoplineWpIdx`, `wp2d` and `wpTree`. The callbacks are methods that write those
  fields, and one loop iteration is `LoopTick`, which publishes only behind the guard of
  `waypoint_updater.py:67`.
- `Scenarios` (scenarios.dfy): a five-waypoint straight path, worked through the model.

What the code does at its edges, as the model states it:

- Past the stop index, `range(i, stop_idx + 1)` is empty, so `distance` is 0. Every waypoint
  at or past the stop index is therefore commanded to `min(0, nominal)`. On five waypoints
  10 m apart at 10 m/s, with stop line 3, the speeds are `[10, 0, 0, 0, 0]`
  (`Scenarios.StopLineOnStraightPath`).
- A stop line at `N + 2` or later (two or more past the path's length `N`), but still before
  the window's end, puts the local stop index outside the shortened window. `distance` then indexes past the end
  of the slice and raises `IndexError`, which ends the node. The model returns
  `Err(IndexOutOfRange)` in exactly that case: the lane fails if and only if the stop line is
  not -1, the closest index is inside the path, and `N + 2 <= stopline < closest + 20`
  (`LaneGenerator.GenerateLaneFailsExactly`).
- `wp_2d` and the tree are rebuilt whenever `wp_2d` is falsy, and that includes `[]`.
  `base_wp` is replaced on every message.
- A negative stop line other than -1 is not treated as "no stop". It sends the whole
  window through the profiler with local stop index 0, so every speed becomes
  `min(0, nominal)` (`LaneGenerator.NegativeStoplineStopsWholeWindow`).

Every operation is a pure function of its inputs, so two calls on the same pose, path and
stop line give the same result.

## Model

| member | source | states |
|---|---|---|
| Geometry.SqrtZero | ros/src/waypoint_updater/waypoint_updater.py:159-161 | the square root of 0 is 0, so the first, degenerate summand of `distance` adds nothing |
| Geometry.SqrtMonotone | ros/src/waypoint_updater/waypoint_updater.py:102 | the square root is non-negative and monotone on non-negative arguments |
| Geometry.SqrtBelowOne | ros/src/waypoint_updater/waypoint_updater.py:102-104 | `sqrt(x) < 1` exactly when `x < 1`, for `x >= 0` |
| Geometry.SqrtOfSquare | ros/src/waypoint_updater/waypoint_updater.py:159 | the root of `x * x` is `x` for `x >= 0`, so a segment's Euclidean length can be computed |
| PathDistance.SegmentLength | ros/src/waypoint_updater/waypoint_updater.py:159 | for a square root, the segment length is non-negative and its square is the sum of the squared coordinate differences |
| PathDistance.SegmentLengthSelf | ros/src/waypoint_updater/waypoint_updater.py:160-162 | the segment from a waypoint to itself, added on the first iteration, has length 0 |
| PathDistance.Distance | ros/src/waypoint_updater/waypoint_updater.py:157-163 | the loop's accumulated `dist` equals the sum of segment lengths from `wp1` to `wp2`, is 0 when `wp1 > wp2`, and is non-negative |
| PathDistance.PathLength | ros/src/waypoint_updater/waypoint_updater.py:157-163 | the remaining path length is never negative; the proof needs the recursive call's own contract |
| PathDistance.PathLengthSplit | ros/src/waypoint_updater/waypoint_updater.py:160-162 | path length is additive over any split point `wp1 <= m <= wp2` |
| PathDistance.PathLengthNonIncreasing | ros/src/waypoint_updater/waypoint_updater.py:160-163 | raising the start index towards or past the stop index never increases the path length |
| Deceleration.Min | ros/src/waypoint_updater/waypoint_updater.py:105 | the result is one of the two arguments and no larger than either |
| Deceleration.StopIndex | ros/src/waypoint_updater/waypoint_updater.py:100 | the local stop index is `max(stopline - closest - 2, 0)`: non-negative, at least `stopline - closest - 2`, and equal to it or to 0 |
| Deceleration.BrakingVelocity | ros/src/waypoint_updater/waypoint_updater.py:102-104 | the clamped speed is 0 or at least 1 m/s |
| Deceleration.BrakingVelocityStopsInDistance | ros/src/waypoint_updater/waypoint_updater.py:102-104 | the clamped speed is non-negative; it is 0 exactly when `2 * MAX_DECEL * d < 1`; otherwise its square is `2 * MAX_DECEL * d` |
| Deceleration.BrakingVelocityMonotone | ros/src/waypoint_updater/waypoint_updater.py:102-104 | a longer distance to go never gives a lower clamped speed |
| Deceleration.WaypointBrakingVelocity | ros/src/waypoint_updater/waypoint_updater.py:100-104 | the pre-`min` speed is 0 or at least 1 m/s, and at and past the stop index it is the speed for zero distance |
| Deceleration.ProfiledWaypoint | ros/src/waypoint_updater/waypoint_updater.py:97-105 | a profiled waypoint keeps its pose; its speed is at most both the nominal and the braking speed, and equals one of them |
| Deceleration.Decelerated | ros/src/waypoint_updater/waypoint_updater.py:96-106 | the profiled window has the input's length, keeps every pose at its index, and keeps every speed at or below that waypoint's nominal speed |
| Deceleration.DeceleratedSpeedCases | ros/src/waypoint_updater/waypoint_updater.py:102-105 | each profiled speed is the nominal speed, 0, or a braking speed of at least 1 m/s that is below the nominal speed |
| Deceleration.DeceleratedStopsAtAndBeyondStopIndex | ros/src/waypoint_updater/waypoint_updater.py:100-105 | at the stop index and every later local index the speed is `min(0, nominal)`, which is 0 for a non-negative nominal speed |
| Deceleration.DeceleratedNonNegative | ros/src/waypoint_updater/waypoint_updater.py:101-105 | with a non-negative nominal speed the profiled speed is non-negative |
| Deceleration.DeceleratedNonIncreasingTowardsStop | ros/src/waypoint_updater/waypoint_updater.py:100-105 | the pre-min braking speed does not rise as the index approaches the stop index; with equal nominal speeds, neither does the profiled speed |
| Deceleration.Decelerate | ros/src/waypoint_updater/waypoint_updater.py:93-108 | the appending loop produces exactly the profiled window |
| Localizer.Nearest | ros/src/waypoint_updater/waypoint_updater.py:116 | the query answer is an index of the path with minimal squared distance to the vehicle, and no earlier index is as near |
| Localizer.Previous | ros/src/waypoint_updater/waypoint_updater.py:120 | the previous waypoint is `k - 1`, or the last waypoint when `k` is 0 |
| Localizer.HeadingDot | ros/src/waypoint_updater/waypoint_updater.py:119-124 | the heading dot product is 0 on a one-waypoint path and for a vehicle standing on waypoint `k` |
| Localizer.AheadOf | ros/src/waypoint_updater/waypoint_updater.py:119-128 | the result is a path index, either `k` or `(k + 1) % N` |
| Localizer.ClosestAheadIndex | ros/src/waypoint_updater/waypoint_updater.py:113-128 | the closest-ahead index lies in `[0, N)` and is the nearest index or its successor around the path |
| Localizer.AheadOfAdvancesIffPassed | ros/src/waypoint_updater/waypoint_updater.py:119-126 | the index moves off `k` exactly when the dot product is positive; on a one-waypoint path the dot product is 0 |
| Localizer.LocalisedOnWaypoint | ros/src/waypoint_updater/waypoint_updater.py:116-128 | a vehicle standing on waypoint `j` is localised, with no advance, to the first waypoint at its own position, which is at most `j` |
| LaneGenerator.PySlice | ros/src/waypoint_updater/waypoint_updater.py:82 | a Python slice has length `min(hi, N) - lo`, or 0 when `lo >= N`, and holds consecutive elements from `lo` without wrapping |
| LaneGenerator.GenerateLane | ros/src/waypoint_updater/waypoint_updater.py:76-91 | a produced lane has the window's length, at most 20; entry `j` keeps the pose of base waypoint `closest + j` and never exceeds its nominal speed |
| LaneGenerator.Window | ros/src/waypoint_updater/waypoint_updater.py:81-82 | the window has length `min(20, N - closest)`, or 0 past the end, and entry `j` is base waypoint `closest + j` |
| LaneGenerator.PassesThrough | ros/src/waypoint_updater/waypoint_updater.py:84 | when the window is not passed through, the stop line is not -1 and lies before `closest + 20`, and the local stop index is below 18 |
| LaneGenerator.GenerateLaneBranches | ros/src/waypoint_updater/waypoint_updater.py:84-89 | with stop line -1 or at or past `closest + 20` the lane is the unmodified window; otherwise a produced lane is the profiled window |
| LaneGenerator.GenerateLaneFailsOnlyOffPath | ros/src/waypoint_updater/waypoint_updater.py:84-101 | when the closest index and the stop line are below the path length, a lane is always produced |
| LaneGenerator.GenerateLaneFailsExactly | ros/src/waypoint_updater/waypoint_updater.py:81-101 | the lane fails exactly when the stop line is not -1, the closest index is inside the path, and `N + 2 <= stopline < closest + 20` |
| LaneGenerator.NegativeStoplineStopsWholeWindow | ros/src/waypoint_updater/waypoint_updater.py:84-100 | a negative stop line other than -1 gives a lane with the window's poses and every speed `min(0, nominal)` |
| Updater.KdTree.Query | ros/src/waypoint_updater/waypoint_updater.py:116 | the index answers with a nearest waypoint |
| Updater.BuildKdTree | ros/src/waypoint_updater/waypoint_updater.py:138 | an index is built exactly when there is at least one position, and it is built over those positions |
| Updater.Positions2D | ros/src/waypoint_updater/waypoint_updater.py:137 | the position list has one `(x, y)` entry per waypoint, in path order |
| Updater.WaypointUpdater.Wp2dMissing | ros/src/waypoint_updater/waypoint_updater.py:136 | under the node invariant, while the position list is absent or empty (Python's `not self.wp_2d`) no index exists, which is why the index is built at most once |
| Updater.WaypointUpdater.CanPublish | ros/src/waypoint_updater/waypoint_updater.py:67 | when the guard holds, an index exists, and under the node invariant it is built over a non-empty position list |
| Updater.WaypointUpdater.constructor | ros/src/waypoint_updater/waypoint_updater.py:44-53 | a new node has no pose, no path, no positions, no index, and stop line -1, so it cannot publish |
| Updater.WaypointUpdater.PoseCb | ros/src/waypoint_updater/waypoint_updater.py:130-132 | only the pose changes, to the new message |
| Updater.WaypointUpdater.TrafficCb | ros/src/waypoint_updater/waypoint_updater.py:140-143 | only the stop line changes, to the new value |
| Updater.WaypointUpdater.WaypointsCb | ros/src/waypoint_updater/waypoint_updater.py:134-138 | the base path is always replaced; positions and index are rebuilt only while the position list is missing or empty, and never once an index exists; pose and stop line are kept |
| Updater.WaypointUpdater.GetClosestWpIdx | ros/src/waypoint_updater/waypoint_updater.py:113-128 | the node's tree query plus heading test gives the closest-ahead index of its positions and pose |
| Updater.WaypointUpdater.CurrentLane | ros/src/waypoint_updater/waypoint_updater.py:76-91 | the lane of the current fields has at most 20 waypoints, is the plain window when the stop line is -1, and is an error exactly when `N + 2 <= stopline < closest + 20` with the closest index inside the path |
| Updater.WaypointUpdater.GenerateLane | ros/src/waypoint_updater/waypoint_updater.py:76-91 | the method gives the lane that the pure generator assigns to the current fields |
| Updater.WaypointUpdater.LoopTick | ros/src/waypoint_updater/waypoint_updater.py:57-70 | a lane is published exactly when base path, pose and index are all present, and it is the lane of the current fields |
| Scenarios.StopLineOnStraightPath | ros/src/waypoint_updater/waypoint_updater.py:93-108 | on five waypoints 10 m apart at 10 m/s, with the vehicle on waypoint 0 and the stop line at 3, the lane's speeds are `[10, 0, 0, 0, 0]` |
| Scenarios.LocalisedAtOrigin | ros/src/waypoint_updater/waypoint_updater.py:113-128 | the vehicle on waypoint 0 of that path is localised to index 0 |
| Scenarios.StraightPathProfile | ros/src/waypoint_updater/waypoint_updater.py:100-105 | the profile of that path towards local stop index 1 is `[10, 0, 0, 0, 0]`, with the poses kept |
| Scenarios.NoStoplineKeepsNominalSpeeds | ros/src/waypoint_updater/waypoint_updater.py:84-85 | with stop line -1, every published waypoint is the base waypoint itself, for any closest index |
| Scenarios.PastWaypointAdvances | ros/src/waypoint_updater/waypoint_updater.py:124-126 | a vehicle 1 m past waypoint 1 in the direction of travel is localised to waypoint 2 |
| Scenarios.StopLineSession | ros/src/waypoint_updater/waypoint_updater.py:57-70 | a node that receives the path, the pose and stop line 3, in that order, then runs one loop iteration publishes `[10, 0, 0, 0, 0]` |

## Left out

- ROS plumbing is not modelled. This covers node initialisation, subscribers, the publisher, the `Lane` message header, the 50 Hz `rospy.Rate`, `sleep`, `is_shutdown`, and all logging and `print` calls. `LoopTick` returns the lane it would publish.
- Concurrency is not modelled. The callbacks run asynchronously in the node, but here they are sequential method calls on one object.
- The scipy KD-tree internals are left out. Only its answer is modelled, as an argmin of squared distance. Among equally near waypoints the model picks the first one, while the tree's own tie-break is unspecified. The tree's exception on an empty point set is modelled as "no index is built".
- Floating-point rounding is out of scope. Distances and speeds are reals, and `math.sqrt` is any function satisfying `IsSqrt`. All its properties used here follow from that predicate.
- The exception from an out-of-window stop index is `Err(IndexOutOfRange)`. What it does to the running node is not modelled: it escapes the loop inside the constructor and ends the node.
- The message's other twist components are not modelled. A profiled waypoint is a fresh `Waypoint()`, so of its twist only `linear.x` is set; the model carries only that component.
- `obstacle_cb`, `get_waypoint_velocity` and `set_waypoint_velocity` are left out. They are empty or unused by the core.
- The stop line arrives as a 32-bit message integer. The model treats it as an unbounded integer, which changes nothing because the source only compares and subtracts it using Python integers.
