# random-path in Dafny

A model of the random, self-avoiding polygonal path generator of
`random-path.py`. It has two parts:

- `geometry.dfy`, module `Geometry`. Points and directed lines with integer
  coordinates. It holds the exact predicates a new line is tested with: the
  oriented-triangle area `__area`, the collinearity test
  `__point_belongs_the_line`, the proper-crossing test `__intersect_points`, and
  the deliberately one-sided combination `__intersect_lines` / `is_intersected`.
- `random_path.dfy`, module `RandomPath`. The state and the acceptance loop of
  `generate_path`. The class `PathGenerator` holds the list `lines`, which
  starts as `[Line()]`. `TryExtend` is one pass of the `while True` body with
  the sampled point passed in. `Next` draws points until one line is accepted,
  which is one pull on the generator. `Generate` consumes the generator over a
  finite stream of sampled points. The ghost function `Replay` gives the
  reference meaning of such a run. `ValidPath` is the invariant every reachable
  `lines` satisfies:
  - the list is non-empty and starts with the origin anchor;
  - every line begins where the previous one ends;
  - no line reports an intersection with any line appended after it;
  - every line passes the length cap;
  - every end point lies in the sampling square [-200, 200] x [-200, 200].

Lengths are compared squared. `length()` is `sqrt(dx*dx + dy*dy)`, and IEEE
square root is correctly rounded and monotone. The coordinates are integers
in [-200, 200], so the radicand is an exact integer of at most 320000.
Therefore `length() > 0` holds exactly when `dx*dx + dy*dy > 0`. For an
integer cap `m > 0`, `length() > m` holds exactly when `dx*dx + dy*dy > m*m`.
`TooLong` uses that form for the chained comparison
`new_line.length() > line_lengh_max > 0`.

The intersection test is kept exactly as written. `a.is_intersected(b)` asks
only whether `b.end` lies on the infinite line through a non-degenerate `a`,
or whether the two segments cross properly. The lemmas
`IsIntersectedAsymmetric` and `TouchAtEndpointNotReported` show the
consequences. First, the test is not symmetric. Second, a new line that
crosses an earlier line exactly at one of its end points touches it but is not
rejected. `PassThroughEndNotReported` states this in general: a new line whose
supporting line passes through an end point of the earlier line, and whose own
end is off the earlier line's supporting line, is not reported. A new line that
runs along the earlier one is still reported (`RunAlongThroughEndReported`). The invariant proved is therefore "no earlier line reports an
intersection", the property the code checks. It is not the geometric "no two
segments touch". The docstring of `generate_path` (random-path.py:144)
promises a path that does not intersect itself; the code checks less, and the
model follows the code. `PathTouchesItself` shows a whole run with no length
cap whose last line passes through a vertex of the path, yet every step is
accepted. `ZeroLengthFirstStepAccepted` records a second gap. On
the first step, the only line in the list is the zero-length anchor, which
rejects nothing. So if the first sampled point is the origin, a second
zero-length line is appended. After any line of positive length, a zero-length
candidate is always rejected (`CollinearStepRejected`). The help text
(random-path.py:12-13) says only that a cap of 0 means "no limit". The code
treats every cap `<= 0` that way, and so does the model.

## Model

| member | source | states |
|---|---|---|
| `Geometry.PointEq` | random-path.py:27-31 | two points are equal exactly when they are the same value (both coordinates agree) |
| `Geometry.PointNe` | random-path.py:33-34 | `!=` holds exactly when the points differ, the negation of `==` |
| `Geometry.SquaredLength` | random-path.py:68-75 | the squared distance is non-negative and zero exactly when the line's ends coincide |
| `Geometry.SquaredLengthSymmetric` | random-path.py:68-75 | the distance between two points does not depend on their order |
| `Geometry.HasLength` | random-path.py:135-140 | `length() > 0` holds exactly when begin and end differ |
| `Geometry.Area` | random-path.py:77-85 | the oriented area is zero whenever two vertices coincide; its zero is exactly collinearity (`AreaZeroOnLine`, `OnLineOfAreaZero`) and its sign is the orientation (`AreaSwap`, `AreaCounterClockwiseExample`) |
| `Geometry.AreaSwap` | random-path.py:77-85 | exchanging any two of the three vertices negates the oriented area |
| `Geometry.AreaZeroOnLine` | random-path.py:77-85 | a point on the line through the first two vertices gives zero area |
| `Geometry.OnLineOfAreaZero` | random-path.py:77-85 | conversely, for two distinct first vertices, a zero area puts the third point on their line |
| `Geometry.AreaCounterClockwiseExample` | random-path.py:77-85 | the counter-clockwise turn (0, 0), (1, 0), (1, 1) has area 1 |
| `Geometry.AreaCollinearExample` | random-path.py:77-85 | (0, 0), (1, 1) and (2, 2) have zero area |
| `Geometry.ProductNegative` | random-path.py:110-112 | the sign rule behind the two products of the crossing test: a product is negative exactly when its factors have strictly opposite signs |
| `Geometry.PointBelongsTheLine` | random-path.py:87-90 | true exactly when the line has positive length and the point's area with it is zero; a zero-length line contains no point |
| `Geometry.IntersectPoints` | random-path.py:92-112 | true exactly when each segment's endpoints lie strictly on opposite sides of the other segment's line |
| `Geometry.IntersectLines` | random-path.py:114-124 | true exactly when `b.end` is collinear with a non-degenerate `a`, or the segments cross properly |
| `Geometry.IsIntersected` | random-path.py:126-133 | a zero-length line never reports; at a chain joint only the collinearity of the new end can report |
| `Geometry.CollinearNoCrossing` | random-path.py:110-112 | no proper crossing once any endpoint is collinear with the other segment |
| `Geometry.SharedEndpointNoCrossing` | random-path.py:110-112 | two segments sharing an endpoint never cross properly |
| `Geometry.IntersectPointsSymmetric` | random-path.py:110-112 | the crossing test does not depend on which segment comes first |
| `Geometry.IntersectPointsReverseFirst` | random-path.py:110-112 | reversing the first segment leaves the crossing test unchanged |
| `Geometry.IntersectPointsReverseSecond` | random-path.py:110-112 | reversing the second segment leaves the crossing test unchanged |
| `Geometry.CrossingExamples` | random-path.py:110-112 | the diagonals of a square cross; two parallel segments do not |
| `Geometry.EndOnSupportingLineExample` | random-path.py:123-124 | a line ending on an existing line's supporting line is reported |
| `Geometry.IsIntersectedAsymmetric` | random-path.py:123-124 | with the same two lines swapped nothing is reported: the test is one-sided |
| `Geometry.TouchAtEndpointNotReported` | random-path.py:123-124 | the line (4, -2)-(4, 2) crosses (0, 0)-(4, 0) at its end point (4, 0) and is not reported |
| `Geometry.PassThroughEndNotReported` | random-path.py:110-124 | a line through an end point of an existing line, whose own end is off that line's supporting line, is not reported |
| `Geometry.RunAlongThroughEndReported` | random-path.py:123-124 | a line running along an existing line through its end point is reported |
| `RandomPath.TooLong` | random-path.py:156 | a cap `<= 0` never rejects, and a zero-length line is never too long |
| `RandomPath.WithinCapBoundsSteps` | random-path.py:156 | a line that passes a positive cap moves at most the cap along each axis |
| `RandomPath.CapMonotone` | random-path.py:156 | raising a positive cap never rejects a line the smaller cap accepted |
| `RandomPath.Candidate` | random-path.py:153-154 | the sampled point becomes the new end of the path |
| `RandomPath.CandidateKeepsChain` | random-path.py:153-154 | appending the candidate to a chain keeps every line beginning where the previous one ends |
| `RandomPath.Acceptable` | random-path.py:156-161 | on a list that starts with the anchor, a candidate is accepted exactly when it passes the cap and no line after the anchor reports it: the anchor never decides |
| `RandomPath.AcceptableAppend` | random-path.py:159 | a candidate stays acceptable when a line that does not report it is added to the list |
| `RandomPath.SelfAvoidingAppend` | random-path.py:159-162 | appending a candidate that no line reports keeps the list self-avoiding |
| `RandomPath.AnyIntersects` | random-path.py:159 | true exactly when some line of the list reports an intersection with the candidate |
| `RandomPath.AnchorNeverRejects` | random-path.py:150 | the origin anchor `Line()` never reports an intersection with any candidate |
| `RandomPath.JointIsNoCrossing` | random-path.py:153-154 | the joint between the last line and the candidate is never a crossing; the last line rejects only a collinear end |
| `RandomPath.CollinearStepRejected` | random-path.py:153-161 | after a line of positive length, a candidate ending on its supporting line is rejected |
| `RandomPath.ZeroLengthFirstStepAccepted` | random-path.py:150-162 | on the first step the zero-length candidate from the origin is accepted |
| `RandomPath.AcceptKeepsValid` | random-path.py:159-162 | appending an accepted candidate keeps the chain, anchor, cap, range and self-avoidance invariants |
| `RandomPath.ReplayDrawsFromSamples` | random-path.py:151-163 | a run yields at most one line per sampled point, and every line yielded ends at a sampled point |
| `RandomPath.ReplayKeepsValid` | random-path.py:150-163 | any finite stream of sampled points leaves a valid path |
| `RandomPath.TouchingReplay` | random-path.py:150-163 | with no cap, sampling (4, 0), (6, -3), (4, -2), (4, 2) yields exactly the four lines between those points |
| `RandomPath.TouchingPathValid` | random-path.py:150-163 | the anchor followed by those four lines is a valid path |
| `RandomPath.PathTouchesItself` | random-path.py:143-163 | a valid path whose fourth line passes through the vertex the first two lines share: the path can touch itself |
| `RandomPath.PathGenerator.constructor` | random-path.py:150 | the list starts as the single origin anchor and is valid |
| `RandomPath.PathGenerator.TryExtend` | random-path.py:152-163 | the candidate starts at the last end; it is appended exactly once when acceptable, otherwise nothing changes; validity is kept |
| `RandomPath.PathGenerator.Next` | random-path.py:151-163 | draws until the first acceptable candidate, which is appended and returned; all earlier draws were rejected against the unchanged list |
| `RandomPath.PathGenerator.Generate` | random-path.py:151-163 | the lines yielded are exactly the lines appended, and exactly those `Replay` determines |

## Left out

- The random source `Point.random_point` (random-path.py:52-55) is replaced by sampled points passed in as parameters, each required to lie in [-200, 200] x [-200, 200].
- Floating-point `math.sqrt` (random-path.py:68-75, 140) is not modelled; lengths are compared squared, which is exact for these integer inputs as argued above.
- The infinite `while True` loop and the lazy `yield` (random-path.py:151-163) are modelled over finite streams of sampled points; termination is only probabilistic, so no liveness is claimed.
- Drawing with turtle in `draw_path` (random-path.py:166-183), including the bare `except: exit()`, is graphical I/O and process control.
- `main`, the argument parsing and `help_string` (random-path.py:6-14, 186-198) are command-line plumbing; the cap arrives as an already parsed integer.
- The `Point` setters (random-path.py:44-50) are never used by the algorithm; points and lines are immutable values here.
- The shared mutable default `Point()` in `Line.__init__` (random-path.py:64) only matters for aliasing, which immutable values cannot show.
