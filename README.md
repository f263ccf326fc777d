# junktion path generator, modelled in Dafny

junktion pre-computes the poses a vehicle drives through between a start
pose and an end pose. A pose (`Position`) is a point `(x, y)` and a heading
`theta` in radians; subtracting two poses gives the Euclidean distance
between their points. A `Path` is built from a start pose, an end pose and
a speed (the length of one step):

- when both headings agree, the path is the end pose alone;
- otherwise `calculate_AB` places a tangent pose A on the start heading and
  a tangent pose B on the end heading. It moves A along the start heading by
  the x- (y-) displacement less `CORNER_RADIUS = 3`, and B back from the end
  pose along the end heading by the same amounts. For a right-angle turn
  between the axes with the end pose ahead on both legs, this puts A and B
  one corner radius before and after the corner point. When the end pose
  lies behind the start on the first leg, A sits `2*|dx| - 3` from the
  corner point, where `|dx|` is how far the end lies behind: past the corner
  point when the end lies more than half a corner radius behind, short of it
  when less.
  `generate_corner` approximates the arc from A to B with evenly
  turned segments. `interpolate` walks straight from B to the end pose in
  steps of `speed`. The path is the corner without its last pose, followed
  by that straight run.

The project has three modules:

- `Numeric` (`numeric.dfy`): Python's `abs`, `max`, `int()`, `math.ceil`
  and `sum` over exact reals. `math.cos`, `math.sin` and `math.sqrt` are
  carried in a `MathLib` value that every operation takes as a parameter.
  The only law assumed about them is that `sqrt` gives the non-negative
  root of a non-negative number (`SqrtLaws`). Any property that needs a
  particular cosine or sine value states it in its `requires`.
- `Positions` (`position.dfy`): the `Position` value and its distance.
- `Paths` (`path.dfy`): the four static methods of `Path` and the
  constructor.

`interpolate` and the two coordinate loops of `generate_corner` append to
lists step by step. They are modelled as methods with loops
(`Interpolate`, `AccumulateAlong`, `GenerateCorner`). Each method is proved
equal to a specification function (`Interpolation`, `Accumulated`,
`Corner`), and the lemmas state the properties of those functions.
`calculate_AB`, `pre_calculate_path` and `Position.__sub__` only compute
values, so they are modelled as functions.

`generate_corner` solves `L_segment` against all `n_segments + 1` sampled
headings, but it steps along only the first `n_segments` of them
(src/path.py:91-97). So the corner's last pose generally misses B.
`CornerClosesInX` gives the exact condition for x: the last x equals B's x
exactly when A and B share their x or `cos(X_b.theta)` is zero. This holds
for a turn that ends on the y axis, as in `test_right_up_turn`. It fails for
a turn that ends on the x axis with some x-displacement, as in
`test_down_left_turn` (`CornerMissesXOffYAxis`).

## Model

| member | source | states |
|---|---|---|
| Numeric.MathLib | src/path.py:1 | `math.cos`, `math.sin` and `math.sqrt` (also src/position.py:1 and :11) are three functions on reals passed to every operation, with no values fixed |
| Numeric.SqrtLaws | src/position.py:11 | the one law assumed of `math.sqrt`: on a non-negative argument its result is non-negative and squares back to the argument |
| Numeric.Square | src/position.py:11 | Python's `v**2`: the product of the value with itself, never negative |
| Numeric.SumOf | src/path.py:91 | Python's `sum` of `f(t)` over the list, added left to right from 0; its properties are `SumOfPrefix` and `SumOfPositive` |
| Numeric.Abs | src/path.py:55-56 | Python's `abs`: the result is non-negative and is the argument or its negation |
| Numeric.Max | src/path.py:61 | Python's `max` of two numbers: an upper bound of both that is one of them |
| Numeric.Trunc | src/path.py:61 | Python's `int()`: for a non-negative argument, the greatest integer not above it; for a negative one, the least integer not below it (truncation toward zero) |
| Numeric.Ceil | src/path.py:87 | `math.ceil`: the least integer not below the argument |
| Numeric.SumOfPrefix | src/path.py:91 | `sum` over one more element adds that element's term; this is the step that `SumOfPositive`, `AccumulatedSum` and `AccumulatedCloses` rest on |
| Numeric.SumOfPositive | src/path.py:91 | the `sum` of a non-empty list of positive terms is positive |
| Numeric.SqrtExceeds | src/path.py:76 | under the root law, `sqrt(x) > c` holds exactly when `x > c*c`; this is how the 0.001 tolerance test on a distance becomes a test on squared coordinates |
| Numeric.SqrtOfSquare | src/position.py:11 | under the root law, the root of `c*c` is `c` for non-negative `c` |
| Positions.Position | src/position.py:4-8 | a pose is the triple `(x, y, theta)`, stored as given, as `test_position` checks field by field (test/test_position.py:5-9) |
| Positions.Distance | src/position.py:10-11 | under the root law, `p - other` is non-negative and its square is the sum of the squared coordinate differences |
| Positions.DistanceIgnoresHeading | src/position.py:10-11 | changing either pose's heading leaves the distance unchanged |
| Positions.DistanceSymmetric | src/position.py:10-11 | `p - other == other - p` |
| Positions.DistanceZero | src/position.py:10-11 | the distance is zero if and only if the two points coincide |
| Positions.DistanceThreeFourFive | test/test_position.py:11-14 | `Position(6, 8, 0) - Position(3, 4, 0) == 5` |
| Paths.CornerRadius | src/path.py:8 | `CORNER_RADIUS` is 3 |
| Paths.Tolerance | src/path.py:76 | the literal `0.001` against which the last stepped pose's distance to `X_1` is compared |
| Paths.StepCount | src/path.py:55-61 | `n_elements` is never negative at a positive speed and never positive at a negative speed |
| Paths.WholeSteps | src/path.py:61-64 | the number of loop iterations is `n_elements` at a positive speed and zero at a negative speed, where `range` is empty |
| Paths.Step | src/path.py:65-73 | one loop iteration: the pose moved `speed*cos`/`speed*sin` of the start heading, carrying the end heading; `StepLength` states what it means |
| Paths.StepLength | src/path.py:65-73 | for a unit-vector heading one iteration moves exactly `abs(speed)` from the previous pose and carries `X_1.theta` |
| Paths.Walk | src/path.py:63-74 | `positions` after n iterations holds n + 1 poses and starts at `X_0` |
| Paths.WholeStepsCount | src/path.py:61-64 | for a positive speed the loop runs floor(max(abs dx, abs dy) / speed) times; for a negative speed `int()` gives a non-positive count and the loop does not run |
| Paths.Interpolation | src/path.py:54-79 | speed 0 gives exactly `[X_0, X_1]`. Otherwise there are `n + 1` or `n + 2` poses starting at `X_0`; the extra pose is present exactly when the last stepped pose is more than 0.001 from `X_1`, and then it is `X_1` |
| Paths.Interpolate | src/path.py:54-79 | the loop that appends one stepped pose per iteration returns exactly `Interpolation` |
| Paths.InterpolationStep | src/path.py:64-74 | each stepped pose is the previous one moved by `speed*cos`/`speed*sin` of `X_0.theta`, and it carries `X_1.theta` |
| Paths.InterpolationStepLength | src/path.py:64-74 | for a unit-vector start heading consecutive stepped poses are exactly `abs(speed)` apart |
| Paths.InterpolationOnRay | src/path.py:64-74 | the i-th stepped pose is exactly `i` speeds out from `X_0` along `X_0`'s heading |
| Paths.InterpolationHeadings | src/path.py:71-77 | every pose after the first carries `X_1.theta` |
| Paths.InterpolationReachesGoal | src/path.py:76-77 | with a nonzero speed the last pose is `X_1` or within 0.001 of it; `X_1` is appended exactly when the squared gap exceeds 0.001 squared |
| Paths.InterpolationUnitSpeed | test/test_path.py:26-35 | (0,0,0) to (10,0,0) at speed 1 gives eleven poses, the i-th at (i, 0, 0) |
| Paths.InterpolationBackwards | test/test_path.py:75-85 | (10,0) to (0,0) on a heading with cosine -1 at speed 1 gives eleven poses, the i-th at (10 - i, 0) |
| Paths.InterpolationFractionalSpeed | test/test_path.py:49-61 | (0,0,0) to (10,0,0) at speed 1.5 gives eight poses: (1.5,0,0) second, (9,0,0) second to last, and exactly (10,0,0) last |
| Paths.TangentPoints | src/path.py:35-51 | the result is one pose exactly when the headings are equal, and then it is `X_1`; otherwise it is A on the start heading followed by B on the end heading |
| Paths.TangentPointsFromXAxis | src/path.py:39-51 | on any right-angle turn from the x axis (either direction) onto the y axis (either direction) with the end ahead on both legs, A is 3 before the corner point (X_1.x, X_0.y) on the first leg and B is 3 after it on the second |
| Paths.TangentPointsFromYAxis | src/path.py:39-51 | the mirrored family from the y axis onto the x axis, including heading down and then left: A is 3 before the corner point (X_0.x, X_1.y) and B is 3 after it |
| Paths.TangentPointsEndBehind | src/path.py:39-43 | when the end lies behind the start on a first leg along the x axis, A is `s0 * (2*abs(dx) - 3)` from the corner point (X_1.x, X_0.y) on that leg, so it is past the corner point exactly when the end lies more than 1.5 behind |
| Paths.TangentPointsEndFarBehind | src/path.py:39-51 | from (10, 0) along +x to (0, 10) along +y, A is (17, 0), seventeen past the corner point (0, 0) and seven past the start, and B is (0, 3) |
| Paths.TangentPointsEndSlightlyBehind | src/path.py:39-51 | from (10, 0) along +x to (9, 10) along +y, A is (8, 0), one short of the corner point, and B is (9, 3) |
| Paths.CornerSegments | src/path.py:83-87 | `n_segments` is non-negative at a positive speed, and zero exactly when the turn angle or the x-displacement is zero; it is non-positive at a negative speed |
| Paths.Headings | src/path.py:88-90 | `n_positions` sampled headings, the last exactly `X_b.theta` |
| Paths.HeadingsEvenlySpaced | src/path.py:90 | consecutive headings are `(X_b.theta - X_a.theta) / n_positions` apart, and the first is one such step past `X_a.theta` |
| Paths.HeadingsMonotone | src/path.py:90 | the headings strictly increase on a left turn and strictly decrease on a right turn |
| Paths.HeadingsWithinTurn | src/path.py:90 | every heading lies strictly past `X_a.theta` and no further than `X_b.theta`, in the direction of the turn |
| Paths.CornerHeadings | src/path.py:87-90 | `thetas` of `generate_corner`: at a positive speed `n_segments + 1` headings ending exactly at `X_b.theta`; at a negative speed at most one |
| Paths.CornerDefined | src/path.py:87-91 | the inputs on which `generate_corner` raises no `ZeroDivisionError`: a nonzero speed and a nonzero cosine sum |
| Paths.CornerDefinedWhenCosinesPositive | src/path.py:87-91 | at a positive speed, when every sampled heading has a positive cosine, neither division of `generate_corner` is by zero |
| Paths.CornerHasHeadings | src/path.py:83-91 | when both divisions are defined, `n_segments` is non-negative and there are `n_segments + 1` headings |
| Paths.SegmentLength | src/path.py:91 | `L_segment` times the cosine sum of all sampled headings is the x-displacement from A to B; what this means for where the corner ends is `AccumulatedSum` and `AccumulatedCloses` |
| Paths.Accumulated | src/path.py:93-97 | after `n` appends the coordinate list has `n + 1` entries and starts at the start coordinate |
| Paths.AccumulatedStep | src/path.py:94 | each entry is the previous one plus `L_segment` times the cosine (sine) of the previous entry's heading |
| Paths.AccumulatedSum | src/path.py:93-97 | the k-th entry is the start plus `L_segment` times the sum of the first k terms |
| Paths.AccumulateAlong | src/path.py:93-97 | one coordinate loop builds exactly `Accumulated` |
| Paths.Corner | src/path.py:82-99 | `n_segments + 1` poses; the first is at `X_a`'s point; the i-th carries the i-th sampled heading; the last carries `X_b.theta` |
| Paths.GenerateCorner | src/path.py:82-99 | the two coordinate loops and the final zip return exactly `Corner` |
| Paths.CornerStep | src/path.py:93-97 | each corner pose after the first is the previous one moved `L_segment` along the previous pose's heading |
| Paths.CornerHeadingsMonotone | src/path.py:90-99 | the corner's headings strictly increase on a left turn and strictly decrease on a right turn |
| Paths.AccumulatedCloses | src/path.py:91-94 | with `l` solved against all `n + 1` terms and only `n` steps taken, the walk lands on the target exactly when there is no displacement or the omitted term is zero |
| Paths.CornerClosesInX | src/path.py:91-99 | the corner's last x is `X_b.x` exactly when `X_a.x == X_b.x` or `cos(X_b.theta) == 0` |
| Paths.CornerMissesXOffYAxis | src/path.py:91-99 | when B's heading has a nonzero cosine and A and B differ in x, the corner's last x is not B's x |
| Paths.CornerOneSegmentQuarterTurn | src/path.py:82-99 | from (0,0,0) to (1,1,quarter) with a speed that allows one segment, the corner is exactly the two poses (0,0,quarter/2) and (1,1,quarter) |
| Paths.PathDefined | src/path.py:20-32 | the inputs on which `pre_calculate_path` raises no `ZeroDivisionError`: equal headings, or a defined corner from A to B |
| Paths.PreCalculatePath | src/path.py:20-32 | equal headings give `[X_1]`. Otherwise there is exactly one pose fewer than corner plus exit; the path starts at A's point (or at B when the corner is a single pose) and ends where the exit run ends |
| Paths.PathHeadings | src/path.py:20-32 | the heading turns monotonically from the start heading to the end heading along the whole path, and every pose from the junction on carries the end heading |
| Paths.PathReachesGoal | src/path.py:20-32 | the path ends at `X_1`, or within 0.001 of it after a corner |
| Paths.PathJunction | src/path.py:29-32 | at the junction B takes the place of the dropped last corner pose; the dropped pose carried B's heading, which is the end heading, and it had B's x exactly when A and B share their x or the end heading's cosine is zero |
| Paths.Path.constructor | src/path.py:10-17 | a `Path` keeps the start pose and holds the pre-computed path from the start to the end pose |

## Left out

- Floating-point arithmetic: coordinates, headings and the speed are exact reals, so no rounding is modelled.
- The true values of `math.cos`, `math.sin` and `math.sqrt`: they are parameters. Only the root law of `sqrt` is assumed; cosine and sine values appear as preconditions of the lemmas that need them.
- Exceptions: `generate_corner` raises `ZeroDivisionError` when the speed is 0 or the cosines of the sampled headings sum to 0. This becomes the precondition `CornerDefined` (and `PathDefined` for `pre_calculate_path` and the constructor). Python's `int()` also raises on a non-finite quotient, which exact reals cannot produce.
- `Path` subclasses `list`, but its constructor never fills that list. The model keeps only the two attributes the constructor sets.
- Dynamic typing: `Position` fields accept any Python value. The model fixes them to reals.
- `game.py` (window setup and drawing with the arcade library) and `test/commons.py` (approximate-equality helpers) are not part of this model.
- Python's default argument `speed = 1` of `interpolate` is not modelled: `Interpolation` and `Interpolate` always take the speed explicitly, and every caller in the program passes it.
- Paths.CornerClosesInX: covers x only. The corner's last y is not compared with B's y, because `L_segment` is solved against the x-displacement alone and no comparable condition in y follows.
- Paths.PathJunction: likewise compares the dropped corner pose with B in heading and x, not in y.
- Paths.PreCalculatePath: gives the path's length and end points in its contract. Which pose sits where follows from its body (`corner[:-1] + exit`) and is used by `PathHeadings` and `PathJunction` rather than restated.
