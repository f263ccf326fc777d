/**
 * The path generator: from a start pose, an end pose and a speed (the length
 * of one step) it pre-computes the poses an entity drives through. When the
 * headings differ the path is an arc-shaped corner between two tangent poses
 * followed by a straight exit run to the end pose.
 */
module Paths {
  import opened Numeric
  import opened Positions

  /** How far before and after the heading change the arc gives way to straight travel. */
  const CornerRadius: real := 3.0

  /** A straight walk that ends closer than this to its target does not append the target. */
  const Tolerance: real := 0.001

  // ---------------------------------------------------------------------------
  // interpolate: a straight walk in fixed steps
  // ---------------------------------------------------------------------------

  /**
   * `n_elements`: `int()` of the larger axis distance over the speed. The
   * distance is never negative, so the count takes the sign of the speed.
   */
  function StepCount(p0: Position, p1: Position, speed: real): (k: int)
    requires speed != 0.0
    ensures 0.0 < speed ==> 0 <= k
    ensures speed < 0.0 ==> k <= 0
  {
    var longest := Max(Abs(p1.x - p0.x), Abs(p1.y - p0.y));
    QuotientSign(longest, speed);
    Trunc(longest / speed)
  }

  /**
   * How many times the loop body runs: `range(n_elements)` is empty for a
   * non-positive `n_elements`. `StepCount` is the value the program computes
   * and compares against; this is the length of the walk it produces.
   */
  function WholeSteps(p0: Position, p1: Position, speed: real): (n: nat)
    requires speed != 0.0
    ensures 0.0 < speed ==> n == StepCount(p0, p1, speed)
    ensures speed < 0.0 ==> n == 0
  {
    var k := StepCount(p0, p1, speed);
    if k < 0 then 0 else k
  }

  /**
   * For a positive speed the walk takes the floor of the larger axis distance
   * over the speed in whole steps; for a negative speed it takes none.
   */
  lemma WholeStepsCount(p0: Position, p1: Position, speed: real)
    requires speed != 0.0
    ensures 0.0 < speed ==> WholeSteps(p0, p1, speed) == (Max(Abs(p1.x - p0.x), Abs(p1.y - p0.y)) / speed).Floor
    ensures speed < 0.0 ==> WholeSteps(p0, p1, speed) == 0
  {
    var longest := Max(Abs(p1.x - p0.x), Abs(p1.y - p0.y));
    if speed < 0.0 {
      assert longest / speed == -(longest / -speed);
    }
  }

  /** One step of the walk: advance by `speed` along `theta0`, and take heading `theta1`. */
  function Step(m: MathLib, p: Position, theta0: real, theta1: real, speed: real): (q: Position)
  {
    Position(p.x + speed * m.cos(theta0), p.y + speed * m.sin(theta0), theta1)
  }

  /**
   * When the heading's cosine and sine are those of a unit vector, one step
   * moves exactly the absolute speed and leaves the pose with heading `theta1`.
   */
  lemma StepLength(m: MathLib, p: Position, theta0: real, theta1: real, speed: real)
    requires SqrtLaws(m.sqrt)
    requires Square(m.cos(theta0)) + Square(m.sin(theta0)) == 1.0
    ensures Distance(m, p, Step(m, p, theta0, theta1, speed)) == Abs(speed)
    ensures Step(m, p, theta0, theta1, speed).theta == theta1
  {
    var c, s, a := m.cos(theta0), m.sin(theta0), Abs(speed);
    var q := Step(m, p, theta0, theta1, speed);
    assert q.x - p.x == speed * c && q.y - p.y == speed * s;
    calc {
      Square(speed * c) + Square(speed * s);
      speed * speed * (Square(c) + Square(s));
      a * a;
    }
    SqrtOfSquare(m.sqrt, a);
  }

  /** The pose `i` speeds out from `p0` along `p0`'s heading, carrying heading `theta1`. */
  function RayPose(m: MathLib, p0: Position, theta1: real, speed: real, i: nat): (q: Position)
  {
    Position(p0.x + i as real * (speed * m.cos(p0.theta)), p0.y + i as real * (speed * m.sin(p0.theta)), theta1)
  }

  /**
   * The start pose followed by the poses `n` steps reach, one `Step` after
   * another: the list `positions` after `n` turns of the loop.
   */
  function Walk(m: MathLib, p0: Position, theta1: real, speed: real, n: nat): (w: seq<Position>)
    ensures |w| == n + 1 && w[0] == p0
  {
    if n == 0 then [p0]
    else
      var w := Walk(m, p0, theta1, speed, n - 1);
      w + [Step(m, w[n - 1], p0.theta, theta1, speed)]
  }

  /** Each pose of the walk after the first is one `Step` from the pose before it. */
  lemma {:induction false} WalkStep(m: MathLib, p0: Position, theta1: real, speed: real, n: nat, i: nat)
    requires i < n
    ensures Walk(m, p0, theta1, speed, n)[i + 1] == Step(m, Walk(m, p0, theta1, speed, n)[i], p0.theta, theta1, speed)
  {
    if i + 1 < n {
      WalkStep(m, p0, theta1, speed, n - 1, i);
    }
  }

  /** The i-th pose of the walk lies `i` speeds out on the ray from `p0` along its heading. */
  lemma {:induction false} WalkOnRay(m: MathLib, p0: Position, theta1: real, speed: real, n: nat, i: nat)
    requires 0 < i <= n
    ensures Walk(m, p0, theta1, speed, n)[i] == RayPose(m, p0, theta1, speed, i)
  {
    if i < n {
      WalkOnRay(m, p0, theta1, speed, n - 1, i);
    } else if 1 < i {
      var prev := Walk(m, p0, theta1, speed, n - 1);
      WalkOnRay(m, p0, theta1, speed, n - 1, i - 1);
      var dx, dy := speed * m.cos(p0.theta), speed * m.sin(p0.theta);
      assert prev[i - 1] == RayPose(m, p0, theta1, speed, i - 1);
      assert Walk(m, p0, theta1, speed, n)[i] == Step(m, prev[i - 1], p0.theta, theta1, speed);
      OneMoreMultiple((i - 1) as real, dx);
      OneMoreMultiple((i - 1) as real, dy);
    }
  }

  /**
   * What `interpolate(p0, p1, speed)` returns. A zero speed gives the two end
   * poses. Otherwise the walk starts at `p0`, takes `WholeSteps` steps, and
   * `p1` itself is appended exactly when the last stepped pose is more than
   * the tolerance away from it.
   */
  function Interpolation(m: MathLib, p0: Position, p1: Position, speed: real): (r: seq<Position>)
    ensures speed == 0.0 ==> r == [p0, p1]
    ensures speed != 0.0 ==>
      var n := WholeSteps(p0, p1, speed);
      && (|r| == n + 1 || |r| == n + 2)
      && r[0] == p0
      && (|r| == n + 2 <==> Distance(m, p1, r[n]) > Tolerance)
      && (|r| == n + 2 ==> r[n + 1] == p1)
  {
    if speed == 0.0 then [p0, p1]
    else
      var n := WholeSteps(p0, p1, speed);
      var walk := Walk(m, p0, p1.theta, speed, n);
      if Distance(m, p1, walk[|walk| - 1]) > Tolerance then walk + [p1] else walk
  }

  /** `Path.interpolate`: grows the list by appending one stepped pose per iteration. */
  method Interpolate(m: MathLib, p0: Position, p1: Position, speed: real) returns (positions: seq<Position>)
    ensures positions == Interpolation(m, p0, p1, speed)
  {
    if speed == 0.0 {
      return [p0, p1];
    }
    var nElements := StepCount(p0, p1, speed);
    positions := [p0];
    var i := 0;
    while i < nElements
      invariant 0 <= i && (i <= nElements || i == 0)
      invariant positions == Walk(m, p0, p1.theta, speed, i)
    {
      var x0 := positions[i].x;
      var y0 := positions[i].y;
      var theta0 := p0.theta;
      var x1 := x0 + speed * m.cos(theta0);
      var y1 := y0 + speed * m.sin(theta0);
      var theta1 := p1.theta;
      var p := Position(x1, y1, theta1);
      assert p == Step(m, positions[i], p0.theta, p1.theta, speed);
      assert positions + [p] == Walk(m, p0, p1.theta, speed, i + 1);
      positions := positions + [p];
      i := i + 1;
    }
    assert i == WholeSteps(p0, p1, speed);
    if Distance(m, p1, positions[|positions| - 1]) > Tolerance {
      positions := positions + [p1];
    }
  }

  /**
   * Each stepped pose is the previous pose advanced by one speed along `p0`'s
   * heading, carrying `p1`'s heading.
   */
  lemma InterpolationStep(m: MathLib, p0: Position, p1: Position, speed: real, i: nat)
    requires speed != 0.0 && i < WholeSteps(p0, p1, speed)
    ensures var r := Interpolation(m, p0, p1, speed);
      r[i + 1] == Step(m, r[i], p0.theta, p1.theta, speed)
  {
    var n := WholeSteps(p0, p1, speed);
    WalkStep(m, p0, p1.theta, speed, n, i);
    assert Interpolation(m, p0, p1, speed)[..n + 1] == Walk(m, p0, p1.theta, speed, n);
  }

  /**
   * When the start heading's cosine and sine are those of a unit vector,
   * consecutive stepped poses are exactly the absolute speed apart.
   */
  lemma InterpolationStepLength(m: MathLib, p0: Position, p1: Position, speed: real, i: nat)
    requires SqrtLaws(m.sqrt)
    requires Square(m.cos(p0.theta)) + Square(m.sin(p0.theta)) == 1.0
    requires speed != 0.0 && i < WholeSteps(p0, p1, speed)
    ensures var r := Interpolation(m, p0, p1, speed);
      Distance(m, r[i], r[i + 1]) == Abs(speed)
  {
    var r := Interpolation(m, p0, p1, speed);
    InterpolationStep(m, p0, p1, speed, i);
    StepLength(m, r[i], p0.theta, p1.theta, speed);
  }

  /**
   * The i-th stepped pose lies `i` speeds out on the ray from `p0` along its
   * heading and carries `p1`'s heading.
   */
  lemma InterpolationOnRay(m: MathLib, p0: Position, p1: Position, speed: real, i: nat)
    requires speed != 0.0 && 0 < i <= WholeSteps(p0, p1, speed)
    ensures Interpolation(m, p0, p1, speed)[i] == RayPose(m, p0, p1.theta, speed, i)
  {
    var n := WholeSteps(p0, p1, speed);
    WalkOnRay(m, p0, p1.theta, speed, n, i);
    assert Interpolation(m, p0, p1, speed)[..n + 1] == Walk(m, p0, p1.theta, speed, n);
  }

  /** Every pose after the first carries the end pose's heading. */
  lemma InterpolationHeadings(m: MathLib, p0: Position, p1: Position, speed: real, i: nat)
    requires 0 < i < |Interpolation(m, p0, p1, speed)|
    ensures Interpolation(m, p0, p1, speed)[i].theta == p1.theta
  {
    if speed != 0.0 && i <= WholeSteps(p0, p1, speed) {
      InterpolationOnRay(m, p0, p1, speed, i);
    }
  }

  /**
   * With a nonzero speed the walk always finishes at the end pose or within
   * the tolerance of it; and it appends the end pose exactly when the squared
   * gap exceeds the squared tolerance.
   */
  lemma InterpolationReachesGoal(m: MathLib, p0: Position, p1: Position, speed: real)
    requires SqrtLaws(m.sqrt) && speed != 0.0
    ensures var r := Interpolation(m, p0, p1, speed);
      var n := WholeSteps(p0, p1, speed);
      && (r[|r| - 1] == p1 || Distance(m, p1, r[|r| - 1]) <= Tolerance)
      && (|r| == n + 2 <==> Square(r[n].x - p1.x) + Square(r[n].y - p1.y) > Tolerance * Tolerance)
  {
    var r := Interpolation(m, p0, p1, speed);
    var n := WholeSteps(p0, p1, speed);
    SqrtExceeds(m.sqrt, Square(r[n].x - p1.x) + Square(r[n].y - p1.y), Tolerance);
  }

  /** From (0, 0, 0) to (10, 0, 0) at speed 1: eleven poses, the i-th at (i, 0, 0). */
  lemma InterpolationUnitSpeed(m: MathLib)
    requires SqrtLaws(m.sqrt) && m.cos(0.0) == 1.0 && m.sin(0.0) == 0.0
    ensures var r := Interpolation(m, Position(0.0, 0.0, 0.0), Position(10.0, 0.0, 0.0), 1.0);
      && |r| == 11
      && forall i :: 0 <= i < 11 ==> r[i] == Position(i as real, 0.0, 0.0)
  {
    var p0, p1 := Position(0.0, 0.0, 0.0), Position(10.0, 0.0, 0.0);
    var r := Interpolation(m, p0, p1, 1.0);
    assert WholeSteps(p0, p1, 1.0) == 10;
    forall i | 0 < i <= 10 ensures r[i] == Position(i as real, 0.0, 0.0) {
      InterpolationOnRay(m, p0, p1, 1.0, i);
    }
    assert Square(r[10].x - p1.x) + Square(r[10].y - p1.y) == 0.0 * 0.0;
    SqrtOfSquare(m.sqrt, 0.0);
  }

  /**
   * From (10, 0) to (0, 0) on a heading whose cosine is -1 (pi), at speed 1:
   * eleven poses counting down, the i-th at (10 - i, 0).
   */
  lemma InterpolationBackwards(m: MathLib, heading: real)
    requires SqrtLaws(m.sqrt) && m.cos(heading) == -1.0 && m.sin(heading) == 0.0
    ensures var r := Interpolation(m, Position(10.0, 0.0, heading), Position(0.0, 0.0, heading), 1.0);
      && |r| == 11
      && forall i :: 0 <= i < 11 ==> r[i] == Position(10.0 - i as real, 0.0, heading)
  {
    var p0, p1 := Position(10.0, 0.0, heading), Position(0.0, 0.0, heading);
    var r := Interpolation(m, p0, p1, 1.0);
    assert WholeSteps(p0, p1, 1.0) == 10;
    forall i | 0 < i <= 10 ensures r[i] == Position(10.0 - i as real, 0.0, heading) {
      InterpolationOnRay(m, p0, p1, 1.0, i);
    }
    assert Square(r[10].x - p1.x) + Square(r[10].y - p1.y) == 0.0 * 0.0;
    SqrtOfSquare(m.sqrt, 0.0);
  }

  /**
   * From (0, 0, 0) to (10, 0, 0) at speed 1.5: six steps reach (9, 0, 0),
   * which is a whole unit short, so (10, 0, 0) is appended: eight poses.
   */
  lemma InterpolationFractionalSpeed(m: MathLib)
    requires SqrtLaws(m.sqrt) && m.cos(0.0) == 1.0 && m.sin(0.0) == 0.0
    ensures var r := Interpolation(m, Position(0.0, 0.0, 0.0), Position(10.0, 0.0, 0.0), 1.5);
      && |r| == 8
      && r[1] == Position(1.5, 0.0, 0.0)
      && r[6] == Position(9.0, 0.0, 0.0)
      && r[7] == Position(10.0, 0.0, 0.0)
  {
    var p0, p1 := Position(0.0, 0.0, 0.0), Position(10.0, 0.0, 0.0);
    var r := Interpolation(m, p0, p1, 1.5);
    assert WholeSteps(p0, p1, 1.5) == 6;
    InterpolationOnRay(m, p0, p1, 1.5, 1);
    InterpolationOnRay(m, p0, p1, 1.5, 6);
    assert Square(r[6].x - p1.x) + Square(r[6].y - p1.y) == 1.0 * 1.0;
    SqrtOfSquare(m.sqrt, 1.0);
  }

  // ---------------------------------------------------------------------------
  // calculate_AB: the tangent poses that bound the corner
  // ---------------------------------------------------------------------------

  /**
   * `Path.calculate_AB`: the end pose alone when the headings agree; otherwise
   * the tangent pose A on the start heading and B on the end heading.
   */
  function TangentPoints(m: MathLib, p0: Position, p1: Position): (ab: seq<Position>)
    ensures |ab| == 1 || |ab| == 2
    ensures |ab| == 1 <==> p0.theta == p1.theta
    ensures |ab| == 1 ==> ab[0] == p1
    ensures |ab| == 2 ==> ab[0].theta == p0.theta && ab[1].theta == p1.theta
  {
    if p0.theta == p1.theta then [p1]
    else
      var a := Position(p0.x + (Abs(p1.x - p0.x) - CornerRadius) * m.cos(p0.theta),
                        p0.y + (Abs(p1.y - p0.y) - CornerRadius) * m.sin(p0.theta),
                        p0.theta);
      var b := Position(p1.x + (CornerRadius - Abs(p1.x - p0.x)) * m.cos(p1.theta),
                        p1.y + (CornerRadius - Abs(p1.y - p0.y)) * m.sin(p1.theta),
                        p1.theta);
      [a, b]
  }

  /**
   * A right-angle turn that starts along the x axis (direction `s0`, +1 or -1)
   * and ends along the y axis (direction `s1`), with the end pose ahead on both
   * legs. The legs meet at the corner point (p1.x, p0.y): A lies one corner
   * radius before it on the first leg and B one corner radius after it on the
   * second. Left and right turns are both covered.
   */
  lemma TangentPointsFromXAxis(m: MathLib, p0: Position, p1: Position, s0: real, s1: real)
    requires p0.theta != p1.theta
    requires (s0 == 1.0 || s0 == -1.0) && (s1 == 1.0 || s1 == -1.0)
    requires m.cos(p0.theta) == s0 && m.sin(p0.theta) == 0.0
    requires m.cos(p1.theta) == 0.0 && m.sin(p1.theta) == s1
    requires 0.0 <= s0 * (p1.x - p0.x) && 0.0 <= s1 * (p1.y - p0.y)
    ensures TangentPoints(m, p0, p1)
      == [Position(p1.x - CornerRadius * s0, p0.y, p0.theta), Position(p1.x, p0.y + CornerRadius * s1, p1.theta)]
  {
  }

  /**
   * The mirrored family: the turn starts along the y axis (direction `s0`) and
   * ends along the x axis (direction `s1`), with the end pose ahead on both
   * legs. The corner point is (p0.x, p1.y); A lies one corner radius before it
   * and B one corner radius after it. Heading down and then left, as a vehicle
   * does on a down-left turn, is `s0 == s1 == -1`.
   */
  lemma TangentPointsFromYAxis(m: MathLib, p0: Position, p1: Position, s0: real, s1: real)
    requires p0.theta != p1.theta
    requires (s0 == 1.0 || s0 == -1.0) && (s1 == 1.0 || s1 == -1.0)
    requires m.cos(p0.theta) == 0.0 && m.sin(p0.theta) == s0
    requires m.cos(p1.theta) == s1 && m.sin(p1.theta) == 0.0
    requires 0.0 <= s0 * (p1.y - p0.y) && 0.0 <= s1 * (p1.x - p0.x)
    ensures TangentPoints(m, p0, p1)
      == [Position(p0.x, p1.y - CornerRadius * s0, p0.theta), Position(p0.x + CornerRadius * s1, p1.y, p1.theta)]
  {
  }

  /**
   * The end pose lies behind the start on a first leg along the x axis
   * (direction `s0`). A then sits `s0 * (2 * |dx| - CornerRadius)` from the
   * corner point (p1.x, p0.y). So A is past the corner point exactly when the
   * end lies more than half a corner radius behind, and short of it when the
   * end lies less than half a corner radius behind.
   */
  lemma TangentPointsEndBehind(m: MathLib, p0: Position, p1: Position, s0: real)
    requires p0.theta != p1.theta
    requires s0 == 1.0 || s0 == -1.0
    requires m.cos(p0.theta) == s0 && m.sin(p0.theta) == 0.0
    requires s0 * (p1.x - p0.x) < 0.0
    ensures TangentPoints(m, p0, p1)[0]
      == Position(p1.x + s0 * (2.0 * Abs(p1.x - p0.x) - CornerRadius), p0.y, p0.theta)
    ensures 0.0 < s0 * (TangentPoints(m, p0, p1)[0].x - p1.x) <==> CornerRadius / 2.0 < Abs(p1.x - p0.x)
  {
    if s0 == 1.0 {
      assert Abs(p1.x - p0.x) == p0.x - p1.x;
    } else {
      assert Abs(p1.x - p0.x) == p1.x - p0.x;
    }
  }

  /**
   * From (10, 0) heading along +x to (0, 10) heading along +y, ten units
   * behind: A is at (17, 0), seventeen units past the corner point (0, 0)
   * and seven past the start.
   */
  lemma TangentPointsEndFarBehind(m: MathLib, theta1: real)
    requires theta1 != 0.0
    requires m.cos(0.0) == 1.0 && m.sin(0.0) == 0.0
    requires m.cos(theta1) == 0.0 && m.sin(theta1) == 1.0
    ensures TangentPoints(m, Position(10.0, 0.0, 0.0), Position(0.0, 10.0, theta1))
      == [Position(17.0, 0.0, 0.0), Position(0.0, 3.0, theta1)]
  {
  }

  /**
   * From (10, 0) heading along +x to (9, 10) heading along +y, one unit
   * behind: A is at (8, 0), one unit short of the corner point (9, 0).
   */
  lemma TangentPointsEndSlightlyBehind(m: MathLib, theta1: real)
    requires theta1 != 0.0
    requires m.cos(0.0) == 1.0 && m.sin(0.0) == 0.0
    requires m.cos(theta1) == 0.0 && m.sin(theta1) == 1.0
    ensures TangentPoints(m, Position(10.0, 0.0, 0.0), Position(9.0, 10.0, theta1))
      == [Position(8.0, 0.0, 0.0), Position(9.0, 3.0, theta1)]
  {
  }

  // ---------------------------------------------------------------------------
  // generate_corner: a polyline approximation of the arc from A to B
  // ---------------------------------------------------------------------------

  /**
   * `n_segments`: the arc length (turn angle times x-displacement) over the
   * speed, rounded up. At a positive speed it is never negative, and it is
   * zero exactly when the arc length is zero (no turn, or no x-displacement).
   */
  function CornerSegments(pa: Position, pb: Position, speed: real): (c: int)
    requires speed != 0.0
    ensures 0.0 < speed ==> 0 <= c
    ensures 0.0 < speed ==> (c == 0 <==> pa.theta == pb.theta || pa.x == pb.x)
    ensures speed < 0.0 ==> c <= 0
  {
    var arc := Abs(pb.theta - pa.theta) * Abs(pb.x - pa.x);
    ProductNonNegative(Abs(pb.theta - pa.theta), Abs(pb.x - pa.x));
    ProductZero(Abs(pb.theta - pa.theta), Abs(pb.x - pa.x));
    QuotientSign(arc, speed);
    QuotientZero(arc, speed);
    Ceil(arc / speed)
  }

  /**
   * The sampled headings `thetas`: `nPositions` of them, evenly spaced, the
   * last one exactly `pb`'s heading. The first sample is already one step
   * past `pa`'s heading.
   */
  function Headings(pa: Position, pb: Position, nPositions: int): (h: seq<real>)
    ensures |h| == if nPositions <= 0 then 0 else nPositions
    ensures 0 < nPositions ==> h[nPositions - 1] == pb.theta
  {
    if nPositions <= 0 then []
    else
      var step := (pb.theta - pa.theta) / nPositions as real;
      assert step * nPositions as real == pb.theta - pa.theta;
      seq(nPositions, i requires 0 <= i < nPositions => pa.theta + step * (i + 1) as real)
  }

  /**
   * Consecutive sampled headings are one step of `(pb.theta - pa.theta) / nPositions`
   * apart, and the first is one such step past `pa`'s heading.
   */
  lemma HeadingsEvenlySpaced(pa: Position, pb: Position, nPositions: int, i: nat)
    requires i < |Headings(pa, pb, nPositions)|
    ensures var h := Headings(pa, pb, nPositions);
      var step := (pb.theta - pa.theta) / nPositions as real;
      && (i == 0 ==> h[0] - pa.theta == step)
      && (0 < i ==> h[i] - h[i - 1] == step)
  {
  }

  /** The sampled headings strictly increase on a left turn and strictly decrease on a right turn. */
  lemma HeadingsMonotone(pa: Position, pb: Position, nPositions: int, i: nat, j: nat)
    requires i < j < |Headings(pa, pb, nPositions)|
    ensures var h := Headings(pa, pb, nPositions);
      && (pa.theta < pb.theta ==> h[i] < h[j])
      && (pb.theta < pa.theta ==> h[j] < h[i])
  {
    var h := Headings(pa, pb, nPositions);
    var step := (pb.theta - pa.theta) / nPositions as real;
    assert h[j] - h[i] == step * (j - i) as real;
    if pa.theta < pb.theta {
      ProductPositive(step, (j - i) as real);
    } else if pb.theta < pa.theta {
      ProductPositive(-step, (j - i) as real);
    }
  }

  /**
   * Every sampled heading lies past `pa`'s heading and no further than `pb`'s,
   * in the direction of the turn.
   */
  lemma HeadingsWithinTurn(pa: Position, pb: Position, nPositions: int, i: nat)
    requires i < |Headings(pa, pb, nPositions)|
    ensures var h := Headings(pa, pb, nPositions);
      && (pa.theta < pb.theta ==> pa.theta < h[i] <= pb.theta)
      && (pb.theta < pa.theta ==> pb.theta <= h[i] < pa.theta)
  {
    var h := Headings(pa, pb, nPositions);
    var step := (pb.theta - pa.theta) / nPositions as real;
    assert step * nPositions as real == pb.theta - pa.theta;
    assert h[i] - pa.theta == step * (i + 1) as real;
    if i + 1 < nPositions {
      HeadingsMonotone(pa, pb, nPositions, i, nPositions - 1);
    }
    if pa.theta < pb.theta {
      if step < 0.0 {
        ProductPositive(-step, nPositions as real);
      }
      ProductPositive(step, (i + 1) as real);
    } else if pb.theta < pa.theta {
      if 0.0 < step {
        ProductPositive(step, nPositions as real);
      }
      ProductPositive(-step, (i + 1) as real);
    }
  }

  /** The headings of the corner, for `CornerSegments + 1` positions. */
  function CornerHeadings(pa: Position, pb: Position, speed: real): (h: seq<real>)
    requires speed != 0.0
    ensures 0.0 < speed ==> |h| == CornerSegments(pa, pb, speed) + 1 && h[|h| - 1] == pb.theta
    ensures speed < 0.0 ==> |h| <= 1
  {
    Headings(pa, pb, CornerSegments(pa, pb, speed) + 1)
  }

  /** `generate_corner` divides by the speed and by the cosine sum: both must be nonzero. */
  predicate CornerDefined(m: MathLib, pa: Position, pb: Position, speed: real)
  {
    speed != 0.0 && SumOf(m.cos, CornerHeadings(pa, pb, speed)) != 0.0
  }

  /**
   * At a positive speed, a corner whose sampled headings all have a positive
   * cosine (a turn that stays within the right half-plane of headings) never
   * divides by zero.
   */
  lemma CornerDefinedWhenCosinesPositive(m: MathLib, pa: Position, pb: Position, speed: real)
    requires 0.0 < speed
    requires forall i :: 0 <= i < |CornerHeadings(pa, pb, speed)| ==> 0.0 < m.cos(CornerHeadings(pa, pb, speed)[i])
    ensures CornerDefined(m, pa, pb, speed)
  {
    SumOfPositive(m.cos, CornerHeadings(pa, pb, speed));
  }

  /** A defined corner has at least one sampled heading, so `n_segments` is not negative. */
  lemma CornerHasHeadings(m: MathLib, pa: Position, pb: Position, speed: real)
    requires CornerDefined(m, pa, pb, speed)
    ensures 0 <= CornerSegments(pa, pb, speed)
    ensures |CornerHeadings(pa, pb, speed)| == CornerSegments(pa, pb, speed) + 1
  {
  }

  /**
   * `L_segment`: the common length of the corner's segments, solved so that
   * that length times the cosine sum of all sampled headings is the
   * x-displacement from A to B.
   */
  function SegmentLength(m: MathLib, pa: Position, pb: Position, speed: real): (l: real)
    requires CornerDefined(m, pa, pb, speed)
    ensures l * SumOf(m.cos, CornerHeadings(pa, pb, speed)) == pb.x - pa.x
  {
    (pb.x - pa.x) / SumOf(m.cos, CornerHeadings(pa, pb, speed))
  }

  /**
   * The running coordinate list `[x0]` grown by `n` appends, the i-th append
   * adding `l * f(ts[i])` to the previous entry.
   */
  function Accumulated(x0: real, l: real, f: real -> real, ts: seq<real>, n: nat): (xs: seq<real>)
    requires n <= |ts|
    ensures |xs| == n + 1 && xs[0] == x0
  {
    if n == 0 then [x0]
    else
      var xs := Accumulated(x0, l, f, ts, n - 1);
      xs + [xs[n - 1] + l * f(ts[n - 1])]
  }

  /** One more append extends the running list by the last entry plus `l` times the next term. */
  lemma AccumulatedAppend(x0: real, l: real, f: real -> real, ts: seq<real>, n: nat)
    requires n < |ts|
    ensures Accumulated(x0, l, f, ts, n + 1)
      == Accumulated(x0, l, f, ts, n) + [Accumulated(x0, l, f, ts, n)[n] + l * f(ts[n])]
  {
  }

  /** Each running coordinate after the first is the one before it plus `l` times its term. */
  lemma {:induction false} AccumulatedStep(x0: real, l: real, f: real -> real, ts: seq<real>, n: nat, i: nat)
    requires n <= |ts| && i < n
    ensures Accumulated(x0, l, f, ts, n)[i + 1] == Accumulated(x0, l, f, ts, n)[i] + l * f(ts[i])
  {
    if i + 1 < n {
      AccumulatedStep(x0, l, f, ts, n - 1, i);
    }
  }

  /** The k-th running coordinate is the start moved by `l` times the sum of the first k terms. */
  lemma {:induction false} AccumulatedSum(x0: real, l: real, f: real -> real, ts: seq<real>, n: nat, k: nat)
    requires n <= |ts| && k <= n
    ensures Accumulated(x0, l, f, ts, n)[k] == x0 + l * SumOf(f, ts[..k])
  {
    if k == 0 {
      assert ts[..0] == [];
    } else {
      AccumulatedSum(x0, l, f, ts, n, k - 1);
      AccumulatedStep(x0, l, f, ts, n, k - 1);
      SumOfPrefix(f, ts, k - 1);
      Distribute(l, SumOf(f, ts[..k - 1]), f(ts[k - 1]));
    }
  }

  /**
   * What `generate_corner(pa, pb, speed)` returns: `n_segments + 1` poses,
   * the first at `pa`'s point, each next one a segment length further along
   * the previous pose's sampled heading, the last carrying `pb`'s heading.
   */
  function Corner(m: MathLib, pa: Position, pb: Position, speed: real): (r: seq<Position>)
    requires CornerDefined(m, pa, pb, speed)
    ensures |r| == CornerSegments(pa, pb, speed) + 1 && 0 <= CornerSegments(pa, pb, speed)
    ensures r[0].x == pa.x && r[0].y == pa.y
    ensures forall i :: 0 <= i < |r| ==> r[i].theta == CornerHeadings(pa, pb, speed)[i]
    ensures r[|r| - 1].theta == pb.theta
  {
    CornerHasHeadings(m, pa, pb, speed);
    var nSegments := CornerSegments(pa, pb, speed);
    var thetas := CornerHeadings(pa, pb, speed);
    var l := SegmentLength(m, pa, pb, speed);
    var xs := Accumulated(pa.x, l, m.cos, thetas, nSegments);
    var ys := Accumulated(pa.y, l, m.sin, thetas, nSegments);
    seq(nSegments + 1, i requires 0 <= i <= nSegments => Position(xs[i], ys[i], thetas[i]))
  }

  /**
   * Each corner pose after the first is the one before it moved one segment
   * length along the earlier pose's sampled heading.
   */
  lemma CornerStep(m: MathLib, pa: Position, pb: Position, speed: real, i: nat)
    requires CornerDefined(m, pa, pb, speed) && i + 1 < |Corner(m, pa, pb, speed)|
    ensures var r := Corner(m, pa, pb, speed);
      && r[i + 1].x == r[i].x + SegmentLength(m, pa, pb, speed) * m.cos(r[i].theta)
      && r[i + 1].y == r[i].y + SegmentLength(m, pa, pb, speed) * m.sin(r[i].theta)
  {
    var n := CornerSegments(pa, pb, speed);
    var thetas := CornerHeadings(pa, pb, speed);
    var l := SegmentLength(m, pa, pb, speed);
    AccumulatedStep(pa.x, l, m.cos, thetas, n, i);
    AccumulatedStep(pa.y, l, m.sin, thetas, n, i);
  }

  /**
   * One of `generate_corner`'s two coordinate loops: starting from `[start]`,
   * append the last entry plus `l` times `f` of the next heading, `n` times.
   */
  method AccumulateAlong(start: real, l: real, f: real -> real, ts: seq<real>, n: nat) returns (xs: seq<real>)
    requires n <= |ts|
    ensures xs == Accumulated(start, l, f, ts, n)
  {
    xs := [start];
    var i := 0;
    while i < n
      invariant 0 <= i <= n
      invariant xs == Accumulated(start, l, f, ts, i)
    {
      AccumulatedAppend(start, l, f, ts, i);
      xs := xs + [xs[i] + l * f(ts[i])];
      i := i + 1;
    }
  }

  /**
   * `Path.generate_corner`: the x and y coordinates are accumulated in two
   * lists, one append per segment, and then zipped with the sampled headings.
   */
  method GenerateCorner(m: MathLib, pa: Position, pb: Position, speed: real) returns (corner: seq<Position>)
    requires CornerDefined(m, pa, pb, speed)
    ensures corner == Corner(m, pa, pb, speed)
  {
    var nSegments := CornerSegments(pa, pb, speed);
    var nPositions := nSegments + 1;
    var thetas := Headings(pa, pb, nPositions);
    var segmentLength := SegmentLength(m, pa, pb, speed);
    CornerHasHeadings(m, pa, pb, speed);

    var xs := AccumulateAlong(pa.x, segmentLength, m.cos, thetas, nSegments);
    var ys := AccumulateAlong(pa.y, segmentLength, m.sin, thetas, nSegments);
    corner := seq(nPositions, j requires 0 <= j < nPositions => Position(xs[j], ys[j], thetas[j]));
  }

  /** The corner's headings strictly increase on a left turn and strictly decrease on a right turn. */
  lemma CornerHeadingsMonotone(m: MathLib, pa: Position, pb: Position, speed: real, i: nat, j: nat)
    requires CornerDefined(m, pa, pb, speed)
    requires i < j < |Corner(m, pa, pb, speed)|
    ensures var r := Corner(m, pa, pb, speed);
      && (pa.theta < pb.theta ==> r[i].theta < r[j].theta)
      && (pb.theta < pa.theta ==> r[j].theta < r[i].theta)
  {
    HeadingsMonotone(pa, pb, CornerSegments(pa, pb, speed) + 1, i, j);
  }

  /**
   * The corner closes in x, its last pose landing on `pb.x`, exactly when
   * there is no x-displacement or the cosine of `pb`'s heading is zero (a turn
   * onto the y axis, say): `L_segment` is solved against all sampled headings,
   * while only the first `n_segments` of them are stepped along.
   */
  lemma CornerClosesInX(m: MathLib, pa: Position, pb: Position, speed: real)
    requires CornerDefined(m, pa, pb, speed)
    ensures var r := Corner(m, pa, pb, speed);
      r[|r| - 1].x == pb.x <==> pa.x == pb.x || m.cos(pb.theta) == 0.0
  {
    CornerLastX(m, pa, pb, speed);
    AccumulatedCloses(pa.x, pb.x, SegmentLength(m, pa, pb, speed), m.cos,
                      CornerHeadings(pa, pb, speed), CornerSegments(pa, pb, speed), m.cos(pb.theta));
  }

  /**
   * A turn that ends off the y axis with some x-displacement never lands on
   * `pb.x`: heading down from (0, 0) and then left towards (123, 123), say,
   * the last heading's cosine is -1 and the corner misses B in x.
   */
  lemma CornerMissesXOffYAxis(m: MathLib, pa: Position, pb: Position, speed: real)
    requires CornerDefined(m, pa, pb, speed)
    requires pa.x != pb.x && m.cos(pb.theta) != 0.0
    ensures var r := Corner(m, pa, pb, speed);
      r[|r| - 1].x != pb.x
  {
    CornerClosesInX(m, pa, pb, speed);
  }

  /** The corner's last x is the last running x, and the heading left out of the steps is `pb`'s. */
  lemma CornerLastX(m: MathLib, pa: Position, pb: Position, speed: real)
    requires CornerDefined(m, pa, pb, speed)
    ensures var r := Corner(m, pa, pb, speed);
      var n := CornerSegments(pa, pb, speed);
      var thetas := CornerHeadings(pa, pb, speed);
      && |r| == n + 1 && |thetas| == n + 1
      && r[n].x == Accumulated(pa.x, SegmentLength(m, pa, pb, speed), m.cos, thetas, n)[n]
      && thetas[n] == pb.theta
  {
    CornerHasHeadings(m, pa, pb, speed);
  }

  /**
   * Running `n` steps over `n + 1` terms with `l` solved against all of them
   * lands on the target exactly when there is no displacement or the term
   * left out, `c`, is zero.
   */
  lemma AccumulatedCloses(x0: real, xb: real, l: real, f: real -> real, ts: seq<real>, n: nat, c: real)
    requires |ts| == n + 1 && SumOf(f, ts) != 0.0 && l * SumOf(f, ts) == xb - x0
    requires c == f(ts[n])
    ensures Accumulated(x0, l, f, ts, n)[n] == xb <==> x0 == xb || c == 0.0
  {
    AccumulatedSum(x0, l, f, ts, n, n);
    SumOfPrefix(f, ts, n);
    assert ts[..n + 1] == ts;
    ClosingGap(x0, xb, l, SumOf(f, ts), SumOf(f, ts[..n]), c);
    ProductZero(xb - x0, c);
  }

  /**
   * The arithmetic behind `CornerClosesInX`: with `l` solved so that `l`
   * times the full sum `s + c` is the displacement, stopping after `s` lands
   * on the target exactly when the displacement times `c` is zero.
   */
  lemma ClosingGap(xa: real, xb: real, l: real, t: real, s: real, c: real)
    requires t == s + c && t != 0.0 && l * t == xb - xa
    ensures xa + l * s == xb <==> (xb - xa) * c == 0.0
  {
    Distribute(l, s, c);
    assert xa + l * s == xb - l * c;
    assert l * c * (s + c) == (xb - xa) * c;
  }

  /** A positive quotient of a number by a larger one is at most one. */
  lemma QuotientAtMostOne(q: real, d: real)
    requires 0.0 < q <= d
    ensures 0.0 < q / d <= 1.0
  {
    var r := q / d;
    assert r * d == q;
    if r > 1.0 {
      ProductPositive(r - 1.0, d);
    } else if r <= 0.0 {
      ProductPositive(-r + 1.0, d);
    }
  }

  /**
   * A quarter turn from (0, 0) heading east to (1, 1) heading north, at a
   * speed that allows one segment: two poses, (0, 0) on the bisecting
   * heading and then exactly (1, 1) on the northern heading.
   */
  lemma CornerOneSegmentQuarterTurn(m: MathLib, quarter: real, speed: real)
    requires 0.0 < quarter <= speed
    requires m.cos(quarter) == 0.0 && m.sin(quarter) == 1.0
    requires m.cos(quarter / 2.0) == m.sin(quarter / 2.0) != 0.0
    ensures CornerDefined(m, Position(0.0, 0.0, 0.0), Position(1.0, 1.0, quarter), speed)
    ensures Corner(m, Position(0.0, 0.0, 0.0), Position(1.0, 1.0, quarter), speed)
      == [Position(0.0, 0.0, quarter / 2.0), Position(1.0, 1.0, quarter)]
  {
    var pa, pb := Position(0.0, 0.0, 0.0), Position(1.0, 1.0, quarter);
    QuotientAtMostOne(quarter, speed);
    assert Abs(pb.theta - pa.theta) * Abs(pb.x - pa.x) / speed == quarter / speed;
    assert CornerSegments(pa, pb, speed) == 1;
    var h := CornerHeadings(pa, pb, speed);
    assert h == [quarter / 2.0, quarter];
    SumOfPrefix(m.cos, h, 0);
    SumOfPrefix(m.cos, h, 1);
    assert h[..0] == [] && h[..2] == h;
    assert SumOf(m.cos, h) == m.cos(quarter / 2.0);
    var l := SegmentLength(m, pa, pb, speed);
    assert l * m.cos(quarter / 2.0) == 1.0;
    CornerStep(m, pa, pb, speed, 0);
    var r := Corner(m, pa, pb, speed);
    assert r[1].x == 1.0 && r[1].y == 1.0;
    assert r[0] == Position(0.0, 0.0, quarter / 2.0);
  }

  // ---------------------------------------------------------------------------
  // pre_calculate_path: corner, then the straight exit run
  // ---------------------------------------------------------------------------

  /** The inputs for which `pre_calculate_path` does not divide by zero. */
  predicate PathDefined(m: MathLib, p0: Position, p1: Position, speed: real)
  {
    p0.theta != p1.theta ==>
      var ab := TangentPoints(m, p0, p1);
      CornerDefined(m, ab[0], ab[1], speed)
  }

  /**
   * `Path.pre_calculate_path`: the end pose alone when the headings agree;
   * otherwise the corner from A to B without its last pose, followed by the
   * straight run from B to the end pose. Exactly one pose is dropped at the
   * junction, the path starts at A's point (or at B when the corner has one
   * pose) and ends where the exit run ends.
   */
  function PreCalculatePath(m: MathLib, p0: Position, p1: Position, speed: real): (r: seq<Position>)
    requires PathDefined(m, p0, p1, speed)
    ensures p0.theta == p1.theta ==> r == [p1]
    ensures p0.theta != p1.theta ==>
      var ab := TangentPoints(m, p0, p1);
      var corner := Corner(m, ab[0], ab[1], speed);
      var exit := Interpolation(m, ab[1], p1, speed);
      && |r| == |corner| - 1 + |exit|
      && (1 < |corner| ==> r[0].x == ab[0].x && r[0].y == ab[0].y)
      && (|corner| == 1 ==> r[0] == ab[1])
      && r[|r| - 1] == exit[|exit| - 1]
  {
    var ab := TangentPoints(m, p0, p1);
    var a := ab[0];
    if |ab| == 1 then [a]
    else
      var b := ab[1];
      var corner := Corner(m, a, b, speed);
      var exit := Interpolation(m, b, p1, speed);
      corner[..|corner| - 1] + exit
  }

  /**
   * Along the pre-computed path the heading turns monotonically from the start
   * heading toward the end heading: every heading lies past the start heading
   * and no further than the end heading, headings never turn back, and from
   * the junction with the exit run on every pose carries the end heading.
   */
  lemma PathHeadings(m: MathLib, p0: Position, p1: Position, speed: real, i: nat, j: nat)
    requires p0.theta != p1.theta && PathDefined(m, p0, p1, speed)
    requires i <= j < |PreCalculatePath(m, p0, p1, speed)|
    ensures var ab := TangentPoints(m, p0, p1);
      var corner := Corner(m, ab[0], ab[1], speed);
      var r := PreCalculatePath(m, p0, p1, speed);
      && (|corner| - 1 <= j ==> r[j].theta == p1.theta)
      && (p0.theta < p1.theta ==> p0.theta < r[i].theta <= r[j].theta <= p1.theta)
      && (p1.theta < p0.theta ==> p1.theta <= r[j].theta <= r[i].theta < p0.theta)
  {
    var ab := TangentPoints(m, p0, p1);
    var a, b := ab[0], ab[1];
    var corner := Corner(m, a, b, speed);
    var exit := Interpolation(m, b, p1, speed);
    var r := PreCalculatePath(m, p0, p1, speed);
    var k := |corner| - 1;
    var n := CornerSegments(a, b, speed) + 1;
    assert r == corner[..k] + exit;
    forall t | 0 <= t < |r| ensures (t < k ==> r[t] == corner[t]) && (k <= t ==> r[t] == exit[t - k]) {
    }
    forall t | 0 <= t < |r| && k <= t ensures r[t].theta == p1.theta {
      if k < t {
        InterpolationHeadings(m, b, p1, speed, t - k);
      }
    }
    if i < k {
      HeadingsWithinTurn(a, b, n, i);
    }
    if j < k {
      HeadingsWithinTurn(a, b, n, j);
      if i < j {
        HeadingsMonotone(a, b, n, i, j);
      }
    }
  }

  /**
   * Whatever the headings, the pre-computed path ends at the end pose, or
   * (after a corner) within the tolerance of it.
   */
  lemma PathReachesGoal(m: MathLib, p0: Position, p1: Position, speed: real)
    requires SqrtLaws(m.sqrt) && PathDefined(m, p0, p1, speed)
    ensures var r := PreCalculatePath(m, p0, p1, speed);
      r[|r| - 1] == p1 || Distance(m, p1, r[|r| - 1]) <= Tolerance
  {
    if p0.theta != p1.theta {
      var ab := TangentPoints(m, p0, p1);
      InterpolationReachesGoal(m, ab[1], p1, speed);
    }
  }

  /**
   * At the junction the corner's last pose is dropped and B, the first pose
   * of the exit run, takes its place. The dropped pose carried B's heading,
   * and it had B's x exactly when A and B share their x or the end heading's
   * cosine is zero.
   */
  lemma PathJunction(m: MathLib, p0: Position, p1: Position, speed: real)
    requires p0.theta != p1.theta && PathDefined(m, p0, p1, speed)
    ensures var ab := TangentPoints(m, p0, p1);
      var corner := Corner(m, ab[0], ab[1], speed);
      var r := PreCalculatePath(m, p0, p1, speed);
      && r[|corner| - 1] == ab[1]
      && corner[|corner| - 1].theta == ab[1].theta == p1.theta
      && (corner[|corner| - 1].x == ab[1].x <==> ab[0].x == ab[1].x || m.cos(p1.theta) == 0.0)
  {
    var ab := TangentPoints(m, p0, p1);
    var a, b := ab[0], ab[1];
    var corner := Corner(m, a, b, speed);
    var exit := Interpolation(m, b, p1, speed);
    var k := |corner| - 1;
    assert PreCalculatePath(m, p0, p1, speed) == corner[..k] + exit;
    assert exit[0] == b;
    CornerClosesInX(m, a, b, speed);
  }

  /** A `Path` keeps its start pose and the pre-computed poses from start to end. */
  class Path {
    var start: Position
    var preCalculatedPath: seq<Position>

    constructor (m: MathLib, p0: Position, p1: Position, speed: real)
      requires PathDefined(m, p0, p1, speed)
      ensures start == p0
      ensures preCalculatedPath == PreCalculatePath(m, p0, p1, speed)
    {
      start := p0;
      preCalculatedPath := PreCalculatePath(m, p0, p1, speed);
    }
  }
}
