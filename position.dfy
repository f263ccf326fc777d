/**
 * A pose of the moving entity: a point in the plane and a heading in
 * radians (no range is enforced). Poses are plain values; the `-` operator
 * on two poses gives the Euclidean distance between their points.
 */
module Positions {
  import opened Numeric

  /** `Position(x, y, theta)`: the constructor stores its three arguments as they are. */
  datatype Position = Position(x: real, y: real, theta: real)

  /** `p - other`: the Euclidean distance between the two points; headings play no part. */
  function Distance(m: MathLib, p: Position, other: Position): (d: real)
    ensures SqrtLaws(m.sqrt) ==> 0.0 <= d && d * d == Square(other.x - p.x) + Square(other.y - p.y)
  {
    m.sqrt(Square(other.x - p.x) + Square(other.y - p.y))
  }

  /** The distance depends on the two points only: changing either heading leaves it unchanged. */
  lemma DistanceIgnoresHeading(m: MathLib, p: Position, other: Position, theta: real, theta': real)
    ensures Distance(m, p.(theta := theta), other.(theta := theta')) == Distance(m, p, other)
  {
  }

  /** `p - other == other - p`. */
  lemma DistanceSymmetric(m: MathLib, p: Position, other: Position)
    ensures Distance(m, p, other) == Distance(m, other, p)
  {
    assert Square(other.x - p.x) == Square(p.x - other.x);
    assert Square(other.y - p.y) == Square(p.y - other.y);
  }

  /** Two poses are at distance zero exactly when their points coincide. */
  lemma DistanceZero(m: MathLib, p: Position, other: Position)
    requires SqrtLaws(m.sqrt)
    ensures Distance(m, p, other) == 0.0 <==> p.x == other.x && p.y == other.y
  {
    var d := Distance(m, p, other);
    var dx, dy := other.x - p.x, other.y - p.y;
    if p.x == other.x && p.y == other.y {
      assert Square(dx) + Square(dy) == 0.0 * 0.0;
      SqrtOfSquare(m.sqrt, 0.0);
    } else {
      if dx != 0.0 {
        SquareIncreasing(0.0, Abs(dx));
        assert Square(dx) == Abs(dx) * Abs(dx);
      } else {
        SquareIncreasing(0.0, Abs(dy));
        assert Square(dy) == Abs(dy) * Abs(dy);
      }
      assert d * d > 0.0;
    }
  }

  /** The 3-4-5 triangle: `Position(6, 8, 0) - Position(3, 4, 0) == 5`. */
  lemma DistanceThreeFourFive(m: MathLib)
    requires SqrtLaws(m.sqrt)
    ensures Distance(m, Position(6.0, 8.0, 0.0), Position(3.0, 4.0, 0.0)) == 5.0
  {
    assert Square(3.0 - 6.0) + Square(4.0 - 8.0) == 5.0 * 5.0;
    SqrtOfSquare(m.sqrt, 5.0);
  }
}
