/**
 * The numeric vocabulary the path generator is written in: Python's `abs`,
 * `max`, `int()` and `math.ceil` over reals, sums over a list of angles, and
 * the three functions of Python's `math` module it calls (`cos`, `sin`,
 * `sqrt`). Coordinates are exact reals; floating-point rounding is not
 * modelled.
 */
module Numeric {

  /**
   * `math.cos`, `math.sin` and `math.sqrt`. Their true values are not part of
   * the model: every operation that needs them takes them as a parameter, and
   * a property that depends on one of their values says so in its `requires`.
   */
  datatype MathLib = MathLib(cos: real -> real, sin: real -> real, sqrt: real -> real)

  /** The one law assumed of `sqrt`: on a non-negative argument it gives the non-negative root. */
  ghost predicate SqrtLaws(sqrt: real -> real)
  {
    forall x :: 0.0 <= x ==> 0.0 <= sqrt(x) && sqrt(x) * sqrt(x) == x
  }

  /** Python's `abs`. */
  function Abs(r: real): (a: real)
    ensures 0.0 <= a && (a == r || a == -r)
  {
    if r < 0.0 then -r else r
  }

  /** Python's `max` of two reals. */
  function Max(a: real, b: real): (m: real)
    ensures a <= m && b <= m && (m == a || m == b)
  {
    if a < b then b else a
  }

  /** Python's `v**2`. */
  function Square(v: real): (s: real)
    ensures 0.0 <= s
  {
    v * v
  }

  /** Python's `int()` on a real: truncation toward zero. */
  function Trunc(r: real): (t: int)
    ensures 0.0 <= r ==> 0 <= t && t as real <= r < t as real + 1.0
    ensures r < 0.0 ==> t <= 0 && t as real - 1.0 < r <= t as real
  {
    if 0.0 <= r then r.Floor else -((-r).Floor)
  }

  /** Python's `math.ceil`: the least integer not below `r`. */
  function Ceil(r: real): (c: int)
    ensures r <= c as real < r + 1.0
  {
    if r.Floor as real == r then r.Floor else r.Floor + 1
  }

  /** Python's `sum([f(t) for t in ts])`, accumulated left to right. */
  function SumOf(f: real -> real, ts: seq<real>): (s: real)
    decreases |ts|
  {
    if ts == [] then 0.0 else SumOf(f, ts[..|ts| - 1]) + f(ts[|ts| - 1])
  }

  /** Extending the summed prefix by one angle adds that angle's term. */
  lemma SumOfPrefix(f: real -> real, ts: seq<real>, k: nat)
    requires k < |ts|
    ensures SumOf(f, ts[..k + 1]) == SumOf(f, ts[..k]) + f(ts[k])
  {
    assert ts[..k + 1][..k] == ts[..k];
  }

  /** A sum of terms that are all positive is positive unless the list is empty. */
  lemma {:induction false} SumOfPositive(f: real -> real, ts: seq<real>)
    requires forall i :: 0 <= i < |ts| ==> 0.0 < f(ts[i])
    ensures ts == [] || 0.0 < SumOf(f, ts)
    decreases |ts|
  {
    if ts != [] {
      var front := ts[..|ts| - 1];
      assert forall i :: 0 <= i < |front| ==> front[i] == ts[i];
      SumOfPositive(f, front);
    }
  }

  /** Multiplication distributes over addition. */
  lemma Distribute(l: real, s: real, c: real)
    ensures l * s + l * c == l * (s + c)
  {
  }

  /** One more multiple of `c`. */
  lemma OneMoreMultiple(k: real, c: real)
    ensures k * c + c == (k + 1.0) * c
  {
  }

  /** A non-negative number over a positive divisor is non-negative, over a negative one non-positive. */
  lemma QuotientSign(a: real, d: real)
    requires 0.0 <= a && d != 0.0
    ensures 0.0 < d ==> 0.0 <= a / d
    ensures d < 0.0 ==> a / d <= 0.0
  {
    var q := a / d;
    assert q * d == a;
    if 0.0 < d && q < 0.0 {
      ProductPositive(-q, d);
    } else if d < 0.0 && 0.0 < q {
      ProductPositive(q, -d);
    }
  }

  /** A non-negative number over a nonzero divisor is zero exactly when the number is. */
  lemma QuotientZero(a: real, d: real)
    requires d != 0.0
    ensures a / d == 0.0 <==> a == 0.0
  {
    assert (a / d) * d == a;
  }

  /** A product of two non-negative reals is non-negative. */
  lemma ProductNonNegative(p: real, q: real)
    requires 0.0 <= p && 0.0 <= q
    ensures 0.0 <= p * q
  {
    if 0.0 < p && 0.0 < q {
      ProductPositive(p, q);
    }
  }

  /** A product of two nonzero reals is nonzero. */
  lemma ProductNonZero(p: real, q: real)
    requires p != 0.0 && q != 0.0
    ensures p * q != 0.0
  {
    ProductPositive(Abs(p), Abs(q));
    assert Abs(p) * Abs(q) == p * q || Abs(p) * Abs(q) == -(p * q);
  }

  /** A product is zero exactly when one of its factors is. */
  lemma ProductZero(p: real, q: real)
    ensures p * q == 0.0 <==> p == 0.0 || q == 0.0
  {
    if p != 0.0 && q != 0.0 {
      ProductNonZero(p, q);
    }
  }

  /** A product of two positive reals is positive. */
  lemma ProductPositive(p: real, q: real)
    requires 0.0 < p && 0.0 < q
    ensures 0.0 < p * q
  {
  }

  /** Squaring is strictly increasing on the non-negative reals. */
  lemma SquareIncreasing(a: real, b: real)
    requires 0.0 <= a < b
    ensures a * a < b * b
  {
    ProductPositive(b - a, b + a);
    assert (b - a) * (b + a) == b * b - a * a;
  }

  /** Comparing a root with a non-negative bound is comparing the radicand with the bound's square. */
  lemma SqrtExceeds(sqrt: real -> real, x: real, c: real)
    requires SqrtLaws(sqrt)
    requires 0.0 <= x && 0.0 <= c
    ensures sqrt(x) > c <==> x > c * c
  {
    var s := sqrt(x);
    assert 0.0 <= s && s * s == x;
    if s > c {
      SquareIncreasing(c, s);
    } else if s < c {
      SquareIncreasing(s, c);
    }
  }

  /** The root of the square of a non-negative number is that number. */
  lemma SqrtOfSquare(sqrt: real -> real, c: real)
    requires SqrtLaws(sqrt)
    requires 0.0 <= c
    ensures sqrt(c * c) == c
  {
    var s := sqrt(c * c);
    assert 0.0 <= s && s * s == c * c;
    if s < c {
      SquareIncreasing(s, c);
    } else if s > c {
      SquareIncreasing(c, s);
    }
  }
}
