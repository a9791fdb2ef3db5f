/**
 * Angle and ellipse helpers of the track model (`Track.normalizeAngle`,
 * `Track.ellipseValue`, the free functions `shortestAngle` and `clamp`).
 *
 * JavaScript numbers are modelled as exact reals. `Math.PI` is the decimal
 * constant JavaScript prints for it, so every angle bound below is a linear
 * fact about reals.
 */
module Geometry {

  const PI: real := 3.141592653589793
  const TAU: real := 6.283185307179586  // exactly 2 * PI

  /** True when `x` is a whole number. */
  predicate IsInteger(x: real) {
    x.Floor as real == x
  }

  /** `a` and `b` denote the same direction: they differ by whole turns. */
  predicate Congruent(a: real, b: real) {
    IsInteger((a - b) / TAU)
  }

  lemma IntegerIsInteger(k: int)
    ensures (k as real).Floor == k
  {
  }

  lemma IntegerSum(x: real, y: real)
    requires IsInteger(x) && IsInteger(y)
    ensures IsInteger(x + y) && IsInteger(x - y)
  {
    var i, j := x.Floor, y.Floor;
    assert x + y == (i + j) as real;
    assert x - y == (i - j) as real;
    IntegerIsInteger(i + j);
    IntegerIsInteger(i - j);
  }

  lemma CongruentTrans(a: real, b: real, c: real)
    requires Congruent(a, b) && Congruent(b, c)
    ensures Congruent(a, c)
  {
    IntegerSum((a - b) / TAU, (b - c) / TAU);
    assert (a - c) / TAU == (a - b) / TAU + (b - c) / TAU;
  }

  lemma CongruentSym(a: real, b: real)
    requires Congruent(a, b)
    ensures Congruent(b, a)
  {
    IntegerSum(0.0, (a - b) / TAU);
    assert (b - a) / TAU == 0.0 - (a - b) / TAU;
  }

  /** Shifting by one whole turn keeps the direction. */
  lemma CongruentTurn(a: real, b: real)
    requires Congruent(a, b)
    ensures Congruent(a, b + TAU) && Congruent(a, b - TAU)
  {
    IntegerSum((a - b) / TAU, 1.0);
    assert (a - (b + TAU)) / TAU == (a - b) / TAU - 1.0;
    assert (a - (b - TAU)) / TAU == (a - b) / TAU + 1.0;
  }

  /** Two congruent angles less than a full turn apart are equal. */
  lemma CongruentClose(a: real, b: real)
    requires Congruent(a, b)
    requires -TAU < a - b < TAU
    ensures a == b
  {
    var k := ((a - b) / TAU).Floor;
    assert (a - b) / TAU == k as real;
  }

  /** Rounding toward zero, as JavaScript's `%` does on numbers. */
  function Trunc(x: real): (n: int)
    ensures x >= 0.0 ==> 0 <= n && n as real <= x < n as real + 1.0
    ensures x < 0.0 ==> n <= 0 && n as real - 1.0 < x <= n as real
  {
    if x >= 0.0 then x.Floor else -((-x).Floor)
  }

  /** `Track.normalizeAngle`: `angle % 2π`, lifted by one turn when negative. */
  function NormalizeAngle(angle: real): (r: real)
    ensures 0.0 <= r < TAU
    ensures Congruent(r, angle)
    ensures 0.0 <= angle < TAU ==> r == angle
  {
    var a := angle - TAU * Trunc(angle / TAU) as real;
    TruncRemainder(angle);
    if a < 0.0 then
      CongruentTurn(a, angle);
      assert a + TAU - TAU == a;
      a + TAU
    else
      a
  }

  /** What JavaScript's `angle % 2π` yields: the sign of `angle`, less than a turn, whole turns away. */
  lemma TruncRemainder(angle: real)
    ensures var a := angle - TAU * Trunc(angle / TAU) as real;
      && (angle >= 0.0 ==> 0.0 <= a < TAU)
      && (angle < 0.0 ==> -TAU < a <= 0.0)
      && Congruent(a, angle)
  {
    var q := angle / TAU;
    var t := Trunc(q);
    var a := angle - TAU * t as real;
    assert angle == q * TAU;
    assert a == TAU * (q - t as real);
    assert (a - angle) / TAU == (-t) as real;
    IntegerIsInteger(-t);
  }

  /** Any direction has exactly one representative in [0, 2π), and it is the normalized one. */
  lemma NormalizeAngleUnique(angle: real, y: real)
    requires 0.0 <= y < TAU
    requires Congruent(y, angle)
    ensures NormalizeAngle(angle) == y
  {
    var r := NormalizeAngle(angle);
    CongruentSym(y, angle);
    CongruentTrans(r, angle, y);
    CongruentClose(r, y);
  }

  /** The first loop of `shortestAngle`: add whole turns while below -π. */
  function RaiseAbove(d: real): (r: real)
    ensures -PI <= r
    ensures Congruent(r, d)
    ensures d >= -PI ==> r == d
    ensures d < -PI ==> r < PI
    decreases if d < -PI then ((-PI - d) / TAU).Floor + 1 else 0
  {
    if d < -PI then
      var r := RaiseAbove(d + TAU);
      CongruentTurn(r, d + TAU);
      assert d + TAU - TAU == d;
      r
    else
      d
  }

  /** The second loop of `shortestAngle`: subtract whole turns while above π. */
  function LowerBelow(d: real): (r: real)
    ensures r <= PI
    ensures Congruent(r, d)
    ensures d <= PI ==> r == d
    ensures d > PI ==> -PI < r
    decreases if d > PI then ((d - PI) / TAU).Floor + 1 else 0
  {
    if d > PI then
      var r := LowerBelow(d - TAU);
      CongruentTurn(r, d - TAU);
      assert d - TAU + TAU == d;
      r
    else
      d
  }

  /** `shortestAngle(a, b)`: the difference `a - b` brought into [-π, π]. */
  function ShortestAngle(a: real, b: real): (r: real)
    ensures -PI <= r <= PI
    ensures Congruent(r, a - b)
    ensures -PI <= a - b <= PI ==> r == a - b
  {
    var up := RaiseAbove(a - b);
    var r := LowerBelow(up);
    CongruentTrans(r, up, a - b);
    r
  }

  /** Inside the open interval (-π, π) the shortest difference is the only congruent value. */
  lemma ShortestAngleUnique(a: real, b: real, y: real)
    requires -PI < y < PI
    requires Congruent(y, a - b)
    ensures ShortestAngle(a, b) == y
  {
    var r := ShortestAngle(a, b);
    CongruentSym(y, a - b);
    CongruentTrans(r, a - b, y);
    CongruentClose(r, y);
  }

  /** The two `while` loops of `shortestAngle` as written. */
  method ShortestAngleLoop(a: real, b: real) returns (diff: real)
    ensures diff == ShortestAngle(a, b)
  {
    diff := a - b;
    while diff < -PI
      invariant RaiseAbove(diff) == RaiseAbove(a - b)
      decreases ((-PI - diff) / TAU).Floor + 1
    {
      diff := diff + TAU;
    }
    while diff > PI
      invariant -PI <= diff
      invariant LowerBelow(diff) == LowerBelow(RaiseAbove(a - b))
      decreases ((diff - PI) / TAU).Floor + 1
    {
      diff := diff - TAU;
    }
  }

  /** `clamp(value, min, max)`, i.e. `Math.max(min, Math.min(max, value))`. */
  function Clamp(value: real, lo: real, hi: real): (r: real)
    ensures lo <= hi ==> lo <= r <= hi
    ensures lo <= value <= hi ==> r == value
    ensures value < lo ==> r == lo
    ensures lo <= hi && hi < value ==> r == hi
    ensures hi < lo ==> r == lo
  {
    var m := if hi < value then hi else value;
    if lo > m then lo else m
  }

  /** An offset from the track centre. */
  datatype Offset = Offset(x: real, y: real)

  /** An axis-aligned ellipse given by its semi-axes. */
  datatype Ellipse = Ellipse(rx: real, ry: real)

  /**
   * Semi-axes of at least one unit. The track's ellipses have semi-axes from
   * 116 to 360; the bound keeps the divisions below away from zero.
   */
  predicate Proper(e: Ellipse) {
    e.rx >= 1.0 && e.ry >= 1.0
  }

  /**
   * `Track.ellipseValue`: the squared normalised distance of an offset from
   * the centre, 1 on the ellipse, below 1 inside it and above 1 outside.
   */
  function EllipseValue(o: Offset, e: Ellipse): (r: real)
    requires Proper(e)
    ensures r >= 0.0
  {
    ProductAtLeastOne(e.rx, e.rx);
    ProductAtLeastOne(e.ry, e.ry);
    QuotientNonNeg(o.x * o.x, e.rx * e.rx);
    QuotientNonNeg(o.y * o.y, e.ry * e.ry);
    (o.x * o.x) / (e.rx * e.rx) + (o.y * o.y) / (e.ry * e.ry)
  }

  lemma SquareNonNeg(x: real)
    ensures x * x >= 0.0
  {
    if x < 0.0 {
      assert (-x) * (-x) > 0.0 * (-x);
    } else if x > 0.0 {
      assert x * x > 0.0 * x;
    }
  }

  lemma ProductAtLeastOne(a: real, b: real)
    requires a >= 1.0 && b >= 1.0
    ensures a * b >= 1.0
  {
    assert a * b >= 1.0 * b;
  }

  lemma QuotientNonNeg(a: real, p: real)
    requires a >= 0.0 && p >= 1.0
    ensures a / p >= 0.0
  {
    var q := a / p;
    assert q * p == a;
  }

  /**
   * The ellipse is the unit circle stretched by its semi-axes: the offset
   * `(rx·u, ry·v)` has value `u² + v²`, so it lies on the ellipse exactly when
   * `(u, v)` lies on the unit circle.
   */
  lemma EllipseOfUnit(e: Ellipse, u: real, v: real)
    requires Proper(e)
    ensures EllipseValue(Offset(e.rx * u, e.ry * v), e) == u * u + v * v
  {
  }

  /** Scaling an offset by `t` scales its ellipse value by `t²`. */
  lemma EllipseScale(o: Offset, e: Ellipse, t: real)
    requires Proper(e)
    ensures EllipseValue(Offset(t * o.x, t * o.y), e) == t * t * EllipseValue(o, e)
  {
  }

  /**
   * `Track.laneDistance` is the square root of the ellipse value. A
   * non-negative `d` whose square is the ellipse value compares with 1 exactly
   * as the value does: inside, on or outside the ellipse.
   */
  lemma DistanceMatchesValue(o: Offset, e: Ellipse, d: real)
    requires Proper(e)
    requires d >= 0.0 && d * d == EllipseValue(o, e)
    ensures d < 1.0 <==> EllipseValue(o, e) < 1.0
    ensures d == 1.0 <==> EllipseValue(o, e) == 1.0
    ensures d > 1.0 <==> EllipseValue(o, e) > 1.0
  {
    if d < 1.0 {
      assert d * d <= d * 1.0;
    } else if d > 1.0 {
      assert d * d > d * 1.0;
    }
  }
}
