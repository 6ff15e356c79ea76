// Geometry primitives of the ray caster: points, segments, the tolerant
// interval test, distance and the C++ float-to-int conversion.
// Coordinates are exact reals; float rounding is not modelled.
module Geometry {

  datatype Option<T> = None | Some(value: T)

  /** A 2D point or vector (an sf::Vector2f). */
  datatype Point = Point(x: real, y: real)

  /** A segment from p1 to p2 (struct Line). */
  datatype Line = Line(p1: Point, p2: Point)

  /** The value of a default-constructed sf::Vector2f. */
  const Origin: Point := Point(0.0, 0.0)

  /** Slack on both sides of an interval, and the x extent below which a
      segment is treated as vertical. */
  const Tolerance: real := 0.1

  function Add(a: Point, b: Point): Point
  {
    Point(a.x + b.x, a.y + b.y)
  }

  function Min(a: real, b: real): real
  {
    if a <= b then a else b
  }

  function Max(a: real, b: real): real
  {
    if a <= b then b else a
  }

  function Abs(a: real): real
  {
    if a < 0.0 then -a else a
  }

  /** Exchanges two values (the template Swap, with its output parameters
      turned into a returned pair). */
  function Swap<T>(a: T, b: T): (swapped: (T, T))
    ensures swapped.0 == b && swapped.1 == a
  {
    (b, a)
  }

  /** Swapping twice restores the original pair. */
  lemma SwapInvolutive<T>(a: T, b: T)
    ensures Swap(Swap(a, b).0, Swap(a, b).1) == (a, b)
  {
  }

  /** `num` lies in [min, max], the bounds put in order first, widened by
      Tolerance on each side. */
  function BelongingInterval(min: real, max: real, num: real): (r: bool)
    ensures r <==> Min(min, max) - Tolerance <= num <= Max(min, max) + Tolerance
  {
    var (lo, hi) := if min > max then Swap(min, max) else (min, max);
    num >= lo - Tolerance && num <= hi + Tolerance
  }

  /** The order in which the two bounds are passed does not matter. */
  lemma BelongingIntervalSymmetric(min: real, max: real, num: real)
    ensures BelongingInterval(min, max, num) == BelongingInterval(max, min, num)
  {
  }

  /** Squared Euclidean distance. */
  function DistSq(p1: Point, p2: Point): (d: real)
    ensures d >= 0.0
  {
    (p2.x - p1.x) * (p2.x - p1.x) + (p2.y - p1.y) * (p2.y - p1.y)
  }

  /** DistanceBetweenPoints, with the square root supplied by the caller:
      whatever that function is, the distance does not depend on the order of
      the two points, and a point is at the distance sqrt(0) from itself. */
  function DistanceBetweenPoints(p1: Point, p2: Point, sqrt: real -> real): (d: real)
    ensures d == sqrt(DistSq(p2, p1))
    ensures p1 == p2 ==> d == sqrt(0.0)
  {
    assert p1 == p2 ==> DistSq(p1, p2) == 0.0;
    sqrt(DistSq(p1, p2))
  }

  /** The C++ conversion of a floating value to int: truncation toward zero. */
  function Trunc(x: real): (n: int)
    ensures x >= 0.0 ==> 0 <= n && n as real <= x < n as real + 1.0
    ensures x < 0.0 ==> n <= 0 && n as real - 1.0 < x <= n as real
  {
    if x >= 0.0 then x.Floor else -((-x).Floor)
  }

  /** Truncation is monotone. */
  lemma TruncMonotone(x: real, y: real)
    requires x <= y
    ensures Trunc(x) <= Trunc(y)
  {
  }

  /** The value of PI the source uses. */
  const Pi: real := 3.14159265

  /** Degrees to radians: a half turn is Pi, and the sign is kept. */
  function DegreesToRadians(degrees: real): (radians: real)
    ensures radians * 180.0 == degrees * Pi
    ensures radians < 0.0 <==> degrees < 0.0
  {
    degrees * Pi / 180.0
  }
}
