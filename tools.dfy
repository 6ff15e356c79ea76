// IsInsideRect of RayCasting/Tools.hpp: whether the cursor lies in an
// sf::RectangleShape, its size multiplied by its scale, edges included.
module Tools {
  import opened Geometry

  /** The parts of an sf::RectangleShape the test reads: its position (the
      top-left corner), its local size and its scale. */
  datatype RectangleShape = RectangleShape(position: Point, size: Point, scale: Point)

  /** The size on screen: the local size multiplied by the scale, axis by
      axis. */
  function ScaledSize(rect: RectangleShape): Point
  {
    Point(rect.size.x * rect.scale.x, rect.size.y * rect.scale.y)
  }

  /** The cursor is inside exactly when its offset from the position is
      between zero and the scaled size on both axes, bounds included. A
      rectangle that has anything inside has a scaled size that is not
      negative. */
  function IsInsideRect(cursor: Point, rect: RectangleShape): (inside: bool)
    ensures inside <==> 0.0 <= cursor.x - rect.position.x <= ScaledSize(rect).x &&
                        0.0 <= cursor.y - rect.position.y <= ScaledSize(rect).y
    ensures inside ==> ScaledSize(rect).x >= 0.0 && ScaledSize(rect).y >= 0.0
  {
    var size := ScaledSize(rect);
    cursor.x >= rect.position.x && cursor.x <= rect.position.x + size.x &&
    cursor.y >= rect.position.y && cursor.y <= rect.position.y + size.y
  }

  /** The top-left corner is inside exactly when the scaled size is not
      negative on either axis, and then so is the opposite corner. */
  lemma CornersInside(rect: RectangleShape)
    ensures IsInsideRect(rect.position, rect) <==> ScaledSize(rect).x >= 0.0 && ScaledSize(rect).y >= 0.0
    ensures IsInsideRect(rect.position, rect) <==> IsInsideRect(Add(rect.position, ScaledSize(rect)), rect)
  {
  }

  /** A rectangle with a negative scaled width or height contains no point;
      a negative scale with a positive size gives one. */
  lemma NegativeSizeIsEmpty(cursor: Point, rect: RectangleShape)
    requires ScaledSize(rect).x < 0.0 || ScaledSize(rect).y < 0.0
    ensures !IsInsideRect(cursor, rect)
  {
  }

  /** Only the product of size and scale matters: folding the scale into the
      size and using a unit scale gives the same answer. */
  lemma ScaleFolds(cursor: Point, rect: RectangleShape)
    ensures IsInsideRect(cursor, rect) == IsInsideRect(cursor, RectangleShape(rect.position, ScaledSize(rect), Point(1.0, 1.0)))
  {
  }

  /** Moving the cursor and the rectangle by the same offset keeps the
      answer. */
  lemma TranslationInvariant(cursor: Point, rect: RectangleShape, offset: Point)
    ensures IsInsideRect(Add(cursor, offset), RectangleShape(Add(rect.position, offset), rect.size, rect.scale))
         == IsInsideRect(cursor, rect)
  {
  }

  /** The point a fraction t of the way from a to b. */
  function Lerp(a: real, b: real, t: real): real
  {
    a + t * (b - a)
  }

  /** The inside of a rectangle is convex: every point on the segment
      between two inside points is inside. */
  lemma InsideIsConvex(a: Point, b: Point, t: real, rect: RectangleShape)
    requires IsInsideRect(a, rect) && IsInsideRect(b, rect)
    requires 0.0 <= t <= 1.0
    ensures IsInsideRect(Point(Lerp(a.x, b.x, t), Lerp(a.y, b.y, t)), rect)
  {
    BetweenOnAxis(a.x, b.x, t, rect.position.x, rect.position.x + ScaledSize(rect).x);
    BetweenOnAxis(a.y, b.y, t, rect.position.y, rect.position.y + ScaledSize(rect).y);
  }

  /** A point between two values of a closed interval stays in it. */
  lemma BetweenOnAxis(a: real, b: real, t: real, low: real, high: real)
    requires low <= a <= high && low <= b <= high && 0.0 <= t <= 1.0
    ensures low <= Lerp(a, b, t) <= high
  {
    if a <= b {
      StepWithin(a, b, t);
    } else {
      StepWithin(b, a, 1.0 - t);
      assert Lerp(a, b, t) == Lerp(b, a, 1.0 - t);
    }
  }

  /** Moving a fraction t from a toward b >= a ends between them. */
  lemma StepWithin(a: real, b: real, t: real)
    requires a <= b && 0.0 <= t <= 1.0
    ensures a <= Lerp(a, b, t) <= b
  {
    ProductNonNegative(t, b - a);
    ProductNonNegative(1.0 - t, b - a);
    assert t * (b - a) + (1.0 - t) * (b - a) == b - a;
  }

  lemma ProductNonNegative(x: real, y: real)
    requires x >= 0.0 && y >= 0.0
    ensures x * y >= 0.0
  {
  }
}
