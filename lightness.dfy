// CorrectLightness of RayCasting/RayCasting.cpp: an sf::Color is shifted
// channel by channel by a luma-weighted share of `delta` (30%, 59%, 11%)
// using C++ integer arithmetic, and every channel is clamped to [0, 255].
module Lightness {

  /** An sf::Color without its alpha channel: the source's result is built
      as sf::Color(r, g, b), which is always opaque whatever the input's
      alpha was. */
  datatype Color = Color(r: int, g: int, b: int)

  predicate IsChannel(v: int)
  {
    0 <= v <= 255
  }

  predicate ValidColor(c: Color)
  {
    IsChannel(c.r) && IsChannel(c.g) && IsChannel(c.b)
  }

  /** C++ `/` on int for a positive divisor: the quotient is truncated
      toward zero, whereas Dafny's `/` is Euclidean. */
  function TruncDiv(a: int, d: int): (q: int)
    requires d > 0
    ensures a >= 0 ==> 0 <= q * d <= a < q * d + d
    ensures a < 0 ==> q * d - d < a <= q * d <= 0
  {
    if a >= 0 then
      DivBounds(a, d);
      a / d
    else
      DivBounds(-a, d);
      assert (-((-a) / d)) * d == -(((-a) / d) * d);
      -((-a) / d)
  }

  /** Euclidean division of a non-negative dividend. */
  lemma DivBounds(a: int, d: int)
    requires a >= 0 && d > 0
    ensures 0 <= (a / d) * d <= a < (a / d) * d + d
  {
    var q, r := a / d, a % d;
    assert a == d * q + r && 0 <= r < d;
    assert q >= 0;
    MulNonNegative(q, d);
  }

  lemma MulNonNegative(x: int, d: int)
    requires x >= 0 && d >= 0
    ensures x * d >= 0
  {
  }

  lemma MulMonotone(x: int, y: int, d: int)
    requires x <= y && d > 0
    ensures x * d <= y * d
  {
    MulNonNegative(y - x, d);
    assert (y - x) * d == y * d - x * d;
  }

  lemma MulSucc(x: int, d: int)
    ensures (x + 1) * d == x * d + d
  {
  }

  /** Truncating division by a positive divisor is monotone. */
  lemma TruncDivMonotone(a1: int, a2: int, d: int)
    requires d > 0 && a1 <= a2
    ensures TruncDiv(a1, d) <= TruncDiv(a2, d)
  {
    var q1, q2 := TruncDiv(a1, d), TruncDiv(a2, d);
    if q1 > q2 {
      MulSucc(q2, d);
      MulMonotone(q2 + 1, q1, d);
      assert false;
    }
  }

  /** std::min(std::max(v, 0), 255). */
  function Clamp(v: int): (c: int)
    ensures IsChannel(c)
    ensures IsChannel(v) ==> c == v
    ensures v < 0 ==> c == 0
    ensures v > 255 ==> c == 255
  {
    var lower := if v > 0 then v else 0;
    if lower < 255 then lower else 255
  }

  /** Clamping keeps the order of its arguments. */
  lemma ClampMonotone(v1: int, v2: int)
    requires v1 <= v2
    ensures Clamp(v1) <= Clamp(v2)
  {
  }

  /** The shift applied to a channel of weight `percent`. */
  function Shift(delta: int, percent: int): int
    requires percent > 0
  {
    TruncDiv(delta * percent, 100)
  }

  /** CorrectLightness: every channel is moved by its weighted share of
      `delta` and then clamped. */
  function CorrectLightness(color: Color, delta: int): (c: Color)
    ensures ValidColor(c)
    ensures delta == 0 && ValidColor(color) ==> c == color
    ensures delta <= 0 && ValidColor(color) ==> c.r <= color.r && c.g <= color.g && c.b <= color.b
    ensures delta >= 0 && ValidColor(color) ==> c.r >= color.r && c.g >= color.g && c.b >= color.b
  {
    Color(Clamp(color.r + Shift(delta, 30)),
          Clamp(color.g + Shift(delta, 59)),
          Clamp(color.b + Shift(delta, 11)))
  }

  /** A smaller delta never gives a lighter channel. */
  lemma {:induction false} CorrectLightnessMonotone(color: Color, delta1: int, delta2: int)
    requires delta1 <= delta2
    ensures var c1, c2 := CorrectLightness(color, delta1), CorrectLightness(color, delta2);
      c1.r <= c2.r && c1.g <= c2.g && c1.b <= c2.b
  {
    ShiftMonotone(delta1, delta2, 30);
    ShiftMonotone(delta1, delta2, 59);
    ShiftMonotone(delta1, delta2, 11);
    ClampMonotone(color.r + Shift(delta1, 30), color.r + Shift(delta2, 30));
    ClampMonotone(color.g + Shift(delta1, 59), color.g + Shift(delta2, 59));
    ClampMonotone(color.b + Shift(delta1, 11), color.b + Shift(delta2, 11));
  }

  lemma ShiftMonotone(delta1: int, delta2: int, percent: int)
    requires delta1 <= delta2 && percent > 0
    ensures Shift(delta1, percent) <= Shift(delta2, percent)
  {
    assert delta1 * percent <= delta2 * percent;
    TruncDivMonotone(delta1 * percent, delta2 * percent, 100);
  }
}
