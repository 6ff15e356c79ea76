// The fan of rays Camera::RayCasting sweeps across the field of view, the
// size of the ray buffer, and the strip each hitting ray draws.
module Fan {
  import opened Geometry
  import opened Lightness
  import opened Rays

  /** The library functions the ray caster calls, supplied by the caller:
      cosine and sine of radians, and the square root. */
  datatype Numerics = Numerics(cos: real -> real, sin: real -> real, sqrt: real -> real)

  /** The length pointsRays is resized to: int(viewAngle / distanceRays) + 1,
      the conversion truncating toward zero. */
  function BufferSize(viewAngle: real, distanceRays: real): (size: int)
    requires distanceRays > 0.0
    ensures viewAngle >= 0.0 ==> size >= 1
    ensures size >= 0 <==> viewAngle > -2.0 * distanceRays
  {
    QuotientAbove(viewAngle, distanceRays, -2.0);
    Trunc(viewAngle / distanceRays) + 1
  }

  /** Dividing by a positive d keeps which side of a bound v lies on. */
  lemma QuotientAbove(v: real, d: real, bound: real)
    requires d > 0.0
    ensures v / d > bound <==> v > bound * d
    ensures v / d >= 0.0 <==> v >= 0.0
  {
    assert (v / d) * d == v;
    assert (v / d - bound) * d == v - bound * d;
  }

  /** The angle offset of ray k (counted from 0) from the heading. */
  function RayOffset(viewAngle: real, distanceRays: real, k: nat): (offset: real)
    ensures k == 0 ==> offset == -(viewAngle / 2.0)
    ensures distanceRays > 0.0 && k > 0 ==> offset > -(viewAngle / 2.0)
  {
    -(viewAngle / 2.0) + k as real * distanceRays
  }

  /** Stepping the angle by distanceRays moves to the next ray. */
  lemma RayOffsetStep(viewAngle: real, distanceRays: real, k: nat)
    ensures RayOffset(viewAngle, distanceRays, k) + distanceRays == RayOffset(viewAngle, distanceRays, k + 1)
  {
    assert (k + 1) as real * distanceRays == k as real * distanceRays + distanceRays;
  }

  /** The number of rays the loop casts. */
  function RayCount(viewAngle: real, distanceRays: real): (count: nat)
    requires distanceRays > 0.0
    ensures count > 0 <==> viewAngle >= 0.0
  {
    QuotientAbove(viewAngle, distanceRays, 0.0);
    if viewAngle < 0.0 then 0 else (viewAngle / distanceRays).Floor + 1
  }

  /** Ray k is cast (its offset is within the field of view) exactly when
      k < RayCount: the loop `angleNow <= viewAngle / 2` runs RayCount times. */
  lemma RayCountExact(viewAngle: real, distanceRays: real, k: nat)
    requires distanceRays > 0.0
    ensures RayOffset(viewAngle, distanceRays, k) <= viewAngle / 2.0 <==> k < RayCount(viewAngle, distanceRays)
  {
    var q := viewAngle / distanceRays;
    assert q * distanceRays == viewAngle;
    if k as real * distanceRays <= viewAngle {
      MulLeDiv(k as real, distanceRays, viewAngle);
      assert viewAngle >= 0.0;
    } else if viewAngle >= 0.0 {
      DivLtMul(k as real, distanceRays, viewAngle);
    }
  }

  lemma MulLeDiv(x: real, d: real, v: real)
    requires d > 0.0 && x * d <= v
    ensures x <= v / d
  {
    assert (v / d - x) * d == v - x * d;
  }

  lemma DivLtMul(x: real, d: real, v: real)
    requires d > 0.0 && x * d > v
    ensures x > v / d
  {
    assert (x - v / d) * d == x * d - v;
  }

  /** Every ray the loop casts has its slot in the buffer; when the field of
      view is not negative the buffer holds exactly one slot per ray. */
  lemma RayCountFitsBuffer(viewAngle: real, distanceRays: real)
    requires distanceRays > 0.0 && BufferSize(viewAngle, distanceRays) >= 0
    ensures RayCount(viewAngle, distanceRays) <= BufferSize(viewAngle, distanceRays)
    ensures viewAngle >= 0.0 ==> RayCount(viewAngle, distanceRays) == BufferSize(viewAngle, distanceRays)
  {
    if viewAngle >= 0.0 {
      PositiveQuotient(viewAngle, distanceRays);
    }
  }

  lemma PositiveQuotient(v: real, d: real)
    requires v >= 0.0 && d > 0.0
    ensures v / d >= 0.0
  {
    assert (v / d) * d == v;
  }

  /** The default camera (a 120 degree view, a ray every 0.1 degree) casts
      1201 rays into a buffer of 1201 slots. */
  lemma DefaultCameraRays()
    ensures BufferSize(120.0, 0.1) == 1201 && RayCount(120.0, 0.1) == 1201
  {
    assert 120.0 / 0.1 == 1200.0;
  }

  /** The far endpoint of a ray: viewRange away from the camera in the
      direction of the heading plus the offset (both in degrees). */
  function FarEndpoint(position: Point, rotation: real, viewRange: real, offset: real, num: Numerics): (far: Point)
    ensures var a := DegreesToRadians(rotation + offset);
      num.cos(a) * num.cos(a) + num.sin(a) * num.sin(a) == 1.0 ==>
        DistSq(position, far) == viewRange * viewRange
  {
    var angleRadians := DegreesToRadians(rotation + offset);
    var c, s := num.cos(angleRadians), num.sin(angleRadians);
    ScaledUnitLength(c, s, viewRange);
    Point(position.x + c * viewRange, position.y + s * viewRange)
  }

  /** Scaling (c, s) by r scales its squared length by r * r. */
  lemma ScaledUnitLength(c: real, s: real, r: real)
    ensures (c * r) * (c * r) + (s * r) * (s * r) == (c * c + s * s) * (r * r)
  {
  }

  /** The rays of one pass, left to right, each from the camera to its far
      endpoint. */
  function FanRays(position: Point, rotation: real, viewRange: real, viewAngle: real, distanceRays: real,
                   num: Numerics): (rays: seq<Line>)
    requires distanceRays > 0.0
    ensures |rays| == RayCount(viewAngle, distanceRays)
    ensures forall k :: 0 <= k < |rays| ==> rays[k].p1 == position
  {
    seq(RayCount(viewAngle, distanceRays),
        k requires 0 <= k => Line(position, FarEndpoint(position, rotation, viewRange, RayOffset(viewAngle, distanceRays, k), num)))
  }

  /** Ray k of the fan points at the far endpoint of offset k. */
  lemma FanRayAt(position: Point, rotation: real, viewRange: real, viewAngle: real, distanceRays: real,
                 num: Numerics, k: nat)
    requires distanceRays > 0.0 && k < RayCount(viewAngle, distanceRays)
    ensures FanRays(position, rotation, viewRange, viewAngle, distanceRays, num)[k]
         == Line(position, FarEndpoint(position, rotation, viewRange, RayOffset(viewAngle, distanceRays, k), num))
  {
  }

  /** The colour the strips are drawn in before darkening. */
  const WallColor: Color := Color(235, 26, 36)

  /** The strip colour: WallColor darkened by min(0, -int(distance / 1.2)). */
  function StripColor(distance: real): (c: Color)
    ensures ValidColor(c)
    ensures 0.0 <= distance < 1.2 ==> c == WallColor
  {
    var shade := -Trunc(distance / 1.2);
    CorrectLightness(WallColor, if shade < 0 then shade else 0)
  }

  /** Strips are never lighter than the wall colour. */
  lemma StripColorNeverLighter(distance: real)
    ensures var c := StripColor(distance);
      c.r <= WallColor.r && c.g <= WallColor.g && c.b <= WallColor.b
  {
  }

  /** A farther wall is drawn no lighter than a nearer one. */
  lemma FartherIsDarker(d1: real, d2: real)
    requires d1 <= d2
    ensures var c1, c2 := StripColor(d1), StripColor(d2);
      c2.r <= c1.r && c2.g <= c1.g && c2.b <= c1.b
  {
    TruncMonotone(d1 / 1.2, d2 / 1.2);
    var s1, s2 := -Trunc(d1 / 1.2), -Trunc(d2 / 1.2);
    CorrectLightnessMonotone(WallColor, if s2 < 0 then s2 else 0, if s1 < 0 then s1 else 0);
  }

  /** One wall strip: the screen column of its ray, the hit distance and its
      colour (the sf::RectangleShape the source draws, as data). */
  datatype Strip = Strip(column: nat, distance: real, color: Color)

  /** The nearest hit of each ray of a pass. */
  function RayHits(rays: seq<Line>, edges: seq<Line>, sqrt: real -> real): (hits: seq<Option<Hit>>)
    ensures |hits| == |rays|
    ensures forall k :: 0 <= k < |rays| ==> hits[k] == Nearest(rays[k], edges, sqrt)
  {
    seq(|rays|, k requires 0 <= k < |rays| => Nearest(rays[k], edges, sqrt))
  }

  /** A prefix one longer is the shorter prefix plus the next element. */
  lemma PrefixStep<T>(s: seq<T>, n: nat)
    requires n < |s|
    ensures s[..n + 1] == s[..n] + [s[n]]
  {
  }

  /** The strips of a pass, given each ray's nearest hit, in ray order. */
  function Strips(hits: seq<Option<Hit>>): (strips: seq<Strip>)
    ensures |strips| <= |hits|
  {
    if |hits| == 0 then []
    else
      var n := |hits| - 1;
      var earlier := Strips(hits[..n]);
      match hits[n]
      case None => earlier
      case Some(h) => earlier + [Strip(n, h.distance, StripColor(h.distance))]
  }

  /** Strip columns are rays of the pass, in increasing order. */
  lemma {:induction false} StripsIncreasing(hits: seq<Option<Hit>>)
    ensures var strips := Strips(hits);
      (forall i :: 0 <= i < |strips| ==> strips[i].column < |hits|) &&
      (forall i, j :: 0 <= i < j < |strips| ==> strips[i].column < strips[j].column)
  {
    if |hits| > 0 {
      var n := |hits| - 1;
      StripsIncreasing(hits[..n]);
      PrefixStep(hits, n);
      StripsStep(hits[..n], hits[n]);
    }
  }

  /** Each strip carries the distance of its ray's hit and the matching
      colour. */
  lemma {:induction false} StripsMatchHits(hits: seq<Option<Hit>>)
    ensures var strips := Strips(hits);
      forall i :: 0 <= i < |strips| ==>
        strips[i].column < |hits| && hits[strips[i].column].Some? &&
        strips[i].distance == hits[strips[i].column].value.distance &&
        strips[i].color == StripColor(strips[i].distance)
  {
    if |hits| > 0 {
      var n := |hits| - 1;
      var init := hits[..n];
      StripsMatchHits(init);
      PrefixStep(hits, n);
      StripsStep(init, hits[n]);
      assert forall k :: 0 <= k < n ==> init[k] == hits[k];
    }
  }

  /** The number of rays that hit. */
  function HitCount(hits: seq<Option<Hit>>): nat
  {
    if |hits| == 0 then 0
    else HitCount(hits[..|hits| - 1]) + (if hits[|hits| - 1].Some? then 1 else 0)
  }

  /** One strip per hit. */
  lemma {:induction false} StripsCount(hits: seq<Option<Hit>>)
    ensures |Strips(hits)| == HitCount(hits)
  {
    if |hits| > 0 {
      var n := |hits| - 1;
      StripsCount(hits[..n]);
      PrefixStep(hits, n);
      StripsStep(hits[..n], hits[n]);
    }
  }

  /** The strip of a ray that hits comes after one strip per earlier hit. */
  lemma {:induction false} HitsHaveStrips(hits: seq<Option<Hit>>)
    ensures forall k :: 0 <= k < |hits| && hits[k].Some? ==>
      HitCount(hits[..k]) < |Strips(hits)| && Strips(hits)[HitCount(hits[..k])].column == k
  {
    if |hits| > 0 {
      var n := |hits| - 1;
      var init := hits[..n];
      HitsHaveStrips(init);
      StripsCount(init);
      PrefixStep(hits, n);
      StripsStep(init, hits[n]);
      var earlier, strips := Strips(init), Strips(hits);
      forall k | 0 <= k < |hits| && hits[k].Some?
        ensures HitCount(hits[..k]) < |strips| && strips[HitCount(hits[..k])].column == k
      {
        if k < n {
          assert hits[..k] == init[..k];
          assert init[k] == hits[k];
        }
      }
    }
  }

  /** One more hit adds its strip at the end; a miss adds nothing. */
  lemma StripsStep(hits: seq<Option<Hit>>, h: Option<Hit>)
    ensures Strips(hits + [h]) == Strips(hits) + (if h.Some? then [Strip(|hits|, h.value.distance, StripColor(h.value.distance))] else [])
  {
    assert (hits + [h])[..|hits|] == hits;
  }

  /** With no obstacle edges every ray keeps its far endpoint and no strip
      is drawn. */
  lemma NoObstacles(rays: seq<Line>, sqrt: real -> real)
    ensures Strips(RayHits(rays, [], sqrt)) == []
    ensures forall k :: 0 <= k < |rays| ==> Sample(rays[k], [], sqrt) == rays[k].p2
  {
    var hits := RayHits(rays, [], sqrt);
    forall k | 0 <= k < |rays|
      ensures hits[k].None?
    {
      assert HitsAlong(rays[k], [], sqrt) == [];
    }
    NoHitsNoStrips(hits);
  }

  /** Rays that hit nothing draw nothing. */
  lemma {:induction false} NoHitsNoStrips(hits: seq<Option<Hit>>)
    requires forall k :: 0 <= k < |hits| ==> hits[k].None?
    ensures Strips(hits) == []
  {
    if |hits| > 0 {
      NoHitsNoStrips(hits[..|hits| - 1]);
    }
  }

  /** A screen rectangle: top-left corner and size. */
  datatype Rect = Rect(x: real, y: real, width: real, height: real)

  /** The rectangle of a strip in the 1000 x 700 window: the width is
      1000 / (viewAngle / distanceRays), the height 100 / distance * 400,
      centred vertically. The source divides by both. */
  function StripRect(column: nat, distance: real, viewAngle: real, distanceRays: real): (r: Rect)
    requires distanceRays != 0.0 && viewAngle != 0.0 && distance != 0.0
    ensures r.height * distance == 40000.0
    ensures r.y + r.height / 2.0 == 350.0
    ensures r.width * viewAngle == 1000.0 * distanceRays
    ensures r.x == column as real * r.width
  {
    var width := 1000.0 / (viewAngle / distanceRays);
    var height := 100.0 / distance * 400.0;
    Rect(column as real * width, (700.0 - height) / 2.0, width, height)
  }

  /** A nearer hit gives a taller strip. */
  lemma NearerIsTaller(column1: nat, column2: nat, d1: real, d2: real, viewAngle: real, distanceRays: real)
    requires distanceRays != 0.0 && viewAngle != 0.0
    requires 0.0 < d1 < d2
    ensures StripRect(column1, d1, viewAngle, distanceRays).height > StripRect(column2, d2, viewAngle, distanceRays).height
  {
    var h1 := StripRect(column1, d1, viewAngle, distanceRays).height;
    var h2 := StripRect(column2, d2, viewAngle, distanceRays).height;
    assert h1 * d1 == h2 * d2 == 40000.0;
    assert h2 > 0.0;
    assert h1 * d1 > h2 * d1;
  }

  /** Every strip of a cast ray starts inside the 1000-pixel-wide window
      (the last one exactly at its right edge when viewAngle / distanceRays is
      a whole number). */
  lemma StripStartsInWindow(k: nat, distance: real, viewAngle: real, distanceRays: real)
    requires distanceRays > 0.0 && viewAngle > 0.0 && distance != 0.0
    requires k < RayCount(viewAngle, distanceRays)
    ensures 0.0 <= StripRect(k, distance, viewAngle, distanceRays).x <= 1000.0
  {
    var q := viewAngle / distanceRays;
    PositiveQuotient(viewAngle, distanceRays);
    assert q * distanceRays == viewAngle;
    var r := StripRect(k, distance, viewAngle, distanceRays);
    assert r.width * q == 1000.0;
    assert k as real <= q;
    assert r.width > 0.0;
    assert r.x == k as real * r.width <= q * r.width;
  }
}
