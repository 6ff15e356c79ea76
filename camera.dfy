// The Camera class of RayCasting/RayCasting.cpp: its pose, its fixed view
// settings, the buffer of ray endpoints sized once at construction, and the
// ray-casting pass that fills the buffer and emits the wall strips.
module RayCasting {
  import opened Geometry
  import opened Intersection
  import opened Rays
  import opened Fan

  /** The inner loops of Camera::RayCasting for one ray: every edge of every
      obstacle is tried in order, and a crossing replaces the best one so far
      only when it is strictly nearer. */
  method ScanObstacles(ray: Line, objects: seq<Obstacle>, sqrt: real -> real) returns (nearest: Option<Hit>)
    ensures nearest == Nearest(ray, AllEdges(objects), sqrt)
  {
    nearest := None;
    var j := 0;
    while j < |objects|
      invariant 0 <= j <= |objects|
      invariant nearest == Scan(HitsAlong(ray, AllEdges(objects[..j]), sqrt))
    {
      var countPoints := |objects[j].points|;
      ghost var done := AllEdges(objects[..j]);
      var p := 0;
      assert done + ObstacleEdges(objects[j])[..0] == done;
      while p < countPoints
        invariant 0 <= p <= countPoints
        invariant nearest == Scan(HitsAlong(ray, done + ObstacleEdges(objects[j])[..p], sqrt))
      {
        var edge := Line(Add(objects[j].points[p], objects[j].position),
                         Add(objects[j].points[(p + 1) % countPoints], objects[j].position));
        assert edge == EdgeOf(objects[j], p);
        ScanEdgeStep(ray, done, objects[j], p, sqrt);
        var crossing := CrossingLines(ray, edge);
        if crossing.Some? {
          var distance := DistanceBetweenPoints(ray.p1, crossing.value, sqrt);
          if nearest.None? || distance < nearest.value.distance {
            nearest := Some(Hit(crossing.value, distance));
          }
        }
        p := p + 1;
      }
      assert ObstacleEdges(objects[j])[..countPoints] == ObstacleEdges(objects[j]);
      AllEdgesStep(objects, j);
      j := j + 1;
    }
    assert objects[..|objects|] == objects;
  }

  class Camera {
    var cameraPosition: Point
    var rotationAngle: real

    /** How far a ray reaches. */
    const viewRange: real
    /** The field of view, in degrees. */
    const viewAngle: real
    /** The angle between neighbouring rays, in degrees. */
    const distanceRays: real

    /** The endpoint of every ray of the last pass. */
    const pointsRays: array<Point>

    /** The step is positive and the buffer has its constructed size. The
        step must be positive for the angle loop of RayCasting to end:
        with a zero step angleNow never moves, and with a negative one it
        only decreases. */
    ghost predicate Valid()
    {
      distanceRays > 0.0 && pointsRays.Length == BufferSize(viewAngle, distanceRays)
    }

    /** The rays the next pass casts from the current pose. */
    ghost function CastRays(num: Numerics): seq<Line>
      reads this
      requires Valid()
    {
      FanRays(cameraPosition, rotationAngle, viewRange, viewAngle, distanceRays, num)
    }

    /** Sizes the buffer once, to int(viewAngle / distanceRays) + 1 slots
        holding the origin; the source leaves rotationAngle uninitialised,
        the model starts it at 0. */
    constructor (viewRange: real := 1000.0, viewAngle: real := 120.0, distanceRays: real := 0.1)
      requires distanceRays > 0.0 && BufferSize(viewAngle, distanceRays) >= 0
      ensures Valid() && fresh(pointsRays)
      ensures this.viewRange == viewRange && this.viewAngle == viewAngle && this.distanceRays == distanceRays
      ensures cameraPosition == Origin && rotationAngle == 0.0
      ensures forall k :: 0 <= k < pointsRays.Length ==> pointsRays[k] == Origin
    {
      this.viewRange := viewRange;
      this.viewAngle := viewAngle;
      this.distanceRays := distanceRays;
      pointsRays := new Point[BufferSize(viewAngle, distanceRays)](_ => Origin);
      cameraPosition := Origin;
      rotationAngle := 0.0;
    }

    method SetPosition(position: Point)
      modifies this
      ensures cameraPosition == position && rotationAngle == old(rotationAngle)
    {
      cameraPosition := position;
    }

    method SetRotation(angle: real)
      modifies this
      ensures rotationAngle == angle && cameraPosition == old(cameraPosition)
    {
      rotationAngle := angle;
    }

    /** The body of the angle loop for ray n: the ray from the camera to
        its far endpoint is scanned against every edge, and slot n receives
        the nearest crossing, or the far endpoint when there is none. */
    method CastRay(objects: seq<Obstacle>, num: Numerics, n: nat, angleNow: real) returns (nearest: Option<Hit>)
      requires Valid()
      requires n < RayCount(viewAngle, distanceRays) && n < pointsRays.Length
      requires angleNow == RayOffset(viewAngle, distanceRays, n)
      modifies pointsRays
      ensures nearest == Nearest(CastRays(num)[n], AllEdges(objects), num.sqrt)
      ensures pointsRays[n] == SampleFrom(CastRays(num)[n], nearest)
      ensures forall k :: 0 <= k < pointsRays.Length && k != n ==> pointsRays[k] == old(pointsRays[k])
    {
      var pos := FarEndpoint(cameraPosition, rotationAngle, viewRange, angleNow, num);
      var ray := Line(cameraPosition, pos);
      FanRayAt(cameraPosition, rotationAngle, viewRange, viewAngle, distanceRays, num, n);
      nearest := ScanObstacles(ray, objects, num.sqrt);
      if nearest.None? {
        pointsRays[n] := pos;
      } else {
        pointsRays[n] := nearest.value.point;
      }
    }

    /** One pass: ray i - 1 (i counting from 1) stores its nearest crossing,
        or its far endpoint when it crosses nothing, in pointsRays[i - 1],
        and every ray that hits emits a strip. Slots past the last ray keep
        their contents. */
    method RayCasting(objects: seq<Obstacle>, num: Numerics) returns (strips: seq<Strip>)
      requires Valid()
      modifies pointsRays
      ensures |CastRays(num)| <= pointsRays.Length
      ensures forall k :: 0 <= k < |CastRays(num)| ==> pointsRays[k] == Sample(CastRays(num)[k], AllEdges(objects), num.sqrt)
      ensures forall k :: |CastRays(num)| <= k < pointsRays.Length ==> pointsRays[k] == old(pointsRays[k])
      ensures strips == Strips(RayHits(CastRays(num), AllEdges(objects), num.sqrt))
    {
      ghost var rays := CastRays(num);
      ghost var hits := RayHits(rays, AllEdges(objects), num.sqrt);
      RayCountFitsBuffer(viewAngle, distanceRays);
      var angleNow := -(viewAngle / 2.0);
      var i := 1;
      strips := [];
      while angleNow <= viewAngle / 2.0
        invariant 1 <= i <= |rays| + 1
        invariant angleNow == RayOffset(viewAngle, distanceRays, i - 1)
        invariant forall k :: 0 <= k < i - 1 ==> pointsRays[k] == SampleFrom(rays[k], hits[k])
        invariant forall k :: i - 1 <= k < pointsRays.Length ==> pointsRays[k] == old(pointsRays[k])
        invariant strips == Strips(hits[..i - 1])
        decreases |rays| - (i - 1)
      {
        RayCountExact(viewAngle, distanceRays, i - 1);
        var nearest := CastRay(objects, num, i - 1, angleNow);
        assert nearest == hits[i - 1];
        PrefixStep(hits, i - 1);
        StripsStep(hits[..i - 1], nearest);
        if nearest.Some? {
          var minDistance := nearest.value.distance;
          strips := strips + [Strip(i - 1, minDistance, StripColor(minDistance))];
        }
        RayOffsetStep(viewAngle, distanceRays, i - 1);
        angleNow := angleNow + distanceRays;
        i := i + 1;
      }
      RayCountExact(viewAngle, distanceRays, i - 1);
      assert hits[..i - 1] == hits;
    }
  }
}
