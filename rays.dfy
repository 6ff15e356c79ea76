// What Camera::RayCasting of RayCasting/RayCasting.cpp computes for one ray,
// stated as functions: the obstacle edges in scan order, the nearest
// crossing of a ray with them (strict `<`, so the first of equally near hits
// wins) and the point kept for the ray. The fan of rays and the strips are
// in module Fan.
module Rays {
  import opened Geometry
  import opened Intersection
  import opened Lightness

  /** An sf::Shape as the ray caster sees it: its position and its outline
      points, local to that position. */
  datatype Obstacle = Obstacle(position: Point, points: seq<Point>)

  /** Edge p of an obstacle in world space; the last edge wraps around to
      point 0 and so closes the outline. */
  function EdgeOf(o: Obstacle, p: nat): (edge: Line)
    requires p < |o.points|
    ensures edge.p1 == Add(o.points[p], o.position)
    ensures p + 1 < |o.points| ==> edge.p2 == Add(o.points[p + 1], o.position)
    ensures p + 1 == |o.points| ==> edge.p2 == Add(o.points[0], o.position)
  {
    Line(Add(o.points[p], o.position), Add(o.points[(p + 1) % |o.points|], o.position))
  }

  function ObstacleEdges(o: Obstacle): (edges: seq<Line>)
    ensures |edges| == |o.points|
    ensures forall p :: 0 <= p < |edges| ==> edges[p] == EdgeOf(o, p)
  {
    seq(|o.points|, p requires 0 <= p < |o.points| => EdgeOf(o, p))
  }

  /** Consecutive edges share their endpoint and the last one ends where the
      first one starts: each obstacle is a closed polygon. */
  lemma EdgesFormClosedChain(o: Obstacle, p: nat)
    requires p < |o.points|
    ensures p + 1 < |o.points| ==> EdgeOf(o, p).p2 == EdgeOf(o, p + 1).p1
    ensures p + 1 == |o.points| ==> EdgeOf(o, p).p2 == EdgeOf(o, 0).p1
  {
    if p + 1 < |o.points| {
      assert (p + 1) % |o.points| == p + 1;
    } else {
      assert (p + 1) % |o.points| == 0;
    }
  }

  /** Total number of outline points. */
  function PointCount(objects: seq<Obstacle>): nat
  {
    if |objects| == 0 then 0
    else PointCount(objects[..|objects| - 1]) + |objects[|objects| - 1].points|
  }

  /** Every edge of every obstacle, in the order the scan visits them:
      obstacle by obstacle, edge by edge. */
  function AllEdges(objects: seq<Obstacle>): (edges: seq<Line>)
    ensures |edges| == PointCount(objects)
  {
    if |objects| == 0 then []
    else AllEdges(objects[..|objects| - 1]) + ObstacleEdges(objects[|objects| - 1])
  }

  /** Edge p of obstacle j is found after the edges of all earlier
      obstacles. */
  lemma {:induction false} AllEdgesAt(objects: seq<Obstacle>, j: nat, p: nat)
    requires j < |objects| && p < |objects[j].points|
    ensures PointCount(objects[..j]) + p < |AllEdges(objects)|
    ensures AllEdges(objects)[PointCount(objects[..j]) + p] == EdgeOf(objects[j], p)
  {
    var n := |objects|;
    var init := objects[..n - 1];
    assert objects[..n][..n - 1] == init;
    if j == n - 1 {
      assert objects[..j] == init;
    } else {
      assert objects[..j] == init[..j];
      AllEdgesAt(init, j, p);
    }
  }

  /** An obstacle without points adds no edge. */
  lemma EmptyObstacleAddsNothing(objects: seq<Obstacle>, position: Point)
    ensures AllEdges(objects + [Obstacle(position, [])]) == AllEdges(objects)
  {
    assert (objects + [Obstacle(position, [])])[..|objects|] == objects;
  }

  /** A crossing found on a ray, with its distance from the ray's start
      (the camera). */
  datatype Hit = Hit(point: Point, distance: real)

  /** The crossing of `ray` with `edge`, if any, with its distance. */
  function HitOf(ray: Line, edge: Line, sqrt: real -> real): (h: Option<Hit>)
    ensures h.Some? <==> CrossingLines(ray, edge).Some?
  {
    match CrossingLines(ray, edge)
    case None => None
    case Some(p) => Some(Hit(p, DistanceBetweenPoints(ray.p1, p, sqrt)))
  }

  /** One step of the scan: a hit replaces the best so far only when there
      is none yet or it is strictly nearer (the source's `distance <
      minDistance`, with FLT_MAX standing for "none yet"). */
  function Keep(best: Option<Hit>, candidate: Option<Hit>): (kept: Option<Hit>)
    ensures kept == best || kept == candidate
    ensures kept.None? <==> best.None? && candidate.None?
    ensures best.Some? ==> kept.Some? && kept.value.distance <= best.value.distance
    ensures candidate.Some? ==> kept.Some? && kept.value.distance <= candidate.value.distance
  {
    if candidate.Some? && (best.None? || candidate.value.distance < best.value.distance)
    then candidate
    else best
  }

  /** The result of scanning a sequence of possible hits in order. */
  function Scan(hits: seq<Option<Hit>>): (best: Option<Hit>)
    ensures best.Some? ==> best in hits
    ensures forall k :: 0 <= k < |hits| && hits[k].Some? ==>
              best.Some? && best.value.distance <= hits[k].value.distance
  {
    if |hits| == 0 then None
    else Keep(Scan(hits[..|hits| - 1]), hits[|hits| - 1])
  }

  /** Position k holds the hit the scan should report: it is a hit, every
      earlier hit is strictly farther and no later one is nearer. */
  ghost predicate FirstNearest(hits: seq<Option<Hit>>, k: int)
  {
    0 <= k < |hits| && hits[k].Some? &&
    (forall m :: 0 <= m < k && hits[m].Some? ==> hits[k].value.distance < hits[m].value.distance) &&
    (forall m :: k < m < |hits| && hits[m].Some? ==> hits[k].value.distance <= hits[m].value.distance)
  }

  /** The scan finds nothing exactly when there is no hit. */
  lemma {:induction false} ScanNone(hits: seq<Option<Hit>>)
    ensures Scan(hits).None? <==> forall k :: 0 <= k < |hits| ==> hits[k].None?
  {
    if |hits| > 0 {
      var init := hits[..|hits| - 1];
      ScanNone(init);
      assert forall k :: 0 <= k < |init| ==> init[k] == hits[k];
    }
  }

  /** What the scan finds is the first of the nearest hits. */
  lemma {:induction false} ScanIsFirstNearest(hits: seq<Option<Hit>>)
    requires Scan(hits).Some?
    ensures exists k :: FirstNearest(hits, k) && Scan(hits) == hits[k]
  {
    var n := |hits|;
    var init, last := hits[..n - 1], hits[n - 1];
    assert hits == init + [last];
    var best := Scan(init);
    if last.Some? && (best.None? || last.value.distance < best.value.distance) {
      if best.None? {
        ScanNone(init);
      } else {
        ScanIsFirstNearest(init);
        var k :| FirstNearest(init, k) && best == init[k];
        FirstNearestIsMinimal(init, k);
      }
      AppendNewFirstNearest(init, last);
    } else {
      ScanIsFirstNearest(init);
      var k :| FirstNearest(init, k) && best == init[k];
      AppendKeepsFirstNearest(init, last, k);
    }
  }

  /** The first nearest hit is no farther than any hit. */
  lemma FirstNearestIsMinimal(hits: seq<Option<Hit>>, k: int)
    requires FirstNearest(hits, k)
    ensures forall m :: 0 <= m < |hits| && hits[m].Some? ==> hits[k].value.distance <= hits[m].value.distance
  {
  }

  /** A hit strictly nearer than every earlier one becomes the first nearest. */
  lemma AppendNewFirstNearest(init: seq<Option<Hit>>, last: Option<Hit>)
    requires last.Some?
    requires forall m :: 0 <= m < |init| && init[m].Some? ==> last.value.distance < init[m].value.distance
    ensures FirstNearest(init + [last], |init|)
  {
    var hits := init + [last];
    assert forall m :: 0 <= m < |init| ==> hits[m] == init[m];
  }

  /** A later hit that is not strictly nearer leaves the first nearest. */
  lemma AppendKeepsFirstNearest(init: seq<Option<Hit>>, last: Option<Hit>, k: int)
    requires FirstNearest(init, k)
    requires last.Some? ==> init[k].value.distance <= last.value.distance
    ensures FirstNearest(init + [last], k)
  {
    var hits := init + [last];
    assert forall m :: 0 <= m < |init| ==> hits[m] == init[m];
  }

  /** At most one position is the first nearest. */
  lemma FirstNearestUnique(hits: seq<Option<Hit>>, k1: int, k2: int)
    requires FirstNearest(hits, k1) && FirstNearest(hits, k2)
    ensures k1 == k2
  {
  }

  /** So the scan reports exactly the first nearest hit. */
  lemma ScanSelects(hits: seq<Option<Hit>>, k: int)
    requires FirstNearest(hits, k)
    ensures Scan(hits) == hits[k]
  {
    ScanNone(hits);
    ScanIsFirstNearest(hits);
    var k' :| FirstNearest(hits, k') && Scan(hits) == hits[k'];
    FirstNearestUnique(hits, k, k');
  }

  /** The possible hits of a ray along a sequence of edges. */
  function HitsAlong(ray: Line, edges: seq<Line>, sqrt: real -> real): (hits: seq<Option<Hit>>)
    ensures |hits| == |edges|
    ensures forall k :: 0 <= k < |edges| ==> hits[k] == HitOf(ray, edges[k], sqrt)
  {
    seq(|edges|, k requires 0 <= k < |edges| => HitOf(ray, edges[k], sqrt))
  }

  /** The nearest crossing of a ray with the edges, scanned in order. */
  function Nearest(ray: Line, edges: seq<Line>, sqrt: real -> real): (nearest: Option<Hit>)
    ensures nearest.Some? ==> nearest.value.distance == DistanceBetweenPoints(ray.p1, nearest.value.point, sqrt)
    ensures forall k :: 0 <= k < |edges| && CrossingLines(ray, edges[k]).Some? ==>
              nearest.Some? &&
              nearest.value.distance <= DistanceBetweenPoints(ray.p1, CrossingLines(ray, edges[k]).value, sqrt)
  {
    var hits := HitsAlong(ray, edges, sqrt);
    var best := Scan(hits);
    assert best.Some? ==> exists k :: 0 <= k < |hits| && hits[k] == best;
    best
  }

  /** Scanning one more possible hit is one more Keep step. */
  lemma ScanStep(hits: seq<Option<Hit>>, h: Option<Hit>)
    ensures Scan(hits + [h]) == Keep(Scan(hits), h)
  {
    assert (hits + [h])[..|hits|] == hits;
  }

  /** One more edge adds its possible hit at the end. */
  lemma HitsAlongStep(ray: Line, edges: seq<Line>, edge: Line, sqrt: real -> real)
    ensures HitsAlong(ray, edges + [edge], sqrt) == HitsAlong(ray, edges, sqrt) + [HitOf(ray, edge, sqrt)]
  {
  }

  /** The scan after edge p of an obstacle is one Keep step on the scan
      before it. */
  lemma ScanEdgeStep(ray: Line, done: seq<Line>, o: Obstacle, p: nat, sqrt: real -> real)
    requires p < |o.points|
    ensures Scan(HitsAlong(ray, done + ObstacleEdges(o)[..p + 1], sqrt))
         == Keep(Scan(HitsAlong(ray, done + ObstacleEdges(o)[..p], sqrt)), HitOf(ray, EdgeOf(o, p), sqrt))
  {
    var before := done + ObstacleEdges(o)[..p];
    assert done + ObstacleEdges(o)[..p + 1] == before + [EdgeOf(o, p)];
    HitsAlongStep(ray, before, EdgeOf(o, p), sqrt);
    ScanStep(HitsAlong(ray, before, sqrt), HitOf(ray, EdgeOf(o, p), sqrt));
  }

  /** The edges of the first j + 1 obstacles are those of the first j
      followed by those of obstacle j. */
  lemma AllEdgesStep(objects: seq<Obstacle>, j: nat)
    requires j < |objects|
    ensures AllEdges(objects[..j + 1]) == AllEdges(objects[..j]) + ObstacleEdges(objects[j])
  {
    assert objects[..j + 1][..j] == objects[..j];
  }

  /** A ray's scan is empty exactly when it crosses no edge. */
  lemma NearestNone(ray: Line, edges: seq<Line>, sqrt: real -> real)
    ensures Nearest(ray, edges, sqrt).None? <==>
              forall k :: 0 <= k < |edges| ==> CrossingLines(ray, edges[k]).None?
  {
    ScanNone(HitsAlong(ray, edges, sqrt));
  }

  /** The point stored for a ray given its nearest hit: the hit point, or
      the ray's far endpoint when there is no hit. */
  function SampleFrom(ray: Line, nearest: Option<Hit>): (sample: Point)
    ensures nearest.None? ==> sample == ray.p2
    ensures nearest.Some? ==> sample == nearest.value.point
  {
    match nearest
    case None => ray.p2
    case Some(h) => h.point
  }

  /** The point stored for a ray: its nearest crossing, or its far endpoint
      when it crosses nothing. */
  function Sample(ray: Line, edges: seq<Line>, sqrt: real -> real): (sample: Point)
    ensures (forall k :: 0 <= k < |edges| ==> CrossingLines(ray, edges[k]).None?) ==> sample == ray.p2
    ensures forall k :: 0 <= k < |edges| && CrossingLines(ray, edges[k]).Some? ==>
              DistanceBetweenPoints(ray.p1, sample, sqrt)
                <= DistanceBetweenPoints(ray.p1, CrossingLines(ray, edges[k]).value, sqrt)
  {
    NearestNone(ray, edges, sqrt);
    SampleFrom(ray, Nearest(ray, edges, sqrt))
  }

  /** The stored point of a ray that crosses something is the crossing of
      the first of the nearest edges. */
  lemma SampleIsFirstNearest(ray: Line, edges: seq<Line>, sqrt: real -> real, k: int)
    requires FirstNearest(HitsAlong(ray, edges, sqrt), k)
    ensures 0 <= k < |edges| && CrossingLines(ray, edges[k]).Some?
    ensures Sample(ray, edges, sqrt) == CrossingLines(ray, edges[k]).value
  {
    ScanSelects(HitsAlong(ray, edges, sqrt), k);
  }
}
