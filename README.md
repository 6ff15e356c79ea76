# Ray caster core, modelled in Dafny

This project models the geometry and ray-selection core of a small 2D ray
caster. A camera stands on a map of polygonal obstacles and sweeps a fan of
rays across its field of view. For each ray it finds the nearest crossing
with any obstacle edge. It stores that point, or the ray's far endpoint when
the ray hits nothing, in a fixed buffer. For each hit it emits a vertical
wall strip whose height shrinks and whose colour darkens with distance. The
model also covers the point-in-rectangle test of the tools header.

Coordinates are exact `real`s. Modules:

- `Geometry` (`geometry.dfy`): points and segments, the tolerant interval
  test `BelongingInterval`, `Swap`, distance, C++ float-to-int truncation and
  degree conversion.
- `Intersection` (`intersection.dfy`): `GetLineCoefficients` and
  `CrossingLines`. The `FLT_MAX` sentinel slope of a near-vertical segment
  becomes the `Slope.Vertical` flag. The output parameter becomes an
  `Option<Point>` result. `CandidatePoint` is the value written to the
  output parameter before the bounds check.
- `Lightness` (`lightness.dfy`): `CorrectLightness`, with C++ truncating
  integer division modelled explicitly as `TruncDiv`.
- `Rays` (`rays.dfy`): obstacle edges in scan order, and the strict-`<`
  nearest-hit fold `Scan`. `FirstNearest` is its independent reference
  definition. Also the per-ray sample.
- `Fan` (`fan.dfy`): the buffer size, the number of rays the angle loop
  casts, the ray fan, strip colour and rectangle, and the strips of a pass.
- `RayCasting` (`camera.dfy`): the `Camera` class, with its pose fields,
  constant view settings and the `pointsRays` array that its ray-casting pass
  fills in place. `ScanObstacles` is the nested edge loop for one ray.
- `Tools` (`tools.dfy`): `IsInsideRect`.

`cos`, `sin` and `sqrt` are supplied by the caller as the fields of
`Fan.Numerics`. A hit's distance is `sqrt` of the squared distance, and the
selection compares those values. So the selection results hold whatever
`sqrt` is.

Four details of the code the model keeps as written:

- The interval tolerance and the near-vertical threshold are the fixed
  constant 0.1 (`Geometry.Tolerance`).
- For `viewAngle >= 0` the loop casts `floor(viewAngle / distanceRays) + 1`
  rays into `int(viewAngle / distanceRays) + 1` slots. For a negative view
  angle it casts none.
- A strip is `1000 / (viewAngle / distanceRays)` pixels wide.
- `CrossingLines` places the candidate of a near-vertical segment at that
  segment's first endpoint x. So two segments can share an endpoint and
  still not be reported as crossing, when that endpoint is the second one
  of the near-vertical segment. `Intersection.NearVerticalMissesSharedEndpoint`
  shows such a pair.

## Model

| member | source | states |
|---|---|---|
| Geometry.Swap | RayCasting/RayCasting.cpp:386-392 | the pair comes back exchanged |
| Geometry.SwapInvolutive | RayCasting/RayCasting.cpp:386-392 | swapping twice restores both values |
| Geometry.BelongingInterval | RayCasting/RayCasting.cpp:375-382 | true iff num lies in [min(min,max) - 0.1, max(min,max) + 0.1], whatever order the bounds come in |
| Geometry.BelongingIntervalSymmetric | RayCasting/RayCasting.cpp:376-382 | passing the bounds in either order gives the same answer |
| Geometry.DistanceBetweenPoints | RayCasting/RayCasting.cpp:396-402 | sqrt of the squared distance; the same with the points swapped, and sqrt(0) from a point to itself, whatever sqrt is |
| Geometry.DegreesToRadians | RayCasting/RayCasting.cpp:368-371 | radians times 180 equals degrees times PI (3.14159265), and the sign is kept |
| Geometry.DistSq | RayCasting/RayCasting.cpp:396-402 | the squared distance under the square root is never negative |
| Geometry.Trunc | RayCasting/RayCasting.cpp:76 | the int cast truncates toward zero: for x >= 0 it lies in (x - 1, x], for x < 0 in [x, x + 1) |
| Geometry.TruncMonotone | RayCasting/RayCasting.cpp:218 | the int cast keeps the order of its arguments |
| Intersection.GetLineCoefficients | RayCasting/RayCasting.cpp:134-147 | y = kx + b passes through p1, and also through p2 when the x values differ; equal x values give k = 0 |
| Intersection.LineCoefficientsUnique | RayCasting/RayCasting.cpp:144-146 | when the x values differ, the computed (k, b) is the only line through both endpoints |
| Intersection.SolveTwoLines | RayCasting/RayCasting.cpp:115-119 | x = (b2 - b1) / (k1 - k2) satisfies both line equations and is the same with the lines swapped |
| Intersection.SolutionUnique | RayCasting/RayCasting.cpp:117 | any point on both lines has that x |
| Intersection.SlopeOf | RayCasting/RayCasting.cpp:84-98 | a segment is flagged vertical iff its x extent is below 0.1; otherwise both endpoints lie on its line |
| Intersection.Solve | RayCasting/RayCasting.cpp:100-119 | no solution iff the slopes compare equal |
| Intersection.SolveOnBoth | RayCasting/RayCasting.cpp:105-119 | the solution lies on both lines (a vertical line fixes x at its first endpoint) |
| Intersection.SolveAt | RayCasting/RayCasting.cpp:105-119 | any point on both lines is the solution |
| Intersection.SolveSymmetric | RayCasting/RayCasting.cpp:105-119 | solving the lines in either order gives the same point |
| Intersection.CandidatePoint | RayCasting/RayCasting.cpp:100-119 | no candidate iff the slopes compare equal, two vertical flags included |
| Intersection.CandidateFirstVertical | RayCasting/RayCasting.cpp:105-109 | a vertical first segment gives x = line_1.p1.x and y on the second line |
| Intersection.CandidateSecondVertical | RayCasting/RayCasting.cpp:110-114 | a vertical second segment gives x = line_2.p1.x and y on the first line |
| Intersection.CandidateSloped | RayCasting/RayCasting.cpp:115-119 | two sloped segments give the solved x, with y on the first line |
| Intersection.CrossingLines | RayCasting/RayCasting.cpp:82-130 | equal slopes or two near-vertical segments give no crossing; a crossing is the candidate and lies in both segments' bounding boxes widened by 0.1; a rejected candidate lies outside one of them |
| Intersection.CrossingFirstVertical | RayCasting/RayCasting.cpp:105-109 | with a near-vertical first segment, a crossing has x = line_1.p1.x and lies on the second segment's line |
| Intersection.CrossingSecondVertical | RayCasting/RayCasting.cpp:110-114 | with only the second segment near-vertical, a crossing has x = line_2.p1.x and lies on the first segment's line |
| Intersection.CrossingGeneral | RayCasting/RayCasting.cpp:115-119 | with neither segment near-vertical, a crossing satisfies both y = kx + b equations and is collinear with both segments |
| Intersection.CrossingLinesSymmetric | RayCasting/RayCasting.cpp:82-130 | swapping the two segments gives the same result |
| Intersection.CrossingAtPoint | RayCasting/RayCasting.cpp:82-130 | a point on both segments' lines (x = p1.x for a near-vertical one) and inside both widened boxes is reported as the crossing when the slopes differ |
| Intersection.CrossingAtSharedEndpoint | RayCasting/RayCasting.cpp:82-130 | segments of different slope that share an endpoint cross exactly there, when every near-vertical one of them shares its first endpoint |
| Intersection.NearVerticalMissesSharedEndpoint | RayCasting/RayCasting.cpp:105-129 | (0, 0)-(0.09, 10) and (0.09, 10)-(1.09, 20) share (0.09, 10) and differ in slope, yet the candidate is (0, 9.1) and no crossing is reported |
| Lightness.TruncDiv | RayCasting/RayCasting.cpp:408-410 | C++ int division by a positive divisor: the quotient is rounded toward zero |
| Lightness.TruncDivMonotone | RayCasting/RayCasting.cpp:408-410 | that division keeps the order of its dividends |
| Lightness.Clamp | RayCasting/RayCasting.cpp:408-410 | min(max(v, 0), 255) is a channel value, leaves in-range values unchanged and sends values below 0 to 0 and above 255 to 255 |
| Lightness.ClampMonotone | RayCasting/RayCasting.cpp:408-410 | clamping keeps order |
| Lightness.CorrectLightness | RayCasting/RayCasting.cpp:406-413 | every channel is in [0, 255]; delta = 0 returns a valid colour unchanged; delta <= 0 raises no channel and delta >= 0 lowers none |
| Lightness.CorrectLightnessMonotone | RayCasting/RayCasting.cpp:406-413 | a smaller delta never gives a lighter channel |
| Rays.EdgeOf | RayCasting/RayCasting.cpp:186-188 | edge p runs from point p to point p + 1, both offset by the obstacle's position; the last edge ends at point 0 |
| Rays.ObstacleEdges | RayCasting/RayCasting.cpp:182-188 | one edge per outline point; edge p runs from point p to point (p + 1) % count, both offset by the obstacle's position |
| Rays.EdgesFormClosedChain | RayCasting/RayCasting.cpp:186-188 | each edge ends where the next one starts, and the last one ends where the first one starts |
| Rays.AllEdges | RayCasting/RayCasting.cpp:180-188 | the scan visits exactly as many edges as there are outline points |
| Rays.AllEdgesAt | RayCasting/RayCasting.cpp:180-188 | edge p of obstacle j comes right after the edges of all earlier obstacles |
| Rays.EmptyObstacleAddsNothing | RayCasting/RayCasting.cpp:182-183 | an obstacle with no points contributes no edge |
| Rays.HitOf | RayCasting/RayCasting.cpp:186-191 | a ray and an edge give a hit iff CrossingLines reports a crossing |
| Rays.Keep | RayCasting/RayCasting.cpp:192-196 | one scan step keeps the best so far or takes the candidate; it has a hit iff either has one, and that hit is no farther than either |
| Rays.Scan | RayCasting/RayCasting.cpp:179-199 | the strict-`<` fold over the hits: its result is one of the hits and no farther than any of them; ScanNone, ScanIsFirstNearest and ScanSelects tie it to `FirstNearest` |
| Rays.ScanNone | RayCasting/RayCasting.cpp:179-201 | the scan finds nothing (minDistance stays at its sentinel) iff no edge is hit |
| Rays.ScanIsFirstNearest | RayCasting/RayCasting.cpp:179-199 | what the scan keeps is a hit strictly nearer than every earlier hit and no farther than any later one |
| Rays.FirstNearestUnique | RayCasting/RayCasting.cpp:192-196 | at most one hit is the first nearest |
| Rays.ScanSelects | RayCasting/RayCasting.cpp:192-196 | the scan returns exactly the first of the nearest hits (ties go to the earliest) |
| Rays.HitsAlong | RayCasting/RayCasting.cpp:183-189 | one possible hit per edge, in edge order |
| Rays.Nearest | RayCasting/RayCasting.cpp:178-199 | the scan over one ray's edges: its distance is the sqrt distance of its point from the camera, and it is no farther than any crossing of the ray with an edge |
| Rays.ScanStep | RayCasting/RayCasting.cpp:192-196 | one more edge is one more strict-`<` replacement step |
| Rays.NearestNone | RayCasting/RayCasting.cpp:201-204 | a ray keeps its far endpoint iff CrossingLines fails on every edge |
| Rays.SampleFrom | RayCasting/RayCasting.cpp:201-207 | the stored point is the hit point, or the far endpoint when there is no hit |
| Rays.Sample | RayCasting/RayCasting.cpp:201-207 | a ray that crosses no edge keeps its far endpoint; otherwise the stored point is no farther from the camera than any crossing |
| Rays.SampleIsFirstNearest | RayCasting/RayCasting.cpp:179-207 | the stored point of a ray is the crossing of the first of its nearest edges |
| Fan.BufferSize | RayCasting/RayCasting.cpp:76 | int(viewAngle / distanceRays) + 1 is at least 1 for a non-negative view angle, and not negative iff viewAngle > -2 * distanceRays, the condition for the resize to succeed |
| Fan.RayOffset | RayCasting/RayCasting.cpp:169-170 | ray 0 starts at -viewAngle / 2 and, for a positive step, every later ray lies to its right; RayOffsetStep gives the step of :224 |
| Fan.RayCount | RayCasting/RayCasting.cpp:169-170 | the loop casts some ray iff viewAngle >= 0; RayCountExact pins the count down |
| Fan.FarEndpoint | RayCasting/RayCasting.cpp:172-176 | when cos and sin of the ray's angle satisfy cos² + sin² = 1, the far endpoint is viewRange away from the camera |
| Fan.StripColor | RayCasting/RayCasting.cpp:217-218 | a valid colour, and the undarkened wall colour for a hit less than 1.2 away |
| Fan.Strips | RayCasting/RayCasting.cpp:205-221 | at most one strip per ray; StripsIncreasing, StripsMatchHits, StripsCount and HitsHaveStrips state which |
| Fan.RayOffsetStep | RayCasting/RayCasting.cpp:224 | adding distanceRays to the angle moves to the next ray's offset |
| Fan.RayCountExact | RayCasting/RayCasting.cpp:169-170 | ray k's offset is within viewAngle / 2 iff k < RayCount, so the loop casts exactly RayCount rays |
| Fan.RayCountFitsBuffer | RayCasting/RayCasting.cpp:76 | the rays cast never exceed the buffer sized at construction, and exactly fill it when viewAngle >= 0 |
| Fan.DefaultCameraRays | RayCasting/RayCasting.cpp:59 | the default 120-degree, 0.1-degree camera casts 1201 rays into 1201 slots |
| Fan.FanRays | RayCasting/RayCasting.cpp:169-176 | one ray per cast angle, each starting at the camera |
| Fan.FanRayAt | RayCasting/RayCasting.cpp:172-176 | ray k points at viewRange along heading plus offset k |
| Fan.StripColorNeverLighter | RayCasting/RayCasting.cpp:217-218 | a strip is never lighter than the wall colour (235, 26, 36) |
| Fan.FartherIsDarker | RayCasting/RayCasting.cpp:217-218 | a farther hit is drawn no lighter than a nearer one |
| Fan.RayHits | RayCasting/RayCasting.cpp:178-199 | one nearest hit per ray, in ray order |
| Fan.StripsIncreasing | RayCasting/RayCasting.cpp:205-221 | every strip's column is a ray of the pass, and columns strictly increase |
| Fan.StripsMatchHits | RayCasting/RayCasting.cpp:205-221 | each strip is for a ray that hits, with that hit's distance and the colour of that distance |
| Fan.StripsCount | RayCasting/RayCasting.cpp:205-221 | there are exactly as many strips as rays that hit |
| Fan.HitsHaveStrips | RayCasting/RayCasting.cpp:205-221 | the strip of a hitting ray k exists and sits after one strip per earlier hit |
| Fan.StripsStep | RayCasting/RayCasting.cpp:201-222 | a hitting ray appends its strip and a miss appends nothing |
| Fan.NoObstacles | RayCasting/RayCasting.cpp:201-204 | with no obstacle edges no strip is drawn and every ray keeps its far endpoint |
| Fan.StripRect | RayCasting/RayCasting.cpp:209-215 | the height times the distance is 40000, the strip is centred on y = 350, the width times viewAngle is 1000 * distanceRays, and x is the column times the width |
| Fan.NearerIsTaller | RayCasting/RayCasting.cpp:212 | a nearer hit gives a taller strip |
| Fan.StripStartsInWindow | RayCasting/RayCasting.cpp:211-215 | every cast ray's strip starts within the 1000-pixel window width |
| RayCasting.ScanObstacles | RayCasting/RayCasting.cpp:178-199 | the nested object and edge loops leave the first nearest hit over all edges in scan order |
| RayCasting.Camera.constructor | RayCasting/RayCasting.cpp:72-77 | stores the view settings and sizes pointsRays to int(viewAngle / distanceRays) + 1 slots |
| RayCasting.Camera.SetPosition | RayCasting/RayCasting.cpp:151-154 | sets the position and leaves the rotation alone |
| RayCasting.Camera.SetRotation | RayCasting/RayCasting.cpp:158-161 | sets the rotation and leaves the position alone |
| RayCasting.Camera.CastRay | RayCasting/RayCasting.cpp:172-207 | casts ray n of the current pose and stores its nearest crossing, or its far endpoint, in slot n; no other slot changes |
| RayCasting.Camera.RayCasting | RayCasting/RayCasting.cpp:165-226 | every cast ray fits the buffer; slot i - 1 gets ray i's nearest crossing, or its far endpoint when it hits nothing; later slots are unchanged; the strips are those of the hitting rays |
| Tools.IsInsideRect | RayCasting/Tools.hpp:24-39 | inside iff the offset from the position is between 0 and size times scale on both axes, bounds included, so a point left of or above the position is outside |
| Tools.CornersInside | RayCasting/Tools.hpp:32-33 | the position corner is inside iff the scaled size is not negative, and then so is the opposite corner |
| Tools.NegativeSizeIsEmpty | RayCasting/Tools.hpp:30-33 | a negative scaled width or height contains no point |
| Tools.ScaleFolds | RayCasting/Tools.hpp:30 | only the product of size and scale matters |
| Tools.TranslationInvariant | RayCasting/Tools.hpp:32-33 | moving the cursor and the rectangle together keeps the answer |
| Tools.InsideIsConvex | RayCasting/Tools.hpp:32-33 | the segment between two inside points stays inside |

## Left out

- `main`, including the window, the event loop, the clock and the ground rectangle: I/O.
- `Move` and `Rotate`: they poll the keyboard.
- `Camera::Show`, `DrawMap` and the `window.draw` of each strip: draw calls only. Strips are returned as `Fan.Strip` values, and their rectangle is `Fan.StripRect`.
- `CreateMap`: a fixed map of SFML shapes. It is only a fixture.
- `GetCursorPosition`: it reads the mouse.
- Floating-point behaviour is not modelled. That covers rounding in every computation, the `float` accumulation of `angleNow`, `FLT_MAX` as a value, and infinities from division by zero.
- `FLT_MAX` sentinels: the sentinel slope is the `Slope.Vertical` flag and the sentinel distance is `None`. A finite slope or distance that happens to equal `FLT_MAX` is not modelled.
- `cos`, `sin` and `sqrt` are caller-supplied functions, so no property of them is assumed. `DegreesToRadians` keeps the source's PI constant.
- RayCasting.Camera.constructor: the source leaves `rotationAngle` uninitialised; the model starts it at 0 and the camera at the origin.
- RayCasting.Camera.constructor: it requires a positive `distanceRays` and a non-negative buffer size. A zero step makes the source divide by zero, and a negative size makes the resize fail.
- RayCasting.Camera.RayCasting: it requires `Valid()`, so a positive `distanceRays`. The source accepts more and then misbehaves. With `distanceRays < 0` and `0 <= viewAngle < 2 * |distanceRays|` (say 0.05 and -0.1), the buffer gets 0 or 1 slots and the resize succeeds. The angle loop then never ends, because `angleNow` only decreases. It writes `pointsRays[i - 1]` past the buffer from the first pass when there are 0 slots (say 0.15 and -0.1), and from the second pass when there is 1. With `distanceRays == 0`, `angleNow` never moves. The model does not capture this non-termination or the out-of-bounds writes.
- Fan.StripRect: it requires a non-zero `viewAngle` and distance, because the source divides by both and float infinities are not modelled.
- Lightness.CorrectLightness: channels are unbounded integers. The 8-bit channel type of `sf::Color` and any `int` overflow of `delta * 59` are not modelled. `Color` has no alpha channel: the source returns `sf::Color(r, g, b)`, which is opaque whatever the input's alpha was.
- Intersection.CrossingLines: it returns `None` where the source returns false. The scratch point the source writes before rejecting a candidate is `Intersection.CandidatePoint`, and the caller never reads it.
- Obstacles are plain data (a position and outline points). The polymorphic `sf::Shape` interface is not modelled. Like the source, which reads only `getPoint(p) + getPosition()`, the model ignores a shape's scale, rotation and origin.
