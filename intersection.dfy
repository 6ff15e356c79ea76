// The segment intersection solver of RayCasting/RayCasting.cpp
// (Camera::CrossingLines and Camera::GetLineCoefficients): each segment is
// put in slope-intercept form, the two lines are solved, and the solution is
// kept only if it lies inside both segments' (tolerant) bounding boxes.
module Intersection {
  import opened Geometry

  /** p satisfies y = k*x + b. */
  predicate OnLine(k: real, b: real, p: Point)
  {
    p.y == k * p.x + b
  }

  /** p is collinear with the two endpoints of `line`; a statement about the
      infinite line through them that needs no slope. */
  predicate OnLineThrough(line: Line, p: Point)
  {
    (p.y - line.p1.y) * (line.p2.x - line.p1.x) == (line.p2.y - line.p1.y) * (p.x - line.p1.x)
  }

  /** The coefficients (k, b) of y = k*x + b. When both endpoints share their
      x the source falls back to the horizontal line through p1. */
  function GetLineCoefficients(line: Line): (kb: (real, real))
    ensures OnLine(kb.0, kb.1, line.p1)
    ensures line.p1.x != line.p2.x ==> OnLine(kb.0, kb.1, line.p2)
    ensures line.p1.x == line.p2.x ==> kb.0 == 0.0
  {
    if line.p1.x == line.p2.x then
      (0.0, line.p1.y)
    else
      var k := (line.p2.y - line.p1.y) / (line.p2.x - line.p1.x);
      assert k * (line.p2.x - line.p1.x) == line.p2.y - line.p1.y;
      (k, line.p1.y - k * line.p1.x)
  }

  /** When the endpoints' x differ, the line through both is unique, so the
      coefficients computed are the only ones that fit. */
  lemma LineCoefficientsUnique(line: Line, k: real, b: real)
    requires line.p1.x != line.p2.x
    requires OnLine(k, b, line.p1) && OnLine(k, b, line.p2)
    ensures GetLineCoefficients(line) == (k, b)
  {
    var dx := line.p2.x - line.p1.x;
    var k0 := (line.p2.y - line.p1.y) / dx;
    assert GetLineCoefficients(line).0 == k0;
    assert GetLineCoefficients(line).1 == line.p1.y - k0 * line.p1.x;
    SlopeUnique(k, k0, dx, line.p2.y - line.p1.y);
    assert GetLineCoefficients(line).1 == b;
  }

  /** Division by a non-zero value has a unique solution. */
  lemma SlopeUnique(k: real, k0: real, dx: real, dy: real)
    requires dx != 0.0 && k0 == dy / dx && k * dx == dy
    ensures k == k0
  {
    assert k0 * dx == dy;
    assert (k - k0) * dx == 0.0;
  }

  /** A point on a line y = k*x + b through both endpoints of `line` is
      collinear with them. */
  lemma OnLineCollinear(k: real, b: real, line: Line, p: Point)
    requires OnLine(k, b, line.p1) && OnLine(k, b, line.p2) && OnLine(k, b, p)
    ensures OnLineThrough(line, p)
  {
    var dx := line.p2.x - line.p1.x;
    var px := p.x - line.p1.x;
    assert p.y - line.p1.y == k * px;
    assert line.p2.y - line.p1.y == k * dx;
    calc {
      (p.y - line.p1.y) * dx;
    ==
      (k * px) * dx;
    ==
      (k * dx) * px;
    ==
      (line.p2.y - line.p1.y) * px;
    }
  }

  /** The solution of two lines with different slopes lies on both. */
  lemma SolveTwoLines(k1: real, b1: real, k2: real, b2: real)
    requires k1 != k2
    ensures var x := (b2 - b1) / (k1 - k2); k1 * x + b1 == k2 * x + b2
    ensures (b2 - b1) / (k1 - k2) == (b1 - b2) / (k2 - k1)
  {
    var x := (b2 - b1) / (k1 - k2);
    var x' := (b1 - b2) / (k2 - k1);
    assert x * (k1 - k2) == b2 - b1;
    assert x' * (k1 - k2) == b2 - b1;
    SlopeUnique(x', x, k1 - k2, b2 - b1);
  }

  /** A point on two lines with different slopes has the x the solver
      computes. */
  lemma SolutionUnique(k1: real, b1: real, k2: real, b2: real, p: Point)
    requires k1 != k2 && OnLine(k1, b1, p) && OnLine(k2, b2, p)
    ensures p.x == (b2 - b1) / (k1 - k2)
  {
    assert p.x * (k1 - k2) == b2 - b1;
    SlopeUnique(p.x, (b2 - b1) / (k1 - k2), k1 - k2, b2 - b1);
  }

  /** The slope form of a segment: the FLT_MAX sentinel slope of a
      near-vertical segment is the flag Vertical. */
  datatype Slope = Vertical | Sloped(k: real, b: real)

  /** A segment whose x extent is below Tolerance. */
  predicate NearVertical(line: Line)
  {
    Abs(line.p1.x - line.p2.x) < Tolerance
  }

  function SlopeOf(line: Line): (s: Slope)
    ensures s.Vertical? <==> NearVertical(line)
    ensures s.Sloped? ==> OnLine(s.k, s.b, line.p1) && OnLine(s.k, s.b, line.p2)
  {
    if Abs(line.p1.x - line.p2.x) >= Tolerance then
      var (k, b) := GetLineCoefficients(line);
      Sloped(k, b)
    else
      Vertical
  }

  /** The source's `k1 == k2`: two sentinel slopes compare equal, a
      sentinel never equals a real slope. */
  predicate SameSlope(s1: Slope, s2: Slope)
  {
    (s1.Vertical? && s2.Vertical?) || (s1.Sloped? && s2.Sloped? && s1.k == s2.k)
  }

  /** The crossing of two lines given by their slope forms; x1 and x2 are
      the x of the first endpoint of each segment, where a vertical line
      stands. None when the slopes compare equal. */
  function Solve(s1: Slope, s2: Slope, x1: real, x2: real): (c: Option<Point>)
    ensures c.None? <==> SameSlope(s1, s2)
  {
    if SameSlope(s1, s2) then
      None
    else if s1.Vertical? then
      Some(Point(x1, s2.k * x1 + s2.b))
    else if s2.Vertical? then
      Some(Point(x2, s1.k * x2 + s1.b))
    else
      var x := (s2.b - s1.b) / (s1.k - s2.k);
      Some(Point(x, s1.k * x + s1.b))
  }

  /** p is on the line of slope form s standing at x. */
  predicate OnSlope(s: Slope, x: real, p: Point)
  {
    if s.Vertical? then p.x == x else OnLine(s.k, s.b, p)
  }

  /** The solution lies on both lines. */
  lemma SolveOnBoth(s1: Slope, s2: Slope, x1: real, x2: real)
    requires !SameSlope(s1, s2)
    ensures OnSlope(s1, x1, Solve(s1, s2, x1, x2).value) && OnSlope(s2, x2, Solve(s1, s2, x1, x2).value)
  {
    if s1.Sloped? && s2.Sloped? {
      SolveTwoLines(s1.k, s1.b, s2.k, s2.b);
    }
  }

  /** The solution is the only point on both lines. */
  lemma SolveAt(s1: Slope, s2: Slope, x1: real, x2: real, q: Point)
    requires !SameSlope(s1, s2)
    requires OnSlope(s1, x1, q) && OnSlope(s2, x2, q)
    ensures Solve(s1, s2, x1, x2) == Some(q)
  {
    var c := Solve(s1, s2, x1, x2).value;
    if s1.Sloped? && s2.Sloped? {
      SolutionUnique(s1.k, s1.b, s2.k, s2.b, q);
    }
    assert c.x == q.x;
    assert c.y == q.y;
  }

  /** The order of the two lines does not matter. */
  lemma SolveSymmetric(s1: Slope, s2: Slope, x1: real, x2: real)
    ensures Solve(s1, s2, x1, x2) == Solve(s2, s1, x2, x1)
  {
    if !SameSlope(s1, s2) {
      SolveOnBoth(s1, s2, x1, x2);
      SolveAt(s2, s1, x2, x1, Solve(s1, s2, x1, x2).value);
    }
  }

  /** The point the source writes to *pCrossing before the bounds check:
      the crossing of the two infinite lines, or None when the slopes match. */
  function CandidatePoint(line1: Line, line2: Line): (c: Option<Point>)
    ensures c.None? <==> SameSlope(SlopeOf(line1), SlopeOf(line2))
  {
    Solve(SlopeOf(line1), SlopeOf(line2), line1.p1.x, line2.p1.x)
  }

  /** The candidate when the first segment is near-vertical. */
  lemma CandidateFirstVertical(line1: Line, line2: Line)
    requires NearVertical(line1) && !NearVertical(line2)
    ensures var s2 := SlopeOf(line2);
      CandidatePoint(line1, line2) == Some(Point(line1.p1.x, s2.k * line1.p1.x + s2.b))
  {
    var c := CandidatePoint(line1, line2);
    assert c.Some?;
    assert c.value.x == line1.p1.x;
    assert c.value.y == SlopeOf(line2).k * line1.p1.x + SlopeOf(line2).b;
  }

  /** The candidate when only the second segment is near-vertical. */
  lemma CandidateSecondVertical(line1: Line, line2: Line)
    requires !NearVertical(line1) && NearVertical(line2)
    ensures var s1 := SlopeOf(line1);
      CandidatePoint(line1, line2) == Some(Point(line2.p1.x, s1.k * line2.p1.x + s1.b))
  {
    var c := CandidatePoint(line1, line2);
    assert c.Some?;
    assert c.value.x == line2.p1.x;
    assert c.value.y == SlopeOf(line1).k * line2.p1.x + SlopeOf(line1).b;
  }

  /** The candidate when neither segment is near-vertical. */
  lemma CandidateSloped(line1: Line, line2: Line)
    requires !NearVertical(line1) && !NearVertical(line2)
    requires !SameSlope(SlopeOf(line1), SlopeOf(line2))
    ensures CandidatePoint(line1, line2).Some?
    ensures CandidatePoint(line1, line2).value.x ==
              (SlopeOf(line2).b - SlopeOf(line1).b) / (SlopeOf(line1).k - SlopeOf(line2).k)
    ensures CandidatePoint(line1, line2).value.y ==
              SlopeOf(line1).k * CandidatePoint(line1, line2).value.x + SlopeOf(line1).b
  {
    var s1, s2 := SlopeOf(line1), SlopeOf(line2);
    var x := (s2.b - s1.b) / (s1.k - s2.k);
    var c := CandidatePoint(line1, line2);
    assert c.Some?;
    assert c.value.x == x;
    assert c.value.y == s1.k * x + s1.b;
  }

  /** p lies in the bounding box of `line` widened by Tolerance on all sides. */
  predicate WithinBox(line: Line, p: Point)
  {
    Min(line.p1.x, line.p2.x) - Tolerance <= p.x <= Max(line.p1.x, line.p2.x) + Tolerance &&
    Min(line.p1.y, line.p2.y) - Tolerance <= p.y <= Max(line.p1.y, line.p2.y) + Tolerance
  }

  /** Camera::CrossingLines: the crossing of two segments, if any. */
  function CrossingLines(line1: Line, line2: Line): (r: Option<Point>)
    ensures SameSlope(SlopeOf(line1), SlopeOf(line2)) ==> r.None?
    ensures NearVertical(line1) && NearVertical(line2) ==> r.None?
    ensures r.Some? ==> CandidatePoint(line1, line2) == r
    ensures r.Some? ==> WithinBox(line1, r.value) && WithinBox(line2, r.value)
    ensures r.None? && CandidatePoint(line1, line2).Some? ==>
              var c := CandidatePoint(line1, line2).value;
              !(WithinBox(line1, c) && WithinBox(line2, c))
  {
    match CandidatePoint(line1, line2)
    case None => None
    case Some(p) =>
      if !BelongingInterval(line1.p1.x, line1.p2.x, p.x) ||
         !BelongingInterval(line1.p1.y, line1.p2.y, p.y) ||
         !BelongingInterval(line2.p1.x, line2.p2.x, p.x) ||
         !BelongingInterval(line2.p1.y, line2.p2.y, p.y)
      then None
      else Some(p)
  }

  /** A near-vertical first segment fixes x at its first endpoint; y then
      comes from the second segment's line. */
  lemma CrossingFirstVertical(line1: Line, line2: Line)
    requires NearVertical(line1)
    requires CrossingLines(line1, line2).Some?
    ensures !NearVertical(line2)
    ensures CrossingLines(line1, line2).value.x == line1.p1.x
    ensures OnLineThrough(line2, CrossingLines(line1, line2).value)
  {
    var s2 := SlopeOf(line2);
    var p := CrossingLines(line1, line2).value;
    CandidateFirstVertical(line1, line2);
    OnLineCollinear(s2.k, s2.b, line2, p);
  }

  /** Symmetrically, a near-vertical second segment (the first one not)
      fixes x at the second segment's first endpoint. */
  lemma CrossingSecondVertical(line1: Line, line2: Line)
    requires !NearVertical(line1) && NearVertical(line2)
    requires CrossingLines(line1, line2).Some?
    ensures CrossingLines(line1, line2).value.x == line2.p1.x
    ensures OnLineThrough(line1, CrossingLines(line1, line2).value)
  {
    var s1 := SlopeOf(line1);
    var p := CrossingLines(line1, line2).value;
    CandidateSecondVertical(line1, line2);
    OnLineCollinear(s1.k, s1.b, line1, p);
  }

  /** With neither segment near-vertical, the crossing satisfies both
      slope-intercept equations and so lies on both lines. */
  lemma CrossingGeneral(line1: Line, line2: Line)
    requires !NearVertical(line1) && !NearVertical(line2)
    requires CrossingLines(line1, line2).Some?
    ensures var p := CrossingLines(line1, line2).value;
      OnLine(SlopeOf(line1).k, SlopeOf(line1).b, p) && OnLine(SlopeOf(line2).k, SlopeOf(line2).b, p)
    ensures OnLineThrough(line1, CrossingLines(line1, line2).value)
    ensures OnLineThrough(line2, CrossingLines(line1, line2).value)
  {
    var s1, s2 := SlopeOf(line1), SlopeOf(line2);
    var p := CrossingLines(line1, line2).value;
    SolveOnBoth(s1, s2, line1.p1.x, line2.p1.x);
    assert OnLine(s1.k, s1.b, p) && OnLine(s2.k, s2.b, p);
    OnLineCollinear(s1.k, s1.b, line1, p);
    OnLineCollinear(s2.k, s2.b, line2, p);
  }

  /** The argument order does not matter. */
  lemma CrossingLinesSymmetric(line1: Line, line2: Line)
    ensures CrossingLines(line1, line2) == CrossingLines(line2, line1)
  {
    SolveSymmetric(SlopeOf(line1), SlopeOf(line2), line1.p1.x, line2.p1.x);
    assert CandidatePoint(line1, line2) == CandidatePoint(line2, line1);
  }

  /** Two segments with different slopes that share an endpoint cross
      exactly there (for a near-vertical segment, its first endpoint). */
  lemma CrossingAtSharedEndpoint(line1: Line, line2: Line, q: Point)
    requires q == line1.p1 || q == line1.p2
    requires q == line2.p1 || q == line2.p2
    requires NearVertical(line1) ==> q == line1.p1
    requires NearVertical(line2) ==> q == line2.p1
    requires !SameSlope(SlopeOf(line1), SlopeOf(line2))
    ensures CrossingLines(line1, line2) == Some(q)
  {
    CandidateAtSharedEndpoint(line1, line2, q);
    EndpointAccepted(line1, line2, q);
  }

  /** The converse of the bounds check: a point that lies on both segments'
      lines (on the vertical x = p1.x for a near-vertical segment) and
      within both widened boxes is reported as their crossing, when the
      slopes differ. */
  lemma CrossingAtPoint(line1: Line, line2: Line, q: Point)
    requires !SameSlope(SlopeOf(line1), SlopeOf(line2))
    requires OnSlope(SlopeOf(line1), line1.p1.x, q) && OnSlope(SlopeOf(line2), line2.p1.x, q)
    requires WithinBox(line1, q) && WithinBox(line2, q)
    ensures CrossingLines(line1, line2) == Some(q)
  {
    SolveAt(SlopeOf(line1), SlopeOf(line2), line1.p1.x, line2.p1.x, q);
  }

  /** The shared endpoint is missed when it is the second endpoint of a
      near-vertical segment: the candidate's x is that segment's first
      endpoint x, so its y falls outside the other segment's box. Here
      (0, 0)-(0.09, 10) and (0.09, 10)-(1.09, 20) share (0.09, 10), but the
      candidate is (0, 9.1). */
  lemma NearVerticalMissesSharedEndpoint(line1: Line, line2: Line)
    requires line1 == Line(Point(0.0, 0.0), Point(0.09, 10.0))
    requires line2 == Line(Point(0.09, 10.0), Point(1.09, 20.0))
    ensures line1.p2 == line2.p1 && NearVertical(line1)
    ensures !SameSlope(SlopeOf(line1), SlopeOf(line2))
    ensures CandidatePoint(line1, line2) == Some(Point(0.0, 9.1))
    ensures CrossingLines(line1, line2).None?
  {
    assert SlopeOf(line1) == Vertical;
    SecondSegmentSlope();
    SolveVerticalFirst(10.0, 9.1, line1.p1.x, line2.p1.x);
    assert !BelongingInterval(line2.p1.y, line2.p2.y, 9.1);
  }

  /** A vertical first line fixes x at its own x. */
  lemma SolveVerticalFirst(k: real, b: real, x1: real, x2: real)
    ensures Solve(Vertical, Sloped(k, b), x1, x2) == Some(Point(x1, k * x1 + b))
  {
    var c := Solve(Vertical, Sloped(k, b), x1, x2);
    assert c.value == Point(x1, k * x1 + b);
  }

  /** The slope form of (0.09, 10)-(1.09, 20): y = 10x + 9.1. */
  lemma SecondSegmentSlope()
    ensures SlopeOf(Line(Point(0.09, 10.0), Point(1.09, 20.0))) == Sloped(10.0, 9.1)
  {
    var line := Line(Point(0.09, 10.0), Point(1.09, 20.0));
    assert OnLine(10.0, 9.1, line.p1) && OnLine(10.0, 9.1, line.p2);
    LineCoefficientsUnique(line, 10.0, 9.1);
  }

  /** The candidate of two segments sharing an endpoint is that endpoint. */
  lemma CandidateAtSharedEndpoint(line1: Line, line2: Line, q: Point)
    requires q == line1.p1 || q == line1.p2
    requires q == line2.p1 || q == line2.p2
    requires NearVertical(line1) ==> q == line1.p1
    requires NearVertical(line2) ==> q == line2.p1
    requires !SameSlope(SlopeOf(line1), SlopeOf(line2))
    ensures CandidatePoint(line1, line2).Some?
    ensures CandidatePoint(line1, line2).value.x == q.x
    ensures CandidatePoint(line1, line2).value.y == q.y
  {
    EndpointOnSlope(line1, q);
    EndpointOnSlope(line2, q);
    SolveAt(SlopeOf(line1), SlopeOf(line2), line1.p1.x, line2.p1.x, q);
  }

  /** An endpoint of a segment is on its slope form; for a near-vertical
      segment, its first endpoint. */
  lemma EndpointOnSlope(line: Line, q: Point)
    requires q == line.p1 || q == line.p2
    requires NearVertical(line) ==> q == line.p1
    ensures OnSlope(SlopeOf(line), line.p1.x, q)
  {
  }

  /** A candidate that is an endpoint of both segments passes the bounds
      check. */
  lemma EndpointAccepted(line1: Line, line2: Line, q: Point)
    requires q == line1.p1 || q == line1.p2
    requires q == line2.p1 || q == line2.p2
    requires CandidatePoint(line1, line2).Some?
    requires CandidatePoint(line1, line2).value.x == q.x
    requires CandidatePoint(line1, line2).value.y == q.y
    ensures CrossingLines(line1, line2) == Some(q)
  {
    assert CandidatePoint(line1, line2).value == q;
  }
}
