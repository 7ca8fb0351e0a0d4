/** A line segment between two end points (Line.java): its end points and middle, an
    EPSILON-tolerant test for a point lying on it, the intersection of two segments by
    Cramer's rule, an EPSILON-tolerant equality, and the choice of the point of a list
    nearest to a given point. */
module Lines {
  import opened Numeric
  import opened Points

  /** The segment from (x1,y1) to (x2,y2); all four coordinates are final. */
  datatype Line = Line(x1: real, y1: real, x2: real, y2: real)

  function Start(l: Line): Point
  {
    Point(l.x1, l.y1)
  }

  function End(l: Line): Point
  {
    Point(l.x2, l.y2)
  }

  function Min(a: real, b: real): real
  {
    if a <= b then a else b
  }

  function Max(a: real, b: real): real
  {
    if a <= b then b else a
  }

  /** Line.length: the distance from the start to the end. */
  function Length(m: MathLib, l: Line): (r: real)
    ensures r == Distance(m, Start(l), End(l))
  {
    var r := m.sqrt(Square(l.x2 - l.x1) + Square(l.y2 - l.y1));
    assert Square(l.x2 - l.x1) == Square(l.x1 - l.x2) by {
      assert (l.x2 - l.x1) * (l.x2 - l.x1) == (l.x1 - l.x2) * (l.x1 - l.x2);
    }
    assert Square(l.y2 - l.y1) == Square(l.y1 - l.y2) by {
      assert (l.y2 - l.y1) * (l.y2 - l.y1) == (l.y1 - l.y2) * (l.y1 - l.y2);
    }
    r
  }

  /** Line.middle: the point halfway between the end points, that is, the point as far
      from the start as from the end, at half the length of the segment. */
  function Middle(l: Line): (r: Point)
    ensures DistanceSquared(r, Start(l)) == DistanceSquared(r, End(l))
    ensures 4.0 * DistanceSquared(r, Start(l)) == DistanceSquared(Start(l), End(l))
  {
    var r := Point((l.x1 + l.x2) / 2.0, (l.y1 + l.y2) / 2.0);
    assert Square(r.x - l.x1) == Square(r.x - l.x2) by {
      assert (r.x - l.x1) * (r.x - l.x1) == (r.x - l.x2) * (r.x - l.x2);
    }
    assert Square(r.y - l.y1) == Square(r.y - l.y2) by {
      assert (r.y - l.y1) * (r.y - l.y1) == (r.y - l.y2) * (r.y - l.y2);
    }
    assert 4.0 * Square(r.x - l.x1) == Square(l.x1 - l.x2) by {
      assert 4.0 * ((r.x - l.x1) * (r.x - l.x1)) == (l.x1 - l.x2) * (l.x1 - l.x2);
    }
    assert 4.0 * Square(r.y - l.y1) == Square(l.y1 - l.y2) by {
      assert 4.0 * ((r.y - l.y1) * (r.y - l.y1)) == (l.y1 - l.y2) * (l.y1 - l.y2);
    }
    r
  }

  /** p lies in the bounding box of l widened by EPSILON on every side. */
  predicate InBox(l: Line, p: Point)
  {
    var minX := Min(l.x1, l.x2) - EPSILON;
    var maxX := Max(l.x1, l.x2) + EPSILON;
    var minY := Min(l.y1, l.y2) - EPSILON;
    var maxY := Max(l.y1, l.y2) + EPSILON;
    !(p.x < minX || p.x > maxX || p.y < minY || p.y > maxY)
  }

  /** Line.isPointOnLine: p is in the widened bounding box and, for a segment that is
      nearly vertical, within EPSILON of its x; for one that is nearly horizontal, within
      EPSILON of its y; otherwise within EPSILON (vertically) of the carrier line
      y = slope * x + intercept. */
  predicate IsPointOnLine(l: Line, p: Point)
  {
    if !InBox(l, p) then false
    else
      var dx := l.x2 - l.x1;
      var dy := l.y2 - l.y1;
      if Threshold(dx, 0.0, EPSILON) then Threshold(p.x, l.x1, EPSILON)
      else if Threshold(dy, 0.0, EPSILON) then Threshold(p.y, l.y1, EPSILON)
      else
        var slope := dy / dx;
        var yIntercept := l.y1 - slope * l.x1;
        Threshold(p.y, slope * p.x + yIntercept, EPSILON)
  }

  /** On a nearly vertical segment, the points on it are those of the widened box within EPSILON of x1. */
  lemma OnNearlyVerticalLine(l: Line, p: Point)
    requires Threshold(l.x2 - l.x1, 0.0, EPSILON)
    ensures IsPointOnLine(l, p) <==> InBox(l, p) && Threshold(p.x, l.x1, EPSILON)
  {
  }

  /** On a nearly horizontal segment that is not nearly vertical, the points on it are
      those of the widened box within EPSILON of y1. */
  lemma OnNearlyHorizontalLine(l: Line, p: Point)
    requires !Threshold(l.x2 - l.x1, 0.0, EPSILON) && Threshold(l.y2 - l.y1, 0.0, EPSILON)
    ensures IsPointOnLine(l, p) <==> InBox(l, p) && Threshold(p.y, l.y1, EPSILON)
  {
  }

  /** The point a fraction t of the way from the start of l to its end. */
  function PointAt(l: Line, t: real): Point
  {
    Point(l.x1 + t * (l.x2 - l.x1), l.y1 + t * (l.y2 - l.y1))
  }

  /** t * a lies between 0 and a for 0 <= t <= 1. */
  lemma FractionBetween(t: real, a: real)
    requires 0.0 <= t <= 1.0
    ensures Min(0.0, a) <= t * a <= Max(0.0, a)
    ensures Abs(t * a) <= Abs(a)
  {
    if a >= 0.0 {
      assert 0.0 <= t * a;
      assert t * a <= 1.0 * a;
    } else {
      var b := -a;
      assert 0.0 <= t * b <= 1.0 * b;
      assert t * a == -(t * b);
    }
  }

  /** The point a fraction t along l, with l's slope, is on l's carrier line. */
  lemma SlopeThroughPointAt(l: Line, t: real)
    requires l.x2 - l.x1 != 0.0
    ensures var slope := (l.y2 - l.y1) / (l.x2 - l.x1);
      PointAt(l, t).y == slope * PointAt(l, t).x + (l.y1 - slope * l.x1)
  {
    var dx, dy := l.x2 - l.x1, l.y2 - l.y1;
    var slope := dy / dx;
    var p := PointAt(l, t);
    calc {
      slope * p.x + (l.y1 - slope * l.x1);
      l.y1 + t * (slope * dx);
      { assert slope * dx == dy; }
      l.y1 + t * dy;
      p.y;
    }
  }

  /** The point a fraction t along l is in l's widened box. */
  lemma PointAtInBox(l: Line, t: real)
    requires 0.0 <= t <= 1.0
    ensures InBox(l, PointAt(l, t))
  {
    FractionBetween(t, l.x2 - l.x1);
    FractionBetween(t, l.y2 - l.y1);
  }

  /** A fraction of an offset under EPSILON is under EPSILON. */
  lemma FractionOfSmall(t: real, a: real)
    requires 0.0 <= t <= 1.0 && Threshold(a, 0.0, EPSILON)
    ensures Threshold(t * a, 0.0, EPSILON)
  {
    FractionBetween(t, a);
  }

  /** Every point of the segment itself is on it, whatever its direction. */
  lemma PointsOfSegmentAreOnLine(l: Line, t: real)
    requires 0.0 <= t <= 1.0
    ensures IsPointOnLine(l, PointAt(l, t))
  {
    var dx, dy := l.x2 - l.x1, l.y2 - l.y1;
    var p := PointAt(l, t);
    PointAtInBox(l, t);
    if Threshold(dx, 0.0, EPSILON) {
      FractionOfSmall(t, dx);
      assert p.x - l.x1 == t * dx;
    } else if Threshold(dy, 0.0, EPSILON) {
      FractionOfSmall(t, dy);
      assert p.y - l.y1 == t * dy;
    } else {
      SlopeThroughPointAt(l, t);
    }
  }

  /** The middle of a segment is on it. */
  lemma MiddleIsOnLine(l: Line)
    ensures IsPointOnLine(l, Middle(l))
  {
    PointsOfSegmentAreOnLine(l, 0.5);
    assert PointAt(l, 0.5) == Middle(l);
  }

  /** The determinant of the two segments' direction vectors, as Line.intersectionWith computes it. */
  function Denominator(l: Line, o: Line): real
  {
    (l.x1 - l.x2) * (o.y1 - o.y2) - (l.y1 - l.y2) * (o.x1 - o.x2)
  }

  /** The numerators of Cramer's rule for the crossing of the two carrier lines. */
  function NumeratorX(l: Line, o: Line): real
  {
    (l.x1 * l.y2 - l.y1 * l.x2) * (o.x1 - o.x2) - (l.x1 - l.x2) * (o.x1 * o.y2 - o.y1 * o.x2)
  }

  function NumeratorY(l: Line, o: Line): real
  {
    (l.x1 * l.y2 - l.y1 * l.x2) * (o.y1 - o.y2) - (l.y1 - l.y2) * (o.x1 * o.y2 - o.y1 * o.x2)
  }

  /** The cross product of l's direction with the vector from l's start to p: zero exactly
      when p is on the infinite line through l. */
  function Cross(l: Line, p: Point): real
  {
    (p.x - l.x1) * (l.y2 - l.y1) - (p.y - l.y1) * (l.x2 - l.x1)
  }

  /** Line.intersectionWith: no point when the determinant is within EPSILON of zero
      (parallel or coincident segments); otherwise the crossing of the two carrier lines,
      provided it is on both segments. */
  function IntersectionWith(l: Line, o: Line): (r: Option<Point>)
    ensures Threshold(Denominator(l, o), 0.0, EPSILON) ==> r == None
    ensures r.Some? ==> InBox(l, r.value) && InBox(o, r.value)
    ensures r.Some? ==> Cross(l, r.value) == 0.0 && Cross(o, r.value) == 0.0
  {
    var denominator := Denominator(l, o);
    if Threshold(denominator, 0.0, EPSILON) then None
    else
      var intersection := Point(NumeratorX(l, o) / denominator, NumeratorY(l, o) / denominator);
      if IsPointOnLine(l, intersection) && IsPointOnLine(o, intersection) then
        CramerPointOnCarriers(l, o);
        Some(intersection)
      else None
  }

  lemma ZeroFactor(a: real, b: real)
    requires a * b == 0.0 && b != 0.0
    ensures a == 0.0
  {
    calc {
      a;
      (a * b) / b;
      0.0 / b;
      0.0;
    }
  }

  /** The polynomial identities behind Cramer's rule: scaled by the determinant, the
      crossing it gives has a zero cross product with each of the two segments. */
  lemma CramerIdentities(l: Line, o: Line)
    ensures var d, nx, ny := Denominator(l, o), NumeratorX(l, o), NumeratorY(l, o);
      && (nx - l.x1 * d) * (l.y2 - l.y1) - (ny - l.y1 * d) * (l.x2 - l.x1) == 0.0
      && (nx - o.x1 * d) * (o.y2 - o.y1) - (ny - o.y1 * d) * (o.x2 - o.x1) == 0.0
  {
  }

  /** The point given by Cramer's rule is on both carrier lines. */
  lemma CramerPointOnCarriers(l: Line, o: Line)
    requires Denominator(l, o) != 0.0
    ensures var p := Point(NumeratorX(l, o) / Denominator(l, o), NumeratorY(l, o) / Denominator(l, o));
      Cross(l, p) == 0.0 && Cross(o, p) == 0.0
  {
    var d := Denominator(l, o);
    var nx, ny := NumeratorX(l, o), NumeratorY(l, o);
    var p := Point(nx / d, ny / d);
    assert p.x * d == nx && p.y * d == ny;
    CramerIdentities(l, o);
    ScaledCross(l, p, d);
    ZeroFactor(Cross(l, p), d);
    ScaledCross(o, p, d);
    ZeroFactor(Cross(o, p), d);
  }

  lemma ScaledCross(l: Line, p: Point, d: real)
    ensures Cross(l, p) * d == (p.x * d - l.x1 * d) * (l.y2 - l.y1) - (p.y * d - l.y1 * d) * (l.x2 - l.x1)
  {
  }

  /** Two points on both carrier lines of non-parallel segments are the same point. */
  lemma CarriersMeetOnce(l: Line, o: Line, p: Point, q: Point)
    requires Denominator(l, o) != 0.0
    requires Cross(l, p) == 0.0 && Cross(o, p) == 0.0
    requires Cross(l, q) == 0.0 && Cross(o, q) == 0.0
    ensures p == q
  {
    var u, v := p.x - q.x, p.y - q.y;
    var a, b := l.y2 - l.y1, l.x2 - l.x1;
    var c, e := o.y2 - o.y1, o.x2 - o.x1;
    assert u * a - v * b == Cross(l, p) - Cross(l, q) == 0.0;
    assert u * c - v * e == Cross(o, p) - Cross(o, q) == 0.0;
    assert u * Denominator(l, o) == 0.0 by {
      calc {
        u * Denominator(l, o);
        u * (b * c - a * e);
        b * (u * c) - e * (u * a);
        { assert u * c == v * e; assert u * a == v * b; }
        b * (v * e) - e * (v * b);
        0.0;
      }
    }
    ZeroFactor(u, Denominator(l, o));
    assert v * Denominator(l, o) == 0.0 by {
      calc {
        v * Denominator(l, o);
        v * (b * c - a * e);
        c * (v * b) - a * (v * e);
        { assert u * c == v * e; assert u * a == v * b; }
        c * (u * a) - a * (u * c);
        0.0;
      }
    }
    ZeroFactor(v, Denominator(l, o));
  }

  /** The point a fraction t along a segment is on its carrier line. */
  lemma PointAtOnCarrier(l: Line, t: real)
    ensures Cross(l, PointAt(l, t)) == 0.0
  {
    calc {
      Cross(l, PointAt(l, t));
      (t * (l.x2 - l.x1)) * (l.y2 - l.y1) - (t * (l.y2 - l.y1)) * (l.x2 - l.x1);
      0.0;
    }
  }

  /** Conversely: where two segments that are not nearly parallel really cross, at a point
      a fraction t along the first and s along the second, that point is the intersection found. */
  lemma IntersectionFindsCrossing(l: Line, o: Line, t: real, s: real)
    requires !Threshold(Denominator(l, o), 0.0, EPSILON)
    requires 0.0 <= t <= 1.0 && 0.0 <= s <= 1.0
    requires PointAt(l, t) == PointAt(o, s)
    ensures IntersectionWith(l, o) == Some(PointAt(l, t))
  {
    var d := Denominator(l, o);
    var p := PointAt(l, t);
    var q := Point(NumeratorX(l, o) / d, NumeratorY(l, o) / d);
    CramerPointOnCarriers(l, o);
    PointAtOnCarrier(l, t);
    PointAtOnCarrier(o, s);
    CarriersMeetOnce(l, o, p, q);
    PointsOfSegmentAreOnLine(l, t);
    PointsOfSegmentAreOnLine(o, s);
  }

  /** Exchanging the two segments does not change the intersection. */
  lemma IntersectionSymmetric(l: Line, o: Line)
    ensures IntersectionWith(l, o) == IntersectionWith(o, l)
  {
    var d := Denominator(l, o);
    assert Denominator(o, l) == -d;
    assert NumeratorX(o, l) == -NumeratorX(l, o);
    assert NumeratorY(o, l) == -NumeratorY(l, o);
    assert Abs(-d) == Abs(d);
    if !Threshold(d, 0.0, EPSILON) {
      var p := Point(NumeratorX(l, o) / d, NumeratorY(l, o) / d);
      assert (-NumeratorX(l, o)) / (-d) == NumeratorX(l, o) / d;
      assert (-NumeratorY(l, o)) / (-d) == NumeratorY(l, o) / d;
      assert Point(NumeratorX(o, l) / Denominator(o, l), NumeratorY(o, l) / Denominator(o, l)) == p;
    }
  }

  /** Line.isIntersecting: whether the two segments have an intersection point. */
  predicate IsIntersecting(l: Line, o: Line)
  {
    IntersectionWith(l, o).Some?
  }

  /** Intersecting is a symmetric relation, and no segment intersects one nearly parallel to it. */
  lemma IsIntersectingLaws(l: Line, o: Line)
    ensures IsIntersecting(l, o) == IsIntersecting(o, l)
    ensures IsIntersecting(l, o) ==> !Threshold(Denominator(l, o), 0.0, EPSILON)
  {
    IntersectionSymmetric(l, o);
  }

  /** Line.equals: the end points agree within EPSILON, in the same or in the opposite order. */
  predicate Equals(l: Line, o: Line)
  {
    (Threshold(l.x1, o.x1, EPSILON) && Threshold(l.y1, o.y1, EPSILON)
      && Threshold(l.x2, o.x2, EPSILON) && Threshold(l.y2, o.y2, EPSILON))
    || (Threshold(l.x1, o.x2, EPSILON) && Threshold(l.y1, o.y2, EPSILON)
      && Threshold(l.x2, o.x1, EPSILON) && Threshold(l.y2, o.y1, EPSILON))
  }

  /** A segment equals itself and its reversal, and equality is symmetric. */
  lemma EqualsLaws(l: Line, o: Line)
    ensures Equals(l, l)
    ensures Equals(l, Line(l.x2, l.y2, l.x1, l.y1))
    ensures Equals(l, o) == Equals(o, l)
  {
    ThresholdSymmetric(l.x1, o.x1, EPSILON);
    ThresholdSymmetric(l.y1, o.y1, EPSILON);
    ThresholdSymmetric(l.x2, o.x2, EPSILON);
    ThresholdSymmetric(l.y2, o.y2, EPSILON);
    ThresholdSymmetric(l.x1, o.x2, EPSILON);
    ThresholdSymmetric(l.y1, o.y2, EPSILON);
    ThresholdSymmetric(l.x2, o.x1, EPSILON);
    ThresholdSymmetric(l.y2, o.y1, EPSILON);
  }

  /** pts[i] is at the least distance from `from` of all the points, and strictly nearer
      than every point before it: the point a scan keeping the first strict improvement picks. */
  predicate FirstNearest(m: MathLib, from: Point, pts: seq<Point>, i: int)
  {
    && 0 <= i < |pts|
    && (forall j :: 0 <= j < |pts| ==> Distance(m, from, pts[i]) <= Distance(m, from, pts[j]))
    && (forall j :: 0 <= j < i ==> Distance(m, from, pts[i]) < Distance(m, from, pts[j]))
  }

  /** The index a left-to-right scan selects: the last point replaces the best of the
      ones before it when it is strictly nearer. */
  function NearestIndex(m: MathLib, from: Point, pts: seq<Point>): (r: Option<nat>)
    ensures r.None? <==> pts == []
    ensures r.Some? ==> r.value < |pts|
    decreases |pts|
  {
    if pts == [] then None
    else
      var n := |pts| - 1;
      var prev := NearestIndex(m, from, pts[..n]);
      if prev.None? || Distance(m, from, pts[n]) < Distance(m, from, pts[prev.value]) then
        Some(n)
      else
        prev
  }

  /** The index selected is the first nearest. */
  lemma {:induction false} NearestIndexIsFirstNearest(m: MathLib, from: Point, pts: seq<Point>)
    ensures var r := NearestIndex(m, from, pts); r.Some? ==> FirstNearest(m, from, pts, r.value)
    decreases |pts|
  {
    if pts != [] {
      var n := |pts| - 1;
      var front := pts[..n];
      NearestIndexIsFirstNearest(m, from, front);
      assert forall j :: 0 <= j < n ==> front[j] == pts[j];
    }
  }

  /** The point of pts nearest to `from`, the earliest one on ties; None when there is none. */
  function Nearest(m: MathLib, from: Point, pts: seq<Point>): (r: Option<Point>)
    ensures r.None? <==> pts == []
  {
    match NearestIndex(m, from, pts)
    case None => None
    case Some(i) => Some(pts[i])
  }

  /** The point chosen is one of the points, at the least distance from `from` of all of
      them and strictly nearer than every point before it. */
  lemma NearestIsFirstNearest(m: MathLib, from: Point, pts: seq<Point>)
    ensures var r := Nearest(m, from, pts);
      r.Some? ==> exists i :: FirstNearest(m, from, pts, i) && pts[i] == r.value
  {
    var k := NearestIndex(m, from, pts);
    NearestIndexIsFirstNearest(m, from, pts);
    if k.Some? {
      assert FirstNearest(m, from, pts, k.value) && pts[k.value] == Nearest(m, from, pts).value;
    }
  }

  /** At most one index is the first nearest. */
  lemma FirstNearestUnique(m: MathLib, from: Point, pts: seq<Point>, i: int, k: int)
    requires FirstNearest(m, from, pts, i) && FirstNearest(m, from, pts, k)
    ensures i == k
  {
    var di, dk := Distance(m, from, pts[i]), Distance(m, from, pts[k]);
    assert di <= dk && dk <= di;
    assert i < k ==> dk < di;
    assert k < i ==> di < dk;
  }

  /** With the true square root, the nearest point by distance is the nearest point by
      squared distance: the choice does not depend on the square root's exact values. */
  lemma FirstNearestBySquares(m: MathLib, from: Point, pts: seq<Point>, i: int)
    requires IsSqrt(m.sqrt)
    ensures FirstNearest(m, from, pts, i) <==>
      && 0 <= i < |pts|
      && (forall j :: 0 <= j < |pts| ==> DistanceSquared(from, pts[i]) <= DistanceSquared(from, pts[j]))
      && (forall j :: 0 <= j < i ==> DistanceSquared(from, pts[i]) < DistanceSquared(from, pts[j]))
  {
    if 0 <= i < |pts| {
      forall j | 0 <= j < |pts|
        ensures Distance(m, from, pts[i]) < Distance(m, from, pts[j])
            <==> DistanceSquared(from, pts[i]) < DistanceSquared(from, pts[j])
        ensures Distance(m, from, pts[j]) < Distance(m, from, pts[i])
            <==> DistanceSquared(from, pts[j]) < DistanceSquared(from, pts[i])
      {
        DistanceOrder(m, from, pts[i], pts[j]);
        DistanceOrder(m, from, pts[j], pts[i]);
      }
    }
  }
}
