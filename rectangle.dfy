/** An axis-parallel rectangle given by its upper-left corner, width and height
    (Rectangle.java), with y growing downwards: its four edges, the points where a
    segment crosses them, the EPSILON-tolerant containment test, and the crossing
    nearest to the start of a segment (Line.closestIntersectionToStartOfLine, placed here
    because it needs both segments and rectangles). */
module Rectangles {
  import opened Numeric
  import opened Points
  import opened Lines

  /** All three fields are final; the getters are the datatype's fields. */
  datatype Rectangle = Rectangle(upperLeft: Point, width: real, height: real)

  function UpperLeft(r: Rectangle): Point
  {
    r.upperLeft
  }

  function UpperRight(r: Rectangle): Point
  {
    Point(r.upperLeft.x + r.width, r.upperLeft.y)
  }

  function LowerLeft(r: Rectangle): Point
  {
    Point(r.upperLeft.x, r.upperLeft.y + r.height)
  }

  function LowerRight(r: Rectangle): Point
  {
    Point(r.upperLeft.x + r.width, r.upperLeft.y + r.height)
  }

  const TOP: nat := 0
  const BOTTOM: nat := 1
  const LEFT: nat := 2
  const RIGHT: nat := 3

  /** Rectangle.getEdges: the four edges, in the order top, bottom, left, right; the
      horizontal ones run left to right and the vertical ones top to bottom. */
  function Edges(r: Rectangle): (es: seq<Line>)
    ensures |es| == 4
    ensures Start(es[TOP]) == UpperLeft(r) && End(es[TOP]) == UpperRight(r)
    ensures Start(es[BOTTOM]) == LowerLeft(r) && End(es[BOTTOM]) == LowerRight(r)
    ensures Start(es[LEFT]) == UpperLeft(r) && End(es[LEFT]) == LowerLeft(r)
    ensures Start(es[RIGHT]) == UpperRight(r) && End(es[RIGHT]) == LowerRight(r)
  {
    var x1 := r.upperLeft.x;
    var y1 := r.upperLeft.y;
    var x2 := r.upperLeft.x + r.width;
    var y2 := r.upperLeft.y + r.height;
    [Line(x1, y1, x2, y1), Line(x1, y2, x2, y2), Line(x1, y1, x1, y2), Line(x2, y1, x2, y2)]
  }

  /** The present values of a sequence of optional points, in order. */
  function Present(hits: seq<Option<Point>>): (pts: seq<Point>)
    ensures |pts| <= |hits|
    decreases |hits|
  {
    if hits == [] then []
    else
      var n := |hits| - 1;
      match hits[n]
      case None => Present(hits[..n])
      case Some(p) => Present(hits[..n]) + [p]
  }

  /** The indices of the present values, in increasing order. */
  ghost function PresentIndices(hits: seq<Option<Point>>): seq<nat>
    decreases |hits|
  {
    if hits == [] then []
    else
      var n := |hits| - 1;
      if hits[n].Some? then PresentIndices(hits[..n]) + [n] else PresentIndices(hits[..n])
  }

  /** The present values correspond one to one, in order, to the indices where a value is
      present. */
  lemma {:induction false} PresentFollowsIndices(hits: seq<Option<Point>>)
    ensures var pts, ks := Present(hits), PresentIndices(hits);
      && |ks| == |pts|
      && (forall j :: 0 <= j < |ks| ==> ks[j] < |hits| && hits[ks[j]] == Some(pts[j]))
      && (forall i, j :: 0 <= i < j < |ks| ==> ks[i] < ks[j])
      && (forall k :: 0 <= k < |hits| && hits[k].Some? ==> k in ks)
    decreases |hits|
  {
    if hits != [] {
      var n := |hits| - 1;
      var front := hits[..n];
      PresentFollowsIndices(front);
      assert forall k :: 0 <= k < n ==> front[k] == hits[k];
      var pts0, ks0 := Present(front), PresentIndices(front);
      match hits[n]
      case None =>
        assert Present(hits) == pts0 && PresentIndices(hits) == ks0;
      case Some(p) =>
        assert Present(hits) == pts0 + [p] && PresentIndices(hits) == ks0 + [n];
        assert forall j :: 0 <= j < |ks0| ==> ks0[j] < n;
    }
  }

  /** Nothing is present exactly when every value is absent. */
  lemma {:induction false} PresentEmpty(hits: seq<Option<Point>>)
    ensures Present(hits) == [] <==> forall k :: 0 <= k < |hits| ==> hits[k].None?
    decreases |hits|
  {
    if hits != [] {
      var n := |hits| - 1;
      var front := hits[..n];
      PresentEmpty(front);
      assert forall k :: 0 <= k < n ==> front[k] == hits[k];
    }
  }

  /** The result of testing each edge, as the receiver, against `line`. */
  function Hits(edges: seq<Line>, line: Line): (hs: seq<Option<Point>>)
    ensures |hs| == |edges|
    decreases |edges|
  {
    if edges == [] then []
    else
      var n := |edges| - 1;
      Hits(edges[..n], line) + [IntersectionWith(edges[n], line)]
  }

  /** The k-th result is the test of the k-th edge. */
  lemma {:induction false} HitsAt(edges: seq<Line>, line: Line, k: nat)
    requires k < |edges|
    ensures Hits(edges, line)[k] == IntersectionWith(edges[k], line)
    decreases |edges|
  {
    var n := |edges| - 1;
    if k < n {
      HitsAt(edges[..n], line, k);
    }
  }

  /** Every result is the test of the edge at the same position. */
  lemma HitsAll(edges: seq<Line>, line: Line)
    ensures forall k :: 0 <= k < |edges| ==> Hits(edges, line)[k] == IntersectionWith(edges[k], line)
  {
    forall k | 0 <= k < |edges|
      ensures Hits(edges, line)[k] == IntersectionWith(edges[k], line)
    {
      HitsAt(edges, line, k);
    }
  }

  /** The intersection points of `line` with the edges, in edge order, skipping the edges it does not meet. */
  function Crossings(edges: seq<Line>, line: Line): (pts: seq<Point>)
  {
    Present(Hits(edges, line))
  }

  /** There is no crossing exactly when no edge is met. */
  lemma CrossingsEmpty(edges: seq<Line>, line: Line)
    ensures Crossings(edges, line) == [] <==> forall k :: 0 <= k < |edges| ==> IntersectionWith(edges[k], line).None?
  {
    PresentEmpty(Hits(edges, line));
    HitsAll(edges, line);
  }

  /** At most one crossing per edge, and the crossings correspond one to one, in order, to
      the edges met: the j-th crossing is the intersection with the j-th edge met, and
      every edge met contributes its crossing. */
  lemma CrossingsFollowEdges(edges: seq<Line>, line: Line)
    ensures var pts, ks := Crossings(edges, line), PresentIndices(Hits(edges, line));
      && |pts| <= |edges|
      && |ks| == |pts|
      && (forall j :: 0 <= j < |ks| ==> ks[j] < |edges| && IntersectionWith(edges[ks[j]], line) == Some(pts[j]))
      && (forall i, j :: 0 <= i < j < |ks| ==> ks[i] < ks[j])
      && (forall k :: 0 <= k < |edges| && IntersectionWith(edges[k], line).Some? ==> k in ks)
  {
    var hs := Hits(edges, line);
    PresentFollowsIndices(hs);
    HitsAll(edges, line);
  }

  /** Each crossing is the intersection of `line` with one of the edges. */
  lemma CrossingFromEdge(edges: seq<Line>, line: Line, p: Point)
    requires p in Crossings(edges, line)
    ensures exists k :: 0 <= k < |edges| && IntersectionWith(edges[k], line) == Some(p)
  {
    var hs := Hits(edges, line);
    PresentFollowsIndices(hs);
    HitsAll(edges, line);
    var ks := PresentIndices(hs);
    var j :| 0 <= j < |Present(hs)| && Present(hs)[j] == p;
    assert IntersectionWith(edges[ks[j]], line) == Some(p);
  }

  /** Testing one more edge adds its intersection, if there is one, at the end. */
  lemma CrossingsStep(edges: seq<Line>, line: Line, i: nat)
    requires i < |edges|
    ensures var hit := IntersectionWith(edges[i], line);
      Present(Hits(edges[..i + 1], line))
        == Present(Hits(edges[..i], line)) + (if hit.Some? then [hit.value] else [])
  {
    assert edges[..i + 1][..i] == edges[..i];
  }

  /** The points where `line` crosses the edges of r. */
  function EdgeIntersections(r: Rectangle, line: Line): (pts: seq<Point>)
    ensures |pts| <= 4
  {
    Crossings(Edges(r), line)
  }

  /** Rectangle.intersectionPoints: tests the edges one after the other and collects the
      points found. */
  method IntersectionPoints(r: Rectangle, line: Line) returns (pts: seq<Point>)
    ensures pts == EdgeIntersections(r, line)
  {
    pts := [];
    var edges := Edges(r);
    for i := 0 to |edges|
      invariant pts == Present(Hits(edges[..i], line))
    {
      CrossingsStep(edges, line, i);
      var intersection := IntersectionWith(edges[i], line);
      if intersection.Some? {
        pts := pts + [intersection.value];
      }
    }
    assert edges[..|edges|] == edges;
  }

  /** Every crossing lies within EPSILON of the rectangle on both axes. */
  lemma EdgeIntersectionsNearRectangle(r: Rectangle, line: Line, p: Point)
    requires p in EdgeIntersections(r, line)
    ensures Min(r.upperLeft.x, r.upperLeft.x + r.width) - EPSILON <= p.x <= Max(r.upperLeft.x, r.upperLeft.x + r.width) + EPSILON
    ensures Min(r.upperLeft.y, r.upperLeft.y + r.height) - EPSILON <= p.y <= Max(r.upperLeft.y, r.upperLeft.y + r.height) + EPSILON
  {
    var es := Edges(r);
    CrossingFromEdge(es, line, p);
    var k :| 0 <= k < |es| && IntersectionWith(es[k], line) == Some(p);
    assert InBox(es[k], p);
  }

  /** Rectangle.contains: p is strictly inside on both axes, or within EPSILON of a corner
      on both axes. */
  predicate Contains(r: Rectangle, p: Point)
  {
    var rx := r.upperLeft.x;
    var ry := r.upperLeft.y;
    var insideXBounds := p.x > rx && p.x < rx + r.width;
    var insideYBounds := p.y > ry && p.y < ry + r.height;
    var onEdgeXBounds := Threshold(p.x, rx, EPSILON) || Threshold(p.x, rx + r.width, EPSILON);
    var onEdgeYBounds := Threshold(p.y, ry, EPSILON) || Threshold(p.y, ry + r.height, EPSILON);
    (insideXBounds && insideYBounds) || (onEdgeXBounds && onEdgeYBounds)
  }

  /** Every point strictly inside the rectangle is contained. */
  lemma ContainsInterior(r: Rectangle, p: Point)
    requires r.upperLeft.x < p.x < r.upperLeft.x + r.width
    requires r.upperLeft.y < p.y < r.upperLeft.y + r.height
    ensures Contains(r, p)
  {
  }

  /** Every point within EPSILON of a corner on both axes is contained. */
  lemma ContainsNearCorner(r: Rectangle, p: Point, corner: Point)
    requires corner in [UpperLeft(r), UpperRight(r), LowerLeft(r), LowerRight(r)]
    requires Threshold(p.x, corner.x, EPSILON) && Threshold(p.y, corner.y, EPSILON)
    ensures Contains(r, p)
  {
  }

  /** A point on an edge at least EPSILON away from both of the edge's corners is not
      contained: only the interior and the corner neighbourhoods are. */
  lemma ContainsRejectsEdgesAwayFromCorners(r: Rectangle, p: Point)
    requires
      || ((p.y == r.upperLeft.y || p.y == r.upperLeft.y + r.height)
          && r.upperLeft.x + EPSILON <= p.x <= r.upperLeft.x + r.width - EPSILON)
      || ((p.x == r.upperLeft.x || p.x == r.upperLeft.x + r.width)
          && r.upperLeft.y + EPSILON <= p.y <= r.upperLeft.y + r.height - EPSILON)
    ensures !Contains(r, p)
  {
  }

  /** Line.closestIntersectionToStartOfLine: among the points where `line` crosses the
      rectangle's edges, the one nearest to the start of `line`, the earliest on ties; None
      when it crosses none. */
  method ClosestIntersectionToStartOfLine(m: MathLib, line: Line, rect: Rectangle) returns (closest: Option<Point>)
    ensures closest == Nearest(m, Start(line), EdgeIntersections(rect, line))
  {
    var intersections := IntersectionPoints(rect, line);
    if |intersections| == 0 {
      return None;
    }
    closest := None;
    var closestDistance := 0.0;
    var start := Start(line);
    for i := 0 to |intersections|
      invariant closest == Nearest(m, start, intersections[..i])
      invariant closest.Some? ==> closestDistance == Distance(m, start, closest.value)
    {
      var p := intersections[i];
      var distance := Distance(m, start, p);
      NearestStep(m, start, intersections, i);
      if closest.None? || distance < closestDistance {
        closestDistance := distance;
        closest := Some(p);
      }
    }
    assert intersections[..|intersections|] == intersections;
  }

  /** Extending the scanned prefix by one point: that point becomes the nearest when there
      was none or it is strictly nearer; otherwise the nearest stays. */
  lemma NearestStep(m: MathLib, from: Point, pts: seq<Point>, i: nat)
    requires i < |pts|
    ensures var prev := Nearest(m, from, pts[..i]);
      Nearest(m, from, pts[..i + 1])
        == if prev.None? || Distance(m, from, pts[i]) < Distance(m, from, prev.value) then Some(pts[i]) else prev
  {
    assert pts[..i + 1][..i] == pts[..i];
    var prev := NearestIndex(m, from, pts[..i]);
    if prev.Some? {
      assert pts[..i][prev.value] == pts[prev.value];
    }
  }
}
