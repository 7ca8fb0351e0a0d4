/** An immutable point of the plane (Point.java). The getters of the source are the
    datatype's fields, which can never be reassigned. */
module Points {
  import opened Numeric

  datatype Point = Point(x: real, y: real)

  /** The square of the Euclidean distance between p and q. */
  function DistanceSquared(p: Point, q: Point): (r: real)
    ensures r >= 0.0
    ensures p == q ==> r == 0.0
    ensures p != q ==> r > 0.0
  {
    SquareSign(p.x - q.x);
    SquareSign(p.y - q.y);
    Square(p.x - q.x) + Square(p.y - q.y)
  }

  /** Point.distance: the square root of the squared distance. */
  function Distance(m: MathLib, p: Point, q: Point): real
  {
    m.sqrt(DistanceSquared(p, q))
  }

  lemma DistanceSymmetric(m: MathLib, p: Point, q: Point)
    ensures Distance(m, p, q) == Distance(m, q, p)
  {
    assert Square(p.x - q.x) == Square(q.x - p.x) by {
      assert (p.x - q.x) * (p.x - q.x) == (q.x - p.x) * (q.x - p.x);
    }
    assert Square(p.y - q.y) == Square(q.y - p.y) by {
      assert (p.y - q.y) * (p.y - q.y) == (q.y - p.y) * (q.y - p.y);
    }
  }

  /** With the true square root, the distance is the non-negative number whose square is the squared distance. */
  lemma DistanceIsEuclidean(m: MathLib, p: Point, q: Point)
    requires IsSqrt(m.sqrt)
    ensures Distance(m, p, q) >= 0.0
    ensures Square(Distance(m, p, q)) == DistanceSquared(p, q)
  {
    assert DistanceSquared(p, q) >= 0.0;
  }

  /** The distance is zero exactly between a point and itself. */
  lemma DistanceZero(m: MathLib, p: Point, q: Point)
    requires IsSqrt(m.sqrt)
    ensures Distance(m, p, q) == 0.0 <==> p == q
  {
    var d := Distance(m, p, q);
    DistanceIsEuclidean(m, p, q);
    SquareSign(d);
    if d == 0.0 {
      assert Square(d) == Square(0.0) == 0.0;
    }
  }

  /** Comparing two distances from the same point is comparing the squared distances. */
  lemma DistanceOrder(m: MathLib, o: Point, p: Point, q: Point)
    requires IsSqrt(m.sqrt)
    ensures Distance(m, o, p) < Distance(m, o, q) <==> DistanceSquared(o, p) < DistanceSquared(o, q)
  {
    SqrtOrder(m.sqrt, DistanceSquared(o, p), DistanceSquared(o, q));
  }

  /** The distance from (3,4) to the origin is 5. */
  lemma DistanceThreeFourFive(m: MathLib)
    requires IsSqrt(m.sqrt)
    ensures Distance(m, Point(3.0, 4.0), Point(0.0, 0.0)) == 5.0
  {
    var d := Distance(m, Point(3.0, 4.0), Point(0.0, 0.0));
    DistanceIsEuclidean(m, Point(3.0, 4.0), Point(0.0, 0.0));
    assert Square(d) == 25.0 == Square(5.0);
    SquareInjective(d, 5.0);
  }
}
