/** The registry of everything a ball can hit (GameEnvironment.java): an append-only list
    of collidables and the search for the collision nearest to the start of a trajectory. */
module Environment {
  import opened Numeric
  import opened Points
  import opened Lines
  import opened Rectangles
  import opened Collidables

  /** CollisionInfo.java: where the collision happens and which collidable, by its position
      in the registry, is hit. */
  datatype CollisionInfo = CollisionInfo(point: Point, index: nat)

  /** The objects the rectangles of the collidables depend on. */
  function FootprintOf(cs: seq<Collidable>): set<object>
    decreases |cs|
  {
    if cs == [] then {} else FootprintOf(cs[..|cs| - 1]) + Footprint(cs[|cs| - 1])
  }

  /** Every object of the footprint is allocated, so a call that allocates only leaves the
      rectangles of the collidables as they were. */
  lemma {:induction false} FootprintAllocated(cs: seq<Collidable>)
    ensures forall o :: o in FootprintOf(cs) ==> allocated(o)
    decreases |cs|
  {
    if cs != [] {
      FootprintAllocated(cs[..|cs| - 1]);
    }
  }

  /** Where the trajectory first meets c, if it does: the point of the rectangle's edges
      nearest to the trajectory's start. */
  function HitPoint(m: MathLib, trajectory: Line, c: Collidable): Option<Point>
    reads Footprint(c)
  {
    Nearest(m, Start(trajectory), EdgeIntersections(CollisionRectangle(c), trajectory))
  }

  /** The hit point of every collidable, in registry order. */
  function HitPoints(m: MathLib, trajectory: Line, cs: seq<Collidable>): (hs: seq<Option<Point>>)
    reads FootprintOf(cs)
    ensures |hs| == |cs|
    decreases |cs|
  {
    if cs == [] then []
    else
      var n := |cs| - 1;
      HitPoints(m, trajectory, cs[..n]) + [HitPoint(m, trajectory, cs[n])]
  }

  /** The i-th hit point is that of the i-th collidable. */
  lemma {:induction false} HitPointsAt(m: MathLib, trajectory: Line, cs: seq<Collidable>, i: nat)
    requires i < |cs|
    ensures HitPoints(m, trajectory, cs)[i] == HitPoint(m, trajectory, cs[i])
    decreases |cs|
  {
    var n := |cs| - 1;
    if i < n {
      HitPointsAt(m, trajectory, cs[..n], i);
    }
  }

  /** The nearest crossing of the i-th collidable's rectangle is its hit point. */
  lemma HitPointOf(m: MathLib, trajectory: Line, cs: seq<Collidable>, i: nat, p: Option<Point>)
    requires i < |cs|
    requires p == Nearest(m, Start(trajectory), EdgeIntersections(CollisionRectangle(cs[i]), trajectory))
    ensures HitPoints(m, trajectory, cs)[i] == p
  {
    HitPointsAt(m, trajectory, cs, i);
  }

  /** The selection of getClosestCollision over the hit points: the last one replaces the
      best of those before it when it exists and is strictly nearer to `from`. */
  function NearestHit(m: MathLib, from: Point, hits: seq<Option<Point>>): (r: Option<CollisionInfo>)
    ensures r.Some? ==> r.value.index < |hits| && hits[r.value.index] == Some(r.value.point)
    decreases |hits|
  {
    if hits == [] then None
    else
      var n := |hits| - 1;
      var prev := NearestHit(m, from, hits[..n]);
      match hits[n]
      case None => prev
      case Some(p) =>
        if prev.None? || Distance(m, from, p) < Distance(m, from, prev.value.point) then
          Some(CollisionInfo(p, n))
        else
          prev
  }

  /** The hit selected exists exactly when some hit point does; it is at least as near to
      `from` as every hit point, and strictly nearer than every hit point before it. */
  lemma {:induction false} NearestHitIsNearest(m: MathLib, from: Point, hits: seq<Option<Point>>)
    ensures var r := NearestHit(m, from, hits);
      && (r.None? <==> forall i :: 0 <= i < |hits| ==> hits[i].None?)
      && (r.Some? ==> forall i :: 0 <= i < |hits| && hits[i].Some? ==>
            Distance(m, from, r.value.point) <= Distance(m, from, hits[i].value))
      && (r.Some? ==> forall i :: 0 <= i < r.value.index && hits[i].Some? ==>
            Distance(m, from, r.value.point) < Distance(m, from, hits[i].value))
    decreases |hits|
  {
    if hits != [] {
      var n := |hits| - 1;
      var front := hits[..n];
      NearestHitIsNearest(m, from, front);
      assert forall i :: 0 <= i < n ==> front[i] == hits[i];
    }
  }

  /** The collision getClosestCollision reports for `trajectory` among the collidables cs. */
  function ClosestCollision(m: MathLib, trajectory: Line, cs: seq<Collidable>): Option<CollisionInfo>
    reads FootprintOf(cs)
  {
    NearestHit(m, Start(trajectory), HitPoints(m, trajectory, cs))
  }

  /** The reported collision, when there is one, is with a registered collidable, at that
      collidable's own nearest crossing, which is at least as near to the trajectory's start
      as the crossing of every other collidable and strictly nearer than those of all the
      collidables registered before it; there is none exactly when the trajectory crosses
      no collidable. */
  lemma ClosestCollisionIsNearest(m: MathLib, trajectory: Line, cs: seq<Collidable>)
    ensures var r, from := ClosestCollision(m, trajectory, cs), Start(trajectory);
      && (r.None? <==> forall i :: 0 <= i < |cs| ==> HitPoint(m, trajectory, cs[i]).None?)
      && (r.Some? ==> r.value.index < |cs| && HitPoint(m, trajectory, cs[r.value.index]) == Some(r.value.point))
      && (r.Some? ==> forall i :: 0 <= i < |cs| && HitPoint(m, trajectory, cs[i]).Some? ==>
            Distance(m, from, r.value.point) <= Distance(m, from, HitPoint(m, trajectory, cs[i]).value))
      && (r.Some? ==> forall i :: 0 <= i < r.value.index && HitPoint(m, trajectory, cs[i]).Some? ==>
            Distance(m, from, r.value.point) < Distance(m, from, HitPoint(m, trajectory, cs[i]).value))
  {
    NearestHitIsNearest(m, Start(trajectory), HitPoints(m, trajectory, cs));
    forall i | 0 <= i < |cs|
      ensures HitPoints(m, trajectory, cs)[i] == HitPoint(m, trajectory, cs[i])
    {
      HitPointsAt(m, trajectory, cs, i);
    }
  }

  /** Extending the scanned hit points by one: a present hit becomes the nearest when there
      was none or it is strictly nearer; otherwise the nearest stays. */
  lemma NearestHitStep(m: MathLib, from: Point, hits: seq<Option<Point>>, i: nat)
    requires i < |hits|
    ensures var prev := NearestHit(m, from, hits[..i]);
      NearestHit(m, from, hits[..i + 1])
        == if hits[i].Some? && (prev.None? || Distance(m, from, hits[i].value) < Distance(m, from, prev.value.point))
           then Some(CollisionInfo(hits[i].value, i))
           else prev
  {
    assert hits[..i + 1][..i] == hits[..i];
  }

  class GameEnvironment {
    /** The registered collidables, in the order they were added. */
    var collidables: seq<Collidable>
    const screenWidth: int
    const screenHeight: int

    /** An empty registry for a screen of the given size. */
    constructor(screenWidth: int, screenHeight: int)
      ensures this.screenWidth == screenWidth && this.screenHeight == screenHeight
      ensures collidables == []
    {
      this.screenWidth := screenWidth;
      this.screenHeight := screenHeight;
      collidables := [];
    }

    /** GameEnvironment.addCollidable: appends c, leaving the earlier entries in place. */
    method AddCollidable(c: Collidable)
      modifies this
      ensures collidables == old(collidables) + [c]
      ensures forall i :: 0 <= i < |old(collidables)| ==> collidables[i] == old(collidables)[i]
    {
      collidables := collidables + [c];
    }

    /** GameEnvironment.getClosestCollision: asks every collidable for the crossing of its
        rectangle nearest to the trajectory's start and keeps the first strictly nearest. */
    method GetClosestCollision(m: MathLib, trajectory: Line) returns (closest: Option<CollisionInfo>)
      ensures closest == ClosestCollision(m, trajectory, collidables)
    {
      ghost var hits := HitPoints(m, trajectory, collidables);
      FootprintAllocated(collidables);
      var start := Start(trajectory);
      closest := None;
      var closestDistance := 0.0;
      for i := 0 to |collidables|
        invariant hits == HitPoints(m, trajectory, collidables)
        invariant closest == NearestHit(m, start, hits[..i])
        invariant closest.Some? ==> closestDistance == Distance(m, start, closest.value.point)
      {
        var c := collidables[i];
        var intersect := ClosestIntersectionToStartOfLine(m, trajectory, CollisionRectangle(c));
        HitPointOf(m, trajectory, collidables, i, intersect);
        NearestHitStep(m, start, hits, i);
        if intersect.Some? {
          var distance := Distance(m, start, intersect.value);
          if closest.None? || distance < closestDistance {
            closestDistance := distance;
            closest := Some(CollisionInfo(intersect.value, i));
          }
        }
      }
      assert hits[..|hits|] == hits;
    }
  }
}
