/** The ball (Ball.java): a centre that moves by its velocity each tick, unless the step
    would cross a collidable, in which case the ball moves part of the way towards the
    collision point and takes the velocity the collidable hands back. Its colour and
    drawing are not part of this model. */
module Balls {
  import opened Numeric
  import opened Points
  import opened Velocities
  import opened Lines
  import opened Environment
  import Collidables

  /** The fraction of the way to the collision point that the ball moves on a hit. */
  const MOVE_SLIGHTLY: real := 0.2

  /** The centre after a hit at `to`: MOVE_SLIGHTLY of the way from `from` towards `to`.
      It stays 0.8 of the way off the collision point, lands on it only when it started
      there, and covers 0.2 of the distance. */
  function Nudge(from: Point, to: Point): (r: Point)
    ensures DistanceSquared(r, to) == 0.64 * DistanceSquared(from, to)
    ensures DistanceSquared(from, r) == 0.04 * DistanceSquared(from, to)
    ensures r == to <==> from == to
  {
    var dx := to.x - from.x;
    var dy := to.y - from.y;
    var r := Point(from.x + dx * MOVE_SLIGHTLY, from.y + dy * MOVE_SLIGHTLY);
    assert Square(r.x - to.x) == 0.64 * Square(from.x - to.x) by {
      assert (r.x - to.x) * (r.x - to.x) == 0.64 * ((from.x - to.x) * (from.x - to.x));
    }
    assert Square(r.y - to.y) == 0.64 * Square(from.y - to.y) by {
      assert (r.y - to.y) * (r.y - to.y) == 0.64 * ((from.y - to.y) * (from.y - to.y));
    }
    assert Square(from.x - r.x) == 0.04 * Square(from.x - to.x) by {
      assert (from.x - r.x) * (from.x - r.x) == 0.04 * ((from.x - to.x) * (from.x - to.x));
    }
    assert Square(from.y - r.y) == 0.04 * Square(from.y - to.y) by {
      assert (from.y - r.y) * (from.y - r.y) == 0.04 * ((from.y - to.y) * (from.y - to.y));
    }
    r
  }

  /** With the true square root, the distance left to the collision point is 0.8 of the
      distance before the hit, and the distance covered is 0.2 of it. */
  lemma NudgeDistance(m: MathLib, from: Point, to: Point)
    requires IsSqrt(m.sqrt)
    ensures Distance(m, Nudge(from, to), to) == 0.8 * Distance(m, from, to)
    ensures Distance(m, from, Nudge(from, to)) == MOVE_SLIGHTLY * Distance(m, from, to)
  {
    var d := DistanceSquared(from, to);
    assert Square(0.8) == 0.64;
    assert Square(0.2) == 0.04;
    SqrtScale(m.sqrt, 0.8, d);
    SqrtScale(m.sqrt, 0.2, d);
  }

  /** The segment a ball at `center` travels in one tick at velocity v. */
  function Trajectory(center: Point, v: Velocity): (l: Line)
    ensures Start(l) == center && End(l) == ApplyToPoint(v, center)
  {
    var next := ApplyToPoint(v, center);
    Line(center.x, center.y, next.x, next.y)
  }

  class Ball {
    /** The centre, replaced by every step. */
    var center: Point
    /** The velocity, replaced by setVelocity and by every hit. */
    var velocity: Velocity
    const radius: int
    const minX: int
    const boardWidth: int
    const boardHeight: int
    /** The registry asked for the nearest collision on every step. */
    const environment: GameEnvironment

    /** A ball at rest at the given centre. */
    constructor(center: Point, r: int, minX: int, boardWidth: int, boardHeight: int, ge: GameEnvironment)
      ensures this.center == center && velocity == Velocity(0.0, 0.0)
      ensures radius == r && this.minX == minX
      ensures this.boardWidth == boardWidth && this.boardHeight == boardHeight
      ensures environment == ge
    {
      this.center := center;
      radius := r;
      velocity := Velocity(0.0, 0.0);
      this.minX := minX;
      this.boardWidth := boardWidth;
      this.boardHeight := boardHeight;
      environment := ge;
    }

    /** Ball.setVelocity(Velocity): the ball now moves by v; its centre stays. */
    method SetVelocity(v: Velocity)
      modifies this
      ensures velocity == v && center == old(center)
    {
      velocity := v;
    }

    /** Ball.setVelocity(double, double): the ball now moves by (dx, dy); its centre stays. */
    method SetVelocityComponents(dx: real, dy: real)
      modifies this
      ensures velocity.dx == dx && velocity.dy == dy && center == old(center)
    {
      velocity := Velocity(dx, dy);
    }

    /** Ball.moveOneStep: without a collision on the way, the centre takes the full step
        and the velocity is kept; with one, the centre moves MOVE_SLIGHTLY of the way to
        the collision point and the velocity becomes what the collidable hit returns. */
    method MoveOneStep(m: MathLib)
      modifies this
      ensures var hit := old(ClosestCollision(m, Trajectory(center, velocity), environment.collidables));
        && (hit.None? ==> center == ApplyToPoint(old(velocity), old(center)) && velocity == old(velocity))
        && (hit.Some? ==>
              && hit.value.index < |environment.collidables|
              && center == Nudge(old(center), hit.value.point)
              && velocity == Collidables.Hit(environment.collidables[hit.value.index], m, hit.value.point, old(velocity)))
    {
      ghost var hit := ClosestCollision(m, Trajectory(center, velocity), environment.collidables);
      var nextCenter := ApplyToPoint(velocity, center);
      var trajectory := Line(center.x, center.y, nextCenter.x, nextCenter.y);
      assert trajectory == Trajectory(center, velocity);
      FootprintAllocated(environment.collidables);
      var closestCollision := environment.GetClosestCollision(m, trajectory);
      assert closestCollision == hit;
      if closestCollision.Some? {
        var collisionPoint := closestCollision.value.point;
        var dx := collisionPoint.x - center.x;
        var dy := collisionPoint.y - center.y;
        center := Point(center.x + dx * MOVE_SLIGHTLY, center.y + dy * MOVE_SLIGHTLY);
        var hitObject := environment.collidables[closestCollision.value.index];
        velocity := Collidables.Hit(hitObject, m, collisionPoint, velocity);
      } else {
        center := nextCenter;
      }
    }
  }
}
