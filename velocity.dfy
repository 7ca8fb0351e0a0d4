/** The displacement of a moving body per tick (Velocity.java). Its components are
    fixed at construction: the datatype's fields are the getters. */
module Velocities {
  import opened Numeric
  import opened Points

  datatype Velocity = Velocity(dx: real, dy: real)

  /** The point reached from p after one tick at velocity v. */
  function ApplyToPoint(v: Velocity, p: Point): (r: Point)
    ensures r.x - p.x == v.dx && r.y - p.y == v.dy
    ensures DistanceSquared(p, r) == Square(v.dx) + Square(v.dy)
  {
    var r := Point(p.x + v.dx, p.y + v.dy);
    assert Square(p.x - r.x) == Square(v.dx) by { assert (p.x - r.x) * (p.x - r.x) == v.dx * v.dx; }
    assert Square(p.y - r.y) == Square(v.dy) by { assert (p.y - r.y) * (p.y - r.y) == v.dy * v.dy; }
    r
  }

  /** The velocity of the given speed along the given angle in degrees, where 0 is up
      and angles grow clockwise on the screen (y grows downwards). */
  function FromAngleAndSpeed(m: MathLib, angle: real, speed: real): Velocity
  {
    Velocity(m.sin(m.toRadians(angle)) * speed, -m.cos(m.toRadians(angle)) * speed)
  }

  /** The velocity (0,0) leaves every point where it is. */
  lemma ApplyZero(p: Point)
    ensures ApplyToPoint(Velocity(0.0, 0.0), p) == p
  {
  }

  /** Moving by (dx,dy) and then by (-dx,-dy) returns to the starting point. */
  lemma ApplyThenOpposite(v: Velocity, p: Point)
    ensures ApplyToPoint(Velocity(-v.dx, -v.dy), ApplyToPoint(v, p)) == p
  {
  }

  /** Speed zero gives the zero velocity at every angle. */
  lemma FromAngleZeroSpeed(m: MathLib, angle: real)
    ensures FromAngleAndSpeed(m, angle, 0.0) == Velocity(0.0, 0.0)
  {
  }

  /** sin and cos satisfy the Pythagorean identity at the given angle in degrees. */
  ghost predicate Pythagorean(m: MathLib, angle: real)
  {
    var t := m.toRadians(angle);
    Square(m.sin(t)) + Square(m.cos(t)) == 1.0
  }

  /** Where sin and cos satisfy the Pythagorean identity at the angle, the velocity's
      squared length is the squared speed. */
  lemma FromAngleSpeedSquared(m: MathLib, angle: real, speed: real)
    requires Pythagorean(m, angle)
    ensures var v := FromAngleAndSpeed(m, angle, speed); Square(v.dx) + Square(v.dy) == Square(speed)
  {
    var t := m.toRadians(angle);
    var s, c := m.sin(t), m.cos(t);
    var v := FromAngleAndSpeed(m, angle, speed);
    calc {
      Square(v.dx) + Square(v.dy);
      (s * speed) * (s * speed) + (-c * speed) * (-c * speed);
      (s * s + c * c) * (speed * speed);
      { assert s * s + c * c == Square(s) + Square(c) == 1.0; }
      speed * speed;
      Square(speed);
    }
  }
}
