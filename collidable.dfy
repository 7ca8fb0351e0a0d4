/** The things a ball can collide with (Collidable.java): a block or the paddle. The paddle
    is referenced, not copied, so a registry of collidables sees every move of it. */
module Collidables {
  import opened Numeric
  import opened Points
  import opened Velocities
  import opened Rectangles
  import Blocks
  import Paddles

  datatype Collidable = OfBlock(block: Blocks.Block) | OfPaddle(paddle: Paddles.Paddle)

  /** The objects whose fields the collidable's rectangle depends on. */
  function Footprint(c: Collidable): set<object>
  {
    if c.OfPaddle? then {c.paddle} else {}
  }

  /** getCollisionRectangle: the block's fixed rectangle, or the paddle's current one. */
  function CollisionRectangle(c: Collidable): (r: Rectangle)
    reads Footprint(c)
    ensures c.OfBlock? ==> r == c.block.shape
    ensures c.OfPaddle? ==> r == c.paddle.shape
  {
    match c
    case OfBlock(b) => b.shape
    case OfPaddle(p) => p.shape
  }

  /** hit: the velocity after a hit at p, by the rule of the kind of collidable hit. A
      block never changes the size of either component. */
  function Hit(c: Collidable, m: MathLib, p: Point, v: Velocity): (r: Velocity)
    reads Footprint(c)
    ensures c.OfBlock? ==> Abs(r.dx) == Abs(v.dx) && Abs(r.dy) == Abs(v.dy)
  {
    match c
    case OfBlock(b) =>
      Blocks.HitKeepsMagnitudes(b, p, v);
      Blocks.Hit(b, p, v)
    case OfPaddle(paddle) => Paddles.Hit(paddle.shape, m, p, v)
  }

  /** With the true square root and the Pythagorean identity at the paddle's four angles,
      no collidable changes the speed of the ball. */
  lemma HitKeepsSpeed(c: Collidable, m: MathLib, p: Point, v: Velocity)
    requires IsSqrt(m.sqrt)
    requires Pythagorean(m, 300.0) && Pythagorean(m, 330.0) && Pythagorean(m, 30.0) && Pythagorean(m, 60.0)
    ensures var r := Hit(c, m, p, v); Square(r.dx) + Square(r.dy) == Square(v.dx) + Square(v.dy)
  {
    match c
    case OfBlock(b) =>
      var r := Blocks.Hit(b, p, v);
      Paddles.SquareOfAbs(v.dx);
      Paddles.SquareOfAbs(v.dy);
      assert Square(r.dx) == Square(v.dx) && Square(r.dy) == Square(v.dy);
    case OfPaddle(paddle) =>
      Paddles.HitKeepsSpeed(paddle.shape, m, p, v);
  }
}
