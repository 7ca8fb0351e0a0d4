/** A block: a fixed rectangle that bounces the ball back (Block.java). Its colour and
    drawing are not part of this model. */
module Blocks {
  import opened Numeric
  import opened Points
  import opened Velocities
  import opened Rectangles

  /** The collision rectangle is final; getCollisionRectangle is the field. */
  datatype Block = Block(shape: Rectangle)

  /** The hit is within EPSILON of the x of the block's left side. */
  predicate NearLeft(b: Block, p: Point)
  {
    Threshold(p.x, b.shape.upperLeft.x, EPSILON)
  }

  /** The hit is within EPSILON of the x of the block's right side. */
  predicate NearRight(b: Block, p: Point)
  {
    Threshold(p.x, b.shape.upperLeft.x + b.shape.width, EPSILON)
  }

  /** The hit is within EPSILON of the y of the block's top. */
  predicate NearTop(b: Block, p: Point)
  {
    Threshold(p.y, b.shape.upperLeft.y, EPSILON)
  }

  /** The hit is within EPSILON of the y of the block's bottom. */
  predicate NearBottom(b: Block, p: Point)
  {
    Threshold(p.y, b.shape.upperLeft.y + b.shape.height, EPSILON)
  }

  /** Block.hit: the four corners are tested first (upper-left, upper-right, lower-left,
      lower-right), then the four edges (top, bottom, left, right); each sends the
      velocity away from what was hit, and a point near none of them leaves it unchanged.
      The chain amounts to one rule per axis: horizontally, a hit near the left side makes
      dx point left, otherwise one near the right side makes it point right; vertically, a
      hit near the top makes dy point up, otherwise one near the bottom makes it point down;
      a component with no side near is kept. */
  function Hit(b: Block, p: Point, v: Velocity): (r: Velocity)
    ensures r.dx == if NearLeft(b, p) then -Abs(v.dx) else if NearRight(b, p) then Abs(v.dx) else v.dx
    ensures r.dy == if NearTop(b, p) then -Abs(v.dy) else if NearBottom(b, p) then Abs(v.dy) else v.dy
  {
    var x := p.x;
    var y := p.y;
    var rectX := b.shape.upperLeft.x;
    var rectY := b.shape.upperLeft.y;
    var rectWidth := b.shape.width;
    var rectHeight := b.shape.height;
    if Threshold(x, rectX, EPSILON) && Threshold(y, rectY, EPSILON) then
      Velocity(-Abs(v.dx), -Abs(v.dy))
    else if Threshold(x, rectX + rectWidth, EPSILON) && Threshold(y, rectY, EPSILON) then
      Velocity(Abs(v.dx), -Abs(v.dy))
    else if Threshold(x, rectX, EPSILON) && Threshold(y, rectY + rectHeight, EPSILON) then
      Velocity(-Abs(v.dx), Abs(v.dy))
    else if Threshold(x, rectX + rectWidth, EPSILON) && Threshold(y, rectY + rectHeight, EPSILON) then
      Velocity(Abs(v.dx), Abs(v.dy))
    else if Threshold(y, rectY, EPSILON) then
      Velocity(v.dx, -Abs(v.dy))
    else if Threshold(y, rectY + rectHeight, EPSILON) then
      Velocity(v.dx, Abs(v.dy))
    else if Threshold(x, rectX, EPSILON) then
      Velocity(-Abs(v.dx), v.dy)
    else if Threshold(x, rectX + rectWidth, EPSILON) then
      Velocity(Abs(v.dx), v.dy)
    else
      v
  }

  /** A hit near a corner points both components away from that corner. */
  lemma HitCorners(b: Block, p: Point, v: Velocity)
    ensures NearLeft(b, p) && NearTop(b, p) ==> Hit(b, p, v) == Velocity(-Abs(v.dx), -Abs(v.dy))
    ensures !NearLeft(b, p) && NearRight(b, p) && NearTop(b, p) ==> Hit(b, p, v) == Velocity(Abs(v.dx), -Abs(v.dy))
    ensures NearLeft(b, p) && !NearTop(b, p) && NearBottom(b, p) ==> Hit(b, p, v) == Velocity(-Abs(v.dx), Abs(v.dy))
    ensures !NearLeft(b, p) && NearRight(b, p) && !NearTop(b, p) && NearBottom(b, p) ==> Hit(b, p, v) == Velocity(Abs(v.dx), Abs(v.dy))
  {
  }

  /** A hit on an edge away from the corners flips the component across that edge to point
      away from the block and keeps the other one. */
  lemma HitEdges(b: Block, p: Point, v: Velocity)
    ensures !NearLeft(b, p) && !NearRight(b, p) && NearTop(b, p) ==> Hit(b, p, v) == Velocity(v.dx, -Abs(v.dy))
    ensures !NearLeft(b, p) && !NearRight(b, p) && !NearTop(b, p) && NearBottom(b, p) ==> Hit(b, p, v) == Velocity(v.dx, Abs(v.dy))
    ensures !NearTop(b, p) && !NearBottom(b, p) && NearLeft(b, p) ==> Hit(b, p, v) == Velocity(-Abs(v.dx), v.dy)
    ensures !NearTop(b, p) && !NearBottom(b, p) && !NearLeft(b, p) && NearRight(b, p) ==> Hit(b, p, v) == Velocity(Abs(v.dx), v.dy)
  {
  }

  /** A point near no side of the block leaves the velocity unchanged. */
  lemma HitAwayFromSides(b: Block, p: Point, v: Velocity)
    requires !NearLeft(b, p) && !NearRight(b, p) && !NearTop(b, p) && !NearBottom(b, p)
    ensures Hit(b, p, v) == v
  {
  }

  /** Every hit keeps the size of both components: a block changes directions only. */
  lemma HitKeepsMagnitudes(b: Block, p: Point, v: Velocity)
    ensures Abs(Hit(b, p, v).dx) == Abs(v.dx) && Abs(Hit(b, p, v).dy) == Abs(v.dy)
  {
  }

  /** Hitting the same point twice gives the same velocity as hitting it once. */
  lemma HitIdempotent(b: Block, p: Point, v: Velocity)
    ensures Hit(b, p, Hit(b, p, v)) == Hit(b, p, v)
  {
  }
}
