/** The paddle (Paddle.java): a rectangle the player moves sideways between the two side
    walls, which sends the ball off at an angle chosen by the part of its top that was
    hit. The keyboard, colour and drawing are not part of this model; the balls on the
    board are given to the moves as the sequence of their centres. */
module Paddles {
  import opened Numeric
  import opened Points
  import opened Velocities
  import opened Rectangles

  /** Width of the wall on each side of the board, and the distance of one move. */
  const WALL: real := 10.0
  const STEP: real := 7.0

  /** The section of the paddle's top hit at x = hitX: (int) Math.round((hitX - x) / (width / 5)).
      A zero width makes the quotient infinite in the source, which Math.round saturates
      to the extreme long of its sign (the cast to int then gives -1 or 0), or NaN when
      hitX is the paddle's x, which Math.round maps to 0. */
  function Section(shape: Rectangle, hitX: real): (s: int)
    ensures INT_MIN <= s <= INT_MAX
  {
    var paddleX := shape.upperLeft.x;
    if shape.width == 0.0 then
      if hitX > paddleX then ToInt(Round(LONG_MAX as real))
      else if hitX < paddleX then ToInt(Round(LONG_MIN as real))
      else 0
    else
      var sectionWidth := shape.width / 5.0;
      ToInt(Round((hitX - paddleX) / sectionWidth))
  }

  /** The length of v, as Math.sqrt computes it. */
  function IncomingSpeed(m: MathLib, v: Velocity): real
  {
    m.sqrt(v.dx * v.dx + v.dy * v.dy)
  }

  /** Paddle.hit: a hit within EPSILON of the left side's x makes dx point left, otherwise
      one within EPSILON of the right side's x makes it point right. Elsewhere, the section
      hit chooses the new direction at the incoming speed: 300 degrees for section 0, 330
      for 1, 30 for 3, 60 for 4 and 5; section 2 sends the ball straight back up when the
      hit is within EPSILON of the paddle's top and otherwise falls through to section 3.
      Any other section leaves the velocity unchanged. The corner test of section 0 can
      never succeed, as the left-side test before it has already returned. */
  function Hit(shape: Rectangle, m: MathLib, p: Point, v: Velocity): (r: Velocity)
    ensures Threshold(p.x, shape.upperLeft.x, EPSILON) ==> r == Velocity(-Abs(v.dx), v.dy)
  {
    var paddleX := shape.upperLeft.x;
    var paddleY := shape.upperLeft.y;
    var paddleWidth := shape.width;
    var hitX := p.x;
    var hitY := p.y;
    var currentSpeed := IncomingSpeed(m, v);
    if Threshold(hitX, paddleX, EPSILON) then
      Velocity(-Abs(v.dx), v.dy)
    else if Threshold(hitX, paddleX + paddleWidth, EPSILON) then
      Velocity(Abs(v.dx), v.dy)
    else
      var section := Section(shape, hitX);
      if section == 0 then
        if Threshold(hitX, paddleX, EPSILON) && Threshold(hitY, paddleY, EPSILON) then
          Velocity(-Abs(v.dx), -Abs(v.dy))
        else
          FromAngleAndSpeed(m, 300.0, currentSpeed)
      else if section == 1 then
        FromAngleAndSpeed(m, 330.0, currentSpeed)
      else if section == 2 && Threshold(paddleY, hitY, EPSILON) then
        Velocity(v.dx, -Abs(v.dy))
      else if section == 2 || section == 3 then
        FromAngleAndSpeed(m, 30.0, currentSpeed)
      else if section == 4 || section == 5 then
        FromAngleAndSpeed(m, 60.0, currentSpeed)
      else
        v
  }

  /** The section is the quotient of the offset of the hit by a fifth of the width, rounded
      to the nearest integer with halves rounded up, wherever that quotient fits an int. */
  lemma SectionRounds(shape: Rectangle, hitX: real)
    requires shape.width != 0.0
    requires var q := (hitX - shape.upperLeft.x) / (shape.width / 5.0);
      INT_MIN as real - 0.5 <= q < INT_MAX as real + 0.5
    ensures var q := (hitX - shape.upperLeft.x) / (shape.width / 5.0);
      Section(shape, hitX) as real - 0.5 <= q < Section(shape, hitX) as real + 0.5
  {
    var q := (hitX - shape.upperLeft.x) / (shape.width / 5.0);
    var n := Round(q);
    assert n == (q + 0.5).Floor;
    assert INT_MIN <= n <= INT_MAX;
  }

  /** A quotient by a positive divisor of a number between 0 and hi times the divisor is between 0 and hi. */
  lemma QuotientBetween(a: real, d: real, hi: real)
    requires d > 0.0 && 0.0 <= a <= hi * d
    ensures 0.0 <= a / d <= hi
  {
    var q := a / d;
    assert q * d == a;
  }

  /** Every point across the top of a paddle of positive width falls in a section from 0 to 5. */
  lemma SectionOnPaddle(shape: Rectangle, hitX: real)
    requires shape.width > 0.0
    requires shape.upperLeft.x <= hitX <= shape.upperLeft.x + shape.width
    ensures 0 <= Section(shape, hitX) <= 5
  {
    QuotientBetween(hitX - shape.upperLeft.x, shape.width / 5.0, 5.0);
    SectionRounds(shape, hitX);
  }

  /** On a paddle of zero width, a hit to the right of it is in section -1 and one to its
      left in section 0. */
  lemma SectionOfZeroWidth(shape: Rectangle, hitX: real)
    requires shape.width == 0.0
    ensures hitX > shape.upperLeft.x ==> Section(shape, hitX) == -1
    ensures hitX < shape.upperLeft.x ==> Section(shape, hitX) == 0
  {
    assert Round(LONG_MAX as real) == LONG_MAX;
    assert Round(LONG_MIN as real) == LONG_MIN;
  }

  /** The two side hits: dx is made to point away from the side hit, dy is kept. */
  lemma HitSides(shape: Rectangle, m: MathLib, p: Point, v: Velocity)
    ensures Threshold(p.x, shape.upperLeft.x, EPSILON) ==> Hit(shape, m, p, v) == Velocity(-Abs(v.dx), v.dy)
    ensures !Threshold(p.x, shape.upperLeft.x, EPSILON) && Threshold(p.x, shape.upperLeft.x + shape.width, EPSILON)
      ==> Hit(shape, m, p, v) == Velocity(Abs(v.dx), v.dy)
  {
  }

  /** A hit away from both sides rebounds by its section: 300 degrees in section 0 (whatever
      the hit's height), 330 in section 1, 30 in section 3 and in section 2 below the top,
      60 in sections 4 and 5, straight back up in section 2 at the top, and unchanged in
      any other section. */
  lemma HitSections(shape: Rectangle, m: MathLib, p: Point, v: Velocity)
    requires !Threshold(p.x, shape.upperLeft.x, EPSILON)
    requires !Threshold(p.x, shape.upperLeft.x + shape.width, EPSILON)
    ensures var s, speed, r := Section(shape, p.x), IncomingSpeed(m, v), Hit(shape, m, p, v);
      && (s == 0 ==> r == FromAngleAndSpeed(m, 300.0, speed))
      && (s == 1 ==> r == FromAngleAndSpeed(m, 330.0, speed))
      && (s == 2 && Threshold(shape.upperLeft.y, p.y, EPSILON) ==> r == Velocity(v.dx, -Abs(v.dy)))
      && (s == 2 && !Threshold(shape.upperLeft.y, p.y, EPSILON) ==> r == FromAngleAndSpeed(m, 30.0, speed))
      && (s == 3 ==> r == FromAngleAndSpeed(m, 30.0, speed))
      && (s == 4 || s == 5 ==> r == FromAngleAndSpeed(m, 60.0, speed))
      && (s < 0 || s > 5 ==> r == v)
  {
  }

  /** Changing the sign of a number does not change its square. */
  lemma SquareOfAbs(a: real)
    ensures Square(Abs(a)) == Square(a) && Square(-Abs(a)) == Square(a)
  {
    assert (-Abs(a)) * (-Abs(a)) == Abs(a) * Abs(a) == a * a;
  }

  /** With the true square root, the incoming speed squared is the squared length of v. */
  lemma IncomingSpeedSquared(m: MathLib, v: Velocity)
    requires IsSqrt(m.sqrt)
    ensures IncomingSpeed(m, v) >= 0.0
    ensures Square(IncomingSpeed(m, v)) == Square(v.dx) + Square(v.dy)
  {
    SquareSign(v.dx);
    SquareSign(v.dy);
    var sq := v.dx * v.dx + v.dy * v.dy;
    assert sq == Square(v.dx) + Square(v.dy);
  }

  /** With the true square root and the Pythagorean identity at the four angles, every hit
      keeps the ball's speed: the squared length of the velocity is unchanged. */
  lemma HitKeepsSpeed(shape: Rectangle, m: MathLib, p: Point, v: Velocity)
    requires IsSqrt(m.sqrt)
    requires Pythagorean(m, 300.0) && Pythagorean(m, 330.0) && Pythagorean(m, 30.0) && Pythagorean(m, 60.0)
    ensures var r := Hit(shape, m, p, v); Square(r.dx) + Square(r.dy) == Square(v.dx) + Square(v.dy)
  {
    var speed := IncomingSpeed(m, v);
    SquareOfAbs(v.dx);
    SquareOfAbs(v.dy);
    if Threshold(p.x, shape.upperLeft.x, EPSILON) || Threshold(p.x, shape.upperLeft.x + shape.width, EPSILON) {
      HitSides(shape, m, p, v);
    } else {
      HitSections(shape, m, p, v);
      IncomingSpeedSquared(m, v);
      var s := Section(shape, p.x);
      if s == 0 {
        FromAngleSpeedSquared(m, 300.0, speed);
      } else if s == 1 {
        FromAngleSpeedSquared(m, 330.0, speed);
      } else if s == 2 || s == 3 {
        FromAngleSpeedSquared(m, 30.0, speed);
      } else if s == 4 || s == 5 {
        FromAngleSpeedSquared(m, 60.0, speed);
      }
    }
  }

  /** On a paddle at x = 100 and 100 wide, a hit at x = 105 is in section 0 (300 degrees),
      one at x = 110 exactly halfway between sections 0 and 1 is rounded up to section 1
      (330 degrees), and one at x = 190 is rounded up to section 5 (60 degrees). */
  lemma SectionExamples(y: real, height: real)
    ensures Section(Rectangle(Point(100.0, y), 100.0, height), 105.0) == 0
    ensures Section(Rectangle(Point(100.0, y), 100.0, height), 110.0) == 1
    ensures Section(Rectangle(Point(100.0, y), 100.0, height), 150.0) == 3
    ensures Section(Rectangle(Point(100.0, y), 100.0, height), 190.0) == 5
  {
    assert (105.0 - 100.0) / (100.0 / 5.0) == 0.25;
    assert (110.0 - 100.0) / (100.0 / 5.0) == 0.5;
    assert (150.0 - 100.0) / (100.0 / 5.0) == 2.5;
    assert (190.0 - 100.0) / (100.0 / 5.0) == 4.5;
  }

  /** The x moveLeft aims for: 7 to the left, or against the right wall when that would
      pass the left wall. */
  function LeftTarget(shape: Rectangle, gameWidth: int): real
  {
    var newX := shape.upperLeft.x - STEP;
    if newX < WALL then gameWidth as real - WALL - shape.width else newX
  }

  /** The x moveRight aims for: 7 to the right, or against the left wall when that would
      pass the right wall. */
  function RightTarget(shape: Rectangle, gameWidth: int): real
  {
    var newX := shape.upperLeft.x + STEP;
    if newX > gameWidth as real - WALL - shape.width then WALL else newX
  }

  /** The paddle's x is between the two walls. */
  predicate BetweenWalls(shape: Rectangle, gameWidth: int)
  {
    WALL <= shape.upperLeft.x <= gameWidth as real - WALL - shape.width
  }

  /** The rectangle moved sideways to x, with the same y, width and height. */
  function MovedTo(shape: Rectangle, x: real): (r: Rectangle)
    ensures r.upperLeft == Point(x, shape.upperLeft.y)
    ensures r.width == shape.width && r.height == shape.height
  {
    Rectangle(Point(x, shape.upperLeft.y), shape.width, shape.height)
  }

  /** A paddle between the walls stays between them, whichever way it moves. */
  lemma TargetsBetweenWalls(shape: Rectangle, gameWidth: int)
    requires BetweenWalls(shape, gameWidth)
    ensures BetweenWalls(MovedTo(shape, LeftTarget(shape, gameWidth)), gameWidth)
    ensures BetweenWalls(MovedTo(shape, RightTarget(shape, gameWidth)), gameWidth)
  {
  }

  /** Away from the walls, a move to the right undoes a move to the left and the other way round. */
  lemma TargetsUndoEachOther(shape: Rectangle, gameWidth: int)
    requires BetweenWalls(shape, gameWidth)
    ensures shape.upperLeft.x - STEP >= WALL ==>
      RightTarget(MovedTo(shape, LeftTarget(shape, gameWidth)), gameWidth) == shape.upperLeft.x
    ensures shape.upperLeft.x + STEP <= gameWidth as real - WALL - shape.width ==>
      LeftTarget(MovedTo(shape, RightTarget(shape, gameWidth)), gameWidth) == shape.upperLeft.x
  {
  }

  /** Some ball centre lies in r. */
  predicate Occupied(r: Rectangle, centers: seq<Point>)
  {
    exists i :: 0 <= i < |centers| && Contains(r, centers[i])
  }

  /** The scan of the balls in moveLeft and moveRight: stops at the first centre inside r. */
  method AnyCenterInside(r: Rectangle, centers: seq<Point>) returns (found: bool)
    ensures found <==> Occupied(r, centers)
  {
    for i := 0 to |centers|
      invariant forall j :: 0 <= j < i ==> !Contains(r, centers[j])
    {
      if Contains(r, centers[i]) {
        return true;
      }
    }
    return false;
  }

  class Paddle {
    /** The current rectangle, replaced by each move that is not cancelled. */
    var shape: Rectangle
    /** The width of the board; never reassigned. */
    const gameWidth: int

    constructor(shape: Rectangle, gameWidth: int)
      ensures this.shape == shape && this.gameWidth == gameWidth
    {
      this.shape := shape;
      this.gameWidth := gameWidth;
    }

    /** Paddle.moveLeft: moves to LeftTarget unless a ball centre would be inside the
        paddle there, in which case nothing changes. */
    method MoveLeft(centers: seq<Point>)
      modifies this
      ensures var target := MovedTo(old(shape), LeftTarget(old(shape), gameWidth));
        shape == if Occupied(target, centers) then old(shape) else target
      ensures BetweenWalls(old(shape), gameWidth) ==> BetweenWalls(shape, gameWidth)
      ensures !Occupied(shape, centers) || shape == old(shape)
    {
      var newX := shape.upperLeft.x - STEP;
      var newY := shape.upperLeft.y;
      if newX < WALL {
        newX := gameWidth as real - WALL - shape.width;
      }
      var newPaddle := Rectangle(Point(newX, newY), shape.width, shape.height);
      var blocked := AnyCenterInside(newPaddle, centers);
      if blocked {
        return;
      }
      if BetweenWalls(shape, gameWidth) {
        TargetsBetweenWalls(shape, gameWidth);
      }
      shape := newPaddle;
    }

    /** Paddle.moveRight: moves to RightTarget unless a ball centre would be inside the
        paddle there, in which case nothing changes. */
    method MoveRight(centers: seq<Point>)
      modifies this
      ensures var target := MovedTo(old(shape), RightTarget(old(shape), gameWidth));
        shape == if Occupied(target, centers) then old(shape) else target
      ensures BetweenWalls(old(shape), gameWidth) ==> BetweenWalls(shape, gameWidth)
      ensures !Occupied(shape, centers) || shape == old(shape)
    {
      var newX := shape.upperLeft.x + STEP;
      var newY := shape.upperLeft.y;
      if newX > gameWidth as real - WALL - shape.width {
        newX := WALL;
      }
      var newPaddle := Rectangle(Point(newX, newY), shape.width, shape.height);
      var blocked := AnyCenterInside(newPaddle, centers);
      if blocked {
        return;
      }
      if BetweenWalls(shape, gameWidth) {
        TargetsBetweenWalls(shape, gameWidth);
      }
      shape := newPaddle;
    }
  }
}
