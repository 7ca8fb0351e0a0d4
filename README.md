# Breakout collision engine, in Dafny

This project models the collision engine of a Breakout-style arcade game written in Java. A
ball moves across a board of rectangular blocks and a paddle the player slides sideways. On
every tick the ball asks the game environment, a registry of everything it can hit, for the
collision nearest to the start of its one-tick trajectory. The registry finds it by
intersecting the trajectory with the four edges of every collidable's rectangle. Cramer's
rule gives each intersection, and an EPSILON-tolerant test checks that it lies on both
segments. Without a collision the ball takes its full step. With one, it moves a fifth of
the way to the collision point and takes the velocity the collidable hands back. A block
reflects the ball by the corner or edge that was hit. The paddle reflects it by a side hit
or by which of its five sections was hit, each section with its own outgoing angle.

Modules, one per Java class of the core:

- `Numeric`: the shared tolerance `EPSILON = 0.001`, `threshold`, absolute value,
  `Math.round` and the `(int)` cast.
  - `java.lang.Math`'s `sqrt`, `sin`, `cos` and `toRadians` are fields of a `MathLib`
    parameter.
  - Lemmas that need the true square root assume `IsSqrt`.
  - Lemmas that need the trigonometric identity assume `Pythagorean`.
- `Points`, `Velocities`, `Lines`, `Rectangles`, `Blocks`: immutable values as datatypes,
  their operations as functions.
  - `Line.closestIntersectionToStartOfLine` and `Rectangle.intersectionPoints` are loops in
    the source, so they are methods here.
  - Each of these methods is proved equal to a specification function.
  - `Line.closestIntersectionToStartOfLine` needs both segments and rectangles, so it is
    placed in `Rectangles`.
- `Paddles`: the paddle is a class.
  - Its moves reassign its rectangle.
  - The balls on the board are given to the moves as the sequence of their centres.
- `Collidables`: a collidable is a block or a reference to the paddle, so the registry sees
  every move of the paddle.
- `Environment`: the registry is a class with an append-only sequence of collidables. A
  collision is the pair of a point and the collidable's position in that sequence.
- `Balls`: the ball is a class whose step reassigns its centre and velocity.

Doubles are exact reals. Every comparison the source makes within EPSILON is made the same
way here.

## Model

| member | source | states |
|---|---|---|
| Numeric.Abs | Line.java:21-23 | the result is non-negative and is either the argument or its negation |
| Numeric.Threshold | Line.java:21-23 | definition; its properties are stated by `Numeric.ThresholdSymmetric` |
| Numeric.ThresholdSymmetric | Line.java:21-23 | `threshold(a, b, eps)` equals `threshold(b, a, eps)` |
| Numeric.Round | Paddle.java:168 | `Math.round` stays in the long range; inside it, the result is the integer in (v - 1/2, v + 1/2], so halves round up |
| Numeric.ToInt | Paddle.java:168 | the `(int)` cast gives an int; it is the identity on ints and otherwise agrees with the long modulo 2^32 |
| Points.DistanceSquared | Point.java:29-32 | the squared distance is non-negative, zero between a point and itself, and positive between distinct points |
| Points.Distance | Point.java:29-32 | definition; its properties are stated by `Points.DistanceSymmetric`, `Points.DistanceIsEuclidean`, `Points.DistanceZero` and `Points.DistanceOrder` |
| Points.DistanceSymmetric | Point.java:29-32 | `p.distance(q) == q.distance(p)` |
| Points.DistanceIsEuclidean | Point.java:29-32 | with the true square root, the distance is non-negative and its square is (x - x')² + (y - y')² |
| Points.DistanceZero | Point.java:29-32 | with the true square root, the distance is zero exactly between a point and itself |
| Points.DistanceOrder | Point.java:29-32 | with the true square root, distances from one point are ordered as their squares are |
| Points.DistanceThreeFourFive | Point.java:29-32 | with the true square root, (0,0) and (3,4) are 5 apart |
| Velocities.ApplyToPoint | Velocity.java:48-52 | the new point is p shifted by exactly (dx, dy), at squared distance dx² + dy² from p |
| Velocities.ApplyZero | Velocity.java:48-52 | the velocity (0,0) leaves every point in place |
| Velocities.ApplyThenOpposite | Velocity.java:48-52 | applying (dx,dy) and then (-dx,-dy) returns to the starting point |
| Velocities.FromAngleAndSpeed | Velocity.java:61-65 | definition; its properties are stated by `Velocities.FromAngleZeroSpeed` and `Velocities.FromAngleSpeedSquared` |
| Velocities.FromAngleZeroSpeed | Velocity.java:61-65 | speed 0 gives the zero velocity at every angle |
| Velocities.FromAngleSpeedSquared | Velocity.java:61-65 | where sin² + cos² = 1 at the angle, the velocity's squared length is the squared speed |
| Lines.Start | Line.java:70-72 | definition; its properties are stated by `Lines.Length` and `Balls.Trajectory` |
| Lines.End | Line.java:79-81 | definition; its properties are stated by `Lines.Length` and `Balls.Trajectory` |
| Lines.Length | Line.java:52-54 | the length is the distance from `start()` to `end()` |
| Lines.Middle | Line.java:61-63 | the middle is equally far from both end points, at half the segment's length from each |
| Lines.MiddleIsOnLine | Line.java:61-63 | the middle of every segment passes `isPointOnLine` |
| Lines.IsPointOnLine | Line.java:89-114 | definition; its properties are stated by `Lines.OnNearlyVerticalLine`, `Lines.OnNearlyHorizontalLine`, `Lines.PointsOfSegmentAreOnLine` and `Lines.MiddleIsOnLine` |
| Lines.OnNearlyVerticalLine | Line.java:89-105 | on a segment with abs(dx) < EPSILON, the points on it are exactly those of the widened box within EPSILON of x1 |
| Lines.OnNearlyHorizontalLine | Line.java:89-107 | on a segment with abs(dy) < EPSILON but abs(dx) >= EPSILON, the points on it are exactly those of the widened box within EPSILON of y1 |
| Lines.PointsOfSegmentAreOnLine | Line.java:89-114 | every point a fraction t in [0,1] along a segment passes `isPointOnLine`, in all three branches |
| Lines.IntersectionWith | Line.java:132-150 | none when abs(denominator) < EPSILON; a point found is in both segments' widened boxes and on both carrier lines |
| Lines.CramerPointOnCarriers | Line.java:136-142 | the point Cramer's rule computes lies on both carrier lines whenever the denominator is not zero |
| Lines.CarriersMeetOnce | Line.java:136-142 | two carrier lines with a non-zero denominator share at most one point |
| Lines.IntersectionFindsCrossing | Line.java:132-150 | where two segments that are not nearly parallel really cross, `intersectionWith` returns that crossing point |
| Lines.IntersectionSymmetric | Line.java:132-150 | `l.intersectionWith(o)` equals `o.intersectionWith(l)` |
| Lines.IsIntersecting | Line.java:122-124 | definition; its properties are stated by `Lines.IsIntersectingLaws` |
| Lines.IsIntersectingLaws | Line.java:122-124 | `isIntersecting` is symmetric, and nearly parallel segments never intersect |
| Lines.Equals | Line.java:158-163 | definition; its properties are stated by `Lines.EqualsLaws` |
| Lines.EqualsLaws | Line.java:158-163 | a segment equals itself and its reversal, and `equals` is symmetric |
| Lines.NearestIndex | Line.java:176-186 | the scan selects an index of the list exactly when the list is non-empty |
| Lines.NearestIndexIsFirstNearest | Line.java:176-186 | the selected index is at the least distance of all points and strictly nearer than every point before it |
| Lines.Nearest | Line.java:171-189 | the nearest point is absent exactly when there are no points |
| Lines.NearestIsFirstNearest | Line.java:176-188 | the point chosen is a member of the list, at the least distance from the start, and the earliest one on ties |
| Lines.FirstNearestUnique | Line.java:180-186 | at most one index satisfies "least distance, strictly nearer than all earlier" |
| Lines.FirstNearestBySquares | Line.java:180-186 | with the true square root, the nearest by distance is the nearest by squared distance |
| Rectangles.Edges | Rectangle.java:54-67 | four edges, ordered top, bottom, left, right, between the corners (x,y), (x+w,y), (x,y+h), (x+w,y+h) |
| Rectangles.PresentFollowsIndices | Rectangle.java:39-44 | the kept points correspond one to one, in order, to the positions where a point was found |
| Rectangles.PresentEmpty | Rectangle.java:39-44 | nothing is kept exactly when nothing was found |
| Rectangles.CrossingsEmpty | Rectangle.java:39-44 | no intersection points exactly when no edge's `intersectionWith` finds one |
| Rectangles.CrossingsFollowEdges | Rectangle.java:35-47 | at most one point per edge, in edge order; the j-th point is the intersection with the j-th edge met, and every edge met contributes its point |
| Rectangles.CrossingFromEdge | Rectangle.java:39-44 | every intersection point is some edge's `intersectionWith(line)` |
| Rectangles.CrossingsStep | Rectangle.java:39-44 | testing one more edge appends its intersection, if any, to the points so far |
| Rectangles.EdgeIntersections | Rectangle.java:35-47 | a rectangle yields at most four intersection points |
| Rectangles.IntersectionPoints | Rectangle.java:35-47 | the loop returns exactly the specified list of intersection points |
| Rectangles.EdgeIntersectionsNearRectangle | Rectangle.java:35-47 | every intersection point lies within EPSILON of the rectangle on both axes |
| Rectangles.Contains | Rectangle.java:75-88 | definition; its properties are stated by `Rectangles.ContainsInterior`, `Rectangles.ContainsNearCorner` and `Rectangles.ContainsRejectsEdgesAwayFromCorners` |
| Rectangles.ContainsInterior | Rectangle.java:75-88 | every point strictly inside on both axes is contained |
| Rectangles.ContainsNearCorner | Rectangle.java:84-87 | every point within EPSILON of a corner on both axes is contained |
| Rectangles.ContainsRejectsEdgesAwayFromCorners | Rectangle.java:75-88 | a point on an edge, at least EPSILON from that edge's corners, is not contained, however thin the rectangle |
| Rectangles.ClosestIntersectionToStartOfLine | Line.java:171-189 | the loop returns the nearest intersection point to the line's start, the earliest on ties, or none when there is none |
| Rectangles.NearestStep | Line.java:180-186 | one more scanned point replaces the best so far exactly when there was none or it is strictly nearer |
| Blocks.Hit | Block.java:109-175 | per axis: near the left side, dx = -abs(dx); else near the right, dx = abs(dx); else dx is kept; likewise dy with the top and the bottom |
| Blocks.HitCorners | Block.java:126-147 | a hit near each corner points both components away from that corner |
| Blocks.HitEdges | Block.java:150-171 | a non-corner hit on each edge points the component across it away from the block and keeps the other |
| Blocks.HitAwayFromSides | Block.java:174 | a point near no corner or edge leaves the velocity unchanged |
| Blocks.HitKeepsMagnitudes | Block.java:109-175 | every branch keeps abs(dx) and abs(dy) |
| Blocks.HitIdempotent | Block.java:109-175 | `hit(p, hit(p, v)) == hit(p, v)` |
| Paddles.Section | Paddle.java:146-168 | the section is an int whatever the hit and the paddle's width |
| Paddles.SectionRounds | Paddle.java:146-168 | where the quotient fits an int, the section is that quotient rounded with halves up |
| Paddles.SectionOnPaddle | Paddle.java:146-168 | every hit across the top of a paddle of positive width is in a section from 0 to 5 |
| Paddles.SectionOfZeroWidth | Paddle.java:146-168 | on a zero-width paddle, a hit to its right is in section -1 and one to its left in section 0 |
| Paddles.SectionExamples | Paddle.java:168 | on the paddle at x = 100, 100 wide: x = 105 is section 0; 110 is section 1 (halves round up); 150 is section 3; 190 is section 5 |
| Paddles.Hit | Paddle.java:159-161 | a hit within EPSILON of the left side's x returns (-abs(dx), dy) |
| Paddles.HitSides | Paddle.java:159-165 | left-side hit: (-abs(dx), dy); otherwise right-side hit: (abs(dx), dy) |
| Paddles.HitSections | Paddle.java:168-201 | away from the sides: section 0 → 300°, 1 → 330°, 2 at the top → (dx, -abs(dy)), 2 below it and 3 → 30°, 4 and 5 → 60°, all at the incoming speed; any other section keeps the velocity |
| Paddles.IncomingSpeed | Paddle.java:156-157 | definition; its properties are stated by `Paddles.IncomingSpeedSquared` |
| Paddles.IncomingSpeedSquared | Paddle.java:156-157 | with the true square root, the incoming speed is non-negative and its square is dx² + dy² |
| Paddles.HitKeepsSpeed | Paddle.java:145-204 | with the true square root and sin² + cos² = 1 at the four angles, every paddle hit keeps the ball's speed |
| Paddles.LeftTarget | Paddle.java:52-56 | definition; its properties are stated by `Paddles.TargetsBetweenWalls`, `Paddles.TargetsUndoEachOther` and `Paddles.Paddle.MoveLeft` |
| Paddles.RightTarget | Paddle.java:74-78 | definition; its properties are stated by `Paddles.TargetsBetweenWalls`, `Paddles.TargetsUndoEachOther` and `Paddles.Paddle.MoveRight` |
| Paddles.MovedTo | Paddle.java:57-58 | the candidate rectangle has its upper-left corner at the new x and the old y, and keeps width and height |
| Paddles.TargetsBetweenWalls | Paddle.java:51-58 | a paddle between the walls stays between them after either move's wrap-around |
| Paddles.TargetsUndoEachOther | Paddle.java:73-80 | away from the walls, a move right undoes a move left and the other way round |
| Paddles.AnyCenterInside | Paddle.java:60-64 | the scan finds a ball exactly when some ball centre is contained in the candidate rectangle |
| Paddles.Paddle.constructor | Paddle.java:40-45 | the paddle starts with the given rectangle and board width |
| Paddles.Paddle.MoveLeft | Paddle.java:51-67 | the shape becomes x - 7, or the wrap to gameWidth - 10 - width, keeping y, width and height; it stays unchanged if a ball centre would be inside; the walls are respected and no ball ends up inside a moved paddle |
| Paddles.Paddle.MoveRight | Paddle.java:73-88 | the shape becomes x + 7, or the wrap to 10, with the same cancellation and guarantees as MoveLeft |
| Collidables.CollisionRectangle | Collidable.java:13 | a block gives its final rectangle and the paddle its current one |
| Collidables.Hit | Collidable.java:23 | dispatches to the block's or the paddle's rule; a block keeps both magnitudes |
| Collidables.HitKeepsSpeed | Collidable.java:23 | with the true square root and the identity at the paddle's angles, no collidable changes the ball's speed |
| Environment.HitPoints | GameEnvironment.java:85-87 | one closest intersection per registered collidable |
| Environment.HitPointsAt | GameEnvironment.java:85-87 | the i-th entry is the closest intersection of the i-th collidable's rectangle |
| Environment.NearestHit | GameEnvironment.java:85-100 | a reported collision names a scanned position whose hit point is the reported point |
| Environment.NearestHitIsNearest | GameEnvironment.java:85-100 | none exactly when there is no hit; otherwise at least as near as every hit and strictly nearer than every earlier one |
| Environment.NearestHitStep | GameEnvironment.java:89-98 | one more collidable replaces the best so far exactly when it has a hit and there was none or it is strictly nearer |
| Environment.ClosestCollision | GameEnvironment.java:79-103 | definition; its properties are stated by `Environment.ClosestCollisionIsNearest` and `Environment.GameEnvironment.GetClosestCollision` |
| Environment.ClosestCollisionIsNearest | GameEnvironment.java:79-103 | none exactly when no collidable is crossed; otherwise a registered collidable, at its own closest intersection, no farther than any other's, the earliest on ties |
| Environment.GameEnvironment.constructor | GameEnvironment.java:24-31 | the screen size is stored and the registry starts empty |
| Environment.GameEnvironment.AddCollidable | GameEnvironment.java:68-71 | the collidable is appended; the earlier entries are unchanged |
| Environment.GameEnvironment.GetClosestCollision | GameEnvironment.java:79-103 | the loop returns exactly the specified nearest collision over the current collidables |
| Balls.Nudge | Ball.java:152-157 | after a hit, the centre is 0.8 of the old distance from the collision point and 0.2 of it from the old centre, and lands on the collision point only if it started there |
| Balls.NudgeDistance | Ball.java:152-157 | with the true square root, the distance left to the collision point is 0.8 times the old one |
| Balls.Trajectory | Ball.java:144-146 | the trajectory runs from the centre to `velocity.applyToPoint(center)` |
| Balls.Ball.constructor | Ball.java:33-43 | the ball starts at the given centre with velocity (0,0); radius, bounds and environment are stored |
| Balls.Ball.SetVelocity | Ball.java:114-116 | the velocity becomes v; the centre is unchanged |
| Balls.Ball.SetVelocityComponents | Ball.java:133-135 | the velocity read back is (dx, dy); the centre is unchanged |
| Balls.Ball.MoveOneStep | Ball.java:142-165 | no collision: the centre takes the full step and the velocity stays; collision: the centre moves 0.2 of the way to the point, and the velocity becomes that collidable's hit of the old velocity |

## Behaviour worth knowing

- A hit at x = 110 on a paddle spanning x from 100 to 200 is section 1 (330°): the quotient
  is exactly 0.5 and `Math.round` rounds halves up (`Paddles.SectionExamples`).
- In section 2 the code reflects dy only when the hit is within EPSILON of the paddle's
  top. Below the top it falls through to the 30° result of section 3.
- `Rectangle.contains` rejects points on an edge that are away from its corners, although
  its doc comment (Rectangle.java:73) says points on the edge are contained.

## Left out

- Drawing, colours, `addToGame`, `timePassed`, the keyboard sensor, `Game`, `Main`,
  `Ass3Game`, `Sprite` and `SpriteCollection`. These are rendering, input and the frame
  loop, with no collision logic.
- IEEE-754 double rounding: doubles are exact reals.
  - The only infinities and NaN modelled are the ones a zero-width paddle produces in
    `Paddles.Section`: ±Infinity for a hit beside it and NaN (0/0, which `Math.round`
    turns into 0) for a hit at its x. Nowhere else does the model produce them.
- `Math.sqrt`, `sin`, `cos` and `toRadians` have no definition here; they are parameters.
  - Selection results hold for any square root.
  - Speed and distance facts are stated under `IsSqrt`.
  - Facts about angles are stated under the Pythagorean identity at the angles used.
- `Double.MAX_VALUE` as the initial "closest distance" (Line.java:177,
  GameEnvironment.java:83) is replaced by an absent value.
  - The first present candidate is always taken.
  - The Java loop skips a first candidate whose distance is exactly `Double.MAX_VALUE` or
    has overflowed to +Infinity; the model takes it, whatever its distance.
- `CollisionInfo` holds the collidable's position in the registry instead of a reference to
  it.
- The getters are not separate members: `Point.getX`/`getY`, `Velocity.getDx`/`getDy`,
  the `Rectangle` getters, `Ball.getCenter`/`getVelocity`/`getX`/`getY`/`getSize`/
  `getGameEnvironment` and `GameEnvironment.getScreenWidth`/`getScreenHeight`. They are
  the fields of the datatypes and classes, read directly. The datatypes' fields are
  immutable; `Ball.center` and `Ball.velocity` are mutable fields that
  `Ball.MoveOneStep`, `Ball.SetVelocity` and `Ball.SetVelocityComponents` reassign, and the
  other class fields the getters return are constants.
- `GameEnvironment.getCollidables`: it hands out the list itself. The model reads the
  `collidables` field directly and changes it only through `AddCollidable`.
- The global `Game.balls` list read by the paddle's moves is passed in as the sequence of
  the ball centres.
- Paddles.Hit: its own contract states only the left-side case. The other branches are
  stated by `Paddles.HitSides` and `Paddles.HitSections`.
