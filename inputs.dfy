/** The observation get_inputs hands to the agent: head and food positions,
    wall and body distances seen from the current heading (to its left,
    straight ahead and to its right), and the length of the snake.
    Python's floats are modelled as exact reals. */
module Inputs {
  import opened Grid
  import opened Engine

  // ---------------------------------------------------------------------
  // Heading-relative selection
  // ---------------------------------------------------------------------

  /** The headings in clockwise order on the screen (y grows downwards). */
  const CLOCKWISE: seq<Direction> := [Right, Down, Left, Up]

  /** The position of a heading in CLOCKWISE, as list.index finds it. */
  function ClockwiseIndex(d: Direction): (i: nat)
    ensures i < |CLOCKWISE| && CLOCKWISE[i] == d
    ensures forall j :: 0 <= j < i ==> CLOCKWISE[j] != d
  {
    match d
    case Right => 0
    case Down => 1
    case Left => 2
    case Up => 3
  }

  /** Three readings seen from the heading. */
  datatype Sides<T> = Sides(left: T, straight: T, right: T)

  /** Picks, from four readings listed in CLOCKWISE order, the one straight
      ahead (index cur), the one to the right (cur + 1) % 4 and the one to the
      left (cur - 1) % 4.  Python's % floors; with divisor 4 it agrees with
      Dafny's, so (0 - 1) % 4 is 3 in both. */
  function Select<T>(clockwise: seq<T>, d: Direction): Sides<T>
    requires |clockwise| == 4
  {
    var cur: int := ClockwiseIndex(d);
    Sides(clockwise[(cur - 1) % 4], clockwise[cur], clockwise[(cur + 1) % 4])
  }

  /** A quarter turn to the right, by its geometry: the unit step (dx, dy)
      becomes (-dy, dx) on a screen whose y axis points down. */
  function TurnRight(d: Direction): (r: Direction)
    ensures Delta(r) == (-Delta(d).1, Delta(d).0)
  {
    match d
    case Right => Down
    case Down => Left
    case Left => Up
    case Up => Right
  }

  /** A quarter turn to the left: the unit step (dx, dy) becomes (dy, -dx). */
  function TurnLeft(d: Direction): (r: Direction)
    ensures Delta(r) == (Delta(d).1, -Delta(d).0)
  {
    Opposite(TurnRight(d))
  }

  /** The index arithmetic reads each reading from the right heading: the
      straight reading is the current heading's own, the right reading that
      of a right turn, the left reading that of a left turn; the two turns
      undo each other. */
  lemma SelectMatchesTurns<T>(clockwise: seq<T>, d: Direction)
    requires |clockwise| == 4
    ensures var s := Select(clockwise, d);
      && s.straight == clockwise[ClockwiseIndex(d)]
      && s.right == clockwise[ClockwiseIndex(TurnRight(d))]
      && s.left == clockwise[ClockwiseIndex(TurnLeft(d))]
    ensures TurnLeft(TurnRight(d)) == d && TurnRight(TurnLeft(d)) == d
    ensures Select(CLOCKWISE, d) == Sides(TurnLeft(d), d, TurnRight(d))
  {
  }

  // ---------------------------------------------------------------------
  // Wall distances
  // ---------------------------------------------------------------------

  /** The wall readings as the source computes them, in CLOCKWISE order
      (right, down, left, up): a pixel coordinate divided by the number of
      cells, then one minus that for the left and top walls. */
  function WallDistancesAsWritten(head: Point): seq<real>
  {
    var fx := head.x as real / WIDTH as real;
    var fy := head.y as real / HEIGHT as real;
    [fx, fy, 1.0 - fx, 1.0 - fy]
  }

  /** The readings as written are cell indices, not fractions: a head on the
      grid, in the middle row at the last column, reads 19 towards the right
      wall and -18 towards the left one. */
  lemma WallDistancesAsWrittenLeaveUnitRange()
    ensures var head := Point(WIN_WIDTH - BLOCK_SIZE, WIN_HEIGHT / 2);
      OnGrid(head) && WallDistancesAsWritten(head)[0] == 19.0 &&
      WallDistancesAsWritten(head)[2] == -18.0
  {
  }

  /** The wall readings normalised by the window size:
      the fraction of the window traversed towards each wall. */
  function WallDistances(head: Point): seq<real>
  {
    var fx := head.x as real / WIN_WIDTH as real;
    var fy := head.y as real / WIN_HEIGHT as real;
    [fx, fy, 1.0 - fx, 1.0 - fy]
  }

  /** For every head inside the walls, each corrected reading is a fraction
      in [0, 1], and readings towards opposite walls add up to 1. */
  lemma WallDistancesInUnitRange(head: Point)
    requires InBounds(head)
    ensures |WallDistances(head)| == 4
    ensures forall i :: 0 <= i < 4 ==> 0.0 <= WallDistances(head)[i] <= 1.0
    ensures WallDistances(head)[0] + WallDistances(head)[2] == 1.0
    ensures WallDistances(head)[1] + WallDistances(head)[3] == 1.0
  {
    FractionInUnitRange(head.x, WIN_WIDTH);
    FractionInUnitRange(head.y, WIN_HEIGHT);
  }

  lemma FractionInUnitRange(a: int, b: int)
    requires 0 <= a <= b && 0 < b
    ensures 0.0 <= a as real / b as real <= 1.0
  {
    var q := a as real / b as real;
    assert q * b as real == a as real;
  }

  // ---------------------------------------------------------------------
  // Body distances
  // ---------------------------------------------------------------------

  /** A later segment counts for the absolute direction d when it lies on the
      head's row (for right and left) or column (for up and down), on that
      side of the head. */
  predicate Qualifies(head: Point, pt: Point, d: Direction)
  {
    match d
    case Right => head.y == pt.y && head.x < pt.x
    case Left => head.y == pt.y && head.x > pt.x
    case Up => head.x == pt.x && head.y > pt.y
    case Down => head.x == pt.x && head.y < pt.y
  }

  /** The numerator and denominator of the reading a qualifying segment gives. */
  function Numerator(head: Point, pt: Point, d: Direction): int
  {
    match d
    case Right => head.x
    case Left => pt.x
    case Up => pt.y
    case Down => head.y
  }

  function Denominator(head: Point, pt: Point, d: Direction): int
  {
    match d
    case Right => pt.x
    case Left => head.x
    case Up => head.y
    case Down => pt.y
  }

  /** No qualifying reading of this segment divides by zero (Python would
      raise ZeroDivisionError). */
  predicate Divisible(head: Point, pt: Point)
  {
    && (Qualifies(head, pt, Right) ==> Denominator(head, pt, Right) != 0)
    && (Qualifies(head, pt, Left) ==> Denominator(head, pt, Left) != 0)
    && (Qualifies(head, pt, Up) ==> Denominator(head, pt, Up) != 0)
    && (Qualifies(head, pt, Down) ==> Denominator(head, pt, Down) != 0)
  }

  predicate AllDivisible(head: Point, segs: seq<Point>)
  {
    forall i :: 0 <= i < |segs| ==> Divisible(head, segs[i])
  }

  function Ratio(head: Point, pt: Point, d: Direction): real
    requires Qualifies(head, pt, d) && Divisible(head, pt)
  {
    Numerator(head, pt, d) as real / Denominator(head, pt, d) as real
  }

  function Max(a: real, b: real): real
  {
    if a >= b then a else b
  }

  /** The body reading for direction d after the loop has visited segs:
      the running max of the qualifying ratios, from 0. */
  function BodyFeature(head: Point, segs: seq<Point>, d: Direction): real
    requires AllDivisible(head, segs)
    decreases |segs|
  {
    if segs == [] then 0.0
    else
      var pt := segs[|segs| - 1];
      var acc := BodyFeature(head, segs[..|segs| - 1], d);
      if Qualifies(head, pt, d) then Max(acc, Ratio(head, pt, d)) else acc
  }

  /** One more iteration of the loop of get_inputs over the later segments. */
  lemma BodyFeatureStep(head: Point, segs: seq<Point>, i: nat)
    requires AllDivisible(head, segs) && i < |segs|
    ensures AllDivisible(head, segs[..i]) && AllDivisible(head, segs[..i + 1])
    ensures forall d ::
      BodyFeature(head, segs[..i + 1], d) ==
        if Qualifies(head, segs[i], d) then Max(BodyFeature(head, segs[..i], d), Ratio(head, segs[i], d))
        else BodyFeature(head, segs[..i], d)
  {
    assert segs[..i + 1][..i] == segs[..i];
  }

  /** The body reading is the largest ratio among the qualifying segments,
      or 0 when that is larger or no segment qualifies. */
  lemma {:induction false} BodyFeatureIsMaximum(head: Point, segs: seq<Point>, d: Direction)
    requires AllDivisible(head, segs)
    ensures BodyFeature(head, segs, d) >= 0.0
    ensures forall i :: 0 <= i < |segs| && Qualifies(head, segs[i], d) ==>
      Ratio(head, segs[i], d) <= BodyFeature(head, segs, d)
    ensures BodyFeature(head, segs, d) == 0.0 ||
      exists i :: 0 <= i < |segs| && Qualifies(head, segs[i], d) && BodyFeature(head, segs, d) == Ratio(head, segs[i], d)
    decreases |segs|
  {
    if segs != [] {
      var init := segs[..|segs| - 1];
      BodyFeatureIsMaximum(head, init, d);
      assert forall i :: 0 <= i < |init| ==> init[i] == segs[i];
      if BodyFeature(head, init, d) != 0.0 && BodyFeature(head, segs, d) == BodyFeature(head, init, d) {
        var i :| 0 <= i < |init| && Qualifies(head, init[i], d) && BodyFeature(head, init, d) == Ratio(head, init[i], d);
        assert segs[i] == init[i];
      }
    }
  }

  /** A head and segments with non-negative coordinates never make
      get_inputs divide by zero: a zero denominator needs a negative
      coordinate.  This covers every running episode, but not a head that a
      collision left one step past the left or top wall. */
  lemma NonNegativeSegmentsDivisible(head: Point, segs: seq<Point>)
    requires head.x >= 0 && head.y >= 0
    requires forall i :: 0 <= i < |segs| ==> segs[i].x >= 0 && segs[i].y >= 0
    ensures AllDivisible(head, segs)
  {
  }

  /** When the head and the segments are on the grid, each body reading is a
      fraction in [0, 1). */
  lemma {:induction false} BodyFeatureInUnitRange(head: Point, segs: seq<Point>, d: Direction)
    requires OnGrid(head) && AllOnGrid(segs)
    ensures AllDivisible(head, segs)
    ensures 0.0 <= BodyFeature(head, segs, d) < 1.0
    decreases |segs|
  {
    NonNegativeSegmentsDivisible(head, segs);
    if segs != [] {
      var init := segs[..|segs| - 1];
      var pt := segs[|segs| - 1];
      assert AllOnGrid(init);
      BodyFeatureInUnitRange(head, init, d);
      if Qualifies(head, pt, d) {
        FractionBelowOne(Numerator(head, pt, d), Denominator(head, pt, d));
      }
    }
  }

  /** get_inputs after a tick that ran into the left wall divides by zero:
      from a running state with the head on the first column and the neck to
      its right, a LEFT tick ends the game with the head at x = -20 and the
      former head, at x = 0, as the second segment.  That segment lies to the
      right of the head, so the right reading head.x / pt.x is taken, with a
      zero denominator; the left test does not fire.  The top wall does the
      same to the down reading head.y / pt.y. */
  lemma LeftWallCollisionDividesByZero()
    ensures var g := Game(Left, Point(0, 200), [Point(0, 200), Point(20, 200), Point(40, 200)], Point(0, 0), 4, 2);
      var t := Tick(g, 0, []);
      && Running(g) && t.gameOver
      && !AllDivisible(t.next.head, Body(t.next.snake))
      && Qualifies(t.next.head, Body(t.next.snake)[0], Right)
      && Denominator(t.next.head, Body(t.next.snake)[0], Right) == 0
      && !Qualifies(t.next.head, Body(t.next.snake)[0], Left)
  {
    var g := Game(Left, Point(0, 200), [Point(0, 200), Point(20, 200), Point(40, 200)], Point(0, 0), 4, 2);
    var t := Tick(g, 0, []);
    assert Body(t.next.snake)[0] == Point(0, 200);
    assert !Divisible(t.next.head, Body(t.next.snake)[0]);
  }

  lemma FractionBelowOne(a: int, b: int)
    requires 0 <= a < b
    ensures 0.0 <= a as real / b as real < 1.0
  {
    var q := a as real / b as real;
    assert q * b as real == a as real;
  }

  // ---------------------------------------------------------------------
  // The whole observation
  // ---------------------------------------------------------------------

  /** The later segments, as snake[1:] gives them. */
  function Body(s: seq<Point>): seq<Point>
  {
    if |s| >= 1 then s[1..] else []
  }

  /** The four body readings in CLOCKWISE order. */
  function BodyDistances(g: Game): seq<real>
    requires AllDivisible(g.head, Body(g.snake))
  {
    var segs := Body(g.snake);
    [BodyFeature(g.head, segs, Right), BodyFeature(g.head, segs, Down),
     BodyFeature(g.head, segs, Left), BodyFeature(g.head, segs, Up)]
  }

  /** The eleven readings, in the order get_inputs returns them. */
  function Observation(g: Game): seq<real>
    requires AllDivisible(g.head, Body(g.snake))
  {
    var walls := Select(WallDistances(g.head), g.direction);
    var bodies := Select(BodyDistances(g), g.direction);
    [g.head.x as real / WIDTH as real, g.head.y as real / HEIGHT as real,
     g.food.x as real / WIDTH as real, g.food.y as real / HEIGHT as real,
     walls.left, walls.straight, walls.right,
     bodies.left, bodies.straight, bodies.right,
     |g.snake| as real / (WIDTH * HEIGHT) as real]
  }

  /** In a running episode the observation is always defined (no division
      by zero), has eleven readings, and its six distance readings are
      fractions: walls in [0, 1], body in [0, 1). */
  lemma ObservationOfRunningGame(g: Game)
    requires Running(g)
    ensures AllDivisible(g.head, Body(g.snake))
    ensures var o := Observation(g);
      && |o| == 11
      && (forall i :: 4 <= i < 7 ==> 0.0 <= o[i] <= 1.0)
      && (forall i :: 7 <= i < 10 ==> 0.0 <= o[i] < 1.0)
  {
    var segs := Body(g.snake);
    assert AllOnGrid(segs) by {
      forall i | 0 <= i < |segs|
        ensures OnGrid(segs[i])
      {
        assert segs[i] == g.snake[i + 1];
      }
    }
    assert OnGrid(g.head) by {
      assert g.head == g.snake[0];
    }
    WallDistancesInUnitRange(g.head);
    BodyFeatureInUnitRange(g.head, segs, Right);
    BodyFeatureInUnitRange(g.head, segs, Down);
    BodyFeatureInUnitRange(g.head, segs, Left);
    BodyFeatureInUnitRange(g.head, segs, Up);
  }
}
