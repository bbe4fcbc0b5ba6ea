/** The simulation engine as values: the state of a Snake object, one tick
    of play_step as a function of that state, and the facts the engine keeps
    from tick to tick.  The class in snake.dfy is proved to follow it. */
module Engine {
  import opened Grid
  import opened Food

  /** The fields of a Snake object; snake lists the segments head first. */
  datatype Game = Game(
    direction: Direction,
    head: Point,
    snake: seq<Point>,
    food: Point,
    score: int,
    frameIteration: int)

  /** What one tick leaves behind: the new state and the game-over flag;
      play_step hands back that flag and the new score. */
  datatype Ticked = Ticked(next: Game, gameOver: bool)

  // ---------------------------------------------------------------------
  // Heading, movement and collision
  // ---------------------------------------------------------------------

  /** The heading after play_step reads the action code. */
  function Heading(action: int, current: Direction): Direction
  {
    if action == 0 then Left
    else if action == 1 then Right
    else if action == 2 then Up
    else if action == 3 then Down
    else current
  }

  /** The action code that asks for a heading. */
  function ActionFor(d: Direction): int
  {
    match d
    case Left => 0
    case Right => 1
    case Up => 2
    case Down => 3
  }

  /** Codes 0 to 3 set an absolute heading, whatever the current one, and
      they are the only codes that can change it; any other code keeps the
      heading. */
  lemma HeadingFromAction(action: int, current: Direction, wanted: Direction)
    ensures Heading(ActionFor(wanted), current) == wanted
    ensures 0 <= action <= 3 ==> ActionFor(Heading(action, current)) == action
    ensures !(0 <= action <= 3) ==> Heading(action, current) == current
  {
  }

  /** The head after _move: one cell forward in the given heading. */
  function Moved(p: Point, d: Direction): Point
  {
    match d
    case Right => Point(p.x + BLOCK_SIZE, p.y)
    case Left => Point(p.x - BLOCK_SIZE, p.y)
    case Down => Point(p.x, p.y + BLOCK_SIZE)
    case Up => Point(p.x, p.y - BLOCK_SIZE)
  }

  /** A move changes exactly one coordinate by one cell, along the unit step
      of the heading (y grows downwards); it keeps grid alignment, and the
      opposite heading undoes it. */
  lemma MoveIsOneStep(p: Point, d: Direction)
    ensures Adjacent(p, Moved(p, d)) && Adjacent(Moved(p, d), p)
    ensures Moved(p, d) == Point(p.x + BLOCK_SIZE * Delta(d).0, p.y + BLOCK_SIZE * Delta(d).1)
    ensures Aligned(p) ==> Aligned(Moved(p, d))
    ensures Moved(Moved(p, d), Opposite(d)) == p
  {
  }

  /** _is_collide on a snake whose first segment is the head: the head is
      past a wall, or it lies on one of the later segments. */
  predicate Collides(head: Point, body: seq<Point>)
  {
    !InBounds(head) || (|body| >= 1 && head in body[1..])
  }

  // ---------------------------------------------------------------------
  // One tick of play_step
  // ---------------------------------------------------------------------

  function NextHead(g: Game, action: int): Point
  {
    Moved(g.head, Heading(action, g.direction))
  }

  /** The snake once the new head is inserted in front and before any pop. */
  function Grown(g: Game, action: int): seq<Point>
  {
    [NextHead(g, action)] + g.snake
  }

  /** The game-over test of play_step: a collision, checked while the old tail
      is still in place, or a timeout against the grown length. */
  predicate Terminal(g: Game, action: int)
  {
    Collides(NextHead(g, action), Grown(g, action)) ||
    g.frameIteration + 1 > 50 * |Grown(g, action)|
  }

  /** A tick that survives and lands the head on the food. */
  predicate Eats(g: Game, action: int)
  {
    !Terminal(g, action) && NextHead(g, action) == g.food
  }

  /** What the generator must offer for a tick to finish: when the tick eats,
      some attempt must find a cell free of the grown snake. */
  predicate CanTick(g: Game, action: int, draws: seq<Draw>)
  {
    Eats(g, action) ==> Feeds(draws, Grown(g, action))
  }

  /** One call of play_step, with the generator's draws for a food placement. */
  function Tick(g: Game, action: int, draws: seq<Draw>): Ticked
    requires CanTick(g, action, draws)
  {
    var frame := g.frameIteration + 1;
    var dir := Heading(action, g.direction);
    var head := Moved(g.head, dir);
    var body := [head] + g.snake;
    if Collides(head, body) || frame > 50 * |body| then
      Ticked(Game(dir, head, body, g.food, g.score, frame), true)
    else if head == g.food then
      Ticked(Game(dir, head, body, FoodFrom(draws, body), g.score + 2 + 10, frame), false)
    else
      Ticked(Game(dir, head, body[..|body| - 1], g.food, g.score + 2, frame), false)
  }

  /** Tick in terms of the grown snake, one case per way play_step can end. */
  lemma TickCases(g: Game, action: int, draws: seq<Draw>)
    requires CanTick(g, action, draws)
    ensures var t := Tick(g, action, draws);
      var dir := Heading(action, g.direction);
      var body := Grown(g, action);
      var f := g.frameIteration + 1;
      && (Terminal(g, action) ==>
            t == Ticked(Game(dir, body[0], body, g.food, g.score, f), true))
      && (Eats(g, action) ==>
            t == Ticked(Game(dir, body[0], body, FoodFrom(draws, body), g.score + 2 + 10, f), false))
      && (!Terminal(g, action) && !Eats(g, action) ==>
            t == Ticked(Game(dir, body[0], body[..|body| - 1], g.food, g.score + 2, f), false))
  {
  }

  /** The game-over flag is exactly the terminal test, and a terminal tick
      returns at once: the grown snake keeps its tail (length + 1), the score
      and the food stay as they were. */
  lemma TickTerminal(g: Game, action: int, draws: seq<Draw>)
    requires CanTick(g, action, draws)
    ensures Tick(g, action, draws).gameOver <==> Terminal(g, action)
    ensures Terminal(g, action) ==>
      var n := Tick(g, action, draws).next;
      n.snake == Grown(g, action) && |n.snake| == |g.snake| + 1 &&
      n.score == g.score && n.food == g.food
  {
  }

  /** A surviving tick scores 2, and 10 more when the head lands on the food;
      the snake grows by one when it eats and keeps its length otherwise; the
      new head is in front; a snake that did not eat keeps the same food and
      loses its last segment.  (The snake of every state has a segment.) */
  lemma TickSurvives(g: Game, action: int, draws: seq<Draw>)
    requires |g.snake| >= 1 && CanTick(g, action, draws) && !Terminal(g, action)
    ensures var n := Tick(g, action, draws).next;
      && n.score == g.score + 2 + (if Eats(g, action) then 10 else 0)
      && |n.snake| == |g.snake| + (if Eats(g, action) then 1 else 0)
      && |n.snake| >= 1 && n.snake[0] == n.head == NextHead(g, action)
      && n.snake[1..] == (if Eats(g, action) then g.snake else g.snake[..|g.snake| - 1])
      && (!Eats(g, action) ==> n.food == g.food)
  {
  }

  /** Every tick counts a frame and takes the requested heading; the score
      never goes down. */
  lemma TickCountsFrame(g: Game, action: int, draws: seq<Draw>)
    requires CanTick(g, action, draws)
    ensures var n := Tick(g, action, draws).next;
      n.frameIteration == g.frameIteration + 1 &&
      n.direction == Heading(action, g.direction) &&
      n.score >= g.score
  {
  }

  /** The collision test runs before the tail is popped, so moving the head
      into the cell the tail occupies ends the game. */
  lemma IntoTailCollides(g: Game, action: int)
    requires |g.snake| >= 1 && NextHead(g, action) == g.snake[|g.snake| - 1]
    ensures Terminal(g, action)
  {
    assert Grown(g, action)[1..] == g.snake;
  }

  /** No rule forbids reversing: an action that turns the head back onto the
      segment behind it ends the game. */
  lemma ReversalCollides(g: Game, action: int)
    requires |g.snake| >= 2 && NextHead(g, action) == g.snake[1]
    ensures Terminal(g, action)
  {
    assert Grown(g, action)[1..] == g.snake;
  }

  /** In every running episode one of the four action codes turns the head
      back onto the segment behind it, and that tick ends the game. */
  lemma EveryRunningStateCanReverse(g: Game)
    requires Running(g)
    ensures exists a :: 0 <= a <= 3 && NextHead(g, a) == g.snake[1] && Terminal(g, a)
  {
    var neck := g.snake[1];
    assert Adjacent(g.snake[0], neck);
    var d :=
      if neck.x > g.head.x then Right
      else if neck.x < g.head.x then Left
      else if neck.y > g.head.y then Down
      else Up;
    var a := ActionFor(d);
    assert Heading(a, g.direction) == d;
    assert NextHead(g, a) == neck;
    ReversalCollides(g, a);
  }

  // ---------------------------------------------------------------------
  // reset
  // ---------------------------------------------------------------------

  /** The head of a fresh episode: the middle of the window. */
  function StartHead(): Point
  {
    Point(WIN_WIDTH / 2, WIN_HEIGHT / 2)
  }

  /** The three-segment snake of a fresh episode, extending leftwards. */
  function StartSnake(): seq<Point>
  {
    var h := StartHead();
    [h, Point(h.x - BLOCK_SIZE, h.y), Point(h.x - 2 * BLOCK_SIZE, h.y)]
  }

  /** The state reset leaves behind; it does not depend on the old state. */
  function Initial(draws: seq<Draw>): Game
    requires Feeds(draws, StartSnake())
  {
    Game(Right, StartHead(), StartSnake(), FoodFrom(draws, StartSnake()), 0, 0)
  }

  // ---------------------------------------------------------------------
  // What a running episode keeps
  // ---------------------------------------------------------------------

  predicate AllOnGrid(s: seq<Point>)
  {
    forall i :: 0 <= i < |s| ==> OnGrid(s[i])
  }

  predicate Distinct(s: seq<Point>)
  {
    forall i, j :: 0 <= i < j < |s| ==> s[i] != s[j]
  }

  /** Each segment is one cell away from the next one. */
  predicate Connected(s: seq<Point>)
  {
    forall i :: 0 <= i < |s| - 1 ==> Adjacent(s[i], s[i + 1])
  }

  /** The state of an episode that has not ended: at least three segments
      with the head in front, all on the grid, none twice, each next to the
      following one; the food on a free cell; and the score made of 2 per
      tick played and 10 per segment grown. */
  predicate Running(g: Game)
  {
    && |g.snake| >= 3
    && g.head == g.snake[0]
    && AllOnGrid(g.snake)
    && Distinct(g.snake)
    && Connected(g.snake)
    && OnGrid(g.food)
    && g.food !in g.snake
    && g.frameIteration >= 0
    && g.score == 2 * g.frameIteration + 10 * (|g.snake| - 3)
  }

  /** reset heads right, with a horizontal three-segment snake whose head is
      at the centre, score and frame count zero and the food off the snake;
      this is an episode that has not ended. */
  lemma InitialIsRunning(draws: seq<Draw>)
    requires Feeds(draws, StartSnake())
    ensures var g := Initial(draws);
      && g.direction == Right
      && g.snake == [g.head, Point(g.head.x - BLOCK_SIZE, g.head.y), Point(g.head.x - 2 * BLOCK_SIZE, g.head.y)]
      && g.score == 0 && g.frameIteration == 0
      && Running(g)
  {
    FoodFromIsFreeCell(draws, StartSnake());
  }

  /** Prepending a cell that is new to a distinct snake keeps it distinct. */
  lemma PrependDistinct(h: Point, s: seq<Point>)
    requires Distinct(s) && h !in s
    ensures Distinct([h] + s)
  {
    var b := [h] + s;
    forall i, j | 0 <= i < j < |b|
      ensures b[i] != b[j]
    {
      assert b[j] == s[j - 1];
      if i > 0 {
        assert b[i] == s[i - 1];
      }
    }
  }

  /** Prepending a neighbour of the first segment keeps a snake connected. */
  lemma PrependConnected(h: Point, s: seq<Point>)
    requires Connected(s) && |s| >= 1 && Adjacent(h, s[0])
    ensures Connected([h] + s)
  {
    var b := [h] + s;
    forall i | 0 <= i < |b| - 1
      ensures Adjacent(b[i], b[i + 1])
    {
      if i > 0 {
        assert b[i] == s[i - 1] && b[i + 1] == s[i];
      }
    }
  }

  /** Dropping the last segment keeps all three shape facts. */
  lemma DropLastKeepsShape(s: seq<Point>)
    requires |s| >= 1 && AllOnGrid(s) && Distinct(s) && Connected(s)
    ensures var t := s[..|s| - 1]; AllOnGrid(t) && Distinct(t) && Connected(t)
    ensures forall p :: p in s[..|s| - 1] ==> p in s
  {
  }

  /** TickKeepsRunning, stated for every tick: a tick that reports the game
      still on leaves a running episode running. */
  lemma TickLeavesRunning(g: Game, action: int, draws: seq<Draw>)
    requires CanTick(g, action, draws)
    ensures Running(g) && !Tick(g, action, draws).gameOver ==> Running(Tick(g, action, draws).next)
  {
    if Running(g) && !Terminal(g, action) {
      TickKeepsRunning(g, action, draws);
    }
  }

  /** A tick that does not end the game keeps every fact of a running
      episode: no reachable running state has a segment off the grid, a
      repeated segment, a gap in the body or food on the body. */
  lemma TickKeepsRunning(g: Game, action: int, draws: seq<Draw>)
    requires Running(g) && CanTick(g, action, draws) && !Terminal(g, action)
    ensures Running(Tick(g, action, draws).next)
  {
    var dir := Heading(action, g.direction);
    var h := NextHead(g, action);
    var body := Grown(g, action);
    MoveIsOneStep(g.head, dir);
    assert body[1..] == g.snake;
    assert h !in g.snake;
    assert InBounds(h);
    PrependDistinct(h, g.snake);
    PrependConnected(h, g.snake);
    assert AllOnGrid(body) by {
      forall i | 0 <= i < |body|
        ensures OnGrid(body[i])
      {
        if i > 0 {
          assert body[i] == g.snake[i - 1];
        }
      }
    }
    if h == g.food {
      FoodFromIsFreeCell(draws, body);
    } else {
      DropLastKeepsShape(body);
      assert body[..|body| - 1][0] == h;
    }
  }
}
