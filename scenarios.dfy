/** Clients of the Snake class: what a driver can conclude from the
    contracts alone about short action sequences. */
module Scenarios {
  import opened Grid
  import opened Food
  import opened Engine
  import opened SnakeGame

  /** Food two cells ahead of the start head: two RIGHT ticks reach it, the
      second one eats (2 + 2 + 10 points, one segment more); RIGHT ticks then
      run the head into the right wall, which ends the game with the score
      unchanged and the tail kept. */
  method EatThenHitWall()
  {
    assert CellOf([Draw(12, 10)][0]) !in StartSnake();
    var game := new Snake([Draw(12, 10)]);
    assert FirstFree([Draw(12, 10)], StartSnake()) == 0;
    EatAhead(game);
    RunIntoRightWall(game);
  }

  /** The two RIGHT ticks from the start state with the food at (240, 200). */
  method EatAhead(game: Snake)
    requires game.State() == Game(Right, Point(200, 200), StartSnake(), Point(240, 200), 0, 0)
    modifies game
    ensures game.direction == Right && game.food == Point(0, 0) && game.frameIteration == 2
    ensures game.head == Point(240, 200) && game.score == 14
    ensures game.snake == [Point(240, 200), Point(220, 200), Point(200, 200), Point(180, 200)]
  {
    StepBesideFood(game);
    StepOntoFood(game);
  }

  /** The first tick moves next to the food and scores 2. */
  method StepBesideFood(game: Snake)
    requires game.State() == Game(Right, Point(200, 200), StartSnake(), Point(240, 200), 0, 0)
    modifies game
    ensures game.State() ==
      Game(Right, Point(220, 200), [Point(220, 200), Point(200, 200), Point(180, 200)], Point(240, 200), 2, 1)
  {
    TickCases(game.State(), 1, []);
    var over, score := game.PlayStep(1, []);
    assert !over && score == 2;
  }

  /** The second tick eats: 2 + 10 more points, one more segment, and the
      food moves to the first draw off the grown snake. */
  method StepOntoFood(game: Snake)
    requires game.State() ==
      Game(Right, Point(220, 200), [Point(220, 200), Point(200, 200), Point(180, 200)], Point(240, 200), 2, 1)
    modifies game
    ensures game.State() ==
      Game(Right, Point(240, 200), [Point(240, 200), Point(220, 200), Point(200, 200), Point(180, 200)], Point(0, 0), 14, 2)
  {
    var draws := [Draw(12, 10), Draw(0, 0)];
    assert CellOf(draws[1]) !in Grown(game.State(), 1);
    assert FirstFree(draws, Grown(game.State(), 1)) == 1;
    TickCases(game.State(), 1, draws);
    var over, score := game.PlayStep(1, draws);
    assert !over && score == 14;
  }

  /** From a straight four-segment snake heading right on row 200, RIGHT
      ticks survive until the head reaches the last column; the next one
      leaves the grid and ends the game, keeping the score and the tail. */
  method RunIntoRightWall(game: Snake)
    requires game.direction == Right && game.food == Point(0, 0) && game.frameIteration == 2
    requires game.head == Point(240, 200)
    requires game.snake == [Point(240, 200), Point(220, 200), Point(200, 200), Point(180, 200)]
    modifies game
  {
    var x := 240;
    while x < WIN_WIDTH - BLOCK_SIZE
      invariant 240 <= x <= WIN_WIDTH - BLOCK_SIZE && x % BLOCK_SIZE == 0
      invariant game.direction == Right && game.food == Point(0, 0)
      invariant game.head == Point(x, 200)
      invariant game.snake == [Point(x, 200), Point(x - 20, 200), Point(x - 40, 200), Point(x - 60, 200)]
      invariant game.frameIteration == 2 + (x - 240) / BLOCK_SIZE
      decreases WIN_WIDTH - x
    {
      ghost var before := game.State();
      TickCases(before, 1, []);
      assert Grown(before, 1) == [Point(x + 20, 200)] + game.snake;
      assert Grown(before, 1)[1..] == game.snake;
      assert !Terminal(before, 1) && !Eats(before, 1);
      var over, score := game.PlayStep(1, []);
      x := x + BLOCK_SIZE;
    }

    var last := game.score;
    var over, score := game.PlayStep(1, []);
    assert over && score == last && game.head == Point(WIN_WIDTH, 200) && |game.snake| == 5;
  }

  /** An immediate reversal after reset ends the episode on the first tick. */
  method ReverseIntoNeck()
  {
    assert CellOf([Draw(0, 0)][0]) !in StartSnake();
    var game := new Snake([Draw(0, 0)]);
    ReversalCollides(game.State(), 0);
    var over, score := game.PlayStep(0, []);
    assert over && score == 0 && game.head == Point(180, 200);
  }
}
