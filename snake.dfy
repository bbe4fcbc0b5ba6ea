/** The Snake class: the engine's fields updated in place by reset,
    _place_food, _move and play_step, each method proved to leave the state
    that the functions of module Engine describe. */
module SnakeGame {
  import opened Grid
  import opened Food
  import opened Engine
  import opened Inputs

  class Snake {
    var direction: Direction
    var head: Point
    /** The segments, head first. */
    var snake: seq<Point>
    var food: Point
    var score: int
    var frameIteration: int

    /** The fields as one value of the engine's state. */
    function State(): Game
      reads this
    {
      Game(direction, head, snake, food, score, frameIteration)
    }

    /** A new game starts with a reset. */
    constructor (draws: seq<Draw>)
      requires Feeds(draws, StartSnake())
      ensures State() == Initial(draws) && Running(State())
    {
      new;
      Reset(draws);
    }

    /** Starts a fresh episode; nothing of the previous one survives. */
    method Reset(draws: seq<Draw>)
      requires Feeds(draws, StartSnake())
      modifies this
      ensures State() == Initial(draws) && Running(State())
    {
      direction := Right;
      head := Point(WIN_WIDTH / 2, WIN_HEIGHT / 2);
      snake := [head, Point(head.x - BLOCK_SIZE, head.y), Point(head.x - 2 * BLOCK_SIZE, head.y)];
      score := 0;
      frameIteration := 0;
      PlaceFood(draws);
      InitialIsRunning(draws);
    }

    /** Rejection sampling: take the cell of each draw in turn until one is
        off the snake; the food ends on the first free cell offered. */
    method PlaceFood(draws: seq<Draw>)
      requires Feeds(draws, snake)
      modifies this`food
      ensures food == FoodFrom(draws, snake)
      ensures OnGrid(food) && food !in snake
    {
      ghost var stop := FirstFree(draws, snake);
      var k := 0;
      food := CellOf(draws[k]);
      while food in snake
        invariant 0 <= k <= stop
        invariant food == CellOf(draws[k])
        decreases stop - k
      {
        k := k + 1;
        food := CellOf(draws[k]);
      }
    }

    /** Steps the head one cell in the given heading. */
    method Move(d: Direction)
      modifies this`head
      ensures head == Moved(old(head), d)
    {
      var x := head.x;
      var y := head.y;
      if d == Right {
        x := x + BLOCK_SIZE;
      } else if d == Left {
        x := x - BLOCK_SIZE;
      } else if d == Down {
        y := y + BLOCK_SIZE;
      } else if d == Up {
        y := y - BLOCK_SIZE;
      }
      head := Point(x, y);
    }

    /** Wall or self collision of the current head against the later segments. */
    method IsCollide() returns (collide: bool)
      ensures collide == Collides(head, snake)
    {
      if head.x > WIN_WIDTH - BLOCK_SIZE || head.x < 0 || head.y > WIN_HEIGHT - BLOCK_SIZE || head.y < 0 {
        return true;
      }
      if |snake| >= 1 && head in snake[1..] {
        return true;
      }
      return false;
    }

    /** One tick: count the frame, take the heading the action asks for, move,
        put the new head in front, stop on a collision or timeout, else score
        and either grow onto the food (placing new food) or drop the tail.
        Returns the game-over flag and the score. */
    method PlayStep(action: int, draws: seq<Draw>) returns (gameOver: bool, reportedScore: int)
      requires CanTick(State(), action, draws)
      modifies this
      ensures Tick(old(State()), action, draws) == Ticked(State(), gameOver)
      ensures reportedScore == score
      ensures old(Running(State())) && !gameOver ==> Running(State())
    {
      ghost var before := State();
      TickCases(before, action, draws);
      TickLeavesRunning(before, action, draws);
      frameIteration := frameIteration + 1;

      if action == 0 {
        direction := Left;
      } else if action == 1 {
        direction := Right;
      } else if action == 2 {
        direction := Up;
      } else if action == 3 {
        direction := Down;
      }
      assert direction == Heading(action, before.direction);

      Move(direction);
      snake := [head] + snake;
      assert head == NextHead(before, action) && snake == Grown(before, action);

      gameOver := false;
      var collide := IsCollide();
      if collide || frameIteration > 50 * |snake| {
        assert Terminal(before, action);
        gameOver := true;
        return gameOver, score;
      }

      assert !Terminal(before, action);
      score := score + 2;

      if head == food {
        assert Eats(before, action);
        score := score + 10;
        PlaceFood(draws);
      } else {
        snake := snake[..|snake| - 1];
      }
      return gameOver, score;
    }

    /** The observation for the agent, read off the current state: head and
        food, wall and body readings to the left, ahead and to the right of
        the heading, and the length (wall readings normalised as in
        WallDistances). */
    method GetInputs() returns (inputs: seq<real>)
      requires AllDivisible(head, Body(snake))
      ensures inputs == Observation(State())
    {
      var xHead := head.x as real / WIDTH as real;
      var yHead := head.y as real / HEIGHT as real;
      var xFood := food.x as real / WIDTH as real;
      var yFood := food.y as real / HEIGHT as real;

      var currDirection: int := ClockwiseIndex(direction);

      var distWallRight := head.x as real / WIN_WIDTH as real;
      var distWallDown := head.y as real / WIN_HEIGHT as real;
      var distWallLeft := 1.0 - head.x as real / WIN_WIDTH as real;
      var distWallUp := 1.0 - head.y as real / WIN_HEIGHT as real;
      var walls := [distWallRight, distWallDown, distWallLeft, distWallUp];
      assert walls == WallDistances(head);
      var straightWall := walls[currDirection];
      var rightWall := walls[(currDirection + 1) % 4];
      var leftWall := walls[(currDirection - 1) % 4];

      var distBodyRight, distBodyLeft, distBodyUp, distBodyDown := 0.0, 0.0, 0.0, 0.0;
      var segs := Body(snake);
      for i := 0 to |segs|
        invariant distBodyRight == BodyFeature(head, segs[..i], Right)
        invariant distBodyLeft == BodyFeature(head, segs[..i], Left)
        invariant distBodyUp == BodyFeature(head, segs[..i], Up)
        invariant distBodyDown == BodyFeature(head, segs[..i], Down)
      {
        var pt := segs[i];
        BodyFeatureStep(head, segs, i);
        if head.y == pt.y && head.x < pt.x {
          distBodyRight := Max(distBodyRight, head.x as real / pt.x as real);
        }
        if head.y == pt.y && head.x > pt.x {
          distBodyLeft := Max(distBodyLeft, pt.x as real / head.x as real);
        }
        if head.x == pt.x && head.y > pt.y {
          distBodyUp := Max(distBodyUp, pt.y as real / head.y as real);
        }
        if head.x == pt.x && head.y < pt.y {
          distBodyDown := Max(distBodyDown, head.y as real / pt.y as real);
        }
      }
      assert segs[..|segs|] == segs;

      var bodies := [distBodyRight, distBodyDown, distBodyLeft, distBodyUp];
      assert bodies == BodyDistances(State());
      var straightBody := bodies[currDirection];
      var rightBody := bodies[(currDirection + 1) % 4];
      var leftBody := bodies[(currDirection - 1) % 4];

      var length := |snake| as real / (WIDTH * HEIGHT) as real;
      assert Sides(leftWall, straightWall, rightWall) == Select(walls, direction);
      assert Sides(leftBody, straightBody, rightBody) == Select(bodies, direction);

      inputs := [xHead, yHead, xFood, yFood,
                 leftWall, straightWall, rightWall,
                 leftBody, straightBody, rightBody,
                 length];
    }
  }
}
