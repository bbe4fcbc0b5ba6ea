# Snake engine, modelled in Dafny

This project models the simulation engine of a Snake game that an agent
(a NEAT network or a human) drives one action per tick. The engine is the
class `Snake`. It exists twice, in `snake_NEAT.py` and in `snake_game.py`.
The two copies have the same `reset`, `_place_food`, `play_step`, `_move` and
`_is_collide`, statement for statement (their layout and line numbers differ). Only `snake_NEAT.py` has `get_inputs`, the
observation for the agent. One model covers both files.

The grid is 20 x 20 cells of 20 pixels. Positions are pixel pairs, so a head
on the grid has coordinates in `0..380`, multiples of 20. Directions are
`Right`, `Left`, `Up`, `Down`. Action codes 0, 1, 2 and 3 set the heading to
Left, Right, Up and Down. Any other code keeps the heading. A tick
(`play_step`) does the following:

1. It counts a frame and sets the heading.
2. It moves the head one cell and puts it in front of the snake.
3. It ends the game on a collision or a timeout. The collision test runs while
   the old tail is still in place. The timeout is `frame_iteration > 50 * len`,
   with `len` counted after the new head went in.
4. Otherwise it scores 2. If the head is on the food, it scores 10 more and
   places new food. If not, it drops the tail.

The Dafny files:

- `grid.dfy` (module `Grid`): the constants, `Direction`, `Point`, and the
  bounds and alignment predicates.
- `food.dfy` (module `Food`): food placement by rejection sampling. The random
  generator is a parameter: a sequence of draws, each one the pair of
  `randint(0, 19)` results of one attempt.
- `engine.dfy` (module `Engine`): the engine state as a value (`Game`) and one
  tick as a function (`Tick`). It also holds the lemmas about score, length,
  termination and collision, and the invariant `Running` that every surviving
  tick keeps.
- `snake.dfy` (module `SnakeGame`): the class `Snake`, with the source's fields
  and imperative methods. Each method is proved to leave the state that the
  `Engine` functions describe.
- `inputs.dfy` (module `Inputs`): `get_inputs`. It covers the clockwise
  heading order and the straight/right/left index selection, the wall readings
  and the body readings (the running maximum of the loop). The observation
  has eleven readings. The wall readings as the source writes them are not
  fractions (see "## Findings"); the observation uses the corrected ones.
- `scenarios.dfy` (module `Scenarios`): verified clients. One run eats food
  two cells ahead and then hits the right wall. Another reverses into the
  neck right after `reset`.

Python floats are modelled as exact Dafny reals.

## Model

| member | source | states |
|---|---|---|
| `Food.CellOf` | snake_NEAT.py:60-62 | a draw of two `randint(0, 19)` results, scaled by the block size, is an aligned cell inside the walls |
| `Food.FoodFrom` | snake_NEAT.py:59-64 | where `_place_food` leaves the food: the cell of the first draw that is off the body; its properties are stated by `FirstFree`, `FoodFromIsFreeCell` and `FoodFromRetries` |
| `Food.CellOfIsBijective` | snake_game.py:59-61 | the scaled draws are exactly the grid cells: every cell comes from exactly one pair of draws, and the reverse holds too |
| `Food.FirstFree` | snake_NEAT.py:59-64 | rejection sampling stops at an attempt whose cell is off the body, and every earlier attempt was rejected because its cell lies on the body |
| `Food.FoodFromIsFreeCell` | snake_game.py:58-63 | the placed food is on the grid, not on the snake, and is one of the cells the generator offered |
| `Food.FoodFromRetries` | snake_NEAT.py:62-64 | the retry step: a free first draw is taken at once; a first draw on the body is skipped and placement goes on with the rest |
| `Engine.Heading` | snake_NEAT.py:75-82 | the heading after `play_step` reads the action code; stated by `HeadingFromAction` |
| `Engine.HeadingFromAction` | snake_NEAT.py:75-82 | codes 0/1/2/3 set Left/Right/Up/Down whatever the current heading; every heading can be asked for; every other code leaves the heading unchanged |
| `Engine.Moved` | snake_NEAT.py:132-144 | the head after `_move`; stated by `MoveIsOneStep` |
| `Engine.MoveIsOneStep` | snake_NEAT.py:132-144 | `_move` changes exactly one coordinate by one block along the heading's unit step (+x right, -x left, +y down, -y up); it keeps alignment; the opposite heading undoes it |
| `Engine.Collides` | snake_NEAT.py:146-159 | `_is_collide`: the head is past a wall or lies in `snake[1:]`; the class method `IsCollide` is proved to compute it |
| `Engine.Tick` | snake_NEAT.py:66-107 | one `play_step` on the engine state, with the generator's draws for a food placement; stated by `TickTerminal`, `TickSurvives`, `TickCountsFrame` and `TickKeepsRunning`, and followed by `SnakeGame.Snake.PlayStep` |
| `Engine.TickTerminal` | snake_game.py:86-92 | the game-over flag holds exactly when the head collides (wall, or a later segment with the tail still present) or when `frame_iteration > 50 * len` after the prepend; such a tick keeps the tail (length + 1), the score and the food |
| `Engine.TickSurvives` | snake_NEAT.py:94-101 | a surviving tick adds 2 to the score, plus 10 when the head lands on the food; the length grows by 1 on food and is unchanged otherwise; the new head is `snake[0]`; without food the old tail is dropped and the food stays |
| `Engine.TickCountsFrame` | snake_game.py:67-82 | every tick adds one to `frame_iteration` and takes the heading the action asks for; the score never decreases |
| `Engine.IntoTailCollides` | snake_NEAT.py:86-90 | moving the head into the current tail cell ends the game, because the collision test runs before the pop |
| `Engine.ReversalCollides` | snake_game.py:75-90 | nothing forbids reversing: an action that turns the head back onto the segment behind it ends the game |
| `Engine.EveryRunningStateCanReverse` | snake_NEAT.py:75-90 | in every running episode one of the action codes 0..3 turns the head back onto the segment behind it, and that tick ends the game |
| `Engine.Initial` | snake_NEAT.py:43-57 | the state `reset` leaves, whatever the old state; stated by `InitialIsRunning` |
| `Engine.InitialIsRunning` | snake_NEAT.py:43-57 | after `reset`: heading Right; three segments, the head and then head - 20 and head - 40 horizontally; score 0; `frame_iteration` 0; food on the grid and off the snake |
| `Engine.TickKeepsRunning` | snake_game.py:84-101 | a tick that does not end the game keeps every running-episode fact: at least 3 segments, head first, all on the grid, none repeated, each next to the one after it, food on a free cell, score = 2 per tick + 10 per segment grown |
| `SnakeGame.Snake.constructor` | snake_NEAT.py:39-41 | a new object is in the state `reset` leaves |
| `SnakeGame.Snake.Reset` | snake_game.py:43-56 | the fields become the fresh-episode state, whatever the old state was, and that state is a running episode |
| `SnakeGame.Snake.PlaceFood` | snake_game.py:58-63 | only `food` changes; it becomes the first offered cell that is off the snake, which is on the grid |
| `SnakeGame.Snake.Move` | snake_game.py:125-137 | only `head` changes; it becomes the old head moved one cell in the given heading |
| `SnakeGame.Snake.IsCollide` | snake_game.py:140-149 | the result is true exactly when the head is outside the walls or occurs in `snake[1:]` |
| `SnakeGame.Snake.PlayStep` | snake_game.py:65-107 | the new fields and the returned flag are those of one tick of `Engine.Tick` on the old fields; the returned score is the new score; a running episode that is not over stays running |
| `SnakeGame.Snake.GetInputs` | snake_NEAT.py:161-246 | computes the eleven readings of `Inputs.Observation`, by the loop over `snake[1:]` with four running maxima; changes nothing |
| `Inputs.ClockwiseIndex` | snake_NEAT.py:172-179 | the heading's position in the clockwise list Right, Down, Left, Up, as `list.index` finds it |
| `Inputs.TurnRight` | snake_NEAT.py:172-177 | the next heading in the clockwise list is a right turn on the screen: the unit step (dx, dy) becomes (-dy, dx) |
| `Inputs.TurnLeft` | snake_NEAT.py:172-177 | the previous heading in the clockwise list is a left turn: (dx, dy) becomes (dy, -dx) |
| `Inputs.Select` | snake_NEAT.py:193-195 | picks the left, straight and right readings out of four in clockwise order; stated by `SelectMatchesTurns` |
| `Inputs.SelectMatchesTurns` | snake_NEAT.py:193-195 | indices `cur`, `(cur+1)%4` and `(cur-1)%4` read the values for the heading itself, for its right turn and for its left turn; the two turns undo each other |
| `Inputs.WallDistancesAsWritten` | snake_NEAT.py:181-191 | the four wall readings as the source computes them, dividing pixels by the cell count; shown not to be fractions by `WallDistancesAsWrittenLeaveUnitRange` |
| `Inputs.WallDistancesAsWrittenLeaveUnitRange` | snake_NEAT.py:181-184 | the wall readings as written are not fractions: the head (380, 200) reads 19 towards the right wall and -18 towards the left |
| `Inputs.WallDistances` | snake_NEAT.py:181-191 | the corrected wall readings, dividing by the window size; stated by `WallDistancesInUnitRange` |
| `Inputs.WallDistancesInUnitRange` | snake_NEAT.py:181-191 | with the corrected normalisation, every head inside the walls gets four readings in [0, 1], and the readings towards opposite walls add up to 1 |
| `Inputs.BodyFeature` | snake_NEAT.py:198-218 | the body reading for one absolute direction after the loop has visited some segments; stated by `BodyFeatureIsMaximum` and `BodyFeatureInUnitRange` |
| `Inputs.BodyFeatureIsMaximum` | snake_NEAT.py:198-218 | each body reading is the largest ratio over the qualifying segments (same row or column, on that side), or 0 if that is larger or none qualifies |
| `Inputs.NonNegativeSegmentsDivisible` | snake_NEAT.py:203-218 | with a head and segments of non-negative coordinates, no ratio divides by zero |
| `Inputs.LeftWallCollisionDividesByZero` | snake_NEAT.py:203-206 | after a tick that ends the game in the left wall, the second segment is at x = 0, to the right of the head at x = -20; the right body reading `head.x / pt.x` divides by zero (the left test does not fire), so `get_inputs` raises on that state |
| `Inputs.BodyFeatureInUnitRange` | snake_NEAT.py:203-229 | with the head and segments on the grid, every body reading is a fraction in [0, 1) |
| `Inputs.Observation` | snake_NEAT.py:232-246 | the eleven readings in the order `get_inputs` returns them, with the corrected wall normalisation; stated by `ObservationOfRunningGame` |
| `Inputs.ObservationOfRunningGame` | snake_NEAT.py:232-246 | in a running episode the observation is defined and has eleven readings in the fixed order; with the corrected wall normalisation the three wall readings are in [0, 1]; the three body readings are in [0, 1) |
| `Scenarios.StepBesideFood` | snake_game.py:94-107 | from the start state, a RIGHT tick moves the head to (220, 200), scores 2 and keeps three segments |
| `Scenarios.StepOntoFood` | snake_game.py:94-99 | the next RIGHT tick lands on the food: the score goes to 14, the snake grows to four segments, and the food goes to the first draw off the grown snake |

## Left out

- Rendering, fonts, the window, the event loop with `pygame.quit()`/`quit()`, and `clock.tick(SPEED)` are left out. They are I/O with no effect on the engine state. `_update_ui` is not modelled. It draws on `self.display`, which neither file assigns (the window is the module global `WIN`), so unless a caller sets that attribute every surviving `play_step` raises `AttributeError` at the redraw, after the engine state has been updated and before `(False, score)` is returned; the model returns that pair.
- `random.randint` is left out. Each placement takes a parameter holding the generator's results, one pair per attempt. Each drawn value is typed to `0..19`.
- `Food.FirstFree`: each retry of `_place_food` is a nested call, so CPython's recursion limit (1000 frames by default) raises `RecursionError` after about a thousand rejected attempts, and always does on a full grid. The model does not bound the depth. It requires that some supplied attempt lands on a free cell and places the food there, however many attempts came before. This is an explicit fairness assumption about the generator, and the `RecursionError` path is not modelled.
- `SnakeGame.Snake.PlayStep`: requires that, on a tick that eats, some supplied draw is off the grown snake (`Engine.CanTick`). `Reset`, the constructor and `PlaceFood` carry the same kind of assumption, for the start snake or the current one.
- Python floats are modelled as exact reals. The ratios `head.x / pt.x`, `len / 400` and similar round in Python but are exact here. Wall readings and head and food readings are integer-valued in Python, so they are exact anyway.
- `get_head`/`get_food` in `snake_game.py` are not modelled separately. They compute the same values as the first four readings of the observation.
- `SnakeGame.Snake.GetInputs` uses the corrected wall normalisation from the Finding below, not the division by `WIDTH` as written.
- `SnakeGame.Snake.GetInputs`: requires that no body reading divides by zero (`AllDivisible`). The source raises `ZeroDivisionError` when `get_inputs` is called on the state a tick leaves after running into the left or top wall: the head is at x = -20 (or y = -20) and the former head, at 0, is the second segment. `Inputs.LeftWallCollisionDividesByZero` exhibits such a state. That error path is not modelled; every running episode is free of it (`Inputs.ObservationOfRunningGame`).
- `Inputs.ObservationOfRunningGame`: its wall-range part is proved for the corrected `WallDistances`. The source's own readings reach 19 and -18 (see "## Findings"), so for the program as written that part does not hold.
- The intermediate `self.food = None` in `reset` is not modelled. The food is placed before `reset` returns, so no caller can see it.
- The `Direction` enum values 1 to 4 are not modelled, and neither are `numpy`, the colours or `SPEED`. None of them affects the logic.
- `WIN_WIDTH / 2` is the float `200.0` in Python. It is modelled as the integer 200, which compares equal to it.
- There is no game-over field. As in the source, nothing stops a caller from calling `play_step` after the episode ended, and that tick behaves like any other.

## Findings

| source | as written | input that shows it | evidently intended | confidence | as-written member | corrected member |
|---|---|---|---|---|---|---|
| snake_NEAT.py:181-184 | the wall readings divide the pixel coordinate by `WIDTH`/`HEIGHT`, the number of cells (20), then take `1 - r` for the left and top walls | head (380, 200): right reading 19.0, left reading -18.0 | divide by the window size `WIN_WIDTH`/`WIN_HEIGHT`, so that each reading is a fraction in [0, 1] and `1 - r` is its complement | medium; not executed | `Inputs.WallDistancesAsWritten`, shown by `Inputs.WallDistancesAsWrittenLeaveUnitRange` | `Inputs.WallDistances`, proved by `Inputs.WallDistancesInUnitRange` |
