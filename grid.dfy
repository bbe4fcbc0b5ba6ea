/** The playing field of the Snake engine: the grid constants, the four
    headings and the pixel positions that the engine compares and moves. */
module Grid {

  /** Side of one cell, in pixels. */
  const BLOCK_SIZE: int := 20
  /** Number of cells across and down. */
  const WIDTH: int := 20
  const HEIGHT: int := 20
  /** Window size in pixels. */
  const WIN_WIDTH: int := WIDTH * BLOCK_SIZE
  const WIN_HEIGHT: int := HEIGHT * BLOCK_SIZE

  datatype Direction = Right | Left | Up | Down

  /** A position in pixel units; y grows downwards, as on the screen. */
  datatype Point = Point(x: int, y: int)

  /** The head is inside the walls: the complement of the wall test of the collision check. */
  predicate InBounds(p: Point)
  {
    0 <= p.x <= WIN_WIDTH - BLOCK_SIZE && 0 <= p.y <= WIN_HEIGHT - BLOCK_SIZE
  }

  predicate Aligned(p: Point)
  {
    p.x % BLOCK_SIZE == 0 && p.y % BLOCK_SIZE == 0
  }

  /** The top-left corner of one of the WIDTH x HEIGHT cells. */
  predicate OnGrid(p: Point)
  {
    InBounds(p) && Aligned(p)
  }

  /** Two positions one cell apart, horizontally or vertically. */
  predicate Adjacent(a: Point, b: Point)
  {
    (a.x == b.x && (a.y - b.y == BLOCK_SIZE || b.y - a.y == BLOCK_SIZE)) ||
    (a.y == b.y && (a.x - b.x == BLOCK_SIZE || b.x - a.x == BLOCK_SIZE))
  }

  /** The heading that undoes a step in direction d. */
  function Opposite(d: Direction): Direction
  {
    match d
    case Right => Left
    case Left => Right
    case Up => Down
    case Down => Up
  }

  /** The unit step of a heading, in cells: (dx, dy). */
  function Delta(d: Direction): (int, int)
  {
    match d
    case Right => (1, 0)
    case Left => (-1, 0)
    case Up => (0, -1)
    case Down => (0, 1)
  }
}
