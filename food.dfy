/** Food placement by rejection sampling.  The random number generator is
    not modelled; its results are a parameter: a sequence of draws, one per
    attempt, each the pair of column and row that the two calls of
    random.randint(0, 19) of one attempt return. */
module Food {
  import opened Grid

  /** Highest column index the generator may return. */
  const MAX_COL: int := (WIN_WIDTH - BLOCK_SIZE) / BLOCK_SIZE
  const MAX_ROW: int := (WIN_HEIGHT - BLOCK_SIZE) / BLOCK_SIZE

  /** One result of random.randint(0, MAX_COL), inclusive at both ends. */
  type Col = i: int | 0 <= i <= MAX_COL
  type Row = j: int | 0 <= j <= MAX_ROW

  /** One attempt of _place_food: the column drawn first, then the row. */
  datatype Draw = Draw(col: Col, row: Row)

  /** The candidate cell of an attempt, scaled to pixels. */
  function CellOf(d: Draw): (p: Point)
    ensures OnGrid(p)
  {
    Point(d.col * BLOCK_SIZE, d.row * BLOCK_SIZE)
  }

  /** The draw that yields a given grid cell. */
  function DrawOf(p: Point): Draw
    requires OnGrid(p)
  {
    Draw(p.x / BLOCK_SIZE, p.y / BLOCK_SIZE)
  }

  /** Every cell of the grid can be drawn, by exactly one pair of results. */
  lemma CellOfIsBijective(p: Point, d: Draw)
    requires OnGrid(p)
    ensures CellOf(DrawOf(p)) == p
    ensures DrawOf(CellOf(d)) == d
  {
  }

  /** Some attempt in the sequence lands on a cell that the body does not occupy. */
  predicate Feeds(draws: seq<Draw>, body: seq<Point>)
  {
    exists k :: 0 <= k < |draws| && CellOf(draws[k]) !in body
  }

  /** The attempt at which the rejection sampling of _place_food stops: each
      earlier attempt is rejected because its cell lies on the body. */
  function FirstFree(draws: seq<Draw>, body: seq<Point>): (k: nat)
    requires Feeds(draws, body)
    ensures k < |draws| && CellOf(draws[k]) !in body
    ensures forall j :: 0 <= j < k ==> CellOf(draws[j]) in body
    decreases |draws|
  {
    if CellOf(draws[0]) !in body then 0
    else
      assert Feeds(draws[1..], body) by {
        var k :| 0 <= k < |draws| && CellOf(draws[k]) !in body;
        assert CellOf(draws[1..][k - 1]) !in body;
      }
      1 + FirstFree(draws[1..], body)
  }

  /** Where the food ends up when it is placed against the given body. */
  function FoodFrom(draws: seq<Draw>, body: seq<Point>): Point
    requires Feeds(draws, body)
  {
    CellOf(draws[FirstFree(draws, body)])
  }

  /** The placed food is a grid cell off the body, and it is the first such
      cell the generator offered. */
  lemma FoodFromIsFreeCell(draws: seq<Draw>, body: seq<Point>)
    requires Feeds(draws, body)
    ensures OnGrid(FoodFrom(draws, body)) && FoodFrom(draws, body) !in body
    ensures FoodFrom(draws, body) in set d | d in draws :: CellOf(d)
  {
    var k := FirstFree(draws, body);
    assert draws[k] in draws;
  }

  /** A free cell offered first wins at once; a cell on the body is skipped
      and the next attempt is made, as the recursive retry does. */
  lemma FoodFromRetries(d: Draw, rest: seq<Draw>, body: seq<Point>)
    requires CellOf(d) !in body || Feeds(rest, body)
    ensures Feeds([d] + rest, body)
    ensures CellOf(d) !in body ==> FoodFrom([d] + rest, body) == CellOf(d)
    ensures CellOf(d) in body ==> FoodFrom([d] + rest, body) == FoodFrom(rest, body)
  {
    var draws := [d] + rest;
    if CellOf(d) !in body {
      assert CellOf(draws[0]) !in body;
    } else {
      var k :| 0 <= k < |rest| && CellOf(rest[k]) !in body;
      assert CellOf(draws[k + 1]) !in body;
      assert draws[1..] == rest;
    }
  }
}
