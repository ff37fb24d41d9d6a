/** The screen and grid constants of the snake game, its four directions, and the
    pixel arithmetic of one step. Positions are pixel coordinates of the top-left
    corner of a GRID_SIZE x GRID_SIZE square; nothing wraps around the screen edges. */
module Grid {

  const SCREEN_WIDTH := 640
  const SCREEN_HEIGHT := 480
  const GRID_SIZE := 20
  const GRID_WIDTH := SCREEN_WIDTH / GRID_SIZE
  const GRID_HEIGHT := SCREEN_HEIGHT / GRID_SIZE

  /** A position in pixels. Coordinates are unbounded: a snake can leave the screen. */
  datatype Cell = Cell(x: int, y: int)

  datatype Direction = Up | Down | Left | Right

  /** The unit vector the game binds to each direction name. */
  function Vector(d: Direction): (v: (int, int))
    ensures (v.0 == 0) != (v.1 == 0)
    ensures -1 <= v.0 <= 1 && -1 <= v.1 <= 1
  {
    match d
    case Up => (0, -1)
    case Down => (0, 1)
    case Left => (-1, 0)
    case Right => (1, 0)
  }

  /** Distinct directions have distinct vectors, so comparing the game's tuples
      is comparing directions. */
  lemma VectorInjective(d: Direction, e: Direction)
    ensures Vector(d) == Vector(e) <==> d == e
  {
  }

  /** The direction that undoes d. */
  function Opposite(d: Direction): (r: Direction)
    ensures Vector(r) == (-Vector(d).0, -Vector(d).1)
    ensures r != d
  {
    match d
    case Up => Down
    case Down => Up
    case Left => Right
    case Right => Left
  }

  /** The square one GRID_SIZE step from c towards d: UP and LEFT subtract,
      DOWN and RIGHT add, and nothing is reduced modulo the screen size. */
  function Shift(c: Cell, d: Direction): (r: Cell)
    ensures r == Cell(c.x + GRID_SIZE * Vector(d).0, c.y + GRID_SIZE * Vector(d).1)
  {
    match d
    case Up => Cell(c.x, c.y - GRID_SIZE)
    case Down => Cell(c.x, c.y + GRID_SIZE)
    case Left => Cell(c.x - GRID_SIZE, c.y)
    case Right => Cell(c.x + GRID_SIZE, c.y)
  }

  /** Stepping back the opposite way returns to the starting square. */
  lemma ShiftThenOpposite(c: Cell, d: Direction)
    ensures Shift(Shift(c, d), Opposite(d)) == c
  {
  }

  /** c lies on the GRID_SIZE pixel lattice. */
  predicate Aligned(c: Cell)
  {
    c.x % GRID_SIZE == 0 && c.y % GRID_SIZE == 0
  }

  lemma ShiftKeepsAligned(c: Cell, d: Direction)
    ensures Aligned(Shift(c, d)) <==> Aligned(c)
  {
  }

  /** The snake's start square, the middle of the screen. */
  const CENTER := Cell(SCREEN_WIDTH / 2, SCREEN_HEIGHT / 2)

  lemma CenterIsAlignedMiddle()
    ensures CENTER == Cell(320, 240) && Aligned(CENTER)
    ensures GRID_WIDTH == 32 && GRID_HEIGHT == 24
  {
  }
}
