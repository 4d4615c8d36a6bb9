/** The square board of the snake game: cells, headings and the wall test. */
module Board {

  /** Width and height of the board, in cells. */
  const GRID_SIZE: int := 20

  /** A cell of the board; both axes are 1-based and y grows downwards. */
  datatype Coord = Coord(x: int, y: int)

  /** The four headings the snake can have. */
  datatype Direction = Up | Down | Left | Right

  /** Horizontal offset of one step in heading `d`. */
  function DeltaX(d: Direction): int {
    match d
    case Left => -1
    case Right => 1
    case _ => 0
  }

  /** Vertical offset of one step in heading `d` (up is towards y = 1). */
  function DeltaY(d: Direction): int {
    match d
    case Up => -1
    case Down => 1
    case _ => 0
  }

  /** The heading that undoes `d`. */
  function Opposite(d: Direction): Direction {
    match d
    case Up => Down
    case Down => Up
    case Left => Right
    case Right => Left
  }

  /** Manhattan distance between two cells. */
  function Distance(a: Coord, b: Coord): nat {
    (if a.x <= b.x then b.x - a.x else a.x - b.x) + (if a.y <= b.y then b.y - a.y else a.y - b.y)
  }

  /**
   * The cell one step from `c` in heading `d`, computed as the game does on a copy
   * of the head: one coordinate is incremented or decremented, the other is kept.
   */
  function Step(c: Coord, d: Direction): (r: Coord)
    ensures r.x == c.x + DeltaX(d) && r.y == c.y + DeltaY(d)
    ensures Distance(c, r) == 1
  {
    match d
    case Up => c.(y := c.y - 1)
    case Down => c.(y := c.y + 1)
    case Left => c.(x := c.x - 1)
    case Right => c.(x := c.x + 1)
  }

  /** Stepping back in the opposite heading returns to the cell one started from. */
  lemma StepBack(c: Coord, d: Direction)
    ensures Step(Step(c, d), Opposite(d)) == c
  {
  }

  /** A cell lies on the board: the range the food generator draws from. */
  predicate OnBoard(c: Coord) {
    1 <= c.x <= GRID_SIZE && 1 <= c.y <= GRID_SIZE
  }

  /** The wall test of the collision check, written as the game writes it. */
  predicate HitsWall(c: Coord): (r: bool)
    ensures r <==> !OnBoard(c)
  {
    c.x < 1 || c.x > GRID_SIZE || c.y < 1 || c.y > GRID_SIZE
  }
}
