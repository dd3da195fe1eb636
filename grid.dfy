/** The playing field: a square toroidal grid of GRID_SIZE x GRID_SIZE integer cells,
    the four unit directions of travel, and the wrap-around move of one cell. */
module Grid {

  /** `this.gridSize` of the game: the board is 20 cells wide and 20 cells high. */
  const GRID_SIZE: int := 20

  datatype Cell = Cell(x: int, y: int)

  /** A direction of travel `{x, y}` as the game stores it. */
  datatype Dir = Dir(x: int, y: int)

  const RIGHT := Dir(1, 0)
  const LEFT := Dir(-1, 0)
  const DOWN := Dir(0, 1)
  const UP := Dir(0, -1)

  predicate InGrid(c: Cell) {
    0 <= c.x < GRID_SIZE && 0 <= c.y < GRID_SIZE
  }

  predicate IsUnit(d: Dir) {
    d == RIGHT || d == LEFT || d == DOWN || d == UP
  }

  /** Two axis-aligned directions at a right angle: one has no horizontal part and the other
      no vertical part. */
  predicate Perpendicular(a: Dir, b: Dir) {
    (a.x == 0 && b.y == 0) || (a.y == 0 && b.x == 0)
  }

  predicate Reverse(a: Dir, b: Dir) {
    a.x == -b.x && a.y == -b.y
  }

  function Abs(d: int): nat {
    if d < 0 then -d else d
  }

  /** JavaScript's `%` operator on integers: the remainder takes the sign of the dividend. */
  function JsRem(a: int, n: int): (r: int)
    requires n > 0
    ensures a >= 0 ==> 0 <= r < n
    ensures a < 0 ==> -n < r <= 0
    ensures a == n * (if a >= 0 then a / n else -((-a) / n)) + r
  {
    if a >= 0 then a % n else -((-a) % n)
  }

  /** One coordinate of the new head: `(c + d + gridSize) % gridSize`. */
  function WrapCoord(c: int, d: int): int {
    JsRem(c + d + GRID_SIZE, GRID_SIZE)
  }

  /** The cell one step from `c` in direction `d`, wrapped onto the torus. */
  function Moved(c: Cell, d: Dir): Cell {
    Cell(WrapCoord(c.x, d.x), WrapCoord(c.y, d.y))
  }

  /** A one-cell step along an axis: inside the board it is plain addition; leaving one edge
      re-enters at the opposite edge; the result is always on the board. */
  lemma WrapCoordStep(c: int, d: int)
    requires 0 <= c < GRID_SIZE && -1 <= d <= 1
    ensures 0 <= WrapCoord(c, d) < GRID_SIZE
    ensures (WrapCoord(c, d) - (c + d)) % GRID_SIZE == 0
    ensures WrapCoord(c, d) == if c + d == GRID_SIZE then 0 else if c + d < 0 then GRID_SIZE - 1 else c + d
  {
  }

  /** The moved head stays on the board, and each coordinate is the old one plus the direction,
      modulo the grid size: there are no walls. */
  lemma MovedInGrid(c: Cell, d: Dir)
    requires InGrid(c) && IsUnit(d)
    ensures InGrid(Moved(c, d))
    ensures (Moved(c, d).x - (c.x + d.x)) % GRID_SIZE == 0
    ensures (Moved(c, d).y - (c.y + d.y)) % GRID_SIZE == 0
    ensures Moved(c, d) != c
  {
    WrapCoordStep(c.x, d.x);
    WrapCoordStep(c.y, d.y);
  }
}
