/** The integer part of the interpolated renderer: the wrap-aware per-axis delta between a
    segment's last and current cell, and the re-wrapped drawing coordinate. */
module Renderer {
  import opened Grid

  /** The delta `cur - last` on one axis, re-expressed as the shorter signed path around the
      seam when its magnitude exceeds half the grid (`Math.abs(dx) > gridSize / 2`). */
  function WrapDelta(d: int): (r: int)
    ensures -GRID_SIZE < d < GRID_SIZE ==> 2 * Abs(r) <= GRID_SIZE
    ensures (r - d) % GRID_SIZE == 0
    ensures 2 * Abs(d) <= GRID_SIZE ==> r == d
  {
    if 2 * Abs(d) > GRID_SIZE then
      (if d > 0 then d - GRID_SIZE else d + GRID_SIZE)
    else
      d
  }

  /** The drawn coordinate once `off` of the delta has been covered:
      `(last + off + gridSize) % gridSize`. */
  function DrawCoord(last: int, off: int): int {
    JsRem(last + off + GRID_SIZE, GRID_SIZE)
  }

  /** At progress 0 the segment is drawn exactly on its last cell. */
  lemma DrawAtStart(last: int)
    requires 0 <= last < GRID_SIZE
    ensures DrawCoord(last, 0) == last
  {
  }

  /** With the whole wrap-aware delta covered the segment is drawn exactly on its current cell,
      also when it crossed the seam. */
  lemma DrawAtEnd(last: int, cur: int)
    requires 0 <= last < GRID_SIZE && 0 <= cur < GRID_SIZE
    ensures DrawCoord(last, WrapDelta(cur - last)) == cur
  {
  }

  /** A head that moved one cell, across the seam or not, animates by exactly that one cell
      along each axis, never by a slide across the whole board. */
  lemma WrapDeltaOfMove(c: Cell, d: Dir)
    requires InGrid(c) && IsUnit(d)
    ensures WrapDelta(Moved(c, d).x - c.x) == d.x
    ensures WrapDelta(Moved(c, d).y - c.y) == d.y
  {
    WrapCoordStep(c.x, d.x);
    WrapCoordStep(c.y, d.y);
  }
}
