/**
  The scan field: the square frame of `res` x `res` pixels and the region a
  raster pass traverses, either the whole frame or the 128 x 128 partial
  field whose top-left corner is the window origin.
 */
module Field {

  /** Side of the partial-field window, in pixels. */
  const PFieldSize: int := 128
  /** A window move shifts the origin by half the window side. */
  const PFieldStep: int := 64

  /** A pixel: `row` indexes the Y table and `col` the X table. */
  datatype Cell = Cell(row: int, col: int)

  /** The half-open ranges [yLow, yHigh) of rows and [xLow, xHigh) of columns. */
  datatype Bounds = Bounds(xLow: int, xHigh: int, yLow: int, yHigh: int)

  /** Ranges that start at a non-negative index and are not reversed. */
  predicate WellFormed(b: Bounds)
  {
    0 <= b.xLow <= b.xHigh && 0 <= b.yLow <= b.yHigh
  }

  predicate InBounds(b: Bounds, c: Cell)
  {
    b.yLow <= c.row < b.yHigh && b.xLow <= c.col < b.xHigh
  }

  predicate InFrame(res: int, c: Cell)
  {
    0 <= c.row < res && 0 <= c.col < res
  }

  /** The traversal ranges lie inside the frame on both axes. */
  predicate InsideFrame(b: Bounds, res: int)
  {
    WellFormed(b) && b.xHigh <= res && b.yHigh <= res
  }

  function FullFrame(res: nat): (b: Bounds)
    ensures InsideFrame(b, res)
    ensures forall c :: InBounds(b, c) <==> InFrame(res, c)
  {
    Bounds(0, res, 0, res)
  }

  /**
    The traversal ranges of one activation: the full frame with the partial
    field off; with it on, `PFieldSize` rows and columns starting at the
    (integer-valued, so already rounded) origin.
   */
  function PassBounds(res: nat, pfieldOn: bool, xLoc: int, yLoc: int): (b: Bounds)
    ensures !pfieldOn ==> forall c :: InBounds(b, c) <==> InFrame(res, c)
    ensures pfieldOn ==>
      forall c :: InBounds(b, c) <==>
        xLoc <= c.col < xLoc + PFieldSize && yLoc <= c.row < yLoc + PFieldSize
    ensures pfieldOn && 0 <= xLoc && 0 <= yLoc ==> WellFormed(b)
  {
    if !pfieldOn then FullFrame(res)
    else Bounds(xLoc, xLoc + PFieldSize, yLoc, yLoc + PFieldSize)
  }
}
