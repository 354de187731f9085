/** The driver's logical cursor: a (column, row) position that moves one
    cell per character in the current direction and wraps around both axes,
    and its mapping onto the controller's display-RAM address, in which rows
    0 and 2 share one 64-cell line and rows 1 and 3 the other. */
module Cursor {

  datatype Pos = Pos(x: int, y: int)

  /** The position lies on a `width` x `height` grid. */
  predicate InGrid(p: Pos, width: int, height: int) {
    0 <= p.x < width && 0 <= p.y < height
  }

  /** The geometries the address formula is built for: one or two rows of
      at most 64 columns, each filling at most one 64-cell line, or up to
      four rows of at most 32 columns, so that rows 2 and 3 fit behind rows
      0 and 1. */
  predicate Standard(width: int, height: int) {
    || (1 <= width <= 64 && 1 <= height <= 2)
    || (1 <= width <= 32 && 1 <= height <= 4)
  }

  /** C's `%` by 2, which truncates toward zero. */
  function CRem2(y: int): int {
    if y >= 0 then y % 2 else -((-y) % 2)
  }

  /** `LCD_DECODE_CURSOR`: column, plus 64 on odd rows, plus `width` on
      rows 2 and up. */
  function Decode(p: Pos, width: int): int {
    p.x + (64 * CRem2(p.y) + width * (if p.y >= 2 then 1 else 0))
  }

  /** `lcdUpdateCursor`: one cell forward (wrapping to the next row, and
      from the last row to the first) or one cell back (wrapping to the end
      of the previous row, and from the first row to the last). */
  function Step(p: Pos, forward: bool, width: int, height: int): (r: Pos)
    ensures width >= 1 && height >= 1 && InGrid(p, width, height) ==> InGrid(r, width, height)
  {
    if forward then
      if p.x + 1 >= width then
        Pos(0, if p.y + 1 >= height then 0 else p.y + 1)
      else
        Pos(p.x + 1, p.y)
    else
      if p.x - 1 < 0 then
        Pos(width - 1, if p.y - 1 < 0 then height - 1 else p.y - 1)
      else
        Pos(p.x - 1, p.y)
  }

  /** `n` steps in one direction. */
  function StepN(p: Pos, forward: bool, width: int, height: int, n: nat): Pos {
    if n == 0 then p else Step(StepN(p, forward, width, height, n - 1), forward, width, height)
  }

  /** The row-major index of a grid position: the reference order in which
      forward steps visit the cells. */
  function Index(p: Pos, width: int): int {
    p.y * width + p.x
  }

  /** A forward step moves to the next cell in row-major order, wrapping
      from the last cell to the first; a reverse step moves to the previous
      one, wrapping from the first cell to the last. */
  lemma StepIsSuccessor(p: Pos, forward: bool, width: int, height: int)
    requires width >= 1 && height >= 1 && InGrid(p, width, height)
    ensures var i, j := Index(p, width), Index(Step(p, forward, width, height), width);
      && (forward && i + 1 < width * height ==> j == i + 1)
      && (forward && i + 1 == width * height ==> j == 0)
      && (!forward && i > 0 ==> j == i - 1)
      && (!forward && i == 0 ==> j == width * height - 1)
  {
    var i := Index(p, width);
    var q := Step(p, forward, width, height);
    RowStart(p.y, width);
    RowStart(height - 1, width);
    MulMono(p.y, height - 1, width);
    if forward {
      if p.x + 1 < width {
        assert q == Pos(p.x + 1, p.y);
      } else if p.y + 1 < height {
        assert q == Pos(0, p.y + 1);
      } else {
        assert q == Pos(0, 0);
      }
    } else {
      if p.x > 0 {
        assert q == Pos(p.x - 1, p.y);
      } else if p.y > 0 {
        RowStart(p.y - 1, width);
        assert q == Pos(width - 1, p.y - 1);
      } else {
        assert q == Pos(width - 1, height - 1);
      }
    }
  }

  lemma MulMono(a: int, b: int, c: int)
    requires a <= b && 0 <= c
    ensures a * c <= b * c
  {
  }

  lemma RowStart(y: int, width: int)
    ensures (y + 1) * width == y * width + width
    ensures width * (y + 1) == y * width + width
  {
  }

  /** Reversing undoes a forward step and vice versa, on every cell of the
      grid, wrap boundaries included. */
  lemma StepRoundTrip(p: Pos, width: int, height: int)
    requires width >= 1 && height >= 1 && InGrid(p, width, height)
    ensures Step(Step(p, true, width, height), false, width, height) == p
    ensures Step(Step(p, false, width, height), true, width, height) == p
  {
  }

  /** The wrap example of a 16 x 2 display. */
  lemma WrapExample()
    ensures Step(Pos(15, 0), true, 16, 2) == Pos(0, 1)
    ensures Step(Pos(0, 1), false, 16, 2) == Pos(15, 0)
    ensures Decode(Pos(15, 0), 16) == 15 && Decode(Pos(0, 1), 16) == 64
  {
  }

  /** On a standard geometry every cell decodes to a 7-bit address. */
  lemma DecodeBounds(p: Pos, width: int, height: int)
    requires Standard(width, height) && InGrid(p, width, height)
    ensures 0 <= Decode(p, width) <= 0x7F
  {
  }

  /** On a standard geometry distinct cells decode to distinct addresses. */
  lemma DecodeInjective(p: Pos, q: Pos, width: int, height: int)
    requires Standard(width, height) && InGrid(p, width, height) && InGrid(q, width, height)
    requires Decode(p, width) == Decode(q, width)
    ensures p == q
  {
  }

  /** Past those geometries the formula is no longer injective: with three
      rows of 33 columns, the last-but-one cell of row 2 and the first
      cell of row 1 share address 64. */
  lemma WideCollision()
    ensures InGrid(Pos(31, 2), 33, 3) && InGrid(Pos(0, 1), 33, 3)
    ensures Decode(Pos(31, 2), 33) == Decode(Pos(0, 1), 33) == 64
  {
  }

  /** `n + 1` steps are one step followed by `n` more. */
  lemma {:induction false} StepNAfterStep(p: Pos, forward: bool, width: int, height: int, n: nat)
    ensures StepN(Step(p, forward, width, height), forward, width, height, n) == StepN(p, forward, width, height, n + 1)
  {
    if n > 0 {
      StepNAfterStep(p, forward, width, height, n - 1);
    }
  }

  /** Steps keep the cursor on the grid. */
  lemma {:induction false} StepNInGrid(p: Pos, forward: bool, width: int, height: int, n: nat)
    requires width >= 1 && height >= 1 && InGrid(p, width, height)
    ensures InGrid(StepN(p, forward, width, height, n), width, height)
  {
    if n > 0 {
      StepNInGrid(p, forward, width, height, n - 1);
    }
  }

  /** Writing `n` cells forward from `p` without passing the last cell of
      the grid lands `n` cells further in row-major order; for instance one
      full row from the start of a row ends at the start of the next row. */
  lemma {:induction false} StepNIndex(p: Pos, width: int, height: int, n: nat)
    requires width >= 1 && height >= 1 && InGrid(p, width, height)
    requires Index(p, width) + n < width * height
    ensures InGrid(StepN(p, true, width, height, n), width, height)
    ensures Index(StepN(p, true, width, height, n), width) == Index(p, width) + n
  {
    if n > 0 {
      StepNIndex(p, width, height, n - 1);
      StepIsSuccessor(StepN(p, true, width, height, n - 1), true, width, height);
    }
  }
}
