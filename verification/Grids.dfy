/** Flattened grids: a cell index and its line and column, and rings that wrap once. */
module Grids {

  /** Column `column` of line `line` in a grid of `width` columns, flattened; and the way back. */
  function Cell(line: nat, width: nat, column: nat): nat {
    line * width + column
  }

  function Line(k: nat, width: nat): nat {
    if width == 0 then 0 else k / width
  }

  function Column(k: nat, width: nat): nat {
    if width == 0 then 0 else k % width
  }

  lemma {:induction false} LinesAreApart(line: nat, later: nat, width: nat)
    requires line < later
    ensures line * width + width <= later * width
  {
    assert later * width == (later - 1) * width + width;
    if line + 1 < later {
      LinesAreApart(line, later - 1, width);
    }
  }

  lemma CellSplits(line: nat, width: nat, column: nat)
    requires column < width
    ensures Line(Cell(line, width, column), width) == line
    ensures Column(Cell(line, width, column), width) == column
  {
    var q := (line * width + column) / width;
    if q < line {
      LinesAreApart(q, line, width);
    } else if q > line {
      LinesAreApart(line, q, width);
    }
  }

  lemma SplitIsCell(k: nat, width: nat)
    requires width > 0
    ensures Cell(Line(k, width), width, Column(k, width)) == k
    ensures Column(k, width) < width
  {
  }

  lemma CellIsInside(line: nat, lines: nat, width: nat, column: nat)
    requires line < lines && column < width
    ensures Cell(line, width, column) < lines * width
  {
    LinesAreApart(line, lines, width);
  }

  lemma LineIsInside(k: nat, lines: nat, width: nat)
    requires k < lines * width
    ensures width > 0 && Line(k, width) < lines && Column(k, width) < width
  {
    if width > 0 && lines < Line(k, width) {
      LinesAreApart(lines, Line(k, width), width);
    }
  }

  lemma LineEnds(line: nat, width: nat)
    ensures Cell(line, width, width) == Cell(line + 1, width, 0)
    ensures Cell(0, width, 0) == 0
  {
  }

  /** One wrap around a ring is at most one subtraction. */
  lemma WrapsOnce(k: nat, size: nat)
    requires k < size + size
    ensures k % size == if k < size then k else k - size
  {
    if k < size {
      CellSplits(0, size, k);
    } else {
      CellSplits(1, size, k - size);
    }
  }
}
