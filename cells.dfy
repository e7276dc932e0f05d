/**
 * Cells and boards as values: the cell record of the board, the nested
 * row-major grid, one-cell updates and the counting of marked cells.
 */
module Cells {

  /** One square of the board, with the fields the engine keeps per cell. */
  datatype Cell = Cell(row: int, col: int, isMine: bool, isRevealed: bool, isFlagged: bool, adjacentMines: int)

  /** A board is a sequence of rows, each a sequence of cells. */
  type Board = seq<seq<Cell>>

  /** A position (row, column). */
  type Pos = (int, int)

  function Min(x: int, y: int): int { if x < y then x else y }
  function Max(x: int, y: int): int { if x < y then y else x }

  /**
   * How many mines the sampling loop collects for a requested `n`: the loop
   * runs while the set holds fewer than `n`, so it stops at once when `n` is
   * not positive.
   */
  function Size(n: int): (r: nat)
    ensures n >= 0 ==> r == n
    ensures n < 0 ==> r == 0
  {
    if n < 0 then 0 else n
  }

  predicate InGrid(b: Board, p: Pos) {
    0 <= p.0 < |b| && 0 <= p.1 < |b[p.0]|
  }

  function At(b: Board, p: Pos): Cell
    requires InGrid(b, p)
  {
    b[p.0][p.1]
  }

  /** `b` has exactly `rows` rows of `cols` cells. */
  ghost predicate Shaped(b: Board, rows: nat, cols: nat) {
    |b| == rows && forall i :: 0 <= i < rows ==> |b[i]| == cols
  }

  /** Cell (i, j) records its own coordinates. */
  ghost predicate Coordinates(b: Board) {
    forall i, j :: 0 <= i < |b| && 0 <= j < |b[i]| ==> b[i][j].row == i && b[i][j].col == j
  }

  /** The board with the cell at `p` replaced by `v`. */
  function Set(b: Board, p: Pos, v: Cell): (r: Board)
    requires InGrid(b, p)
    ensures |r| == |b| && forall i :: 0 <= i < |b| ==> |r[i]| == |b[i]|
    ensures forall q :: InGrid(b, q) ==> At(r, q) == if q == p then v else At(b, q)
  {
    b[p.0 := b[p.0][p.1 := v]]
  }

  /** Two boards of the same shape with equal cells are equal. */
  lemma BoardExt(b1: Board, b2: Board)
    requires |b1| == |b2| && forall i :: 0 <= i < |b1| ==> |b1[i]| == |b2[i]|
    requires forall i, j :: 0 <= i < |b1| && 0 <= j < |b1[i]| ==> b1[i][j] == b2[i][j]
    ensures b1 == b2
  {
    forall i | 0 <= i < |b1|
      ensures b1[i] == b2[i]
    {
      assert forall j :: 0 <= j < |b1[i]| ==> b1[i][j] == b2[i][j];
    }
  }

  /** No element of `s` occurs twice. */
  ghost predicate Distinct<T>(s: seq<T>) {
    forall k, l :: 0 <= k < l < |s| ==> s[k] != s[l]
  }

  /** The blank cell createEmptyBoard puts at (i, j). */
  function Blank(i: int, j: int): Cell {
    Cell(i, j, false, false, false, 0)
  }

  /** createEmptyBoard: `rows` rows of `cols` blank cells. */
  function EmptyBoard(rows: nat, cols: nat): (b: Board)
    ensures Shaped(b, rows, cols) && Coordinates(b)
    ensures forall i, j :: 0 <= i < rows && 0 <= j < cols ==>
      !b[i][j].isMine && !b[i][j].isRevealed && !b[i][j].isFlagged && b[i][j].adjacentMines == 0
  {
    seq(rows, i => seq(cols, j => Blank(i, j)))
  }

  // ---------------------------------------------------------------------------
  // Counting cells that carry a mark

  datatype Mark = MineMark | RevealedMark | FlaggedMark

  predicate Has(c: Cell, m: Mark) {
    match m
    case MineMark => c.isMine
    case RevealedMark => c.isRevealed
    case FlaggedMark => c.isFlagged
  }

  function Ind(c: Cell, m: Mark): nat {
    if Has(c, m) then 1 else 0
  }

  /** Number of cells of `row` carrying mark `m`. */
  function RowCount(row: seq<Cell>, m: Mark): nat {
    if row == [] then 0 else RowCount(row[..|row| - 1], m) + Ind(row[|row| - 1], m)
  }

  /** Number of cells of the board carrying mark `m`: `board.flat().filter(...).length`. */
  function Count(b: Board, m: Mark): nat {
    if b == [] then 0 else Count(b[..|b| - 1], m) + RowCount(b[|b| - 1], m)
  }

  /** Number of cells of the board. */
  function CellCount(b: Board): nat {
    if b == [] then 0 else CellCount(b[..|b| - 1]) + |b[|b| - 1]|
  }

  lemma {:induction false} RowCountBounds(row: seq<Cell>, m: Mark)
    ensures RowCount(row, m) <= |row|
    ensures RowCount(row, m) == |row| <==> forall j :: 0 <= j < |row| ==> Has(row[j], m)
    ensures RowCount(row, m) == 0 <==> forall j :: 0 <= j < |row| ==> !Has(row[j], m)
  {
    if row != [] {
      var init := row[..|row| - 1];
      RowCountBounds(init, m);
      assert forall j :: 0 <= j < |init| ==> init[j] == row[j];
    }
  }

  lemma {:induction false} CountBounds(b: Board, m: Mark)
    ensures Count(b, m) <= CellCount(b)
    ensures Count(b, m) == CellCount(b) <==> forall i, j :: 0 <= i < |b| && 0 <= j < |b[i]| ==> Has(b[i][j], m)
    ensures Count(b, m) == 0 <==> forall i, j :: 0 <= i < |b| && 0 <= j < |b[i]| ==> !Has(b[i][j], m)
  {
    if b != [] {
      var init := b[..|b| - 1];
      CountBounds(init, m);
      RowCountBounds(b[|b| - 1], m);
      assert forall i :: 0 <= i < |init| ==> init[i] == b[i];
    }
  }

  lemma {:induction false} RowCountUpdate(row: seq<Cell>, j: int, v: Cell, m: Mark)
    requires 0 <= j < |row|
    ensures RowCount(row[j := v], m) == RowCount(row, m) - Ind(row[j], m) + Ind(v, m)
  {
    var n := |row| - 1;
    if j < n {
      assert row[j := v][..n] == row[..n][j := v];
      RowCountUpdate(row[..n], j, v, m);
    } else {
      assert row[j := v][..n] == row[..n];
    }
  }

  /** Changing one cell changes each count by that cell's contribution only. */
  lemma {:induction false} CountUpdate(b: Board, p: Pos, v: Cell, m: Mark)
    requires InGrid(b, p)
    ensures Count(Set(b, p, v), m) == Count(b, m) - Ind(At(b, p), m) + Ind(v, m)
  {
    var n := |b| - 1;
    var r := Set(b, p, v);
    if p.0 < n {
      assert r[..n] == Set(b[..n], p, v);
      CountUpdate(b[..n], p, v, m);
    } else {
      assert r[..n] == b[..n];
      RowCountUpdate(b[n], p.1, v, m);
    }
  }

  /** `rows * cols`, the number of cells of a grid, built up row by row. */
  function Area(rows: int, cols: int): (a: int)
    ensures cols >= 0 ==> a >= 0
  {
    if rows <= 0 then 0 else Area(rows - 1, cols) + cols
  }

  lemma {:induction false} AreaIsProduct(rows: nat, cols: int)
    ensures Area(rows, cols) == rows * cols
  {
    if rows > 0 {
      AreaIsProduct(rows - 1, cols);
      assert (rows - 1) * cols + cols == rows * cols;
    }
  }

  lemma {:induction false} CellsOfShape(b: Board, rows: nat, cols: nat)
    requires Shaped(b, rows, cols)
    ensures CellCount(b) == Area(rows, cols)
  {
    if rows > 0 {
      CellsOfShape(b[..rows - 1], rows - 1, cols);
    }
  }

  /**
   * When no cell is both a mine and revealed, revealed cells and mines
   * together number at most the cells, and they number exactly the cells
   * only when every cell is a mine or revealed.
   */
  lemma {:induction false} RowCover(row: seq<Cell>)
    requires forall j :: 0 <= j < |row| ==> !(row[j].isMine && row[j].isRevealed)
    ensures RowCount(row, RevealedMark) + RowCount(row, MineMark) <= |row|
    ensures RowCount(row, RevealedMark) + RowCount(row, MineMark) == |row| <==>
      forall j :: 0 <= j < |row| ==> row[j].isMine || row[j].isRevealed
  {
    if row != [] {
      var init := row[..|row| - 1];
      assert forall j :: 0 <= j < |init| ==> init[j] == row[j];
      RowCover(init);
    }
  }

  lemma {:induction false} Cover(b: Board)
    requires forall i, j :: 0 <= i < |b| && 0 <= j < |b[i]| ==> !(b[i][j].isMine && b[i][j].isRevealed)
    ensures Count(b, RevealedMark) + Count(b, MineMark) <= CellCount(b)
    ensures Count(b, RevealedMark) + Count(b, MineMark) == CellCount(b) <==>
      forall i, j :: 0 <= i < |b| && 0 <= j < |b[i]| ==> b[i][j].isMine || b[i][j].isRevealed
  {
    if b != [] {
      var init := b[..|b| - 1];
      assert forall i :: 0 <= i < |init| ==> init[i] == b[i];
      Cover(init);
      RowCover(b[|b| - 1]);
    }
  }

  lemma {:induction false} RowCountSame(r1: seq<Cell>, r2: seq<Cell>, m: Mark)
    requires |r1| == |r2| && forall j :: 0 <= j < |r1| ==> Has(r1[j], m) == Has(r2[j], m)
    ensures RowCount(r1, m) == RowCount(r2, m)
  {
    if r1 != [] {
      RowCountSame(r1[..|r1| - 1], r2[..|r2| - 1], m);
    }
  }

  /** Boards of one shape that agree on which cells carry a mark have the same count of it. */
  lemma {:induction false} CountSame(b1: Board, b2: Board, m: Mark)
    requires |b1| == |b2| && forall i :: 0 <= i < |b1| ==> |b1[i]| == |b2[i]|
    requires forall i, j :: 0 <= i < |b1| && 0 <= j < |b1[i]| ==> Has(b1[i][j], m) == Has(b2[i][j], m)
    ensures Count(b1, m) == Count(b2, m)
  {
    if b1 != [] {
      var n := |b1| - 1;
      CountSame(b1[..n], b2[..n], m);
      RowCountSame(b1[n], b2[n], m);
    }
  }
}
