/**
 * The Moore neighbourhood of a cell, the count of mines around it, and the
 * two whole-board steps of mine placement: setting the mines and writing
 * every safe cell's count of adjacent mines.
 */
module Neighbours {
  import opened Cells

  /** `q` is one of the (up to) eight cells around `p`; a cell is not its own neighbour. */
  predicate Adjacent(p: Pos, q: Pos) {
    p != q && -1 <= p.0 - q.0 <= 1 && -1 <= p.1 - q.1 <= 1
  }

  /** 1 when (i, j) is on the board and holds a mine, else 0. */
  function MineAt(b: Board, i: int, j: int): nat {
    if InGrid(b, (i, j)) && b[i][j].isMine then 1 else 0
  }

  /** Reference count: the mines among the in-bounds neighbours of (i, j). */
  function MinesAround(b: Board, i: int, j: int): nat {
    MineAt(b, i - 1, j - 1) + MineAt(b, i - 1, j) + MineAt(b, i - 1, j + 1) +
    MineAt(b, i, j - 1) + MineAt(b, i, j + 1) +
    MineAt(b, i + 1, j - 1) + MineAt(b, i + 1, j) + MineAt(b, i + 1, j + 1)
  }

  /** A cell that, once revealed, makes the reveal spread to its neighbours. */
  predicate Expands(c: Cell) {
    !c.isMine && c.adjacentMines == 0
  }

  lemma MinesAroundAtMost8(b: Board, i: int, j: int)
    ensures MinesAround(b, i, j) <= 8
  {
  }

  /** A neighbourhood holds no mine exactly when its count is zero. */
  lemma MinesAroundZero(b: Board, p: Pos)
    ensures MinesAround(b, p.0, p.1) == 0 <==>
      forall q :: Adjacent(p, q) && InGrid(b, q) ==> !At(b, q).isMine
  {
    var (i, j) := p;
    if MinesAround(b, i, j) == 0 {
      forall q | Adjacent(p, q) && InGrid(b, q)
        ensures !At(b, q).isMine
      {
        assert MineAt(b, q.0, q.1) == 0;
      }
    } else {
      var q :|
        (q == (i - 1, j - 1) || q == (i - 1, j) || q == (i - 1, j + 1) || q == (i, j - 1) ||
         q == (i, j + 1) || q == (i + 1, j - 1) || q == (i + 1, j) || q == (i + 1, j + 1)) &&
        MineAt(b, q.0, q.1) == 1;
      assert Adjacent(p, q) && InGrid(b, q) && At(b, q).isMine;
    }
  }

  /** The count depends on where the mines are and on nothing else. */
  lemma MinesAroundSameMines(b: Board, b': Board, i: int, j: int)
    requires |b| == |b'| && forall k :: 0 <= k < |b| ==> |b[k]| == |b'[k]|
    requires forall p :: InGrid(b, p) ==> At(b, p).isMine == At(b', p).isMine
    ensures MinesAround(b, i, j) == MinesAround(b', i, j)
  {
    forall p: Pos
      ensures MineAt(b, p.0, p.1) == MineAt(b', p.0, p.1)
    {
      if InGrid(b, p) {
        assert At(b, p).isMine == At(b', p).isMine;
      }
    }
  }

  // ---------------------------------------------------------------------------
  // The count in the order the nested loops of calculateAdjacentMines visit

  /** Mines at (i + di, j + d) for -1 <= d < dj, the cell itself skipped. */
  function RowScan(b: Board, i: int, j: int, di: int, dj: int): nat
    requires -1 <= dj <= 2
    decreases dj + 1
  {
    if dj == -1 then 0
    else RowScan(b, i, j, di, dj - 1) + (if di == 0 && dj - 1 == 0 then 0 else MineAt(b, i + di, j + dj - 1))
  }

  /** Mines in the rows i + d for -1 <= d < di of the 3x3 block, the cell itself skipped. */
  function BlockScan(b: Board, i: int, j: int, di: int): nat
    requires -1 <= di <= 2
    decreases di + 1
  {
    if di == -1 then 0 else BlockScan(b, i, j, di - 1) + RowScan(b, i, j, di - 1, 2)
  }

  lemma RowScanStep(b: Board, i: int, j: int, di: int, dj: int)
    requires -1 <= dj <= 1
    ensures RowScan(b, i, j, di, dj + 1) ==
      RowScan(b, i, j, di, dj) + (if di == 0 && dj == 0 then 0 else MineAt(b, i + di, j + dj))
  {
  }

  lemma BlockScanStep(b: Board, i: int, j: int, di: int)
    requires -1 <= di <= 1
    ensures BlockScan(b, i, j, di + 1) == BlockScan(b, i, j, di) + RowScan(b, i, j, di, 2)
  {
  }

  /** Scanning the whole 3x3 block yields the reference count. */
  lemma ScanIsMinesAround(b: Board, i: int, j: int)
    ensures BlockScan(b, i, j, 2) == MinesAround(b, i, j)
  {
    forall di | -1 <= di <= 1
      ensures RowScan(b, i, j, di, 2) ==
        (if di == 0 then 0 else MineAt(b, i + di, j)) + MineAt(b, i + di, j - 1) + MineAt(b, i + di, j + 1)
    {
      assert RowScan(b, i, j, di, 0) == MineAt(b, i + di, j - 1);
    }
    assert BlockScan(b, i, j, 0) == RowScan(b, i, j, -1, 2);
  }

  // ---------------------------------------------------------------------------
  // Mine placement on a board value

  ghost predicate AllInGrid(b: Board, ps: seq<Pos>) {
    forall k :: 0 <= k < |ps| ==> InGrid(b, ps[k])
  }

  /** The board after `newBoard[row][col].isMine = true` for each position of `ps`, in order. */
  function WithMines(b: Board, ps: seq<Pos>): (r: Board)
    requires AllInGrid(b, ps)
    ensures |r| == |b| && forall i :: 0 <= i < |b| ==> |r[i]| == |b[i]|
    decreases |ps|
  {
    if ps == [] then b
    else
      var p := ps[|ps| - 1];
      var r := WithMines(b, ps[..|ps| - 1]);
      Set(r, p, At(r, p).(isMine := true))
  }
  /** One more position sets one more mine. */
  lemma WithMinesStep(b: Board, ps: seq<Pos>, k: nat)
    requires AllInGrid(b, ps) && k < |ps|
    ensures AllInGrid(b, ps[..k]) && AllInGrid(b, ps[..k + 1])
    ensures var r := WithMines(b, ps[..k]);
      WithMines(b, ps[..k + 1]) == Set(r, ps[k], At(r, ps[k]).(isMine := true))
  {
    assert ps[..k + 1][..k] == ps[..k];
  }


  /** A cell gets a mine exactly when it is listed; nothing else changes. */
  lemma {:induction false} WithMinesAt(b: Board, ps: seq<Pos>, q: Pos)
    requires AllInGrid(b, ps) && InGrid(b, q)
    ensures At(WithMines(b, ps), q) == if q in ps then At(b, q).(isMine := true) else At(b, q)
    decreases |ps|
  {
    if ps != [] {
      var init := ps[..|ps| - 1];
      WithMinesAt(b, init, q);
      assert q in ps <==> q in init || q == ps[|ps| - 1];
    }
  }

  /** Distinct positions on a board without mines give exactly |ps| mines; the other counts stay. */
  lemma {:induction false} WithMinesCount(b: Board, ps: seq<Pos>)
    requires AllInGrid(b, ps)
    requires forall k, l :: 0 <= k < l < |ps| ==> ps[k] != ps[l]
    requires forall k :: 0 <= k < |ps| ==> !At(b, ps[k]).isMine
    ensures Count(WithMines(b, ps), MineMark) == Count(b, MineMark) + |ps|
    ensures Count(WithMines(b, ps), RevealedMark) == Count(b, RevealedMark)
    ensures Count(WithMines(b, ps), FlaggedMark) == Count(b, FlaggedMark)
    decreases |ps|
  {
    if ps != [] {
      var init := ps[..|ps| - 1];
      var p := ps[|ps| - 1];
      var r := WithMines(b, init);
      WithMinesCount(b, init);
      WithMinesAt(b, init, p);
      assert p !in init;
      CountUpdate(r, p, At(r, p).(isMine := true), MineMark);
      CountUpdate(r, p, At(r, p).(isMine := true), RevealedMark);
      CountUpdate(r, p, At(r, p).(isMine := true), FlaggedMark);
    }
  }

  /** The adjacency step applied to one cell. */
  function Adjusted(b: Board, i: int, j: int): Cell
    requires InGrid(b, (i, j))
  {
    if b[i][j].isMine then b[i][j] else b[i][j].(adjacentMines := MinesAround(b, i, j))
  }

  /** The board after calculateAdjacentMines. */
  function WithAdjacency(b: Board): (r: Board)
    ensures |r| == |b| && forall i :: 0 <= i < |b| ==> |r[i]| == |b[i]|
  {
    seq(|b|, i requires 0 <= i < |b| => seq(|b[i]|, j requires 0 <= j < |b[i]| => Adjusted(b, i, j)))
  }

  /** Every safe cell records the number of mines around it. */
  ghost predicate AdjacencyCorrect(b: Board) {
    forall i, j {:trigger MinesAround(b, i, j)} :: 0 <= i < |b| && 0 <= j < |b[i]| && !b[i][j].isMine ==>
      b[i][j].adjacentMines == MinesAround(b, i, j)
  }

  /**
   * calculateAdjacentMines leaves every safe cell with its true count, keeps
   * the mines where they are and changes nothing but `adjacentMines` of safe cells.
   */
  lemma WithAdjacencyCorrect(b: Board)
    ensures AdjacencyCorrect(WithAdjacency(b))
    ensures forall p :: InGrid(b, p) ==>
      At(WithAdjacency(b), p) == At(b, p).(adjacentMines := At(WithAdjacency(b), p).adjacentMines)
    ensures forall p :: InGrid(b, p) && At(b, p).isMine ==> At(WithAdjacency(b), p) == At(b, p)
  {
    var r: Board := WithAdjacency(b);
    forall i: int, j: int | 0 <= i < |r| && 0 <= j < |r[i]| && !r[i][j].isMine
      ensures r[i][j].adjacentMines == MinesAround(r, i, j)
    {
      MinesAroundSameMines(b, r, i, j);
    }
  }
}
