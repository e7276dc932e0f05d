/**
 * The board operations of the engine, on the mutable grid the handlers work
 * on (the deep copy they make of the board and then update in place). Each
 * method is specified by the board value (`View`) it leaves behind.
 */
module BoardOps {
  import opened Cells
  import opened Neighbours
  import opened MineGen
  import opened FloodFill

  /** The grid as a board value. */
  ghost function View(a: array2<Cell>): (b: Board)
    reads a
    ensures Shaped(b, a.Length0, a.Length1)
    ensures forall i, j :: 0 <= i < a.Length0 && 0 <= j < a.Length1 ==> b[i][j] == a[i, j]
  {
    seq(a.Length0, i requires 0 <= i < a.Length0 reads a =>
      seq(a.Length1, j requires 0 <= j < a.Length1 reads a => a[i, j]))
  }

  /** `boardCopy[i][j] = v`. */
  method Store(a: array2<Cell>, i: int, j: int, v: Cell)
    requires 0 <= i < a.Length0 && 0 <= j < a.Length1
    modifies a
    ensures View(a) == Set(old(View(a)), (i, j), v)
  {
    a[i, j] := v;
    BoardExt(View(a), Set(old(View(a)), (i, j), v));
  }

  /** `JSON.parse(JSON.stringify(board))`: a fresh mutable copy of a board value. */
  method Clone(b: Board, rows: nat, cols: nat) returns (a: array2<Cell>)
    requires Shaped(b, rows, cols)
    ensures fresh(a) && a.Length0 == rows && a.Length1 == cols
    ensures View(a) == b
  {
    a := new Cell[rows, cols]((i, j) requires 0 <= i < rows && 0 <= j < cols => b[i][j]);
    BoardExt(View(a), b);
  }

  /** The copy handed back as the new board value. */
  method Snapshot(a: array2<Cell>) returns (b: Board)
    ensures b == View(a)
  {
    b := seq(a.Length0, i requires 0 <= i < a.Length0 reads a =>
      seq(a.Length1, j requires 0 <= j < a.Length1 reads a => a[i, j]));
  }

  /** The inner di/dj loops of calculateAdjacentMines: the mines around (i, j), counted in place. */
  method CountAround(a: array2<Cell>, ghost b: Board, i: int, j: int) returns (count: nat)
    requires Shaped(b, a.Length0, a.Length1)
    requires forall x, y :: 0 <= x < a.Length0 && 0 <= y < a.Length1 ==> b[x][y].isMine == a[x, y].isMine
    ensures count == MinesAround(b, i, j)
  {
    count := 0;
    for di := -1 to 2
      invariant count == BlockScan(b, i, j, di)
    {
      for dj := -1 to 2
        invariant count == BlockScan(b, i, j, di) + RowScan(b, i, j, di, dj)
      {
        RowScanStep(b, i, j, di, dj);
        if di == 0 && dj == 0 {
          continue;
        }
        var ni := i + di;
        var nj := j + dj;
        if ni >= 0 && ni < a.Length0 && nj >= 0 && nj < a.Length1 && a[ni, nj].isMine {
          count := count + 1;
        }
      }
      BlockScanStep(b, i, j, di);
    }
    ScanIsMinesAround(b, i, j);
  }

  /** calculateAdjacentMines: every safe cell gets the count of the mines around it. */
  method CalculateAdjacentMines(a: array2<Cell>)
    modifies a
    ensures View(a) == WithAdjacency(old(View(a)))
  {
    ghost var b0 := View(a);
    for i := 0 to a.Length0
      invariant forall x, y :: 0 <= x < a.Length0 && 0 <= y < a.Length1 ==>
        a[x, y] == if x < i then Adjusted(b0, x, y) else b0[x][y]
    {
      for j := 0 to a.Length1
        invariant forall x, y :: 0 <= x < a.Length0 && 0 <= y < a.Length1 ==>
          a[x, y] == if x < i || (x == i && y < j) then Adjusted(b0, x, y) else b0[x][y]
      {
        if !a[i, j].isMine {
          var count := CountAround(a, b0, i, j);
          a[i, j] := a[i, j].(adjacentMines := count);
        }
      }
    }
    BoardExt(View(a), WithAdjacency(b0));
  }

  /**
   * placeMines: draws the mine positions around the first click, sets a mine
   * at each and then writes the counts.
   */
  method PlaceMines(a: array2<Cell>, row: int, col: int, mines: int, draws: seq<int>)
    returns (ghost positions: seq<Pos>)
    requires 0 <= row < a.Length0 && 0 <= col < a.Length1
    requires forall k :: 0 <= k < |draws| ==> 0 <= draws[k] < Area(a.Length0, a.Length1)
    requires |Accepted(draws, a.Length1, (row, col))| >= mines
    modifies a
    ensures |positions| == Size(mines) && Distinct(positions)
    ensures forall k :: 0 <= k < |positions| ==> InGrid(old(View(a)), positions[k]) && !InBlock(positions[k], (row, col))
    ensures View(a) == WithAdjacency(WithMines(old(View(a)), positions))
  {
    ghost var b0 := View(a);
    AreaIsProduct(a.Length0, a.Length1);
    var ps, used := GenerateMinePositions(a.Length0, a.Length1, mines, (row, col), draws);
    for k := 0 to |ps|
      invariant View(a) == WithMines(b0, ps[..k])
    {
      WithMinesStep(b0, ps, k);
      Store(a, ps[k].0, ps[k].1, a[ps[k].0, ps[k].1].(isMine := true));
    }
    assert ps[..|ps|] == ps;
    CalculateAdjacentMines(a);
    positions := ps;
  }

  lemma HiddenGrows(b0: Board, b1: Board)
    requires Grows(b0, b1)
    ensures Hidden(b1) <= Hidden(b0)
  {
    forall q | q in Hidden(b1)
      ensures q in Hidden(b0)
    {
      assert InGrid(b0, q) && !At(b1, q).isRevealed;
    }
  }

  /** Before the scan of the neighbours none is due. */
  lemma HandledStart(b: Board, p: Pos)
    ensures HandledBefore(b, p, Max(0, p.0 - 1), 0)
  {
  }

  /** A row of the scan starts past the neighbours it skips on the left. */
  lemma HandledRowStart(b: Board, p: Pos, i: int)
    requires HandledBefore(b, p, i, 0)
    ensures HandledBefore(b, p, i, Max(0, p.1 - 1))
  {
  }

  /** A row of the scan ends past the neighbours it skips on the right. */
  lemma HandledRowEnd(b: Board, p: Pos, i: int, j: int)
    requires Shaped(b, |b|, if |b| == 0 then 0 else |b[0]|)
    requires |b| > 0 && HandledBefore(b, p, i, j) && j > Min(|b[0]| - 1, p.1 + 1)
    ensures HandledBefore(b, p, i + 1, 0)
  {
  }

  /** The cell itself is not a neighbour. */
  lemma HandledSelf(b: Board, p: Pos)
    requires HandledBefore(b, p, p.0, p.1)
    ensures HandledBefore(b, p, p.0, p.1 + 1)
  {
  }

  /**
   * revealAdjacentCells: reveals (row, col) unless it is off the board,
   * revealed or flagged, and when that cell is safe with no mine around it
   * does the same for each of its neighbours in turn. `order` is the order in
   * which cells get revealed.
   */
  method RevealAdjacentCells(a: array2<Cell>, row: int, col: int) returns (ghost order: seq<Pos>)
    modifies a
    ensures RevealSpec(old(View(a)), View(a), (row, col), order)
    decreases Hidden(View(a)), 1
  {
    ghost var b0 := View(a);
    ghost var p := (row, col);
    if row < 0 || row >= a.Length0 || col < 0 || col >= a.Length1 {
      return [];
    }
    var cell := a[row, col];
    if cell.isRevealed || cell.isFlagged {
      return [];
    }
    Store(a, row, col, cell.(isRevealed := true));
    FirstStep(b0, p);
    order := [p];
    if cell.adjacentMines == 0 && !cell.isMine {
      HiddenShrinks(b0, View(a), p);
      HandledStart(View(a), p);
      var i := Max(0, row - 1);
      while i <= Min(a.Length0 - 1, row + 1)
        invariant row - 1 <= i
        invariant Partial(b0, View(a), p, order)
        invariant HandledBefore(View(a), p, i, 0)
        invariant Hidden(View(a)) < Hidden(b0)
      {
        order := RevealRow(a, row, col, i, b0, order);
        i := i + 1;
      }
      LastStep(b0, View(a), p, order, i);
    }
  }

  /**
   * One pass of the outer neighbour loop of revealAdjacentCells: the
   * neighbours of (row, col) in row i, each revealed in turn.
   */
  method RevealRow(a: array2<Cell>, row: int, col: int, i: int, ghost b0: Board, ghost order0: seq<Pos>)
    returns (ghost order: seq<Pos>)
    requires 0 <= i < a.Length0 && row - 1 <= i <= row + 1 && 0 <= col < a.Length1
    requires InGrid(b0, (row, col)) && Expands(At(b0, (row, col)))
    requires Partial(b0, View(a), (row, col), order0)
    requires HandledBefore(View(a), (row, col), i, 0)
    requires Hidden(View(a)) < Hidden(b0)
    modifies a
    ensures Partial(b0, View(a), (row, col), order)
    ensures HandledBefore(View(a), (row, col), i + 1, 0)
    ensures Hidden(View(a)) < Hidden(b0)
    decreases Hidden(b0), 0
  {
    ghost var p := (row, col);
    order := order0;
    HandledRowStart(View(a), p, i);
    var j := Max(0, col - 1);
    while j <= Min(a.Length1 - 1, col + 1)
      invariant col - 1 <= j
      invariant Partial(b0, View(a), p, order)
      invariant HandledBefore(View(a), p, i, j)
      invariant Hidden(View(a)) < Hidden(b0)
    {
      if i != row || j != col {
        ghost var b1 := View(a);
        ghost var sub: seq<Pos>;
        assert InGrid(b0, (i, j)) && Adjacent(p, (i, j));
        sub := RevealAdjacentCells(a, i, j);
        NextStep(b0, b1, View(a), p, (i, j), order, sub, i, j);
        HiddenGrows(b1, View(a));
        order := order + sub;
      } else {
        HandledSelf(View(a), p);
      }
      j := j + 1;
    }
    HandledRowEnd(View(a), p, i, j);
  }

  /** `newBoard.flat().filter(c => c.isRevealed).length`. */
  method CountRevealed(a: array2<Cell>) returns (n: nat)
    ensures n == Count(View(a), RevealedMark)
  {
    ghost var b := View(a);
    n := 0;
    for i := 0 to a.Length0
      invariant n == Count(b[..i], RevealedMark)
    {
      for j := 0 to a.Length1
        invariant n == Count(b[..i], RevealedMark) + RowCount(b[i][..j], RevealedMark)
      {
        assert b[i][..j + 1][..j] == b[i][..j];
        if a[i, j].isRevealed {
          n := n + 1;
        }
      }
      assert b[..i + 1][..i] == b[..i];
      assert b[i][..a.Length1] == b[i];
    }
    assert b[..a.Length0] == b;
  }

  // ---------------------------------------------------------------------------
  // The board part of endGame

  /** A cell as endGame leaves it: a mine is revealed on a loss and flagged on a win. */
  function Ended(c: Cell, isWin: bool): Cell {
    if c.isMine then (if isWin then c.(isFlagged := true) else c.(isRevealed := true)) else c
  }

  function EndBoard(b: Board, isWin: bool): (r: Board)
    ensures |r| == |b| && forall i :: 0 <= i < |b| ==> |r[i]| == |b[i]|
  {
    seq(|b|, i requires 0 <= i < |b| => seq(|b[i]|, j requires 0 <= j < |b[i]| => Ended(b[i][j], isWin)))
  }

  /** What endGame does to the board: mines only, revealed on a loss, flagged on a win. */
  method MarkMines(a: array2<Cell>, isWin: bool)
    modifies a
    ensures View(a) == EndBoard(old(View(a)), isWin)
  {
    ghost var b0 := View(a);
    for i := 0 to a.Length0
      invariant forall x, y :: 0 <= x < a.Length0 && 0 <= y < a.Length1 ==>
        a[x, y] == if x < i then Ended(b0[x][y], isWin) else b0[x][y]
    {
      for j := 0 to a.Length1
        invariant forall x, y :: 0 <= x < a.Length0 && 0 <= y < a.Length1 ==>
          a[x, y] == if x < i || (x == i && y < j) then Ended(b0[x][y], isWin) else b0[x][y]
      {
        var cell := a[i, j];
        if !isWin && cell.isMine {
          a[i, j] := a[i, j].(isRevealed := true);
        }
        if isWin && cell.isMine {
          a[i, j] := a[i, j].(isFlagged := true);
        }
      }
    }
    BoardExt(View(a), EndBoard(b0, isWin));
  }

  /** The board endGame stores: a copy of `b` with the mines marked. */
  method EndedCopy(b: Board, rows: nat, cols: nat, isWin: bool) returns (e: Board)
    requires Shaped(b, rows, cols)
    ensures e == EndBoard(b, isWin)
  {
    var grid := Clone(b, rows, cols);
    MarkMines(grid, isWin);
    e := Snapshot(grid);
  }

  /** A copy of `b` with the cell at `p` replaced by `v`. */
  method StoredCopy(b: Board, rows: nat, cols: nat, p: Pos, v: Cell) returns (r: Board)
    requires Shaped(b, rows, cols) && 0 <= p.0 < rows && 0 <= p.1 < cols
    ensures r == Set(b, p, v)
  {
    var grid := Clone(b, rows, cols);
    Store(grid, p.0, p.1, v);
    r := Snapshot(grid);
  }
}
