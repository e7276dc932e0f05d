/**
 * The game: the board, the game state (phase flags and counters), the
 * configuration and the best-time store, with the handlers as atomic
 * transitions. The facts the handlers rely on are first proved about board
 * values.
 */
module Engine {
  import opened Cells
  import opened Neighbours
  import opened MineGen
  import opened FloodFill
  import opened BoardOps
  import opened Settings

  // ---------------------------------------------------------------------------
  // Board conditions

  /** A board before the first click: no mine, nothing revealed, every count zero. */
  ghost predicate Pristine(b: Board) {
    forall i, j :: 0 <= i < |b| && 0 <= j < |b[i]| ==>
      !b[i][j].isMine && !b[i][j].isRevealed && b[i][j].adjacentMines == 0
  }

  ghost predicate NoRevealedMine(b: Board) {
    forall i, j :: 0 <= i < |b| && 0 <= j < |b[i]| ==> !(b[i][j].isMine && b[i][j].isRevealed)
  }

  ghost predicate NoRevealedFlag(b: Board) {
    forall i, j :: 0 <= i < |b| && 0 <= j < |b[i]| ==> !(b[i][j].isRevealed && b[i][j].isFlagged)
  }

  /** A won board: exactly the safe cells revealed, every mine flagged. */
  ghost predicate WonBoard(b: Board) {
    forall i, j :: 0 <= i < |b| && 0 <= j < |b[i]| ==>
      (b[i][j].isRevealed <==> !b[i][j].isMine) && (b[i][j].isMine ==> b[i][j].isFlagged)
  }

  /** A lost board: every mine revealed. */
  ghost predicate LostBoard(b: Board) {
    forall i, j :: 0 <= i < |b| && 0 <= j < |b[i]| ==> b[i][j].isMine ==> b[i][j].isRevealed
  }

  /** Boards of one shape that differ in `isRevealed` and `isFlagged` at most. */
  ghost predicate SameLayout(b1: Board, b2: Board) {
    && |b1| == |b2| && (forall i :: 0 <= i < |b1| ==> |b1[i]| == |b2[i]|)
    && forall i, j :: 0 <= i < |b1| && 0 <= j < |b1[i]| ==>
      b2[i][j] == b1[i][j].(isRevealed := b2[i][j].isRevealed, isFlagged := b2[i][j].isFlagged)
  }

  /** Revealing and flagging keep the coordinates, the mines and their counts. */
  lemma LayoutKeeps(b1: Board, b2: Board)
    requires SameLayout(b1, b2)
    ensures Coordinates(b1) ==> Coordinates(b2)
    ensures AdjacencyCorrect(b1) ==> AdjacencyCorrect(b2)
    ensures Count(b2, MineMark) == Count(b1, MineMark)
  {
    forall i, j | 0 <= i < |b2| && 0 <= j < |b2[i]|
      ensures MinesAround(b1, i, j) == MinesAround(b2, i, j)
    {
      MinesAroundSameMines(b1, b2, i, j);
    }
    CountSame(b1, b2, MineMark);
  }

  // ---------------------------------------------------------------------------
  // The first click

  /** Cell by cell, placeMines on a pristine board sets exactly the listed mines, each with count 0. */
  lemma ArmedCells(b: Board, ps: seq<Pos>)
    requires Pristine(b) && AllInGrid(b, ps)
    ensures var a := WithAdjacency(WithMines(b, ps));
      forall i, j :: 0 <= i < |b| && 0 <= j < |b[i]| ==>
        && a[i][j].isMine == ((i, j) in ps)
        && a[i][j] == b[i][j].(isMine := a[i][j].isMine, adjacentMines := a[i][j].adjacentMines)
        && (a[i][j].isMine ==> a[i][j].adjacentMines == 0)
  {
    var m: Board := WithMines(b, ps);
    var a: Board := WithAdjacency(m);
    forall i, j | 0 <= i < |b| && 0 <= j < |b[i]|
      ensures a[i][j].isMine == ((i, j) in ps)
      ensures a[i][j] == b[i][j].(isMine := a[i][j].isMine, adjacentMines := a[i][j].adjacentMines)
      ensures a[i][j].isMine ==> a[i][j].adjacentMines == 0
    {
      WithMinesAt(b, ps, (i, j));
      assert InGrid(m, (i, j));
    }
  }

  /**
   * placeMines on a pristine board: exactly the listed cells become mines
   * (their count stays 0), every safe cell gets its true count, and nothing
   * is revealed or flagged that was not before.
   */
  lemma Armed(b: Board, ps: seq<Pos>)
    requires Pristine(b) && AllInGrid(b, ps) && Distinct(ps)
    ensures var a := WithAdjacency(WithMines(b, ps));
      && AdjacencyCorrect(a)
      && Count(a, MineMark) == |ps|
      && Count(a, RevealedMark) == 0
      && Count(a, FlaggedMark) == Count(b, FlaggedMark)
      && forall i, j :: 0 <= i < |b| && 0 <= j < |b[i]| ==>
           && a[i][j].isMine == ((i, j) in ps)
           && a[i][j] == b[i][j].(isMine := a[i][j].isMine, adjacentMines := a[i][j].adjacentMines)
           && (a[i][j].isMine ==> a[i][j].adjacentMines == 0)
  {
    var m: Board := WithMines(b, ps);
    var a: Board := WithAdjacency(m);
    ArmedCells(b, ps);
    WithMinesCount(b, ps);
    WithAdjacencyCorrect(m);
    assert Count(b, MineMark) == 0 && Count(b, RevealedMark) == 0 by {
      CountBounds(b, MineMark);
      CountBounds(b, RevealedMark);
    }
    forall i, j | 0 <= i < |a| && 0 <= j < |a[i]|
      ensures a[i][j] == m[i][j].(adjacentMines := a[i][j].adjacentMines)
    {
    }
    CountSame(a, m, MineMark);
    CountBounds(a, RevealedMark);
    CountSame(a, m, FlaggedMark);
  }

  /**
   * The first click is safe: neither the clicked cell nor any cell next to it
   * gets a mine, so the clicked cell has count zero and the reveal spreads.
   */
  lemma FirstClickSafe(b: Board, ps: seq<Pos>, p: Pos)
    requires Pristine(b) && AllInGrid(b, ps) && InGrid(b, p)
    requires forall k :: 0 <= k < |ps| ==> !InBlock(ps[k], p)
    ensures var a := WithAdjacency(WithMines(b, ps));
      && !At(a, p).isMine && Expands(At(a, p))
      && forall q :: Adjacent(p, q) && InGrid(a, q) ==> !At(a, q).isMine
  {
    var m: Board := WithMines(b, ps);
    var a: Board := WithAdjacency(m);
    forall q | InGrid(b, q) && InBlock(q, p)
      ensures !At(a, q).isMine
    {
      MineKept(b, ps, q);
      assert forall k :: 0 <= k < |ps| ==> ps[k] != q;
    }
    assert Adjacent(p, p) == false;
    assert forall q :: Adjacent(p, q) && InGrid(a, q) ==> !At(a, q).isMine by {
      forall q | Adjacent(p, q) && InGrid(a, q)
        ensures !At(a, q).isMine
      {
        assert InGrid(b, q) && InBlock(q, p);
      }
    }
    assert a[p.0][p.1].adjacentMines == MinesAround(a, p.0, p.1) by {
      assert InGrid(b, p) && InBlock(p, p);
      WithAdjacencyCorrect(m);
    }
    MinesAroundZero(a, p);
  }

  /** After placing the mines a cell holds one exactly when it did before or is listed. */
  lemma MineKept(b: Board, ps: seq<Pos>, q: Pos)
    requires AllInGrid(b, ps) && InGrid(b, q)
    ensures At(WithAdjacency(WithMines(b, ps)), q).isMine == (q in ps || At(b, q).isMine)
  {
    WithMinesAt(b, ps, q);
  }

  /** A reveal from a cell that expands leaves every neighbour of it revealed or flagged. */
  lemma RevealOpensNeighbours(a: Board, b: Board, p: Pos, order: seq<Pos>)
    requires RevealSpec(a, b, p, order) && !Blocked(a, p) && Expands(At(a, p))
    ensures forall q :: Adjacent(p, q) && InGrid(b, q) ==> At(b, q).isRevealed || At(b, q).isFlagged
  {
    assert Newly(a, b, order[0]);
  }

  // ---------------------------------------------------------------------------
  // Winning and losing

  /**
   * With every mine counted and none revealed, the revealed cells number
   * `rows * cols - mines` (`Area`) exactly when every safe cell is revealed.
   */
  lemma WinCondition(b: Board, rows: nat, cols: nat, mines: int)
    requires Shaped(b, rows, cols) && NoRevealedMine(b) && Count(b, MineMark) == mines
    ensures Count(b, RevealedMark) == Area(rows, cols) - mines <==>
      forall i, j :: 0 <= i < rows && 0 <= j < cols ==> (b[i][j].isRevealed <==> !b[i][j].isMine)
  {
    CellsOfShape(b, rows, cols);
    Cover(b);
  }

  /** endGame on a loss: every mine is revealed and no other cell changes. */
  lemma EndLoss(b: Board)
    ensures var e := EndBoard(b, false);
      && SameLayout(b, e) && LostBoard(e)
      && (forall q :: InGrid(b, q) ==> At(e, q) == if At(b, q).isMine then At(b, q).(isRevealed := true) else At(b, q))
      && Count(e, FlaggedMark) == Count(b, FlaggedMark)
  {
    var e := EndBoard(b, false);
    CountSame(b, e, FlaggedMark);
  }

  /** endGame on a win: every mine is flagged, nothing is revealed or hidden, no other cell changes. */
  lemma EndWin(b: Board)
    ensures var e := EndBoard(b, true);
      && SameLayout(b, e)
      && (forall q :: InGrid(b, q) ==> At(e, q) == if At(b, q).isMine then At(b, q).(isFlagged := true) else At(b, q))
      && Count(e, RevealedMark) == Count(b, RevealedMark)
      && ((forall i, j :: 0 <= i < |b| && 0 <= j < |b[i]| ==> (b[i][j].isRevealed <==> !b[i][j].isMine)) ==> WonBoard(e))
  {
    var e := EndBoard(b, true);
    CountSame(b, e, RevealedMark);
  }

  /** A reveal keeps everything but `isRevealed`, and so the count of flags. */
  lemma RevealKeeps(a: Board, b: Board)
    requires Grows(a, b)
    ensures SameLayout(a, b)
    ensures Count(b, FlaggedMark) == Count(a, FlaggedMark)
    ensures NoRevealedFlag(a) ==> NoRevealedFlag(b)
  {
    forall i, j | 0 <= i < |a| && 0 <= j < |a[i]|
      ensures b[i][j] == a[i][j].(isRevealed := b[i][j].isRevealed)
      ensures a[i][j].isFlagged ==> b[i][j].isRevealed == a[i][j].isRevealed
      ensures Has(a[i][j], FlaggedMark) == Has(b[i][j], FlaggedMark)
    {
      assert InGrid(a, (i, j));
    }
    CountSame(a, b, FlaggedMark);
  }

  // ---------------------------------------------------------------------------
  // Flags

  /** handleRightClick on board values: the new board and flag count. */
  function RightClick(b: Board, p: Pos, over: bool, flags: int, mines: int): (r: (Board, int))
    requires InGrid(b, p)
    ensures |r.0| == |b| && forall i :: 0 <= i < |b| ==> |r.0[i]| == |b[i]|
  {
    var cell := At(b, p);
    if over || cell.isRevealed then (b, flags)
    else if cell.isFlagged then (Set(b, p, cell.(isFlagged := false)), flags - 1)
    else if flags < mines then (Set(b, p, cell.(isFlagged := true)), flags + 1)
    else (b, flags)
  }

  /**
   * A right click keeps the flag count equal to the number of flags and
   * within `0..mines`, and changes nothing but the clicked cell's flag.
   */
  lemma RightClickCounts(b: Board, p: Pos, over: bool, flags: int, mines: int)
    requires InGrid(b, p) && flags == Count(b, FlaggedMark) && flags <= mines
    ensures var r := RightClick(b, p, over, flags, mines);
      && r.1 == Count(r.0, FlaggedMark) && 0 <= r.1 <= mines
      && (r == (b, flags) || (!over && !b[p.0][p.1].isRevealed))
      && forall i, j :: 0 <= i < |b| && 0 <= j < |b[i]| ==>
           r.0[i][j] == (if (i, j) == p then b[i][j].(isFlagged := r.0[i][j].isFlagged) else b[i][j])
  {
    var cell := At(b, p);
    CountUpdate(b, p, cell.(isFlagged := !cell.isFlagged), FlaggedMark);
    CountBounds(b, FlaggedMark);
    var r := RightClick(b, p, over, flags, mines);
    forall i, j | 0 <= i < |b| && 0 <= j < |b[i]|
      ensures r.0[i][j] == (if (i, j) == p then b[i][j].(isFlagged := r.0[i][j].isFlagged) else b[i][j])
    {
      assert InGrid(b, (i, j));
    }
  }

  /** Right-clicking the same cell twice gives back the board and flag count. */
  lemma RightClickTwice(b: Board, p: Pos, over: bool, flags: int, mines: int)
    requires InGrid(b, p) && flags <= mines
    ensures var r := RightClick(b, p, over, flags, mines);
      RightClick(r.0, p, over, r.1, mines) == (b, flags)
  {
    var r := RightClick(b, p, over, flags, mines);
    if r.0 != b {
      var s := RightClick(r.0, p, over, r.1, mines);
      BoardExt(s.0, b);
    }
  }

  // ---------------------------------------------------------------------------
  // Best times

  /** The store key of a difficulty's best time. */
  function BestTimeKey(d: Difficulty): string {
    "bestTime_" + Name(d)
  }

  /** Each difficulty keeps its best time under a key of its own. */
  lemma BestTimeKeysDistinct(d1: Difficulty, d2: Difficulty)
    ensures BestTimeKey(d1) == BestTimeKey(d2) <==> d1 == d2
  {
    if d1 != d2 {
      var k1, k2 := BestTimeKey(d1), BestTimeKey(d2);
      assert |k1| != |k2| || k1[9] != k2[9];
    }
  }

  /** On a win the stored best time becomes the smaller of the old one and `seconds`; other keys stay. */
  function RecordBestTime(store: map<string, int>, key: string, seconds: int): (r: map<string, int>)
    ensures key in r && r[key] <= seconds
    ensures key !in store ==> r[key] == seconds
    ensures key in store ==> r[key] <= store[key] && (r[key] == seconds || r[key] == store[key])
    ensures forall k :: k != key ==> (k in r <==> k in store) && (k in store ==> r[k] == store[k])
  {
    if key !in store || seconds < store[key] then store[key := seconds] else store
  }

  // ---------------------------------------------------------------------------
  // The game state as values

  /**
   * The invariant of the game state: a valid configuration, a board of its
   * size, the phases in order (a won game is over, an over game is not
   * running), the flag counter within the mine count and equal to the flags
   * on the board, a pristine board before the first click, correct counts and
   * the configured number of mines after it, no mine and no flagged cell
   * revealed while the game goes on, and the end boards of a win and a loss.
   */
  ghost predicate Consistent(c: Config, b: Board, over: bool, started: bool, won: bool, flags: int, revealed: int) {
    && ConfigOk(c) && c.rows >= 0 && c.cols >= 0
    && Shaped(b, c.rows, c.cols) && Coordinates(b)
    && (won ==> over) && (over ==> !started)
    && 0 <= flags <= c.mines
    && (!won ==> flags == Count(b, FlaggedMark))
    && (!started && !over ==> Pristine(b))
    && (started || over ==> AdjacencyCorrect(b) && Count(b, MineMark) == c.mines)
    && (!over ==> NoRevealedMine(b) && NoRevealedFlag(b) && revealed == Count(b, RevealedMark))
    && (won ==> WonBoard(b))
    && (over && !won ==> LostBoard(b))
  }

  /** A new game on an empty board is consistent. */
  lemma NewGameConsistent(c: Config)
    requires ConfigOk(c) && c.rows >= 0 && c.cols >= 0
    ensures Consistent(c, EmptyBoard(c.rows, c.cols), false, false, false, 0, 0)
  {
    var e := EmptyBoard(c.rows, c.cols);
    CountBounds(e, FlaggedMark);
    CountBounds(e, RevealedMark);
  }

  /** A right click keeps the game consistent. */
  lemma RightClickConsistent(c: Config, b: Board, over: bool, started: bool, won: bool, flags: int, revealed: int, p: Pos)
    requires Consistent(c, b, over, started, won, flags, revealed) && InGrid(b, p)
    ensures var r := RightClick(b, p, over, flags, c.mines);
      Consistent(c, r.0, over, started, won, r.1, revealed)
  {
    var r := RightClick(b, p, over, flags, c.mines);
    if r != (b, flags) {
      RightClickCounts(b, p, over, flags, c.mines);
      ToggleConsistent(c, b, r.0, started, flags, r.1, revealed, p);
    }
  }

  /** Changing the flag of one hidden cell keeps every board condition of a running game. */
  lemma ToggleKeeps(b: Board, b2: Board, p: Pos)
    requires InGrid(b, p) && !b[p.0][p.1].isRevealed
    requires |b2| == |b| && forall i :: 0 <= i < |b| ==> |b2[i]| == |b[i]|
    requires forall i, j :: 0 <= i < |b| && 0 <= j < |b[i]| ==>
      b2[i][j] == (if (i, j) == p then b[i][j].(isFlagged := b2[i][j].isFlagged) else b[i][j])
    ensures Coordinates(b) ==> Coordinates(b2)
    ensures AdjacencyCorrect(b) ==> AdjacencyCorrect(b2)
    ensures Count(b2, MineMark) == Count(b, MineMark) && Count(b2, RevealedMark) == Count(b, RevealedMark)
    ensures Pristine(b) ==> Pristine(b2)
    ensures NoRevealedMine(b) ==> NoRevealedMine(b2)
    ensures NoRevealedFlag(b) ==> NoRevealedFlag(b2)
  {
    assert SameLayout(b, b2);
    LayoutKeeps(b, b2);
    CountSame(b, b2, RevealedMark);
  }

  /** Changing the flag of one hidden cell, with the counter following, keeps a running game consistent. */
  lemma ToggleConsistent(c: Config, b: Board, b2: Board, started: bool, flags: int, flags2: int, revealed: int, p: Pos)
    requires Consistent(c, b, false, started, false, flags, revealed) && InGrid(b, p) && !b[p.0][p.1].isRevealed
    requires |b2| == |b| && forall i :: 0 <= i < |b| ==> |b2[i]| == |b[i]|
    requires forall i, j :: 0 <= i < |b| && 0 <= j < |b[i]| ==>
      b2[i][j] == (if (i, j) == p then b[i][j].(isFlagged := b2[i][j].isFlagged) else b[i][j])
    requires flags2 == Count(b2, FlaggedMark) && 0 <= flags2 <= c.mines
    ensures Consistent(c, b2, false, started, false, flags2, revealed)
  {
    ToggleKeeps(b, b2, p);
  }

  /** Placing the mines on the first click starts a consistent game on the armed board. */
  lemma ArmedConsistent(c: Config, b: Board, flags: int, revealed: int, ps: seq<Pos>)
    requires Consistent(c, b, false, false, false, flags, revealed)
    requires AllInGrid(b, ps) && Distinct(ps) && |ps| == c.mines
    ensures Consistent(c, WithAdjacency(WithMines(b, ps)), false, true, false, flags, revealed)
  {
    var a: Board := WithAdjacency(WithMines(b, ps));
    Armed(b, ps);
    assert revealed == 0 by {
      CountBounds(b, RevealedMark);
    }
    assert Shaped(a, c.rows, c.cols);
    assert Coordinates(a) && NoRevealedMine(a) && NoRevealedFlag(a) by {
      forall i, j | 0 <= i < |a| && 0 <= j < |a[i]|
        ensures a[i][j].row == i && a[i][j].col == j && !a[i][j].isRevealed
      {
      }
    }
  }

  /** Revealing a cell that is not a mine keeps a running game consistent and counts the revealed cells. */
  lemma RevealConsistent(c: Config, a: Board, b: Board, p: Pos, order: seq<Pos>, flags: int, revealed: int)
    requires Consistent(c, a, false, true, false, flags, revealed)
    requires RevealSpec(a, b, p, order) && InGrid(a, p) && !At(a, p).isMine
    ensures Consistent(c, b, false, true, false, flags, Count(b, RevealedMark))
  {
    RevealKeeps(a, b);
    LayoutKeeps(a, b);
    SafeRevealNoMine(a, b, p, order);
    forall i, j | 0 <= i < |b| && 0 <= j < |b[i]|
      ensures !(b[i][j].isMine && b[i][j].isRevealed)
    {
      assert InGrid(b, (i, j)) && InGrid(a, (i, j));
    }
  }

  /** Revealing a mine ends the game lost, consistently. */
  lemma LossConsistent(c: Config, a: Board, b: Board, flags: int, revealed: int, r: int)
    requires Consistent(c, a, false, true, false, flags, revealed) && Grows(a, b)
    ensures Consistent(c, EndBoard(b, false), true, false, false, flags, r)
  {
    RevealKeeps(a, b);
    LayoutKeeps(a, b);
    EndLoss(b);
    LayoutKeeps(b, EndBoard(b, false));
  }

  /** Once the safe cells are all revealed the game ends won, consistently. */
  lemma WinConsistent(c: Config, b: Board, flags: int)
    requires Consistent(c, b, false, true, false, flags, Area(c.rows, c.cols) - c.mines)
    ensures Consistent(c, EndBoard(b, true), true, false, true, c.mines, Area(c.rows, c.cols) - c.mines)
  {
    WinCondition(b, c.rows, c.cols, c.mines);
    EndWin(b);
    LayoutKeeps(b, EndBoard(b, true));
  }

  /**
   * The board work of a click at `p` on `b`: on the first click
   * (`!started`) `placed` lists `mines` distinct cells of the board, none
   * at `p` or next to it, and `armed` is `b` with mines there and every
   * count set; on a later click `armed` is `b`. `r` is the reveal from `p`
   * on `armed`, the cells opening in the order `order`.
   */
  ghost predicate ClickWork(b: Board, mines: int, started: bool, p: Pos,
                            placed: seq<Pos>, armed: Board, r: Board, order: seq<Pos>) {
    && (!started ==>
          |placed| == Size(mines) && Distinct(placed) && AllInGrid(b, placed) &&
          (forall k :: 0 <= k < |placed| ==> !InBlock(placed[k], p)) &&
          armed == WithAdjacency(WithMines(b, placed)))
    && (started ==> armed == b)
    && RevealSpec(armed, r, p, order)
  }

  /**
   * A click on a cell of a pristine or running game: on the first click the
   * armed board starts a consistent game and the clicked cell is no mine;
   * the reveal keeps the cell on the board.
   */
  lemma ClickArmed(c: Config, b: Board, started: bool, flags: int, count0: int,
                   placed: seq<Pos>, armed: Board, r: Board, order: seq<Pos>, p: Pos)
    requires Consistent(c, b, false, started, false, flags, count0) && InGrid(b, p)
    requires ClickWork(b, c.mines, started, p, placed, armed, r, order)
    ensures Consistent(c, armed, false, true, false, flags, count0)
    ensures InGrid(r, p) && (!started ==> !At(r, p).isMine)
  {
    if !started {
      ArmedConsistent(c, b, flags, count0, placed);
      FirstClickSafe(b, placed, p);
    }
    RevealKeeps(armed, r);
  }

  /**
   * The outcome of a click on a hidden, unflagged cell of a running or
   * pristine game: the first click never hits a mine; hitting a mine ends
   * the game lost, and revealing the last safe cell ends it won, each
   * consistently; any other reveal keeps the game running and consistent.
   */
  lemma ClickConsistent(c: Config, b: Board, started: bool, flags: int, count0: int,
                        placed: seq<Pos>, armed: Board, r: Board, order: seq<Pos>, p: Pos)
    requires Consistent(c, b, false, started, false, flags, count0) && InGrid(b, p)
    requires ClickWork(b, c.mines, started, p, placed, armed, r, order)
    ensures InGrid(r, p) && (!started ==> !At(r, p).isMine)
    ensures At(r, p).isMine ==> Consistent(c, EndBoard(r, false), true, false, false, flags, Count(r, RevealedMark))
    ensures !At(r, p).isMine ==> Consistent(c, r, false, true, false, flags, Count(r, RevealedMark))
    ensures !At(r, p).isMine && Count(r, RevealedMark) == Area(c.rows, c.cols) - c.mines ==>
      Consistent(c, EndBoard(r, true), true, false, true, c.mines, Count(r, RevealedMark))
  {
    ClickArmed(c, b, started, flags, count0, placed, armed, r, order, p);
    if At(r, p).isMine {
      LossConsistent(c, armed, r, flags, count0, Count(r, RevealedMark));
    } else {
      RevealConsistent(c, armed, r, p, order, flags, count0);
      if Count(r, RevealedMark) == Area(c.rows, c.cols) - c.mines {
        WinConsistent(c, r, flags);
      }
    }
  }

  /**
   * The board work of handleCellClick, on a copy of `b`: on the first click
   * the mines are placed (from the random `draws`, away from the clicked
   * cell and its neighbours), then the clicked cell is revealed and the
   * revealed cells are counted. `armed` is the copy before the reveal.
   */
  method ClickCopy(b: Board, rows: nat, cols: nat, mines: int, started: bool, row: int, col: int, draws: seq<int>)
    returns (r: Board, count: nat, ghost placed: seq<Pos>, ghost armed: Board, ghost order: seq<Pos>)
    requires Shaped(b, rows, cols) && 0 <= row < rows && 0 <= col < cols
    requires !started ==>
      (forall k :: 0 <= k < |draws| ==> 0 <= draws[k] < Area(rows, cols)) &&
      |Accepted(draws, cols, (row, col))| >= mines
    ensures ClickWork(b, mines, started, (row, col), placed, armed, r, order)
    ensures count == Count(r, RevealedMark)
  {
    var grid := Clone(b, rows, cols);
    placed := [];
    if !started {
      placed := PlaceMines(grid, row, col, mines, draws);
    }
    armed := View(grid);
    order := RevealAdjacentCells(grid, row, col);
    count := CountRevealed(grid);
    r := Snapshot(grid);
  }

  // ---------------------------------------------------------------------------
  // The game

  /**
   * The component's game-state object: the phases, the timer and the
   * counters, replaced as a whole on every update.
   */
  datatype GameState = GameState(isGameOver: bool, isGameStarted: bool, isGameWon: bool,
                                 seconds: nat, flagsPlaced: int, revealedCount: int)

  /** The state of a new game. */
  const Reset := GameState(false, false, false, 0, 0, 0)

  /** The state endGame leaves: over, won or lost, not running, every flag placed on a win. */
  function Finished(s: GameState, isWin: bool, mines: int): (r: GameState)
    ensures r.isGameOver && !r.isGameStarted && r.isGameWon == isWin
    ensures r.seconds == s.seconds && r.revealedCount == s.revealedCount
    ensures r.flagsPlaced == if isWin then mines else s.flagsPlaced
  {
    s.(isGameOver := true, isGameWon := isWin, isGameStarted := false,
       flagsPlaced := if isWin then mines else s.flagsPlaced)
  }

  /** `Consistent` of a configuration, a board and a game-state object. */
  ghost predicate Holds(c: Config, b: Board, s: GameState) {
    Consistent(c, b, s.isGameOver, s.isGameStarted, s.isGameWon, s.flagsPlaced, s.revealedCount)
  }

  /**
   * The component: the configuration, the board and the game-state object
   * it holds, and the best times in the browser's storage. Every handler
   * works on a fresh mutable copy of the board and stores the copy back.
   */
  class Game {
    var config: Config
    var board: Board
    var gameState: GameState
    /** The best times kept in the browser's storage, by key. */
    var bestTimes: map<string, int>

    ghost predicate Valid()
      reads this
    {
      Holds(config, board, gameState)
    }

    /** The game as first shown: beginner, an empty 8 x 8 board, the stored best times. */
    constructor (store: map<string, int>)
      ensures Valid()
      ensures config == InitialConfig() && board == EmptyBoard(8, 8)
      ensures gameState == Reset && bestTimes == store
    {
      config := InitialConfig();
      board := EmptyBoard(8, 8);
      gameState := Reset;
      bestTimes := store;
      InitialOk();
      NewGameConsistent(InitialConfig());
    }

    /** initializeBoard: an empty board of the configured size and a reset game state. */
    method NewGame()
      requires ConfigOk(config) && config.rows >= 0 && config.cols >= 0
      modifies this`board, this`gameState
      ensures Valid()
      ensures board == EmptyBoard(config.rows, config.cols) && gameState == Reset
    {
      NewGameConsistent(config);
      board := EmptyBoard(config.rows, config.cols);
      gameState := Reset;
    }

    /** handleDifficultyChange: the new configuration, then a new game of its size. */
    method HandleDifficultyChange(d: Difficulty)
      requires Valid()
      modifies this`config, this`board, this`gameState
      ensures Valid()
      ensures config == SelectDifficulty(old(config), d)
      ensures board == EmptyBoard(config.rows, config.cols) && gameState == Reset
    {
      SelectKeepsOk(config, d);
      config := SelectDifficulty(config, d);
      NewGame();
    }

    /**
     * The effect of a custom-input change: the new configuration, and a new
     * game when the board's rows, columns or mines changed.
     */
    method Reconfigure(c: Config)
      requires Valid() && ConfigOk(c) && c.difficulty == config.difficulty
      modifies this`config, this`board, this`gameState
      ensures Valid() && config == c
      ensures (c.rows, c.cols, c.mines) == old((config.rows, config.cols, config.mines)) ==>
        board == old(board) && gameState == old(gameState)
      ensures (c.rows, c.cols, c.mines) != old((config.rows, config.cols, config.mines)) ==>
        board == EmptyBoard(c.rows, c.cols) && gameState == Reset
    {
      var changed := (c.rows, c.cols, c.mines) != (config.rows, config.cols, config.mines);
      config := c;
      if changed {
        NewGame();
      }
    }

    /** The rows input of the custom settings. */
    method EditCustomRows(v: Option<int>)
      requires Valid() && config.difficulty == Custom
      modifies this`config, this`board, this`gameState
      ensures Valid() && config == EditRows(old(config), v)
      ensures (config.rows, config.cols, config.mines) == old((config.rows, config.cols, config.mines)) ==>
        board == old(board) && gameState == old(gameState)
      ensures (config.rows, config.cols, config.mines) != old((config.rows, config.cols, config.mines)) ==>
        board == EmptyBoard(config.rows, config.cols) && gameState == Reset
    {
      EditRowsKeepsOk(config, v);
      Reconfigure(EditRows(config, v));
    }

    /** The columns input of the custom settings. */
    method EditCustomCols(v: Option<int>)
      requires Valid() && config.difficulty == Custom
      modifies this`config, this`board, this`gameState
      ensures Valid() && config == EditCols(old(config), v)
      ensures (config.rows, config.cols, config.mines) == old((config.rows, config.cols, config.mines)) ==>
        board == old(board) && gameState == old(gameState)
      ensures (config.rows, config.cols, config.mines) != old((config.rows, config.cols, config.mines)) ==>
        board == EmptyBoard(config.rows, config.cols) && gameState == Reset
    {
      EditColsKeepsOk(config, v);
      Reconfigure(EditCols(config, v));
    }

    /** The mines input of the custom settings. */
    method EditCustomMines(v: Option<int>)
      requires Valid() && config.difficulty == Custom
      modifies this`config, this`board, this`gameState
      ensures Valid() && config == EditMines(old(config), v)
      ensures (config.rows, config.cols, config.mines) == old((config.rows, config.cols, config.mines)) ==>
        board == old(board) && gameState == old(gameState)
      ensures (config.rows, config.cols, config.mines) != old((config.rows, config.cols, config.mines)) ==>
        board == EmptyBoard(config.rows, config.cols) && gameState == Reset
    {
      EditMinesKeepsOk(config, v);
      Reconfigure(EditMines(config, v));
    }

    /** One tick of the timer: a second more while a game is running. */
    method Tick()
      requires Valid()
      modifies this`gameState
      ensures Valid()
      ensures gameState == if old(gameState.isGameStarted && !gameState.isGameOver)
        then old(gameState.(seconds := gameState.seconds + 1)) else old(gameState)
    {
      if gameState.isGameStarted && !gameState.isGameOver {
        gameState := gameState.(seconds := gameState.seconds + 1);
      }
    }

    /** handleRightClick: toggles the flag of a hidden cell, new flags only below the mine count. */
    method HandleRightClick(row: int, col: int)
      requires Valid() && 0 <= row < config.rows && 0 <= col < config.cols
      modifies this`board, this`gameState
      ensures Valid()
      ensures var r := RightClick(old(board), (row, col), gameState.isGameOver, old(gameState.flagsPlaced), config.mines);
        board == r.0 && gameState == old(gameState).(flagsPlaced := r.1)
    {
      var c, s := config, gameState;
      RightClickConsistent(c, board, s.isGameOver, s.isGameStarted, s.isGameWon, s.flagsPlaced, s.revealedCount, (row, col));
      if s.isGameOver || board[row][col].isRevealed {
        return;
      }
      var cell := board[row][col];
      if cell.isFlagged {
        var nb := StoredCopy(board, c.rows, c.cols, (row, col), cell.(isFlagged := false));
        board, gameState := nb, s.(flagsPlaced := s.flagsPlaced - 1);
      } else if s.flagsPlaced < c.mines {
        var nb := StoredCopy(board, c.rows, c.cols, (row, col), cell.(isFlagged := true));
        board, gameState := nb, s.(flagsPlaced := s.flagsPlaced + 1);
      }
    }

    /** endGame: marks the mines on a copy of `b`, ends the game and, on a win, records the time. */
    method EndGame(isWin: bool, b: Board)
      requires config.rows >= 0 && config.cols >= 0 && Shaped(b, config.rows, config.cols)
      requires Holds(config, EndBoard(b, isWin), Finished(gameState, isWin, config.mines))
      modifies this`board, this`gameState, this`bestTimes
      ensures Valid()
      ensures board == EndBoard(b, isWin) && gameState == Finished(old(gameState), isWin, config.mines)
      ensures bestTimes == if isWin then RecordBestTime(old(bestTimes), BestTimeKey(config.difficulty), gameState.seconds)
        else old(bestTimes)
    {
      var c, s := config, gameState;
      var e := EndedCopy(b, c.rows, c.cols, isWin);
      board, gameState := e, Finished(s, isWin, c.mines);
      if isWin {
        var key := BestTimeKey(c.difficulty);
        if key !in bestTimes || s.seconds < bestTimes[key] {
          bestTimes := bestTimes[key := s.seconds];
        }
      }
    }

    /**
     * handleCellClick: nothing once the game is over or on a flagged cell.
     * Otherwise, on a copy of the board, the mines are placed first if this
     * is the first click (from the random `draws`, away from the clicked
     * cell and its neighbours), then the cell is revealed; the copy
     * (`revealed`) and its count of revealed cells are stored, and endGame
     * follows on a mine (lost) or once every safe cell is revealed (won).
     * `armed` is the copy before the reveal; the first click never hits a
     * mine.
     */
    method HandleCellClick(row: int, col: int, draws: seq<int>)
      returns (ghost placed: seq<Pos>, ghost order: seq<Pos>, ghost armed: Board, ghost revealed: Board)
      requires Valid() && 0 <= row < config.rows && 0 <= col < config.cols
      requires !gameState.isGameStarted && !gameState.isGameOver && !board[row][col].isFlagged ==>
        (forall k :: 0 <= k < |draws| ==> 0 <= draws[k] < Area(config.rows, config.cols)) &&
        |Accepted(draws, config.cols, (row, col))| >= config.mines
      modifies this`board, this`gameState, this`bestTimes
      ensures Valid()
      ensures old(gameState.isGameOver) || old(board[row][col].isFlagged) ==>
        board == old(board) && gameState == old(gameState) && bestTimes == old(bestTimes)
      ensures !old(gameState.isGameOver) && !old(board[row][col].isFlagged) ==>
        InGrid(revealed, (row, col)) &&
        var mine := revealed[row][col].isMine;
        var count := Count(revealed, RevealedMark);
        var won := !mine && count == Area(config.rows, config.cols) - config.mines;
        var running := old(gameState).(isGameStarted := true, revealedCount := count);
        && ClickWork(old(board), config.mines, old(gameState.isGameStarted), (row, col), placed, armed, revealed, order)
        && (!old(gameState.isGameStarted) ==> !mine)
        && board == (if mine || won then EndBoard(revealed, won) else revealed)
        && gameState == (if mine || won then Finished(running, won, config.mines) else running)
        && bestTimes == (if won then RecordBestTime(old(bestTimes), BestTimeKey(config.difficulty), gameState.seconds)
                         else old(bestTimes))
    {
      placed, order, armed, revealed := [], [], board, board;
      if gameState.isGameOver || board[row][col].isFlagged {
        return;
      }
      var c, s := config, gameState;
      var nb, count;
      nb, count, placed, armed, order := ClickCopy(board, c.rows, c.cols, c.mines, s.isGameStarted, row, col, draws);
      ClickConsistent(c, board, s.isGameStarted, s.flagsPlaced, s.revealedCount, placed, armed, nb, order, (row, col));
      revealed := nb;
      board, gameState := nb, s.(isGameStarted := true, revealedCount := count);
      if nb[row][col].isMine {
        EndGame(false, nb);
      } else if count == Area(c.rows, c.cols) - c.mines {
        EndGame(true, nb);
      }
    }
  }
}
