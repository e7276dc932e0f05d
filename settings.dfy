/**
 * The game configuration: the difficulty presets, the custom size fields and
 * the way the difficulty buttons and the custom inputs change the
 * configuration. The custom handlers appear twice: as written, and corrected
 * so that the values they accept always give a board on which mines can be
 * placed (see the findings in README.md).
 */
module Settings {
  import opened Cells
  import opened MineGen

  datatype Option<T> = None | Some(value: T)

  datatype Difficulty = Beginner | Intermediate | Expert | Custom

  /** The difficulty's name, as used in the best-time key. */
  function Name(d: Difficulty): string {
    match d
    case Beginner => "beginner"
    case Intermediate => "intermediate"
    case Expert => "expert"
    case Custom => "custom"
  }

  datatype Dims = Dims(rows: int, cols: int, mines: int)

  /** DIFFICULTY_LEVELS. */
  function Level(d: Difficulty): Dims
    requires d != Custom
  {
    match d
    case Beginner => Dims(8, 8, 10)
    case Intermediate => Dims(12, 12, 30)
    case Expert => Dims(16, 16, 60)
  }

  datatype Config = Config(
    difficulty: Difficulty,
    rows: int, cols: int, mines: int,
    customRows: int, customCols: int, customMines: int)

  /** The configuration the game starts with: beginner, custom fields 8, 8 and 10. */
  function InitialConfig(): (c: Config)
    ensures c.difficulty == Beginner && Dims(c.rows, c.cols, c.mines) == Level(Beginner)
    ensures (c.customRows, c.customCols, c.customMines) == (c.rows, c.cols, c.mines)
  {
    Config(Beginner, 8, 8, 10, 8, 8, 10)
  }

  /** `Math.floor(cells * 0.35)`, the most mines a custom board of `cells` cells may hold. */
  function MineCap(cells: int): (cap: int)
    ensures cap * 100 <= cells * 35 < (cap + 1) * 100
  {
    (cells * 35) / 100
  }

  /** `parseInt(value) || d`: a missing number (NaN) or a zero falls back to `d`. */
  function OrDefault(v: Option<int>, d: int): (r: int)
    ensures v.None? ==> r == d
    ensures v.Some? ==> r == if v.value == 0 then d else v.value
  {
    match v
    case None => d
    case Some(n) => if n == 0 then d else n
  }

  /** `x` brought into `[lo, hi]`. */
  function Clamp(x: int, lo: int, hi: int): (r: int)
    requires lo <= hi
    ensures lo <= r <= hi
    ensures lo <= x <= hi ==> r == x
    ensures x < lo ==> r == lo
    ensures x > hi ==> r == hi
  {
    if x < lo then lo else if x > hi then hi else x
  }

  // ---------------------------------------------------------------------------
  // The handlers as written

  /** handleDifficultyChange's configuration update, as written. */
  function SelectDifficultyAsWritten(c: Config, d: Difficulty): (r: Config)
    ensures r.difficulty == d
    ensures (r.customRows, r.customCols, r.customMines) == (c.customRows, c.customCols, c.customMines)
    ensures d != Custom ==> Dims(r.rows, r.cols, r.mines) == Level(d)
    ensures d == Custom ==> (r.rows, r.cols, r.mines) == (c.customRows, c.customCols, c.customMines)
  {
    if d == Custom then
      c.(difficulty := Custom, rows := c.customRows, cols := c.customCols, mines := c.customMines)
    else
      var l := Level(d);
      c.(difficulty := d, rows := l.rows, cols := l.cols, mines := l.mines)
  }

  /** The rows input, as written: rows follow the typed value, mines shrink to the new cap. */
  function EditRowsAsWritten(c: Config, v: Option<int>): (r: Config)
    ensures r.rows == r.customRows == OrDefault(v, 5)
    ensures r.mines == Min(c.customMines, MineCap(r.customRows * c.customCols))
    ensures r.mines <= MineCap(r.rows * c.customCols) && r.mines <= c.customMines
    ensures r == c.(rows := r.rows, customRows := r.customRows, mines := r.mines)
  {
    var n := OrDefault(v, 5);
    c.(customRows := n, rows := n, mines := Min(c.customMines, MineCap(n * c.customCols)))
  }

  /** The columns input, as written. */
  function EditColsAsWritten(c: Config, v: Option<int>): (r: Config)
    ensures r.cols == r.customCols == OrDefault(v, 5)
    ensures r.mines == Min(c.customMines, MineCap(c.customRows * r.customCols))
    ensures r.mines <= MineCap(c.customRows * r.cols) && r.mines <= c.customMines
    ensures r == c.(cols := r.cols, customCols := r.customCols, mines := r.mines)
  {
    var n := OrDefault(v, 5);
    c.(customCols := n, cols := n, mines := Min(c.customMines, MineCap(c.customRows * n)))
  }

  /** The mines input, as written: the field keeps the typed value, only `mines` is capped. */
  function EditMinesAsWritten(c: Config, v: Option<int>): (r: Config)
    ensures r.customMines == OrDefault(v, 1)
    ensures r.mines == Min(r.customMines, MineCap(c.customRows * c.customCols))
    ensures r.mines <= MineCap(c.customRows * c.customCols)
    ensures r == c.(customMines := r.customMines, mines := r.mines)
  {
    var n := OrDefault(v, 1);
    c.(customMines := n, mines := Min(n, MineCap(c.customRows * c.customCols)))
  }

  /**
   * Choosing "custom" after typing more mines than the cap copies the typed
   * number: 100 mines on the 8 x 8 board, where at most 64 cells can ever be
   * accepted, so placing the mines at the first click never ends.
   */
  lemma CustomMinesUncapped(draws: seq<int>, first: Pos)
    requires forall k :: 0 <= k < |draws| ==> 0 <= draws[k] < 64
    ensures var c := SelectDifficultyAsWritten(
              EditMinesAsWritten(SelectDifficultyAsWritten(InitialConfig(), Custom), Some(100)), Custom);
      c.rows == 8 && c.cols == 8 && c.mines == 100 && c.mines > MineCap(c.rows * c.cols) &&
      |Accepted(draws, c.cols, first)| < c.mines
  {
    AcceptedAtMostEligible(draws, 8, 8, first);
    EligibleAtMost(8, 8, first);
  }

  /**
   * The custom inputs accept values below their minimum: rows 2 and columns 3
   * give a 2 x 3 board with 2 mines, and a first click on (0, 1) leaves no
   * cell outside its block, so placing the mines never ends; mines -5 are
   * kept as they are, and rows -3 with 8 columns give -9 mines (the floor
   * of -8.4).
   */
  lemma CustomSizeUnclamped(draws: seq<int>)
    requires forall k :: 0 <= k < |draws| ==> 0 <= draws[k] < 6
    ensures var c := EditColsAsWritten(
              EditRowsAsWritten(SelectDifficultyAsWritten(InitialConfig(), Custom), Some(2)), Some(3));
      c.rows == 2 && c.cols == 3 && c.mines == 2 &&
      |Accepted(draws, c.cols, (0, 1))| < c.mines &&
      EditMinesAsWritten(c, Some(-5)).mines == -5 &&
      EditRowsAsWritten(SelectDifficultyAsWritten(InitialConfig(), Custom), Some(-3)).mines == -9
  {
    AcceptedAtMostEligible(draws, 2, 3, (0, 1));
    assert EligibleSet(2, 3, (0, 1)) == {} by {
      forall x | 0 <= x < 6
        ensures InBlock(Decode(x, 3), (0, 1))
      {
      }
    }
  }

  // ---------------------------------------------------------------------------
  // The handlers corrected

  /** The custom rows and columns the inputs allow (their min and max attributes). */
  const MinSide := 5
  const MaxRows := 20
  const MaxCols := 30

  /** handleDifficultyChange's configuration update, with the custom mines capped. */
  function SelectDifficulty(c: Config, d: Difficulty): (r: Config)
    ensures r.difficulty == d
    ensures (r.customRows, r.customCols, r.customMines) == (c.customRows, c.customCols, c.customMines)
    ensures d != Custom ==> Dims(r.rows, r.cols, r.mines) == Level(d)
    ensures d == Custom ==>
      (r.rows, r.cols, r.mines) == (c.customRows, c.customCols, Max(1, Min(c.customMines, MineCap(c.customRows * c.customCols))))
  {
    if d == Custom then
      c.(difficulty := Custom, rows := c.customRows, cols := c.customCols,
         mines := Max(1, Min(c.customMines, MineCap(c.customRows * c.customCols))))
    else
      var l := Level(d);
      c.(difficulty := d, rows := l.rows, cols := l.cols, mines := l.mines)
  }

  /** The rows input, with the typed value kept within the input's range. */
  function EditRows(c: Config, v: Option<int>): (r: Config)
    ensures r.rows == r.customRows == Clamp(OrDefault(v, 5), MinSide, MaxRows)
    ensures r.mines == Min(c.customMines, MineCap(r.customRows * c.customCols))
    ensures r == c.(rows := r.rows, customRows := r.customRows, mines := r.mines)
  {
    var n := Clamp(OrDefault(v, 5), MinSide, MaxRows);
    c.(customRows := n, rows := n, mines := Min(c.customMines, MineCap(n * c.customCols)))
  }

  /** The columns input, with the typed value kept within the input's range. */
  function EditCols(c: Config, v: Option<int>): (r: Config)
    ensures r.cols == r.customCols == Clamp(OrDefault(v, 5), MinSide, MaxCols)
    ensures r.mines == Min(c.customMines, MineCap(c.customRows * r.customCols))
    ensures r == c.(cols := r.cols, customCols := r.customCols, mines := r.mines)
  {
    var n := Clamp(OrDefault(v, 5), MinSide, MaxCols);
    c.(customCols := n, cols := n, mines := Min(c.customMines, MineCap(c.customRows * n)))
  }

  /** The mines input, with the typed value kept between 1 and the cap. */
  function EditMines(c: Config, v: Option<int>): (r: Config)
    ensures r.customMines == r.mines == Max(1, Min(OrDefault(v, 1), MineCap(c.customRows * c.customCols)))
    ensures r == c.(customMines := r.customMines, mines := r.mines)
  {
    var n := Max(1, Min(OrDefault(v, 1), MineCap(c.customRows * c.customCols)));
    c.(customMines := n, mines := n)
  }

  /**
   * What the corrected handlers keep: a preset's dimensions, or a custom
   * board no smaller than 5 x 5 with between 1 and the cap of mines.
   */
  ghost predicate ConfigOk(c: Config) {
    && MinSide <= c.customRows <= MaxRows && MinSide <= c.customCols <= MaxCols && c.customMines >= 1
    && (c.difficulty != Custom ==> Dims(c.rows, c.cols, c.mines) == Level(c.difficulty))
    && (c.difficulty == Custom ==>
         c.rows == c.customRows && c.cols == c.customCols && 1 <= c.mines <= MineCap(c.rows * c.cols))
  }

  lemma InitialOk()
    ensures ConfigOk(InitialConfig())
  {
  }

  /** A board at least `MinSide` wide has at least `MinSide` cells per row. */
  lemma {:induction false} AreaAtLeast(rows: int, cols: int)
    requires cols >= MinSide
    ensures Area(rows, cols) >= MinSide * rows
  {
    if rows > 0 {
      AreaAtLeast(rows - 1, cols);
    }
  }

  /** A board of at least 5 x 5 has room for 8 mines, and for 9 cells more than its cap. */
  lemma CapAtLeast8(rows: int, cols: int)
    requires rows >= MinSide && cols >= MinSide
    ensures rows * cols >= 25 && MineCap(rows * cols) >= 8 && MineCap(rows * cols) <= rows * cols - 9
  {
    AreaAtLeast(rows, cols);
    AreaIsProduct(rows, cols);
    var n := rows * cols;
    var cap := MineCap(n);
    assert cap * 100 <= n * 35 < (cap + 1) * 100;
  }

  lemma SelectKeepsOk(c: Config, d: Difficulty)
    requires ConfigOk(c)
    ensures ConfigOk(SelectDifficulty(c, d))
  {
    CapAtLeast8(c.customRows, c.customCols);
  }

  lemma EditRowsKeepsOk(c: Config, v: Option<int>)
    requires ConfigOk(c) && c.difficulty == Custom
    ensures ConfigOk(EditRows(c, v))
  {
    var r := EditRows(c, v);
    CapAtLeast8(r.customRows, r.customCols);
  }

  lemma EditColsKeepsOk(c: Config, v: Option<int>)
    requires ConfigOk(c) && c.difficulty == Custom
    ensures ConfigOk(EditCols(c, v))
  {
    var r := EditCols(c, v);
    CapAtLeast8(r.customRows, r.customCols);
  }

  lemma EditMinesKeepsOk(c: Config, v: Option<int>)
    requires ConfigOk(c) && c.difficulty == Custom
    ensures ConfigOk(EditMines(c, v))
  {
    CapAtLeast8(c.customRows, c.customCols);
  }

  /**
   * Under the corrected handlers every board can take its mines: whatever
   * cell is clicked first, the cells outside its block outnumber the mines,
   * and drawing every index once in order places all of them.
   */
  lemma MinesAlwaysFit(c: Config, first: Pos)
    requires ConfigOk(c)
    ensures c.rows >= MinSide && c.cols >= MinSide && c.mines >= 1
    ensures c.mines <= |EligibleSet(c.rows, c.cols, first)|
    ensures |Accepted(Enumeration(c.rows * c.cols), c.cols, first)| >= c.mines
  {
    CapAtLeast8(c.rows, c.cols);
    EligibleAtLeast(c.rows, c.cols, first);
    SomeDrawsSuffice(c.rows, c.cols, first, c.mines);
  }
}
