# Minesweeper game engine in Dafny

This project models the game logic of a React minesweeper. All of that logic
lives in the `Board` component (`src/components/Board.jsx`). The component
holds four pieces of state:

- a configuration: the difficulty, the board's rows, columns and mines, and
  the three custom fields;
- a board of cells, each with its coordinates, `isMine`, `isRevealed`,
  `isFlagged` and `adjacentMines`;
- a game-state record: `isGameOver`, `isGameStarted`, `isGameWon`,
  `seconds`, `flagsPlaced`, `revealedCount`;
- the best times in the browser's storage.

The model is `Engine.Game`, a class with those four fields. Each event
handler is a method that changes the fields as one atomic transition. Every
handler keeps the invariant `Game.Valid`, which says:

- the configuration is valid;
- the board has the configured size and every cell records its own
  coordinates;
- the phases are ordered: a won game is over, and an over game is not
  running;
- `0 <= flagsPlaced <= mines`, and `flagsPlaced` equals the number of flags
  on the board;
- before the first click the board is pristine: no mines, nothing revealed,
  every count 0;
- after the first click the board holds exactly `mines` mines, and every
  safe cell's count is correct;
- while the game runs, no mine and no flagged cell is revealed, and
  `revealedCount` counts the revealed cells;
- a won game ends on the won board, and a lost game ends on the lost board.

The handlers work on a copy of the board. The model does the board work on
an `array2<Cell>` and stores a value snapshot of the result (mine
generation itself works on index sequences):

- the adjacency loops;
- mine placement;
- the recursive reveal;
- counting the revealed cells;
- the end-of-game marking.

Each of these array methods is specified by the board value (`View`) it
leaves behind. The specification functions are proved correct against
independent reference definitions:

- the adjacency loops against `MinesAround`, the count over the Moore
  neighbourhood;
- mine placement against `WithMines` and `WithAdjacency`;
- the reveal against `RevealSpec`. `RevealSpec` is shown to determine the
  result uniquely, and the revealed region is shown to be the least closed
  region around the target.

`Math.random` becomes an oracle sequence `draws`. The first click places
mines only from the draws that fall outside the clicked cell's 3 x 3 block.
The sampling loop ends only if enough draws are accepted, so this is a
precondition. `Settings.MinesAlwaysFit` shows it can always be met under a
valid configuration, which the corrected custom handlers keep (see
Findings); under the handlers as written it cannot always be met.

Modules:

- `Cells`: cells, boards, one-cell updates and counting;
- `Neighbours`: adjacency and mine placement on values;
- `MineGen`: first-click-safe sampling;
- `FloodFill`: the reveal relation and its properties;
- `BoardOps`: the array methods;
- `Settings`: presets and the custom inputs;
- `Clock`: `formatTime`;
- `Engine`: the game invariants and the `Game` class.

## Model

| member | source | states |
|---|---|---|
| Cells.EmptyBoard | src/components/Board.jsx:33-44 | `rows` rows of `cols` cells; cell (i, j) has row i and column j, is no mine, is not revealed or flagged, and has count 0 |
| Cells.Size | src/components/Board.jsx:88 | defines max(mines, 0); `MineGen.DrawStop` and `MineGen.GenerateMinePositions` state that the sampling loop collects that many indices |
| Cells.CountUpdate | src/components/Board.jsx:196 | changing one cell changes the number of revealed (or mined, or flagged) cells by that cell's contribution only |
| Cells.CountBounds | src/components/Board.jsx:196 | a count of marked cells is at most the number of cells; it equals it exactly when every cell is marked, and is 0 exactly when none is |
| Cells.CountSame | src/components/Board.jsx:196 | boards that agree cell by cell on a mark have the same count of it |
| Cells.AreaIsProduct | src/components/Board.jsx:83 | the cell count used by the model equals `rows * cols` |
| Neighbours.MinesAround | src/components/Board.jsx:111-118 | defines the reference count: the mines among the in-bounds cells at the eight offsets around a cell; `MinesAroundZero` and `ScanIsMinesAround` state its properties |
| Neighbours.WithMines | src/components/Board.jsx:131 | the board after setting `isMine` at each listed position in order; keeps the board's shape; `WithMinesAt` and `WithMinesCount` state its effect |
| Neighbours.WithAdjacency | src/components/Board.jsx:106-125 | the board after calculateAdjacentMines; keeps the board's shape; `WithAdjacencyCorrect` states its effect |
| Neighbours.MinesAroundAtMost8 | src/components/Board.jsx:111-118 | a cell has at most 8 adjacent mines |
| Neighbours.MinesAroundZero | src/components/Board.jsx:111-118 | a cell's count is 0 exactly when none of its in-bounds neighbours is a mine |
| Neighbours.MinesAroundSameMines | src/components/Board.jsx:116 | the count depends only on where the mines are |
| Neighbours.ScanIsMinesAround | src/components/Board.jsx:111-118 | the nested `di`/`dj` scan, which skips the cell itself, yields the reference neighbourhood count |
| Neighbours.WithMinesAt | src/components/Board.jsx:131 | after the mines are set, a cell is a mine exactly when it is listed; no other field changes |
| Neighbours.WithMinesCount | src/components/Board.jsx:131 | on a board with no mines, distinct positions give exactly that many mines; revealed and flagged counts stay the same |
| Neighbours.WithAdjacencyCorrect | src/components/Board.jsx:106-125 | afterwards every safe cell's `adjacentMines` equals its mine count; mine cells are unchanged; only `adjacentMines` of safe cells changes |
| MineGen.DecodeInRange | src/components/Board.jsx:89-91 | an index below `rows * cols` decodes to an in-bounds position |
| MineGen.DecodeInjective | src/components/Board.jsx:98-100 | distinct indices decode to distinct positions |
| MineGen.Accepted | src/components/Board.jsx:88-96 | the Set the loop grows, in insertion order, for a sequence of draws: never more indices than draws; `AcceptedFacts` and `DrawStep` state the rest |
| MineGen.AcceptedFacts | src/components/Board.jsx:88-96 | the indices the loop keeps are distinct, were drawn, and lie outside the block around the first click |
| MineGen.AcceptedAtMostEligible | src/components/Board.jsx:88-96 | no sequence of draws is accepted more often than there are cells outside the block, so the loop cannot finish when the mines outnumber those cells |
| MineGen.SomeDrawsSuffice | src/components/Board.jsx:88-96 | conversely, when the mines fit outside the block, drawing every index once lets the loop finish |
| MineGen.EligibleAtLeast | src/components/Board.jsx:93 | the block excludes at most 9 cells |
| MineGen.AcceptedPositions | src/components/Board.jsx:98-100 | the accepted indices decode to distinct in-bounds positions outside the block |
| MineGen.DrawStep | src/components/Board.jsx:88-96 | one pass of the loop: a draw remains, and the accepted set grows exactly when the draw is outside the block and new |
| MineGen.DrawStop | src/components/Board.jsx:88 | the loop stops with exactly `mines` indices (none when `mines` is not positive) |
| MineGen.GenerateMinePositions | src/components/Board.jsx:81-103 | returns exactly `mines` distinct in-bounds positions, none within one row and one column of the first click; they are the decoded indices accepted from the draws consumed, in insertion order, and the loop stopped at the first draw that completed the set |
| FloodFill.RevealSpec | src/components/Board.jsx:137-155 | defines one call's effect: only `isRevealed` changes, never on a flagged cell and never back; a no-op exactly when the target is off the board, revealed or flagged; the target opens first and every later cell next to an earlier zero-count cell; every opened zero-count cell has its neighbours opened or flagged; the revealed count grows by the cells opened |
| FloodFill.RevealIsLeast | src/components/Board.jsx:137-155 | every cell a reveal opens lies in every region around the target that is closed under spreading from zero-count cells |
| FloodFill.RevealIsClosed | src/components/Board.jsx:144-152 | the opened cells form such a closed region: each opened cell with count 0 leaves no hidden unflagged neighbour |
| FloodFill.RevealUnique | src/components/Board.jsx:137-155 | the reveal relation determines the resulting board and the set of opened cells |
| FloodFill.NoOtherMine | src/components/Board.jsx:144-152 | with correct counts, no opened cell other than the target is a mine |
| FloodFill.SafeRevealNoMine | src/components/Board.jsx:142-152 | revealing a safe cell on a board with correct counts uncovers no mine |
| FloodFill.FirstStep | src/components/Board.jsx:138-142 | revealing a hidden, unflagged target starts the call; when the target does not spread, that is the whole effect |
| BoardOps.Clone | src/components/Board.jsx:188 | the deep copy of the board: a fresh array holding exactly the board's cells |
| BoardOps.Store | src/components/Board.jsx:121 | writing one array cell changes exactly that cell of the board value |
| BoardOps.CountAround | src/components/Board.jsx:110-118 | the nested loops count exactly the mines among the in-bounds neighbours |
| BoardOps.CalculateAdjacentMines | src/components/Board.jsx:106-125 | the array becomes `WithAdjacency` of its old contents |
| BoardOps.PlaceMines | src/components/Board.jsx:128-134 | places `mines` distinct mines outside the first-click block, then sets the counts: the array becomes `WithAdjacency(WithMines(old board, positions))` |
| BoardOps.RevealAdjacentCells | src/components/Board.jsx:137-155 | the call satisfies `RevealSpec`: a no-op exactly when the target is off the board, revealed or flagged; otherwise it opens the target first and each later cell from an earlier zero-count neighbour. It never hides, flags or changes any other field, never opens a flagged cell, closes every zero-count cell it opens, and adds the number of opened cells to the revealed count |
| BoardOps.RevealRow | src/components/Board.jsx:146-150 | one row of the recursive calls around a zero-count cell handles that row's neighbours and keeps the call's invariants |
| BoardOps.CountRevealed | src/components/Board.jsx:196 | returns the number of revealed cells |
| BoardOps.Ended | src/components/Board.jsx:163-165 | defines one cell after endGame: a mine is revealed on a loss and flagged on a win, any other cell is kept |
| BoardOps.EndBoard | src/components/Board.jsx:161-167 | endGame's board: every cell as `Ended` leaves it, in the same shape; `EndLoss` and `EndWin` state its effect |
| BoardOps.MarkMines | src/components/Board.jsx:161-167 | on a loss reveals every mine, on a win flags every mine; no other cell changes |
| BoardOps.EndedCopy | src/components/Board.jsx:159-167 | the copy endGame stores is the board with its mines marked |
| BoardOps.StoredCopy | src/components/Board.jsx:210-221 | the copy handleRightClick stores differs from the board in the clicked cell only |
| Engine.Armed | src/components/Board.jsx:128-134 | on a pristine board: exactly the listed cells become mines, with count 0; every safe cell gets its true count; the mine count is the number of positions; nothing is revealed; the flags are unchanged |
| Engine.FirstClickSafe | src/components/Board.jsx:88-96 | after placement the first-clicked cell and all its neighbours hold no mine, so the clicked cell has count 0 and the reveal spreads |
| Engine.MineKept | src/components/Board.jsx:131-132 | after placement a cell is a mine exactly when it was one before or is listed |
| Engine.RevealOpensNeighbours | src/components/Board.jsx:144-152 | a reveal from a zero-count cell leaves every neighbour revealed or flagged |
| Engine.WinCondition | src/components/Board.jsx:202 | with no mine revealed, `revealedCount == rows * cols - mines` holds exactly when every safe cell is revealed |
| Engine.EndLoss | src/components/Board.jsx:161-167 | on a loss every mine becomes revealed and no other cell changes; the flags stay |
| Engine.EndWin | src/components/Board.jsx:161-167 | on a win every mine becomes flagged and no other cell changes; if every safe cell was revealed, the board is a won board |
| Engine.RevealKeeps | src/components/Board.jsx:137-155 | a reveal changes only `isRevealed`, so flags, mines and counts stay, and no flagged cell becomes revealed |
| Engine.LayoutKeeps | src/components/Board.jsx:137-167 | revealing and flagging keep the coordinates, the mine count and the correctness of the counts |
| Engine.RightClick | src/components/Board.jsx:208-219 | handleRightClick on values: the new board, of the same shape, and the new flag counter; `RightClickCounts` and `RightClickTwice` state its properties |
| Engine.RightClickCounts | src/components/Board.jsx:206-222 | the flag counter stays equal to the number of flags and within `0..mines`; a game that is over or a revealed cell is left unchanged; only the clicked cell's flag can change |
| Engine.RightClickTwice | src/components/Board.jsx:206-222 | toggling the same cell twice restores the board and the counter |
| Engine.BestTimeKey | src/components/Board.jsx:179 | the store key: `bestTime_` followed by the difficulty's name |
| Engine.BestTimeKeysDistinct | src/components/Board.jsx:179 | distinct difficulties have distinct keys, so each keeps its own best time |
| Engine.Finished | src/components/Board.jsx:170-176 | the game state endGame leaves: over and not running, won exactly on a win, seconds and revealed count kept, flags forced to `mines` on a win and kept on a loss |
| Engine.RecordBestTime | src/components/Board.jsx:178-182 | the key is stored with `seconds` when it is absent or the old time is larger; otherwise it keeps the old time; other keys are unchanged |
| Engine.NewGameConsistent | src/components/Board.jsx:47-59 | an empty board with a reset game state satisfies the game invariant |
| Engine.RightClickConsistent | src/components/Board.jsx:206-222 | a right click keeps the game invariant |
| Engine.ToggleKeeps | src/components/Board.jsx:213-219 | toggling the flag of one hidden cell keeps every board condition of a running game |
| Engine.ToggleConsistent | src/components/Board.jsx:213-219 | toggling a flag, with the counter following, keeps a running game consistent |
| Engine.ArmedConsistent | src/components/Board.jsx:190-193 | placing the mines on the first click starts a consistent running game |
| Engine.RevealConsistent | src/components/Board.jsx:195-199 | revealing a safe cell keeps a running game consistent, with `revealedCount` the new number of revealed cells |
| Engine.LossConsistent | src/components/Board.jsx:201 | revealing a mine and ending the game lost gives a consistent over state |
| Engine.WinConsistent | src/components/Board.jsx:202 | ending the game won once every safe cell is revealed gives a consistent won state with every flag placed |
| Engine.ClickArmed | src/components/Board.jsx:190-195 | the first click arms a consistent game and never lands on a mine |
| Engine.ClickConsistent | src/components/Board.jsx:186-203 | a click on a hidden, unflagged cell of a running or pristine game: the first click never hits a mine; a mine ends the game lost; revealing the last safe cell ends it won; any other reveal keeps the game running; each outcome is consistent |
| Engine.ClickCopy | src/components/Board.jsx:188-196 | the click's board work: on the first click mines are placed away from the clicked cell, then the reveal runs, and `count` is the number of revealed cells |
| Engine.Game.constructor | src/components/Board.jsx:13-30 | the initial game: beginner configuration, an empty 8 x 8 board, a reset game state and the stored best times; it is consistent |
| Engine.Game.NewGame | src/components/Board.jsx:47-59 | an empty board of the configured size and a reset game state, consistent |
| Engine.Game.HandleDifficultyChange | src/components/Board.jsx:239-247 | corrected: the configuration becomes `Settings.SelectDifficulty` of the old one (custom mines capped to 1..cap), then a new empty game of that size |
| Engine.Game.Reconfigure | src/components/Board.jsx:61-78 | a new configuration; the board and the game state are reset exactly when rows, columns or mines changed |
| Engine.Game.EditCustomRows | src/components/Board.jsx:274-280 | corrected: the configuration becomes `Settings.EditRows` of the old one (rows kept within 5..20), keeping the game invariant; the board and game state are kept when rows, cols and mines are unchanged and reset to a new empty game otherwise, as the effect on those three values does |
| Engine.Game.EditCustomCols | src/components/Board.jsx:290-295 | corrected: the configuration becomes `Settings.EditCols` of the old one (columns kept within 5..30), keeping the game invariant; the board and game state are kept when rows, cols and mines are unchanged and reset to a new empty game otherwise, as the effect on those three values does |
| Engine.Game.EditCustomMines | src/components/Board.jsx:305-309 | corrected: the configuration becomes `Settings.EditMines` of the old one (both mine fields kept within 1..cap), keeping the game invariant; the board and game state are kept when rows, cols and mines are unchanged and reset to a new empty game otherwise, as the effect on those three values does |
| Engine.Game.Tick | src/components/Board.jsx:225-231 | one timer tick adds a second while the game is running and changes nothing otherwise |
| Engine.Game.HandleRightClick | src/components/Board.jsx:206-222 | the board and flag counter become those of `RightClick`; every other part of the state is kept; the invariant holds |
| Engine.Game.EndGame | src/components/Board.jsx:158-183 | the board becomes the given board with its mines marked; the game is over and not running, won or lost as asked, with every flag placed on a win; on a win only, the best time is recorded |
| Engine.Game.HandleCellClick | src/components/Board.jsx:186-203 | a no-op once the game is over or on a flagged cell. Otherwise: the first click places `mines` mines away from the clicked cell and never hits a mine; the reveal runs and `revealedCount` becomes the number of revealed cells; the game is lost exactly when the clicked cell is a mine, and won exactly when `revealedCount == rows * cols - mines`; the invariant holds |
| Settings.Name | src/components/Board.jsx:6-8 | the difficulty's name used in the store key |
| Settings.InitialConfig | src/components/Board.jsx:13-19 | the initial configuration: the beginner preset, with the custom fields set to the same rows, columns and mines |
| Settings.Level | src/components/Board.jsx:5-9 | the presets: beginner 8 x 8 with 10 mines, intermediate 12 x 12 with 30, expert 16 x 16 with 60 |
| Settings.MineCap | src/components/Board.jsx:279 | the cap is the largest integer not above 35% of the cells |
| Settings.OrDefault | src/components/Board.jsx:276 | a missing or zero number falls back to the default; any other value is kept |
| Settings.SelectDifficultyAsWritten | src/components/Board.jsx:239-247 | a preset sets rows, columns and mines from the table; custom copies the custom fields as they are |
| Settings.EditRowsAsWritten | src/components/Board.jsx:274-280 | rows and custom rows follow the typed value (default 5); mines become the smaller of the custom mines and the cap of the new rows times the custom columns, negative when that product is |
| Settings.EditColsAsWritten | src/components/Board.jsx:290-295 | columns and custom columns follow the typed value (default 5); mines become the smaller of the custom mines and the cap of the custom rows times the new columns |
| Settings.EditMinesAsWritten | src/components/Board.jsx:305-309 | custom mines keep the typed value (default 1); mines become the smaller of it and the cap of the custom rows times the custom columns |
| Settings.CustomMinesUncapped | src/components/Board.jsx:241 | choosing custom after typing 100 mines gives 100 mines on an 8 x 8 board, where no draws can place them |
| Settings.CustomSizeUnclamped | src/components/Board.jsx:276-277 | typed rows 2 and columns 3 give a 2 x 3 board on which a first click at (0, 1) leaves no room for its 2 mines; typed mines -5 are kept, and typed rows -3 with 8 columns give -9 mines |
| Settings.SelectDifficulty | src/components/Board.jsx:239-247 | the corrected selection: presets as in the table; custom uses the custom size with mines between 1 and the cap |
| Settings.EditRows | src/components/Board.jsx:271-280 | the corrected rows input: the typed value is kept within 5..20 |
| Settings.EditCols | src/components/Board.jsx:287-295 | the corrected columns input: the typed value is kept within 5..30 |
| Settings.EditMines | src/components/Board.jsx:302-309 | the corrected mines input: the typed value is kept between 1 and the cap, in both fields |
| Settings.SelectKeepsOk | src/components/Board.jsx:239-247 | selecting a difficulty keeps the configuration valid |
| Settings.EditRowsKeepsOk | src/components/Board.jsx:274-280 | the corrected rows input keeps the configuration valid |
| Settings.EditColsKeepsOk | src/components/Board.jsx:290-295 | the corrected columns input keeps the configuration valid |
| Settings.EditMinesKeepsOk | src/components/Board.jsx:305-309 | the corrected mines input keeps the configuration valid |
| Settings.CapAtLeast8 | src/components/Board.jsx:303 | a board of at least 5 x 5 has a cap between 8 and its cell count minus 9 |
| Settings.MinesAlwaysFit | src/components/Board.jsx:81-103 | under a valid configuration the mines never outnumber the cells outside any first-click block, so some draws let mine generation finish |
| Settings.InitialOk | src/components/Board.jsx:13-19 | the initial configuration is valid |
| Clock.FormatTime | src/components/Board.jsx:233 | `formatTime`: at least five characters with ':' third from the end, exactly five below 100 minutes; `FormatTimeRoundTrip` states that it reads back |
| Clock.DecimalRoundTrip | src/components/Board.jsx:233 | reading back a number's decimal string gives the number |
| Clock.PadKeepsValue | src/components/Board.jsx:233 | padding with '0' to two characters keeps the value |
| Clock.FormatTimeRoundTrip | src/components/Board.jsx:233 | `formatTime(s)` is minutes, ':' and two digits of seconds below 60, which read back give `s`; below 100 minutes the result is five characters |

## Left out

- Rendering is not modelled: the JSX of `Board.jsx` and the components in
  `Cell.jsx`, `GameControls.jsx` and `GameStatus.jsx` only map state to
  markup.
- Settings.MineCap: computes the cap as the integer `(cells * 35) / 100`,
  not the floating-point `Math.floor(cells * 0.35)`. For boards up to
  20 x 30 the two differ only at 180, 340 and 360 cells, where the
  floating-point product falls just below the integer and the source's cap
  is one smaller.
- `Math.random` is not modelled. It becomes the `draws` parameter, and
  its distribution is not modelled.
- MineGen.GenerateMinePositions: may not run forever. The sampling loop
  ends only if the draws accept `mines` indices, and that is a
  precondition here.
- The browser's storage is the map `Game.bestTimes`, with times stored as
  integers. The conversions (`toString`, `parseInt`) are not modelled.
  A stored value that is not a number is not modelled either.
- The game state's `bestTime` field read at start-up is not modelled. It
  is only displayed.
- The timer's `setInterval`/`clearInterval` is not modelled. Each tick
  is one call of `Game.Tick`.
- React's scheduling is not modelled: batched `setState`, effects and
  stale closures. Each handler is one atomic transition with the net effect
  the component reaches.
  - Engine.Game.HandleDifficultyChange: stated as "new configuration, then
    an empty board of its size with a reset game state"; the render that
    first resets with the old size is not modelled.
  - Engine.Game.HandleCellClick: lets `endGame` see the clicked game's own
    `gameState.seconds`. The source reads it from the closure of the render
    that dispatched the click, which has the same value because a click
    does not change `seconds`.
- The JSON deep copies are not modelled as sharing. Each is a fresh array
  (`Clone`) whose final contents are stored back as a value.
- The component's first render, with an empty board before the effect
  fills it, is not modelled. `Game.constructor` is the state after that
  effect.
- Engine.Game.HandleDifficultyChange: uses the corrected
  `Settings.SelectDifficulty`, which caps custom mines to 1..cap; the
  source copies the custom mines unchecked (`Settings.SelectDifficultyAsWritten`).
- Engine.Game.EditCustomRows: uses the corrected `Settings.EditRows`, which
  keeps rows within 5..20; the source keeps any typed value
  (`Settings.EditRowsAsWritten`).
- Engine.Game.EditCustomCols: uses the corrected `Settings.EditCols`, which
  keeps columns within 5..30; the source keeps any typed value
  (`Settings.EditColsAsWritten`).
- Engine.Game.EditCustomMines: uses the corrected `Settings.EditMines`,
  which keeps both mine fields within 1..cap; the source stores the typed
  value (`Settings.EditMinesAsWritten`). These four keep the configuration
  valid; under the handlers as written a configuration can make mine
  generation loop forever (see Findings).
- Engine.Game.HandleCellClick: requires the click to be on the board,
  since the source indexes `board[row][col]` without a bounds check and
  rendering only produces on-board clicks.
- Engine.Game.HandleRightClick: requires the click to be on the board,
  for the same reason: the source indexes `board[row][col]` unchecked.

## Findings

| source | as written | input that shows it | evidently intended | confidence | as-written member | corrected member |
|---|---|---|---|---|---|---|
| src/components/Board.jsx:241, 307 | the mines input stores the typed number in `customMines` uncapped; choosing "custom" copies `customMines` into `mines` unchecked | choose custom, type 100 mines (`mines` becomes 22, `customMines` 100), choose custom again: 100 mines on 8 x 8, and the sampling loop never ends | custom mines stay between 1 and `floor(cells * 0.35)` | not executed | Settings.CustomMinesUncapped | Settings.SelectDifficulty |
| src/components/Board.jsx:276-277, 292-293, 307-308 | rows, columns and mines take any typed value; the limits 5..20, 5..30 and 1..cap exist only as input attributes | rows 2 and columns 3 give a 2 x 3 board with 2 mines; a first click at (0, 1) covers every cell, so no mine can be placed and the loop never ends; mines -5 are stored as -5, and rows -3 with 8 columns give mines -9 | rows in 5..20, columns in 5..30, mines between 1 and the cap | not executed | Settings.CustomSizeUnclamped | Settings.MinesAlwaysFit |
