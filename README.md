# Sudoku engine of sudoku_web

The web game `sudoku_web` creates Sudoku puzzles in three sizes: box size 2
(4 x 4 boards), 3 (9 x 9) and 4 (16 x 16). Its engine is the `Sudoku` class in
`sudoku_web/app.py`. It does four things:

- It generates a full grid. For box size 3 this uses a closed-form block
  pattern with random band and stack swaps. For the other sizes it runs the
  backtracking solver on an empty board.
- It keeps a copy of that grid as the solution.
- It blanks cells of the board according to the difficulty level.
- It answers whether a digit may go in a cell.

Two request handlers also contain logic that is modelled here:

- the full-board check of a submitted solution;
- the check of one placed digit against the known solution.

A board of box size `size` has side N = size * size, and 0 marks an empty
cell. The model is split into these modules:

| module | file | contents |
|---|---|---|
| `SudokuRules` | rules.dfy | Boards as values (`seq<seq<int>>`); the row, column and box constraints; what a solved grid is; `Placeable`, the legality of a digit in a cell. |
| `Boards` | boards.dfy | The engine's boards as `array2<int>`, and `Cells`, their value view. |
| `Solving` | solving.dfy | `Completes`, what a completion of a partial board is. The lemmas that make backtracking sound and complete. |
| `LatinPattern` | pattern.dfy | A solved grid for every box size, so the empty board has a completion. |
| `Generator3` | generator.dfy | The 9 x 9 generator: a shuffled base, blocks, band and stack swaps. Modelled on a 9 x 9 array and proved on values. |
| `Removal` | removal.dfy | The number of cells a level blanks, and the blanking loop as a function of the drawn coordinates. |
| `Engine` | engine.dfy | The `Sudoku` class: constructor, `GenerateBoard`, `SolveBoard`, `FindEmpty`, `IsValidMove`, `RemoveNumbers`. |
| `Checks` | checks.dfy | The full-board check and the single-cell check. |

The engine's random choices are passed in as a `Draws` value:

- the shuffles of the base matrix;
- the ten swaps;
- the stream of coordinates drawn for blanking.

The methods that change boards are specified against the value functions:

- `SolveBoard` against `Completes`;
- `RemoveNumbers` against `RemoveAlong`;
- the 9 x 9 build against `Blocks` and `ApplySwaps`.

Those functions' properties are proved as lemmas.

Two facts about the code shape the model:

- The count of blanked cells is `int(size^4 * fraction)`, which truncates.
  `Removal.CellsToRemove` is that floor.
- app.py:39 gives block (i, j) the offset `3*i + 3*j`. With it, every column
  of the 9 x 9 grid repeats a digit (see "## Findings"). The generator is
  modelled with the band offset as a parameter: `Generator3.BuildBoard(…,
  AsWrittenBandShift)` is the grid as written, and `Generator3.AsWrittenGenerated`
  proves it unsolved. The engine (`Engine.Sudoku.GenerateBoard`, and so the
  constructor) uses the corrected offset `i + 3*j`, `BandShift` = 1, and its
  solved-grid guarantee is about that corrected generator.

## Model

| member | source | states |
|---|---|---|
| `SudokuRules.NoRepeatsIffCellsOk` | sudoku_web/app.py:169-178 | No row, column or box repeats a value exactly when every cell differs from all of its peers. This is the per-cell form the full-board check tests. |
| `Engine.Sudoku.constructor` | sudoku_web/app.py:10-20 | The solution is a solved N x N grid (for box size 3, of the generator with the corrected band shift; see "## Left out"). The board is the solution after the removal loop ran over the draws. The board has exactly CellsToRemove(size, level) empty cells. Board and solution are distinct arrays. |
| `Boards.CopyBoard` | sudoku_web/app.py:19 | A fresh array with the same contents. |
| `Engine.Sudoku.KeepAndBlank` | sudoku_web/app.py:18-20 | The returned copy holds the full grid as it was. The grid itself is then blanked by the removal loop, and exactly CellsToRemove(size, level) of its cells end up empty. |
| `Engine.Sudoku.GenerateBoard` | sudoku_web/app.py:22-54 | Returns a fresh N x N grid that is a solved Sudoku for every draw. For box size 3 it is the block grid of the shuffled base with the drawn swaps applied (band shift corrected, see Findings). For sizes 2 and 4 it is the solver's completion of the empty board. |
| `Engine.Sudoku.SolveBoard` | sudoku_web/app.py:56-73 | On True, the board keeps every given, and every formerly empty cell holds a digit in 1..N that no peer repeats. On False, the board equals its input and no completion of the input exists. It terminates because each recursive call has one empty cell fewer. |
| `Engine.Sudoku.FindEmpty` | sudoku_web/app.py:75-86 | Returns Some((i, j)) with cell (i, j) empty and every cell before it in row-major order filled. Returns None exactly when no cell is empty. |
| `Engine.Sudoku.IsValidMove` | sudoku_web/app.py:88-112 | True exactly when `num` occurs nowhere in the row, the column or the box starting at (size*(row/size), size*(col/size)). The board is not modified. |
| `Engine.Sudoku.RemoveNumbers` | sudoku_web/app.py:114-132 | The board becomes RemoveAlong of its old value over the drawn coordinates, with CellsToRemove(size, level) cells to blank. |
| `Removal.CellsToRemove` | sudoku_web/app.py:121-126 | The count is the floor of size^4 * fraction, with fraction 0.3, 0.5 or 0.7 per level. It is below size^4, so a puzzle keeps at least one given. |
| `Removal.RemoveAlong` | sudoku_web/app.py:126-132 | A draw on a non-empty cell blanks it and counts down; a draw on an empty cell is skipped; the loop stops when the count reaches 0 or the draws run out. The board keeps its shape and the count never rises. |
| `Removal.RemoveAlongOnlyBlanks` | sudoku_web/app.py:127-132 | Every cell after removal keeps its value, or was non-empty and is now 0. |
| `Removal.RemoveAlongCount` | sudoku_web/app.py:127-132 | The number of cells blanked equals how far the counter went down. |
| `Removal.RemoveAlongFinishes` | sudoku_web/app.py:127-132 | The counter reaches 0 once the draws hit at least that many distinct non-empty cells. |
| `Removal.RemovalBlanksExactly` | sudoku_web/app.py:126-132 | On a full board, draws covering at least CellsToRemove distinct cells leave exactly that many empty cells. |
| `Removal.PuzzleCompletesToSolution` | sudoku_web/app.py:18-20 | Every non-empty cell of the puzzle equals the solution at the same coordinates. The solution is a completion of the puzzle. |
| `Removal.RemoveAlongHit` | sudoku_web/app.py:130-132 | A draw on a non-empty cell blanks it and counts one down. |
| `Removal.RemoveAlongMiss` | sudoku_web/app.py:130 | A draw on an empty cell changes nothing. |
| `Solving.PlacementCompletes` | sudoku_web/app.py:68-71 | A legal digit placed in the first empty cell, followed by a completion of the result, is a completion of the board before the placement. |
| `Solving.RefusedDigitInNoCompletion` | sudoku_web/app.py:68 | A digit refused by the legality check appears in that cell in no completion. |
| `Solving.CompletionKeepsPlacement` | sudoku_web/app.py:69-72 | A completion holding `num` at (row, col) also completes the board with `num` placed there. So a failed branch rules out `num` for every completion. |
| `Solving.FillShrinksZeroCells` | sudoku_web/app.py:69-70 | Filling an empty cell removes exactly that cell from the empty cells, which is the solver's termination measure. |
| `Solving.FullBoardCompletesItself` | sudoku_web/app.py:63-65 | A board with no empty cell is its own completion. |
| `Solving.CompletionsOfEmptyBoard` | sudoku_web/app.py:52-53 | The completions of the all-empty board are exactly the solved grids. |
| `Solving.CompletionIsSolved` | sudoku_web/app.py:56-73 | When the givens already respect the constraints, every completion is a solved grid. |
| `Solving.SolvedExtensionCompletes` | sudoku_web/app.py:56-73 | A solved grid that keeps the givens of a board is a completion of it. |
| `LatinPattern.PatternSolved` | sudoku_web/app.py:51-54 | For every box size there is a solved grid, so the empty board has a completion. The solver therefore succeeds on it. |
| `Generator3.BaseEntries` | sudoku_web/app.py:31-33 | Entry (r, c) of `Base(rowOrder, colOrder)` is the digit of row rowOrder[r] and column colOrder[c] of [[1,2,3],[4,5,6],[7,8,9]]: the rows are shuffled, then the rows of the transpose, which are the columns. So base column c holds digits congruent to colOrder[c] + 1 mod 3. |
| `Generator3.BaseDistinct` | sudoku_web/app.py:31-33 | The shuffled base holds each of 1..9 once. |
| `Generator3.FillBlocks` | sudoku_web/app.py:36-39 | After the nested loop, every cell of the 9 x 9 array holds its block value (base[x%3][y%3] + shift*(x/3) + 3*(y/3)) % 9 + 1. |
| `Generator3.SwapBandsInPlace` | sudoku_web/app.py:44-45 | Rows 3a..3a+2 and 3b..3b+2 trade places. Nothing else changes. |
| `Generator3.SwapStacksInPlace` | sudoku_web/app.py:47-48 | Columns 3a..3a+2 and 3b..3b+2 trade places. Nothing else changes. |
| `Generator3.BuildBoard` | sudoku_web/app.py:29-50 | The array becomes the block grid of the shuffled base with the drawn swaps applied first to last. |
| `Generator3.BlocksRowsAndBoxes` | sudoku_web/app.py:39 | For every band shift, the block grid holds digits 1..9, and every row and every box holds each digit once. |
| `Generator3.BlocksSolved` | sudoku_web/app.py:39 | With band shift 1, the block grid's columns are also distinct, so it is solved. |
| `Generator3.SwapPreserves` | sudoku_web/app.py:42-48 | One band or stack swap keeps the digit range and each of the row, column and box constraints. |
| `Generator3.SwapsPreserve` | sudoku_web/app.py:42-48 | Any sequence of swaps keeps the digit range and each of the three constraints. |
| `Generator3.SwapTwice` | sudoku_web/app.py:44-48 | A swap applied twice gives back the grid. |
| `Generator3.SwapsKeepColumnRepeat` | sudoku_web/app.py:42-48 | Swaps cannot mend a column that repeats a digit. |
| `Generator3.GeneratedSolved` | sudoku_web/app.py:29-50 | The corrected 9 x 9 grid is solved for every shuffle and swap draw. |
| `Generator3.AsWrittenColumnsRepeat` | sudoku_web/app.py:39 | With the formula as written, every column of the block grid repeats a digit, whatever the shuffles. |
| `Generator3.AsWrittenColumnZero` | sudoku_web/app.py:31-39 | With the unshuffled base, column 0 as written reads 2, 5, 8, 5, 8, 2, 8, 2, 5. |
| `Generator3.AsWrittenGenerated` | sudoku_web/app.py:22-50 | The grid as written, after any swaps, has valid rows and boxes, but some column repeats a digit, so it is not a solved grid. |
| `Checks.HasEmpty` | sudoku_web/app.py:165 | True exactly when some cell is 0. |
| `Checks.ClearedCellCheck` | sudoku_web/app.py:171-173 | With cell (i, j) cleared, the legality check of its own digit succeeds exactly when no peer repeats that digit. |
| `Checks.RecheckCell` | sudoku_web/app.py:171-176 | Clears a cell, re-checks its digit and puts it back. The board ends as it was, and the answer is whether no peer repeats the digit. |
| `Checks.CheckSolution` | sudoku_web/app.py:164-178 | Returns "not full" exactly when some cell is 0. Returns "solved" exactly when the board is full and no row, column or box repeats a value. On a conflict it returns (i+1, j+1), where (i, j) is the first cell in row-major order that a peer repeats. The board is unchanged in every case. |
| `Checks.OutOfRangeBoardAccepted` | sudoku_web/app.py:165-178 | The 4 x 4 board holding 1..16 row by row is full and repeats no value, so the full-board check reports it solved, though it is not a Sudoku grid: digits are never range-checked. |
| `Checks.CheckCell` | sudoku_web/app.py:219-224 | A digit outside 1..N is invalid input, whatever the solution holds. Otherwise the answer is correct exactly when the solution holds that digit at (row, col). |
| `Checks.CheckCellOnSolution` | sudoku_web/app.py:219-224 | On a solved grid, the check accepts exactly the solution's digit in each cell. Every given of a puzzle taken from the grid is accepted. |

## Findings

| source | as written | input that shows it | evidently intended | confidence | as-written member | corrected member |
|---|---|---|---|---|---|---|
| sudoku_web/app.py:39 | Block (i, j) is `(base + 3*i + 3*j) % 9 + 1`. The base columns hold values congruent mod 3, and adding 3*i keeps them so. Each column therefore holds only three distinct digits. | Unshuffled base: column 0 is 2, 5, 8, 5, 8, 2, 8, 2, 5. Every shuffle repeats a digit in every column. | A full, valid grid, as the docstring at app.py:24 says. The band shift 1, `(base + i + 3*j) % 9 + 1`, gives one. | not executed | `Generator3.AsWrittenGenerated` (with `Generator3.AsWrittenColumnsRepeat`, `Generator3.AsWrittenColumnZero`) | `Generator3.GeneratedSolved` (used by `Engine.Sudoku.GenerateBoard`) |

## Left out

- Flask setup, routes, templates, JSON requests and responses, and `app.run` (app.py:1-7, 134-150, 180-203, 226-227) are HTTP glue. `get_solution` only calls the generator and `solve_board`, which are modelled.
- Random shuffles, swap choices and sampled coordinates (app.py:32-33, 43-47, 128-129) are not generated. They are supplied as `Engine.Draws`.
- Engine.Sudoku.constructor requires the drawn coordinates to hit at least CellsToRemove distinct cells. The engine instead keeps sampling until enough cells are blank. That loop's termination depends on randomness and is not modelled.
- Engine.Sudoku.RemoveNumbers also stops when the finite stream of draws runs out. The engine's loop never stops that way.
- Removal.CellsToRemove uses exact tenths, not the floating-point fractions 0.3, 0.5 and 0.7. For box sizes 2 to 4 the products with 0.5 (8, 40.5, 128) are exact in binary floating point, and the products with 0.3 and 0.7 (4.8, 24.3, 76.8, 11.2, 56.7, 179.2) all lie at least 0.2 from an integer, so rounding error cannot move `int()` and it yields the same counts.
- Size inference by `int(len(board) ** 0.5)` (app.py:161, 217) is not modelled. The checks take the box size as a parameter. `CheckSolution` takes it from a `Sudoku` object, as the handler does.
- Checks.CheckSolution does not model the throwaway new game built at app.py:162. Only that object's box size is used, so the model receives an existing `Sudoku`.
- Checks.CheckSolution requires a square N x N board. Ragged or mis-sized boards from a request are not modelled.
- Checks.CheckCell requires row and col inside the solution. Python's negative indices and out-of-range errors on request data are not modelled.
- Engine.Sudoku.GenerateBoard / Engine.Sudoku.constructor: for box size 3 they build the grid with band shift 1 instead of the 3 written at app.py:39, so their solved-grid guarantee holds of the corrected generator, not of the code as written. The grid as written is `Generator3.BuildBoard(…, AsWrittenBandShift)`, which `Generator3.AsWrittenGenerated` proves unsolved (some column repeats a digit).
- Removal.CellsToRemove / Engine.Sudoku.RemoveNumbers: a level string other than 'easy', 'medium' or 'hard' raises KeyError at app.py:126; the `Level` type has only those three values and so rules this case out.
- Checks.CheckSolution does not range-check digits, as the handler does not: a full board whose values never repeat is reported solved even with values outside 1..N (`Checks.OutOfRangeBoardAccepted`).
- The `level` argument of `generate_board` is unused by the code and does not appear in `Engine.Sudoku.GenerateBoard`.
- numpy arrays, slices and `.copy()` (app.py:36-50) are modelled directly as a 9 x 9 `array2` with row and column swaps.
- The solver's exponential worst-case running time is a performance concern and is not modelled.
- Engine.Sudoku.constructor does not state cellwise that the board keeps the solution's values. That follows from its `RemoveAlong` ensures together with `Removal.RemoveAlongOnlyBlanks` and `Removal.PuzzleCompletesToSolution`.
