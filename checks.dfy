/**
 * The two checks the web layer offers on a player's board: the full-board
 * check of a submitted solution and the check of one placed digit against the
 * known solution.
 */
module Checks {
  import opened SudokuRules
  import opened Boards
  import opened Engine

  /** The answer of the full-board check. Conflicts are reported 1-indexed. */
  datatype Verdict = NotFull | Conflict(row: int, col: int) | Solved

  /** `any(0 in row for row in board)`. */
  function HasEmpty(g: Grid): (r: bool)
    ensures r <==> exists i, j :: 0 <= i < |g| && 0 <= j < |g[i]| && g[i][j] == 0
  {
    if exists i :: 0 <= i < |g| && 0 in g[i] then
      var i :| 0 <= i < |g| && 0 in g[i];
      assert exists j :: 0 <= j < |g[i]| && g[i][j] == 0;
      true
    else
      false
  }

  /**
   * With cell (i, j) cleared, the legality check of its own digit succeeds
   * exactly when no peer of the cell holds that digit.
   */
  lemma {:induction false} ClearedCellCheck(g: Grid, size: nat, i: int, j: int)
    requires size > 0 && IsBoard(g, size) && 0 <= i < |g| && 0 <= j < |g| && g[i][j] != 0
    ensures Placeable(Place(g, i, j, 0), size, i, j, g[i][j]) <==> CellOk(g, size, i, j)
  {
    var h := Place(g, i, j, 0);
    if Placeable(h, size, i, j, g[i][j]) {
      forall i2, j2 | 0 <= i2 < |g| && 0 <= j2 < |g| && Peers(size, i, j, i2, j2)
        ensures g[i2][j2] != g[i][j]
      {
        assert h[i2][j2] == g[i2][j2];
      }
    }
    if CellOk(g, size, i, j) {
      forall i2, j2 | 0 <= i2 < |h| && 0 <= j2 < |h| && (i2 == i || j2 == j || SameBox(size, i2, j2, i, j))
        ensures h[i2][j2] != g[i][j]
      {
        if i2 != i || j2 != j {
          assert Peers(size, i, j, i2, j2);
        }
      }
    }
  }

  /**
   * One step of the full-board check (app.py:171-176): clear cell (i, j),
   * re-check its digit, put it back. Reports whether no peer repeats it.
   */
  method RecheckCell(board: array2<int>, sudoku: Sudoku, i: int, j: int) returns (ok: bool)
    requires sudoku.size > 0 && board.Length0 == sudoku.size * sudoku.size && board.Length1 == sudoku.size * sudoku.size
    requires 0 <= i < board.Length0 && 0 <= j < board.Length1 && board[i, j] != 0
    modifies board
    ensures Cells(board) == old(Cells(board))
    ensures ok <==> CellOk(Cells(board), sudoku.size, i, j)
  {
    ghost var g := Cells(board);
    var num := board[i, j];
    SetCell(board, i, j, 0);
    ClearedCellCheck(g, sudoku.size, i, j);
    ok := sudoku.IsValidMove(board, i, j, num);
    SetCell(board, i, j, num);
    PlaceBack(g, i, j, 0);
  }

  /**
   * The full-board check (app.py:164-178). A board with an empty cell is
   * refused as not full. Otherwise each cell in row-major order is cleared,
   * its digit re-checked against the rest of the board and put back; the
   * first cell whose digit a peer repeats is reported as (row + 1, col + 1).
   * The board holds its original values afterwards in every case.
   *
   * Digits are not range-checked: a full board whose values never repeat
   * counts as solved even when some value lies outside 1..N (see
   * `OutOfRangeBoardAccepted`).
   */
  method CheckSolution(board: array2<int>, sudoku: Sudoku) returns (v: Verdict)
    requires sudoku.size > 0 && board.Length0 == sudoku.size * sudoku.size && board.Length1 == sudoku.size * sudoku.size
    modifies board
    ensures Cells(board) == old(Cells(board))
    ensures v == NotFull <==> HasEmpty(Cells(board))
    ensures v == Solved <==> !HasEmpty(Cells(board)) && NoRepeats(Cells(board), sudoku.size)
    ensures v.Conflict? ==>
              1 <= v.row <= sudoku.size * sudoku.size && 1 <= v.col <= sudoku.size * sudoku.size &&
              !CellOk(Cells(board), sudoku.size, v.row - 1, v.col - 1) &&
              forall i, j ::
                0 <= i < sudoku.size * sudoku.size && 0 <= j < sudoku.size * sudoku.size && RowMajorBefore((i, j), (v.row - 1, v.col - 1))
                ==> CellOk(Cells(board), sudoku.size, i, j)
  {
    var size, n := sudoku.size, sudoku.size * sudoku.size;
    if HasEmpty(Cells(board)) {
      return NotFull;
    }
    ghost var g := Cells(board);
    for i := 0 to n
      invariant Cells(board) == g
      invariant forall i2, j2 :: 0 <= i2 < i && 0 <= j2 < n ==> CellOk(g, size, i2, j2)
    {
      for j := 0 to n
        invariant Cells(board) == g
        invariant forall i2, j2 :: 0 <= i2 < i && 0 <= j2 < n ==> CellOk(g, size, i2, j2)
        invariant forall j2 :: 0 <= j2 < j ==> CellOk(g, size, i, j2)
      {
        assert g[i][j] != 0;
        var ok := RecheckCell(board, sudoku, i, j);
        if !ok {
          return Conflict(i + 1, j + 1);
        }
      }
    }
    NoRepeatsIffCellsOk(g, size);
    assert IsBoard(g, size);
    return Solved;
  }

  /** The 4 x 4 board holding 1..16 row by row. */
  function CountingBoard(): (g: Grid)
    ensures IsBoard(g, 2)
    ensures forall i, j :: 0 <= i < 4 && 0 <= j < 4 ==> g[i][j] == 4 * i + j + 1
  {
    seq(4, i requires 0 <= i < 4 => seq(4, j requires 0 <= j < 4 => 4 * i + j + 1))
  }

  /**
   * The full-board check does not range-check digits: the 4 x 4 board holding
   * 1..16 is full and repeats no value, so it is reported as solved, yet it
   * is not a Sudoku grid.
   */
  lemma OutOfRangeBoardAccepted()
    ensures var g := CountingBoard();
            !HasEmpty(g) && NoRepeats(g, 2) && !IsSolvedGrid(g, 2)
  {
    var g := CountingBoard();
    assert g[3][3] == 16;
    forall i1, j1, i2, j2 | 0 <= i1 < 4 && 0 <= j1 < 4 && 0 <= i2 < 4 && 0 <= j2 < 4 && (i1 != i2 || j1 != j2)
      ensures g[i1][j1] != g[i2][j2]
    {
    }
  }

  /** The answer of the single-cell check. */
  datatype CellVerdict = InvalidNumber | Correct | Incorrect

  /**
   * The single-cell check (app.py:219-224): a digit outside 1..N is refused
   * as invalid input whatever the solution holds; otherwise the answer is
   * whether the solution holds that digit at (row, col).
   */
  function CheckCell(row: int, col: int, num: int, solution: Grid, size: nat): (r: CellVerdict)
    requires |solution| == size * size && 0 <= row < |solution| && 0 <= col < |solution[row]|
    ensures r == InvalidNumber <==> num < 1 || num > size * size
    ensures r == Correct <==> 1 <= num <= size * size && solution[row][col] == num
    ensures r == Incorrect <==> 1 <= num <= size * size && solution[row][col] != num
  {
    if num < 1 || num > size * size then InvalidNumber
    else if solution[row][col] == num then Correct
    else Incorrect
  }

  /**
   * On a solved grid, each cell accepts exactly one digit, the one the
   * solution holds, and every given of a puzzle taken from it is accepted.
   */
  lemma CheckCellOnSolution(solution: Grid, puzzle: Grid, size: nat, row: int, col: int)
    requires size > 0 && IsSolvedGrid(solution, size) && 0 <= row < |solution| && 0 <= col < |solution|
    requires IsBoard(puzzle, size)
    requires forall i, j :: 0 <= i < |puzzle| && 0 <= j < |puzzle| ==> puzzle[i][j] == 0 || puzzle[i][j] == solution[i][j]
    ensures CheckCell(row, col, solution[row][col], solution, size) == Correct
    ensures forall num :: CheckCell(row, col, num, solution, size) == Correct ==> num == solution[row][col]
    ensures puzzle[row][col] != 0 ==> CheckCell(row, col, puzzle[row][col], solution, size) == Correct
  {
  }
}
