/**
 * What the backtracking solver searches for, and the facts about single
 * placements that its correctness rests on.
 */
module Solving {
  import opened SudokuRules

  /**
   * `f` completes the puzzle `b`: every given (non-zero) cell of `b` keeps its
   * value, and every empty cell of `b` holds a digit 1..N that no peer of it
   * holds in `f`. These are the boards the backtracking search can reach and
   * accept; givens that clash with each other are not checked by it.
   */
  ghost predicate Completes(b: Grid, f: Grid, size: nat)
    requires size > 0
  {
    IsBoard(b, size) && IsBoard(f, size) &&
    (forall i, j :: 0 <= i < |b| && 0 <= j < |b| && b[i][j] != 0 ==> f[i][j] == b[i][j]) &&
    (forall i, j :: 0 <= i < |b| && 0 <= j < |b| && b[i][j] == 0 ==> 1 <= f[i][j] <= size * size && CellOk(f, size, i, j))
  }

  /** The empty cells of `g`. */
  ghost function ZeroCells(g: Grid): set<(int, int)> {
    set i, j | 0 <= i < |g| && 0 <= j < |g[i]| && g[i][j] == 0 :: (i, j)
  }

  /** Filling an empty cell leaves strictly fewer empty cells. */
  lemma FillShrinksZeroCells(g: Grid, i: int, j: int, v: int)
    requires 0 <= i < |g| && 0 <= j < |g[i]| && g[i][j] == 0 && v != 0
    ensures ZeroCells(Place(g, i, j, v)) == ZeroCells(g) - {(i, j)}
    ensures ZeroCells(Place(g, i, j, v)) < ZeroCells(g)
  {
    var h := Place(g, i, j, v);
    assert (i, j) in ZeroCells(g);
    forall p | p in ZeroCells(g) - {(i, j)} ensures p in ZeroCells(h) {
      assert h[p.0][p.1] == g[p.0][p.1];
    }
  }

  /** A board without empty cells completes itself. */
  lemma FullBoardCompletesItself(b: Grid, size: nat)
    requires size > 0 && IsBoard(b, size)
    requires forall i, j :: 0 <= i < |b| && 0 <= j < |b| ==> b[i][j] != 0
    ensures Completes(b, b, size)
  {
  }

  /**
   * A completion of `b` whose value at the empty cell (row, col) is `num`
   * also completes `b` with `num` placed there.
   */
  lemma CompletionKeepsPlacement(b: Grid, size: nat, row: int, col: int, num: int, f: Grid)
    requires size > 0 && 0 <= row < |b| && 0 <= col < |b[row]| && b[row][col] == 0
    requires Completes(b, f, size) && f[row][col] == num
    ensures Completes(Place(b, row, col, num), f, size)
  {
  }

  /**
   * Placing a legal digit in an empty cell and completing the result
   * completes the original board: the new digit differs from the givens by
   * the legality check and from every later filled cell by that cell's own
   * check.
   */
  lemma {:induction false} PlacementCompletes(b: Grid, size: nat, row: int, col: int, num: int, f: Grid)
    requires size > 0 && IsBoard(b, size) && 0 <= row < |b| && 0 <= col < |b| && b[row][col] == 0
    requires 1 <= num <= size * size && Placeable(b, size, row, col, num)
    requires Completes(Place(b, row, col, num), f, size)
    ensures Completes(b, f, size)
  {
    var b' := Place(b, row, col, num);
    var n := size * size;
    forall i, j | 0 <= i < n && 0 <= j < n && b[i][j] == 0
      ensures 1 <= f[i][j] <= n && CellOk(f, size, i, j)
    {
      if i != row || j != col {
        assert b'[i][j] == 0;
      } else {
        forall i2, j2 | 0 <= i2 < n && 0 <= j2 < n && Peers(size, row, col, i2, j2)
          ensures f[i2][j2] != f[row][col]
        {
          if b[i2][j2] != 0 {
            assert b'[i2][j2] == b[i2][j2];
            assert i2 == row || j2 == col || SameBox(size, i2, j2, row, col);
          } else {
            assert b'[i2][j2] == 0;
            assert CellOk(f, size, i2, j2);
            assert Peers(size, i2, j2, row, col);
          }
        }
      }
    }
    forall i, j | 0 <= i < n && 0 <= j < n && b[i][j] != 0 ensures f[i][j] == b[i][j] {
      assert b'[i][j] == b[i][j];
    }
  }

  /**
   * A digit that the legality check refuses at the empty cell (row, col) is
   * the value of that cell in no completion.
   */
  lemma {:induction false} RefusedDigitInNoCompletion(b: Grid, size: nat, row: int, col: int, num: int, f: Grid)
    requires size > 0 && IsBoard(b, size) && 0 <= row < |b| && 0 <= col < |b| && b[row][col] == 0
    requires num != 0 && !Placeable(b, size, row, col, num)
    requires Completes(b, f, size)
    ensures f[row][col] != num
  {
    var i, j :| 0 <= i < |b| && 0 <= j < |b[i]| &&
                (i == row || j == col || SameBox(size, i, j, row, col)) && b[i][j] == num;
    assert Peers(size, row, col, i, j);
    assert CellOk(f, size, row, col);
  }

  /** On the all-empty board, the completions are exactly the solved grids. */
  lemma {:induction false} CompletionsOfEmptyBoard(b: Grid, f: Grid, size: nat)
    requires size > 0 && IsBoard(b, size) && IsBoard(f, size)
    requires forall i, j :: 0 <= i < |b| && 0 <= j < |b| ==> b[i][j] == 0
    ensures Completes(b, f, size) <==> IsSolvedGrid(f, size)
  {
    NoRepeatsIffCellsOk(f, size);
  }

  /** The givens (non-zero cells) of `b` are digits 1..N and no peer of a given repeats it. */
  ghost predicate GivensConsistent(b: Grid, size: nat)
    requires size > 0
  {
    forall i, j :: 0 <= i < |b| && 0 <= j < |b[i]| && b[i][j] != 0 ==> 1 <= b[i][j] <= size * size && CellOk(b, size, i, j)
  }

  /**
   * When the givens do not clash, every completion is a solved grid; so a
   * board the solver fills in is solved.
   */
  lemma {:induction false} CompletionIsSolved(b: Grid, f: Grid, size: nat)
    requires size > 0 && Completes(b, f, size) && GivensConsistent(b, size)
    ensures IsSolvedGrid(f, size)
  {
    var n := size * size;
    forall i, j | 0 <= i < n && 0 <= j < n ensures CellOk(f, size, i, j) {
      if b[i][j] != 0 {
        forall i2, j2 | 0 <= i2 < n && 0 <= j2 < n && Peers(size, i, j, i2, j2)
          ensures f[i2][j2] != f[i][j]
        {
          if b[i2][j2] != 0 {
            assert CellOk(b, size, i, j);
          } else {
            assert CellOk(f, size, i2, j2) && Peers(size, i2, j2, i, j);
          }
        }
      }
    }
    NoRepeatsIffCellsOk(f, size);
  }

  /**
   * A solved grid that keeps every given of `b` completes `b`; so when the
   * solver reports failure, no solved grid extends the board.
   */
  lemma {:induction false} SolvedExtensionCompletes(b: Grid, f: Grid, size: nat)
    requires size > 0 && IsBoard(b, size) && IsSolvedGrid(f, size)
    requires forall i, j :: 0 <= i < |b| && 0 <= j < |b| && b[i][j] != 0 ==> f[i][j] == b[i][j]
    ensures Completes(b, f, size)
  {
    NoRepeatsIffCellsOk(f, size);
  }
}
