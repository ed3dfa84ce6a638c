/**
 * Boards of the Sudoku engine as values, the three Sudoku constraints, and
 * what it means for a digit to be placeable in a cell.
 *
 * A board of box size `size` has side N = size * size; a cell holds 0 when it
 * is empty and a digit otherwise.
 */
module SudokuRules {

  /** A board as rows of cell values; 0 marks an empty cell. */
  type Grid = seq<seq<int>>

  datatype Option<T> = None | Some(value: T)

  /** The box sizes the engine offers: 4x4, 9x9 and 16x16 boards. */
  predicate SupportedSize(size: int) {
    2 <= size <= 4
  }

  /** `g` is an N x N board, N = size * size. */
  predicate IsBoard(g: Grid, size: nat) {
    |g| == size * size && forall i :: 0 <= i < |g| ==> |g[i]| == size * size
  }

  /** Rows (or columns) `x` and `y` lie in the same band of boxes. */
  predicate SameBand(size: nat, x: int, y: int)
    requires size > 0
  {
    x / size == y / size
  }

  /** Cells (i1, j1) and (i2, j2) lie in the same size x size box. */
  predicate SameBox(size: nat, i1: int, j1: int, i2: int, j2: int)
    requires size > 0
  {
    SameBand(size, i1, i2) && SameBand(size, j1, j2)
  }

  /** Two different cells that share a row, a column or a box. */
  predicate Peers(size: nat, i1: int, j1: int, i2: int, j2: int)
    requires size > 0
  {
    (i1 != i2 || j1 != j2) && (i1 == i2 || j1 == j2 || SameBox(size, i1, j1, i2, j2))
  }

  /** No value occurs twice in one row. */
  ghost predicate RowsDistinct(g: Grid) {
    forall i, j1, j2 :: 0 <= i < |g| && 0 <= j1 < j2 < |g[i]| ==> g[i][j1] != g[i][j2]
  }

  /** No value occurs twice in one column. */
  ghost predicate ColsDistinct(g: Grid) {
    forall i1, i2, j :: 0 <= i1 < i2 < |g| && 0 <= j < |g[i1]| && j < |g[i2]| ==> g[i1][j] != g[i2][j]
  }

  /** No value occurs twice in one box. */
  ghost predicate BoxesDistinct(g: Grid, size: nat)
    requires size > 0
  {
    forall i1, j1, i2, j2 {:trigger SameBox(size, i1, j1, i2, j2)} ::
      0 <= i1 < |g| && 0 <= j1 < |g[i1]| && 0 <= i2 < |g| && 0 <= j2 < |g[i2]| &&
      (i1 != i2 || j1 != j2) && SameBox(size, i1, j1, i2, j2)
      ==> g[i1][j1] != g[i2][j2]
  }

  /** The three Sudoku constraints: no repeat in any row, column or box. */
  ghost predicate NoRepeats(g: Grid, size: nat)
    requires size > 0
  {
    RowsDistinct(g) && ColsDistinct(g) && BoxesDistinct(g, size)
  }

  /** Every cell holds a digit 1..N. */
  ghost predicate AllDigits(g: Grid, size: nat) {
    forall i, j :: 0 <= i < |g| && 0 <= j < |g[i]| ==> 1 <= g[i][j] <= size * size
  }

  /** A complete, valid Sudoku grid: every row, column and box holds each of 1..N once. */
  ghost predicate IsSolvedGrid(g: Grid, size: nat)
    requires size > 0
  {
    IsBoard(g, size) && AllDigits(g, size) && NoRepeats(g, size)
  }

  /** No peer of cell (i, j) holds the value that (i, j) holds. */
  ghost predicate CellOk(g: Grid, size: nat, i: int, j: int)
    requires size > 0 && 0 <= i < |g| && 0 <= j < |g[i]|
  {
    forall i2, j2 :: 0 <= i2 < |g| && 0 <= j2 < |g[i2]| && Peers(size, i, j, i2, j2) ==> g[i2][j2] != g[i][j]
  }

  /** The board `g` with cell (i, j) set to `v`. */
  function Place(g: Grid, i: int, j: int, v: int): (h: Grid)
    requires 0 <= i < |g| && 0 <= j < |g[i]|
    ensures |h| == |g| && forall k :: 0 <= k < |g| ==> |h[k]| == |g[k]|
  {
    g[i := g[i][j := v]]
  }

  /** Cell `a` comes before cell `b` when the board is read row by row. */
  predicate RowMajorBefore(a: (int, int), b: (int, int)) {
    a.0 < b.0 || (a.0 == b.0 && a.1 < b.1)
  }

  // ---------------------------------------------------------------------
  // Box bands

  /** Band x / size starts at row (or column) size * (x / size) and spans size of them, inside the board. */
  lemma BandBounds(size: nat, x: nat)
    requires size > 0
    ensures 0 <= size * (x / size) <= x < size * (x / size) + size
    ensures size * size > x ==> size * (x / size) + size <= size * size
  {
    var q, r := x / size, x % size;
    assert x == size * q + r;
    MulMonotone(size, 0, q);
    if size * size > x && q >= size {
      MulMonotone(size, size, q);
      assert false;
    }
    if size * size > x {
      assert q <= size - 1;
      MulMonotone(size, q, size - 1);
      assert size * (size - 1) == size * size - size;
    }
  }

  /** The rows (or columns) of x's band are exactly those in the same band as x. */
  lemma BandRange(size: nat, x: nat)
    requires size > 0
    ensures forall y: int :: 0 <= y ==> (size * (x / size) <= y < size * (x / size) + size <==> SameBand(size, x, y))
  {
    forall y: int | 0 <= y
      ensures size * (x / size) <= y < size * (x / size) + size <==> SameBand(size, x, y)
    {
      var q := x / size;
      if size * q <= y < size * q + size {
        DivModUnique(size, q, y - size * q, y / size, y % size);
      }
      if SameBand(size, x, y) {
        assert y == size * (y / size) + y % size;
      }
    }
  }

  // ---------------------------------------------------------------------
  // Legality of a move

  /** `num` occurs nowhere in row `row`, column `col` or the box of (row, col). */
  ghost predicate Placeable(g: Grid, size: nat, row: int, col: int, num: int)
    requires size > 0
  {
    forall i, j ::
      0 <= i < |g| && 0 <= j < |g[i]| && (i == row || j == col || SameBox(size, i, j, row, col))
      ==> g[i][j] != num
  }

  // ---------------------------------------------------------------------
  // The constraints cell by cell

  /** The three constraints hold exactly when every cell differs from all its peers. */
  lemma NoRepeatsIffCellsOk(g: Grid, size: nat)
    requires size > 0 && IsBoard(g, size)
    ensures NoRepeats(g, size) <==>
            forall i, j :: 0 <= i < |g| && 0 <= j < |g| ==> CellOk(g, size, i, j)
  {
    var n := size * size;
    if NoRepeats(g, size) {
      forall i, j | 0 <= i < n && 0 <= j < n ensures CellOk(g, size, i, j) {
        forall i2, j2 | 0 <= i2 < n && 0 <= j2 < n && Peers(size, i, j, i2, j2)
          ensures g[i2][j2] != g[i][j]
        {
          if i == i2 {
            if j < j2 { assert g[i][j] != g[i][j2]; } else { assert g[i][j2] != g[i][j]; }
          } else if j == j2 {
            if i < i2 { assert g[i][j] != g[i2][j]; } else { assert g[i2][j] != g[i][j]; }
          } else {
            assert SameBox(size, i, j, i2, j2);
          }
        }
      }
    }
    if forall i, j :: 0 <= i < n && 0 <= j < n ==> CellOk(g, size, i, j) {
      forall i, j1, j2 | 0 <= i < n && 0 <= j1 < j2 < n ensures g[i][j1] != g[i][j2] {
        assert CellOk(g, size, i, j1) && Peers(size, i, j1, i, j2);
      }
      forall i1, i2, j | 0 <= i1 < i2 < n && 0 <= j < n ensures g[i1][j] != g[i2][j] {
        assert CellOk(g, size, i1, j) && Peers(size, i1, j, i2, j);
      }
      forall i1, j1, i2, j2 | 0 <= i1 < n && 0 <= j1 < n && 0 <= i2 < n && 0 <= j2 < n &&
                              (i1 != i2 || j1 != j2) && SameBox(size, i1, j1, i2, j2)
        ensures g[i1][j1] != g[i2][j2]
      {
        assert CellOk(g, size, i1, j1) && Peers(size, i1, j1, i2, j2);
      }
    }
  }

  // ---------------------------------------------------------------------
  // Arithmetic used by the box computations

  lemma MulMonotone(n: nat, a: int, b: int)
    requires a <= b
    ensures n * a <= n * b
  {
    assert n * b - n * a == n * (b - a);
  }

  /** Euclidean division by n > 0 has a single quotient and remainder. */
  lemma DivModUnique(n: int, q1: int, r1: int, q2: int, r2: int)
    requires n > 0 && 0 <= r1 < n && 0 <= r2 < n && n * q1 + r1 == n * q2 + r2
    ensures q1 == q2 && r1 == r2
  {
    if q1 < q2 {
      MulMonotone(n, q1 + 1, q2);
      assert false;
    } else if q2 < q1 {
      MulMonotone(n, q2 + 1, q1);
      assert false;
    }
  }

  /** Adding two different offsets below n to k gives different residues mod n. */
  lemma ModInjective(k: int, a: int, b: int, n: int)
    requires n > 0 && 0 <= a < n && 0 <= b < n && a != b
    ensures (k + a) % n != (k + b) % n
  {
    if (k + a) % n == (k + b) % n {
      var qa, qb, m := (k + a) / n, (k + b) / n, (k + a) % n;
      assert k + a == n * qa + m;
      assert k + b == n * qb + m;
      if qa < qb {
        MulMonotone(n, qa + 1, qb);
        assert false;
      } else if qb < qa {
        MulMonotone(n, qb + 1, qa);
        assert false;
      }
    }
  }
}
