/**
 * A solved grid of every box size: the classic shifted pattern in which row
 * x = size * q + a holds (size * a + q + y) % N + 1 in column y. It shows that
 * the all-empty board has a completion, so the backtracking solver succeeds on
 * it.
 */
module LatinPattern {
  import opened SudokuRules

  /** The pattern value of cell (x, y). */
  function PatternValue(size: nat, x: int, y: int): int
    requires size > 0
  {
    (size * (x % size) + x / size + y) % (size * size) + 1
  }

  function PatternGrid(size: nat): (g: Grid)
    requires size > 0
    ensures IsBoard(g, size)
  {
    seq(size * size, x requires 0 <= x < size * size =>
      seq(size * size, y requires 0 <= y < size * size => PatternValue(size, x, y)))
  }

  /** x < N splits into band x / size and offset x % size, both below size. */
  lemma Split(size: nat, x: int) returns (q: int, a: int)
    requires size > 0 && 0 <= x < size * size
    ensures q == x / size && a == x % size
    ensures 0 <= q < size && 0 <= a < size && x == size * q + a
  {
    q, a := x / size, x % size;
    BandBounds(size, x);
  }

  /** For 0 <= a, b < size, the key size * a + b lies in 0 .. N-1. */
  lemma KeyBound(size: nat, a: int, b: int)
    requires 0 <= a < size && 0 <= b < size
    ensures 0 <= size * a + b < size * size
  {
    MulMonotone(size, a, size - 1);
    assert size * (size - 1) == size * size - size;
  }

  /** Different rows have different keys size * (x % size) + x / size. */
  lemma RowKeyInjective(size: nat, x1: int, x2: int)
    requires size > 0 && 0 <= x1 < size * size && 0 <= x2 < size * size && x1 != x2
    ensures size * (x1 % size) + x1 / size != size * (x2 % size) + x2 / size
  {
    var q1, a1 := Split(size, x1);
    var q2, a2 := Split(size, x2);
    if size * a1 + q1 == size * a2 + q2 {
      DivModUnique(size, a1, q1, a2, q2);
      assert false;
    }
  }

  lemma {:induction false} PatternSolved(size: nat)
    requires size > 0
    ensures IsSolvedGrid(PatternGrid(size), size)
  {
    var g, n := PatternGrid(size), size * size;
    forall x, y | 0 <= x < n && 0 <= y < n ensures 1 <= g[x][y] <= n {
    }
    forall x, y1, y2 | 0 <= x < n && 0 <= y1 < y2 < n ensures g[x][y1] != g[x][y2] {
      var q, a := Split(size, x);
      ModInjective(size * a + q, y1, y2, n);
    }
    forall x1, x2, y | 0 <= x1 < x2 < n && 0 <= y < n ensures g[x1][y] != g[x2][y] {
      var q1, a1 := Split(size, x1);
      var q2, a2 := Split(size, x2);
      KeyBound(size, a1, q1);
      KeyBound(size, a2, q2);
      RowKeyInjective(size, x1, x2);
      ModInjective(y, size * a1 + q1, size * a2 + q2, n);
    }
    forall x1, y1, x2, y2 | 0 <= x1 < n && 0 <= y1 < n && 0 <= x2 < n && 0 <= y2 < n &&
                            (x1 != x2 || y1 != y2) && SameBox(size, x1, y1, x2, y2)
      ensures g[x1][y1] != g[x2][y2]
    {
      BoxCellsDiffer(size, x1, y1, x2, y2);
    }
  }

  /** Inside one box, the pattern keys of two different cells differ. */
  lemma BoxCellsDiffer(size: nat, x1: int, y1: int, x2: int, y2: int)
    requires size > 0
    requires 0 <= x1 < size * size && 0 <= y1 < size * size && 0 <= x2 < size * size && 0 <= y2 < size * size
    requires (x1 != x2 || y1 != y2) && SameBox(size, x1, y1, x2, y2)
    ensures PatternValue(size, x1, y1) != PatternValue(size, x2, y2)
  {
    var n := size * size;
    var q1, a1 := Split(size, x1);
    var q2, a2 := Split(size, x2);
    var c1, d1 := Split(size, y1);
    var c2, d2 := Split(size, y2);
    KeyBound(size, a1, d1);
    KeyBound(size, a2, d2);
    var u1, u2 := size * a1 + d1, size * a2 + d2;
    if u1 == u2 {
      DivModUnique(size, a1, d1, a2, d2);
      assert false;
    }
    assert size * a1 + q1 + y1 == (q1 + size * c1) + u1;
    assert size * a2 + q2 + y2 == (q1 + size * c1) + u2;
    ModInjective(q1 + size * c1, u1, u2, n);
  }
}
