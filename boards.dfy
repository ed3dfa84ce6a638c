/**
 * The engine keeps boards as two-dimensional arrays and changes them cell by
 * cell. `Cells` reads such an array as a `Grid` value, so that contracts can
 * speak about whole boards.
 */
module Boards {
  import opened SudokuRules

  /** The contents of `b`, row by row. */
  function Cells(b: array2<int>): (g: Grid)
    reads b
    ensures |g| == b.Length0 && forall i :: 0 <= i < |g| ==> |g[i]| == b.Length1
    ensures forall i, j :: 0 <= i < b.Length0 && 0 <= j < b.Length1 ==> g[i][j] == b[i, j]
  {
    seq(b.Length0, i requires 0 <= i < b.Length0 reads b =>
      seq(b.Length1, j requires 0 <= j < b.Length1 reads b => b[i, j]))
  }

  /** Two grids of the same shape that agree cell by cell are equal. */
  lemma GridExt(g: Grid, h: Grid)
    requires |g| == |h| && forall i :: 0 <= i < |g| ==> |g[i]| == |h[i]|
    requires forall i, j :: 0 <= i < |g| && 0 <= j < |g[i]| ==> g[i][j] == h[i][j]
    ensures g == h
  {
    forall i | 0 <= i < |g| ensures g[i] == h[i] {
      assert |g[i]| == |h[i]|;
      assert forall j :: 0 <= j < |g[i]| ==> g[i][j] == h[i][j];
    }
  }

  /** `board[i][j] = v`: one cell changes and no other. */
  method SetCell(b: array2<int>, i: int, j: int, v: int)
    requires 0 <= i < b.Length0 && 0 <= j < b.Length1
    modifies b
    ensures Cells(b) == Place(old(Cells(b)), i, j, v)
  {
    ghost var before := Cells(b);
    b[i, j] := v;
    GridExt(Cells(b), Place(before, i, j, v));
  }

  /** Setting a cell back to the value it held restores the board. */
  lemma PlaceBack(g: Grid, i: int, j: int, v: int)
    requires 0 <= i < |g| && 0 <= j < |g[i]|
    ensures Place(Place(g, i, j, v), i, j, g[i][j]) == g
  {
    GridExt(Place(Place(g, i, j, v), i, j, g[i][j]), g);
  }

  /** A fresh copy of `b`, as `[row[:] for row in board]` makes one. */
  method CopyBoard(b: array2<int>) returns (c: array2<int>)
    ensures fresh(c) && Cells(c) == Cells(b)
  {
    c := new int[b.Length0, b.Length1];
    for i := 0 to b.Length0
      invariant forall x, y :: 0 <= x < i && 0 <= y < b.Length1 ==> c[x, y] == b[x, y]
    {
      for j := 0 to b.Length1
        invariant forall x, y :: 0 <= x < i && 0 <= y < b.Length1 ==> c[x, y] == b[x, y]
        invariant forall y :: 0 <= y < j ==> c[i, y] == b[i, y]
      {
        c[i, j] := b[i, j];
      }
    }
    GridExt(Cells(c), Cells(b));
  }
}
