/**
 * The closed-form generator for 9x9 boards: a shuffled 3x3 base matrix is
 * expanded block by block into a 9x9 grid, then bands of three rows and
 * stacks of three columns trade places.
 *
 * The expansion at app.py:39 gives block (i, j) the values
 * (base + 3*i + 3*j) % 9 + 1. That keeps rows and boxes valid but leaves
 * every column with only three distinct digits. The formula with the band
 * shift 1, (base + i + 3*j) % 9 + 1, gives a solved grid; the engine uses it.
 * Both are modelled here through the coefficient of i, `bandShift`.
 */
module Generator3 {
  import opened SudokuRules
  import opened Boards

  /** The coefficient of the band index i at app.py:39, as written. */
  const AsWrittenBandShift: int := 3

  /** The coefficient of i that makes every column valid. */
  const BandShift: int := 1

  /** One band swap (rows) or stack swap (columns), with the two band indices drawn. */
  datatype Swap = Bands(i: int, j: int) | Stacks(i: int, j: int)

  /** A permutation of 0, 1, 2: the order a shuffle puts three rows or columns in. */
  predicate IsOrder3(p: seq<int>) {
    |p| == 3 && (forall k :: 0 <= k < 3 ==> 0 <= p[k] < 3) &&
    p[0] != p[1] && p[0] != p[2] && p[1] != p[2]
  }

  predicate SwapsInRange(swaps: seq<Swap>) {
    forall k :: 0 <= k < |swaps| ==> 0 <= swaps[k].i < 3 && 0 <= swaps[k].j < 3
  }

  /**
   * The base matrix [[1,2,3],[4,5,6],[7,8,9]] after shuffling its rows into
   * `rowOrder` and its columns into `colOrder`: entry (r, c) comes from
   * row rowOrder[r] and column colOrder[c] of the original.
   */
  function Base(rowOrder: seq<int>, colOrder: seq<int>): (base: seq<seq<int>>)
    requires IsOrder3(rowOrder) && IsOrder3(colOrder)
    ensures |base| == 3 && forall r :: 0 <= r < 3 ==> |base[r]| == 3
  {
    seq(3, r requires 0 <= r < 3 => seq(3, c requires 0 <= c < 3 => 3 * rowOrder[r] + colOrder[c] + 1))
  }

  /**
   * Entry (r, c) of the shuffled base is the digit of row rowOrder[r] and
   * column colOrder[c] of the unshuffled matrix [[1,2,3],[4,5,6],[7,8,9]].
   */
  lemma BaseEntries(rowOrder: seq<int>, colOrder: seq<int>, r: int, c: int)
    requires IsOrder3(rowOrder) && IsOrder3(colOrder) && 0 <= r < 3 && 0 <= c < 3
    ensures var v := Base(rowOrder, colOrder)[r][c];
            1 <= v <= 9 && (v - 1) / 3 == rowOrder[r] && (v - 1) % 3 == colOrder[c]
  {
    var v := Base(rowOrder, colOrder)[r][c] - 1;
    assert v == 3 * rowOrder[r] + colOrder[c];
    DivModUnique(3, v / 3, v % 3, rowOrder[r], colOrder[c]);
  }

  /** The shuffled base holds each of the digits 1..9 once. */
  lemma BaseDistinct(rowOrder: seq<int>, colOrder: seq<int>)
    requires IsOrder3(rowOrder) && IsOrder3(colOrder)
    ensures var base := Base(rowOrder, colOrder);
            forall r1, c1, r2, c2 :: 0 <= r1 < 3 && 0 <= c1 < 3 && 0 <= r2 < 3 && 0 <= c2 < 3 && (r1 != r2 || c1 != c2)
              ==> base[r1][c1] != base[r2][c2]
  {
    var base := Base(rowOrder, colOrder);
    forall r1, c1, r2, c2 | 0 <= r1 < 3 && 0 <= c1 < 3 && 0 <= r2 < 3 && 0 <= c2 < 3 && (r1 != r2 || c1 != c2)
      ensures base[r1][c1] != base[r2][c2]
    {
      BaseEntries(rowOrder, colOrder, r1, c1);
      BaseEntries(rowOrder, colOrder, r2, c2);
    }
  }

  predicate IsBase(base: seq<seq<int>>) {
    |base| == 3 && forall r :: 0 <= r < 3 ==> |base[r]| == 3
  }

  /** Cell (x, y) of the expanded grid: block (x / 3, y / 3), entry (x % 3, y % 3) of the base. */
  function BlockValue(base: seq<seq<int>>, bandShift: int, x: int, y: int): int
    requires IsBase(base) && 0 <= x < 9 && 0 <= y < 9
  {
    (base[x % 3][y % 3] + bandShift * (x / 3) + 3 * (y / 3)) % 9 + 1
  }

  /** The 9x9 grid filled block by block from `base`. */
  function Blocks(base: seq<seq<int>>, bandShift: int): (g: Grid)
    requires IsBase(base)
    ensures IsBoard(g, 3)
  {
    seq(9, x requires 0 <= x < 9 => seq(9, y requires 0 <= y < 9 => BlockValue(base, bandShift, x, y)))
  }

  // ---------------------------------------------------------------------
  // Validity of the expanded grid

  /** x in 0..8 splits into block index x / 3 and offset x % 3. */
  lemma Split3(x: int) returns (q: int, r: int)
    requires 0 <= x < 9
    ensures q == x / 3 && r == x % 3 && 0 <= q < 3 && 0 <= r < 3 && x == 3 * q + r
  {
    q, r := x / 3, x % 3;
  }

  /** Two cells of one row of the expanded grid differ. */
  lemma RowPairDiffers(rowOrder: seq<int>, colOrder: seq<int>, bandShift: int, x: int, y1: int, y2: int)
    requires IsOrder3(rowOrder) && IsOrder3(colOrder) && 0 <= x < 9 && 0 <= y1 < y2 < 9
    ensures BlockValue(Base(rowOrder, colOrder), bandShift, x, y1) != BlockValue(Base(rowOrder, colOrder), bandShift, x, y2)
  {
    var q, r := Split3(x);
    var c1, d1 := Split3(y1);
    var c2, d2 := Split3(y2);
    var k := 3 * rowOrder[r] + 1 + bandShift * q;
    var t1, t2 := colOrder[d1] + 3 * c1, colOrder[d2] + 3 * c2;
    assert Base(rowOrder, colOrder)[r][d1] + bandShift * q + 3 * c1 == k + t1;
    assert Base(rowOrder, colOrder)[r][d2] + bandShift * q + 3 * c2 == k + t2;
    ModInjective(k, t1, t2, 9);
  }

  /** Two cells of one box of the expanded grid differ. */
  lemma BoxPairDiffers(rowOrder: seq<int>, colOrder: seq<int>, bandShift: int, x1: int, y1: int, x2: int, y2: int)
    requires IsOrder3(rowOrder) && IsOrder3(colOrder)
    requires 0 <= x1 < 9 && 0 <= y1 < 9 && 0 <= x2 < 9 && 0 <= y2 < 9
    requires (x1 != x2 || y1 != y2) && SameBox(3, x1, y1, x2, y2)
    ensures BlockValue(Base(rowOrder, colOrder), bandShift, x1, y1) != BlockValue(Base(rowOrder, colOrder), bandShift, x2, y2)
  {
    var q1, r1 := Split3(x1);
    var q2, r2 := Split3(x2);
    var c1, d1 := Split3(y1);
    var c2, d2 := Split3(y2);
    var k := 1 + bandShift * q1 + 3 * c1;
    var t1, t2 := 3 * rowOrder[r1] + colOrder[d1], 3 * rowOrder[r2] + colOrder[d2];
    assert Base(rowOrder, colOrder)[r1][d1] + bandShift * q1 + 3 * c1 == k + t1;
    assert Base(rowOrder, colOrder)[r2][d2] + bandShift * q2 + 3 * c2 == k + t2;
    ModInjective(k, t1, t2, 9);
  }

  /** With band shift 1, two cells of one column of the expanded grid differ. */
  lemma ColumnPairDiffers(rowOrder: seq<int>, colOrder: seq<int>, x1: int, x2: int, y: int)
    requires IsOrder3(rowOrder) && IsOrder3(colOrder) && 0 <= x1 < x2 < 9 && 0 <= y < 9
    ensures BlockValue(Base(rowOrder, colOrder), BandShift, x1, y) != BlockValue(Base(rowOrder, colOrder), BandShift, x2, y)
  {
    var q1, r1 := Split3(x1);
    var q2, r2 := Split3(x2);
    var c, d := Split3(y);
    var k := colOrder[d] + 1 + 3 * c;
    var t1, t2 := 3 * rowOrder[r1] + q1, 3 * rowOrder[r2] + q2;
    ModInjective(k, t1, t2, 9);
  }

  /** Rows and boxes of the expanded grid are valid whatever the band shift. */
  lemma {:induction false} BlocksRowsAndBoxes(rowOrder: seq<int>, colOrder: seq<int>, bandShift: int)
    requires IsOrder3(rowOrder) && IsOrder3(colOrder)
    ensures AllDigits(Blocks(Base(rowOrder, colOrder), bandShift), 3)
    ensures RowsDistinct(Blocks(Base(rowOrder, colOrder), bandShift))
    ensures BoxesDistinct(Blocks(Base(rowOrder, colOrder), bandShift), 3)
  {
    var g := Blocks(Base(rowOrder, colOrder), bandShift);
    forall x, y1, y2 | 0 <= x < 9 && 0 <= y1 < y2 < 9 ensures g[x][y1] != g[x][y2] {
      RowPairDiffers(rowOrder, colOrder, bandShift, x, y1, y2);
    }
    forall x1, y1, x2, y2 | 0 <= x1 < 9 && 0 <= y1 < 9 && 0 <= x2 < 9 && 0 <= y2 < 9 &&
                            (x1 != x2 || y1 != y2) && SameBox(3, x1, y1, x2, y2)
      ensures g[x1][y1] != g[x2][y2]
    {
      BoxPairDiffers(rowOrder, colOrder, bandShift, x1, y1, x2, y2);
    }
  }

  /** With band shift 1 the columns are valid too, so the expanded grid is solved. */
  lemma {:induction false} BlocksSolved(rowOrder: seq<int>, colOrder: seq<int>)
    requires IsOrder3(rowOrder) && IsOrder3(colOrder)
    ensures IsSolvedGrid(Blocks(Base(rowOrder, colOrder), BandShift), 3)
  {
    var g := Blocks(Base(rowOrder, colOrder), BandShift);
    BlocksRowsAndBoxes(rowOrder, colOrder, BandShift);
    forall x1, x2, y | 0 <= x1 < x2 < 9 && 0 <= y < 9 ensures g[x1][y] != g[x2][y] {
      ColumnPairDiffers(rowOrder, colOrder, x1, x2, y);
    }
  }

  /**
   * As written (band shift 3), every column repeats a digit: the rows that
   * take base row 0 in band 1 and base row 1 in band 0 get the same value in
   * each column, whatever the shuffles.
   */
  lemma {:induction false} AsWrittenColumnsRepeat(rowOrder: seq<int>, colOrder: seq<int>, y: int)
    requires IsOrder3(rowOrder) && IsOrder3(colOrder) && 0 <= y < 9
    ensures exists x1, x2 :: 0 <= x1 < x2 < 9 &&
              Blocks(Base(rowOrder, colOrder), AsWrittenBandShift)[x1][y] ==
              Blocks(Base(rowOrder, colOrder), AsWrittenBandShift)[x2][y]
    ensures !ColsDistinct(Blocks(Base(rowOrder, colOrder), AsWrittenBandShift))
  {
    var g := Blocks(Base(rowOrder, colOrder), AsWrittenBandShift);
    var r0 :| 0 <= r0 < 3 && rowOrder[r0] == 0;
    var r1 :| 0 <= r1 < 3 && rowOrder[r1] == 1;
    assert g[r1][y] == g[3 + r0][y];
  }

  /** With the unshuffled base, column 0 reads 2, 5, 8, 5, 8, 2, 8, 2, 5. */
  lemma AsWrittenColumnZero()
    ensures var g := Blocks(Base([0, 1, 2], [0, 1, 2]), AsWrittenBandShift);
            [g[0][0], g[1][0], g[2][0], g[3][0], g[4][0], g[5][0], g[6][0], g[7][0], g[8][0]]
            == [2, 5, 8, 5, 8, 2, 8, 2, 5]
  {
  }

  // ---------------------------------------------------------------------
  // Band and stack swaps

  /**
   * Where row (or column) x of the result comes from when bands (or stacks)
   * a and b trade places: the same offset in the other band. Bands map to
   * bands, so boxes map to boxes.
   */
  function SwapSource(x: int, a: int, b: int): (s: int)
    requires 0 <= x < 9 && 0 <= a < 3 && 0 <= b < 3
    ensures 0 <= s < 9 && s % 3 == x % 3
    ensures s / 3 == (if x / 3 == a then b else if x / 3 == b then a else x / 3)
  {
    if x / 3 == a then 3 * b + x % 3
    else if x / 3 == b then 3 * a + x % 3
    else x
  }

  /** Trading places twice restores every row. */
  lemma SwapSourceInvolution(x: int, a: int, b: int)
    requires 0 <= x < 9 && 0 <= a < 3 && 0 <= b < 3
    ensures SwapSource(SwapSource(x, a, b), a, b) == x
  {
  }

  function SwapBands(g: Grid, a: int, b: int): (h: Grid)
    requires IsBoard(g, 3) && 0 <= a < 3 && 0 <= b < 3
    ensures IsBoard(h, 3)
  {
    seq(9, x requires 0 <= x < 9 => g[SwapSource(x, a, b)])
  }

  function SwapStacks(g: Grid, a: int, b: int): (h: Grid)
    requires IsBoard(g, 3) && 0 <= a < 3 && 0 <= b < 3
    ensures IsBoard(h, 3)
  {
    seq(9, x requires 0 <= x < 9 => seq(9, y requires 0 <= y < 9 => g[x][SwapSource(y, a, b)]))
  }

  function ApplySwap(g: Grid, s: Swap): (h: Grid)
    requires IsBoard(g, 3) && 0 <= s.i < 3 && 0 <= s.j < 3
    ensures IsBoard(h, 3)
  {
    match s
    case Bands(a, b) => SwapBands(g, a, b)
    case Stacks(a, b) => SwapStacks(g, a, b)
  }

  /** The grid after the swaps, applied first to last. */
  function ApplySwaps(g: Grid, swaps: seq<Swap>): (h: Grid)
    requires IsBoard(g, 3) && SwapsInRange(swaps)
    ensures IsBoard(h, 3)
    decreases |swaps|
  {
    if swaps == [] then g
    else ApplySwap(ApplySwaps(g, swaps[..|swaps| - 1]), swaps[|swaps| - 1])
  }

  /** Cell (x, y) after a swap is the cell of `g` that trades places with it. */
  lemma SwapAt(g: Grid, s: Swap, x: int, y: int)
    requires IsBoard(g, 3) && 0 <= s.i < 3 && 0 <= s.j < 3 && 0 <= x < 9 && 0 <= y < 9
    ensures s.Bands? ==> ApplySwap(g, s)[x][y] == g[SwapSource(x, s.i, s.j)][y]
    ensures s.Stacks? ==> ApplySwap(g, s)[x][y] == g[x][SwapSource(y, s.i, s.j)]
  {
  }

  /** A swap keeps every cell's digit range. */
  lemma SwapKeepsDigits(g: Grid, s: Swap)
    requires IsBoard(g, 3) && 0 <= s.i < 3 && 0 <= s.j < 3 && AllDigits(g, 3)
    ensures AllDigits(ApplySwap(g, s), 3)
  {
    forall x, y | 0 <= x < 9 && 0 <= y < 9 ensures 1 <= ApplySwap(g, s)[x][y] <= 9 {
      SwapAt(g, s, x, y);
    }
  }

  /** A swap keeps rows free of repeats. */
  lemma SwapKeepsRows(g: Grid, s: Swap)
    requires IsBoard(g, 3) && 0 <= s.i < 3 && 0 <= s.j < 3 && RowsDistinct(g)
    ensures RowsDistinct(ApplySwap(g, s))
  {
    var h := ApplySwap(g, s);
    forall x, y1, y2 | 0 <= x < 9 && 0 <= y1 < y2 < 9 ensures h[x][y1] != h[x][y2] {
      SwapAt(g, s, x, y1);
      SwapAt(g, s, x, y2);
      if s.Stacks? {
        var t1, t2 := SwapSource(y1, s.i, s.j), SwapSource(y2, s.i, s.j);
        SwapSourceInvolution(y1, s.i, s.j);
        SwapSourceInvolution(y2, s.i, s.j);
        if t1 < t2 { assert g[x][t1] != g[x][t2]; } else { assert g[x][t2] != g[x][t1]; }
      } else {
        var t := SwapSource(x, s.i, s.j);
        assert g[t][y1] != g[t][y2];
      }
    }
  }

  /** A swap keeps columns free of repeats. */
  lemma SwapKeepsColumns(g: Grid, s: Swap)
    requires IsBoard(g, 3) && 0 <= s.i < 3 && 0 <= s.j < 3 && ColsDistinct(g)
    ensures ColsDistinct(ApplySwap(g, s))
  {
    var h := ApplySwap(g, s);
    forall x1, x2, y | 0 <= x1 < x2 < 9 && 0 <= y < 9 ensures h[x1][y] != h[x2][y] {
      SwapAt(g, s, x1, y);
      SwapAt(g, s, x2, y);
      if s.Bands? {
        var t1, t2 := SwapSource(x1, s.i, s.j), SwapSource(x2, s.i, s.j);
        SwapSourceInvolution(x1, s.i, s.j);
        SwapSourceInvolution(x2, s.i, s.j);
        if t1 < t2 { assert g[t1][y] != g[t2][y]; } else { assert g[t2][y] != g[t1][y]; }
      } else {
        var t := SwapSource(y, s.i, s.j);
        assert g[x1][t] != g[x2][t];
      }
    }
  }

  /** A swap maps boxes onto boxes, so it keeps boxes free of repeats. */
  lemma SwapKeepsBoxes(g: Grid, s: Swap)
    requires IsBoard(g, 3) && 0 <= s.i < 3 && 0 <= s.j < 3 && BoxesDistinct(g, 3)
    ensures BoxesDistinct(ApplySwap(g, s), 3)
  {
    var h := ApplySwap(g, s);
    forall x1, y1, x2, y2 | 0 <= x1 < 9 && 0 <= y1 < 9 && 0 <= x2 < 9 && 0 <= y2 < 9 &&
                            (x1 != x2 || y1 != y2) && SameBox(3, x1, y1, x2, y2)
      ensures h[x1][y1] != h[x2][y2]
    {
      SwapAt(g, s, x1, y1);
      SwapAt(g, s, x2, y2);
      if s.Bands? {
        var t1, t2 := SwapSource(x1, s.i, s.j), SwapSource(x2, s.i, s.j);
        SwapSourceInvolution(x1, s.i, s.j);
        SwapSourceInvolution(x2, s.i, s.j);
        assert SameBox(3, t1, y1, t2, y2);
        assert g[t1][y1] != g[t2][y2];
      } else {
        var t1, t2 := SwapSource(y1, s.i, s.j), SwapSource(y2, s.i, s.j);
        SwapSourceInvolution(y1, s.i, s.j);
        SwapSourceInvolution(y2, s.i, s.j);
        assert SameBox(3, x1, t1, x2, t2);
        assert g[x1][t1] != g[x2][t2];
      }
    }
  }

  /** A swap keeps every cell's digit range and the row, column and box constraints. */
  lemma SwapPreserves(g: Grid, s: Swap)
    requires IsBoard(g, 3) && 0 <= s.i < 3 && 0 <= s.j < 3
    ensures AllDigits(g, 3) ==> AllDigits(ApplySwap(g, s), 3)
    ensures RowsDistinct(g) ==> RowsDistinct(ApplySwap(g, s))
    ensures ColsDistinct(g) ==> ColsDistinct(ApplySwap(g, s))
    ensures BoxesDistinct(g, 3) ==> BoxesDistinct(ApplySwap(g, s), 3)
  {
    if AllDigits(g, 3) { SwapKeepsDigits(g, s); }
    if RowsDistinct(g) { SwapKeepsRows(g, s); }
    if ColsDistinct(g) { SwapKeepsColumns(g, s); }
    if BoxesDistinct(g, 3) { SwapKeepsBoxes(g, s); }
  }

  /** Applying the same swap twice gives back the grid. */
  lemma SwapTwice(g: Grid, s: Swap)
    requires IsBoard(g, 3) && 0 <= s.i < 3 && 0 <= s.j < 3
    ensures ApplySwap(ApplySwap(g, s), s) == g
  {
    var h := ApplySwap(ApplySwap(g, s), s);
    forall x, y | 0 <= x < 9 && 0 <= y < 9 ensures h[x][y] == g[x][y] {
      SwapSourceInvolution(x, s.i, s.j);
      SwapSourceInvolution(y, s.i, s.j);
    }
    GridExt(h, g);
  }

  /** Any sequence of swaps keeps the digit range and the three constraints. */
  lemma {:induction false} SwapsPreserve(g: Grid, swaps: seq<Swap>)
    requires IsBoard(g, 3) && SwapsInRange(swaps)
    ensures AllDigits(g, 3) ==> AllDigits(ApplySwaps(g, swaps), 3)
    ensures RowsDistinct(g) ==> RowsDistinct(ApplySwaps(g, swaps))
    ensures ColsDistinct(g) ==> ColsDistinct(ApplySwaps(g, swaps))
    ensures BoxesDistinct(g, 3) ==> BoxesDistinct(ApplySwaps(g, swaps), 3)
    decreases |swaps|
  {
    if swaps != [] {
      var prefix := swaps[..|swaps| - 1];
      SwapsPreserve(g, prefix);
      SwapPreserves(ApplySwaps(g, prefix), swaps[|swaps| - 1]);
    }
  }

  /** Swaps cannot mend a column that repeats a digit. */
  lemma {:induction false} SwapsKeepColumnRepeat(g: Grid, swaps: seq<Swap>)
    requires IsBoard(g, 3) && SwapsInRange(swaps) && !ColsDistinct(g)
    ensures !ColsDistinct(ApplySwaps(g, swaps))
    decreases |swaps|
  {
    if swaps != [] {
      var prefix, last := swaps[..|swaps| - 1], swaps[|swaps| - 1];
      var before := ApplySwaps(g, prefix);
      SwapsKeepColumnRepeat(g, prefix);
      SwapTwice(before, last);
      SwapPreserves(ApplySwap(before, last), last);
    }
  }

  // ---------------------------------------------------------------------
  // The generator on a 9x9 array

  /** `board[3*i:3*i+3, 3*j:3*j+3] = (base + bandShift*i + 3*j) % 9 + 1`. */
  method WriteBlock(board: array2<int>, base: seq<seq<int>>, bandShift: int, i: int, j: int)
    requires board.Length0 == 9 && board.Length1 == 9 && IsBase(base) && 0 <= i < 3 && 0 <= j < 3
    modifies board
    ensures forall x, y :: 0 <= x < 9 && 0 <= y < 9 ==>
              board[x, y] == if x / 3 == i && y / 3 == j then BlockValue(base, bandShift, x, y) else old(board[x, y])
  {
    for r := 0 to 3
      invariant forall x, y :: 0 <= x < 9 && 0 <= y < 9 ==>
                  board[x, y] == if x / 3 == i && x % 3 < r && y / 3 == j then BlockValue(base, bandShift, x, y)
                                 else old(board[x, y])
    {
      for c := 0 to 3
        invariant forall x, y :: 0 <= x < 9 && 0 <= y < 9 ==>
                    board[x, y] == if x / 3 == i && y / 3 == j && (x % 3 < r || (x % 3 == r && y % 3 < c))
                                   then BlockValue(base, bandShift, x, y)
                                   else old(board[x, y])
      {
        board[3 * i + r, 3 * j + c] := (base[r][c] + bandShift * i + 3 * j) % 9 + 1;
      }
    }
  }

  /** The nested loop at app.py:37-39: every block written from the base matrix. */
  method FillBlocks(board: array2<int>, base: seq<seq<int>>, bandShift: int)
    requires board.Length0 == 9 && board.Length1 == 9 && IsBase(base)
    modifies board
    ensures Cells(board) == Blocks(base, bandShift)
  {
    for i := 0 to 3
      invariant forall x, y :: 0 <= x < 9 && 0 <= y < 9 && x / 3 < i ==> board[x, y] == BlockValue(base, bandShift, x, y)
    {
      for j := 0 to 3
        invariant forall x, y :: 0 <= x < 9 && 0 <= y < 9 && (x / 3 < i || (x / 3 == i && y / 3 < j)) ==>
                    board[x, y] == BlockValue(base, bandShift, x, y)
      {
        WriteBlock(board, base, bandShift, i, j);
      }
    }
    GridExt(Cells(board), Blocks(base, bandShift));
  }

  /** Rows x1 and x2 trade places. */
  method SwapRows(board: array2<int>, x1: int, x2: int)
    requires 0 <= x1 < board.Length0 && 0 <= x2 < board.Length0
    modifies board
    ensures forall x, y :: 0 <= x < board.Length0 && 0 <= y < board.Length1 ==>
              board[x, y] == old(board[if x == x1 then x2 else if x == x2 then x1 else x, y])
  {
    for y := 0 to board.Length1
      invariant forall x, y' :: 0 <= x < board.Length0 && 0 <= y' < board.Length1 ==>
                  board[x, y'] == old(board[if y' < y && x == x1 then x2 else if y' < y && x == x2 then x1 else x, y'])
    {
      board[x1, y], board[x2, y] := board[x2, y], board[x1, y];
    }
  }

  /** Columns y1 and y2 trade places. */
  method SwapColumns(board: array2<int>, y1: int, y2: int)
    requires 0 <= y1 < board.Length1 && 0 <= y2 < board.Length1
    modifies board
    ensures forall x, y :: 0 <= x < board.Length0 && 0 <= y < board.Length1 ==>
              board[x, y] == old(board[x, if y == y1 then y2 else if y == y2 then y1 else y])
  {
    for x := 0 to board.Length0
      invariant forall x', y :: 0 <= x' < board.Length0 && 0 <= y < board.Length1 ==>
                  board[x', y] == old(board[x', if x' < x && y == y1 then y2 else if x' < x && y == y2 then y1 else y])
    {
      board[x, y1], board[x, y2] := board[x, y2], board[x, y1];
    }
  }

  /** Rows 3a.. and 3b.. trade places, as the slice swap at app.py:45 does. */
  method SwapBandsInPlace(board: array2<int>, a: int, b: int)
    requires board.Length0 == 9 && board.Length1 == 9 && 0 <= a < 3 && 0 <= b < 3
    modifies board
    ensures Cells(board) == SwapBands(old(Cells(board)), a, b)
  {
    ghost var g := Cells(board);
    for r := 0 to 3
      invariant forall x, y :: 0 <= x < 9 && 0 <= y < 9 ==>
                  board[x, y] == g[if x % 3 < r then SwapSource(x, a, b) else x][y]
    {
      SwapRows(board, 3 * a + r, 3 * b + r);
    }
    GridExt(Cells(board), SwapBands(g, a, b));
  }

  /** Columns 3a.. and 3b.. trade places, as the slice swap at app.py:48 does. */
  method SwapStacksInPlace(board: array2<int>, a: int, b: int)
    requires board.Length0 == 9 && board.Length1 == 9 && 0 <= a < 3 && 0 <= b < 3
    modifies board
    ensures Cells(board) == SwapStacks(old(Cells(board)), a, b)
  {
    ghost var g := Cells(board);
    for c := 0 to 3
      invariant forall x, y :: 0 <= x < 9 && 0 <= y < 9 ==>
                  board[x, y] == g[x][if y % 3 < c then SwapSource(y, a, b) else y]
    {
      SwapColumns(board, 3 * a + c, 3 * b + c);
    }
    GridExt(Cells(board), SwapStacks(g, a, b));
  }

  /**
   * The 9x9 path of generate_board (app.py:29-50): a zero board, the blocks
   * written from the shuffled base, then the drawn swaps in order.
   */
  method BuildBoard(rowOrder: seq<int>, colOrder: seq<int>, swaps: seq<Swap>, bandShift: int)
    returns (board: array2<int>)
    requires IsOrder3(rowOrder) && IsOrder3(colOrder) && SwapsInRange(swaps)
    ensures fresh(board) && board.Length0 == 9 && board.Length1 == 9
    ensures Cells(board) == ApplySwaps(Blocks(Base(rowOrder, colOrder), bandShift), swaps)
  {
    var base := Base(rowOrder, colOrder);
    board := new int[9, 9]((_, _) => 0);
    FillBlocks(board, base, bandShift);
    ghost var start := Cells(board);
    for k := 0 to |swaps|
      invariant Cells(board) == ApplySwaps(start, swaps[..k])
    {
      assert swaps[..k + 1][..k] == swaps[..k];
      match swaps[k]
      case Bands(a, b) => SwapBandsInPlace(board, a, b);
      case Stacks(a, b) => SwapStacksInPlace(board, a, b);
    }
    assert swaps[..|swaps|] == swaps;
  }

  /** The engine's 9x9 grid: solved for every draw of shuffles and swaps. */
  lemma {:induction false} GeneratedSolved(rowOrder: seq<int>, colOrder: seq<int>, swaps: seq<Swap>)
    requires IsOrder3(rowOrder) && IsOrder3(colOrder) && SwapsInRange(swaps)
    ensures IsSolvedGrid(ApplySwaps(Blocks(Base(rowOrder, colOrder), BandShift), swaps), 3)
  {
    BlocksSolved(rowOrder, colOrder);
    SwapsPreserve(Blocks(Base(rowOrder, colOrder), BandShift), swaps);
  }

  /**
   * The grid as written at app.py:39, after any swaps: rows and boxes are
   * valid, but some column repeats a digit, so it is not a Sudoku solution.
   */
  lemma {:induction false} AsWrittenGenerated(rowOrder: seq<int>, colOrder: seq<int>, swaps: seq<Swap>)
    requires IsOrder3(rowOrder) && IsOrder3(colOrder) && SwapsInRange(swaps)
    ensures var g := ApplySwaps(Blocks(Base(rowOrder, colOrder), AsWrittenBandShift), swaps);
            AllDigits(g, 3) && RowsDistinct(g) && BoxesDistinct(g, 3) && !ColsDistinct(g) && !IsSolvedGrid(g, 3)
  {
    var g0 := Blocks(Base(rowOrder, colOrder), AsWrittenBandShift);
    BlocksRowsAndBoxes(rowOrder, colOrder, AsWrittenBandShift);
    AsWrittenColumnsRepeat(rowOrder, colOrder, 0);
    SwapsPreserve(g0, swaps);
    SwapsKeepColumnRepeat(g0, swaps);
  }
}
