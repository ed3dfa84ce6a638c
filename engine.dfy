/**
 * The game engine: a `Sudoku` object of a given box size holds a puzzle board
 * and its solution. Creating one generates a solved grid, keeps a copy of it
 * as the solution and blanks cells of the board according to the difficulty
 * level.
 *
 * The engine's random choices are drawn in advance and passed in as `Draws`.
 */
module Engine {
  import opened SudokuRules
  import opened Boards
  import opened Solving
  import opened LatinPattern
  import opened Generator3
  import opened Removal

  /**
   * The random choices of one new game: the shuffles of the rows and columns
   * of the 3 x 3 base, the ten band-or-stack swaps (both used for 9 x 9 boards
   * only), and the cells drawn one after another for blanking.
   */
  datatype Draws = Draws(rowOrder: seq<int>, colOrder: seq<int>, swaps: seq<Swap>, picks: seq<(int, int)>)

  /** The draws are what the random calls can return for a board of box size `size`. */
  predicate DrawsFit(d: Draws, size: nat) {
    IsOrder3(d.rowOrder) && IsOrder3(d.colOrder) && |d.swaps| == 10 && SwapsInRange(d.swaps) &&
    forall p :: p in d.picks ==> 0 <= p.0 < size * size && 0 <= p.1 < size * size
  }

  class Sudoku {
    /** The box size: 2 for 4 x 4 boards, 3 for 9 x 9, 4 for 16 x 16. */
    const size: nat
    /** The puzzle handed to the player; 0 marks a blank cell. */
    var board: array2<int>
    /** The solved grid the puzzle was made from. */
    var solution: array2<int>

    /**
     * A new game (app.py:10-20): a solved grid becomes the solution, and a
     * copy of it with CellsToRemove(size, level) cells blanked becomes the
     * board. The draws must hit at least that many distinct cells; the
     * engine itself keeps drawing until they do.
     */
    constructor (level: Level, size: nat, d: Draws)
      requires SupportedSize(size) && DrawsFit(d, size)
      requires |set p | p in d.picks| >= CellsToRemove(size, level)
      ensures this.size == size && fresh(board) && fresh(solution) && board != solution
      ensures board.Length0 == size * size && board.Length1 == size * size
      ensures solution.Length0 == size * size && solution.Length1 == size * size
      ensures IsSolvedGrid(Cells(solution), size)
      ensures Cells(board) == RemoveAlong(Cells(solution), d.picks, CellsToRemove(size, level)).0
      ensures |ZeroCells(Cells(board))| == CellsToRemove(size, level)
    {
      this.size := size;
      board := new int[0, 0];
      solution := new int[0, 0];
      new;
      var g := GenerateBoard(d);
      var copy := KeepAndBlank(g, level, d.picks);
      board, solution := g, copy;
    }

    /**
     * The last two steps of a new game (app.py:19-20): keep a copy of the
     * full grid `g`, then blank cells of `g` itself.
     */
    method KeepAndBlank(g: array2<int>, level: Level, picks: seq<(int, int)>) returns (copy: array2<int>)
      requires g.Length0 == size * size && g.Length1 == size * size
      requires forall i, j :: 0 <= i < size * size && 0 <= j < size * size ==> g[i, j] != 0
      requires forall p :: p in picks ==> 0 <= p.0 < size * size && 0 <= p.1 < size * size
      requires |set p | p in picks| >= CellsToRemove(size, level)
      modifies g
      ensures fresh(copy) && Cells(copy) == old(Cells(g))
      ensures Cells(g) == RemoveAlong(Cells(copy), picks, CellsToRemove(size, level)).0
      ensures |ZeroCells(Cells(g))| == CellsToRemove(size, level)
    {
      copy := CopyBoard(g);
      ghost var s := Cells(copy);
      assert AllOnBoard(s, picks) by {
        assert forall k :: 0 <= k < |picks| ==> picks[k] in picks;
      }
      RemoveNumbers(g, level, picks);
      assert Cells(copy) == s;
      RemovalBlanksExactly(s, picks, CellsToRemove(size, level));
    }

    /**
     * A solved grid (app.py:22-54). For box size 3 it is the block pattern of
     * the shuffled base with the band and stack swaps applied; for the other
     * sizes it is what the backtracking solver makes of the empty board.
     */
    method GenerateBoard(d: Draws) returns (g: array2<int>)
      requires SupportedSize(size) && DrawsFit(d, size)
      ensures fresh(g) && g.Length0 == size * size && g.Length1 == size * size
      ensures IsSolvedGrid(Cells(g), size)
      ensures size == 3 ==> Cells(g) == ApplySwaps(Blocks(Base(d.rowOrder, d.colOrder), BandShift), d.swaps)
    {
      if size == 3 {
        g := BuildBoard(d.rowOrder, d.colOrder, d.swaps, BandShift);
        GeneratedSolved(d.rowOrder, d.colOrder, d.swaps);
      } else {
        g := new int[size * size, size * size]((_, _) => 0);
        ghost var empty := Cells(g);
        PatternSolved(size);
        CompletionsOfEmptyBoard(empty, PatternGrid(size), size);
        var solved := SolveBoard(g);
        CompletionsOfEmptyBoard(empty, Cells(g), size);
      }
    }

    /**
     * Backtracking search (app.py:56-73). It fills the first empty cell with
     * each legal digit in turn and recurses. On success the board is a
     * completion of the board it was given; on failure the board is restored
     * and the given board has no completion at all.
     */
    method SolveBoard(b: array2<int>) returns (solved: bool)
      requires size > 0 && b.Length0 == size * size && b.Length1 == size * size
      modifies b
      ensures solved ==> Completes(old(Cells(b)), Cells(b), size)
      ensures !solved ==> Cells(b) == old(Cells(b)) && forall f :: !Completes(old(Cells(b)), f, size)
      decreases ZeroCells(Cells(b))
    {
      var empty := FindEmpty(b);
      if empty.None? {
        FullBoardCompletesItself(Cells(b), size);
        return true;
      }
      var row, col := empty.value.0, empty.value.1;
      ghost var start := Cells(b);
      var num := 1;
      while num <= size * size
        invariant 1 <= num <= size * size + 1
        invariant Cells(b) == start
        invariant forall f :: Completes(start, f, size) ==> !(1 <= f[row][col] < num)
      {
        var ok := IsValidMove(b, row, col, num);
        if ok {
          SetCell(b, row, col, num);
          FillShrinksZeroCells(start, row, col, num);
          solved := SolveBoard(b);
          if solved {
            PlacementCompletes(start, size, row, col, num, Cells(b));
            return;
          }
          forall f | Completes(start, f, size) ensures f[row][col] != num {
            if f[row][col] == num {
              CompletionKeepsPlacement(start, size, row, col, num, f);
            }
          }
          SetCell(b, row, col, 0);
          PlaceBack(start, row, col, num);
        } else {
          forall f | Completes(start, f, size) ensures f[row][col] != num {
            RefusedDigitInNoCompletion(start, size, row, col, num, f);
          }
        }
        num := num + 1;
      }
      return false;
    }

    /**
     * The first empty cell in row-major order (app.py:75-86), or None when
     * the board has no empty cell.
     */
    method FindEmpty(b: array2<int>) returns (e: Option<(int, int)>)
      requires b.Length0 == size * size && b.Length1 == size * size
      ensures e.Some? ==> 0 <= e.value.0 < size * size && 0 <= e.value.1 < size * size &&
                          b[e.value.0, e.value.1] == 0 &&
                          forall i, j ::
                            0 <= i < size * size && 0 <= j < size * size && RowMajorBefore((i, j), e.value)
                            ==> b[i, j] != 0
      ensures e.None? <==> forall i, j :: 0 <= i < size * size && 0 <= j < size * size ==> b[i, j] != 0
    {
      var n := size * size;
      for i := 0 to n
        invariant forall i2, j2 :: 0 <= i2 < i && 0 <= j2 < n ==> b[i2, j2] != 0
      {
        for j := 0 to n
          invariant forall i2, j2 :: 0 <= i2 < i && 0 <= j2 < n ==> b[i2, j2] != 0
          invariant forall j2 :: 0 <= j2 < j ==> b[i, j2] != 0
        {
          if b[i, j] == 0 {
            return Some((i, j));
          }
        }
      }
      return None;
    }

    /**
     * Whether `num` may go in cell (row, col) (app.py:88-112): it is absent
     * from the row, then from the column, then from the box of the cell. The
     * cell's own value is looked at too.
     */
    method IsValidMove(b: array2<int>, row: int, col: int, num: int) returns (ok: bool)
      requires size > 0 && b.Length0 == size * size && b.Length1 == size * size
      requires 0 <= row < size * size && 0 <= col < size * size
      ensures ok <==> Placeable(Cells(b), size, row, col, num)
    {
      var n := size * size;
      for j := 0 to n
        invariant forall j2 :: 0 <= j2 < j ==> b[row, j2] != num
      {
        if b[row, j] == num {
          Refused(Cells(b), size, row, col, num, row, j);
          return false;
        }
      }
      for i := 0 to n
        invariant forall i2 :: 0 <= i2 < i ==> b[i2, col] != num
      {
        if b[i, col] == num {
          Refused(Cells(b), size, row, col, num, i, col);
          return false;
        }
      }
      var startRow, startCol := size * (row / size), size * (col / size);
      BandBounds(size, row);
      BandBounds(size, col);
      BandRange(size, row);
      BandRange(size, col);
      assert 0 <= startRow && startRow + size <= n && 0 <= startCol && startCol + size <= n;
      for i := startRow to startRow + size
        invariant forall i2, j2 :: startRow <= i2 < i && startCol <= j2 < startCol + size ==> b[i2, j2] != num
      {
        for j := startCol to startCol + size
          invariant forall i2, j2 :: startRow <= i2 < i && startCol <= j2 < startCol + size ==> b[i2, j2] != num
          invariant forall j2 :: startCol <= j2 < j ==> b[i, j2] != num
        {
          if b[i, j] == num {
            assert SameBand(size, row, i) && SameBand(size, col, j);
            Refused(Cells(b), size, row, col, num, i, j);
            return false;
          }
        }
      }
      ScansPlaceable(Cells(b), size, row, col, num);
      return true;
    }

    /**
     * Blanking cells (app.py:114-132): CellsToRemove(size, level) cells are
     * to be blanked; each draw that hits a non-empty cell blanks it and
     * counts, a draw on an empty cell is skipped. The draws are a finite
     * stream here, so the loop also stops when they run out.
     */
    method RemoveNumbers(b: array2<int>, level: Level, picks: seq<(int, int)>)
      requires b.Length0 == size * size && b.Length1 == size * size
      requires forall p :: p in picks ==> 0 <= p.0 < size * size && 0 <= p.1 < size * size
      modifies b
      ensures Cells(b) == RemoveAlong(old(Cells(b)), picks, CellsToRemove(size, level)).0
    {
      ghost var start := Cells(b);
      ghost var cur := start;
      ghost var target := RemoveAlong(start, picks, CellsToRemove(size, level));
      var cellsToRemove := CellsToRemove(size, level);
      var k := 0;
      assert forall i :: 0 <= i < |picks| ==> picks[i] in picks;
      while cellsToRemove > 0 && k < |picks|
        invariant 0 <= k <= |picks| && Cells(b) == cur
        invariant AllOnBoard(cur, picks[k..])
        invariant RemoveAlong(cur, picks[k..], cellsToRemove) == target
        decreases |picks| - k
      {
        var row, col := picks[k].0, picks[k].1;
        ghost var rest := picks[k..];
        assert rest[0] == (row, col) && rest[1..] == picks[k + 1..];
        if b[row, col] != 0 {
          RemoveAlongHit(cur, rest, cellsToRemove);
          SetCell(b, row, col, 0);
          cur := Place(cur, row, col, 0);
          cellsToRemove := cellsToRemove - 1;
        } else {
          RemoveAlongMiss(cur, rest, cellsToRemove);
        }
        assert RemoveAlong(cur, rest[1..], cellsToRemove) == target;
        k := k + 1;
      }
    }
  }

  /**
   * A digit absent from the row, the column and the box scanned from the
   * band starts of (row, col) is placeable there.
   */
  lemma ScansPlaceable(g: Grid, size: nat, row: int, col: int, num: int)
    requires size > 0 && IsBoard(g, size) && 0 <= row < size * size && 0 <= col < size * size
    requires forall j :: 0 <= j < size * size ==> g[row][j] != num
    requires forall i :: 0 <= i < size * size ==> g[i][col] != num
    requires forall i, j ::
               size * (row / size) <= i < size * (row / size) + size &&
               size * (col / size) <= j < size * (col / size) + size &&
               0 <= i < size * size && 0 <= j < size * size
               ==> g[i][j] != num
    ensures Placeable(g, size, row, col, num)
  {
    BandRange(size, row);
    BandRange(size, col);
    forall i, j | 0 <= i < |g| && 0 <= j < |g[i]| && (i == row || j == col || SameBox(size, i, j, row, col))
      ensures g[i][j] != num
    {
      if i != row && j != col {
        assert SameBand(size, row, i) && SameBand(size, col, j);
      }
    }
  }

  /** A digit found in the row, the column or the box of (row, col) is not placeable there. */
  lemma Refused(g: Grid, size: nat, row: int, col: int, num: int, i: int, j: int)
    requires size > 0 && 0 <= i < |g| && 0 <= j < |g[i]| && g[i][j] == num
    requires i == row || j == col || SameBox(size, i, j, row, col)
    ensures !Placeable(g, size, row, col, num)
  {
  }
}
