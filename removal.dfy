/**
 * Turning a solved grid into a puzzle: the difficulty level fixes how many
 * cells to blank, and cells are drawn one coordinate at a time; a draw that
 * lands on an already empty cell is skipped.
 */
module Removal {
  import opened SudokuRules
  import opened Solving

  datatype Level = Easy | Medium | Hard

  /** The removal fraction of each level, in tenths: 0.3, 0.5, 0.7. */
  function Tenths(level: Level): nat {
    match level
    case Easy => 3
    case Medium => 5
    case Hard => 7
  }

  /**
   * How many cells a level blanks on a board of box size `size`: the product
   * size^4 * fraction, truncated (not rounded) to an integer. It never
   * reaches the number of cells, so a puzzle keeps at least one given.
   */
  function CellsToRemove(size: nat, level: Level): (n: nat)
    ensures 10 * n <= size * size * size * size * Tenths(level) < 10 * n + 10
    ensures size > 0 ==> n < size * size * size * size
  {
    size * size * size * size * Tenths(level) / 10
  }

  /** A coordinate drawn for removal lies on the board. */
  predicate OnBoard(g: Grid, p: (int, int)) {
    0 <= p.0 < |g| && 0 <= p.1 < |g[p.0]|
  }

  /** Every draw lies on the board. */
  predicate AllOnBoard(g: Grid, picks: seq<(int, int)>) {
    forall k :: 0 <= k < |picks| ==> OnBoard(g, picks[k])
  }

  /** The draws after the first stay on the board, also once the first draw blanked its cell. */
  lemma TailOnBoard(g: Grid, picks: seq<(int, int)>)
    requires picks != [] && AllOnBoard(g, picks)
    ensures OnBoard(g, picks[0]) && AllOnBoard(g, picks[1..])
    ensures AllOnBoard(Place(g, picks[0].0, picks[0].1, 0), picks[1..])
  {
    assert forall k :: 0 <= k < |picks[1..]| ==> picks[1..][k] == picks[k + 1];
  }

  /**
   * The removal loop run on `g` with the draws `picks`, `todo` cells still to
   * blank: a draw that hits a non-empty cell blanks it and counts, any other
   * draw is skipped; the loop stops when nothing is left to blank or the draws
   * run out. Returns the board and how many cells were still to blank.
   */
  function RemoveAlong(g: Grid, picks: seq<(int, int)>, todo: nat): (res: (Grid, nat))
    requires AllOnBoard(g, picks)
    ensures |res.0| == |g| && forall i :: 0 <= i < |g| ==> |res.0[i]| == |g[i]|
    ensures res.1 <= todo
    decreases |picks|
  {
    if todo == 0 || picks == [] then (g, todo)
    else
      var p := picks[0];
      TailOnBoard(g, picks);
      if g[p.0][p.1] != 0 then RemoveAlong(Place(g, p.0, p.1, 0), picks[1..], todo - 1)
      else RemoveAlong(g, picks[1..], todo)
  }

  /** Removal only blanks: every cell keeps its value, or was non-empty and is now empty. */
  lemma {:induction false} RemoveAlongOnlyBlanks(g: Grid, picks: seq<(int, int)>, todo: nat)
    requires AllOnBoard(g, picks)
    ensures var h := RemoveAlong(g, picks, todo).0;
            forall i, j :: 0 <= i < |g| && 0 <= j < |g[i]| ==> h[i][j] == g[i][j] || (g[i][j] != 0 && h[i][j] == 0)
    decreases |picks|
  {
    if todo != 0 && picks != [] {
      var p := picks[0];
      TailOnBoard(g, picks);
      if g[p.0][p.1] != 0 {
        RemoveAlongOnlyBlanks(Place(g, p.0, p.1, 0), picks[1..], todo - 1);
      } else {
        RemoveAlongOnlyBlanks(g, picks[1..], todo);
      }
    }
  }

  /** A turn of the removal loop whose draw hits a non-empty cell blanks it and counts it. */
  lemma RemoveAlongHit(g: Grid, picks: seq<(int, int)>, todo: nat)
    requires AllOnBoard(g, picks) && picks != [] && todo > 0
    requires g[picks[0].0][picks[0].1] != 0
    ensures AllOnBoard(Place(g, picks[0].0, picks[0].1, 0), picks[1..])
    ensures RemoveAlong(g, picks, todo) == RemoveAlong(Place(g, picks[0].0, picks[0].1, 0), picks[1..], todo - 1)
  {
    TailOnBoard(g, picks);
  }

  /** A turn of the removal loop whose draw lands on an empty cell changes nothing. */
  lemma RemoveAlongMiss(g: Grid, picks: seq<(int, int)>, todo: nat)
    requires AllOnBoard(g, picks) && picks != [] && todo > 0
    requires g[picks[0].0][picks[0].1] == 0
    ensures AllOnBoard(g, picks[1..])
    ensures RemoveAlong(g, picks, todo) == RemoveAlong(g, picks[1..], todo)
  {
    TailOnBoard(g, picks);
  }

  /** The cells that were non-empty in `g` and are empty in `h`, a board of the same shape. */
  ghost function Cleared(g: Grid, h: Grid): set<(int, int)>
    requires |h| == |g| && forall i :: 0 <= i < |g| ==> |h[i]| == |g[i]|
  {
    set i, j | 0 <= i < |g| && 0 <= j < |g[i]| && g[i][j] != 0 && h[i][j] == 0 :: (i, j)
  }

  /** Blanking the non-empty cell p first adds exactly p to what is cleared. */
  lemma ClearedStep(g: Grid, p: (int, int), h: Grid)
    requires OnBoard(g, p) && g[p.0][p.1] != 0
    requires |h| == |g| && forall i :: 0 <= i < |g| ==> |h[i]| == |g[i]|
    requires h[p.0][p.1] == 0
    ensures Cleared(g, h) == Cleared(Place(g, p.0, p.1, 0), h) + {p}
    ensures p !in Cleared(Place(g, p.0, p.1, 0), h)
  {
    var g' := Place(g, p.0, p.1, 0);
    forall q | q in Cleared(g, h) ensures q in Cleared(g', h) + {p} {
      if q != p { assert g'[q.0][q.1] == g[q.0][q.1]; }
    }
    forall q | q in Cleared(g', h) ensures q in Cleared(g, h) {
      assert g'[q.0][q.1] == g[q.0][q.1];
    }
  }

  /** The removal loop blanks exactly as many cells as it counted down. */
  lemma {:induction false} RemoveAlongCount(g: Grid, picks: seq<(int, int)>, todo: nat)
    requires AllOnBoard(g, picks)
    ensures |Cleared(g, RemoveAlong(g, picks, todo).0)| == todo - RemoveAlong(g, picks, todo).1
    decreases |picks|
  {
    var res := RemoveAlong(g, picks, todo);
    if todo == 0 || picks == [] {
      assert Cleared(g, g) == {};
    } else {
      var p := picks[0];
      TailOnBoard(g, picks);
      if g[p.0][p.1] != 0 {
        var g' := Place(g, p.0, p.1, 0);
        RemoveAlongCount(g', picks[1..], todo - 1);
        RemoveAlongOnlyBlanks(g', picks[1..], todo - 1);
        assert g'[p.0][p.1] == 0 && res.0[p.0][p.1] == 0;
        ClearedStep(g, p, res.0);
      } else {
        RemoveAlongCount(g, picks[1..], todo);
      }
    }
  }

  /** The distinct draws that land on non-empty cells of `g`. */
  ghost function Hits(g: Grid, picks: seq<(int, int)>): set<(int, int)>
  {
    set p | p in picks && OnBoard(g, p) && g[p.0][p.1] != 0
  }

  lemma SubsetCard<T>(a: set<T>, b: set<T>)
    requires a <= b
    ensures |a| <= |b|
  {
    assert b == a + (b - a);
  }

  /**
   * The removal loop finishes (nothing is left to blank) once the draws hit
   * at least `todo` distinct non-empty cells.
   */
  lemma {:induction false} RemoveAlongFinishes(g: Grid, picks: seq<(int, int)>, todo: nat)
    requires AllOnBoard(g, picks)
    requires |Hits(g, picks)| >= todo
    ensures RemoveAlong(g, picks, todo).1 == 0
    decreases |picks|
  {
    if todo != 0 && picks != [] {
      var p := picks[0];
      TailOnBoard(g, picks);
      var rest := picks[1..];
      if g[p.0][p.1] != 0 {
        var g' := Place(g, p.0, p.1, 0);
        assert Hits(g, picks) - {p} <= Hits(g', rest) by {
          forall q | q in Hits(g, picks) - {p} ensures q in Hits(g', rest) {
            assert q in picks && q != p;
            assert q in rest;
            assert g'[q.0][q.1] == g[q.0][q.1];
          }
        }
        SubsetCard(Hits(g, picks) - {p}, Hits(g', rest));
        RemoveAlongFinishes(g', rest, todo - 1);
      } else {
        assert Hits(g, picks) <= Hits(g, rest) by {
          forall q | q in Hits(g, picks) ensures q in Hits(g, rest) {
            assert q != p;
          }
        }
        SubsetCard(Hits(g, picks), Hits(g, rest));
        RemoveAlongFinishes(g, rest, todo);
      }
    } else if picks == [] {
      assert Hits(g, picks) == {};
    }
  }

  /**
   * On a board without empty cells, draws that hit at least `todo` distinct
   * cells leave exactly `todo` empty cells.
   */
  lemma {:induction false} RemovalBlanksExactly(g: Grid, picks: seq<(int, int)>, todo: nat)
    requires AllOnBoard(g, picks)
    requires forall i, j :: 0 <= i < |g| && 0 <= j < |g[i]| ==> g[i][j] != 0
    requires |set p | p in picks| >= todo
    ensures |ZeroCells(RemoveAlong(g, picks, todo).0)| == todo
  {
    var h := RemoveAlong(g, picks, todo).0;
    assert Hits(g, picks) == set p | p in picks;
    RemoveAlongFinishes(g, picks, todo);
    RemoveAlongCount(g, picks, todo);
    assert Cleared(g, h) == ZeroCells(h);
  }

  /**
   * A puzzle made from a solved grid keeps every given of it, so the grid is
   * a completion of the puzzle: the solver cannot fail on it.
   */
  lemma {:induction false} PuzzleCompletesToSolution(s: Grid, picks: seq<(int, int)>, todo: nat, size: nat)
    requires size > 0 && IsSolvedGrid(s, size) && AllOnBoard(s, picks)
    ensures var h := RemoveAlong(s, picks, todo).0;
            (forall i, j :: 0 <= i < |h| && 0 <= j < |h| && h[i][j] != 0 ==> h[i][j] == s[i][j]) &&
            Completes(h, s, size)
  {
    var h := RemoveAlong(s, picks, todo).0;
    RemoveAlongOnlyBlanks(s, picks, todo);
    SolvedExtensionCompletes(h, s, size);
  }
}
