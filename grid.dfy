/**
 * Value-level tic-tac-toe boards shared by both board classes: square grids
 * of cells, the four kinds of winning line, fullness, and the row-major list
 * of free cells.
 */
module Grid {
  datatype PieceType = X | O
  datatype Cell = Empty | Mark(piece: PieceType)
  type Rows = seq<seq<Cell>>

  predicate Square(g: Rows) {
    forall i :: 0 <= i < |g| ==> |g[i]| == |g|
  }

  predicate RowOf(g: Rows, r: int, t: PieceType)
    requires Square(g) && 0 <= r < |g|
  {
    forall j :: 0 <= j < |g| ==> g[r][j] == Mark(t)
  }

  predicate ColOf(g: Rows, c: int, t: PieceType)
    requires Square(g) && 0 <= c < |g|
  {
    forall i :: 0 <= i < |g| ==> g[i][c] == Mark(t)
  }

  predicate DiagOf(g: Rows, t: PieceType)
    requires Square(g)
  {
    forall i :: 0 <= i < |g| ==> g[i][i] == Mark(t)
  }

  predicate AntiDiagOf(g: Rows, t: PieceType)
    requires Square(g)
  {
    forall i :: 0 <= i < |g| ==> g[i][|g| - 1 - i] == Mark(t)
  }

  /** The anti-diagonal cells of the rows below row `i` are all `t`. */
  predicate AntiDiagBelow(g: Rows, i: int, t: PieceType)
    requires Square(g) && -1 <= i < |g|
  {
    forall m :: i < m < |g| ==> g[m][|g| - 1 - m] == Mark(t)
  }

  /** Scanning the anti-diagonal from the bottom row up: one more cell per step. */
  lemma AntiDiagBelowStep(g: Rows, i: int, t: PieceType)
    requires Square(g) && 0 <= i < |g|
    ensures AntiDiagBelow(g, i - 1, t) <==> AntiDiagBelow(g, i, t) && g[i][|g| - 1 - i] == Mark(t)
  {
  }

  /** A scan that has reached past the top row has covered the whole anti-diagonal. */
  lemma AntiDiagBelowAll(g: Rows, t: PieceType)
    requires Square(g)
    ensures AntiDiagBelow(g, -1, t) <==> AntiDiagOf(g, t)
  {
  }

  /** Some row, some column, the main diagonal or the anti-diagonal is all `t`. */
  predicate HasLine(g: Rows, t: PieceType)
    requires Square(g)
  {
    (exists r :: 0 <= r < |g| && RowOf(g, r, t)) ||
    (exists c :: 0 <= c < |g| && ColOf(g, c, t)) ||
    DiagOf(g, t) || AntiDiagOf(g, t)
  }

  /** Row `r`, column `c`, the main diagonal or the anti-diagonal is all `t`. */
  predicate LineThrough(g: Rows, r: int, c: int, t: PieceType)
    requires Square(g) && 0 <= r < |g| && 0 <= c < |g|
  {
    RowOf(g, r, t) || ColOf(g, c, t) || DiagOf(g, t) || AntiDiagOf(g, t)
  }

  predicate Full(g: Rows)
    requires Square(g)
  {
    forall i, j :: 0 <= i < |g| && 0 <= j < |g| ==> g[i][j] != Empty
  }

  /** The grid with piece `t` at (r, c). */
  function Place(g: Rows, r: int, c: int, t: PieceType): (h: Rows)
    requires Square(g) && 0 <= r < |g| && 0 <= c < |g|
    ensures Square(h) && |h| == |g|
    ensures forall i, j :: 0 <= i < |g| && 0 <= j < |g| ==>
      h[i][j] == if i == r && j == c then Mark(t) else g[i][j]
  {
    g[r := g[r][c := Mark(t)]]
  }

  /** The contents of a square 2-D array of cells as a grid value. */
  function Snapshot(a: array2<Cell>): (g: Rows)
    reads a
    requires a.Length0 == a.Length1
    ensures Square(g) && |g| == a.Length0
    ensures forall i, j :: 0 <= i < |g| && 0 <= j < |g| ==> g[i][j] == a[i, j]
  {
    seq(a.Length0, i requires 0 <= i < a.Length0 reads a =>
      seq(a.Length1, j requires 0 <= j < a.Length1 reads a => a[i, j]))
  }

  /** Two square grids of one size that agree cell by cell are equal. */
  lemma SameGrid(g: Rows, h: Rows)
    requires Square(g) && Square(h) && |g| == |h|
    requires forall i, j :: 0 <= i < |g| && 0 <= j < |g| ==> g[i][j] == h[i][j]
    ensures g == h
  {
    forall i | 0 <= i < |g|
      ensures g[i] == h[i]
    {
      assert forall j :: 0 <= j < |g| ==> g[i][j] == h[i][j];
    }
  }

  /**
   * A new piece can complete only a line through its own cell: if `t` had no
   * line before, the grid after the move has one exactly when row r, column c
   * or a diagonal is all `t`.
   */
  lemma LastMoveWin(g: Rows, r: int, c: int, t: PieceType)
    requires Square(g) && 0 <= r < |g| && 0 <= c < |g| && !HasLine(g, t)
    ensures HasLine(Place(g, r, c, t), t) <==> LineThrough(Place(g, r, c, t), r, c, t)
  {
    var h := Place(g, r, c, t);
    if HasLine(h, t) && !LineThrough(h, r, c, t) {
      if exists r' :: 0 <= r' < |h| && RowOf(h, r', t) {
        var r' :| 0 <= r' < |h| && RowOf(h, r', t);
        assert r' != r;
        assert RowOf(g, r', t) by {
          forall j | 0 <= j < |g| ensures g[r'][j] == Mark(t) {
            assert h[r'][j] == g[r'][j];
          }
        }
        assert false;
      } else {
        var c' :| 0 <= c' < |h| && ColOf(h, c', t);
        assert c' != c;
        assert ColOf(g, c', t) by {
          forall i | 0 <= i < |g| ensures g[i][c'] == Mark(t) {
            assert h[i][c'] == g[i][c'];
          }
        }
        assert false;
      }
    }
  }

  /** Row `i` of the position of the free cells among its first `j` columns, left to right. */
  function FreeInRow(g: Rows, i: int, j: int): seq<(int, int)>
    requires Square(g) && 0 <= i < |g| && 0 <= j <= |g|
  {
    if j == 0 then []
    else FreeInRow(g, i, j - 1) + (if g[i][j - 1] == Empty then [(i, j - 1)] else [])
  }

  /** The free cells of the first `i` rows, in row-major order. */
  function FreeBefore(g: Rows, i: int): seq<(int, int)>
    requires Square(g) && 0 <= i <= |g|
  {
    if i == 0 then [] else FreeBefore(g, i - 1) + FreeInRow(g, i - 1, |g|)
  }

  /** The free cells, row by row and left to right within a row. */
  function FreeCells(g: Rows): seq<(int, int)>
    requires Square(g)
  {
    FreeBefore(g, |g|)
  }

  predicate RowMajorBefore(a: (int, int), b: (int, int)) {
    a.0 < b.0 || (a.0 == b.0 && a.1 < b.1)
  }

  /** Strictly increasing in row-major order, so no cell appears twice. */
  predicate RowMajor(s: seq<(int, int)>) {
    forall a, b :: 0 <= a < b < |s| ==> RowMajorBefore(s[a], s[b])
  }

  /** The first `j` columns of row `i` contribute exactly their empty cells. */
  lemma {:induction false} FreeInRowMembers(g: Rows, i: int, j: int)
    requires Square(g) && 0 <= i < |g| && 0 <= j <= |g|
    ensures forall p :: p in FreeInRow(g, i, j) <==> p.0 == i && 0 <= p.1 < j && g[i][p.1] == Empty
  {
    if j > 0 {
      FreeInRowMembers(g, i, j - 1);
    }
  }

  /** The free cells of a row lie in that row, left to right. */
  lemma {:induction false} FreeInRowOrdered(g: Rows, i: int, j: int)
    requires Square(g) && 0 <= i < |g| && 0 <= j <= |g|
    ensures forall k :: 0 <= k < |FreeInRow(g, i, j)| ==> FreeInRow(g, i, j)[k].0 == i
    ensures forall k :: 0 <= k < |FreeInRow(g, i, j)| ==> FreeInRow(g, i, j)[k].1 < j
    ensures RowMajor(FreeInRow(g, i, j))
  {
    if j > 0 {
      FreeInRowOrdered(g, i, j - 1);
    }
  }

  /** Row-major lists of earlier rows followed by one of row `r` stay row-major. */
  lemma RowMajorConcat(a: seq<(int, int)>, b: seq<(int, int)>, r: int)
    requires RowMajor(a) && RowMajor(b)
    requires forall k :: 0 <= k < |a| ==> a[k].0 < r
    requires forall k :: 0 <= k < |b| ==> b[k].0 == r
    ensures RowMajor(a + b)
  {
    forall x, y | 0 <= x < y < |a + b| ensures RowMajorBefore((a + b)[x], (a + b)[y]) {
      if y < |a| {
        assert (a + b)[x] == a[x] && (a + b)[y] == a[y];
      } else if x < |a| {
        assert (a + b)[x] == a[x] && (a + b)[y] == b[y - |a|];
      } else {
        assert (a + b)[x] == b[x - |a|] && (a + b)[y] == b[y - |a|];
      }
    }
  }

  /** The first `i` rows contribute exactly their empty cells. */
  lemma {:induction false} FreeBeforeMembers(g: Rows, i: int)
    requires Square(g) && 0 <= i <= |g|
    ensures forall p :: p in FreeBefore(g, i) <==>
      0 <= p.0 < i && 0 <= p.1 < |g| && g[p.0][p.1] == Empty
  {
    if i > 0 {
      FreeBeforeMembers(g, i - 1);
      FreeInRowMembers(g, i - 1, |g|);
      var a, b := FreeBefore(g, i - 1), FreeInRow(g, i - 1, |g|);
      assert FreeBefore(g, i) == a + b;
      forall p: (int, int) ensures p in a + b <==> 0 <= p.0 < i && 0 <= p.1 < |g| && g[p.0][p.1] == Empty {
        if p.0 == i - 1 {
          assert p !in a;
        } else {
          assert p !in b;
        }
      }
    }
  }

  /** The free cells of the first `i` rows lie in those rows, in row-major order. */
  lemma {:induction false} FreeBeforeOrdered(g: Rows, i: int)
    requires Square(g) && 0 <= i <= |g|
    ensures forall k :: 0 <= k < |FreeBefore(g, i)| ==> FreeBefore(g, i)[k].0 < i
    ensures RowMajor(FreeBefore(g, i))
  {
    if i > 0 {
      FreeBeforeOrdered(g, i - 1);
      FreeInRowOrdered(g, i - 1, |g|);
      var a, b := FreeBefore(g, i - 1), FreeInRow(g, i - 1, |g|);
      assert FreeBefore(g, i) == a + b;
      RowMajorConcat(a, b, i - 1);
      assert forall k :: 0 <= k < |a + b| ==> (a + b)[k] == if k < |a| then a[k] else b[k - |a|];
    }
  }

  /** `FreeCells` lists exactly the empty cells, each once, in row-major order. */
  lemma FreeCellsExact(g: Rows)
    requires Square(g)
    ensures forall p :: p in FreeCells(g) <==> 0 <= p.0 < |g| && 0 <= p.1 < |g| && g[p.0][p.1] == Empty
    ensures RowMajor(FreeCells(g))
  {
    FreeBeforeMembers(g, |g|);
    FreeBeforeOrdered(g, |g|);
  }

  lemma {:induction false} PlaceInRow(g: Rows, r: int, c: int, t: PieceType, i: int, j: int)
    requires Square(g) && 0 <= r < |g| && 0 <= c < |g| && g[r][c] == Empty
    requires 0 <= i < |g| && 0 <= j <= |g|
    ensures |FreeInRow(Place(g, r, c, t), i, j)| == |FreeInRow(g, i, j)| - (if i == r && c < j then 1 else 0)
  {
    if j > 0 {
      PlaceInRow(g, r, c, t, i, j - 1);
    }
  }

  lemma {:induction false} PlaceBefore(g: Rows, r: int, c: int, t: PieceType, i: int)
    requires Square(g) && 0 <= r < |g| && 0 <= c < |g| && g[r][c] == Empty
    requires 0 <= i <= |g|
    ensures |FreeBefore(Place(g, r, c, t), i)| == |FreeBefore(g, i)| - (if r < i then 1 else 0)
  {
    if i > 0 {
      PlaceBefore(g, r, c, t, i - 1);
      PlaceInRow(g, r, c, t, i - 1, |g|);
    }
  }

  /** Filling a free cell removes exactly one entry from the free-cell list. */
  lemma PlaceTakesOneFreeCell(g: Rows, r: int, c: int, t: PieceType)
    requires Square(g) && 0 <= r < |g| && 0 <= c < |g| && g[r][c] == Empty
    ensures |FreeCells(Place(g, r, c, t))| == |FreeCells(g)| - 1
  {
    PlaceBefore(g, r, c, t, |g|);
  }

  /** A board is full exactly when it has no free cell. */
  lemma FullIffNoFreeCell(g: Rows)
    requires Square(g)
    ensures Full(g) <==> FreeCells(g) == []
  {
    FreeCellsExact(g);
    if FreeCells(g) != [] {
      var p := FreeCells(g)[0];
      assert p in FreeCells(g);
    }
    if !Full(g) {
      var i, j :| 0 <= i < |g| && 0 <= j < |g| && g[i][j] == Empty;
      assert (i, j) in FreeCells(g);
    }
  }
}
