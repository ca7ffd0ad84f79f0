/**
 * The second tic-tac-toe version (tietactoe): a board without bounds checks
 * that lists its free cells, and a game whose players wait in a deque.
 */
module TieTacToe {
  import opened Grid

  class Board {
    const size: nat
    const board: array2<Cell>

    predicate Valid() {
      board.Length0 == size && board.Length1 == size
    }

    function Cells(): Rows
      reads board
      requires Valid()
    {
      Snapshot(board)
    }

    constructor (size: nat)
      ensures this.size == size && Valid() && fresh(board)
      ensures forall i, j :: 0 <= i < size && 0 <= j < size ==> board[i, j] == Empty
    {
      this.size := size;
      board := new Cell[size, size]((i, j) => Empty);
    }

    /**
     * Stores `piece` at (row, col) unless that cell is filled. There is no
     * bounds check, so the cell must be on the board.
     */
    method AddPiece(row: int, col: int, piece: PieceType) returns (added: bool)
      requires Valid() && 0 <= row < size && 0 <= col < size
      modifies board
      ensures added <==> old(board[row, col]) == Empty
      ensures added ==> Cells() == Place(old(Cells()), row, col, piece)
      ensures !added ==> unchanged(board)
    {
      if board[row, col] != Empty {
        return false;
      }
      ghost var before := Cells();
      board[row, col] := Mark(piece);
      SameGrid(Cells(), Place(before, row, col, piece));
      added := true;
    }

    /** The empty cells as (row, column) pairs, in row-major order. */
    method GetFreeCells() returns (cells: seq<(int, int)>)
      requires Valid()
      ensures cells == FreeCells(Cells())
    {
      ghost var g := Cells();
      cells := [];
      for i := 0 to size
        invariant cells == FreeBefore(g, i)
      {
        ghost var start := cells;
        for j := 0 to size
          invariant cells == start + FreeInRow(g, i, j)
        {
          if board[i, j] == Empty {
            cells := cells + [(i, j)];
          }
        }
      }
    }
  }

  datatype Player = Player(name: string, piece: PieceType)

  /** How one turn of the game loop ends; `Winner` carries the mover's name. */
  datatype Outcome = Tie | Retry | Winner(name: string) | Continue

  class TicTacToe {
    var players: seq<Player>
    var game: Board?

    /** Before `Initialize` there are no players and no board. */
    constructor ()
      ensures players == [] && game == null
    {
      players := [];
      game := null;
    }

    /** Player 1 plays X and moves first, Player 2 plays O; the board is an empty 3 by 3. */
    method Initialize()
      modifies this
      ensures players == [Player("Player 1", X), Player("Player 2", O)]
      ensures game != null && fresh(game) && fresh(game.board) && game.size == 3 && game.Valid()
      ensures forall i, j :: 0 <= i < 3 && 0 <= j < 3 ==> game.board[i, j] == Empty
    {
      players := [Player("Player 1", X), Player("Player 2", O)];
      game := new Board(3);
    }

    /**
     * Whether row `row`, column `col`, the main diagonal or the
     * anti-diagonal is entirely `piece`; both diagonals are always checked.
     */
    method IsThereWinner(row: int, col: int, piece: PieceType) returns (won: bool)
      requires game != null && game.Valid() && 0 <= row < game.size && 0 <= col < game.size
      ensures won == LineThrough(game.Cells(), row, col, piece)
    {
      ghost var g := game.Cells();
      var board, n := game.board, game.size;
      assert n == |g|;
      var rowWinner, colWinner, diagonalWinner, antiDiagonalWinner := true, true, true, true;
      for i := 0 to n
        invariant rowWinner == forall k :: 0 <= k < i ==> g[row][k] == Mark(piece)
      {
        if board[row, i] != Mark(piece) { rowWinner := false; }
      }
      for i := 0 to n
        invariant colWinner == forall k :: 0 <= k < i ==> g[k][col] == Mark(piece)
      {
        if board[i, col] != Mark(piece) { colWinner := false; }
      }
      for i := 0 to n
        invariant diagonalWinner == forall k :: 0 <= k < i ==> g[k][k] == Mark(piece)
      {
        if board[i, i] != Mark(piece) { diagonalWinner := false; }
      }
      var i, j := n - 1, 0;
      while i >= 0
        invariant -1 <= i < n && j == n - 1 - i
        invariant antiDiagonalWinner == AntiDiagBelow(g, i, piece)
      {
        AntiDiagBelowStep(g, i, piece);
        if board[i, j] != Mark(piece) { antiDiagonalWinner := false; }
        i, j := i - 1, j + 1;
      }
      AntiDiagBelowAll(g, piece);
      assert rowWinner == RowOf(g, row, piece);
      assert colWinner == ColOf(g, col, piece);
      assert diagonalWinner == DiagOf(g, piece);
      won := rowWinner || colWinner || diagonalWinner || antiDiagonalWinner;
    }

    /**
     * The board half of a turn: a move onto a filled cell asks for a retry
     * and leaves the board alone; otherwise the mover's piece is stored and
     * the move wins when the mover's row, column or a diagonal is full.
     */
    method Move(mover: Player, row: int, col: int) returns (outcome: Outcome)
      requires game != null && game.Valid()
      requires 0 <= row < game.size && 0 <= col < game.size
      modifies game.board
      ensures if old(game.board[row, col]) != Empty then
          outcome == Retry && unchanged(game.board)
        else
          game.Cells() == Place(old(game.Cells()), row, col, mover.piece) &&
          outcome == if LineThrough(game.Cells(), row, col, mover.piece) then Winner(mover.name) else Continue
    {
      var added := game.AddPiece(row, col, mover.piece);
      if !added {
        outcome := Retry;
      } else {
        var won := IsThereWinner(row, col, mover.piece);
        outcome := if won then Winner(mover.name) else Continue;
      }
    }

    /**
     * One pass of the game loop, with the move read as (row, col). The mover
     * leaves the front of the deque. A turn that finds no free cell is a
     * tie, and the mover is not put back. A move onto a filled cell puts the
     * mover back at the front to try again. A stored move sends the mover to
     * the back, and wins when the mover's row, column or a diagonal is full.
     */
    method Turn(row: int, col: int) returns (outcome: Outcome)
      requires game != null && game.Valid() && |players| > 0
      requires FreeCells(game.Cells()) != [] ==> 0 <= row < game.size && 0 <= col < game.size
      modifies this`players, game.board
      ensures var mover := old(players[0]);
        if FreeCells(old(game.Cells())) == [] then
          outcome == Tie && players == old(players[1..]) && unchanged(game.board)
        else if old(game.board[row, col]) != Empty then
          outcome == Retry && players == old(players) && unchanged(game.board)
        else
          players == old(players[1..]) + [mover] &&
          game.Cells() == Place(old(game.Cells()), row, col, mover.piece) &&
          outcome == if LineThrough(game.Cells(), row, col, mover.piece) then Winner(mover.name) else Continue
      ensures outcome != Tie ==> multiset(players) == multiset(old(players))
    {
      var free := game.GetFreeCells();
      var mover := players[0];
      players := players[1..];
      assert old(players) == [mover] + players;
      if |free| == 0 {
        outcome := Tie;
      } else {
        outcome := Move(mover, row, col);
        if outcome == Retry {
          players := [mover] + players;
        } else {
          players := players + [mover];
          assert multiset(players) == multiset(old(players));
        }
      }
    }
  }
}
