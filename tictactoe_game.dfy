/**
 * The bounds-checked tic-tac-toe board and the turn logic of its game loop
 * (practice/ticTacToe/Game).
 */
module TicTacToeGame {
  import opened Options
  import opened Grid

  class Board {
    const size: nat
    const board: array2<Cell>

    predicate Valid() {
      board.Length0 == size && board.Length1 == size
    }

    /** The board's cells as a grid value. */
    function Cells(): Rows
      reads board
      requires Valid()
    {
      Snapshot(board)
    }

    constructor (size: nat)
      ensures this.size == size && Valid() && fresh(board)
      ensures forall i, j :: 0 <= i < size && 0 <= j < size ==> board[i, j] == Empty
    {
      this.size := size;
      board := new Cell[size, size]((i, j) => Empty);
    }

    predicate IsCellEmpty(row: int, col: int): (empty: bool)
      reads board
      requires Valid() && 0 <= row < size && 0 <= col < size
      ensures empty <==> Cells()[row][col] == Empty
    {
      board[row, col] == Empty
    }

    /**
     * Places `piece` when (row, col) is on the board and empty; otherwise
     * refuses and changes nothing. Only that one cell changes.
     */
    method PlacePiece(row: int, col: int, piece: PieceType) returns (placed: bool)
      requires Valid()
      modifies board
      ensures placed <==> 0 <= row < size && 0 <= col < size && old(board[row, col]) == Empty
      ensures placed ==> Cells() == Place(old(Cells()), row, col, piece)
      ensures !placed ==> Cells() == old(Cells())
    {
      if row < 0 || row >= size || col < 0 || col >= size {
        return false;
      }
      if !IsCellEmpty(row, col) {
        return false;
      }
      ghost var before := Cells();
      board[row, col] := Mark(piece);
      SameGrid(Cells(), Place(before, row, col, piece));
      placed := true;
    }

    /** True exactly when some row, some column or either diagonal is all `piece`. */
    method CheckWin(piece: PieceType) returns (won: bool)
      requires Valid()
      ensures won == HasLine(Cells(), piece)
    {
      ghost var g := Cells();
      for i := 0 to size
        invariant forall r :: 0 <= r < i ==> !RowOf(g, r, piece) && !ColOf(g, r, piece)
      {
        var rowWin, colWin := true, true;
        for j := 0 to size
          invariant rowWin == forall k :: 0 <= k < j ==> board[i, k] == Mark(piece)
          invariant colWin == forall k :: 0 <= k < j ==> board[k, i] == Mark(piece)
        {
          if board[i, j] != Mark(piece) { rowWin := false; }
          if board[j, i] != Mark(piece) { colWin := false; }
        }
        if rowWin || colWin {
          assert RowOf(g, i, piece) || ColOf(g, i, piece);
          return true;
        }
      }
      var diag1, diag2 := true, true;
      for i := 0 to size
        invariant diag1 == forall k :: 0 <= k < i ==> g[k][k] == Mark(piece)
        invariant diag2 == forall k :: 0 <= k < i ==> g[k][|g| - 1 - k] == Mark(piece)
      {
        if board[i, i] != Mark(piece) { diag1 := false; }
        if board[i, size - 1 - i] != Mark(piece) { diag2 := false; }
      }
      won := diag1 || diag2;
    }

    /** True exactly when no cell is empty. */
    method IsFull() returns (full: bool)
      requires Valid()
      ensures full == Full(Cells())
    {
      for i := 0 to size
        invariant forall r, c :: 0 <= r < i && 0 <= c < size ==> board[r, c] != Empty
      {
        for j := 0 to size
          invariant forall c :: 0 <= c < j ==> board[i, c] != Empty
        {
          if board[i, j] == Empty {
            return false;
          }
        }
      }
      return true;
    }
  }

  datatype Player = Player(name: string, piece: PieceType)

  /** How one pass of the game loop ends. */
  datatype Turn = Invalid | Wins(player: Player) | Draw | Next

  class Game {
    const players: seq<Player>
    const board: Board
    var currentPlayerIndex: int
    var winner: Option<Player>

    constructor (players: seq<Player>, board: Board)
      ensures this.players == players && this.board == board
      ensures currentPlayerIndex == 0 && winner == None
    {
      this.players := players;
      this.board := board;
      currentPlayerIndex := 0;
      winner := None;
    }

    /** Places the current player's piece; the turn does not pass here. */
    method MakeMove(row: int, col: int) returns (placed: bool)
      requires board.Valid() && 0 <= currentPlayerIndex < |players|
      modifies board.board
      ensures placed <==> 0 <= row < board.size && 0 <= col < board.size && old(board.board[row, col]) == Empty
      ensures placed ==> board.Cells() == Place(old(board.Cells()), row, col, players[currentPlayerIndex].piece)
      ensures !placed ==> board.Cells() == old(board.Cells())
    {
      var current := players[currentPlayerIndex];
      placed := board.PlacePiece(row, col, current.piece);
    }

    /**
     * One pass of the game loop with the move read as (row, col): a refused
     * move keeps the same player; a winning move records the mover (even when
     * it also fills the board); a filling move is a draw; otherwise the turn
     * passes to the next player, cyclically.
     */
    method PlayTurn(row: int, col: int) returns (turn: Turn)
      requires board.Valid() && 0 <= currentPlayerIndex < |players|
      modifies board.board, this`currentPlayerIndex, this`winner
      ensures 0 <= currentPlayerIndex < |players|
      ensures var mover := players[old(currentPlayerIndex)];
        var placed := 0 <= row < board.size && 0 <= col < board.size && old(board.board[row, col]) == Empty;
        if !placed then
          turn == Invalid && board.Cells() == old(board.Cells()) &&
          currentPlayerIndex == old(currentPlayerIndex) && winner == old(winner)
        else
          board.Cells() == Place(old(board.Cells()), row, col, mover.piece) &&
          if HasLine(board.Cells(), mover.piece) then
            turn == Wins(mover) && winner == Some(mover) && currentPlayerIndex == old(currentPlayerIndex)
          else if Full(board.Cells()) then
            turn == Draw && winner == old(winner) && currentPlayerIndex == old(currentPlayerIndex)
          else
            turn == Next && winner == old(winner) &&
            currentPlayerIndex == (old(currentPlayerIndex) + 1) % |players|
    {
      var current := players[currentPlayerIndex];
      var placed := MakeMove(row, col);
      if !placed {
        return Invalid;
      }
      var won := board.CheckWin(current.piece);
      if won {
        winner := Some(current);
        return Wins(current);
      }
      var full := board.IsFull();
      if full {
        return Draw;
      }
      currentPlayerIndex := (currentPlayerIndex + 1) % |players|;
      turn := Next;
    }

    function GetWinner(): (w: Option<Player>)
      reads this
      ensures w == winner
    {
      winner
    }

    /** A draw: nobody has won and the board is full. */
    method IsDraw() returns (draw: bool)
      requires board.Valid()
      ensures draw == (winner == None && Full(board.Cells()))
    {
      var full := board.IsFull();
      draw := winner == None && full;
    }
  }
}
