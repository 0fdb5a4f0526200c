/**
 * The experimental Connect-Four game the experimental tree search plays:
 * a cell is blank or holds a player's number, a state is a board and the
 * player to move, and every move builds a new state.
 */
module ExpConnectFour {
  import opened Wrappers
  import opened FourInARow

  /** `"_"`, or the number of the player whose piece is there. */
  datatype Cell = Blank | Piece(player: int)

  /** `PLAYERS`. */
  const PlayerNone := 0
  const PlayerOne := 1
  const PlayerTwo := 2

  /** `OUTCOMES`; the outcomes of the two players are their numbers. */
  const OutcomeDraw := 3

  /** `ConnectFourState`. */
  datatype State = State(board: Board<Cell>, toPlay: int)

  /** `ConnectFourState()`: a blank board, player one to move. */
  method NewState() returns (s: State)
    ensures IsBoard(s.board) && s.board == BlankBoard(Blank) && s.toPlay == PlayerOne
  {
    var b := CreateBoard(Blank);
    s := State(b, PlayerOne);
  }

  /** `next_player`. */
  function NextPlayer(current: int): int {
    if current == PlayerOne then PlayerTwo else PlayerOne
  }

  /** Player one hands over to two, anyone else to one; so turns alternate between the two players. */
  lemma NextPlayerAlternates(p: int)
    ensures NextPlayer(p) == PlayerOne || NextPlayer(p) == PlayerTwo
    ensures p == PlayerOne || p == PlayerTwo ==> NextPlayer(p) != p && NextPlayer(NextPlayer(p)) == p
    ensures p != PlayerOne ==> NextPlayer(p) == PlayerOne
  {
  }

  /** `make_move`: the mover's piece dropped into `column`, and the turn passed on. */
  function Moved(column: int, s: State): Result<State, Error>
    requires IsBoard(s.board)
  {
    var b :- Dropped(Piece(s.toPlay), column, s.board, Blank);
    Ok(State(b, NextPlayer(s.toPlay)))
  }

  /** `make_move`, dropping the piece with `make_move_to_board`. */
  method MakeMove(column: int, s: State) returns (r: Result<State, Error>)
    requires IsBoard(s.board)
    ensures r == Moved(column, s)
  {
    var b := MakeMoveToBoard(Piece(s.toPlay), column, s.board, Blank);
    if b.Err? {
      return Err(b.error);
    }
    return Ok(State(b.value, NextPlayer(s.toPlay)));
  }

  /**
   * A move succeeds exactly on a column index whose top cell is blank; the
   * new state has the mover's piece in one formerly blank cell of that
   * column, one blank fewer, every other cell as before and the next
   * player to move.
   */
  lemma MovedSpec(column: int, s: State)
    requires IsBoard(s.board)
    ensures Moved(column, s).Ok? <==> -Cols <= column < Cols && s.board[0][ColumnOf(column)] == Blank
    ensures Moved(column, s).Ok? ==>
              var t := Moved(column, s).value;
              var c := ColumnOf(column);
              var r := Landing(s.board, c, Blank);
              && IsBoard(t.board) && t.toPlay == NextPlayer(s.toPlay)
              && 0 <= r < Rows && s.board[r][c] == Blank && t.board[r][c] == Piece(s.toPlay)
              && (forall q, d :: 0 <= q < Rows && 0 <= d < Cols && (q, d) != (r, c) ==> t.board[q][d] == s.board[q][d])
              && Blanks(t.board, Blank) + 1 == Blanks(s.board, Blank)
  {
    DroppedSpec(Piece(s.toPlay), column, s.board, Blank);
    if Moved(column, s).Ok? {
      DroppedFillsBlank(Piece(s.toPlay), column, s.board, Blank);
    }
  }

  /** The columns below `n`, in increasing order, whose top cell is `top`. */
  function ColumnsTopped(b: Board<Cell>, top: Cell, n: nat): seq<int>
    requires IsBoard(b) && n <= Cols
  {
    if n == 0 then [] else ColumnsTopped(b, top, n - 1) + (if b[0][n - 1] == top then [n - 1] else [])
  }

  lemma {:induction false} ColumnsToppedSpec(b: Board<Cell>, top: Cell, n: nat)
    requires IsBoard(b) && n <= Cols
    ensures forall c :: c in ColumnsTopped(b, top, n) <==> 0 <= c < n && b[0][c] == top
    ensures forall i, j :: 0 <= i < j < |ColumnsTopped(b, top, n)| ==> ColumnsTopped(b, top, n)[i] < ColumnsTopped(b, top, n)[j]
  {
    if n > 0 {
      ColumnsToppedSpec(b, top, n - 1);
      var earlier := ColumnsTopped(b, top, n - 1);
      var all := ColumnsTopped(b, top, n);
      assert all == earlier + (if b[0][n - 1] == top then [n - 1] else []);
      forall i, j | 0 <= i < j < |all| ensures all[i] < all[j] {
        if j >= |earlier| {
          assert all[i] in earlier;
        }
      }
    }
  }

  lemma {:induction false} ColumnsToppedNone(b: Board<Cell>, top: Cell, n: nat)
    requires IsBoard(b) && n <= Cols
    requires forall c :: 0 <= c < n ==> b[0][c] != top
    ensures ColumnsTopped(b, top, n) == []
  {
    if n > 0 {
      ColumnsToppedNone(b, top, n - 1);
    }
  }

  /** `get_legal_moves` as written: the columns whose top cell is the number 0, which no board holds. */
  function LegalMovesAsWritten(s: State): seq<int>
    requires IsBoard(s.board)
  {
    ColumnsTopped(s.board, Piece(PlayerNone), Cols)
  }

  /** `get_legal_moves` as intended: the columns whose top cell is blank. */
  function LegalMoves(s: State): seq<int>
    requires IsBoard(s.board)
  {
    ColumnsTopped(s.board, Blank, Cols)
  }

  /** The legal moves are the columns, in increasing order, on which a move succeeds. */
  lemma LegalMovesSpec(s: State)
    requires IsBoard(s.board)
    ensures forall c :: c in LegalMoves(s) <==> 0 <= c < Cols && Moved(c, s).Ok?
    ensures forall i, j :: 0 <= i < j < |LegalMoves(s)| ==> LegalMoves(s)[i] < LegalMoves(s)[j]
  {
    ColumnsToppedSpec(s.board, Blank, Cols);
    forall c | 0 <= c < Cols {
      MovedSpec(c, s);
    }
  }

  /** No move is ever legal by the written test, since pieces are numbered 1 and 2. */
  lemma AsWrittenNoLegalMoves(s: State)
    requires IsBoard(s.board)
    requires forall c :: 0 <= c < Cols ==> s.board[0][c] == Blank || s.board[0][c] == Piece(PlayerOne) || s.board[0][c] == Piece(PlayerTwo)
    ensures LegalMovesAsWritten(s) == []
  {
    ColumnsToppedNone(s.board, Piece(PlayerNone), Cols);
  }

  /** On the opening board the written test finds no move, while all seven columns are open. */
  lemma OpeningMoves()
    ensures LegalMovesAsWritten(State(BlankBoard(Blank), PlayerOne)) == []
    ensures LegalMoves(State(BlankBoard(Blank), PlayerOne)) == [0, 1, 2, 3, 4, 5, 6]
  {
    var s := State(BlankBoard(Blank), PlayerOne);
    AsWrittenNoLegalMoves(s);
  }

  /** `is_a_draw` for the two players' pieces. */
  ghost predicate Draw(b: Board<Cell>)
    requires IsBoard(b)
  {
    IsADraw(b, Piece(PlayerOne), Piece(PlayerTwo), Blank)
  }

  /** `is_over`: a player has won or the board is a draw. */
  ghost predicate IsOver(s: State)
    requires IsBoard(s.board)
  {
    HasWon(Piece(PlayerOne), s.board) || HasWon(Piece(PlayerTwo), s.board) || Draw(s.board)
  }

  /** `is_over`, scan by scan. */
  method CheckOver(s: State) returns (over: bool)
    requires IsBoard(s.board)
    ensures over == IsOver(s)
  {
    over := ScanForFour(Piece(PlayerOne), s.board, Cols - 3, Rows - 3);
    if over {
      return;
    }
    over := ScanForFour(Piece(PlayerTwo), s.board, Cols - 3, Rows - 3);
    if over {
      return;
    }
    over := CheckDraw(s.board, Piece(PlayerOne), Piece(PlayerTwo), Blank);
  }

  /** `get_winner`: a draw first, then player one, then player two, else none. */
  ghost function Winner(s: State): Option<int>
    requires IsBoard(s.board)
  {
    if Draw(s.board) then Some(OutcomeDraw)
    else if HasWon(Piece(PlayerOne), s.board) then Some(PlayerOne)
    else if HasWon(Piece(PlayerTwo), s.board) then Some(PlayerTwo)
    else None
  }

  /** `get_winner`, scan by scan. */
  method GetWinner(s: State) returns (w: Option<int>)
    requires IsBoard(s.board)
    ensures w == Winner(s)
  {
    var draw := CheckDraw(s.board, Piece(PlayerOne), Piece(PlayerTwo), Blank);
    if draw {
      return Some(OutcomeDraw);
    }
    var one := ScanForFour(Piece(PlayerOne), s.board, Cols - 3, Rows - 3);
    if one {
      return Some(PlayerOne);
    }
    var two := ScanForFour(Piece(PlayerTwo), s.board, Cols - 3, Rows - 3);
    if two {
      return Some(PlayerTwo);
    }
    return None;
  }

  /**
   * There is a winner exactly when the game is over; it is the draw
   * outcome exactly for a draw, and otherwise the first player with four
   * in a row.
   */
  lemma WinnerSpec(s: State)
    requires IsBoard(s.board)
    ensures Winner(s).Some? <==> IsOver(s)
    ensures Winner(s) == Some(OutcomeDraw) <==> Draw(s.board)
    ensures Winner(s) == Some(PlayerOne) <==> HasWon(Piece(PlayerOne), s.board)
    ensures Winner(s) == Some(PlayerTwo) <==> HasWon(Piece(PlayerTwo), s.board) && !HasWon(Piece(PlayerOne), s.board)
  {
  }

  /** A game that is not over has a legal move. */
  lemma NotOverHasMoves(s: State)
    requires IsBoard(s.board) && !IsOver(s)
    ensures |LegalMoves(s)| > 0
  {
    var c :| 0 <= c < Cols && s.board[0][c] == Blank;
    ColumnsToppedSpec(s.board, Blank, Cols);
    assert c in LegalMoves(s);
  }
}
