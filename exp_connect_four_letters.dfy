/**
 * The first experimental Connect-Four board: cells hold the letter of a
 * player, `X` or `O`, or `_` when blank, and moves return new boards.
 */
module LetterConnectFour {
  import opened Wrappers
  import F = FourInARow

  type Board = F.Board<char>

  const Blank := '_'
  const X := 'X'
  const O := 'O'

  /** `newBoard`. */
  method NewBoard() returns (b: Board)
    ensures F.IsBoard(b) && b == F.BlankBoard(Blank)
  {
    b := F.CreateBoard(Blank);
  }

  /** `makeMove`. */
  method MakeMove(player: char, column: int, board: Board) returns (r: Result<Board, F.Error>)
    requires F.IsBoard(board)
    ensures r == F.Dropped(player, column, board, Blank)
  {
    r := F.MakeMoveToBoard(player, column, board, Blank);
  }

  /** `hasWon`, with every window scanned. */
  method HasWon(player: char, board: Board) returns (won: bool)
    requires F.IsBoard(board)
    ensures won == F.HasWon(player, board)
  {
    won := F.ScanForFour(player, board, F.Cols - 3, F.Rows - 3);
  }

  /** `isADraw`. */
  method IsADraw(board: Board) returns (draw: bool)
    requires F.IsBoard(board)
    ensures draw == F.IsADraw(board, X, O, Blank)
  {
    draw := F.CheckDraw(board, X, O, Blank);
  }

  /** The board `b` with `x` written at row `r`, column `c`. */
  function Put(b: Board, r: nat, c: nat, x: char): Board
    requires r < |b| && c < |b[r]|
  {
    b[r := b[r][c := x]]
  }

  /**
   * Moves stack up a column from the bottom: an `X` dropped into the empty
   * last column lands in the bottom row, an `O` lands on it, and `X`, `O`,
   * `X` dropped into column 2 fill its three lowest cells.
   */
  lemma MovesStack()
    ensures var b0 := F.BlankBoard(Blank);
      var b1 := Put(b0, 5, 6, X);
      && F.Dropped(X, 6, b0, Blank) == Ok(b1)
      && F.Dropped(O, 6, b1, Blank) == Ok(Put(b1, 4, 6, O))
    ensures var b0 := F.BlankBoard(Blank);
      var c1 := Put(b0, 5, 2, X);
      var c2 := Put(c1, 4, 2, O);
      && F.Dropped(X, 2, b0, Blank) == Ok(c1)
      && F.Dropped(O, 2, c1, Blank) == Ok(c2)
      && F.Dropped(X, 2, c2, Blank) == Ok(Put(c2, 3, 2, X))
  {
    var b0 := F.BlankBoard(Blank);
    var b1 := Put(b0, 5, 6, X);
    assert F.FirstFilled(b1, 6, 0, Blank) == 5 by {
      assert b1[0][6] == Blank && b1[1][6] == Blank && b1[2][6] == Blank && b1[3][6] == Blank && b1[4][6] == Blank;
    }
    var c1 := Put(b0, 5, 2, X);
    var c2 := Put(c1, 4, 2, O);
    assert F.FirstFilled(c1, 2, 0, Blank) == 5 by {
      assert c1[0][2] == Blank && c1[1][2] == Blank && c1[2][2] == Blank && c1[3][2] == Blank && c1[4][2] == Blank;
    }
    assert F.FirstFilled(c2, 2, 0, Blank) == 4 by {
      assert c2[0][2] == Blank && c2[1][2] == Blank && c2[2][2] == Blank && c2[3][2] == Blank && c2[4][2] != Blank;
    }
  }

  /** A column past the last one, and a full column, are refused. */
  lemma MovesRefused()
    ensures F.Dropped(O, F.Cols, Put(F.BlankBoard(Blank), 5, 6, X), Blank).Err?
    ensures var full := seq(F.Rows, r => seq(F.Cols, c => if c == 2 then X else Blank));
      F.Dropped(O, 2, full, Blank) == Err(F.ValueError("illegal move: column is full"))
  {
  }

  /** Four `O`s stacked on an `X` in column 3 win for `O` and not for `X`. */
  lemma VerticalWin()
    ensures var b := Put(F.Placed(Blank, O, {(1, 3), (2, 3), (3, 3), (4, 3)}), 5, 3, X);
      F.HasWon(O, b) && !F.HasWon(X, b)
  {
    var b := Put(F.Placed(Blank, O, {(1, 3), (2, 3), (3, 3), (4, 3)}), 5, 3, X);
    assert F.Four(b, O, 1, 3, 1, 0);
    assert forall r, c :: 0 <= r < F.Rows && 0 <= c < F.Cols ==> b[r][c] != X || (r, c) == (5, 3);
  }

  /**
   * Four `X`s dropped into column 2 of the blank board fill its four lowest
   * cells, and win for `X` and not for `O`.
   */
  lemma DroppedVerticalWin()
    ensures var b0 := F.BlankBoard(Blank);
      var b1 := Put(b0, 5, 2, X);
      var b2 := Put(b1, 4, 2, X);
      var b3 := Put(b2, 3, 2, X);
      var b4 := Put(b3, 2, 2, X);
      && F.Dropped(X, 2, b0, Blank) == Ok(b1)
      && F.Dropped(X, 2, b1, Blank) == Ok(b2)
      && F.Dropped(X, 2, b2, Blank) == Ok(b3)
      && F.Dropped(X, 2, b3, Blank) == Ok(b4)
      && F.HasWon(X, b4) && !F.HasWon(O, b4)
  {
    var b0 := F.BlankBoard(Blank);
    var b1 := Put(b0, 5, 2, X);
    var b2 := Put(b1, 4, 2, X);
    var b3 := Put(b2, 3, 2, X);
    var b4 := Put(b3, 2, 2, X);
    assert F.FirstFilled(b1, 2, 0, Blank) == 5 by {
      assert b1[0][2] == Blank && b1[1][2] == Blank && b1[2][2] == Blank && b1[3][2] == Blank && b1[4][2] == Blank;
    }
    assert F.FirstFilled(b2, 2, 0, Blank) == 4 by {
      assert b2[0][2] == Blank && b2[1][2] == Blank && b2[2][2] == Blank && b2[3][2] == Blank && b2[4][2] != Blank;
    }
    assert F.FirstFilled(b3, 2, 0, Blank) == 3 by {
      assert b3[0][2] == Blank && b3[1][2] == Blank && b3[2][2] == Blank && b3[3][2] != Blank;
    }
    assert F.Four(b4, X, 2, 2, 1, 0);
    assert forall r, c :: 0 <= r < F.Rows && 0 <= c < F.Cols ==> b4[r][c] != O;
  }

  /** The full board of the horizontal-win example: four `O`s in row 3. */
  const HorizontalBoard: Board := [
    "XXOOXOX",
    "OXXOXXX",
    "OOOXXOO",
    "XXXOOOO",
    "OOXXXOX",
    "XOXOOXO"
  ]

  /** The full board of the draw example. */
  const DrawBoard: Board := [
    "XXOOXOX",
    "OXXOXXX",
    "OOOXXOO",
    "XXXOOOX",
    "OOXXXOX",
    "XOXOOXO"
  ]

  /** No window of direction (dr, dc) starting in rows r0..r1 holds four of `p`. */
  ghost predicate NoWindows(b: Board, p: char, dr: int, dc: int, r0: int, r1: int)
    requires F.IsBoard(b) && -1 <= dr <= 1 && -1 <= dc <= 1
  {
    !F.Group(b, p, r0, r1, 0, if dc == 0 then F.Cols else F.Cols - 3, dr, dc)
  }

  lemma HorizontalBoardRows()
    ensures F.IsBoard(HorizontalBoard) && NoWindows(HorizontalBoard, X, 0, 1, 0, F.Rows)
  {
  }

  lemma HorizontalBoardColumns()
    ensures F.IsBoard(HorizontalBoard) && NoWindows(HorizontalBoard, X, 1, 0, 0, F.Rows - 3)
  {
  }

  lemma HorizontalBoardDiagonals()
    ensures F.IsBoard(HorizontalBoard) && NoWindows(HorizontalBoard, X, -1, 1, 3, F.Rows)
    ensures NoWindows(HorizontalBoard, X, 1, 1, 0, F.Rows - 3)
  {
  }

  /** Four `O`s at the right end of row 3 win for `O`, and `X` has no four in a row. */
  lemma HorizontalWin()
    ensures F.IsBoard(HorizontalBoard)
    ensures F.HasWon(O, HorizontalBoard) && !F.HasWon(X, HorizontalBoard)
  {
    assert F.Four(HorizontalBoard, O, 3, 3, 0, 1);
    HorizontalBoardRows();
    HorizontalBoardColumns();
    HorizontalBoardDiagonals();
  }

  lemma DrawBoardRows(p: char)
    requires p == X || p == O
    ensures F.IsBoard(DrawBoard) && NoWindows(DrawBoard, p, 0, 1, 0, F.Rows)
  {
  }

  lemma DrawBoardColumns(p: char)
    requires p == X || p == O
    ensures F.IsBoard(DrawBoard) && NoWindows(DrawBoard, p, 1, 0, 0, F.Rows - 3)
  {
  }

  lemma DrawBoardDiagonals(p: char)
    requires p == X || p == O
    ensures F.IsBoard(DrawBoard) && NoWindows(DrawBoard, p, -1, 1, 3, F.Rows)
    ensures NoWindows(DrawBoard, p, 1, 1, 0, F.Rows - 3)
  {
  }

  /** The full board without four in a row is a draw. */
  lemma DrawFound()
    ensures F.IsBoard(DrawBoard) && F.IsADraw(DrawBoard, X, O, Blank)
  {
    DrawBoardRows(X);
    DrawBoardRows(O);
    DrawBoardColumns(X);
    DrawBoardColumns(O);
    DrawBoardDiagonals(X);
    DrawBoardDiagonals(O);
  }
}
