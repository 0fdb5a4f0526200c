/**
 * The board of the two experimental Connect-Four games: six rows of seven
 * cells, row 0 at the top, each cell blank or holding a player's piece.
 * The two games differ only in what a cell holds (a letter, or a player
 * number beside a blank mark), so the board operations are written once
 * over the cell type `T` and the blank mark `blank`.
 */
module FourInARow {
  import opened Wrappers

  const Rows := 6
  const Cols := 7

  type Board<T> = seq<seq<T>>

  /** The errors a move can raise. */
  datatype Error = ValueError(msg: string) | IndexError

  predicate IsBoard<T>(b: Board<T>) {
    |b| == Rows && forall r :: 0 <= r < |b| ==> |b[r]| == Cols
  }

  /** The board without pieces. */
  function BlankBoard<T>(blank: T): (b: Board<T>)
    ensures IsBoard(b)
  {
    seq(Rows, r => seq(Cols, c => blank))
  }

  /** `create_board`: rows of blanks appended one cell at a time. */
  method CreateBoard<T>(blank: T) returns (board: Board<T>)
    ensures IsBoard(board)
    ensures board == BlankBoard(blank)
  {
    board := [];
    for row := 0 to Rows
      invariant |board| == row
      invariant forall r :: 0 <= r < row ==> |board[r]| == Cols && forall c :: 0 <= c < Cols ==> board[r][c] == blank
    {
      board := board + [[]];
      for col := 0 to Cols
        invariant |board| == row + 1 && |board[row]| == col
        invariant forall c :: 0 <= c < col ==> board[row][c] == blank
        invariant forall r :: 0 <= r < row ==> |board[r]| == Cols && forall c :: 0 <= c < Cols ==> board[r][c] == blank
      {
        board := board[row := board[row] + [blank]];
      }
    }
    forall r | 0 <= r < Rows ensures board[r] == BlankBoard(blank)[r] {
    }
  }

  /** The first row at or below `r` whose cell in column `c` is not blank, or `Rows` when there is none. */
  function FirstFilled<T(==)>(b: Board<T>, c: int, r: nat, blank: T): (f: nat)
    requires IsBoard(b) && 0 <= c < Cols
    ensures r <= f <= Rows || (r > Rows && f == Rows)
    ensures f < Rows ==> b[f][c] != blank
    ensures forall q :: r <= q < f && q < Rows ==> b[q][c] == blank
    decreases Rows - r
  {
    if r >= Rows then Rows
    else if b[r][c] != blank then r
    else FirstFilled(b, c, r + 1, blank)
  }

  /** The row a piece dropped into the open column `c` lands on: the bottom when it is blank, else just above the topmost piece. */
  function Landing<T(==)>(b: Board<T>, c: int, blank: T): int
    requires IsBoard(b) && 0 <= c < Cols
  {
    if b[Rows - 1][c] == blank then Rows - 1 else FirstFilled(b, c, 0, blank) - 1
  }

  /**
   * `make_move_to_board`: a column of 7 or more is refused, a negative one
   * counts from the right as a list index does (below -7 there is no such
   * index), and a column whose top cell is taken is full. Otherwise the
   * piece lands at the column's landing row.
   */
  function Dropped<T(==)>(player: T, column: int, b: Board<T>, blank: T): Result<Board<T>, Error>
    requires IsBoard(b)
  {
    if column >= Cols then Err(ValueError("column must be less than the number of columns"))
    else if column < -Cols then Err(IndexError)
    else
      var c := if column < 0 then column + Cols else column;
      if b[0][c] != blank then Err(ValueError("illegal move: column is full"))
      else
        var r := Landing(b, c, blank);
        Ok(b[r := b[r][c := player]])
  }

  /** The column a list index names. */
  function ColumnOf(column: int): int {
    if column < 0 then column + Cols else column
  }

  /**
   * A move succeeds exactly for a column index of the board whose top cell
   * is blank; it then writes the player into one cell of that column, a
   * blank one, and changes nothing else.
   */
  lemma DroppedSpec<T>(player: T, column: int, b: Board<T>, blank: T)
    requires IsBoard(b)
    ensures Dropped(player, column, b, blank).Ok? <==>
              -Cols <= column < Cols && b[0][ColumnOf(column)] == blank
    ensures column >= Cols ==> Dropped(player, column, b, blank).Err? && Dropped(player, column, b, blank).error.ValueError?
    ensures column < -Cols ==> Dropped(player, column, b, blank) == Err(IndexError)
    ensures Dropped(player, column, b, blank).Ok? ==>
              var c := ColumnOf(column);
              var r := Landing(b, c, blank);
              var nb := Dropped(player, column, b, blank).value;
              && IsBoard(nb) && 0 <= r < Rows && b[r][c] == blank && nb[r][c] == player
              && forall q, d :: 0 <= q < Rows && 0 <= d < Cols && (q, d) != (r, c) ==> nb[q][d] == b[q][d]
  {
  }

  /** Every piece of `b` is still in its cell in `nb`: `nb` is `b` played on. */
  ghost predicate Extends<T>(b: Board<T>, nb: Board<T>, blank: T)
    requires IsBoard(b) && IsBoard(nb)
  {
    forall q, d :: 0 <= q < Rows && 0 <= d < Cols && b[q][d] != blank ==> nb[q][d] == b[q][d]
  }

  /** Pieces rest on pieces: below a piece in a column there is no blank. */
  ghost predicate Settled<T>(b: Board<T>, blank: T)
    requires IsBoard(b)
  {
    forall r, q, c :: 0 <= r < q < Rows && 0 <= c < Cols && b[r][c] != blank ==> b[q][c] != blank
  }

  /**
   * On a settled board a piece lands on the lowest blank cell of its
   * column, and the board stays settled.
   */
  lemma DroppedSettled<T>(player: T, column: int, b: Board<T>, blank: T)
    requires IsBoard(b) && Settled(b, blank) && player != blank
    requires Dropped(player, column, b, blank).Ok?
    ensures var c := ColumnOf(column);
      var r := Landing(b, c, blank);
      && (forall q :: 0 <= q <= r ==> b[q][c] == blank)
      && (r + 1 < Rows ==> b[r + 1][c] != blank)
      && Settled(Dropped(player, column, b, blank).value, blank)
  {
    var c := ColumnOf(column);
    var f := FirstFilled(b, c, 0, blank);
    if b[Rows - 1][c] == blank {
      forall q | 0 <= q < Rows ensures b[q][c] == blank {
      }
    }
  }

  /** `make_move_to_board`, searching the column from the top for the first piece. */
  method MakeMoveToBoard<T(==)>(player: T, column: int, board: Board<T>, blank: T) returns (r: Result<Board<T>, Error>)
    requires IsBoard(board)
    ensures r == Dropped(player, column, board, blank)
  {
    if column >= Cols {
      return Err(ValueError("column must be less than the number of columns"));
    }
    if column < -Cols {
      return Err(IndexError);
    }
    var c := if column < 0 then column + Cols else column;
    if board[0][c] != blank {
      return Err(ValueError("illegal move: column is full"));
    }
    if board[Rows - 1][c] == blank {
      return Ok(board[Rows - 1 := board[Rows - 1][c := player]]);
    }
    var row := 0;
    while board[row][c] == blank
      invariant 0 <= row < Rows
      invariant FirstFilled(board, c, row, blank) == FirstFilled(board, c, 0, blank)
      decreases Rows - row
    {
      row := row + 1;
    }
    return Ok(board[row - 1 := board[row - 1][c := player]]);
  }

  /** The number of blank cells, which every successful move lowers by one. */
  function Blanks<T(==)>(b: Board<T>, blank: T): nat {
    if b == [] then 0 else Blanks(b[..|b| - 1], blank) + RowBlanks(b[|b| - 1], blank)
  }

  function RowBlanks<T(==)>(row: seq<T>, blank: T): nat {
    if row == [] then 0 else RowBlanks(row[..|row| - 1], blank) + (if row[|row| - 1] == blank then 1 else 0)
  }

  lemma {:induction false} RowBlanksUpdate<T>(row: seq<T>, c: nat, x: T, blank: T)
    requires c < |row| && row[c] == blank && x != blank
    ensures RowBlanks(row[c := x], blank) + 1 == RowBlanks(row, blank)
  {
    var n := |row| - 1;
    if c < n {
      RowBlanksUpdate(row[..n], c, x, blank);
      assert row[c := x][..n] == row[..n][c := x];
    } else {
      assert row[c := x][..n] == row[..n];
    }
  }

  lemma {:induction false} BlanksUpdate<T>(b: Board<T>, r: nat, c: nat, x: T, blank: T)
    requires r < |b| && c < |b[r]| && b[r][c] == blank && x != blank
    ensures Blanks(b[r := b[r][c := x]], blank) + 1 == Blanks(b, blank)
  {
    var n := |b| - 1;
    var nb := b[r := b[r][c := x]];
    if r < n {
      BlanksUpdate(b[..n], r, c, x, blank);
      assert nb[..n] == b[..n][r := b[r][c := x]];
    } else {
      RowBlanksUpdate(b[r], c, x, blank);
      assert nb[..n] == b[..n];
    }
  }

  /** A successful move of a piece fills one blank cell. */
  lemma DroppedFillsBlank<T>(player: T, column: int, b: Board<T>, blank: T)
    requires IsBoard(b) && player != blank && Dropped(player, column, b, blank).Ok?
    ensures Blanks(Dropped(player, column, b, blank).value, blank) + 1 == Blanks(b, blank)
  {
    DroppedSpec(player, column, b, blank);
    var c := ColumnOf(column);
    BlanksUpdate(b, Landing(b, c, blank), c, player, blank);
  }

  /** The four cells from (r, c) in direction (dr, dc) lie on the board. */
  predicate Fits(r: int, c: int, dr: int, dc: int) {
    0 <= r < Rows && 0 <= c < Cols && 0 <= r + 3 * dr < Rows && 0 <= c + 3 * dc < Cols
  }

  /** The four cells from (r, c) in direction (dr, dc) lie on the board and all hold `p`. */
  predicate Four<T(==)>(b: Board<T>, p: T, r: int, c: int, dr: int, dc: int)
    requires IsBoard(b) && -1 <= dr <= 1 && -1 <= dc <= 1
  {
    && Fits(r, c, dr, dc)
    && b[r][c] == p && b[r + dr][c + dc] == p && b[r + 2 * dr][c + 2 * dc] == p && b[r + 3 * dr][c + 3 * dc] == p
  }

  /** Some window starting in rows `r0..r1` and columns `c0..c1` is four in a row of `p`. */
  ghost predicate Group<T>(b: Board<T>, p: T, r0: int, r1: int, c0: int, c1: int, dr: int, dc: int)
    requires IsBoard(b) && -1 <= dr <= 1 && -1 <= dc <= 1
  {
    exists r, c :: r0 <= r < r1 && c0 <= c < c1 && Four(b, p, r, c, dr, dc)
  }

  /**
   * `has_won` with the given bounds on its diagonal scans: rows left to
   * right, columns top down, rising diagonals from rows 3 to 5 and falling
   * diagonals from rows `0..fallRows`, both from columns `0..diagCols`.
   */
  ghost predicate HasWonWithin<T>(p: T, b: Board<T>, diagCols: int, fallRows: int)
    requires IsBoard(b)
  {
    || Group(b, p, 0, Rows, 0, Cols - 3, 0, 1)
    || Group(b, p, 0, Rows - 3, 0, Cols, 1, 0)
    || Group(b, p, 3, Rows, 0, diagCols, -1, 1)
    || Group(b, p, 0, fallRows, 0, diagCols, 1, 1)
  }

  /** `has_won` as written: both diagonal scans stop a column short, and the falling one a row short. */
  ghost predicate HasWonAsWritten<T>(p: T, b: Board<T>)
    requires IsBoard(b)
  {
    HasWonWithin(p, b, Cols - 4, Rows - 4)
  }

  /** `has_won` as intended: every window of four on the board is scanned. */
  ghost predicate HasWon<T>(p: T, b: Board<T>)
    requires IsBoard(b)
  {
    HasWonWithin(p, b, Cols - 3, Rows - 3)
  }

  /** Four in a row of `p` anywhere: in a row, a column, a rising or a falling diagonal. */
  ghost predicate LineOfFour<T>(p: T, b: Board<T>)
    requires IsBoard(b)
  {
    exists r, c :: Four(b, p, r, c, 0, 1) || Four(b, p, r, c, 1, 0) || Four(b, p, r, c, -1, 1) || Four(b, p, r, c, 1, 1)
  }

  /** The intended `has_won` finds exactly the boards with four in a row. */
  lemma HasWonIsLineOfFour<T>(p: T, b: Board<T>)
    requires IsBoard(b)
    ensures HasWon(p, b) <==> LineOfFour(p, b)
  {
    if LineOfFour(p, b) {
      var r, c :| Four(b, p, r, c, 0, 1) || Four(b, p, r, c, 1, 0) || Four(b, p, r, c, -1, 1) || Four(b, p, r, c, 1, 1);
      if Four(b, p, r, c, 0, 1) {
        assert Group(b, p, 0, Rows, 0, Cols - 3, 0, 1);
      } else if Four(b, p, r, c, 1, 0) {
        assert Group(b, p, 0, Rows - 3, 0, Cols, 1, 0);
      } else if Four(b, p, r, c, -1, 1) {
        assert Group(b, p, 3, Rows, 0, Cols - 3, -1, 1);
      } else {
        assert Group(b, p, 0, Rows - 3, 0, Cols - 3, 1, 1);
      }
    }
  }

  /** Everything the written scan finds is a real four in a row. */
  lemma AsWrittenFindsOnlyWins<T>(p: T, b: Board<T>)
    requires IsBoard(b)
    ensures HasWonAsWritten(p, b) ==> HasWon(p, b)
  {
  }

  /** The board with `p` on the given cells and blanks elsewhere. */
  function Placed<T>(blank: T, p: T, cells: set<(int, int)>): (b: Board<T>)
    ensures IsBoard(b)
    ensures forall r, c :: 0 <= r < Rows && 0 <= c < Cols ==> b[r][c] == if (r, c) in cells then p else blank
  {
    seq(Rows, r => seq(Cols, c => if (r, c) in cells then p else blank))
  }

  /** A rising diagonal from the bottom row in column 3 to column 6 is a win the written scan misses. */
  lemma RisingDiagonalMissed<T>(blank: T, p: T)
    requires p != blank
    ensures var b := Placed(blank, p, {(5, 3), (4, 4), (3, 5), (2, 6)});
      HasWon(p, b) && !HasWonAsWritten(p, b)
  {
    var b := Placed(blank, p, {(5, 3), (4, 4), (3, 5), (2, 6)});
    assert Four(b, p, 5, 3, -1, 1);
  }

  /** A falling diagonal from row 2, column 0 to the bottom row is a win the written scan misses. */
  lemma FallingDiagonalMissed<T>(blank: T, p: T)
    requires p != blank
    ensures var b := Placed(blank, p, {(2, 0), (3, 1), (4, 2), (5, 3)});
      HasWon(p, b) && !HasWonAsWritten(p, b)
  {
    var b := Placed(blank, p, {(2, 0), (3, 1), (4, 2), (5, 3)});
    assert Four(b, p, 2, 0, 1, 1);
  }

  /** Every window starting in the given rows and columns lies on the board. */
  predicate GroupFits(r0: int, r1: int, c0: int, c1: int, dr: int, dc: int) {
    forall r, c :: r0 <= r < r1 && c0 <= c < c1 ==> Fits(r, c, dr, dc)
  }

  /** One pair of nested loops of `has_won`: every window starting in the given rows and columns is compared with `player`. */
  method ScanGroup<T(==)>(player: T, b: Board<T>, r0: int, r1: int, c0: int, c1: int, dr: int, dc: int) returns (found: bool)
    requires IsBoard(b) && -1 <= dr <= 1 && -1 <= dc <= 1
    requires r0 <= r1 && c0 <= c1 && GroupFits(r0, r1, c0, c1, dr, dc)
    ensures found == Group(b, player, r0, r1, c0, c1, dr, dc)
  {
    for r := r0 to r1
      invariant forall q, c :: r0 <= q < r && c0 <= c < c1 ==> !Four(b, player, q, c, dr, dc)
    {
      for c := c0 to c1
        invariant forall q, d :: r0 <= q < r && c0 <= d < c1 ==> !Four(b, player, q, d, dr, dc)
        invariant forall d :: c0 <= d < c ==> !Four(b, player, r, d, dr, dc)
      {
        assert Fits(r, c, dr, dc);
        if b[r][c] == player && b[r + dr][c + dc] == player
           && b[r + 2 * dr][c + 2 * dc] == player && b[r + 3 * dr][c + 3 * dc] == player {
          assert Four(b, player, r, c, dr, dc);
          return true;
        }
      }
    }
    return false;
  }

  /** `has_won` with the given diagonal bounds, scan by scan. */
  method ScanForFour<T(==)>(player: T, b: Board<T>, diagCols: int, fallRows: int) returns (won: bool)
    requires IsBoard(b) && 0 <= diagCols <= Cols - 3 && 0 <= fallRows <= Rows - 3
    ensures won == HasWonWithin(player, b, diagCols, fallRows)
  {
    won := ScanGroup(player, b, 0, Rows, 0, Cols - 3, 0, 1);
    if won {
      return;
    }
    won := ScanGroup(player, b, 0, Rows - 3, 0, Cols, 1, 0);
    if won {
      return;
    }
    won := ScanGroup(player, b, 3, Rows, 0, diagCols, -1, 1);
    if won {
      return;
    }
    won := ScanGroup(player, b, 0, fallRows, 0, diagCols, 1, 1);
  }

  /** `is_a_draw`: the top row is full and neither player has four in a row. */
  ghost predicate IsADraw<T>(b: Board<T>, one: T, two: T, blank: T)
    requires IsBoard(b)
  {
    (forall c :: 0 <= c < Cols ==> b[0][c] != blank) && !HasWon(one, b) && !HasWon(two, b)
  }

  /** `is_a_draw`, looking along the top row for a blank first. */
  method CheckDraw<T(==)>(b: Board<T>, one: T, two: T, blank: T) returns (draw: bool)
    requires IsBoard(b)
    ensures draw == IsADraw(b, one, two, blank)
  {
    for c := 0 to Cols
      invariant forall d :: 0 <= d < c ==> b[0][d] != blank
    {
      if b[0][c] == blank {
        return false;
      }
    }
    var oneWon := ScanForFour(one, b, Cols - 3, Rows - 3);
    var twoWon := ScanForFour(two, b, Cols - 3, Rows - 3);
    draw := !oneWon && !twoWon;
  }
}
