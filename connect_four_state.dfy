/**
 * The Connect-Four state searched by the Monte Carlo player: a board of
 * player numbers (0 for an empty cell, row 0 at the top), the lowest empty
 * row of every column, the player to move and the last cell played.
 *
 * The constants module the source reads its sizes and player numbers from is
 * not part of this model, so they are the fields of a `Config`.
 */
module ConnectFourState {
  import opened Wrappers

  /** Board size, player numbers and outcome numbers. */
  datatype Config = Config(rows: nat, cols: nat, one: int, two: int, draw: int, outcomeOne: int, outcomeTwo: int)

  /** Sizes are positive and the two players are distinct non-zero numbers. */
  predicate ConfigValid(cfg: Config) {
    cfg.rows > 0 && cfg.cols > 0 && cfg.one != 0 && cfg.two != 0 && cfg.one != cfg.two
  }

  /** The usual six by seven game with players 1 and 2 and outcome draw 3. */
  const Standard := Config(6, 7, 1, 2, 3, 1, 2)

  type Grid = seq<seq<int>>

  /** The value of a state: board, heights, player to move, last cell played. */
  datatype Position = Position(grid: Grid, height: seq<int>, toPlay: int, lastPlayed: Option<(int, int)>)

  predicate Shape(cfg: Config, g: Grid) {
    |g| == cfg.rows && forall r :: 0 <= r < |g| ==> |g[r]| == cfg.cols
  }

  predicate InGrid(cfg: Config, r: int, c: int) {
    0 <= r < cfg.rows && 0 <= c < cfg.cols
  }

  /** The board has the configured size and there is a height for every column. */
  predicate Sized(cfg: Config, p: Position) {
    Shape(cfg, p.grid) && |p.height| == cfg.cols
  }

  /**
   * The position of a game played by the rules: every height is the lowest
   * empty row of its column (cells up to it are 0, cells below are played),
   * every cell is empty or holds one of the two players, the player to move
   * is one of the two, and the last cell played is a filled cell of the
   * board.
   */
  ghost predicate Settled(cfg: Config, p: Position)
    requires Sized(cfg, p)
  {
    && (p.toPlay == cfg.one || p.toPlay == cfg.two)
    && (p.lastPlayed.Some? ==> InGrid(cfg, p.lastPlayed.value.0, p.lastPlayed.value.1))
    && (p.lastPlayed.Some? ==> p.grid[p.lastPlayed.value.0][p.lastPlayed.value.1] != 0)
    && (forall r, c :: InGrid(cfg, r, c) ==> p.grid[r][c] in {0, cfg.one, cfg.two})
    && forall c :: 0 <= c < cfg.cols ==>
         && -1 <= p.height[c] < cfg.rows
         && forall r :: 0 <= r < cfg.rows ==> (p.grid[r][c] == 0 <==> r <= p.height[c])
  }

  /** A valid configuration and a position of its size reached by the rules. */
  ghost predicate PosValid(cfg: Config, p: Position) {
    ConfigValid(cfg) && Sized(cfg, p) && Settled(cfg, p)
  }

  /** The state `ConnectState()` starts in. */
  function Initial(cfg: Config): (p: Position)
    ensures Shape(cfg, p.grid) && |p.height| == cfg.cols
    ensures forall r, c :: 0 <= r < cfg.rows && 0 <= c < cfg.cols ==> p.grid[r][c] == 0
    ensures forall c :: 0 <= c < cfg.cols ==> p.height[c] == cfg.rows - 1
    ensures p.toPlay == cfg.one && p.lastPlayed.None?
  {
    Position(seq(cfg.rows, r => seq(cfg.cols, c => 0)), seq(cfg.cols, c => cfg.rows - 1), cfg.one, None)
  }

  lemma InitialValid(cfg: Config)
    requires ConfigValid(cfg)
    ensures PosValid(cfg, Initial(cfg))
  {
  }

  /** The player after `t`. */
  function Other(cfg: Config, t: int): int {
    if t == cfg.one then cfg.two else cfg.one
  }

  /** A column a piece can be dropped into: its top cell is empty. */
  predicate Legal(cfg: Config, p: Position, col: int)
    requires Shape(cfg, p.grid) && cfg.rows > 0
  {
    0 <= col < cfg.cols && p.grid[0][col] == 0
  }

  /** `move`: the piece of the player to move lands at the column's height, which goes up one row. */
  function Play(cfg: Config, p: Position, col: int): Position
    requires Shape(cfg, p.grid) && |p.height| == cfg.cols
    requires 0 <= col < cfg.cols && 0 <= p.height[col] < cfg.rows
  {
    var h := p.height[col];
    Position(p.grid[h := p.grid[h][col := p.toPlay]], p.height[col := h - 1], Other(cfg, p.toPlay), Some((h, col)))
  }

  /**
   * A move in a legal column of a valid position keeps it valid; it writes
   * the mover's number into exactly one cell, the lowest empty one of the
   * column, and passes the turn.
   */
  lemma PlayKeepsValid(cfg: Config, p: Position, col: int)
    requires PosValid(cfg, p) && Legal(cfg, p, col)
    ensures 0 <= p.height[col] < cfg.rows
    ensures var q := Play(cfg, p, col);
      && PosValid(cfg, q)
      && q.grid[p.height[col]][col] == p.toPlay
      && p.grid[p.height[col]][col] == 0
      && (p.height[col] + 1 < cfg.rows ==> p.grid[p.height[col] + 1][col] != 0)
      && (forall r, c :: InGrid(cfg, r, c) && (r, c) != (p.height[col], col) ==> q.grid[r][c] == p.grid[r][c])
      && q.toPlay == Other(cfg, p.toPlay) && q.toPlay != p.toPlay
      && q.lastPlayed == Some((p.height[col], col))
  {
    var q := Play(cfg, p, col);
    assert p.grid[0][col] == 0;
    var h := p.height[col];
    forall c | 0 <= c < cfg.cols
      ensures -1 <= q.height[c] < cfg.rows
      ensures forall r :: 0 <= r < cfg.rows ==> (q.grid[r][c] == 0 <==> r <= q.height[c])
    {
    }
  }

  /** The columns below `n` that are legal, in increasing order. */
  function LegalUpTo(cfg: Config, p: Position, n: nat): seq<int>
    requires Shape(cfg, p.grid) && cfg.rows > 0 && n <= cfg.cols
  {
    if n == 0 then [] else LegalUpTo(cfg, p, n - 1) + (if p.grid[0][n - 1] == 0 then [n - 1] else [])
  }

  /** `get_legal_moves`. */
  function LegalMoves(cfg: Config, p: Position): seq<int>
    requires Shape(cfg, p.grid) && cfg.rows > 0
  {
    LegalUpTo(cfg, p, cfg.cols)
  }

  /** The legal moves are exactly the columns whose top cell is empty, in increasing order. */
  lemma {:induction false} LegalUpToSpec(cfg: Config, p: Position, n: nat)
    requires Shape(cfg, p.grid) && cfg.rows > 0 && n <= cfg.cols
    ensures forall i, j :: 0 <= i < j < |LegalUpTo(cfg, p, n)| ==> LegalUpTo(cfg, p, n)[i] < LegalUpTo(cfg, p, n)[j]
    ensures forall c :: c in LegalUpTo(cfg, p, n) <==> 0 <= c < n && Legal(cfg, p, c)
  {
    if n > 0 {
      var m := n - 1;
      LegalUpToSpec(cfg, p, m);
      var earlier := LegalUpTo(cfg, p, m);
      assert forall x :: x in earlier ==> x < m;
      var all := LegalUpTo(cfg, p, n);
      assert all == earlier + (if p.grid[0][m] == 0 then [m] else []);
      forall i, j | 0 <= i < j < |all|
        ensures all[i] < all[j]
      {
        if j >= |earlier| {
          assert all[i] in earlier;
        }
      }
    }
  }

  lemma LegalMovesSpec(cfg: Config, p: Position)
    requires Shape(cfg, p.grid) && cfg.rows > 0
    ensures forall i, j :: 0 <= i < j < |LegalMoves(cfg, p)| ==> LegalMoves(cfg, p)[i] < LegalMoves(cfg, p)[j]
    ensures forall c :: c in LegalMoves(cfg, p) <==> Legal(cfg, p, c)
  {
    LegalUpToSpec(cfg, p, cfg.cols);
  }

  /** `n` steps from `x` in direction `d` (one of -1, 0, 1). */
  function Shift(x: int, n: int, d: int): int {
    if d > 0 then x + n else if d < 0 then x - n else x
  }

  /** A direction on the board. */
  predicate IsDir(dr: int, dc: int) {
    -1 <= dr <= 1 && -1 <= dc <= 1 && (dr != 0 || dc != 0)
  }

  /** The cell is on the board and holds `v`. */
  predicate Holds(cfg: Config, g: Grid, r: int, c: int, v: int)
    requires Shape(cfg, g)
  {
    InGrid(cfg, r, c) && g[r][c] == v
  }

  /** The number of cells holding `v` that follow (r, c) in direction (dr, dc) without a gap. */
  function Run(cfg: Config, g: Grid, r: int, c: int, dr: int, dc: int, v: int): nat
    requires Shape(cfg, g) && InGrid(cfg, r, c) && IsDir(dr, dc)
    decreases (if dr > 0 then cfg.rows - r else if dr < 0 then r + 1 else 0)
            + (if dc > 0 then cfg.cols - c else if dc < 0 then c + 1 else 0)
  {
    if Holds(cfg, g, r + dr, c + dc, v) then 1 + Run(cfg, g, r + dr, c + dc, dr, dc, v) else 0
  }

  /** Every cell counted by a run holds the value. */
  lemma {:induction false} RunCells(cfg: Config, g: Grid, r: int, c: int, dr: int, dc: int, v: int, j: int)
    requires Shape(cfg, g) && InGrid(cfg, r, c) && IsDir(dr, dc)
    requires 1 <= j <= Run(cfg, g, r, c, dr, dc, v)
    ensures Along(cfg, g, r, c, dr, dc, v, j)
    decreases j
  {
    if j > 1 {
      RunCells(cfg, g, r + dr, c + dc, dr, dc, v, j - 1);
    }
  }

  /** The cell `o` steps from (r, c) in direction (dr, dc) is on the board and holds `v`. */
  predicate Along(cfg: Config, g: Grid, r: int, c: int, dr: int, dc: int, v: int, o: int)
    requires Shape(cfg, g)
  {
    Holds(cfg, g, Shift(r, o, dr), Shift(c, o, dc), v)
  }

  /** A run is at least as long as any gap-free stretch of cells holding the value. */
  lemma {:induction false} RunAtLeast(cfg: Config, g: Grid, r: int, c: int, dr: int, dc: int, v: int, a: nat)
    requires Shape(cfg, g) && InGrid(cfg, r, c) && IsDir(dr, dc)
    requires forall o :: 1 <= o <= a ==> Along(cfg, g, r, c, dr, dc, v, o)
    ensures Run(cfg, g, r, c, dr, dc, v) >= a
    decreases a
  {
    if a > 0 {
      assert Along(cfg, g, r, c, dr, dc, v, 1);
      var r1, c1 := r + dr, c + dc;
      forall o | 1 <= o <= a - 1
        ensures Along(cfg, g, r1, c1, dr, dc, v, o)
      {
        assert Along(cfg, g, r, c, dr, dc, v, o + 1);
      }
      RunAtLeast(cfg, g, r1, c1, dr, dc, v, a - 1);
    }
  }

  /** The length of the line of equal cells through (r, c) in direction (dr, dc), both ways. */
  function Line(cfg: Config, g: Grid, r: int, c: int, dr: int, dc: int): nat
    requires Shape(cfg, g) && InGrid(cfg, r, c) && IsDir(dr, dc)
  {
    1 + Run(cfg, g, r, c, dr, dc, g[r][c]) + Run(cfg, g, r, c, -dr, -dc, g[r][c])
  }

  /** The four cells from offset `s` on, in direction (dr, dc), all hold what (r, c) holds. */
  predicate FourFrom(cfg: Config, g: Grid, r: int, c: int, dr: int, dc: int, s: int)
    requires Shape(cfg, g) && InGrid(cfg, r, c)
  {
    forall o :: s <= o < s + 4 ==> Along(cfg, g, r, c, dr, dc, g[r][c], o)
  }

  /** Four consecutive cells in direction (dr, dc), one of them (r, c), all hold what (r, c) holds. */
  ghost predicate FourThrough(cfg: Config, g: Grid, r: int, c: int, dr: int, dc: int)
    requires Shape(cfg, g) && InGrid(cfg, r, c)
  {
    exists s :: -3 <= s <= 0 && FourFrom(cfg, g, r, c, dr, dc, s)
  }

  /** A line of at least four holds four in a row through the cell. */
  lemma LineGivesFour(cfg: Config, g: Grid, r: int, c: int, dr: int, dc: int)
    requires Shape(cfg, g) && InGrid(cfg, r, c) && IsDir(dr, dc)
    requires Line(cfg, g, r, c, dr, dc) >= 4
    ensures FourThrough(cfg, g, r, c, dr, dc)
  {
    var v := g[r][c];
    var fwd := Run(cfg, g, r, c, dr, dc, v);
    var a: int := if fwd < 3 then fwd else 3;
    var s: int := a - 3;
    forall o: int | s <= o < s + 4
      ensures Along(cfg, g, r, c, dr, dc, v, o)
    {
      if o > 0 {
        RunCells(cfg, g, r, c, dr, dc, v, o);
      } else if o < 0 {
        RunCells(cfg, g, r, c, -dr, -dc, v, -o);
      }
    }
    assert FourFrom(cfg, g, r, c, dr, dc, s);
  }

  /** Four in a row through the cell makes a line of at least four. */
  lemma FourGivesLine(cfg: Config, g: Grid, r: int, c: int, dr: int, dc: int)
    requires Shape(cfg, g) && InGrid(cfg, r, c) && IsDir(dr, dc)
    requires FourThrough(cfg, g, r, c, dr, dc)
    ensures Line(cfg, g, r, c, dr, dc) >= 4
  {
    var v := g[r][c];
    var s :| -3 <= s <= 0 && FourFrom(cfg, g, r, c, dr, dc, s);
    RunAtLeast(cfg, g, r, c, dr, dc, v, s + 3);
    var ndr, ndc := -dr, -dc;
    forall o | 1 <= o <= -s
      ensures Along(cfg, g, r, c, ndr, ndc, v, o)
    {
      assert Along(cfg, g, r, c, dr, dc, v, -o);
    }
    RunAtLeast(cfg, g, r, c, ndr, ndc, v, -s);
  }

  /** A line of at least four is the same as four in a row through the cell. */
  lemma LineMeansFour(cfg: Config, g: Grid, r: int, c: int, dr: int, dc: int)
    requires Shape(cfg, g) && InGrid(cfg, r, c) && IsDir(dr, dc)
    ensures Line(cfg, g, r, c, dr, dc) >= 4 <==> FourThrough(cfg, g, r, c, dr, dc)
  {
    if Line(cfg, g, r, c, dr, dc) >= 4 {
      LineGivesFour(cfg, g, r, c, dr, dc);
    }
    if FourThrough(cfg, g, r, c, dr, dc) {
      FourGivesLine(cfg, g, r, c, dr, dc);
    }
  }

  /** `check_win_from`: a line of four or more through (r, c) by column, row, diagonal or anti-diagonal. */
  predicate WinFrom(cfg: Config, g: Grid, r: int, c: int)
    requires Shape(cfg, g) && InGrid(cfg, r, c)
  {
    || Line(cfg, g, r, c, 1, 0) >= 4
    || Line(cfg, g, r, c, 0, 1) >= 4
    || Line(cfg, g, r, c, 1, 1) >= 4
    || Line(cfg, g, r, c, 1, -1) >= 4
  }

  /** A win from a cell is four equal cells in a row through it, in one of the four directions. */
  lemma WinFromSpec(cfg: Config, g: Grid, r: int, c: int)
    requires Shape(cfg, g) && InGrid(cfg, r, c)
    ensures WinFrom(cfg, g, r, c) <==>
              FourThrough(cfg, g, r, c, 1, 0) || FourThrough(cfg, g, r, c, 0, 1) ||
              FourThrough(cfg, g, r, c, 1, 1) || FourThrough(cfg, g, r, c, 1, -1)
  {
    LineMeansFour(cfg, g, r, c, 1, 0);
    LineMeansFour(cfg, g, r, c, 0, 1);
    LineMeansFour(cfg, g, r, c, 1, 1);
    LineMeansFour(cfg, g, r, c, 1, -1);
  }

  /** `check_win`: the number at the last cell played when it completes a line of four, else 0. */
  function Winner(cfg: Config, p: Position): int
    requires Shape(cfg, p.grid)
    requires p.lastPlayed.Some? ==> InGrid(cfg, p.lastPlayed.value.0, p.lastPlayed.value.1)
  {
    if p.lastPlayed.None? then 0
    else
      var (r, c) := p.lastPlayed.value;
      if WinFrom(cfg, p.grid, r, c) then p.grid[r][c] else 0
  }

  /** `game_over`: somebody has won, or no column is open. */
  predicate IsOver(cfg: Config, p: Position)
    requires Shape(cfg, p.grid) && cfg.rows > 0
    requires p.lastPlayed.Some? ==> InGrid(cfg, p.lastPlayed.value.0, p.lastPlayed.value.1)
  {
    Winner(cfg, p) != 0 || |LegalMoves(cfg, p)| == 0
  }

  /** A game that is not over has a legal move. */
  lemma NotOverHasMoves(cfg: Config, p: Position)
    requires Shape(cfg, p.grid) && cfg.rows > 0
    requires p.lastPlayed.Some? ==> InGrid(cfg, p.lastPlayed.value.0, p.lastPlayed.value.1)
    requires !IsOver(cfg, p)
    ensures |LegalMoves(cfg, p)| > 0
  {
  }

  /** `get_outcome`: draw for a full board without a win; otherwise one if one won, and two in every other case. */
  function OutcomeOf(cfg: Config, p: Position): int
    requires Shape(cfg, p.grid) && cfg.rows > 0
    requires p.lastPlayed.Some? ==> InGrid(cfg, p.lastPlayed.value.0, p.lastPlayed.value.1)
  {
    if |LegalMoves(cfg, p)| == 0 && Winner(cfg, p) == 0 then cfg.draw
    else if Winner(cfg, p) == cfg.one then cfg.outcomeOne
    else cfg.outcomeTwo
  }

  /** Before any move nobody has won. */
  lemma InitialNoWin(cfg: Config)
    requires ConfigValid(cfg)
    ensures Winner(cfg, Initial(cfg)) == 0
  {
  }

  /**
   * The outcome of a finished game names its winner, or a draw; a game that
   * is not finished reports outcome two.
   */
  lemma OutcomeSpec(cfg: Config, p: Position)
    requires PosValid(cfg, p)
    ensures Winner(cfg, p) == cfg.one ==> OutcomeOf(cfg, p) == cfg.outcomeOne
    ensures Winner(cfg, p) == cfg.two ==> OutcomeOf(cfg, p) == cfg.outcomeTwo
    ensures IsOver(cfg, p) && Winner(cfg, p) == 0 ==> OutcomeOf(cfg, p) == cfg.draw
    ensures !IsOver(cfg, p) ==> OutcomeOf(cfg, p) == cfg.outcomeTwo
  {
  }

  /** The number of empty cells; every move fills one, so a game ends. */
  function EmptyCells(cfg: Config, p: Position): nat
    requires PosValid(cfg, p)
  {
    Empties(p.height, cfg.cols)
  }

  /** The empty cells of the columns below `n`, given their heights. */
  function Empties(h: seq<int>, n: nat): nat
    requires n <= |h| && forall c :: 0 <= c < |h| ==> h[c] >= -1
  {
    if n == 0 then 0 else Empties(h, n - 1) + (h[n - 1] + 1)
  }

  lemma {:induction false} EmptiesUpdate(h: seq<int>, n: nat, col: int, x: int)
    requires n <= |h| && 0 <= col < |h| && x >= -1
    requires forall c :: 0 <= c < |h| ==> h[c] >= -1
    ensures Empties(h[col := x], n) == Empties(h, n) + (if col < n then x - h[col] else 0)
  {
    if n > 0 {
      EmptiesUpdate(h, n - 1, col, x);
    }
  }

  lemma PlayFillsCell(cfg: Config, p: Position, col: int)
    requires PosValid(cfg, p) && Legal(cfg, p, col)
    ensures PosValid(cfg, Play(cfg, p, col))
    ensures EmptyCells(cfg, Play(cfg, p, col)) < EmptyCells(cfg, p)
  {
    PlayKeepsValid(cfg, p, col);
    EmptiesUpdate(p.height, cfg.cols, col, p.height[col] - 1);
  }

  /** Every filled cell of `p` holds the same piece in `q`: `q` is `p` played on. */
  ghost predicate Extends(cfg: Config, p: Position, q: Position)
    requires Shape(cfg, p.grid) && Shape(cfg, q.grid)
  {
    forall r, c :: InGrid(cfg, r, c) && p.grid[r][c] != 0 ==> q.grid[r][c] == p.grid[r][c]
  }

  /** A move only fills an empty cell. */
  lemma PlayExtends(cfg: Config, p: Position, col: int)
    requires PosValid(cfg, p) && Legal(cfg, p, col)
    ensures PosValid(cfg, Play(cfg, p, col)) && Extends(cfg, p, Play(cfg, p, col))
  {
    PlayKeepsValid(cfg, p, col);
  }

  lemma ExtendsTransitive(cfg: Config, p: Position, q: Position, o: Position)
    requires Shape(cfg, p.grid) && Shape(cfg, q.grid) && Shape(cfg, o.grid)
    requires Extends(cfg, p, q) && Extends(cfg, q, o)
    ensures Extends(cfg, p, o)
  {
  }

  /** Only the player who has just moved can have won. */
  lemma PlayWinner(cfg: Config, p: Position, col: int)
    requires PosValid(cfg, p) && Legal(cfg, p, col)
    ensures PosValid(cfg, Play(cfg, p, col))
    ensures Winner(cfg, Play(cfg, p, col)) in {0, p.toPlay}
  {
    PlayKeepsValid(cfg, p, col);
  }

  /**
   * The state the source's `ConnectState` objects hold. The board and the
   * heights are lists that `move` updates in place; here they are sequence
   * fields that `Move` reassigns.
   */
  class ConnectState {
    const cfg: Config
    var board: Grid
    var height: seq<int>
    var toPlay: int
    var lastPlayed: Option<(int, int)>

    /** The board, heights, player to move and last cell as a value. */
    function View(): Position
      reads this
    {
      Position(board, height, toPlay, lastPlayed)
    }

    ghost predicate Valid()
      reads this
    {
      PosValid(cfg, View())
    }

    /** An empty board with player one to move. */
    constructor (cfg: Config)
      requires ConfigValid(cfg)
      ensures Valid() && this.cfg == cfg && View() == Initial(cfg)
    {
      this.cfg := cfg;
      board := Initial(cfg).grid;
      height := Initial(cfg).height;
      toPlay := cfg.one;
      lastPlayed := None;
    }

    /** A deep copy: a new state equal to `src`. */
    constructor Copy(src: ConnectState)
      requires src.Valid()
      ensures Valid() && cfg == src.cfg && View() == src.View()
    {
      cfg := src.cfg;
      board := src.board;
      height := src.height;
      toPlay := src.toPlay;
      lastPlayed := src.lastPlayed;
    }

    /** `get_board`: a copy of the board, which the caller may change without affecting the state. */
    method GetBoard() returns (b: Grid)
      requires Valid()
      ensures Shape(cfg, b) && b == View().grid
    {
      b := board;
    }

    /** `move`: drop the mover's piece into a legal column and pass the turn. */
    method Move(col: int)
      requires Valid() && Legal(cfg, View(), col)
      modifies this
      ensures Valid() && View() == Play(cfg, old(View()), col)
    {
      PlayKeepsValid(cfg, View(), col);
      var h := height[col];
      board := board[h := board[h][col := toPlay]];
      lastPlayed := Some((h, col));
      height := height[col := h - 1];
      toPlay := if toPlay == cfg.one then cfg.two else cfg.one;
    }

    /** `get_legal_moves`. */
    method GetLegalMoves() returns (moves: seq<int>)
      requires Valid()
      ensures moves == LegalMoves(cfg, View())
    {
      moves := [];
      for c := 0 to cfg.cols
        invariant moves == LegalUpTo(cfg, View(), c)
      {
        if board[0][c] == 0 {
          moves := moves + [c];
        }
      }
    }

    /** One of the walks of `check_win_from`: the cells equal to `player` that follow (row, col) in one direction. */
    method CountRun(row: int, col: int, dr: int, dc: int, player: int) returns (n: nat)
      requires Valid() && InGrid(cfg, row, col) && IsDir(dr, dc)
      ensures n == Run(cfg, View().grid, row, col, dr, dc, player)
    {
      ghost var g := View().grid;
      n := 0;
      var r, c := row, col;
      while 0 <= r + dr < cfg.rows && 0 <= c + dc < cfg.cols && board[r + dr][c + dc] == player
        invariant InGrid(cfg, r, c)
        invariant n + Run(cfg, g, r, c, dr, dc, player) == Run(cfg, g, row, col, dr, dc, player)
        decreases Run(cfg, g, r, c, dr, dc, player)
      {
        assert Holds(cfg, g, r + dr, c + dc, player);
        n := n + 1;
        r, c := r + dr, c + dc;
      }
    }

    /** `check_win_from`: a line of four through (row, col) in one of the four directions. */
    method CheckWinFrom(row: int, col: int) returns (w: bool)
      requires Valid() && InGrid(cfg, row, col)
      ensures w == WinFrom(cfg, View().grid, row, col)
    {
      var player := board[row][col];
      var down := CountRun(row, col, 1, 0, player);
      var up := CountRun(row, col, -1, 0, player);
      if 1 + down + up >= 4 {
        return true;
      }
      var right := CountRun(row, col, 0, 1, player);
      var left := CountRun(row, col, 0, -1, player);
      if 1 + right + left >= 4 {
        return true;
      }
      var downRight := CountRun(row, col, 1, 1, player);
      var upLeft := CountRun(row, col, -1, -1, player);
      if 1 + downRight + upLeft >= 4 {
        return true;
      }
      var downLeft := CountRun(row, col, 1, -1, player);
      var upRight := CountRun(row, col, -1, 1, player);
      return 1 + downLeft + upRight >= 4;
    }

    /** `check_win`: the player at the last cell played when it completes four in a row, else 0. */
    method CheckWin() returns (w: int)
      requires Valid()
      ensures w == Winner(cfg, View())
    {
      if lastPlayed.None? {
        return 0;
      }
      var (r, c) := lastPlayed.value;
      var won := CheckWinFrom(r, c);
      w := if won then board[r][c] else 0;
    }

    /** `game_over`. */
    method GameOver() returns (b: bool)
      requires Valid()
      ensures b == IsOver(cfg, View())
    {
      var w := CheckWin();
      var moves := GetLegalMoves();
      b := w != 0 || |moves| == 0;
    }

    /** `get_outcome`. */
    method GetOutcome() returns (o: int)
      requires Valid()
      ensures o == OutcomeOf(cfg, View())
    {
      var moves := GetLegalMoves();
      var w := CheckWin();
      if |moves| == 0 && w == 0 {
        return cfg.draw;
      }
      o := if w == cfg.one then cfg.outcomeOne else cfg.outcomeTwo;
    }
  }
}
