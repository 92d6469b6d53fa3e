/**
 * The value-level view of the tic-tac-toe board: a 3x3 grid of cell characters
 * ('B' for a blank cell, 'X' and 'O' for the players), the eight lines that the
 * win check scans, the fullness test, the row-major list of blank cells that the
 * computer player chooses from, and the effect of placing one symbol.
 */
module GridLogic {

  /** The character the board uses for a cell nobody has played. */
  const Blank: char := 'B'

  predicate IsGrid(g: seq<seq<char>>) {
    |g| == 3 && forall r :: 0 <= r < 3 ==> |g[r]| == 3
  }

  /** The board's `data`: three rows of three cells. */
  type Grid = g: seq<seq<char>> | IsGrid(g)
    witness [['B', 'B', 'B'], ['B', 'B', 'B'], ['B', 'B', 'B']]

  predicate InRange(row: int, col: int) {
    0 <= row < 3 && 0 <= col < 3
  }

  /** A board coordinate, as the `[row, col]` pairs of the move options. */
  datatype Pos = Pos(row: int, col: int)

  /** The grid a new board starts with. */
  function NewGrid(): (g: Grid)
    ensures forall r, c :: InRange(r, c) ==> g[r][c] == Blank
  {
    [[Blank, Blank, Blank], [Blank, Blank, Blank], [Blank, Blank, Blank]]
  }

  // ---------------------------------------------------------------------------
  // Placing a symbol
  // ---------------------------------------------------------------------------

  /** The grid after `s` is written at (row, col); nothing else changes. */
  function Place(g: Grid, row: int, col: int, s: char): (g': Grid)
    requires InRange(row, col)
    ensures g'[row][col] == s
    ensures forall r, c :: InRange(r, c) && (r != row || c != col) ==> g'[r][c] == g[r][c]
  {
    g[row := g[row][col := s]]
  }

  /** No cell that was played in `g` is blank or different in `g'`. */
  ghost predicate KeepsPlayed(g: Grid, g': Grid) {
    forall r, c :: InRange(r, c) && g[r][c] != Blank ==> g'[r][c] == g[r][c]
  }

  // ---------------------------------------------------------------------------
  // Winner
  // ---------------------------------------------------------------------------

  /**
   * The eight lines in the order the win check scans them: the main diagonal,
   * the anti-diagonal, the three rows, then the three columns.
   */
  function Lines(g: Grid): (ls: seq<seq<char>>)
    ensures |ls| == 8 && forall k :: 0 <= k < 8 ==> |ls[k]| == 3
  {
    [ [g[0][0], g[1][1], g[2][2]],
      [g[0][2], g[1][1], g[2][0]],
      [g[0][0], g[0][1], g[0][2]],
      [g[1][0], g[1][1], g[1][2]],
      [g[2][0], g[2][1], g[2][2]],
      [g[0][0], g[1][0], g[2][0]],
      [g[0][1], g[1][1], g[2][1]],
      [g[0][2], g[1][2], g[2][2]] ]
  }

  predicate AllTriples(ls: seq<seq<char>>) {
    forall k :: 0 <= k < |ls| ==> |ls[k]| == 3
  }

  /** All three cells of the line hold the same character (blank included). */
  predicate Uniform(line: seq<char>)
    requires |line| == 3
  {
    line[0] == line[1] && line[1] == line[2]
  }

  /** Line `k` is uniform and no line before it is. */
  predicate FirstUniformAt(ls: seq<seq<char>>, k: int)
    requires AllTriples(ls)
  {
    0 <= k < |ls| && Uniform(ls[k]) && forall j :: 0 <= j < k ==> !Uniform(ls[j])
  }

  /** The shared value of the first uniform line, or blank when there is none. */
  function FirstUniform(ls: seq<seq<char>>): char
    requires AllTriples(ls)
  {
    if |ls| == 0 then Blank
    else if Uniform(ls[0]) then ls[0][0]
    else FirstUniform(ls[1..])
  }

  /** What `getWinner` returns for the grid; blank means "no winner". */
  function Winner(g: Grid): char {
    FirstUniform(Lines(g))
  }

  lemma {:induction false} FirstUniformPicksFirst(ls: seq<seq<char>>, k: int)
    requires AllTriples(ls) && FirstUniformAt(ls, k)
    ensures FirstUniform(ls) == ls[k][0]
  {
    if k > 0 {
      assert !Uniform(ls[0]);
      assert FirstUniformAt(ls[1..], k - 1) by {
        forall j | 0 <= j < k - 1 ensures !Uniform(ls[1..][j]) {
          assert ls[1..][j] == ls[j + 1];
        }
      }
      FirstUniformPicksFirst(ls[1..], k - 1);
    }
  }

  lemma {:induction false} FirstUniformNone(ls: seq<seq<char>>)
    requires AllTriples(ls)
    requires forall k :: 0 <= k < |ls| ==> !Uniform(ls[k])
    ensures FirstUniform(ls) == Blank
  {
    if |ls| > 0 {
      assert forall k :: 0 <= k < |ls| - 1 ==> ls[1..][k] == ls[k + 1];
      FirstUniformNone(ls[1..]);
    }
  }

  lemma {:induction false} FirstUniformFound(ls: seq<seq<char>>)
    requires AllTriples(ls)
    requires FirstUniform(ls) != Blank
    ensures exists k :: FirstUniformAt(ls, k) && ls[k][0] == FirstUniform(ls)
  {
    if !Uniform(ls[0]) {
      FirstUniformFound(ls[1..]);
      var k :| FirstUniformAt(ls[1..], k) && ls[1..][k][0] == FirstUniform(ls[1..]);
      assert ls[1..][k] == ls[k + 1];
      forall j | 0 <= j < k + 1 ensures !Uniform(ls[j]) {
        if j > 0 { assert ls[j] == ls[1..][j - 1]; }
      }
      assert FirstUniformAt(ls, k + 1);
    } else {
      assert FirstUniformAt(ls, 0);
    }
  }

  /** The winner is the shared value of the first uniform line in scan order. */
  lemma WinnerIsFirstUniformLine(g: Grid, k: int)
    requires FirstUniformAt(Lines(g), k)
    ensures Winner(g) == Lines(g)[k][0]
  {
    FirstUniformPicksFirst(Lines(g), k);
  }

  /** With no uniform line, there is no winner. */
  lemma NoUniformLineNoWinner(g: Grid)
    requires forall k :: 0 <= k < 8 ==> !Uniform(Lines(g)[k])
    ensures Winner(g) == Blank
  {
    FirstUniformNone(Lines(g));
  }

  /** A non-blank winner has three of its own symbol in a line. */
  lemma WinnerHasLine(g: Grid)
    requires Winner(g) != Blank
    ensures exists k :: 0 <= k < 8 && Lines(g)[k] == [Winner(g), Winner(g), Winner(g)]
  {
    FirstUniformFound(Lines(g));
    var k :| FirstUniformAt(Lines(g), k) && Lines(g)[k][0] == Winner(g);
    assert Lines(g)[k] == [Winner(g), Winner(g), Winner(g)];
  }

  /**
   * The win check does not skip blank lines: a blank top row makes the result
   * blank, whatever the later rows and the columns hold. Either a diagonal is
   * all blank and is scanned first, or the scan stops at the top row.
   */
  lemma BlankTopRowHidesLaterLines(g: Grid)
    requires g[0][0] == Blank && g[0][1] == Blank && g[0][2] == Blank
    ensures Winner(g) == Blank
  {
    if Uniform(Lines(g)[0]) {
      WinnerIsFirstUniformLine(g, 0);
    } else if Uniform(Lines(g)[1]) {
      WinnerIsFirstUniformLine(g, 1);
    } else {
      WinnerIsFirstUniformLine(g, 2);
    }
  }

  /** Because the main diagonal is scanned first, it decides the winner when uniform. */
  lemma MainDiagonalDecides(g: Grid)
    requires g[0][0] == g[1][1] == g[2][2]
    ensures Winner(g) == g[0][0]
  {
    WinnerIsFirstUniformLine(g, 0);
  }

  // ---------------------------------------------------------------------------
  // Fullness
  // ---------------------------------------------------------------------------

  /** What `isFull` returns: no cell is blank. */
  predicate Full(g: Grid) {
    forall r, c :: 0 <= r < 3 && 0 <= c < 3 ==> g[r][c] != Blank
  }

  /** A new board is not full and has no winner. */
  lemma NewGridState()
    ensures !Full(NewGrid()) && Winner(NewGrid()) == Blank
  {
    WinnerIsFirstUniformLine(NewGrid(), 0);
  }

  /**
   * The drawn board X O X / X O O / O X X: it is full and no line is uniform,
   * so the win check reports no winner.
   */
  lemma DrawExample()
    ensures var g: Grid := [['X', 'O', 'X'], ['X', 'O', 'O'], ['O', 'X', 'X']];
            Full(g) && Winner(g) == Blank
  {
    var g: Grid := [['X', 'O', 'X'], ['X', 'O', 'O'], ['O', 'X', 'X']];
    NoUniformLineNoWinner(g);
  }

  // ---------------------------------------------------------------------------
  // Row-major order, move options and the filled-cell count
  // ---------------------------------------------------------------------------

  /** The position of cell number `i` in row-major order. */
  function RowMajor(i: int): (p: Pos)
    requires 0 <= i < 9
    ensures InRange(p.row, p.col) && 3 * p.row + p.col == i
  {
    Pos(i / 3, i % 3)
  }

  /** The row-major number of a position. */
  function Index(p: Pos): int {
    3 * p.row + p.col
  }

  /** The blank cells among the first `n` cells in row-major order, in that order. */
  function BlankCellsBefore(g: Grid, n: int): seq<Pos>
    requires 0 <= n <= 9
  {
    if n == 0 then []
    else
      var p := RowMajor(n - 1);
      BlankCellsBefore(g, n - 1) + (if g[p.row][p.col] == Blank then [p] else [])
  }

  /** What `getMoveOptions` returns: every blank cell, in row-major order. */
  function MoveOptions(g: Grid): seq<Pos> {
    BlankCellsBefore(g, 9)
  }

  /** The cells read row by row. */
  function Cells(g: Grid): (s: seq<char>)
    ensures |s| == 9
    ensures forall r, c :: InRange(r, c) ==> s[3 * r + c] == g[r][c]
  {
    g[0] + g[1] + g[2]
  }

  /** The number of played (non-blank) characters in `s`. */
  function CountPlayed(s: seq<char>): nat {
    if s == [] then 0
    else CountPlayed(s[..|s| - 1]) + (if s[|s| - 1] != Blank then 1 else 0)
  }

  /** The number of played cells on the board. */
  function FilledCount(g: Grid): nat {
    CountPlayed(Cells(g))
  }

  lemma {:induction false} BlankCellsBeforeExact(g: Grid, n: int, p: Pos)
    requires 0 <= n <= 9
    ensures p in BlankCellsBefore(g, n) <==>
              InRange(p.row, p.col) && Index(p) < n && g[p.row][p.col] == Blank
  {
    if n > 0 {
      BlankCellsBeforeExact(g, n - 1, p);
      var q := RowMajor(n - 1);
      if InRange(p.row, p.col) && Index(p) == n - 1 {
        assert p == q;
      }
    }
  }

  lemma {:induction false} BlankCellsBeforeOrdered(g: Grid, n: int)
    requires 0 <= n <= 9
    ensures forall i :: 0 <= i < |BlankCellsBefore(g, n)| ==> Index(BlankCellsBefore(g, n)[i]) < n
    ensures forall i, j :: 0 <= i < j < |BlankCellsBefore(g, n)| ==>
              Index(BlankCellsBefore(g, n)[i]) < Index(BlankCellsBefore(g, n)[j])
  {
    if n > 0 {
      BlankCellsBeforeOrdered(g, n - 1);
    }
  }

  lemma {:induction false} BlankCellsBeforeCount(g: Grid, n: int)
    requires 0 <= n <= 9
    ensures |BlankCellsBefore(g, n)| + CountPlayed(Cells(g)[..n]) == n
  {
    if n > 0 {
      BlankCellsBeforeCount(g, n - 1);
      var p := RowMajor(n - 1);
      assert Cells(g)[..n][..n - 1] == Cells(g)[..n - 1];
      assert Cells(g)[..n][n - 1] == g[p.row][p.col];
    }
  }

  /** The options are exactly the blank cells of the board. */
  lemma MoveOptionsExact(g: Grid, p: Pos)
    ensures p in MoveOptions(g) <==> InRange(p.row, p.col) && g[p.row][p.col] == Blank
  {
    BlankCellsBeforeExact(g, 9, p);
  }

  /** The options are in strictly increasing row-major order, so none repeats. */
  lemma MoveOptionsOrdered(g: Grid)
    ensures forall i, j :: 0 <= i < j < |MoveOptions(g)| ==>
              Index(MoveOptions(g)[i]) < Index(MoveOptions(g)[j])
    ensures forall i, j :: 0 <= i < j < |MoveOptions(g)| ==> MoveOptions(g)[i] != MoveOptions(g)[j]
  {
    BlankCellsBeforeOrdered(g, 9);
  }

  /** There is one option per blank cell: nine minus the played cells. */
  lemma MoveOptionsCount(g: Grid)
    ensures |MoveOptions(g)| == 9 - FilledCount(g)
  {
    BlankCellsBeforeCount(g, 9);
    assert Cells(g)[..9] == Cells(g);
  }

  /** There are no options exactly when the board is full. */
  lemma MoveOptionsEmptyIffFull(g: Grid)
    ensures MoveOptions(g) == [] <==> Full(g)
  {
    if MoveOptions(g) == [] {
      forall r, c | InRange(r, c) ensures g[r][c] != Blank {
        MoveOptionsExact(g, Pos(r, c));
      }
    } else {
      MoveOptionsExact(g, MoveOptions(g)[0]);
    }
  }

  lemma {:induction false} CountPlayedUpdate(s: seq<char>, i: int, v: char)
    requires 0 <= i < |s|
    ensures CountPlayed(s[i := v]) + (if s[i] != Blank then 1 else 0)
            == CountPlayed(s) + (if v != Blank then 1 else 0)
  {
    var t := s[i := v];
    if i < |s| - 1 {
      assert t[..|t| - 1] == s[..|s| - 1][i := v];
      CountPlayedUpdate(s[..|s| - 1], i, v);
    } else {
      assert t[..|t| - 1] == s[..|s| - 1];
    }
  }

  /** Playing a blank cell adds exactly one played cell and keeps all the others. */
  lemma PlaceOnBlank(g: Grid, row: int, col: int, s: char)
    requires InRange(row, col) && g[row][col] == Blank && s != Blank
    ensures FilledCount(Place(g, row, col, s)) == FilledCount(g) + 1
    ensures KeepsPlayed(g, Place(g, row, col, s))
  {
    var g' := Place(g, row, col, s);
    assert Cells(g') == Cells(g)[3 * row + col := s];
    CountPlayedUpdate(Cells(g), 3 * row + col, s);
  }
}
