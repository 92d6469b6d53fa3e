/**
 * The game objects: a board changed in place by moves, the computer player that
 * picks a blank cell, the controller that pairs a new board with a computer
 * player for 'O', and the window's click handler once a click has become a
 * (row, col), which plays 'X' there and then lets the computer answer.
 */
module TicTacToe {
  import opened GridLogic

  datatype Option<T> = None | Some(value: T)

  /** A symbol placed at a row and column. */
  datatype Move = Move(symbol: char, row: int, col: int)

  /** The message box the window shows after a move, if any. */
  datatype Notice = XWins | OWins | BoardFull

  /** What the window does with a click. */
  datatype Response =
    | Ignored
    | Played(human: Move, reply: Option<Move>, notice: Option<Notice>)

  class Board {
    var data: Grid

    constructor ()
      ensures forall r, c :: InRange(r, c) ==> data[r][c] == Blank
    {
      data := NewGrid();
    }

    /** Scans the eight lines in order and returns the value of the first uniform one. */
    method GetWinner() returns (w: char)
      ensures w == Winner(data)
    {
      var lines := Lines(data);
      var i := 0;
      while i < |lines|
        invariant 0 <= i <= |lines|
        invariant forall j :: 0 <= j < i ==> !Uniform(lines[j])
      {
        var line := lines[i];
        if line[0] == line[1] && line[1] == line[2] {
          FirstUniformPicksFirst(lines, i);
          return line[0];
        }
        i := i + 1;
      }
      FirstUniformNone(lines);
      return Blank;
    }

    /** Reports whether no cell is blank, stopping at the first blank cell. */
    method IsFull() returns (full: bool)
      ensures full <==> Full(data)
    {
      var row := 0;
      while row < 3
        invariant 0 <= row <= 3
        invariant forall r, c :: 0 <= r < row && 0 <= c < 3 ==> data[r][c] != Blank
      {
        var col := 0;
        while col < 3
          invariant 0 <= col <= 3
          invariant forall r, c :: 0 <= r < row && 0 <= c < 3 ==> data[r][c] != Blank
          invariant forall c :: 0 <= c < col ==> data[row][c] != Blank
        {
          if data[row][col] == Blank {
            return false;
          }
          col := col + 1;
        }
        row := row + 1;
      }
      return true;
    }

    /** Writes the move's symbol into its cell, whether or not the cell is blank. */
    method Update(move: Move)
      requires InRange(move.row, move.col)
      modifies this
      ensures data == Place(old(data), move.row, move.col, move.symbol)
    {
      data := data[move.row := data[move.row][move.col := move.symbol]];
    }
  }

  class AI {
    const symbol: char

    constructor (symbol: char)
      ensures this.symbol == symbol
    {
      this.symbol := symbol;
    }

    /** Collects the blank cells of the board, row by row. */
    method GetMoveOptions(board: Board) returns (options: seq<Pos>)
      ensures options == MoveOptions(board.data)
    {
      options := [];
      var row := 0;
      while row < 3
        invariant 0 <= row <= 3
        invariant options == BlankCellsBefore(board.data, 3 * row)
      {
        var col := 0;
        while col < 3
          invariant 0 <= col <= 3
          invariant options == BlankCellsBefore(board.data, 3 * row + col)
        {
          assert RowMajor(3 * row + col) == Pos(row, col);
          if board.data[row][col] == Blank {
            options := options + [Pos(row, col)];
          }
          col := col + 1;
        }
        row := row + 1;
      }
    }

    /**
     * Picks one of the options. The source draws the index uniformly at random;
     * here any index in range may be chosen.
     */
    method GetMove(board: Board) returns (move: Move)
      requires MoveOptions(board.data) != []
      ensures move.symbol == symbol
      ensures Pos(move.row, move.col) in MoveOptions(board.data)
      ensures InRange(move.row, move.col) && board.data[move.row][move.col] == Blank
    {
      var moveOptions := GetMoveOptions(board);
      var which :| 0 <= which < |moveOptions|;
      move := Move(symbol, moveOptions[which].row, moveOptions[which].col);
      MoveOptionsExact(board.data, moveOptions[which]);
    }
  }

  class GameController {
    const board: Board
    const ai: AI

    constructor ()
      ensures fresh(board) && fresh(ai)
      ensures forall r, c :: InRange(r, c) ==> board.data[r][c] == Blank
      ensures ai.symbol == 'O'
    {
      board := new Board();
      ai := new AI('O');
    }
  }

  /** The part of the window that holds the game and reacts to clicks and "New Game". */
  class GUI {
    var controller: GameController

    /** The computer player of the current game plays 'O'. */
    ghost predicate Valid()
      reads this
    {
      controller.ai.symbol == 'O'
    }

    constructor ()
      ensures fresh(controller) && fresh(controller.board)
      ensures Valid()
      ensures forall r, c :: InRange(r, c) ==> controller.board.data[r][c] == Blank
    {
      controller := new GameController();
    }

    /** Replaces the game with a new controller: a blank board and a new computer player. */
    method NewGame()
      modifies this
      ensures fresh(controller) && fresh(controller.board)
      ensures Valid()
      ensures forall r, c :: InRange(r, c) ==> controller.board.data[r][c] == Blank
    {
      controller := new GameController();
    }

    /**
     * A click on cell (row, col). An occupied cell is ignored. Otherwise 'X' is
     * placed; if that wins for 'X' or fills the board the turn ends, and if not
     * the computer places its symbol on a blank cell. No win stops later clicks.
     */
    method OnClick(row: int, col: int) returns (response: Response)
      requires Valid() && InRange(row, col)
      modifies controller.board
      ensures Valid() && controller == old(controller)
      ensures var g0, g := old(controller.board.data), controller.board.data;
        var g1 := Place(g0, row, col, 'X');
        && (g0[row][col] != Blank ==> response == Ignored && g == g0)
        && (g0[row][col] == Blank ==>
              && response.Played?
              && response.human == Move('X', row, col)
              && (Winner(g1) == 'X' ==>
                    g == g1 && response.reply == None && response.notice == Some(XWins))
              && (Winner(g1) != 'X' && Full(g1) ==>
                    g == g1 && response.reply == None && response.notice == Some(BoardFull))
              && (Winner(g1) != 'X' && !Full(g1) ==>
                    && response.reply.Some?
                    && response.reply.value.symbol == 'O'
                    && InRange(response.reply.value.row, response.reply.value.col)
                    && g1[response.reply.value.row][response.reply.value.col] == Blank
                    && g == Place(g1, response.reply.value.row, response.reply.value.col, 'O')
                    && response.notice == (if Winner(g) == 'O' then Some(OWins)
                                           else if Full(g) then Some(BoardFull)
                                           else None)))
      ensures var g0, g := old(controller.board.data), controller.board.data;
        && KeepsPlayed(g0, g)
        && FilledCount(g) == FilledCount(g0) + (if response.Ignored? then 0
                                                else if response.reply.None? then 1
                                                else 2)
    {
      var board := controller.board;
      if board.data[row][col] != Blank {
        return Ignored;
      }
      ghost var g0 := board.data;
      var humanMove := Move('X', row, col);
      board.Update(humanMove);
      PlaceOnBlank(g0, row, col, 'X');
      var winner := board.GetWinner();
      if winner == 'X' {
        return Played(humanMove, None, Some(XWins));
      }
      var full := board.IsFull();
      if full {
        return Played(humanMove, None, Some(BoardFull));
      }
      MoveOptionsEmptyIffFull(board.data);
      ghost var g1 := board.data;
      var aiMove := controller.ai.GetMove(board);
      board.Update(aiMove);
      PlaceOnBlank(g1, aiMove.row, aiMove.col, aiMove.symbol);
      var notice: Option<Notice> := None;
      winner := board.GetWinner();
      if winner == 'O' {
        notice := Some(OWins);
      } else {
        full := board.IsFull();
        if full {
          notice := Some(BoardFull);
        }
      }
      return Played(humanMove, Some(aiMove), notice);
    }
  }

  /**
   * A game that 'X' has already won still accepts a click on a blank cell:
   * the handler has no finished state, only a full board stops play.
   */
  method ClickAfterXWins(gui: GUI, row: int, col: int) returns (response: Response)
    requires gui.Valid() && InRange(row, col)
    requires Winner(gui.controller.board.data) == 'X'
    requires gui.controller.board.data[row][col] == Blank
    modifies gui.controller.board
    ensures response.Played? && response.human == Move('X', row, col)
    ensures gui.controller.board.data[row][col] == 'X'
  {
    response := gui.OnClick(row, col);
  }
}
