# Tic-tac-toe game logic in Dafny

This project models the game logic of a small tkinter tic-tac-toe program:

- the `Board`, a 3x3 grid of `'B'` (blank), `'X'` and `'O'` cells changed in place by `update`;
- its two queries, `getWinner` and `isFull`;
- the computer player `AI`, which lists the blank cells in row-major order and picks one;
- the `GameController`, which pairs a new board with a computer player for `'O'`;
- the turn rule of the window's click handler, once the click has become a (row, col).

Two modules:

- `GridLogic` (`grid_logic.dfy`) is the value-level view. It has the `Grid` type and the
  eight lines in scan order. `Winner` is what `getWinner` returns, `Full` is what `isFull`
  returns, and `MoveOptions` is what `getMoveOptions` returns. `Place` is the effect of one
  move, and `FilledCount` counts the played cells. Lemmas characterise each of these.
- `TicTacToe` (`tic_tac_toe.dfy`) holds the classes. `Board.data` is a field that `Update`
  reassigns. `GetWinner`, `IsFull` and `GetMoveOptions` are loops like the source's, each
  proved to compute its `GridLogic` counterpart. `GUI.OnClick` is the turn step, and
  `GUI.NewGame` is the controller reset.

Two behaviours of the code are modelled as written:

- The win check (ticTacToe.py:21-23) returns the value of the first line whose three
  cells are equal, and a line of three `'B'` cells counts. A blank line earlier in the
  scan order therefore hides a real three-in-a-row later in the order.
  `BlankTopRowHidesLaterLines` states this.
- The click handler (ticTacToe.py:100-118) has no finished state. After "X wins" or
  "O wins", a click on a blank cell is still played. Only a full board stops play,
  because every click then hits an occupied cell. `ClickAfterXWins` states this.

The message boxes the handler shows are returned as a `Notice` in its `Response`, with the
computer's reply move. The randomly drawn index of `getMove` is a nondeterministic choice
among the valid indices.

## Model

| member | source | states |
|---|---|---|
| GridLogic.NewGrid | ticTacToe.py:8-9 | every cell of a new grid is `'B'` |
| GridLogic.NewGridState | ticTacToe.py:8-31 | a new board is not full and its winner is `'B'` |
| GridLogic.Place | ticTacToe.py:33-34 | writing a symbol sets that cell to it and leaves the other eight cells unchanged |
| GridLogic.PlaceOnBlank | ticTacToe.py:33-34 | writing a non-blank symbol on a blank cell raises the played-cell count by exactly one and keeps every played cell |
| GridLogic.FirstUniformPicksFirst | ticTacToe.py:21-23 | scanning a list of lines returns the shared value of the first line whose three cells are equal |
| GridLogic.FirstUniformNone | ticTacToe.py:21-24 | scanning a list of lines with no uniform line returns `'B'` |
| GridLogic.FirstUniformFound | ticTacToe.py:21-24 | a non-`'B'` scan result is the value of the first uniform line |
| GridLogic.WinnerIsFirstUniformLine | ticTacToe.py:11-24 | the winner is the value of the first uniform line in the order diag1, diag2, row1-3, col1-3 |
| GridLogic.NoUniformLineNoWinner | ticTacToe.py:20-24 | with no line of three equal cells the winner is `'B'` |
| GridLogic.WinnerHasLine | ticTacToe.py:12-23 | a non-`'B'` winner has three of its own symbol on one of the eight lines |
| GridLogic.BlankTopRowHidesLaterLines | ticTacToe.py:12-23 | an all-`'B'` top row makes the winner `'B'`, whatever the other rows and the columns hold |
| GridLogic.MainDiagonalDecides | ticTacToe.py:12-23 | a uniform main diagonal decides the winner, since it is scanned first |
| GridLogic.DrawExample | ticTacToe.py:11-31 | the board X O X / X O O / O X X is full and its winner is `'B'` |
| GridLogic.MoveOptionsExact | ticTacToe.py:52-58 | a position is an option exactly when it is on the board and its cell is `'B'` |
| GridLogic.MoveOptionsOrdered | ticTacToe.py:52-58 | the options are in strictly increasing row-major order, so none is repeated |
| GridLogic.MoveOptionsCount | ticTacToe.py:52-58 | the number of options is 9 minus the number of played cells |
| GridLogic.MoveOptionsEmptyIffFull | ticTacToe.py:26-31 | the option list is empty exactly when the board is full |
| TicTacToe.Board.constructor | ticTacToe.py:8-9 | a new board has `'B'` in all nine cells |
| TicTacToe.Board.GetWinner | ticTacToe.py:11-24 | the line scan returns the winner of the current grid |
| TicTacToe.Board.IsFull | ticTacToe.py:26-31 | the nested scan returns true exactly when no cell is `'B'` |
| TicTacToe.Board.Update | ticTacToe.py:33-34 | the new grid is the old one with the move's symbol at its cell, occupied or not |
| TicTacToe.AI.constructor | ticTacToe.py:44-45 | the player keeps the symbol it is given |
| TicTacToe.AI.GetMoveOptions | ticTacToe.py:52-58 | the double loop collects exactly the row-major list of blank cells |
| TicTacToe.AI.GetMove | ticTacToe.py:47-50 | given at least one blank cell, the move carries the player's symbol and targets a blank cell among the options |
| TicTacToe.GameController.constructor | ticTacToe.py:61-63 | a controller holds a new, blank board and a computer player for `'O'` |
| TicTacToe.GUI.constructor | ticTacToe.py:68 | the window starts with a new controller |
| TicTacToe.GUI.NewGame | ticTacToe.py:88 | the controller is replaced by a new one with a blank board and an `'O'` player |
| TicTacToe.GUI.OnClick | ticTacToe.py:100-118 | an occupied cell leaves the board unchanged. Otherwise `'X'` is placed, and the computer moves only if `'X'` has not won and the board is not full. Its move goes to a cell that was blank. The notice matches the winner and fullness checks. No played cell changes, and the played count grows by 0, 1 or 2 |
| TicTacToe.ClickAfterXWins | ticTacToe.py:100-107 | after `'X'` has won, a click on a blank cell is still played |

## Left out

- The window, menu, key bindings, canvas drawing, message boxes and `time.sleep`
  (ticTacToe.py:65-92, 105-106, 120-136) are toolkit calls. The model returns the move
  drawn and the notice shown instead.
- The pixel-to-cell conversion of a click (ticTacToe.py:95-98) is float arithmetic on
  window sizes. `OnClick` starts from a (row, col) in 0..2.
- The deletion of canvas items in `newGame` (ticTacToe.py:82-87) is drawing only. The
  reset of line 88 is modelled.
- TicTacToe.AI.GetMove: `random.randint` draws the index uniformly. The model allows any
  index in range and does not state the uniform distribution.
- TicTacToe.AI.GetMove: with no blank cell, `random.randint(0, -1)` raises ValueError
  (ticTacToe.py:49). The model requires a non-empty option list instead. Its only caller
  checks `isFull()` first (ticTacToe.py:109), so that error never arises there.
- TicTacToe.Board.Update: the source indexes the nested list directly. Indices -3..-1
  wrap to the end of the list, and indices past 2 or below -3 raise IndexError. The model
  requires indices in 0..2, which every caller passes.
- The module-level start of the window (ticTacToe.py:138-139).
