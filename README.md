# TicTacToe.js game engine in Dafny

This project models the game-state core of TicTacToe.js. TicTacToe.js is a browser
tic-tac-toe widget for any board size `n`. The board has `n × n` cells, and the number
of players is not fixed. Players take turns from a rotating queue. Each player owns the
cells it selects and keeps the list of cell numbers it has taken. A player wins once
its list covers a full row, column or diagonal. The game is a draw once every cell is
taken and nobody has won. A resolved game ignores further selections until `reset`.
Four optional handlers are told about selections, turns, wins and draws.

A cell is its number `k` in `0 .. n²-1`, in row-major order (`col + row*n`, as
`getCellPosition` computes it), in place of a table-cell element. A number outside
that range is the "cell not found" case. Players are object references (`nat`). The
engine keeps one move list per reference, because `mapPlayer` hands back the caller's
own object. A handler slot holds a listener tag or nothing. Each handler invocation is
appended to a log of `Call(listener, event)`. The events are `Win(p)`, `Draw`,
`Select(k, p)` and `Turn(p)`.

The modules are:

- `Combinations`: the winning lines. They are given as functions (`Rows`, `Columns`,
  `Diagonals`, `WinningCombinations`). The loop methods that build them in the source
  are proved equal to those functions. Lemmas give their count, their lengths, their
  bounds, and which cells each line contains.
- `Cells`: the board. `Board` is a class over an `array<Option<PlayerRef>>`, with the
  cell operations `Select`, `Clear` and `ClearAll`. The module also defines `AllOccupied`
  and `EmptyCount` over the cell sequence.
- `Setup`: the constructor's argument checks, both as written and as intended.
- `GameState`: the engine as a pure state machine.
  - `Game` holds the engine's game state; the winning combinations are recomputed from `size`.
  - The transition functions are `ResolveGame`, `HandlePlayerTurns`, `SelectCell`,
    `Reset` and `Register`.
  - `Valid` is the invariant. It holds that:
    - the queue is a permutation of the construction-time players;
    - each player's moves are distinct and are exactly the cells it owns;
    - an unresolved game on a non-empty board has no winner;
    - a resolved game has a winner or a full board.
- `GameProperties`: lemmas about the transitions and about runs of them.
- `Engine`: the class `TicTacToe`. It has the fields of the JavaScript object, and
  methods that update them in place. Each method's postcondition equates the new
  abstract state `Model()` with the `GameState` transition applied to the old one.

Points of the code's behaviour the model follows:

- **Event order.** `_resolveGame` runs before the select handler is called, so within
  one accepted move the win or draw call comes first. The select call follows. The
  turn call comes last, and only if the game is still open.
- **Win check.** `_checkForWin` looks at every player in queue order, not only the
  mover. The first one whose moves cover a line wins. `WinnerIsMover` shows that on a
  reachable state this can only be the mover.
- **Synchronous handlers.** Handlers are called synchronously, each at its own point in
  `selectCell`.
- **Empty queue.** The broken length guard admits an empty player list. In that case a
  selection of a free cell hands `undefined` to `Cell.select`, which throws a
  `TypeError` before anything observable changes. The model reports this as the outcome
  `NoActivePlayer` and leaves the state unchanged.

## Model

| member | source | states |
|---|---|---|
| Combinations.GetHorizontalWinningCombinations | TicTacToe.js:20-31 | the nested loops build exactly the rows: row `i` is `i*n + a` for `a < n`; no rows when `n <= 0` |
| Combinations.GetVerticalWinningCombinations | TicTacToe.js:33-44 | the nested loops build exactly the columns: column `i` is `i + a*n` for `a < n` |
| Combinations.GetDiagonalWinningCombinations | TicTacToe.js:46-54 | the loop builds the main diagonal `i + i*n` and the anti-diagonal `(n-1-i) + i*n`; two empty lines when `n <= 0` |
| Combinations.GetWinningCombinations | TicTacToe.js:14-18 | rows, then columns, then the two diagonals, concatenated in that order |
| Combinations.CombinationsShape | TicTacToe.js:14-54 | there are `2n+2` lines (2 when `n <= 0`); each line has `n` distinct cells, all in `[0, n²)`; for `n <= 0` the result is two empty lines |
| Combinations.RowShape | TicTacToe.js:20-31 | each row is strictly increasing, so its cells are distinct, and lies on the board |
| Combinations.ColumnShape | TicTacToe.js:33-44 | each column is strictly increasing, distinct and on the board |
| Combinations.MainDiagonalShape | TicTacToe.js:46-54 | the main diagonal is strictly increasing, distinct and on the board |
| Combinations.AntiDiagonalShape | TicTacToe.js:46-54 | the anti-diagonal is strictly increasing, distinct and on the board |
| Combinations.RowMembership | TicTacToe.js:20-31 | cell `k` is in row `i` exactly when it is on the board and its row-major row (`k / n`) is `i`, which is the row `getCellPosition` gives it |
| Combinations.ColumnMembership | TicTacToe.js:33-44 | cell `k` is in column `i` exactly when it is on the board and `k % n == i` |
| Combinations.MainDiagonalMembership | TicTacToe.js:46-54 | cell `k` is on the main diagonal exactly when its row equals its column |
| Combinations.AntiDiagonalMembership | TicTacToe.js:46-54 | cell `k` is on the anti-diagonal exactly when its row plus its column is `n-1` |
| Combinations.RowColumnOf | TicTacToe.js:76-80 | every cell number on the board is `col + row*n` for one row and one column in `[0, n)`, as `getCellPosition` numbers the cells |
| Cells.EmptyBoard | TicTacToe.js:82-86 | a new board has the given number of cells and every cell is without owner |
| Cells.Board.constructor | TicTacToe.js:156-158 | the board is a fresh array with one empty slot per cell |
| Cells.Board.Select | TicTacToe.js:97-108 | returns true exactly when the cell was free; then the player becomes its owner; otherwise nothing changes; other cells never change |
| Cells.Board.Clear | TicTacToe.js:110-120 | an empty cell is left alone; otherwise its owner is removed; other cells never change |
| Cells.Board.ClearAll | TicTacToe.js:159-161 | after clearing every cell in turn, the board is empty |
| Cells.AllOccupied | TicTacToe.js:162-164 | `allOccupied` holds exactly when no cell of the board is empty |
| Cells.AllOccupiedIffNoneEmpty | TicTacToe.js:162-164 | `allOccupied` holds exactly when no cell is free |
| Cells.OccupyDecrementsEmpty | TicTacToe.js:97-108 | occupying a free cell leaves exactly one free cell fewer |
| Setup.FirstBadChar | TicTacToe.js:139-146 | finds the first player whose `char` is not a string; none exactly when every `char` is a string |
| Setup.Validate | TicTacToe.js:130-151 | as written: construction succeeds exactly when `size` is an integer, `players` is an array and every `char` is a string; otherwise the first failing check names the error; on success the settings are the size and the player references in order |
| Setup.TooFewAsWrittenNeverHolds | TicTacToe.js:133 | `!players.length >= 2` is false for every length |
| Setup.FewPlayersAccepted | TicTacToe.js:133-137 | an array of zero or one players passes the checks as written but is refused by the intended check |
| Setup.IntendedDiffersOnlyOnFewPlayers | TicTacToe.js:131-147 | the as-written and the intended checks agree on every input except an array of fewer than two players |
| Setup.NonPositiveSizeAccepted | TicTacToe.js:131-133 | a size of zero or below is not rejected |
| Setup.ValidateIntended | TicTacToe.js:133-137 | with the intended guard, construction succeeds only with at least two players, and fewer is the players error |
| GameState.WinnerIndex | TicTacToe.js:173-182 | a position it gives is that of a player whose moves cover a winning line, and no earlier player's moves do; when it gives none, no player's moves cover one |
| GameState.CheckForWin | TicTacToe.js:173-182 | none exactly when no player in the queue covers a winning line; otherwise a queued player who covers one |
| GameState.ResolveGame | TicTacToe.js:189-202 | only the resolved flag and the calls change; the game becomes resolved exactly when it was resolved already, someone has won or the board is full; a winner is announced to the win handler and takes precedence over a draw; a draw is announced to the draw handler; otherwise nothing changes |
| GameState.Rotate | TicTacToe.js:205 | `push(shift())` keeps the same players (a permutation) and moves the front player to the back |
| GameState.HandlePlayerTurns | TicTacToe.js:204-211 | only the queue and the calls change; the queue is rotated; the new front player is announced to the turn handler only if the game is not resolved |
| GameState.Register | TicTacToe.js:240-258 | registering a handler overwrites its own slot and no other part of the state |
| GameState.HasCombination | TicTacToe.js:7-10 | the moves cover a line exactly when every index of the line holds a cell number that is among the moves, which is what `every(includes)` tests |
| GameState.IsDraw | TicTacToe.js:185-187 | a draw is exactly a full board on which no player in the queue holds a winning line |
| GameState.Init | TicTacToe.js:149-170 | a new game has `CellCount(size)` empty cells (`size²` for a positive size, none otherwise, as `generateTable` builds no rows), the players in the given order as both queue and construction-time list, an empty move list for exactly those players, is unresolved and has made no calls |
| GameState.Attempt | TicTacToe.js:213-218 | a selection is accepted exactly when the game is open, the cell exists and is empty, and the queue is non-empty |
| GameState.Occupy | TicTacToe.js:218-219 | the front player becomes the owner of that one cell and the cell number is appended to its moves; every other player's moves stay as they were |
| GameState.Conclude | TicTacToe.js:220-224 | after a recorded move only the queue (rotated once), the resolved flag (as `_resolveGame` sets it) and the calls change, and the calls only grow |
| GameState.SelectCell | TicTacToe.js:213-226 | a selection refused by any guard changes nothing (no owner, no move, no rotation, no call); an accepted one keeps the size, the construction-time players, the handlers and the board length, and only appends calls |
| GameState.Reset | TicTacToe.js:232-238 | every cell is empty again, the queue is the construction-time order, every player has no moves and the game is open; handlers and past calls are kept |
| Engine.TicTacToe.constructor | TicTacToe.js:149-170 | a new engine is in the initial state (empty board, queue in the given order, no moves, unresolved, no handlers) and satisfies the invariant |
| Engine.Create | TicTacToe.js:130-170 | construction throws exactly when the checks fail, with the error of the first failing check; otherwise it yields a fresh engine in the initial state |
| Engine.TicTacToe.CheckForWin | TicTacToe.js:173-182 | on the object's fields: no winner exactly when no player in the queue covers a line, and a winner it reports is in the queue and covers a line |
| Engine.TicTacToe.CheckForDraw | TicTacToe.js:185-187 | on the object's fields: a draw exactly when no cell of the board array is empty and no player in the queue covers a line |
| Engine.TicTacToe.ResolveGame | TicTacToe.js:189-202 | the in-place `_resolveGame` performs the `GameState.ResolveGame` transition |
| Engine.TicTacToe.HandlePlayerTurns | TicTacToe.js:204-211 | the in-place `_handlePlayerTurns` performs the rotation transition and returns the new front player |
| Engine.TicTacToe.SelectCell | TicTacToe.js:213-226 | keeps the invariant; the outcome is the first guard that applies (resolved, not found, occupied, no player) or acceptance; the new state is the `GameState.SelectCell` transition |
| Engine.TicTacToe.Take | TicTacToe.js:218-225 | `cell.select(players[0])` succeeds exactly when the cell was free; then the move is recorded and the game concluded, and the new state is the `GameState.SelectCell` transition |
| Engine.TicTacToe.Conclude | TicTacToe.js:220-224 | after a recorded move: resolve, call the select handler with the cell and the mover, then rotate |
| Engine.TicTacToe.Reset | TicTacToe.js:232-238 | keeps the invariant; the new state is the `GameState.Reset` transition |
| Engine.TicTacToe.RegisterTurnHandler | TicTacToe.js:240-243 | only the turn slot changes, to the given handler |
| Engine.TicTacToe.RegisterWinHandler | TicTacToe.js:245-248 | only the win slot changes |
| Engine.TicTacToe.RegisterDrawHandler | TicTacToe.js:250-253 | only the draw slot changes |
| Engine.TicTacToe.RegisterSelectHandler | TicTacToe.js:255-258 | only the select slot changes |
| GameProperties.InitHasNoWinner | TicTacToe.js:149-154 | right after construction nobody has won, on any board of size 1 or more |
| GameProperties.NoMovesNoWinner | TicTacToe.js:173-182 | with no moves nobody has won on a board of size 1 or more |
| GameProperties.InitValid | TicTacToe.js:149-170 | the state right after construction satisfies the invariant for every size and every player list |
| GameProperties.CoveringNeedsLength | TicTacToe.js:7-10 | a move list covering a line of distinct cells is at least as long as the line |
| GameProperties.WinNeedsWidthMoves | TicTacToe.js:173-182 | nobody wins with fewer than `n` moves |
| GameProperties.WinnerIgnoresOrder | TicTacToe.js:173-182 | whether anyone has won depends on which players are queued, not on their order |
| GameProperties.WinnerIsMover | TicTacToe.js:173-182 | after an accepted move in a valid unresolved game, the winner, if any, is the mover; the mover wins exactly when its moves plus the new cell cover a line |
| GameProperties.OccupyKeepsMovesInStep | TicTacToe.js:218-219 | after taking a cell and appending it to the mover's moves, each player's moves are still distinct and are exactly the cells it owns |
| GameProperties.AcceptedMove | TicTacToe.js:218-224 | an accepted selection gives the cell to the mover and appends it to the mover's moves only; the mover goes to the back and the others keep their order; one free cell fewer; resolved exactly when the mover covers a line or the board is full |
| GameProperties.AcceptedMoveCalls | TicTacToe.js:189-226 | the calls of an accepted move, in order: win (mover) or else draw (full board); then select (cell, mover); then turn (new front player) only if unresolved; each only if its slot holds a handler |
| GameProperties.SelectCellPreservesValid | TicTacToe.js:213-226 | `selectCell` preserves the invariant |
| GameProperties.ValidAfterRotation | TicTacToe.js:195-205 | re-ordering the queue and setting the flag as `_resolveGame` does keep the invariant |
| GameProperties.SelectCellRotates | TicTacToe.js:213-226 | the queue is rotated once by an accepted move and not at all otherwise |
| GameProperties.FullBoardResolves | TicTacToe.js:185-201 | a move that fills the board resolves the game; without a win the calls are the draw call, then the select call |
| GameProperties.ResetRestoresInit | TicTacToe.js:232-238 | `reset` gives the construction state with the handlers and calls kept; it satisfies the invariant; resetting twice is the same as once |
| GameProperties.RunPreservesValid | TicTacToe.js:213-258 | every sequence of selections, resets and registrations keeps the invariant |
| GameProperties.ReachableValid | TicTacToe.js:149-258 | every state reachable from construction satisfies the invariant |
| GameProperties.TerminalUntilReset | TicTacToe.js:213-238 | once resolved, no run without `reset` changes anything but the handler slots |
| GameProperties.Rotations | TicTacToe.js:205 | rotating any number of times keeps the same players |
| GameProperties.RotationsAsSlices | TicTacToe.js:205 | after `j <= n` rotations the queue is `players[j..] + players[..j]` |
| GameProperties.TurnsCycle | TicTacToe.js:204-211 | after `j < n` rotations player `j` is at the front; after `n` rotations the queue is back in its original order |
| GameProperties.StepRotates | TicTacToe.js:204-226 | one selection followed by `j` rotations is the starting queue rotated `j` times, or `j + 1` times if the selection was accepted |
| GameProperties.PlayRotatesQueue | TicTacToe.js:213-226 | over any sequence of selections, the final queue is the starting queue rotated once per accepted move |
| GameProperties.PlayIsBounded | TicTacToe.js:213-226 | no sequence of selections is accepted more often than there are free cells |

## Left out

- DOM and rendering are not modelled: `elementIndex`, `generateTable`, `getBoard`, the `data-num` attribute, and the `innerHTML`/`classList` updates in `Cell.select` and `Cell.clear`. Cells are plain numbers, so "not found" is a number off the board.
- The `className` and `char` display fields are left out. The only use of `char` modelled is the constructor's string check.
- Handler bodies are foreign code. They are modelled as entries in the call log. Exceptions they throw, and re-entrant calls into the engine from inside a handler, are not modelled.
- The select handler receives the table-cell element in the source. The model passes the cell's number instead.
- The object aliasing of `mapPlayer` is modelled as one move list per reference. The model does not capture a caller who mutates the players array or a player object after construction.
- Player entries that are `null` or `undefined` are not modelled. Reading `char` on them throws a `TypeError` in the constructor.
- Engine.TicTacToe.SelectCell: on an empty queue, the source throws a `TypeError` out of `selectCell`. The model returns the outcome `NoActivePlayer` and leaves the state unchanged.
- Non-integer numbers of cells cannot arise, because a non-integer size is rejected. For sizes of zero or below the board has no cells. Every player then "covers" the two empty diagonals, but no selection can reach the win check.

## Findings

| source | as written | input that shows it | evidently intended | confidence | as-written member | corrected member |
|---|---|---|---|---|---|---|
| TicTacToe.js:133 | `!players.length >= 2` parses as `(!players.length) >= 2`, which compares 0 or 1 with 2 and is never true | `new TicTacToe(3, [{char: 'X'}])`, or `players = []`, is accepted | `!(players.length >= 2)`: refuse fewer than two players, as the error message says | high, not executed | Setup.Validate, Setup.FewPlayersAccepted | Setup.ValidateIntended |

`Engine.Create` follows the checks as written, so the engine is also modelled with
zero or one player. Every property in `GameProperties` holds for any player list,
and so it holds under both versions of the check.
