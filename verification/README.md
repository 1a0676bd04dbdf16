# Tic-tac-toe with time travel: a Dafny model of the game logic

This project models the game logic of a React tic-tac-toe app (`src/App.js`). Two players
take turns marking squares of a 3×3 board. X moves when the current history index is
even, O when it is odd. The first complete line in a fixed search order wins. A full
board with no complete line is a draw.

Every accepted move appends a snapshot of the board to a history. Players can jump back
to any snapshot. A move made from an earlier snapshot discards the snapshots after it.
A move log lists the history in ascending or descending order. A status line names the
winner or the player to move, or reports a draw.

Files and modules:

- `board.dfy` (module `Board`): cells, boards and the eight lines. It defines the winner
  search as a recursive specification (`FirstComplete`) and as the loop of `calculateWinner`,
  proved equal.
  It also counts the marked squares.
- `history.dfy` (module `History`): history entries and the invariant every history
  satisfies (`Consistent`):
  - entry 0 is the empty board;
  - each later entry marks one empty square of its predecessor;
  - that mark is X or O by parity;
  - the predecessor had no winner.
- `movelog.dfy` (module `MoveLog`): the rows of the move log and their display order.
- `status.dfy` (module `Status`): the status line, including the empty-name fallback.
- `game.dfy` (module `App`): the class `Game`. Its fields `history`, `currentMove` and
  `isAscending` are updated by the click, jump, sort and reset handlers.
- `scenarios.dfy` (module `Scenarios`): short games played against the class's contracts:
  - a centre opening;
  - a jump back that truncates the branch;
  - a column win after which clicks are ignored;
  - a descending log;
  - a nine-move drawn game after which clicks are ignored.

Player names are parameters of the status function. The text inputs that set them are
not modelled. A board is a value (`seq<Cell>` of length 9). The original copies the
array and assigns one square; here that is the value update `b[i := mark]`.

## Model

| member | source | states |
|---|---|---|
| `Board.FirstComplete` | src/App.js:253-258 | Searching lines `k..7` in order stops at a position `j` in `k..8`. `j < 8` means line `j` is complete. No line between `k` and `j` is complete. |
| `Board.FirstCompleteIsFirst` | src/App.js:253-257 | Any position matching that description is the one the search returns. |
| `Board.Winner` | src/App.js:241-259 | A reported winner's line is complete. The reported mark is the one on that line's squares, never empty. |
| `Board.WinnerIffSomeLineComplete` | src/App.js:241-259 | There is a winner iff some line is complete. Otherwise the result is null. The reported line is one of the eight. |
| `Board.WinnerIsFirstComplete` | src/App.js:243-257 | The winner is the first complete line in list order: if line `j` is complete and no earlier line is, `calculateWinner` reports exactly line `j` and its mark. |
| `Board.CalculateWinner` | src/App.js:241-259 | The loop with early return computes exactly `Winner` of the board. |
| `Board.Filled` | src/App.js:162 | The count of marked squares never exceeds the number of squares. |
| `Board.FilledAfterMark` | src/App.js:176-177 | Marking an empty square raises the count of marked squares by exactly one. |
| `Board.FilledAllIffNoEmpty` | src/App.js:162 | The count equals the length iff no square is empty. |
| `Board.Full` | src/App.js:162 | `squares.every(sq => sq !== null)`: the board is full iff no square is empty. |
| `Board.FullIffNineFilled` | src/App.js:162 | `squares.every(sq => sq !== null)` holds iff nine squares are marked. |
| `History.MarkFor` | src/App.js:23 | The mark placed is never empty. It is X iff the current move index is even. |
| `History.TruncateAndAppend` | src/App.js:26-33 | Keeping entries `0..currentMove` and appending a legal step gives a consistent history of length `currentMove + 2`. |
| `History.OneSquarePerEntry` | src/App.js:174-179 | Each entry after the first differs from its predecessor in exactly the square it records. That square was empty and now holds the mark for the turn's parity. |
| `History.FilledAllEmpty` | src/App.js:19 | The empty starting board has no marked square. |
| `History.FilledIsIndex` | src/App.js:174-179 | Entry `k` of any history the game builds has exactly `k` marked squares. |
| `History.AtMostTenEntries` | src/App.js:26-33 | A history never exceeds ten entries, so a game has at most nine moves. |
| `History.FullOnlyAtNine` | src/App.js:162 | A board in the history is full exactly at entry 9. |
| `History.SameMovesSameBoards` | src/App.js:174-179 | Two histories recording the same squares up to entry `k` agree on entry `k`. So replaying a branch after a jump rebuilds the same boards. |
| `MoveLog.RowFor` | src/App.js:50-76 | The row for entry `move` names that entry. It is inert iff it is the current entry. It is "game start" iff `move` is 0. Otherwise its 1-based row and column lie in 1..3 and decode to the recorded square. |
| `MoveLog.Moves` | src/App.js:49-81 | There is one row per entry, and row `m` names entry `m`. Only the current entry's row is inert; every other row jumps to its entry. Only entry 0 is "game start". A move's 1-based (row, col) decodes back to the square it filled. |
| `MoveLog.Reversed` | src/App.js:83 | Reversal keeps the length, and position `k` holds the element `k` places from the end. |
| `MoveLog.ReversedTwice` | src/App.js:83 | Reversing twice restores the original order. |
| `MoveLog.Displayed` | src/App.js:83 | The displayed log has one row per entry. Position `k` shows entry `k` when ascending, and the entry `k` places from the last when descending. It is built from the history without changing it. |
| `MoveLog.DescendingMirrorsAscending` | src/App.js:83 | The descending log is exactly the ascending log reversed, and the other way round. |
| `MoveLog.OneInertRow` | src/App.js:63-76 | With the pointer in range, exactly one displayed row is inert. It is the current entry's row, at the mirrored position when descending. Every other row jumps to an existing entry. |
| `MoveLog.RowsOfConsistentHistory` | src/App.js:51-55 | In a consistent history, row 0 is "game start". Every later row has row and column in 1..3, and these recover the entry's `lastMove`. |
| `Status.PlayerName` | src/App.js:155-171 | The displayed name is never empty. It is the given name, or "Player 1" / "Player 2" when the given name is empty. |
| `Status.StatusOf` | src/App.js:150-172 | The status is a win iff some line is complete, naming the owner of the first complete line. It is a draw iff no line is complete and the board is full. Otherwise it names the player to move. |
| `Status.HeadingAsWritten` | src/App.js:214-218 | The heading as written: "Winner: " iff there is a winner; otherwise "Result is: " iff the status text is "Draw", and "Next player: " for any other text. |
| `Status.HeadingMatchesOutcome` | src/App.js:214-218 | "Winner: " iff there is a winner; "Result is: " iff a full board has no winner. When no player is named "Draw", the original heading agrees. |
| `Status.PlayerNamedDrawMislabelled` | src/App.js:214-218 | On an empty board with a player named "Draw" to move, the original heading is "Result is: " although the game is in progress. |
| `Status.DrawOnlyAtNine` | src/App.js:162-163 | Along a game's history, a draw is only reported at entry 9. |
| `App.Game.constructor` | src/App.js:18-22 | A new game has one entry (the empty board, no last move) and the pointer at 0. The log is ascending, and the state is valid. |
| `App.Game.CurrentSquares` | src/App.js:24 | The board shown is the current entry's board. A board with a winner is always the last entry, since no move is accepted on it. |
| `App.Game.XIsNext` | src/App.js:23 | X moves next exactly when the mark for the current move index is X, so it agrees with `History.MarkFor`. |
| `App.Game.DisplayedMoves` | src/App.js:83 | The displayed log has one row per entry, and every row names an existing entry. |
| `App.Game.CurrentStatus` | src/App.js:150-172 | The status of the board shown. A draw is reported only at entry 9. Otherwise it is the winner, or the player whose mark the current move index selects. |
| `App.Game.ResetDisabled` | src/App.js:109 | In a valid state the reset button is disabled exactly when the history is the single starting entry and the pointer is at 0. |
| `App.Game.HandlePlay` | src/App.js:26-33 | The new history is the old entries `0..currentMove` followed by the new snapshot. Its length is `currentMove + 2`, the pointer moves to its last entry, and validity is kept. |
| `App.Game.HandleClick` | src/App.js:174-179 | A click on a taken square, or on a board with a winner, changes nothing. Otherwise the current board, with square `i` set to the turn's mark, becomes the new last entry after truncation. |
| `App.Game.JumpTo` | src/App.js:35-37 | Only the pointer changes, to the given entry. The history and the order are untouched, and validity is kept. |
| `App.Game.HandleSorting` | src/App.js:39-41 | Flips the order and changes nothing else. The displayed log becomes the reverse of what it was. |
| `App.Game.ResetGame` | src/App.js:43-47 | Whatever the prior state, the history becomes the single starting entry, the pointer 0, and the order ascending. |

## Left out

- Rendering is not modelled: JSX, `Layout`, `Header`, `Footer`, `Square`, `HistoryTable`, the board-row loop (src/App.js:181-200) and the winning-line highlight. They are presentation only.
- CSS classes, button titles and sort-button captions are not modelled. This includes `statusClass` (src/App.js:202-209), which repeats the `status === "Draw"` comparison of the finding below. They are cosmetic strings.
- The `Names` input handlers (src/App.js:273-311) are not modelled. They only store free-form text, so the names enter the model as parameters of the status function.
- Log captions are the datatype `Label` (move number, row, column) together with the row's `isCurrent` flag. They are not formatted text such as "Go to move #2 (1, 1)", so there is no number-to-text conversion.
- React's `useState` scheduling is not modelled. Each handler updates the fields at once, as one step.
- The `Array.isArray` guard (src/App.js:242) is not modelled. A `Board` always has nine cells, so the guard cannot fire.
- App.Game.JumpTo: requires the target to be an existing entry. The original does not check this; it only ever calls `jumpTo` from a rendered row, and `MoveLog.OneInertRow` shows rendered targets exist.
- App.Game.HandleClick: requires the square index to be below 9. The original only passes indices of the nine rendered squares.

## Findings

| source | as written | input that shows it | evidently intended | confidence | as-written member | corrected member |
|---|---|---|---|---|---|---|
| src/App.js:214-218 | The heading is "Result is: " whenever there is no winner and the status text equals "Draw". | Player 1 named "Draw", empty board, X to move: the line reads "Result is: Draw". | "Result is: " only for a full board without a winner; "Next player: " while the game goes on. | not executed; the code path is direct | `Status.HeadingAsWritten` (shown by `Status.PlayerNamedDrawMislabelled`) | `Status.StatusLine.Heading` (proved by `Status.HeadingMatchesOutcome`) |
