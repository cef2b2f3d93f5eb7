# TicTacToe.js in Dafny

This is a model of the tic-tac-toe widget in `tictactoe.js`: a 3x3 board on
which a human plays against the computer. The "impossible" level picks the
computer's cell with an alpha-beta pruned game-tree search. The model has
three modules:

- `BoardModel` (`board.dfy`) covers the board. It has:
  - the three cell values `Human`, `Blank` and `Computer`, encoded -1, 0 and +1 by `Value`;
  - the table of the eight winning lines, `WinConditions`, in the source's order;
  - the read-only queries `GetWinner`, `IsBlankBox`, `IsDrawMove` and `IsWinMove`;
  - `GetPossibleBoard`, which copies the board with one cell written.
- `SearchEngine` (`search.dfy`) covers the search. It has:
  - `CalcAlphaBetaPruning` with its two loop branches, `MaximizingPass` and `MinimizingPass`;
  - the root loop `ImpossibleMode`;
  - `Minimax`, the unpruned minimax value the pruned search is proved against. It uses the source's own leaf rule `winner * player`.
- `GameSession` (`session.dfy`) covers the session. It has:
  - the class `TicTacToe`, which holds the widget's private state: the `boardState` array, `playerTurn`, `humanWins`, `computerWins` and `difficulty`;
  - the methods `MarkBox`, `MatchHandler`, `ComputerTurn`, `Init`, `SetDifficulty` and `Click`. `Click` is the click listener.

Each method is proved against a function or a relation on an immutable `Session` value: `MarkStep`, `MatchStep`, `Play`, `ComputerTurnStep` and `ClickStep`.

The main results are these:

- Pruning does not change the answer. For every window, the pruned score and the minimax value agree once both are clamped to `[alpha, beta]`. With the root window `(-2, +2)` the two are equal.
- The root loop returns the first blank cell with the highest score, and the choice is unique. On a board without a winner, that cell attains the board's minimax value.
- Under the leaf rule `winner * player`, every move that wins scores -1, whoever makes it. A fresh winner is always the side that just moved, and the side to move next is its opponent.
- The session methods do exactly what their step functions say. `MatchStep` has its meaning proved. For a turn of the computer, and for a whole click, the scores never go down, and at most one point is awarded.

## Model

| member | source | states |
|---|---|---|
| `BoardModel.Value` | tictactoe.js:28-32 | The PLAYER encoding lies in -1..1 and is 0 exactly for Blank. |
| `BoardModel.WinConditionsAreTheLines` | tictactoe.js:26 | The table has eight different entries, and each is a row, a column or a diagonal of the grid. Conversely, every row, column and diagonal is in the table. |
| `BoardModel.IsBlankBox` | tictactoe.js:264-266 | A cell is blank exactly when its encoding equals Blank's 0. |
| `BoardModel.WinnerFromMeaning` | tictactoe.js:243-254 | The scan from line k finds nothing exactly when no line from k on is owned by one player. Otherwise it returns the owner of the first owned line, which is never Blank. |
| `BoardModel.GetWinnerMeaning` | tictactoe.js:242-255 | getWinner says "no winner" exactly when no line of the table is filled by a single player. Otherwise it names the player who fills the first such line in table order. |
| `BoardModel.NoBlankFrom` | tictactoe.js:230-235 | The scan from cell x reports true exactly when no cell from x to 8 is blank. |
| `BoardModel.IsDrawMove` | tictactoe.js:229-236 | isDrawMove holds exactly when the board has no blank cell, which is when its blank count is 0. The winner is not consulted. |
| `BoardModel.IsWinMoveMeaning` | tictactoe.js:238-240 | A player for whom isWinMove holds owns a line. A player who owns a line while no other player owns one wins. Blank "wins" exactly the boards on which no line is owned, because `false == 0`. |
| `BoardModel.GetPossibleBoard` | tictactoe.js:204-208 | The copy holds the player at the position, and every other cell is as in the input board. |
| `BoardModel.MarkingRemovesOneBlank` | tictactoe.js:204-208 | Writing a player into a blank cell lowers the blank count of every suffix that contains the cell by exactly one. Other suffixes keep their count. |
| `BoardModel.FullWonBoardIsDrawMove` | tictactoe.js:229-236 | A full board on which the computer owns the top row is both a draw move and a board with a winner. |
| `SearchEngine.Minimax` | tictactoe.js:151-202 | The reference value lies in -1..1. On a board with a winner it is never 0, and it is +1 exactly when the winner is the side to move. |
| `SearchEngine.MaxChild` | tictactoe.js:168-180 | The best computer child value from cell x on lies in -1..1. |
| `SearchEngine.MinChild` | tictactoe.js:186-198 | The best human child value from cell x on lies in -1..1. |
| `SearchEngine.CalcAlphaBetaPruning` | tictactoe.js:151-202 | The score lies in -1..1. Clamped to any window `[alpha, beta]` it equals the clamped minimax value, and under the root window it equals the minimax value. A won board scores winner * player. A full board without a winner scores 0. |
| `SearchEngine.MaximizingPass` | tictactoe.js:161-181 | bestScore stays -2 exactly on a board without a blank cell; otherwise it lies in -1..1. Seen through the window, it is the largest child value, even when the loop breaks once `beta <= alpha`. |
| `SearchEngine.MinimizingPass` | tictactoe.js:183-199 | bestScore stays +2 exactly on a board without a blank cell; otherwise it lies in -1..1. Seen through the window, it is the smallest child value, even when the loop breaks once `beta <= alpha`. |
| `SearchEngine.ImpossibleMode` | tictactoe.js:130-149 | The result is -1 exactly when the board has no blank cell. Otherwise it is a blank cell whose score is the highest, with every earlier blank cell scoring strictly less. |
| `SearchEngine.MaxChildIsBestScore` | tictactoe.js:134-146 | From cell x on, no computer move scores more than the best child value, and some blank cell attains it. |
| `SearchEngine.BestMoveAttainsMinimax` | tictactoe.js:130-149 | On a board without a winner, the cell the root loop picks scores the board's minimax value for the computer. |
| `SearchEngine.BestMoveIsUnique` | tictactoe.js:141-144 | Because the update uses a strict `<`, at most one cell qualifies as the root loop's pick. |
| `BoardModel.NewWinnerIsMover` | tictactoe.js:242-255 | Take a board without a winner and mark one of its blank cells. If the new board has a winner, that winner is the player who made the mark. |
| `SearchEngine.WinningMoveScoresAsLoss` | tictactoe.js:152-156 | Take any board without a winner and any player's move that produces a winner. Under the leaf rule `winner * player` the resulting board scores -1 for the opponent, who is to move. So every winning computer move scores -1 at the root. |
| `SearchEngine.ImmediateWinScoresAsLoss` | tictactoe.js:152-156 | One instance: on `[C, C, _, H, H, _, _, _, _]`, the computer's move at cell 2 wins, yet it scores -1 at the root. |
| `GameSession.MarkStep` | tictactoe.js:210-227 | The mark succeeds exactly when the index is in 0..8 and that cell is blank. On success the mover's mark is written there and no other cell changes; otherwise the session is unchanged. The turn, the scores and the difficulty never change. |
| `GameSession.MatchStepMeaning` | tictactoe.js:60-98 | The match is over exactly when the side to move has won or the board is full. The winner's counter goes up by one. After a draw the turn stays with the last mover. The board and the difficulty are untouched. |
| `GameSession.TicTacToe.IsHumanTurn` | tictactoe.js:268-270 | It is Human's turn exactly when `playerTurn` holds Human's encoding -1, which is exactly when the mover writes Human's mark. |
| `GameSession.TicTacToe.constructor` | tictactoe.js:45-51 | A new session has an empty board, Human to move, no wins on either side and difficulty 2. |
| `GameSession.TicTacToe.MarkBox` | tictactoe.js:210-227 | The array and the returned flag are exactly those of `MarkStep` on the old session. |
| `GameSession.TicTacToe.MatchHandler` | tictactoe.js:60-98 | The new session and the returned flag are exactly those of `MatchStep`. |
| `GameSession.TicTacToe.PlayTurn` | tictactoe.js:116-118 | A mark followed by the match check, with the turn handed to the other side when the match goes on, is `Play` on the old session. |
| `GameSession.TicTacToe.ComputerTurn` | tictactoe.js:100-120 | `ComputerTurnStep` holds. On Human's turn nothing changes. Levels 0 and 1 report an unsupported difficulty and change nothing. Level 2 plays the root loop's best cell, if any. Any other level plays nothing. |
| `GameSession.TicTacToe.Init` | tictactoe.js:275-285 | The board is a fresh empty array. If the computer is to move, it then takes its turn as `ComputerTurnStep` describes. |
| `GameSession.TicTacToe.SetDifficulty` | tictactoe.js:287-308 | Any value is stored as the difficulty. The scores are reset to 0, Human is to move and the board is empty. |
| `GameSession.TicTacToe.Click` | tictactoe.js:326-332 | A click does nothing unless it is Human's turn. Otherwise the human's mark and the match check run, and if the match goes on the computer replies, as `ClickStep` states. |
| `GameSession.BestMoveIsComputerTurn` | tictactoe.js:111-118 | On level 2 with the computer to move, playing the root loop's best cell is a computer turn. |
| `GameSession.ComputerTurnIsDeterministic` | tictactoe.js:100-120 | Two computer turns from the same session end in the same session with the same outcome. |
| `GameSession.PlayByComputer` | tictactoe.js:116-118 | After the computer's mark and the match check, the turn is still a player and the difficulty and the human's wins are unchanged. The computer's wins go up by at most one. |
| `GameSession.PlayByHuman` | tictactoe.js:328-329 | After the human's mark and the match check, the turn is still a player, and the difficulty and the computer's wins are unchanged. The human's wins go up by at most one. They do not change when the match goes on, and the turn then passes to `next`. |
| `GameSession.ClickScores` | tictactoe.js:326-332 | After a click, the turn is still a player and the difficulty is unchanged. Neither win counter goes down, and the two together rise by at most one. |
| `GameSession.ComputerTurnScores` | tictactoe.js:100-120 | A computer turn leaves the turn with a player and never changes the human's wins. It raises the computer's wins by at most one. |

## Left out

- The maximising branch's stray `while (nextBlankBox(x, board) !== -1)` at tictactoe.js:164 is not modelled, and neither is `nextBlankBox` (tictactoe.js:257-262). As written, the `while` takes the `for` loop as its body and reads an undeclared `x`, so it would throw. The model keeps only the `for` loop at tictactoe.js:168-180. This is the model's one deliberate change of behaviour. The abstractions are listed below.
- `CalcAlphaBetaPruning` is split into two methods, `MaximizingPass` and `MinimizingPass`, one per branch of the source's single function. Each returns the raw `bestScore`, and `CalcAlphaBetaPruning` applies the final `Math.abs(bestScore) < 2 ? bestScore : 0` itself.
- CalcAlphaBetaPruning: requires a player other than Blank. On a board without a winner, the source would return `null` for any other `player` (tictactoe.js:158, 201). On a won board it returns `winner * player` (tictactoe.js:155). No caller passes such a player.
- The number of nodes the pruning skips is not stated; only the value it returns is.
- The DOM is not modelled: `UI_BOARD`, the `classList` updates in `markBox` and `init`, and the binding of click listeners (tictactoe.js:34-40, 218, 221, 280, 325-334). `Click` models only the body of one listener, and the box index is a parameter.
- The `boardId` check that throws "Board not found!" (tictactoe.js:35-37) is not modelled.
- `console.log` and `console.error` output is not modelled.
- The `winHandler`, `drawHandler` and `pointsHandler` callbacks and their setters (tictactoe.js:53-55, 76-90, 303-305, 310-320) are not modelled.
- TicTacToe.MatchHandler: does not schedule the `setTimeout(() => INSTANCE.init(), 350)` of tictactoe.js:93. A caller that wants the next match calls `Init` itself. Until then, a human who has just won keeps the turn, as in the source during the 350 ms before the re-init. A click on another blank cell then wins again and adds a second point.
- easyMode and fairMode (tictactoe.js:122-128) only throw. `ComputerTurn` models the throw as the outcome `UnsupportedDifficulty`, with the session unchanged. How a caller propagates the exception is not modelled.
- The `isNaN` checks (tictactoe.js:211-213, 288-290) are not modelled, because indices and difficulties are Dafny integers. An integer index outside 0..8 is still accepted: `MarkBox` returns false for it, as the source does when `computerTurn` passes -1.
- JavaScript number semantics are not modelled. The win counters are unbounded naturals, so precision beyond 2^53 is not modelled.
- The initial `INSTANCE.init()` at tictactoe.js:336 is the caller's job. It calls `Init` after the constructor.
- The winning lines are checked in the code's table order, not in the order rows, columns, diagonals.
- `isDrawMove` does not consult the winner, as `FullWonBoardIsDrawMove` shows. When the winner is the side to move, the session still reports such a board as a win, because `isVictory` is tested first. Otherwise it reports a draw.
