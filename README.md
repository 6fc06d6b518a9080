# Community tic-tac-toe engine, modelled in Dafny

The repository runs one tic-tac-toe game whose moves arrive as issue titles.
Each run of `game/update_game.py` does four things:

- It reads a title such as `tic-tac-toe|move|4`.
- It applies that move to the stored game state: nine cells, a status, the next player, and a history of moves.
- It decides whether the game is won or drawn.
- On a legal move, it rewrites the state file and the README page. Otherwise it writes nothing. The page shows the board, with a move link in every open cell while the game is in progress, and at most the last five moves, newest first.

The model has six modules:

- `Wrappers` (wrappers.dfy): `Option`.
- `Board` (board.dfy): players, cells, the eight winning triples, and `check_winner` as `CheckWinner`. `CheckWinner` is a recursive scan (`Scan`) that stops at the first triple held by one player, then falls back to "Draw" or None. The module also counts the marks on a board.
- `MoveCommand` (move_command.dfy): the `re.match` of the title, as `Parse`, and the title format used in board links, as `MoveTitle`.
- `Transition` (transition.dfy): the game state as a value (`GameState`). `Step` is the guarded update of `main`: a move is applied only when the cell is empty and the game is still in progress. The module also defines the invariants a move keeps, and `Play`, a fold over a run of issues.
- `Readme` (readme.dfy): `generate_readme`. The functions `StatusLine`, `View`, `CellText`, `RowText`, `Grid`, `History` and `Render` say what the document is. The method `GenerateReadme` builds it the way the script does. `TableRow` is one pass of the row loop, including its inner cell loop. `MoveHistory` is the history loop.
- `Engine` (engine.dfy): the class `Game`. It holds the loaded state, with the board as an array that is updated in place. `ApplyMove` is the guarded block. `ProcessTitle` is `main` from the parse on. It returns what the run writes.

The model follows the code where it differs from what one might expect of a move command (one digit, 0 to 8, nothing after it):

- The code's pattern `tic-tac-toe\|move\|(\d)` is anchored only at the start. So `tic-tac-toe|move|12` is a move to cell 1, and `tic-tac-toe|move|9` parses.
- For 9, the script then fails with an index error at `board[9]`, before it changes or writes anything. The model returns `IndexOutOfRange` for this case (`ParseBound`, `Engine.Game.ProcessTitle`).

## Model

| member | source | states |
|---|---|---|
| Board.ScanFindsFirst | game/update_game.py:11-14 | scanning the triples from line `from` on returns `p` exactly when the first held line at or after `from` is held by `p` |
| Board.ScanFindsNone | game/update_game.py:11-14 | the scan from `from` returns nothing exactly when no line from there on is held |
| Board.LineWinnerOwned | game/update_game.py:12-14 | the test of one triple yields `p` exactly when all three cells hold `p`, and nothing exactly when no player holds the line |
| Board.CheckWinnerIsFirstMatch | game/update_game.py:6-14 | the evaluator names `p` iff some triple, in the order rows, columns, diagonals, is held by `p` and no earlier triple is held; a later triple never overrides an earlier one |
| Board.CheckWinnerDraw | game/update_game.py:15-16 | "Draw" iff no triple is held and every cell is filled |
| Board.CheckWinnerUndecided | game/update_game.py:15-17 | None iff no triple is held and some cell is empty, so "Draw" and "no winner yet" are distinct |
| Board.CountAfterMark | game/update_game.py:74 | writing `p` into an empty cell raises p's count by one and leaves the other player's count unchanged |
| Board.CountFilled | game/update_game.py:15 | at most nine cells are filled, and all nine exactly when the board is full |
| MoveCommand.ParseIsPrefixMatch | game/update_game.py:64-69 | the title parses to `i` iff `i` is a digit and the title starts with the move prefix `tic-tac-toe`, `move` (each followed by a bar) and then that digit |
| MoveCommand.ParseRejects | game/update_game.py:64-67 | a title is rejected iff it starts with no move command for any digit |
| MoveCommand.ParseBound | game/update_game.py:64-69 | a parsed index is at most 9, and 9 itself gets through the parser |
| MoveCommand.ParseIgnoresTrailing | game/update_game.py:64 | text after the digit never changes the parse |
| MoveCommand.MoveTitleRoundTrip | game/update_game.py:42 | the title built for cell `i`, with any text after it, parses back to `i` |
| Transition.StepIllegalIsNoOp | game/update_game.py:72 | a move leaves the whole state unchanged iff the cell is occupied or the game is over |
| Transition.StepChangesOneCell | game/update_game.py:73-75 | a legal move puts the mover's symbol in the chosen empty cell, changes no other cell, and appends `{player, "<P> to cell <i>"}` after the earlier records |
| Transition.StepStatus | game/update_game.py:78-84 | after a legal move, the status is draw, win or in progress exactly as the evaluator judges the new board; the next player toggles only when the game goes on |
| Transition.StepKeepsHistory | game/update_game.py:72-75 | a filled cell is never overwritten; the history keeps its old records as a prefix and grows by at most one |
| Transition.StepTerminal | game/update_game.py:72 | a won or drawn game accepts no move |
| Transition.FullBoardNoOp | game/update_game.py:72 | on a full board every move is a no-op |
| Transition.StepPreservesInvariant | game/update_game.py:72-84 | a move keeps the status in agreement with the evaluator, keeps the X/O counts alternating with the turn, and keeps one history record per filled cell |
| Transition.InitialInvariant | game/update_game.py:78-84 | the empty board with X to move and no history satisfies that invariant |
| Transition.EmptyCount | game/update_game.py:60-61 | a board of empty cells holds no marks; the base fact `InitialInvariant` uses for the assumed empty board loaded at the start |
| Transition.PlayPreservesInvariant | game/update_game.py:72-84 | every state reached by a run of issues keeps the invariant |
| Transition.PlayKeepsMarks | game/update_game.py:72-75 | across any run of issues, marks are never erased or changed, and the history is append-only, growing by at most one record per issue |
| Transition.PlayedGameBound | game/update_game.py:72-84 | a game played from the empty board keeps the invariant and never records more than nine moves |
| Transition.PlayTerminal | game/update_game.py:72 | after a game is over, no run of issues changes the state again |
| Transition.CentreOpening | game/update_game.py:72-84 | X taking cell 4 of the empty board leaves the game in progress with O to move and record "X to cell 4" |
| Transition.TopRowWin | game/update_game.py:78-82 | X completing the top row by taking cell 2 wins, and X stays the named player |
| Readme.GenerateReadme | game/update_game.py:19-54 | the document built by appending is exactly `Render` of the state |
| Readme.TableRow | game/update_game.py:35-47 | one pass of the row loop yields the row of three cell texts |
| Readme.MoveHistory | game/update_game.py:50-52 | the history loop yields one line per entry of `History` of the moves |
| Readme.EntriesTextAppend | game/update_game.py:51-52 | appending a record's line to a list's lines gives the lines of the longer list |
| Readme.ReverseAt | game/update_game.py:51 | the reversed list has the same length and holds, at position k, the element k places from the end |
| Readme.HistoryIsNewestFirst | game/update_game.py:51-52 | the history shows min(5, number of moves) entries, and entry k is the (k+1)-th most recent move |
| Readme.LinksAreLegalMoves | game/update_game.py:39-44 | a cell carries a move link iff taking it is a legal move, and the link's issue title, with anything after it, parses back to that cell |
| Readme.FilledAndBlankCells | game/update_game.py:39-46 | a filled cell shows its symbol whatever the status; an empty cell is blank iff the game is over |
| Readme.RowIsThreeCells | game/update_game.py:35-47 | a table row is a bar followed by the texts of cells 3r, 3r+1 and 3r+2 |
| Readme.GridIsRowMajor | game/update_game.py:35-47 | the table is rows 0, 1 and 2 in order |
| Readme.WinHeaderNamesWinner | game/update_game.py:28-30 | when the stored status agrees with the board, the header of a won game names the player returned by the evaluator |
| Engine.Game.constructor | game/update_game.py:60-61 | the object holds exactly the loaded state, with a fresh nine-cell board |
| Engine.Game.ApplyMove | game/update_game.py:72-84 | the in-place update reports whether the move was legal and leaves the object holding `Step` of the old state |
| Engine.Game.ProcessTitle | game/update_game.py:63-93 | a title that does not parse, or that names cell 9, changes nothing and writes nothing; otherwise the state becomes `Step` of the old state; a legal move writes the state and a README equal to `Render` of the new state; an illegal one writes nothing; something is written iff the state changed |

## Left out

- Reading and writing `game/game_state.json` and `README.md` (`open`, `json.load`, `json.dump`, `f.write`). The constructor takes the loaded state. `ProcessTitle` returns `Written(readme)` where the script writes both files.
- The JSON format, its indentation and its key order. A state file holding values other than the three statuses, two players and nine cells is not modelled.
- `os.getenv`: the title and the submitter are parameters.
- `print` diagnostics. The uncaught index error for cell 9 is modelled as the outcome `IndexOutOfRange`.
- Python's `\d` also matches non-ASCII decimal digits. The model accepts only `'0'` to `'9'`.
- The issue link's URL encoding. The link is the fixed URL prefix, the title text and the fixed body, joined as the script joins them.
- Concurrent runs racing on the state file. The script does nothing about them.
- The contents of the initial state file are not modelled. `Initial` assumes an empty board, X to move and no history.
