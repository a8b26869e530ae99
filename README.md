# Hasami Shogi rule engine in Dafny

This project models the rule engine of a two-player Hasami Shogi game (variant 1), the class
`HasamiShogiGame` in `hasamishogigame.py`. It covers the following.

- **Board and turn.** A 9x9 board is stored as a flat list of 81 cells in the order a1..a9,
  b1..b9, ..., i1..i9. Red starts on row a and Black on row i, and Black moves first.
- **Moves.** A stone moves any distance along its row or column over empty cells.
- **Custodian capture.** A move captures a run of opponent stones, next to the destination in one
  of the four directions, that is closed off by a stone of the mover.
- **Corner capture.** A move captures an opponent stone alone in a corner when the mover holds both
  of the corner's neighbours.
- **Winning.** Captured stones are counted per side. A side whose count reaches 8 (so that at most
  one of its stones is left) has lost.

The project has two layers:

- **The rules on values.** The modules are `Board`, `Scans`, `Corners`, `Resolver` and `Rules`.
  The properties the game promises are proved there as lemmas:
  - the scan takes exactly the custodian run;
  - captures never list a cell twice;
  - every stone stays on the board or is counted as captured;
  - a finished game accepts nothing.
- **The game object** (`ShogiGame.HasamiShogiGame`). It has an `array` board, counters, a turn
  field and the captured-cell buffer. Its methods are the source's methods with their loops and
  recursion. Each method is proved against the value layer:
  - `MakeMove` returns exactly `Rules.Accepts` of the state before the call;
  - it leaves exactly `Rules.AfterMove` of that state, or the old state when the move is rejected;
  - the invariant `Valid()` (every stone accounted for, empty buffer) holds between moves.

Design decisions:

- **Cells.** A cell is a `Cell(row, col)` with rows 0..8 for 'a'..'i' and columns 0..8 for '1'..'9'.
- **Cell names.** The names a1..i9 are kept beside the board implicitly (`Board.NameAt`), because
  `set_board` always rewrites a cell's own name.
- **Name order.** `search_board` compares names with Python's string order, modelled as
  `Board.StrLess`.
- **Game state.** `get_game_state` stores its result in `_game_state` and returns it. The model
  computes it from the counts (`Board.StateOf`).
- **Capture recursion.** `capture_check` carries its run in the shared field `_sequence_check`,
  which every call leaves empty. The model passes the run as a parameter instead, empty at each
  top-level call.
- **Capture guard.** The test at hasamishogigame.py:306-307 (`!= '.' or != mover`) is always true.
  It is kept as written in `CaptureCheck`; the cell it tests always holds an opponent stone there.

## Model

| member | source | states |
|---|---|---|
| Board.StateOf | hasamishogigame.py:45-60 | UNFINISHED iff both counts are below 8; RED_WON iff Black's count is at least 8, whatever Red's count; BLACK_WON iff Red's count is at least 8 and Black's is below 8 |
| Board.NamesSorted | hasamishogigame.py:29-43 | the board list built by the constructor is strictly sorted by cell name in Python string order, so binary search over it is sound |
| Board.NamesDistinct | hasamishogigame.py:29-43 | no two board positions carry the same name |
| Scans.LineCaptureIsCustodian | hasamishogigame.py:251-313 | the recursive scan in one direction returns a non-empty list only when it is a run of opponent stones next to the destination closed by a mover stone on the board; whenever such a run of length k exists, it returns exactly the positions of those k cells, nearest first |
| Scans.LineCaptureCells | hasamishogigame.py:251-313 | every position a directional scan takes holds an opponent stone, lies beyond the destination in that direction short of the board edge, and occurs once |
| Corners.CornerOf | hasamishogigame.py:322-352 | only a2/b1, a8/b9, h1/i2, h9/i8 trigger a corner test, and the corner it inspects is on the board and adjacent to the destination |
| Corners.CornerOfSpec | hasamishogigame.py:322-352 | a destination triggers the test of a corner iff it is adjacent to that corner |
| Corners.CornerCaptureCells | hasamishogigame.py:315-355 | the corner check takes at most one position, a corner holding an opponent stone |
| Corners.CornerCaptureSound | hasamishogigame.py:315-355 | whatever the corner check takes is an opponent corner stone adjacent to the destination whose every on-board neighbour holds the mover's stone |
| Corners.CornerCaptureComplete | hasamishogigame.py:315-355 | every such corner is taken by the corner check |
| Corners.CornerNeighbours | hasamishogigame.py:325-354 | the two cells the corner check inspects are the corner's only on-board neighbours |
| Corners.CornerCaptureAsWrittenTakesOwnStone | hasamishogigame.py:322-329 | as written, with a1, a2 and b1 all held by the mover, a move to a2 takes the mover's own a1, where the intended rule takes nothing |
| Corners.CornerCaptureAsWrittenAgrees | hasamishogigame.py:315-355 | when no corner holds a mover stone, the literal and intended corner checks take the same cells |
| Resolver.CapturesSound | hasamishogigame.py:121-131 | the union of the four scans and the corner check, all read from the same board, lists no position twice and only opponent stones |
| Resolver.LineCaptureNeedsNeighbour | hasamishogigame.py:286-301 | a scan that takes anything starts at a neighbour of the destination holding an opponent stone |
| Resolver.CaptureNeedsAdjacentOpponent | hasamishogigame.py:121-131 | a move whose destination has no opponent neighbour captures nothing |
| Rules.InitialLayout | hasamishogigame.py:15-43 | a new game has Red on every cell of row a, Black on every cell of row i, the 63 cells between empty, Black to move and the state UNFINISHED |
| Rules.InitialConserved | hasamishogigame.py:15-43 | a new game has nine stones per side on the board and nothing captured |
| Rules.ConservedBounds | hasamishogigame.py:69-78 | when every stone is accounted for, neither count exceeds nine |
| Rules.StateByStonesLeft | hasamishogigame.py:50-58 | a side has lost iff at most one of its stones is left on the board; the game is unfinished iff both sides have at least two |
| Rules.PathClearIsGeometric | hasamishogigame.py:212-249 | for a straight move, move_check's loops succeed iff every cell strictly between start and end is empty |
| Rules.AcceptedMoveShape | hasamishogigame.py:89-108 | an accepted move ends on a different cell and passes only empty cells |
| Rules.FinishedRejectsAll | hasamishogigame.py:107-108 | once the game is won, every move is rejected |
| Rules.ClearAllAt | hasamishogigame.py:144-145 | the removal loop empties exactly the listed positions and keeps every other cell |
| Rules.ClearAllCounts | hasamishogigame.py:134-145 | removing distinct positions that hold one side's stones removes that many of that side's stones and none of the other side's |
| Rules.TakenCells | hasamishogigame.py:116-131 | what a move takes are distinct opponent stones, never the start or the end cell |
| Rules.MovedKeepsStones | hasamishogigame.py:116-119 | lifting the stone from the start and putting it down on the end keeps each side's stones on the board |
| Rules.AfterMoveBoard | hasamishogigame.py:116-145 | after an accepted move the end holds the mover's stone, the start and the captured cells are empty, and every other cell is unchanged |
| Rules.AfterMoveCounts | hasamishogigame.py:134-145 | the opponent's count grows by exactly the number of cells taken, which is the number of opponent stones that left the board; the mover's count and stones are unchanged |
| Rules.AfterMoveConserved | hasamishogigame.py:80-159 | every accepted move keeps each side's stones on the board plus captured at nine |
| Rules.AfterMoveTurn | hasamishogigame.py:150-157 | the turn passes to the opponent iff the game is still unfinished after the move; a winning move keeps the turn |
| Rules.OnlyMoverCanWin | hasamishogigame.py:134-157 | a move can only end the game in the mover's favour |
| ShogiGame.HasamiShogiGame.constructor | hasamishogigame.py:9-43 | the three fill loops build the starting board; the new game is the initial game and satisfies the invariant |
| ShogiGame.HasamiShogiGame.GetGameState | hasamishogigame.py:45-60 | under the invariant, the reported state says how many stones each side has left on the board (UNFINISHED iff both have two or more) |
| ShogiGame.HasamiShogiGame.GetActivePlayer | hasamishogigame.py:62-67 | returns the player to move |
| ShogiGame.HasamiShogiGame.GetNumCapturedPieces | hasamishogigame.py:69-78 | a side's count plus its stones on the board is nine, so the count is at most nine |
| ShogiGame.HasamiShogiGame.SearchBoard | hasamishogigame.py:161-194 | the binary search returns the position carrying the given name when there is one, and nothing when no cell has that name |
| ShogiGame.HasamiShogiGame.IndexOf | hasamishogigame.py:182-185 | searching for an on-board cell's name returns row*9 + column |
| ShogiGame.HasamiShogiGame.GetSquareOccupant | hasamishogigame.py:196-210 | returns the piece on the named cell, and nothing iff no cell has that name |
| ShogiGame.HasamiShogiGame.MoveCheck | hasamishogigame.py:212-249 | returns true iff the cells move_check walks (the column between the rows when columns agree, the start's row between the columns otherwise) are all empty |
| ShogiGame.HasamiShogiGame.CaptureCheck | hasamishogigame.py:251-313 | appends to the captured list exactly what the directional scan commits |
| ShogiGame.HasamiShogiGame.CornerCheck | hasamishogigame.py:315-355 | appends to the captured list exactly the intended corner capture |
| ShogiGame.HasamiShogiGame.CollectCaptures | hasamishogigame.py:121-131 | the four scans and the corner check leave the captured list equal to all captures of the move, and leave the board untouched |
| ShogiGame.HasamiShogiGame.RemoveCaptured | hasamishogigame.py:142-145 | the removal loop empties the captured positions, first to last |
| ShogiGame.HasamiShogiGame.SetBoard | hasamishogigame.py:391-400 | writes one position and leaves the rest of the board unchanged |
| ShogiGame.HasamiShogiGame.MoveAllowed | hasamishogigame.py:86-108 | the guard chain passes iff the rules accept the move |
| ShogiGame.HasamiShogiGame.ApplyMove | hasamishogigame.py:110-157 | the update leaves the game the rules prescribe for the move, with the captured list empty again |
| ShogiGame.HasamiShogiGame.MakeMove | hasamishogigame.py:80-159 | returns true iff the rules accept the move; a rejected move changes nothing, an accepted one leaves the game the rules prescribe; the invariant is kept |
| Scenarios.OpeningPassesTurn | HasamiUnitTester.py:14-23 | Black's i2 to h2 is accepted and hands the turn to Red |
| Scenarios.WrongStoneRejected | HasamiUnitTester.py:25-29 | a1 to b2 in a new game is rejected |
| Scenarios.OccupiedEndRejected | HasamiUnitTester.py:31-35 | i4 to a4 in a new game is rejected |
| Scenarios.RightScanTakesTwo | HasamiUnitTester.py:106-118 | Black arriving on d3 with Red on d4 and d5 and Black on d6 takes d4 and d5 to the right |
| Board.NameAtA1 | HasamiUnitTester.py:81 | cell a1 sits at position 0 of the board list |
| Board.NameAtB1 | HasamiUnitTester.py:82 | cell b1 sits at position 9 of the board list |

## Left out

- `print_board` and `main`: console rendering and the interactive loop, with no effect on the rules.
- Malformed or off-board coordinate strings: `MakeMove`, `MoveCheck`, `CaptureCheck` and `CornerCheck` take validated cells. In the source, an unknown start name raises at hasamishogigame.py:89. `SearchBoard` and `GetSquareOccupant` still take any string and model the "no such cell" result.
- The occupant mode of `search_board` (no index argument): it is modelled as the index search followed by a read of that position.
- The scratch fields `_print`, `_cell_id`, `_cell_search` and `_sequence_check`: they are not observable between calls. `_game_state` is computed from the counts, not stored.
- ShogiGame.HasamiShogiGame.CornerCheck: it models the intended corner test (the corner holds an opponent stone), not the literal one, which also removes the mover's own corner stone; see Findings.

## Findings

| source | as written | input that shows it | evidently intended | confidence | as-written member | corrected member |
|---|---|---|---|---|---|---|
| hasamishogigame.py:323, 332, 341, 350 | `get_square_occupant(corner) != get_active_player()[0]` compares 'RED', 'BLACK' or 'NONE' with 'R' or 'B', so it is always true and any occupied corner is removed and credited to the opponent's count | the mover holds a1, a2 and b1 and moves a stone onto a2 (from a3, say): a1 is removed, although it is the mover's own stone | only a corner holding an opponent stone is captured | not executed | Corners.CornerCaptureAsWrittenTakesOwnStone | Corners.CornerCaptureSound |
