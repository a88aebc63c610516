# Othello rules engine, modelled in Dafny

This project models the rules engine of a small Othello (Reversi) program
(`othello-logic.py`) and proves what that engine does.

The board is a 10x10 grid of characters:
- the outer ring is a permanent border of `'*'` sentinels;
- the 8x8 playing area inside it holds `'.'` (empty), `'O'` (white) or `'X'` (black).

A game object keeps the board and a list of players, each with a name and a colour name.

Modules:
- `Board` (`board.dfy`) holds:
  - the grid, its cells and the one-cell write;
  - the standard opening;
  - the invariant that every operation keeps (border cells hold `'*'`, playing cells hold `'.'`, `'O'` or `'X'`);
  - the row-major list of the cells holding a colour (`current_positions`) and the piece counts.
- `Rules` (`rules.dfy`) holds:
  - the eight directions, in the engine's order;
  - the scan along one direction and the legality of a move (`check_if_valid`);
  - the capturing directions (`flip_pieces`);
  - the row-major list of available positions (`return_available_positions`);
  - the runs of opponent pieces that a move outflanks.
- `Flip` (`flip.dfy`) is the board after a move (`make_move`): the line flips and their fold over the capturing directions. It proves which cells change and how the counts move.
- `Scoring` (`scoring.dfy`) holds the players and the verdict of `return_winner`.
- `Game` (`game.dfy`) is the engine object itself:
  - a class with the board and player list as fields;
  - methods that follow the source's loops (`check_if_valid`, `flip_pieces`, `return_available_positions`, `make_move`), each proved equal to the specification functions above;
  - `create_player`, `return_winner`, `current_positions` and `play_game`.
- `Openings` (`opening.dfy`) proves facts about the standard opening:
  - each colour starts with two pieces and has exactly four moves;
  - a worked example: black's first move at (3,4) flips only the white piece at (4,4) and leaves four black pieces against one white.

How values are modelled:
- Colour names are strings, as in the engine. `ParseColor` maps `"white"` to white and every other string to black, as the engine does (lines 66, 80, 128).
- Piece characters are the engine's own constants.
- Messages become datatypes:
  - `TurnOutcome` is `InvalidMove(available)`, `Ongoing` or `GameOver(white, black, verdict)`;
  - `Verdict` is `Winner(color, name)`, `Tie` or `MissingPlayer(color)`.

The out-of-range question is argued explicitly. `check_if_valid` (line 110) and `flip_pieces` (line 180) read the first neighbour of a cell without a bounds check. The model shows why this is safe:
- a valid move lies in the playing area (`Rules.ValidMove`);
- only playing cells can hold pieces (`Rules.PieceIsInterior`);
- so every scan and every flipping loop stays inside the grid.

## Model

| member | source | states |
|---|---|---|
| Board.Set | othello-logic.py:131 | Writing one cell changes that cell and no other. The write keeps the board invariant when the value fits the cell. |
| Board.Opening | othello-logic.py:18-29 | The initial board satisfies the board invariant and is the standard opening, cell by cell: border `'*'`, `'O'` at (4,4) and (5,5), `'X'` at (4,5) and (5,4), `'.'` elsewhere. |
| Board.OccupantsMember | othello-logic.py:82-87 | The row-major walk from any cell keeps exactly the later cells that hold the piece. |
| Board.OccupantsWhole | othello-logic.py:82-87 | The walk over the whole grid keeps exactly the cells holding the piece, in row-major order. |
| Board.CurrentPositions | othello-logic.py:77-89 | current_positions lists exactly the cells holding the colour's piece, in strictly increasing row-major order, so without repeats. |
| Board.CountAfterSet | othello-logic.py:131 | One cell write changes a colour's count by +1 if the new value is its piece and by -1 if the old one was. |
| Board.RowMajorUnique | othello-logic.py:68-71 | Two row-major lists with the same cells are equal. This is how the opening's lists are pinned down. |
| Rules.Order | othello-logic.py:103 | The direction list holds exactly the eight unit steps, each once, in the engine's order. |
| Rules.ValidMove | othello-logic.py:97-101 | A valid move lies in the playing area on an empty cell. An occupied cell, and so every border cell, is refused before any neighbour is read. |
| Rules.CapturesFromSome | othello-logic.py:106-123 | The for loop from the i-th direction accepts exactly when some direction at or after position i in the order captures. |
| Rules.ValidMoveSome | othello-logic.py:91-123 | check_if_valid accepts exactly an empty cell from which some unit direction captures. |
| Rules.CapturingAmong | othello-logic.py:176-194 | After n directions, the collected list holds exactly the capturing directions among the first n, in the engine's order and without repeats. |
| Rules.LegalDirections | othello-logic.py:167-194 | flip_pieces returns exactly the capturing directions, as a duplicate-free subsequence of the engine's order. |
| Rules.LegalDirectionsIffValid | othello-logic.py:167-194 | On an empty cell, flip_pieces is non-empty exactly when check_if_valid accepts the move. |
| Rules.PieceIsInterior | othello-logic.py:139 | Under the board invariant a piece of either colour stands inside the playing area. This is why the unguarded flipping loop never leaves the grid. |
| Rules.RunEnd | othello-logic.py:139-142 | The flipping walk along a line always stops, inside the grid, on a cell that is not the opponent's. |
| Rules.InRunOpponent | othello-logic.py:139-142 | Every cell of the run the flipping loop walks over holds an opponent's piece. |
| Rules.InRunRay | othello-logic.py:139-142 | The run flipped along direction d from p lies wholly in direction d from p. |
| Rules.ScanFromRun | othello-logic.py:113-122 | The scan from a cell succeeds exactly when the run of opponent pieces from there ends on one of the mover's pieces inside the playing area. |
| Rules.CaptureRule | othello-logic.py:110-122 | A direction captures exactly when the run next to p is non-empty and ends on one of the mover's pieces inside the playing area. A run of zero opponent pieces never counts. |
| Rules.AvailableFromMember | othello-logic.py:68-73 | The row-major walk from any cell keeps exactly the later cells where check_if_valid accepts. |
| Rules.AvailableWhole | othello-logic.py:68-73 | The walk over the whole grid keeps exactly the valid cells, in row-major order. |
| Rules.AvailablePositions | othello-logic.py:63-75 | return_available_positions lists exactly the cells where the move is valid, in strictly increasing row-major order. Every one of them is an empty cell of the playing area. |
| Flip.FlipRay | othello-logic.py:139-142 | The flipping loop along one line keeps the board invariant. |
| Flip.FlipRayCells | othello-logic.py:139-142 | Flipping one line turns exactly the cells of the opponent's run into the mover's pieces and leaves every other cell unchanged. |
| Flip.FlipRayCount | othello-logic.py:139-142 | Flipping one line moves exactly the run's length from the opponent's count to the mover's. |
| Flip.FlipDirs | othello-logic.py:135-142 | The loop over the capturing directions keeps the board invariant. |
| Flip.FlipDirsCells | othello-logic.py:135-142 | Flipping the lines in order turns exactly the cells of all the runs and nothing else. Each line is flipped as it stood on the original board, so the order of directions does not matter. |
| Flip.FlipDirsCount | othello-logic.py:135-142 | Flipping the lines moves the total of their run lengths from the opponent's count to the mover's. |
| Flip.FlipTotalAtLeast | othello-logic.py:135-142 | Each capturing direction flips at least one piece. |
| Flip.FlipTotalAfterSet | othello-logic.py:131-132 | Placing the piece does not change the runs that the lines from it hold. |
| Flip.DirectionValidAfterSet | othello-logic.py:131-132 | Placing the piece does not change whether a direction from it captures, because scans start one step away. |
| Flip.CapturingAmongAfterSet | othello-logic.py:131-132 | Placing the piece does not change the capturing directions among the first n. |
| Flip.LegalDirectionsAfterSet | othello-logic.py:131-132 | flip_pieces, called after the write, returns the directions of the board before the write. |
| Flip.AfterMove | othello-logic.py:125-144 | The board after make_move keeps the board invariant. |
| Flip.AfterMoveCells | othello-logic.py:125-144 | After the move, the placed cell and exactly the cells of the outflanked runs hold the mover's piece. Every other cell is unchanged, including the border and every empty cell. |
| Flip.AfterMoveOutflanked | othello-logic.py:135-142 | Every flipped cell held an opponent's piece, and its line ends on one of the mover's pieces inside the playing area. |
| Flip.AfterMoveCounts | othello-logic.py:125-144 | With k pieces flipped, the mover's count rises by 1 + k and the opponent's falls by k. |
| Flip.ValidMoveFlips | othello-logic.py:91-123 | On an empty cell a move is valid exactly when it flips at least one piece. |
| Scoring.NamesOf | othello-logic.py:54 | The winner list holds exactly the names of the players with that colour name. It is empty exactly when no player has the colour, and its head is the first such player. |
| Scoring.Decide | othello-logic.py:47-61 | Equal counts tie. Otherwise the colour with more pieces wins and is named by its first registered player; the verdict is MissingPlayer exactly when no player has that colour name. |
| Game.OpponentName | othello-logic.py:152 | play_game's opponent name parses to the opposite colour. |
| Game.Othello.constructor | othello-logic.py:16-31 | A new game has the opening board and no players. |
| Game.Othello.CreatePlayer | othello-logic.py:39-45 | create_player appends one player record, leaves the board alone and keeps the board invariant. |
| Game.Othello.ReturnWinner | othello-logic.py:47-61 | return_winner is the verdict for the current white and black counts and the registered players. |
| Game.Othello.CurrentPositions | othello-logic.py:77-89 | The function lists exactly the cells holding the named colour, in row-major order, and its length is that colour's count. |
| Game.Othello.CheckIfValid | othello-logic.py:91-123 | The loop version of check_if_valid, with its early exits, returns exactly ValidMove. |
| Game.Othello.ScanLine | othello-logic.py:113-122 | The inner while loop of check_if_valid and flip_pieces succeeds exactly when the scan of the line succeeds. |
| Game.Othello.ReturnAvailablePositions | othello-logic.py:63-75 | The nested loop over all 100 cells returns exactly AvailablePositions. |
| Game.Othello.FlipPieces | othello-logic.py:167-194 | The loop version of flip_pieces returns exactly LegalDirections. |
| Game.Othello.FlipLine | othello-logic.py:139-142 | The in-place flipping loop along one line leaves the board as FlipRay describes, keeps the invariant and leaves the players alone. |
| Game.Othello.MakeMove | othello-logic.py:125-144 | make_move mutates the board in place into AfterMove of the old board, returns that board, keeps the invariant and leaves the players alone. |
| Game.Othello.PlayGame | othello-logic.py:146-165 | See the note after the table. |
| Openings.OpeningPositionsOn | othello-logic.py:77-89 | On an opening board, current_positions gives each colour's two centre pieces. |
| Openings.OpeningPositions | othello-logic.py:18-29 | On the initial board each colour's pieces are its two centre cells, so each colour's count is 2. |
| Openings.OpeningScan | othello-logic.py:113-122 | On the opening, a scan from an opponent's piece succeeds exactly when the next cell holds the mover's piece. |
| Openings.OpeningMoveSound | othello-logic.py:91-123 | Every move check_if_valid accepts on the opening is one of the four opening moves. |
| Openings.OpeningCapture | othello-logic.py:91-123 | On the opening, an empty cell next to an opponent piece backed by the mover's piece is a valid move. |
| Openings.OpeningMovesWhite | othello-logic.py:91-123 | White may play (3,5), (4,6), (5,3) and (6,4) at the opening. |
| Openings.OpeningMovesBlack | othello-logic.py:91-123 | Black may play (3,4), (4,3), (5,6) and (6,5) at the opening. |
| Openings.OpeningMovesAvailable | othello-logic.py:63-75 | All four opening moves appear among the available positions. |
| Openings.OpeningAvailableOn | othello-logic.py:63-75 | On an opening board, return_available_positions is exactly the four opening moves, row by row. |
| Openings.OpeningAvailable | othello-logic.py:18-29 | From the constructor's board each colour has exactly four available positions, listed row by row. |
| Openings.FirstMoveDirections | othello-logic.py:167-194 | On an opening board, flip_pieces for black at (3,4) returns only the downward direction (1,0). |
| Openings.FirstMoveOn | othello-logic.py:125-144 | On an opening board, after black's move at (3,4): (3,4) and (4,4) hold 'X' and (5,5) still holds 'O'. Black has 4 pieces and white has 1. |
| Openings.FirstMove | othello-logic.py:125-144 | From the constructor's board, black's move at (3,4) flips (4,4) and leaves 4 black pieces against 1 white. |

What `Game.Othello.PlayGame` states:
- A position missing from the mover's available list is refused. The board is left unchanged and the refusal carries the list.
- Otherwise the board becomes AfterMove.
- The game is over exactly when neither colour then has an available position.
- At game over:
  - the outcome carries both counts and the verdict;
  - no cell is a valid move for either colour.
- Otherwise the outcome is Ongoing.

## Left out

- `print_board` (lines 33-37) and the print of the valid moves in `play_game` (line 156) are console output and are not modelled.
- The message strings (lines 55, 59, 61, 157, 164-165) are replaced by the `TurnOutcome` and `Verdict` datatypes.
- `return_winner` raises an IndexError when no player holds the winning colour name (lines 55, 59). It is modelled as the outcome `MissingPlayer(color)`.
- `play_game` falls off its end after a move that does not end the game, so it returns nothing. Its docstring says it returns the updated board. The model follows the code: the outcome is `Ongoing`, and the new board is in the object's state.
- Game.Othello.MakeMove: requires the position to be a valid move. The engine reaches `make_move` only from `play_game` after that check. A direct call on a border cell is not modelled. Such a call first overwrites the `'*'` sentinel at line 131. On row 0 or column 0, `flip_pieces` then wraps round through Python's negative indices. On row 9 or column 9 it raises an IndexError at line 180 (at (9,3) it reads `board[10]`, at (3,9) it reads `board[3][10]`).
- Game.Othello.MakeMove: returns the new board as a value. `make_move` returns `self._board` itself (line 144), so a caller that keeps the result sees every later move; the model's result is not an alias of the game's grid. `play_game` discards the result, so nothing in the engine depends on the aliasing.
- Game.Othello.CheckIfValid: takes a colour and a cell of the grid. The engine calls it only from `return_available_positions`, on the 100 grid cells and with `'O'` or `'X'`.
- Game.Othello.FlipPieces: requires a cell of the playing area. The engine calls it only from `make_move`, on an available position.
- `check_if_valid` copies the row list (`list(self._board)`, line 98) and only reads it. The model reads the board directly.
- The engine does not validate players (any number, any colour names). `CreatePlayer` appends the record as given.
- `Player`'s constructor is a plain record, the `Scoring.Player` datatype.
- Python integers are unbounded like Dafny's, and coordinates stay within 0..9, so no overflow is involved.
