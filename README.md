# Falling-block game engine, modelled in Dafny

This project models the game-state engine of a browser falling-block game
(`game.js`). It covers the settled 20 x 10 grid, the seven four-cell piece
kinds with their 4x4 shape matrices and colours, and the collision test. It
covers the moves of the falling piece: left, right, soft drop, hard drop, and
a clockwise rotation with five wall-kick offsets. It covers locking a piece
into the grid, clearing full rows bottom-up, and the score, level and
gravity-speed progression. It also covers the session transitions: start,
spawn, game over and pause.

The model has five modules:

- `Tetromino` (`tetromino.dfy`): piece kinds, the SHAPES and COLORS tables,
  and the quarter turn of a square matrix.
- `Board` (`board.dfy`): the grid, pieces, the collision test, the landing
  row and the merge of a piece into the grid.
- `Lines` (`lines.dfy`): full rows, and clearing as a transform on the
  sequence of rows.
- `Scoring` (`scoring.dfy`): the POINTS table, the level, and the gravity
  interval.
- `Session` (`session.dfy`): the `Game` class. Its fields are the game's
  module-level variables. Its methods update them in place, as the game's
  functions do.

Each state-changing method is proved against a transition function on a
`State` value (`Shifted`, `Descended`, `Dropped`, `Turned`, `Locked`,
`Started`, `Spawned`, `Ended`, `Toggled`). The properties of the game are
proved about those functions:

- the session invariant `ValidState` is preserved;
- a piece in play never overlaps the walls, floor or settled cells;
- the grid never holds a full row between operations;
- the level and the gravity interval always follow from the line count;
- a finished game has recorded its best score, provided the best score
  loaded at start-up is a non-negative integer (see `Session.Game.constructor`
  under "## Left out").

The loops of the game are methods with loop invariants:

- the collision scan;
- the matrix rotation;
- the ghost-row search;
- the hard-drop fall;
- the wall-kick search;
- the cell writes of a lock;
- the bottom-up row-clearing scan.

The random piece choice is a `Kind` parameter supplied by the caller. Gravity
is `MoveDown`, the same routine the game loop calls.

Two consequences of the code are worth stating plainly:

- The gravity interval is `max(100, 1000 - (level-1)*50)` with
  `level = floor(lines/10) + 1`. It is 500 ms at 100 cleared lines and first
  reaches the 100 ms floor at level 19, that is after 180 lines.
  `ScoringExamples` pins both values.
- A gravity step is the same `moveDown` as a soft drop, so every row the
  piece falls by gravity also scores the one soft-drop point.

## Model

| member | source | states |
|---|---|---|
| Tetromino.ShapeOf | game.js:19-62 | each kind's SHAPES entry is a 4x4 matrix of zeros and ones whose top row is empty |
| Tetromino.ColorOf | game.js:7-14 | each kind's COLORS entry is a `#` followed by six lower-case hexadecimal digits |
| Tetromino.ShapeWellFormed | game.js:19-62 | every SHAPES entry is a 4x4 matrix with at least one occupied cell |
| Tetromino.Rotated | game.js:420-431 | the quarter turn of an N x N matrix is again N x N |
| Tetromino.RotatedAt | game.js:425-429 | the turn sends the cell at row r, column c to row c, column N-1-r: `Rotated(m)[i][j] == m[N-1-j][i]` |
| Tetromino.RotateMatrix | game.js:420-431 | the nested loop writing `rotated[col][N-1-row] = m[row][col]` into a zero matrix produces exactly `Rotated(m)` |
| Tetromino.HalfTurn | game.js:420-431 | two quarter turns reflect the matrix through its centre |
| Tetromino.RotateFourTimes | game.js:420-431 | four quarter turns give back the original matrix |
| Tetromino.RotatedCells | game.js:425-429 | the occupied cells of the turned matrix are exactly the turned occupied cells |
| Tetromino.RotateKeepsCellCount | game.js:420-431 | a turn keeps the number of occupied cells |
| Tetromino.RotatedHasBlock | game.js:391 | the turned shape of a piece still has an occupied cell |
| Board.EmptyBoard | game.js:131-133 | the fresh grid is 20 rows of 10 cells, all empty |
| Board.CreatePiece | game.js:184-193 | a new piece has a 4x4 shape with an occupied cell, is centred (x + 2 == floor(COLS/2)) and sits in row 0 |
| Board.Collides | game.js:436-456 | the reference for the collision test: some occupied cell is past a wall, below the floor, or on the board over a settled cell; a placement that does not collide keeps every occupied cell between the walls and above the floor |
| Board.CheckCollision | game.js:436-456 | the scan answers true exactly when some occupied cell lands past a wall, below the floor, or on the board over a settled cell; cells above the board are only checked against the walls |
| Board.FloorStops | game.js:443-445 | a shape with an occupied cell collides once its frame is at or below the floor row |
| Board.DropRow | game.js:307-313 | the landing row is at or below the start row, and one row lower collides |
| Board.DropRowPassesFreely | game.js:307-313 | every row between the start row and the landing row is free |
| Board.Merge | game.js:461-473 | writing a piece into a grid gives a grid of the same size |
| Board.MergeOfFreePiece | game.js:461-473 | locking a non-colliding piece writes its colour at every occupied cell with boardY >= 0, all of them inside the grid, and changes only empty cells the piece covers |
| Board.SpawnFits | game.js:135-160 | a new piece of any kind fits on the empty grid, so a new game never ends at its first spawn |
| Lines.Kept | game.js:485-500 | the rows kept plus the full rows counted are all the rows |
| Lines.KeptHasNoFullRow | game.js:485-500 | no kept row is full |
| Lines.EmptyBoardHasNoFullRow | game.js:131-133 | an empty row is not full and the empty grid has no full row |
| Lines.Blank | game.js:493 | `k` inserted rows are all empty rows |
| Lines.KeptWidth | game.js:485-500 | removing rows keeps the width of the rows that remain |
| Lines.Compact | game.js:485-500 | after clearing, the grid has the same number of rows, keeps its shape, and has no full row |
| Lines.KeptAppend | game.js:485-500 | clearing keeps the remaining rows in their original order; the counts of full rows add up |
| Lines.KeptNoFull | game.js:485-500 | a grid with no full row is left as it is and scores nothing |
| Lines.CompactIdempotent | game.js:485-500 | clearing an already cleared grid changes nothing |
| Lines.Clearing | game.js:488-497 | a grid part-way through the scan has as many rows as the empty rows added so far, the unexamined rows and the examined rows kept |
| Lines.ClearingStarts | game.js:486-488 | before the scan nothing has changed |
| Lines.ClearingEnds | game.js:497-499 | when the scan is done the grid is the cleared grid |
| Lines.ClearingRow | game.js:489 | the row the scan examines is the lowest unexamined row of the original grid |
| Lines.ClearingTop | game.js:493 | rows above the unexamined ones are empty, so they are never full |
| Lines.ClearingDropsFull | game.js:489-495 | splicing out a full row and putting an empty row on top advances the scan and counts one row; the same index is examined next |
| Lines.ClearingKeepsRow | game.js:488-489 | a row that is not full stays where it is, and the scan moves one row up |
| Lines.CountFullAtMost | game.js:485-500 | no more rows can be full than there are rows |
| Lines.FullRowsWithin | game.js:485-500 | if all full rows lie in a band of rows, at most that many rows are full |
| Lines.MergeKeepsOtherRows | game.js:461-473 | locking a piece leaves every row outside its 4-row frame unchanged |
| Lines.MergeCompletesAtMostShapeRows | game.js:461-478 | on a grid with no full row, locking a piece completes at most as many rows as its frame spans |
| Scoring.LinePoints | game.js:67-74 | the POINTS switch scores a clear of 1 to 4 rows and nothing else, never more than 800, and a clear of 2 to 4 rows at once is worth more than that many single clears |
| Scoring.Award | game.js:506-522 | counts outside 1..4 score nothing; a clear of 1 to 4 rows at level 1 or above scores at least 100 |
| Scoring.LevelFor | game.js:525 | the level is at least 1 and goes up by one every ten lines (`lines < 10*level <= lines + 10`) |
| Scoring.IntervalFor | game.js:528 | the gravity interval stays within [100, 1000] ms from level 1 on |
| Scoring.LevelMonotone | game.js:525-527 | more lines never give a lower level |
| Scoring.IntervalMonotone | game.js:528 | a higher level never gives a slower gravity |
| Scoring.IntervalFloor | game.js:528 | from level 19 on the interval is the 100 ms floor |
| Scoring.ScoringExamples | game.js:502-532 | worked cases: a four-row clear at level 1 scores 800, one row at level 3 scores 300, ten lines reach level 2 and 950 ms, 100 lines give 500 ms, 170 lines give 150 ms and 180 lines give 100 ms |
| Session.FirstFitFrom | game.js:409-417 | the trial found lies between the start trial and the number of trials |
| Session.FirstFitFits | game.js:393-417 | the trial found, if any, does not collide |
| Session.FirstFitIsFirst | game.js:393-417 | every trial before the one found collides |
| Session.FirstFitSkips | game.js:393-417 | trials that all collide are passed over, so the search may resume after them |
| Session.ValidState | game.js:80-91 | the session invariant; a valid session is at level 1 or above with a gravity interval in [100, 1000] ms |
| Session.Ended | game.js:547-559 | game over sets the over flag and clears the started flag, and the best score becomes the larger of the old best and the final score |
| Session.Toggled | game.js:568-571 | pausing changes only the paused flag, and flips it exactly when a game is started and not over |
| Session.Spawned | game.js:195-205 | a spawn promotes the next piece, creates a new next piece, leaves grid, score, lines, level and interval alone, never lowers the best score, and ends the game exactly when it was over or the promoted piece collides |
| Session.Scored | game.js:502-532 | scoring adds the rows to the lines and the table value times the old level to the score, never lowers the level, and leaves the grid and the pieces alone |
| Session.Cleared | game.js:461-479 | merging and clearing leave a full-size grid without full rows, add the completed rows to the lines, never lower the score, and keep pieces and best score |
| Session.Locked | game.js:461-483 | locking leaves a full-size grid without full rows, never lowers lines, score or best score, and puts the next piece in play behind a new one |
| Session.Started | game.js:135-160 | a new game has an empty grid, score 0, 0 lines, level 1, is not paused, keeps the best score and has the two chosen pieces in play and next |
| Session.Shifted | game.js:347-361 | a sideways move changes only the falling piece, and only by moving it `dx` columns to a place where it does not collide, in a running game; when the piece is in play and that place is free, the move is taken |
| Session.Descended | game.js:363-372 | a soft drop or gravity step never lowers score, lines or best score, and changes nothing when there is no piece, the game is paused or it is over |
| Session.HardDropped | game.js:374-384 | the drop changes only the piece's row and the score; the piece only moves down and the score never drops |
| Session.Dropped | game.js:374-386 | a hard drop with its lock never lowers score, lines or best score, and changes nothing when there is no piece, the game is paused or it is over |
| Session.Turned | game.js:388-418 | a rotation changes only the falling piece, and only to the turned shape, well-shaped, at a place where it does not collide |
| Session.ToggleTwice | game.js:568-571 | pausing keeps the invariant, and pausing twice restores the state |
| Session.TurnedPiece | game.js:388-418 | a rotation that finds a placement gives a 4x4 shape with an occupied cell that does not collide |
| Session.LockKeepsValid | game.js:461-483 | locking the piece of a running game keeps the session invariant |
| Session.ClearedSettles | game.js:461-479 | after merging and clearing, the grid is full-size with no full row, and level and interval follow the lines |
| Session.ScoredKeepsLevel | game.js:502-532 | scoring adds the rows to the line count, adds the table value times the level before the level-up, never lowers the level, and keeps level and interval in step with the lines within [100, 1000] ms |
| Session.SpawnEndsOnCollision | game.js:195-202 | a spawn ends the game exactly when the promoted piece collides where it appears |
| Session.SpawnKeepsValid | game.js:195-205 | promoting the next piece restores the invariant: the new piece fits or the game is over |
| Session.LockClearsAtMostFour | game.js:461-500 | one lock adds between 0 and 4 to the line count |
| Session.StartedPlays | game.js:135-160 | a new game is running and unpaused with the chosen pieces, an empty grid, score 0 and the best score kept |
| Session.ShiftKeepsValid | game.js:347-361 | a sideways move keeps the invariant |
| Session.ShiftBack | game.js:347-361 | a left move that was taken is undone by a right move |
| Session.DescendKeepsValid | game.js:363-372 | a soft drop keeps the invariant |
| Session.DescendSteps | game.js:365-368 | when the row below is free, a soft drop moves the piece down one row, adds exactly one point, and leaves everything else, the grid included, unchanged |
| Session.SoftDropLocks | game.js:369-371 | when the row below is blocked, the grid becomes the cleared grid with the piece written in, the lines grow by the rows completed (at most 4), those rows are scored at the current level, the next piece is in play behind a new one, and the session stays valid |
| Session.HardDropLocks | game.js:374-386 | a hard drop always locks, even at distance 0: the grid becomes the cleared grid with the piece written in on its landing row k, the lines grow by the rows completed, the score gains 2 points per row fallen plus the award for the cleared rows at the current level, and the next piece is in play behind a new one |
| Session.HardDropLands | game.js:374-384 | the hard drop lands on the row k at or below the start from which the piece cannot move down, passes only free rows on the way, and scores exactly 2 points per row; grid, next piece and lines are unchanged |
| Session.HardDroppedValid | game.js:374-384 | the dropped piece rests on its landing row without colliding |
| Session.DropKeepsValid | game.js:374-386 | a hard drop, including its lock, keeps the invariant |
| Session.MoveKeepsValid | game.js:347-418 | placing the well-shaped piece anywhere it fits keeps the invariant |
| Session.TurnKeepsValid | game.js:388-418 | a rotation keeps the invariant |
| Session.TurnAt | game.js:393-417 | when trial k (in place, then the five kicks in order) is the first that fits, the rotation commits the turned shape there |
| Session.TurnBlocked | game.js:388-418 | when every trial collides, the rotation changes nothing |
| Session.Game.constructor | game.js:80-92 | the state before the first game: empty grid, no pieces, score 0, level 1, 1000 ms, the saved best score, no flags set |
| Session.Game.StartGame | game.js:135-160 | a running game is left alone; otherwise the state becomes `Started` and stays valid |
| Session.Game.SpawnPiece | game.js:195-205 | the fields become `Spawned`: next promoted, a new next piece, game over on collision |
| Session.Game.EndGame | game.js:547-559 | the fields become `Ended` |
| Session.Game.TogglePause | game.js:568-571 | the fields become `Toggled` and stay valid |
| Session.Game.MoveLeft | game.js:347-353 | the fields become `Shifted(-1)` and stay valid |
| Session.Game.MoveRight | game.js:355-361 | the fields become `Shifted(+1)` and stay valid |
| Session.Game.MoveDown | game.js:363-372 | the fields become `Descended` and stay valid |
| Session.Game.HardDrop | game.js:374-386 | the fields become `Dropped`, a hard drop followed by a lock even at distance 0, and stay valid |
| Session.Game.DropToLanding | game.js:377-383 | the piece moves to its landing row and the score gains two points per row |
| Session.Game.Fall | game.js:377-381 | the loop's row count is the distance to the ghost row, and the piece ends on that row |
| Session.Game.Rotate | game.js:388-418 | the fields become `Turned` and stay valid |
| Session.Game.TurnPiece | game.js:391-417 | the rotation's placement is computed as `TurnedPiece` specifies |
| Session.Game.FirstFit | game.js:393-417 | the in-place try and then the kick loop find the first trial that fits |
| Session.Game.GhostPosition | game.js:307-313 | the ghost row is the landing row `DropRow` |
| Session.Game.LockPiece | game.js:461-483 | the fields become `Locked`: merged, cleared, scored, next piece spawned; the invariant holds |
| Session.Game.MergeCurrent | game.js:462-473 | the cell writes leave the grid equal to `Merge` of the old grid and the piece |
| Session.Game.MergeRow | game.js:464-472 | one shape row's cells with boardY >= 0 are written and nothing else changes |
| Session.Game.ClearLines | game.js:485-500 | the scan leaves the grid equal to `Compact` of the old grid and returns the number of full rows |
| Session.Game.ScanRow | game.js:489-496 | one step of the scan: a full row is spliced out with an empty row on top and examined again, any other row is kept and the scan moves up; either way the grid is the next `Clearing` state |
| Session.Game.SpliceRow | game.js:491-494 | removing the full row and adding an empty row on top gives the scan state with one more row cleared |
| Session.Game.UpdateScore | game.js:502-532 | the fields become `Scored` |

## Left out

- Drawing (`draw`, `drawGrid`, `drawBoard`, `drawPiece`, `drawBlock`, `drawGhost`, `drawNext`), `updateDisplay`, the screens and the DOM set-up in `init`: these are rendering and UI side effects.
- `gameLoop`: its timing uses floating-point `performance.now()` deltas and `requestAnimationFrame`. A gravity step is `MoveDown`, which is what the loop calls. `dropCounter`, `lastTime` and `animationId` are not modelled.
- `saveHighScore` and `loadHighScore`: these are browser storage. The saved best score is the constructor's argument, and `EndGame` raises the best score but does not write it anywhere.
- Session.Game.constructor: the model assumes the stored best score parses to a non-negative integer, as every value the game writes itself does. `loadHighScore` keeps whatever `parseInt` returns for a stored string. A malformed value gives NaN, which the `score > highScore` test in `endGame` never replaces, and a negative number is kept as it is. Neither case is modelled, because the best score is a `nat`.
- The keyboard and touch handlers: they only dispatch to the modelled operations.
- `Math.random` in `createPiece`: the caller supplies the kind (`Kind` parameters of `CreatePiece`, `SpawnPiece`, `StartGame`, `MoveDown`, `HardDrop` and `LockPiece`).
- Session.Game.Fall: the game moves `currentPiece.y` one row per step. The model counts the rows on a local variable and writes the final row back once, which no caller can tell apart.
- Session.Game.GhostPosition: it requires a falling piece. The game calls it only from `drawGhost`, which has one.
- Pieces are values (`Piece` datatypes), not shared objects. The game never aliases a piece: the next piece is moved into the current slot and a fresh one is created.
