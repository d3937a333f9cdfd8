# DrakenAI: a verified model of the Connect-K move chooser

DrakenAI is a computer player for Connect-K. Connect-K is played on a
`width` x `height` grid, optionally with gravity. The first player to line
up `kLength` pieces horizontally, vertically or diagonally wins. To choose
a move, DrakenAI runs iterative-deepening alpha-beta search until a
deadline. Every searched position goes into a table, the `boardMap`. A
node whose first child is already in the table visits its children in the
order a priority queue hands them out. Leaves are scored by a line-counting
evaluator with cubic weights.

The project models the player object (`DrakenAI.java`) and its `Move`
values (`Move.java`). The modules are:

- `Scores`: the three kinds of score a search sees: the two infinities and
  finite totals.
- `Boards`: the board as the player reads it.
- `Moves`: `Move`.
- `MoveGen`: generateMoves.
- `Evaluator`: eval, evalLine, applyWeight and quiescence as functions.
- `Search`: minMove and maxMove as functions of the search state. The state
  is the table, the number of clock readings taken, the testQui flag, and
  whether the queue field was ever assigned.
- `AlphaBeta`: a depth-limited minimax reference definition, and the
  theorem that relates the search to it.
- `Driver`: getMove's deepening loop and its properties.
- `DrakenPlayer`: the class `DrakenAI`. Its fields are updated in place by
  methods with loops. Each method is proved to leave exactly the state and
  result that the functions above describe.

Exceptions the Java code can raise are modelled as results (`Crash`):

- `moves.get(0)` on an empty move list;
- unboxing a missing `boardMap` entry;
- `moveQueue.clear()` before the queue was ever assigned.

## Model

| member | source | states |
|---|---|---|
| Moves.FromPoint | src/Move.java:12-16 | The move has the given coordinates and score. |
| Moves.Move.GetScore | src/Move.java:22-25 | Returns the stored score. |
| Moves.Move.SetScore | src/Move.java:26-29 | The score becomes `s`; the coordinates stay the same. |
| Moves.Move.CompareTo | src/Move.java:30-38 | -1 exactly when this score is lower, 1 exactly when it is higher, 0 exactly when the scores are equal. |
| Moves.CompareAntisymmetric | src/Move.java:31-38 | Swapping the operands negates the comparison. |
| Moves.CompareTransitive | src/Move.java:31-38 | The comparison is transitive. |
| Moves.CompareTotal | src/Move.java:31-38 | Any two moves are comparable. |
| Moves.CompareIgnoresCoordinates | src/Move.java:31-38 | Coordinates play no part: equal scores compare as 0 both ways. |
| Boards.PlacePiece | src/DrakenAI.java:180-181 | Placing a piece on a cloned board keeps it well formed, keeps the dimensions, win length and gravity, and records the move as the last move. |
| Boards.PlacePieceCells | src/DrakenAI.java:180-181 | The new piece is on its cell and every other cell is unchanged. |
| MoveGen.GenerateMoves | src/DrakenAI.java:479-509 | The nested loops build exactly the list `Generated` describes. |
| MoveGen.NoMovesWhenGameOver | src/DrakenAI.java:484-486 | A decided game has no moves. |
| MoveGen.GravityMoves | src/DrakenAI.java:488-497 | With gravity: one move per column that has room and none for a full column, each on its lowest empty row, in ascending column order. |
| MoveGen.FreeMoves | src/DrakenAI.java:498-507 | Without gravity: a cell is listed exactly when it is empty, in row-major order. |
| MoveGen.GeneratedOnBoard | src/DrakenAI.java:479-509 | Every generated move is an empty on-board cell. |
| Evaluator.Wrap32 | src/DrakenAI.java:451 | Java int arithmetic: the result lies in [-2^31, 2^31), agrees with the exact value modulo 2^32, and equals it when it fits. |
| Evaluator.ApplyWeight | src/DrakenAI.java:446-452 | A complete line weighs Double.MAX_VALUE; any other weight is n^3 taken as a Java int, so it is in int range and congruent to n^3 modulo 2^32. |
| Evaluator.Quiescence | src/DrakenAI.java:461-470 | The test is true exactly when testQui is already set or the line is the enemy's and one piece short of a win, so a set flag stays set. |
| Evaluator.WeightValues | src/DrakenAI.java:446-452 | A complete line weighs Double.MAX_VALUE; a shorter line of n pieces weighs n^3 while n^3 fits in an int. |
| Evaluator.WeightIncreasing | src/DrakenAI.java:446-452 | A one-sided line with more pieces weighs strictly more, up to a complete line. |
| Evaluator.EvalLineBlocked | src/DrakenAI.java:430-438 | A window that holds pieces of both sides, or none of p's, changes neither the total nor the flag. |
| Evaluator.WindowOnBoard | src/DrakenAI.java:337-415 | Every cell that the four scans index lies on the board; the `\` scan starts in every column from kLim to width - 1, as at line 397. |
| Evaluator.FallingScanLastColumn | src/DrakenAI.java:397-403 | Whenever a line of kLength fits across and up the board, the `\` scan visits the window that starts in the rightmost column of row 0, and that window's far end, kLim columns left and kLim rows up, is on the board. |
| Evaluator.CountWindow | src/DrakenAI.java:341-346 | The inner k loop returns the number of p1 and p2 pieces in the window. |
| Evaluator.CountBound | src/DrakenAI.java:341-346 | The two counts of a window add up to at most its length. |
| Evaluator.EvalScore | src/DrakenAI.java:316-418 | eval is +infinity exactly when the AI has won, and otherwise -infinity exactly when the enemy has won. |
| Evaluator.EvalQui | src/DrakenAI.java:319-333 | A decided position returns before testQui is reset, so the flag keeps its value. |
| Evaluator.EvalTerminal | src/DrakenAI.java:319-324 | A won position scores +infinity and a lost position -infinity; any other position scores a finite value. |
| Evaluator.ScanFromSwap | src/DrakenAI.java:348-349 | Scanning for the other side swaps the two running totals. |
| Evaluator.EvalAntisymmetric | src/DrakenAI.java:327-418 | eval is zero-sum: scoring an undecided position for the other side negates the score. |
| Evaluator.ScanFromQui | src/DrakenAI.java:461-470 | The testQui flag is sticky. After a scan it is set exactly when it was set before or some remaining window is an enemy line one piece short of a win. |
| Evaluator.EvalQuiExact | src/DrakenAI.java:333-436 | After eval of an undecided position, testQui holds exactly when some window in one of the four directions is an enemy line one piece short of a win. |
| Search.CachedMoves | src/DrakenAI.java:179-183 | The queue can be filled exactly when every child is in the table. Each queued move keeps its coordinates and carries its child's table value. |
| Search.ChildOrder | src/DrakenAI.java:173-183 | An order that does not crash lists on-board moves, as many as were generated, and at least one. |
| Search.ReorderOnBoard | src/DrakenAI.java:185-188 | The queue hands out as many moves as it was given, all on the board. |
| Search.Node | src/DrakenAI.java:152-161 | Each call takes at least one clock reading (the one on entry) and does not touch the queue field. |
| Search.NodeStores | src/DrakenAI.java:152-222 | A completed minMove or maxMove call leaves its returned value in the table under its own position: the leaf's eval, the pruning value, or the final bestScore. |
| Search.Leaf | src/DrakenAI.java:157-161 | A leaf returns eval of the position for the AI and stores that value in the table under the position, with no further clock reading. |
| Search.Inner | src/DrakenAI.java:163-183 | An inner node reads the clock no fewer times and does not touch the queue field. |
| Search.Loop | src/DrakenAI.java:185-215 | The child loop reads the clock no fewer times and does not touch the queue field. |
| Search.LoopStores | src/DrakenAI.java:185-215 | A child loop that completes, to the end or by pruning, leaves its result in the table under the node's position. |
| Search.LoopEnd | src/DrakenAI.java:215 | Proof step (unfolds `Loop`): after the last child, bestScore is stored under the position and returned. |
| Search.MinTurn | src/DrakenAI.java:185-197 | Proof step (unfolds `Loop`): one turn of minMove's loop: a crash propagates; a value that is not lower moves on; a lower one prunes when alpha >= beta and otherwise continues with the new beta. |
| Search.MaxTurn | src/DrakenAI.java:266-279 | Proof step (unfolds `Loop`): one turn of maxMove's loop: the mirror image, with higher values raising alpha. |
| AlphaBeta.ChildOrderPositions | src/DrakenAI.java:173-183 | Whichever order is chosen, a node visits exactly the generated coordinates. |
| AlphaBeta.NodeBound | src/DrakenAI.java:152-222 | When none of the clock readings the node takes is past the deadline, a completed node searched inside (alpha, beta) returns the minimax value when that value is inside the window, otherwise a bound on the correct side of the window. |
| AlphaBeta.MinLoopBound | src/DrakenAI.java:185-214 | The same bound for minMove's child loop, from any loop state. |
| AlphaBeta.MaxLoopBound | src/DrakenAI.java:266-296 | The same bound for maxMove's child loop, from any loop state. |
| AlphaBeta.PrunedEqualsMinimax | src/DrakenAI.java:152-222 | With the full window, and none of the clock readings the search takes past the deadline, a completed search returns the depth-limited minimax value. |
| AlphaBeta.OrderIrrelevant | src/DrakenAI.java:174-198 | Two priority-queue orders give the same value whenever both searches complete without reading a clock value past the deadline. |
| Driver.NoDeadlineStrict | src/DrakenAI.java:157 | With strictly increasing readings, none of a search's readings is past the deadline exactly when its last one is not, so the lemmas that assume no reading past the deadline apply to any iteration whose last reading is before it. |
| Driver.PickBest | src/DrakenAI.java:117-118 | bestMove ends as the initial move or one of the scored moves, scoring at least as high as the initial move and as every scored move. |
| Driver.PickBestTakesRoot | src/DrakenAI.java:130-131 | Once a root move scores at least the initial score, the kept move is a root move. |
| Driver.PickBestLatest | src/DrakenAI.java:130-131 | The kept root move scores strictly higher than every later one, so on a tie the later move wins. |
| Driver.ScoreFrom | src/DrakenAI.java:113-119 | The root loop rescores the visited moves in order, keeping their coordinates. |
| Driver.Iteration | src/DrakenAI.java:101-133 | An iteration assigns the queue field and never takes back a clock reading. |
| Driver.Deepen | src/DrakenAI.java:99-134 | The loop takes at least one clock reading. The queue field is assigned only if it was assigned before or the first test passed. |
| Driver.DeepenStop | src/DrakenAI.java:99 | Proof step (unfolds `Deepen`): a loop test at or after the deadline ends the loop with the current bestMove. |
| Driver.DeepenStep | src/DrakenAI.java:99-134 | Proof step (unfolds `Deepen`): a passing test runs one iteration and continues one limit deeper with the updated bestMove. The clock has strictly advanced. |
| Driver.RootSearch | src/DrakenAI.java:89-99 | The search with a fresh table takes at least one clock reading. |
| Driver.Finish | src/DrakenAI.java:136-140 | getMove answers a point exactly when the loop ended normally with the queue assigned, and the point is the best move's. |
| Driver.GetMoveSpec | src/DrakenAI.java:76-141 | getMove takes at least one clock reading. |
| Driver.GetMoveSearch | src/DrakenAI.java:89-140 | Proof step (unfolds `GetMoveSpec`): with a last move, getMove's answer is the end of the deepening loop over the generated moves, from a fresh table and a deadline of the first reading plus timelimit minus 100. |
| Driver.Centre | src/DrakenAI.java:82-87 | The opening point lies on any non-empty board, on the bottom row when gravity is on. |
| Driver.FirstMoveCentre | src/DrakenAI.java:82-87 | On an empty game the middle column is answered after one clock reading: the bottom row with gravity, the middle row without. |
| Driver.IterationPositions | src/DrakenAI.java:109-133 | The moves an iteration scores are the generated coordinates, on the board and not empty. |
| Driver.ScoreFromStep | src/DrakenAI.java:113-119 | Proof step (unfolds `ScoreFrom`): a completed root loop is the loop over the remaining moves after the first one is searched and rescored. |
| Driver.ScoreFromHead | src/DrakenAI.java:113-119 | When none of the readings the root loop takes is past the deadline, its first move carries the minimax value of its child. |
| Driver.ScoreFromTail | src/DrakenAI.java:113-119 | Proof step (splits the clock readings): if the root loop takes no reading past the deadline, neither does its rest after the first move. |
| Driver.ScoreFromShift | src/DrakenAI.java:113-119 | Proof step (unfolds `ScoreFrom`): a later move of a completed root loop sits at the same place in the loop over the remaining moves. |
| Driver.ScoreFromAt | src/DrakenAI.java:113-119 | When none of the readings the root loop takes is past the deadline, the move at any given position is scored with the minimax value of its child. |
| Driver.ScoreFromExact | src/DrakenAI.java:113-119 | When none of the readings the root loop takes is past the deadline, each root move is scored with the minimax value of its child. |
| Driver.IterationExact | src/DrakenAI.java:109-133 | When none of the readings the iteration takes is past the deadline, every root move of an iteration carries the minimax value of the position after the AI plays it. |
| Driver.PickBestRoot | src/DrakenAI.java:117-118 | Over moves scored with minimax values, PickBest yields the larger of the old best score and the root's value. |
| Driver.IterationValue | src/DrakenAI.java:99-133 | When none of the readings the iteration takes is past the deadline, one iteration at limit L raises the best score to the maximum of the old best score and the minimax value of the position at L. |
| Driver.DeepenPicksGenerated | src/DrakenAI.java:96-134 | The kept move is the initial move or a generated one, and a generated one once an iteration has started. |
| Driver.RootSearchPicksGenerated | src/DrakenAI.java:90-134 | When the first loop test passes, the root search settles on an empty on-board generated cell. |
| Driver.SetDeadline | src/DrakenAI.java:79 | Proof step (a framing fact): replacing the deadline keeps the clock and queue-order assumptions. |
| Driver.GetMoveLegal | src/DrakenAI.java:76-141 | When the first loop test passes and nothing raises, getMove answers an empty on-board cell from the generated list. |
| Driver.GetMoveNoQueue | src/DrakenAI.java:99-137 | If the deadline has passed at the first test and no earlier call ran an iteration, moveQueue.clear() raises. |
| DrakenPlayer.DrakenAI.constructor | src/DrakenAI.java:38-50 | The enemy is the other player, the table is empty and the queue is unassigned. |
| DrakenPlayer.DrakenAI.ReadClock | src/DrakenAI.java:157 | Returns the next clock reading and counts it. |
| DrakenPlayer.DrakenAI.EvalLine | src/DrakenAI.java:430-438 | The running total and the testQui field after the call are those of `Evaluator.EvalLine`. |
| DrakenPlayer.DrakenAI.ScanLines | src/DrakenAI.java:337-415 | Any of eval's four double loops (horizontal, vertical, `/` and `\`, the last over columns kLim to width - 1) leaves the totals and the flag that the scan function `ScanDir` describes. |
| DrakenPlayer.DrakenAI.Eval | src/DrakenAI.java:316-419 | Returns `EvalScore` and leaves testQui as `EvalQui` describes. |
| DrakenPlayer.DrakenAI.BuildQueue | src/DrakenAI.java:179-183 | The queue-filling loop yields `CachedMoves`: None exactly when some child is missing from the table. |
| DrakenPlayer.DrakenAI.OrderChildren | src/DrakenAI.java:173-183 | The chosen child order, or a crash, is `ChildOrder` of the current table. |
| DrakenPlayer.DrakenAI.MinMove | src/DrakenAI.java:152-222 | The result and the new fields are those of `Search.Node` for the minimizing side. |
| DrakenPlayer.DrakenAI.MaxMove | src/DrakenAI.java:233-307 | The result and the new fields are those of `Search.Node` for the maximizing side. |
| DrakenPlayer.DrakenAI.StoreEval | src/DrakenAI.java:157-161 | A leaf's evaluation is returned and stored as `Search.Leaf` describes. |
| DrakenPlayer.DrakenAI.Expand | src/DrakenAI.java:163-183 | Generates the moves, orders them and runs the side's loop, as `Search.Inner` describes. |
| DrakenPlayer.DrakenAI.MinLoop | src/DrakenAI.java:185-221 | minMove's child loop leaves the result and the fields of `Search.Loop`. |
| DrakenPlayer.DrakenAI.MaxLoop | src/DrakenAI.java:266-306 | maxMove's child loop leaves the result and the fields of `Search.Loop`. |
| DrakenPlayer.DrakenAI.SearchRoots | src/DrakenAI.java:101-133 | One deepening iteration leaves the state of `Driver.Iteration`, crashes exactly when it does, and returns PickBest of the scored root moves. |
| DrakenPlayer.DrakenAI.Deepening | src/DrakenAI.java:96-134 | The deepening loop ends with the move and the state of `Driver.Deepen`. |
| DrakenPlayer.DrakenAI.GetMove | src/DrakenAI.java:76-141 | The answer and the new fields are those of `Driver.GetMoveSpec`, and the deadline is the first reading plus timelimit minus 100. |
| DrakenPlayer.DrakenAI.GetMoveDefault | src/DrakenAI.java:61-64 | getMove with a time limit of 5000 ms. |

## Left out

- Floating point. Scores are exact integers plus the two infinities. Double.MAX_VALUE is written out as its exact integer value. Rounding of large double sums, and a total overflowing to infinity, are not modelled.
- `connectK.BoardModel` and `connectK.CKPlayer` are not part of this model. BoardModel appears as the board value the player reads. `winner()` is an uninterpreted function. A clone with a piece placed is modelled as a new board value (see the next line for what this assumes). The table is keyed by the board's cells, on the assumption that BoardModel's equality and hash compare the cells.
- `BoardModel.placePiece` is assumed to change the board it is called on and to return that same board. Six call sites discard its result and search the clone they called it on: `newState.placePiece(move, ...)` at src/DrakenAI.java lines 181, 188, 204, 262, 270 and 286. The model treats all twelve call sites alike, as the clone with the piece placed. If placePiece returned a changed copy instead, those nodes would look up and search the unchanged parent position.
- `MoveComparator` is not part of this model. The order in which a PriorityQueue hands out moves is an oracle. It is required only to hand out exactly the moves it was given, in some order.
- `System.currentTimeMillis()` is a sequence of readings given to the player. Termination of the deepening loop assumes that readings strictly increase (`Driver.StrictClock`). The deadline is an unbounded integer, so `long` overflow is not modelled.
- The fields `width`, `height` and `kLength` are copied from the board at construction. The model reads them from each board, which assumes every board has the dimensions of the initial one.
- The shared field `depth` becomes an explicit parameter. Both searches reset it to the node's depth before searching each child, so a child is always entered one deeper.
- `boardMap` is null until the first getMove; the model starts from an empty table. minMove and maxMove are reached only after getMove has created the table, so the difference is not observable.
- `teamName`, `moves.clear()` and `moveQ.clear()` have no effect on the result and are left out. The one exception is the `moveQueue.clear()` null dereference, which is modelled.
- The two loops of each node (natural order, and priority-queue order) run the same body. The model runs that body once, over the chosen order.
- Moves are values. Each node fills its queue with newly allocated `Move` objects (lines 182 and 263), and the rescored list is modelled as a value. In getMove, `setScore` rescores moves in place: the elements of the move list itself when the moves are searched in natural order (lines 116-118), and the fresh queue moves built at line 123 otherwise (lines 129-131). The model builds a rescored list instead. This is faithful because no move is observed through a second reference after its score changes.

## Notes on the code

- bestMove is not reset between deepening iterations. The model follows the code: the move kept is the best over all completed iterations, with ties going to the later move.
