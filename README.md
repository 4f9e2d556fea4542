# Tic-tac-toe minimax engines, modelled in Dafny

This project models the game-tree search of two tic-tac-toe players:

- **The 4x4 engine** (`TTT/minimax.cpp`). It is a depth-limited minimax that carries an alpha/beta window. Its leaves are scored by an open-line count over 4 rows, 4 columns and two diagonal loops.
- **The 4x4x4 engine** (`TTT3D/minimax.cpp`). It is an alpha-beta search with a horizon extension: nodes with at most seven moves are searched past the depth limit. At the root it orders the moves with `prelim_sort`, which scores each move with an unpruned `minimax` and sorts by `GameStateEvaluation::operator<`. Its leaves are scored by a weighted cell count (weights 4/2/1 by the number of diagonals through a cell; ±500 for a win, 200 for a draw).

Positions form an abstract finite game tree: `Game.Node` holds the side to move, the board, the end-of-game flags and the successors in generation order. The wall clock is an oracle. `Clock = nat -> real` gives the seconds remaining at the k-th poll of `pDue - Deadline::now()`, and every search threads the number of polls made so far. So each `||`/`&&` short-circuit decides, exactly as in C++, whether a poll happens.

Every search has two parts:
- a pure function (`Search`, `MaxLoop`, `MinLoop`, `Prelim`, …) stating what it returns, poll by poll;
- a method with the source's loops (`MinimaxAB`, `MinimaxAlphaBeta`, `PrelimMinimax`, …) whose postcondition is that function.

The lemmas then relate these functions to `Reference.Minimax`, a plain depth-limited minimax with no pruning and no clock. They cover three cases: an ample deadline (no poll ever reports short time), any clock (anytime bounds), and the 3D pruning (soundness inside the window).

Behaviour that is modelled as the code is written:
- **4x4 pruning uses `&&`.** The test is `beta <= alpha && time short` (`TTT/minimax.cpp:41,60`), so a loop stops only when time is short. `TTTSearch.SearchIsMinimax` proves that, with an ample deadline, the search is plain minimax whatever the window.
- **The second 4x4 diagonal visits cells 3, 6, 9, 12 and 15** (`TTT/minimax.cpp:152`). `TTTEval.DiagonalLines` states this.
- **A 4x4 win is worth ±5** (`TTT/minimax.cpp:70`), but non-terminal scores range over [-10, 10] (`TTTEval.ScoreBounds`). A won position can therefore score below an open one: `TTTEval.OpenOutscoresWin` exhibits a position without a win that scores 9 for X. The 4x4x4 evaluator keeps wins (±500) and draws (200) outside its heuristic range [-128, 128] (`TTT3DEval.ScoreBounds`).
- **Both entries ignore their `our_player_type` argument.** They use the side not to move as the perspective, so the root is always a maximizing node.
- **The 3D root with a short clock** returns the first ordered move with value 0 (`TTT3D/minimax.cpp:38-39`), as it does at the horizon (`TTT3DSearch.RootCut`). That returns `l_next_states[0]`, so the caller must supply at least one move; `TTT3D/player.cpp:17` does. `GetBestNextState` requires it.
- **`TTT3D/minimax.h:22,26` declare different signatures** from the definitions in `TTT3D/minimax.cpp`. The definitions are modelled: `get_best_next_state` with a `max_depth` argument and `prelim_sort` with a `prelim_sort_depth` argument.

## Model

| member | source | states |
|---|---|---|
| TTTEval.Cells | TTT/minimax.cpp:97 | every cell a `for (cell = first; cell < bound; cell += step)` loop visits lies in [first, bound) |
| TTTEval.DiagonalLines | TTT/minimax.cpp:135-152 | the two diagonal loops visit exactly {0, 5, 10, 15} and {3, 6, 9, 12, 15} |
| TTTEval.OpenLinesShare | TTT/minimax.cpp:105-108 | no line is counted for both X and O, so the two counts together never exceed the lines scanned |
| TTTEval.ScoreBounds | TTT/minimax.cpp:68-171 | every 4x4 score lies in [-10, 10], and a win scores exactly ±5 |
| TTTEval.XWinFirst | TTT/minimax.cpp:71-77 | an X win is checked first: +5 for X and -5 for O even if an O win is also reported |
| TTTEval.ScoreAntisymmetric | TTT/minimax.cpp:68-171 | swapping the perspective between X and O negates the score, wins included |
| TTTEval.OpenOutscoresWin | TTT/minimax.cpp:68-171 | a position with no win, X alone on cells 0, 3, 5 and 10, scores 9 for X, more than the win score 5 |
| TTTEval.ScanLine | TTT/minimax.cpp:95-104 | `contains_x`/`contains_o` are true exactly when some visited cell holds X/O |
| TTTEval.TallyLine | TTT/minimax.cpp:105-108 | after one line, `x_value`/`o_value` count the lines so far held only by X/only by O |
| TTTEval.EvaluateGameState | TTT/minimax.cpp:68-171 | `evaluate_gamestate` returns the win score, else open lines of the perspective minus open lines of the opponent |
| TTT3DEval.PValuesClasses | TTT3D/minimax.cpp:117-135 | positions 0..15 of `p_values` are the weight-4 cells and 16..31 the weight-2 cells, and these are all the listed cells |
| TTT3DEval.TotalsShare | TTT3D/minimax.cpp:140-156 | X and O never hold the same cell, so their total weights together are at most the weight of the cells scanned |
| TTT3DEval.CubeWeightIs128 | TTT3D/minimax.cpp:117-156 | the 64 cells weigh 128 in total (16·4 + 16·2 + 32·1) |
| TTT3DEval.ScoreBounds | TTT3D/minimax.cpp:140-163 | away from the end of the game the score lies in [-128, 128], below the draw (200) and win (500) scores |
| TTT3DEval.ScoreRange | TTT3D/minimax.cpp:93-164 | every 3D score lies in [-500, 500] |
| TTT3DEval.ScoreAntisymmetric | TTT3D/minimax.cpp:111-114 | away from the end of the game swapping X and O negates the score; a draw scores 200 for both sides |
| TTT3DEval.Find | TTT3D/minimax.cpp:147 | `std::find` returns the first position of the value, or the end when it is absent |
| TTT3DEval.CellWeight | TTT3D/minimax.cpp:147-154 | an occupied cell adds 4 when on four diagonals, 2 when on two, 1 otherwise |
| TTT3DEval.EvaluateGameState3D | TTT3D/minimax.cpp:93-164 | `evaluate_gamestate_3d` returns ±500 for a win, 200 for a draw, else the perspective's weight minus the opponent's |
| Reference.ScoreBounded | TTT3D/minimax.cpp:93-164 | both evaluators stay within their bound, far from ±INT_MAX |
| Reference.BestMaxFacts | TTT3D/minimax.cpp:49-56 | a max loop with strict `>` keeps its start or ends on the first child of largest value, which beats the start |
| Reference.BestMinFacts | TTT3D/minimax.cpp:71-78 | a min loop with strict `<` keeps its start or ends on the first child of smallest value, below the start |
| Reference.MinimaxBounded | TTT/minimax.cpp:20-63 | a minimax value lies within the evaluator's bound; the state is the node at a leaf and one of its moves otherwise |
| Reference.MinimaxCharacterized | TTT/minimax.cpp:26-63 | a leaf gets its static score; a max node gets the first child of largest value; a min node the first child of smallest value |
| TTTSearch.SearchIsMinimax | TTT/minimax.cpp:20-63 | with an ample deadline, the 4x4 search returns the reference minimax evaluation, state and value, for any window |
| TTTSearch.MaxLoopIsBestMax | TTT/minimax.cpp:28-44 | with an ample deadline, the max loop visits every move and returns the first of largest value |
| TTTSearch.MinLoopIsBestMin | TTT/minimax.cpp:48-63 | with an ample deadline, the min loop visits every move and returns the first of smallest value |
| TTTSearch.SearchAnytime | TTT/minimax.cpp:20-63 | whatever the clock, the value lies in [-10, 10] and the state is the node or one of its moves |
| TTTSearch.MaxLoopAnytime | TTT/minimax.cpp:28-44 | the max loop never lowers the best value, stays within range once a move is visited, and returns its start or a move |
| TTTSearch.MinLoopAnytime | TTT/minimax.cpp:48-63 | the min loop never raises the best value, stays within range once a move is visited, and returns its start or a move |
| TTTSearch.MinimaxAB | TTT/minimax.cpp:14-66 | the recursive search computes `Search`, poll for poll |
| TTTSearch.MaxChildren | TTT/minimax.cpp:28-44 | the max loop computes `MaxLoop`, poll for poll; its invariant keeps alpha equal to its start value until a move is visited, then to max(alpha0, best value so far), so alpha never falls |
| TTTSearch.MinChildren | TTT/minimax.cpp:48-63 | the min loop computes `MinLoop`, poll for poll; its invariant keeps beta equal to its start value until a move is visited, then (for beta0 <= INT_MAX) to min(beta0, best value so far), so beta never rises |
| TTTSearch.BestNextState | TTT/minimax.cpp:7-12 | the entry returns the root or one of its moves; with an ample deadline it is the reference choice, the first move of largest minimax value |
| TTT3DPrelim.PrelimIsMinimax | TTT3D/minimax.cpp:188-232 | with an ample deadline, the unpruned search is the reference minimax with the leaf rule `depth == max_depth` |
| TTT3DPrelim.PrelimMaxIsBestMax | TTT3D/minimax.cpp:203-215 | with an ample deadline, its max loop visits every move and returns the first of largest value |
| TTT3DPrelim.PrelimMinIsBestMin | TTT3D/minimax.cpp:217-229 | with an ample deadline, its min loop visits every move and returns the first of smallest value |
| TTT3DPrelim.PrelimEvalsAtDepthZero | TTT3D/minimax.cpp:172-175 | with `prelim_sort_depth == 0` every move is scored by its static evaluation and no clock poll is made |
| TTT3DPrelim.InsertShape | TTT3D/minimax.h:15-18 | inserting places x after every element whose value is not smaller, before every smaller one |
| TTT3DPrelim.InsertSorted | TTT3D/minimax.h:15-18 | inserting into a non-increasing list keeps it non-increasing |
| TTT3DPrelim.InsertPermutes | TTT3D/minimax.cpp:177 | inserting adds exactly x, to the evaluations and to their states |
| TTT3DPrelim.SortDescSorted | TTT3D/minimax.cpp:177 | sorting by `operator<` leaves the values non-increasing |
| TTT3DPrelim.SortDescPermutes | TTT3D/minimax.cpp:177 | sorting is a permutation of the evaluations |
| TTT3DPrelim.SortDescPermutesStates | TTT3D/minimax.cpp:177-183 | the states read back in sorted order are a permutation of the scored states |
| TTT3DPrelim.InsertAtGap | TTT3D/minimax.cpp:177 | x inserted at a gap, after a not-smaller element and before only smaller ones, lands exactly there |
| TTT3DPrelim.InsertAt | TTT3D/minimax.cpp:177 | one in-place insertion step leaves the prefix equal to the inserted list and the rest of the array untouched |
| TTT3DPrelim.SortEvals | TTT3D/minimax.cpp:177 | the in-place sort of `evals` leaves the array equal to the sorted sequence of its old contents |
| TTT3DPrelim.PermutedLeaves | TTT3D/minimax.cpp:174-177 | a permutation of static evaluations holds static evaluations only |
| TTT3DPrelim.LeavesByScore | TTT3D/minimax.cpp:177-183 | the states of non-increasing static evaluations come in non-increasing static-score order |
| TTT3DPrelim.PrelimSortOrders | TTT3D/minimax.cpp:166-186 | `prelim_sort` at depth 0 replaces `moves` by a permutation of itself in non-increasing static-score order, without polling |
| TTT3DPrelim.PrelimMinimax | TTT3D/minimax.cpp:188-232 | the unpruned recursive `minimax` computes `Prelim`, poll for poll |
| TTT3DPrelim.PrelimSort | TTT3D/minimax.cpp:166-186 | `prelim_sort` fills the evaluations, sorts them and rebuilds the move list as `PrelimSortSpec` states |
| TTT3DSearch.MovesFacts | TTT3D/minimax.cpp:23-32 | the loop's move list is a permutation of the generated moves, polls no clock, and is the generated list below the root |
| TTT3DSearch.SearchAnytime | TTT3D/minimax.cpp:34-90 | whatever the clock, below the root the value lies in [-500, 500] and the state is the node or a move; the root always returns one of its moves |
| TTT3DSearch.MaxLoopAnytime | TTT3D/minimax.cpp:49-69 | the max loop, started on a nonempty list, returns one of the moves with a value in range |
| TTT3DSearch.MinLoopAnytime | TTT3D/minimax.cpp:71-89 | the min loop, started on a nonempty list, returns one of the moves with a value in range |
| TTT3DSearch.BestMonotone | TTT3D/minimax.cpp:53-56 | the reference max loop only raises and the min loop only lowers its starting value |
| TTT3DSearch.SearchSound | TTT3D/minimax.cpp:34-90 | below the root, with an ample deadline and -INT_MAX <= alpha < beta <= INT_MAX, the pruned value clamped to the window equals the unpruned value clamped to it |
| TTT3DSearch.MaxLoopSound | TTT3D/minimax.cpp:49-69 | the max loop keeps alpha = max(alpha0, best) below beta and its clamped best equal to the reference's; a cut at `alpha >= beta` leaves both at beta or above |
| TTT3DSearch.MinLoopSound | TTT3D/minimax.cpp:71-89 | the min loop keeps beta = min(beta0, best) above alpha and its clamped best equal to the reference's; a cut at `beta <= alpha` leaves both at alpha or below |
| TTT3DSearch.RootLoopExact | TTT3D/minimax.cpp:49-69 | at the root, window (best, INT_MAX), a move is taken exactly when its minimax value beats the best so far, so the loop is the reference loop over the ordered moves |
| TTT3DSearch.RootExact | TTT3D/minimax.cpp:12-17 | with an ample deadline, a root not cut by the horizon returns the first ordered move of largest minimax value, with that value |
| TTT3DSearch.RootValueIsMinimax | TTT3D/minimax.cpp:12-17 | with an ample deadline, a root not cut by the horizon gets exactly the value of unpruned minimax under the same leaf rule, and the move it returns has that minimax value |
| TTT3DSearch.RootCut | TTT3D/minimax.cpp:34-39 | a root cut by the horizon or by a short first poll returns the first ordered move with value 0, a move of highest static score |
| TTT3DSearch.MinimaxAlphaBeta | TTT3D/minimax.cpp:19-91 | the recursive `minimax_alpha_beta` computes `Search`, poll for poll, ordering the root moves with `prelim_sort` |
| TTT3DSearch.MaxChildren | TTT3D/minimax.cpp:49-69 | the max loop computes `MaxLoop`, poll for poll; its invariant keeps alpha equal to its start value until a move is visited, then to max(alpha0, best value so far), so alpha never falls |
| TTT3DSearch.MinChildren | TTT3D/minimax.cpp:71-89 | the min loop computes `MinLoop`, poll for poll; its invariant keeps beta equal to its start value until a move is visited, then (for beta0 <= INT_MAX) to min(beta0, best value so far), so beta never rises |
| TTT3DSearch.GetBestNextState | TTT3D/minimax.cpp:12-17 | the entry always returns one of the root's moves; with an ample deadline and no horizon cut it is the reference choice over the ordered moves, and its minimax value is the root's |

## Left out

- **Wall clock.** `Deadline::now()` is a parameter: an oracle of remaining seconds per poll, with `TIME_BUFFER` and `PRELIM_TIME_BUFFER` as reals. Floating-point rounding of the subtraction is not modelled.
- **Position model.** `findPossibleMoves`, `isEOG`, `isXWin`, `isOWin`, `isDraw`, `getNextPlayer` and `at` belong to `GameState`, which is not part of this model. They are inputs: the finite tree of successors, the status flags and the board of each node.
- **`TTT3DPrelim.SortEvals`: `std::sort` is not stable.** Equal values may come out in any order. The model sorts stably (an insertion sort). The proved properties hold for any order: values non-increasing, and a permutation.
- **`TTTSearch.MaxChildren`, `TTTSearch.MinChildren`, `TTT3DSearch.MaxChildren`, `TTT3DSearch.MinChildren`: the running alpha and beta** are local to the loops, so what they hold (alpha = max(alpha0, best), beta = min(beta0, best)) is stated as loop invariants, not in a postcondition.
- **32-bit `int`.** Every value lies within [-500, 500] or is ±INT_MAX (2147483647), and no arithmetic can overflow, so integers are unbounded.
- **`prelim_sort` at a depth other than 0** is modelled (`PrelimSortSpec`), but its ordering lemma covers only depth 0, the only depth the search uses.
- **`Player::play` wrappers** (`TTT/player.cpp`, `TTT3D/player.cpp`, `checkers_skeleton_cpp/player.cpp`) are glue, random moves and demo output.
- **The checkers engine** (`checkers_skeleton_cpp_windows_friendly/game_algorithm.cpp`) is not modelled. It uses floating-point values, and it is not part of the tic-tac-toe engines.
- **Logging** (`cerr` in `prelim_sort`) and the Python note files are not modelled.
