# Pegboard and Pentago agents, modelled in Dafny

The repository holds two small game programs:

- A peg-solitaire solver on a 4x4 board (`pegboard.py`). A state is a 16-bit integer whose set bits are the slots holding a peg. A jump moves a peg over a neighbouring peg into an empty slot in one of eight directions, and the goal is a single peg in slot 9. The board is searched by a depth-first search with a parity cut-off (class `DFS`) and by an A* search over a binary heap (class `AStarSearch`), which ranks states by one of two heuristics: the number of applicable jumps, or the sum of the Manhattan distances of the pegs to slot 9.
- Pentago agents (`pentago.py`, `agents.py`). A 6x6 board is split into four 3x3 blocks. A move places a token on an empty cell and then turns one block left or right. Moves are written as text `"B/P RD"`.
  - The agents evaluate a board with the heuristic `sg3824_h`. It is the sum of three terms: line scoring over rows, columns and the two diagonals; the best line score after any single block turn; and the line score summed over every move.
  - The agents search with depth-limited minimax (`Minimax`) and with alpha-beta and a depth schedule (`Alphabeta`).
  - A third agent, `Minimax_mcts`, picks a shortlist of moves that random playouts then try.

The model is split by module:

| file | module | models |
|---|---|---|
| common.dfy | Common | the `None` / value option |
| pentago.dfy | Pentago | `PentagoBoard`: construction from text, `to_string`, `get_moves`, the two block rotations, `apply_move`, `get_diagonals`, `is_full` |
| agents.dfy | Agents | `Player`, `win`, `score_line`, `advanced_line_scoring`, `evaluate_twist_potential`, `evaluate_mobility`, `sg3824_h` |
| agent_search.dfy | AgentSearch | `Minimax.minimax` and `Minimax.get_move` |
| alphabeta.dfy | AlphaBeta | `Alphabeta.alphabeta` and `Alphabeta.get_move` |
| mcts_shortlist.dfy | MctsShortlist | `Minimax_mcts.minimax_for_mcts` |
| shortcut_example.dfy | ShortcutExample | a concrete board on which the minimizing-node test of `minimax` misfires |
| pegboard.dfy | Pegboard | `State`, `Action`, `applicableActions`, `goal`, `heuristic1`, `manhattan_distance`, `heuristic2` |
| peg_search.dfy | PegSearch | the classes `DFS` and `AStarSearch` |

How the source's form is kept:

- **Pentago board.** Every board operation of the source returns a deep copy, so a board is a value (`Pentago.Board`: the grid and the `empty_cells` counter).
  - The loops that build or overwrite grids are methods: `GetMoves`, `RotateLeft`, `RotateRight` and `ApplyMove`. Each is proved equal to a specification function, which the search code uses.
- **The agents' loops.** The loops of `win`, `score_line`, the twist and mobility terms and the two searches are methods proved equal to specification functions. Recursion in the searches terminates because every generated move fills one `'.'` cell.
- **Scores.** The searches start from `float('-inf')` and `float('inf')` and otherwise meet only integers. They are modelled by the extended integers `AgentSearch.Score` (`NegInf | Fin(n) | PosInf`).
- **The peg-solitaire searches.** They mutate their frontier, visited set and path in place. `PegSearch.DFS` and `PegSearch.AStarSearch` are classes whose methods change those fields. Each `while` loop is proved to terminate: a popped state with n pegs is replaced by at most 128 successors with n - 1 pegs each, so the sum of 129^pegs over the frontier drops.
- **Peg states.** A state is the set of its set bits. Bit arithmetic becomes set operations: `| (1 << p)` adds p, `& ~(1 << p)` removes it, and a bit test is membership. `Pegboard.Value` gives back the integer and is proved injective.

## Model

| member | source | states |
|---|---|---|
| Pentago.CountChar | pentago.py:36 | `str.count` of one character never exceeds the length |
| Pentago.CountCharAppend | pentago.py:36 | counting a character in a concatenation adds the counts of the parts |
| Pentago.DotCountCells | pentago.py:153-155 | the number of `'.'` cells of a board is the sum over its six rows |
| Pentago.FromString | pentago.py:17-36 | the constructor: `""` gives the blank board with `empty_cells` 36; a string of 1..35 characters fails (the source indexes past its end); any longer string gives the board of its first 36 characters, whose `empty_cells` counts `'.'` over the whole string |
| Pentago.FlattenCells | pentago.py:55-56 | joining six-character rows puts cell (r, c) at index 6r + c |
| Pentago.ToString | pentago.py:55-56 | `to_string` has 36 characters; character k is cell (k / 6, k % 6); its `'.'` count is the board's number of empty cells |
| Pentago.FromStringRoundTrip | pentago.py:17-36 | the constructor followed by `to_string` gives back the first 36 characters of any string of at least 36 |
| Pentago.ToStringRoundTrip | pentago.py:17-36 | `to_string` followed by the constructor gives back the grid with a recounted `empty_cells`, and so the same board exactly when its counter was accurate |
| Pentago.BlankBoard | pentago.py:27-30 | the default board has 36 `'.'` cells and `empty_cells` 36 |
| Pentago.FullIffNoDots | pentago.py:153-155 | `is_full` holds exactly when no cell is `'.'` |
| Pentago.OffsetFormulas | pentago.py:93-94 | the row and column offsets of blocks 1..4 are 0/0, 0/3, 3/0, 3/3 |
| Pentago.RotatedLeft | pentago.py:87-99 | `rotate_left(blk)`: each cell of the block receives the receiver's cell that the assignment at line 97 copies there; the other cells and `empty_cells` are copied |
| Pentago.RotatedRight | pentago.py:102-114 | `rotate_right(blk)`: each cell of the block receives the receiver's cell that the assignment at line 112 copies there; the other cells and `empty_cells` are copied |
| Pentago.RotatedLeftMoves | pentago.py:87-99 | turning a block left sends local cell (r, c) to (2 - c, r), leaves every cell outside the block and `empty_cells` alone |
| Pentago.RotatedRightMoves | pentago.py:102-114 | turning a block right sends local cell (r, c) to (c, 2 - r), leaves every cell outside the block and `empty_cells` alone |
| Pentago.RotateLeftThenRight | pentago.py:87-114 | a right turn undoes a left turn of the same block, and the other way round |
| Pentago.HalfTurn | pentago.py:87-114 | two left turns of a block equal two right turns |
| Pentago.FourLeftRotations | pentago.py:87-99 | four left turns of a block give the board back |
| Pentago.RotationKeepsDots | pentago.py:87-114 | a block turn keeps the number of empty cells |
| Pentago.TurnedBlockKeepsDots | pentago.py:95-97 | any grid whose block is a quarter turn of the original and that agrees elsewhere has the same number of `'.'` cells |
| Pentago.ProgressStep | pentago.py:95-97 | one assignment of the rotation loop writes the next source cell to its target cell inside the block |
| Pentago.ProgressDone | pentago.py:95-97 | after the nine assignments the copy is the rotated grid |
| Pentago.RotateLeft | pentago.py:87-99 | the copy-and-overwrite loop of `rotate_left` returns the left-turned board |
| Pentago.RotateRight | pentago.py:102-114 | the copy-and-overwrite loop of `rotate_right` returns the right-turned board |
| Pentago.CellMoves | pentago.py:72-83 | the eight move strings of one cell: its block and position `"B/P "`, then blocks 1..4 in turn, each with `L` and then `R` |
| Pentago.Moves | pentago.py:59-85 | `get_moves()`: the eight moves of every `'.'` cell, cells in row-major order |
| Pentago.CellMoveList | pentago.py:74-83 | the inner loop produces the eight moves of one empty cell, block 1..4 each turned L then R |
| Pentago.GetMoves | pentago.py:59-85 | the double loop of `get_moves` lists the moves of the empty cells in row-major order |
| Pentago.CellCodes | pentago.py:72-73 | the block number is 1..4 and the position 1..9 for every cell |
| Pentago.MovesLength | pentago.py:59-85 | there are exactly 8 moves per empty cell |
| Pentago.MovesEmptyIffFull | pentago.py:59-85 | no move is generated exactly when `is_full` holds |
| Pentago.CellMoveIn | pentago.py:64-83 | each of the eight moves of every empty cell is generated |
| Pentago.MoveOrigin | pentago.py:64-83 | every generated move is one of the eight moves of an empty cell |
| Pentago.DecodeInRange | pentago.py:122-128 | decoding well-formed move text gives a row and column on the board |
| Pentago.CellMoveDecodes | pentago.py:72-83 | decoding a generated move gives back its cell, its block to turn and its direction (the encoding and the decoding agree) |
| Pentago.MoveDecodesToEmptyCell | pentago.py:117-131 | every generated move places its token on an empty cell |
| Pentago.Applied | pentago.py:117-138 | `apply_move(move, token)`: the token written on the decoded cell of a copy, whose rotation block is then turned right for `r`/`R` and left for any other direction; `empty_cells` is copied unchanged |
| Pentago.ApplyMove | pentago.py:117-138 | `apply_move` places the token on a copy and then turns the named block |
| Pentago.PlaceFillsOneCell | pentago.py:131 | placing a token on an empty cell lowers the number of `'.'` cells by one |
| Pentago.MoveFillsOneCell | pentago.py:117-138 | a generated move fills exactly one empty cell, while the `empty_cells` counter stays unchanged |
| Pentago.AppliedLandsToken | pentago.py:127-136 | after `apply_move` the token lies on the decoded cell, or on its image under the turn when the cell is in the turned block |
| Pentago.Diagonals | pentago.py:141-150 | `get_diagonals()`: cells (i, i) and cells (i, 5 - i), top row first |
| Pentago.IsFull | pentago.py:153-155 | `is_full()`: no cell holds `'.'` |
| Pentago.DiagonalsInString | pentago.py:141-150 | the main diagonal is characters 0, 7, ..., 35 of `to_string` and the anti-diagonal 5, 10, ..., 30 |
| Pentago.RotationKeepsDiagonal | pentago.py:141-150 | turning block 2 or 3 leaves the main diagonal alone, and turning block 1 or 4 leaves the anti-diagonal alone |
| Agents.NewPlayer | agents.py:35-42 | a player gets a token exactly when it is b, B, w or W, stored in lower case, with its number and limits |
| Agents.Opponent | agents.py:265 | the opponent's token differs from the agent's |
| Agents.RunPrefixShorter | agents.py:62-65 | a walk that found m matching cells also found its first n |
| Agents.FiveInRow | agents.py:59-66 | the `while` loop of each direction reports five cells of the token from the start cell |
| Agents.CellWinCount | agents.py:56-104 | the body of the double loop adds one per direction with five in a row from the cell, and nothing when the cell does not hold the token |
| Agents.WinsBeforePositive | agents.py:53-106 | the count is positive exactly when a run of five starts at one of the scanned cells |
| Agents.HasWin | agents.py:50-106 | `win(board)`: the number of five-cell runs counted from the token's cells over the four guarded directions is positive |
| Agents.HasWinIff | agents.py:50-106 | `win` holds exactly when five in a row lies somewhere on the board in one of the four directions |
| Agents.Win | agents.py:50-106 | the nested loops of `win` return that five-in-a-row predicate |
| Agents.ScanUpToContributions | agents.py:160-170 | after n elements the running `consecutive_count` is the run of tokens ending there and the score is the sum of the per-element pattern scores |
| Agents.LineScore | agents.py:150-172 | `score_line(line, token)`: the score after one pass with the running `consecutive_count` |
| Agents.ScoreLine | agents.py:150-172 | the loop of `score_line` returns the line score |
| Agents.LineScoreByCells | agents.py:150-172 | a line's score is the sum over its elements of the pattern score of the run each one ends |
| Agents.LineScoreWithoutToken | agents.py:150-172 | a line without the token scores 0 |
| Agents.SixTokens | agents.py:153-168 | six tokens in a line score 1 + 10 + 100 + 1000 + 10000 + 0 |
| Agents.DotRepeatsRun | agents.py:164-170 | a `'.'` after a run scores that run's pattern again before resetting it |
| Agents.LineScoring | agents.py:137-148 | `advanced_line_scoring`: the line scores of the six rows, the six columns and the two diagonals, summed |
| Agents.AdvancedLineScoring | agents.py:137-148 | the loops of `advanced_line_scoring` sum the line scores of the six rows, six columns and two diagonals |
| Agents.LineScoringNonNegative | agents.py:137-148 | line scoring is never negative |
| Agents.LineScoringWithoutToken | agents.py:137-148 | a board without the token scores 0 |
| Agents.TwistPotential | agents.py:174-185 | `evaluate_twist_potential`: the running maximum, from 0, of the line scoring after turning blocks 1..4 left and then right |
| Agents.EvaluateTwistPotential | agents.py:174-185 | the loop returns the running maximum, from 0, of the line scores after each of the eight block turns |
| Agents.TwistScoreAt | agents.py:176-183 | entries 2(k - 1) and 2(k - 1) + 1 of the turn scores belong to the left and right turn of block k |
| Agents.RunningMaxIsMax | agents.py:175-183 | the running maximum is at least 0 and every entry, and it is 0 or one of the entries |
| Agents.TwistPotentialIsMax | agents.py:174-185 | the twist potential is the largest of 0 and the eight turn scores |
| Agents.MoveScore | agents.py:192-194 | the score a move contributes is never negative |
| Agents.MovesReadable | agents.py:189-192 | every generated move is well-formed move text, so `apply_move` can decode it |
| Agents.Mobility | agents.py:187-196 | `evaluate_mobility`: the line scoring of the board after each move of `get_moves`, summed |
| Agents.EvaluateMobility | agents.py:187-196 | the loop sums the line score of the board after each move |
| Agents.MobilityOfNonNegative | agents.py:190-194 | a partial mobility sum is never negative |
| Agents.MobilityBounds | agents.py:187-196 | mobility is never negative and is 0 on a full board |
| Agents.Heuristic | agents.py:122-135 | `sg3824_h`: line scoring plus twist potential plus mobility |
| Agents.Sg3824H | agents.py:122-135 | `sg3824_h` adds line scoring, twist potential and mobility |
| Agents.HeuristicBounds | agents.py:122-135 | the heuristic is at least its line score and at least its twist potential, both non-negative, and on a full board it is their sum |
| AgentSearch.ChildFillsOneCell | agents.py:255-256 | each child position has one empty cell fewer, which makes the search terminate |
| AgentSearch.WinningReplyIff | agents.py:266-269 | the scan flags a winning reply among the first k moves exactly when one exists |
| AgentSearch.Best | agents.py:253-273 | the scan of a search node: start from -inf (maximizing) or inf (minimizing) with no move, and take a child's value and move only when it is strictly better |
| AgentSearch.BestIsFirstExtreme | agents.py:253-260 | the loop's result bounds every child value; it has no move exactly when every value equals the start value; otherwise its move is the first move reaching the extreme (ties keep the earlier move) |
| AgentSearch.BestMoveIn | agents.py:253-273 | a best move found is one of the scanned moves |
| AgentSearch.BestMonotone | agents.py:253-273 | raising every child value does not lower the extreme |
| AgentSearch.BestGrows | agents.py:253-273 | scanning more moves only raises the maximum and only lowers the minimum |
| AgentSearch.ChildValuesAt | agents.py:255-257 | entry k of the child values is the search value of the k-th move's board |
| AgentSearch.GivesUp | agents.py:266-269 | a minimizing node gives up when some opponent reply makes the watched token win: the agent's token under the rule as written, the opponent's under the corrected rule, and never for plain minimax |
| AgentSearch.MinimaxValue | agents.py:246-274 | `minimax(board, depth, maximizing)`: the heuristic with no move at depth 0 or when the agent has won; otherwise (-inf, None) at a minimizing node that gives up, and else the scan of the child values. Plain minimax, with no give-up test, serves as the reference |
| AgentSearch.Minimax | agents.py:246-274 | the recursive method `minimax` returns the value and move of the search-node specification |
| AgentSearch.MinimaxMaxScan | agents.py:252-261 | the maximizing loop returns the first best child |
| AgentSearch.MinimaxMinScan | agents.py:262-274 | the minimizing loop returns -inf with no move when a reply trips the win test, otherwise the first least child |
| AgentSearch.MinimaxChild | agents.py:255-257 | one maximizing iteration evaluates the k-th child |
| AgentSearch.MinimaxReply | agents.py:266-270 | one minimizing iteration reports the win test on the k-th reply, and otherwise evaluates that child |
| AgentSearch.MinimaxGetMove | agents.py:276-281 | `get_move` returns the root's best move, which is a legal move or None |
| AgentSearch.MinimaxMoveIsLegal | agents.py:246-274 | any move the search returns is one of the board's moves |
| AgentSearch.MinimaxMaxNode | agents.py:252-261 | a maximizing inner node's value is the maximum of its children; it has no move exactly when all children are -inf; otherwise its move is the first maximal child |
| AgentSearch.MinimaxMinNode | agents.py:262-274 | a minimizing node that does not give up has the minimum of its children as value, no move exactly when all are +inf, and otherwise the first minimal child's move |
| AgentSearch.MinimaxGivesUp | agents.py:266-269 | a minimizing node gives up with (-inf, None) exactly when some reply makes the watched token win: the agent's token as written, the opponent's as intended |
| AgentSearch.MinimaxGivesUpOnReply | agents.py:266-269 | one reply that makes the watched token win suffices for the node to give up |
| AgentSearch.MinimaxBelowUnpruned | agents.py:246-274 | giving up only lowers values: every node's value is at most the plain minimax value without the shortcut |
| AgentSearch.MinimaxIsUnprunedWhenNeverGivingUp | agents.py:246-274 | where no minimizing node below gives up, the value is the plain minimax value |
| AlphaBeta.AlphaBetaValue | agents.py:287-321 | `alphabeta(board, depth, alpha, beta, maximizing)`: the heuristic with no move at depth 0 or when the agent has won, otherwise the maximizing or minimizing loop from the first move |
| AlphaBeta.MaxLoop | agents.py:291-305 | the maximizing loop from move k: keep the first strictly better child, raise alpha, return (alpha, move) once alpha reaches WINNING_SCORE, stop once beta <= alpha |
| AlphaBeta.MinLoop | agents.py:306-321 | the minimizing loop from move k: keep the first strictly smaller child, lower beta, return (beta, move) once beta reaches LOSING_SCORE, stop once beta <= alpha |
| AlphaBeta.AlphaBeta | agents.py:287-321 | the recursive method `alphabeta` returns the value and move of its specification |
| AlphaBeta.AlphaBetaMaxScan | agents.py:291-305 | the maximizing loop with its alpha update, win exit and beta cut-off returns the loop specification |
| AlphaBeta.AlphaBetaMinScan | agents.py:306-321 | the minimizing loop with its beta update, loss exit and alpha cut-off returns the loop specification |
| AlphaBeta.AlphaBetaChild | agents.py:295-296 | one iteration evaluates the k-th child inside the current window |
| AlphaBeta.AlphaBetaMoveIsLegal | agents.py:287-321 | any move alphabeta returns is one of the board's moves |
| AlphaBeta.Clamp | agents.py:32-34 | a score is capped to [LOSING_SCORE, WINNING_SCORE], and meets a bound exactly when it is at or beyond it |
| AlphaBeta.ClampMonotone | agents.py:32-34 | capping keeps the order of scores |
| AlphaBeta.AlphaBetaSound | agents.py:287-321 | inside a window the value is (up to the cap) the plain minimax value when it falls strictly inside, an upper bound of it at or below alpha, and a lower bound at or above beta |
| AlphaBeta.ReplySound | agents.py:296 | each child's windowed value relates to its plain minimax value in that way |
| AlphaBeta.MaxStep | agents.py:297-304 | one maximizing iteration keeps the loop invariant, or its exits return a sound value |
| AlphaBeta.MinStep | agents.py:313-320 | one minimizing iteration keeps the loop invariant, or its exits return a sound value |
| AlphaBeta.MaxLoopSound | agents.py:294-305 | the maximizing loop from any iteration returns a sound value |
| AlphaBeta.MinLoopSound | agents.py:310-321 | the minimizing loop from any iteration returns a sound value |
| AlphaBeta.AlphaBetaRootValue | agents.py:343 | from the full window (-inf, inf) alphabeta's root value equals the plain minimax value up to the cap |
| AlphaBeta.AlphaBetaExitsAgree | agents.py:301-302 | a value at WINNING_SCORE or above (or at LOSING_SCORE or below) is one the plain minimax value also reaches |
| AlphaBeta.AlphaBetaNotBelowMinimax | agents.py:246-343 | up to the cap, alphabeta never values the root below the `Minimax` agent |
| AlphaBeta.ScheduledDepth | agents.py:326-340 | the depth `get_move` searches: min(limit, 1) above 18 empty cells, `limit // 2` above 6, the limit otherwise |
| AlphaBeta.ScheduledDepthBounds | agents.py:326-340 | the scheduled depth lies between 0 and the limit, equals the limit with at most 6 empty cells, and is at most 1 with more than 18 |
| AlphaBeta.AlphabetaGetMove | agents.py:323-347 | `get_move` counts the empty cells, picks the depth and returns the root move, which is a legal move or None |
| AlphaBeta.MidgameNoMove | agents.py:332-334 | with limit 1 and 7..18 empty cells the depth is 0 and no move is returned although moves exist |
| AlphaBeta.IntendedDepth | agents.py:326-340 | the corrected schedule: as written, except that a midgame `limit // 2` of 0 falls back to the limit |
| AlphaBeta.IntendedDepthPositive | agents.py:326-340 | the corrected schedule searches 1 to `depth_limit` plies for a positive limit, and agrees with the source wherever the source's depth is positive |
| AlphaBeta.DepthOneFindsMove | agents.py:287-305 | a one-ply search of an unfinished, unwon board returns a legal move |
| AlphaBeta.MaxLoopKeepsMove | agents.py:294-305 | once the maximizing loop holds a move it keeps one |
| AlphaBeta.IntendedScheduleFindsMove | agents.py:323-347 | with limit 1 the corrected schedule returns a legal move on every unfinished, unwon board |
| MctsShortlist.StrLessTotal | agents.py:368 | Python's string order is total |
| MctsShortlist.StrLessTransitive | agents.py:368 | Python's string order is transitive |
| MctsShortlist.AtLeastTransitive | agents.py:368 | the descending order on (score, move) pairs is transitive |
| MctsShortlist.Insert | agents.py:368 | one insertion step of a stable descending sort: the entry goes after every entry strictly above it |
| MctsShortlist.SortDesc | agents.py:368 | the stable descending sort, by whole (score, move) pairs for `sort(reverse=True)` or by score alone for `key=lambda x: -x[0]` |
| MctsShortlist.SortDescSorted | agents.py:368 | `sort(reverse=True)` gives a descending list |
| MctsShortlist.SortDescPermutes | agents.py:368 | sorting is a permutation |
| MctsShortlist.SortDescStable | agents.py:383 | sorting by score alone keeps the input order among equal scores |
| MctsShortlist.Prefix | agents.py:369 | a slice `[:n]` is the first min(n, len) entries |
| MctsShortlist.Candidates | agents.py:362-365 | the pairs (heuristic of the board after the move, move) for the moves in `get_moves` order |
| MctsShortlist.Top | agents.py:368-369 | the candidates sorted in reverse and cut to `top_n` |
| MctsShortlist.CandidatesMoves | agents.py:362-365 | the scored pairs list the moves in `get_moves` order |
| MctsShortlist.LeafScore | agents.py:364 | each first-stage score is the heuristic of the board after the move |
| MctsShortlist.IndexOf | agents.py:373 | the index found holds the move |
| MctsShortlist.ReplyValueIsMinimax | agents.py:374-378 | the second-stage score of a move is the one-ply minimizing `minimax` of the board after it |
| MctsShortlist.Rescored | agents.py:372-380 | the kept moves paired, in order, with their second-stage scores |
| MctsShortlist.Final | agents.py:383 | the re-scored pairs in a stable sort by descending score |
| MctsShortlist.Shortlist | agents.py:386 | the moves of the first `top_n` final pairs |
| MctsShortlist.RescoredEntries | agents.py:373-380 | each kept move is paired with its second-stage score |
| MctsShortlist.MovesOf | agents.py:386 | the returned list holds the moves of the pairs, in order |
| MctsShortlist.ScoreMoves | agents.py:358-365 | the first loop scores every move |
| MctsShortlist.RescoreMoves | agents.py:372-380 | the second loop re-scores every kept move |
| MctsShortlist.MinimaxForMcts | agents.py:357-386 | `minimax_for_mcts` returns the shortlist of its specification |
| MctsShortlist.CutKeepsBest | agents.py:368-369 | sorting descending and cutting keeps a descending list, and no kept pair ranks below a dropped one |
| MctsShortlist.SortedCut | agents.py:369 | cutting a sorted list leaves every kept entry at or above every dropped one |
| MctsShortlist.TopIsBest | agents.py:362-369 | the kept pairs are the best `top_n` of all scored moves |
| MctsShortlist.ShortlistShape | agents.py:357-386 | the shortlist has min(top_n, number of moves) entries, all legal moves, in non-increasing order of their second-stage score |
| MctsShortlist.RescoredKept | agents.py:373-386 | every entry kept from a reordering of the re-scored pairs is a legal move with its true second-stage score |
| MctsShortlist.FinalIsStableReorder | agents.py:373-383 | the final list is a permutation of the re-scored pairs that keeps their order among equal scores |
| ShortcutExample.ShortcutReply | agents.py:266-269 | on a concrete board, a legal black reply lines up five white tokens, and black does not win |
| ShortcutExample.AgentWinReplyGivesUp | agents.py:266-269 | any reply that makes the agent itself win makes the as-written minimizing node return (-inf, None) |
| ShortcutExample.ShortcutOnAgentWin | agents.py:266-269 | on that board the minimizing node of the agent playing white scores -inf although the opponent has not won |
| ShortcutExample.FirstTokenNoWin | agents.py:266-269 | a move that places the first token of its kind on the board gives that token no five in a row |
| ShortcutExample.CorrectedRuleKeepsScore | agents.py:262-274 | on a board where black has no token and the agent has not won, the corrected test never gives up and the minimizing node keeps a finite score |
| ShortcutExample.ShortcutCorrected | agents.py:262-274 | on the same board the as-written node scores (-inf, None) while the corrected node keeps a finite score |
| Pegboard.Value | pegboard.py:7-8 | `state.value`: the sum of 2^i over the slots i holding a peg |
| Pegboard.ValueBelowBound | pegboard.py:7-8 | a state's integer value lies below 2^16 |
| Pegboard.ValueInjective | pegboard.py:7-8 | two states have the same integer value exactly when they hold the same pegs |
| Pegboard.ValueBelowAdd | pegboard.py:31 | setting an unset bit adds its power of two |
| Pegboard.ValueBelowRemove | pegboard.py:32-33 | clearing a set bit subtracts its power of two |
| Pegboard.CountBelowIsSize | pegboard.py:16-17 | counting set bits gives the size of the peg set |
| Pegboard.PegsCountsBits | pegboard.py:16-17 | the popcount over 16 bits is the number of pegs |
| Pegboard.Parity | pegboard.py:16-17 | `get_parity` is 0 or 1, and 0 exactly when the number of pegs is even |
| Pegboard.ApplyState | pegboard.py:29-34 | `applyState`: newpos set, then jumper and goner cleared |
| Pegboard.Precondition | pegboard.py:36-40 | `precondition`: pegs in jumper and goner, and none in newpos |
| Pegboard.JumpValue | pegboard.py:29-34 | a jump adds 2^newpos and removes 2^jumper and 2^goner from the value, and leaves every other slot alone |
| Pegboard.JumpRemovesOnePeg | pegboard.py:29-40 | an allowed jump removes exactly one peg and flips the parity |
| Pegboard.GetPosition | pegboard.py:45-50 | `get_position` is defined exactly when the shifted row and column stay on the board, and it then lands on them |
| Pegboard.Candidate | pegboard.py:45-58 | the action of a slot and one of the eight directions of line 53, when both `get_position` steps stay on the board |
| Pegboard.CandidateFacts | pegboard.py:52-58 | the candidate jump for a slot and direction starts at that slot, is the (8 pos + d)-th in scan order, and jumps over the middle of a straight line |
| Pegboard.ApplicableBefore | pegboard.py:52-60 | the actions appended after scanning the slots below pos and the first d directions of slot pos |
| Pegboard.ApplicableBeforeSound | pegboard.py:52-60 | every listed jump is a candidate whose precondition holds |
| Pegboard.ApplicableBeforeOrdered | pegboard.py:52-60 | the listed jumps come in strictly increasing scan order |
| Pegboard.ApplicableBeforeComplete | pegboard.py:52-60 | every candidate scanned so far whose precondition holds is listed |
| Pegboard.ApplicableActions | pegboard.py:42-63 | `applicableActions`: every candidate whose precondition holds, by slot and then by direction |
| Pegboard.CollectActions | pegboard.py:42-63 | the loops of `applicableActions` return the applicable-jump list |
| Pegboard.ApplicableIff | pegboard.py:42-63 | a jump is listed exactly when it is a candidate and its precondition holds |
| Pegboard.ApplicableOrdered | pegboard.py:52-53 | the list is ordered by jumper, then by the direction order of the source |
| Pegboard.ApplicableRemovesOnePeg | pegboard.py:42-63 | every listed jump removes one peg and flips the parity |
| Pegboard.Goal | pegboard.py:66-67 | `goal`: the value is 0b0000001000000000 |
| Pegboard.GoalIffOnlySlot9 | pegboard.py:66-67 | `goal` holds exactly when slot 9 is the only peg |
| Pegboard.Heuristic1 | pegboard.py:156-157 | `heuristic1` is the number of applicable jumps, at most 128 |
| Pegboard.FewPegsNoJumps | pegboard.py:42-67 | with fewer than two pegs, or at the goal, no jump applies |
| Pegboard.ManhattanDistance | pegboard.py:159-162 | the distance is 0 exactly between equal points, and at least the difference of either coordinate |
| Pegboard.DistanceSum | pegboard.py:165-171 | the Manhattan distances to (2, 1) of the pegs below slot n, summed |
| Pegboard.Heuristic2 | pegboard.py:165-171 | the loop of `heuristic2` sums the distances of the pegs to slot 9, at (2, 1) |
| Pegboard.DistanceSumZeroIff | pegboard.py:165-171 | the sum is 0 exactly when no peg lies outside slot 9 |
| Pegboard.GoalHeuristic2Zero | pegboard.py:165-171 | the goal state has heuristic 0 |
| Pegboard.DistanceSumCountsPegs | pegboard.py:165-171 | every peg outside slot 9 adds at least 1 to the sum |
| PegSearch.GoalSolvable | pegboard.py:66-67 | the goal is solvable with no jump |
| PegSearch.SolvableStep | pegboard.py:119-125 | a state with an applicable jump to a solvable state is solvable |
| PegSearch.SolvableSplit | pegboard.py:119-125 | a solvable non-goal state has an applicable jump to a solvable state |
| PegSearch.SuccessorWeight | pegboard.py:121-122 | a successor weighs 1/129 of its parent (its weight is 129^pegs) |
| PegSearch.TotalWeightAppend | pegboard.py:125 | the frontier weight of a concatenation is the sum of the weights |
| PegSearch.Pushes | pegboard.py:121-125 | the entries `search` pushes for a state: the successor by each action in turn, with that action, when its value is not visited |
| PegSearch.PushesUnvisited | pegboard.py:121-125 | every pushed entry is an applicable jump's successor whose value was not yet visited |
| PegSearch.PushesWeight | pegboard.py:121-125 | the pushed successors weigh at most (number of jumps)/129 of their parent |
| PegSearch.PathExtend | pegboard.py:108-127 | appending an expanded, parity-matching non-goal state keeps the path alternating in parity and adds its value to the visited values |
| PegSearch.PopTop | pegboard.py:101 | popping keeps the stack's reachability invariant and lowers its weight by the popped state's |
| PegSearch.ExpandStep | pegboard.py:117-125 | pushing the unvisited successors keeps the reachability invariant and lowers the stack weight below the popped state's |
| PegSearch.PushesComplete | pegboard.py:121-125 | every successor by one of the actions whose value is not visited is pushed |
| PegSearch.ClosedAfterExpand | pegboard.py:117-127 | expanding the popped state keeps every successor of every visited state visited or stacked |
| PegSearch.InitialKept | pegboard.py:101-127 | an expansion keeps the initial state visited or stacked |
| PegSearch.ClosedUnsolvable | pegboard.py:100-129 | once the stack is empty, no visited state reaches the goal |
| PegSearch.OneJumpSolvable | pegboard.py:29-40 | a state with a listed jump into the goal is solvable |
| PegSearch.LeftwardCandidate | pegboard.py:45-58 | slot 11 jumps over 10 into 9 in the direction (0, -1), third in the list of line 53 |
| PegSearch.TwoPegJumpListed | pegboard.py:42-63 | on the state 3072 (pegs 10 and 11) that jump is listed by `applicableActions` |
| PegSearch.TwoPegJumpLands | pegboard.py:29-34 | and it leaves the single peg of slot 9 |
| PegSearch.TwoPegStartSolvable | pegboard.py:16-17 | the state 3072 has even parity and is solvable |
| PegSearch.DFS.constructor | pegboard.py:93-97 | the stack holds the initial state with no action; visited, path and the expansion count are empty or zero |
| PegSearch.DFS.PushSuccessors | pegboard.py:119-125 | the stack grows by the successors of unvisited value, in jump order; nothing else changes |
| PegSearch.DFS.Expand | pegboard.py:111-127 | an expansion records the state's value, pushes its successors and appends it to the path, lowering the stack weight |
| PegSearch.DFS.Visit | pegboard.py:101-127 | one iteration after the pop: a state whose parity differs from `(len(path) + 1) % 2` is skipped with nothing changed; otherwise it is counted, and either appended as the goal (the start is then solvable) or expanded, lowering the stack weight |
| PegSearch.DFS.Search | pegboard.py:99-129 | when `search` reports success, its path is every expanded state, ends in the goal, alternates in parity and the initial state is solvable; on failure it returns `[]` with an empty stack; from the constructor's state with an even number of pegs it always fails |
| PegSearch.DFS.SearchWithoutCutoff | pegboard.py:99-129 | the same loop without the test of lines 108-109: it reports success exactly when the goal is reachable from the initial state |
| PegSearch.ParityCutoffMissesGoal | pegboard.py:99-129 | `DFS(State(3072)).search()` reports failure although the state is solvable |
| PegSearch.SearchWithoutCutoffFindsGoal | pegboard.py:99-129 | the search without the cut-off finds the goal from the same state |
| PegSearch.HeuristicValue | pegboard.py:156-171 | the heuristic the search was built with: `heuristic1` or `heuristic2` |
| PegSearch.Evaluate | pegboard.py:156-171 | the chosen heuristic's value |
| PegSearch.MinIndex | pegboard.py:200 | `heappop` takes an entry that is least by (priority, counter) |
| PegSearch.Children | pegboard.py:218-225 | the entries A* pushes for a state: for each action whose precondition holds, (heuristic of the successor, next counter, successor) |
| PegSearch.ChildrenShape | pegboard.py:218-225 | the k-th pushed entry has the heuristic of the k-th successor as priority and counter + k + 1 |
| PegSearch.ChildrenWeight | pegboard.py:218-225 | the pushed entries weigh at most (number of jumps)/129 of their parent |
| PegSearch.RemoveEntry | pegboard.py:200 | removing entry k leaves the others in order, as a multiset one fewer, with the weight lowered by its state's |
| PegSearch.PopEntry | pegboard.py:200-215 | removing the least entry keeps the queue ranked, uniquely numbered and reachable, and a solvable initial state keeps a solvable entry or the popped one |
| PegSearch.QueueChildren | pegboard.py:218-225 | pushing the successors keeps priorities equal to the heuristic and counters unique and below the counter |
| PegSearch.QueueChildrenSound | pegboard.py:218-225 | pushed successors of a state reachable from the start are reachable from the start |
| PegSearch.QueueChildrenComplete | pegboard.py:218-225 | after the pushes a solvable initial state still has a solvable queued entry |
| PegSearch.QueueChildrenLighter | pegboard.py:218-225 | the pushes weigh less than the popped state |
| PegSearch.AStarSearch.constructor | pegboard.py:178-184 | the queue holds the initial state with its heuristic and counter 1; visited is empty |
| PegSearch.AStarSearch.CalculatePriority | pegboard.py:186-189 | the entry carries the heuristic value and the incremented counter |
| PegSearch.AStarSearch.PushSuccessors | pegboard.py:218-225 | the queue grows by the successor entries, numbered from the old counter |
| PegSearch.AStarSearch.Expand | pegboard.py:215-225 | an expansion marks the entry visited and pushes its successors, lowering the queue weight |
| PegSearch.AStarSearch.Pop | pegboard.py:200 | `heappop` removes and returns an entry least by (priority, counter), keeping the queue invariants |
| PegSearch.AStarSearch.Search | pegboard.py:191-230 | `search` returns a path exactly when the initial state is solvable; the path is then empty and the last popped state is the goal, and no earlier popped state was |

## Left out

- Human and Random agents (agents.py:206-241): keyboard input and a random choice.
- `Minimax_mcts.playout`, `mcts` and `get_move` (agents.py:387-423): random playouts. Only the shortlist `minimax_for_mcts` is modelled.
- `explain_move`, `player_type`, `__str__` of the Pentago board, of `State` and of `Action`, the timing and the `print` calls: output only.
- `Player.INFINITY` and `time_limit`: stored but never read by the modelled code.
- Floating point: the only floats are `float('-inf')` and `float('inf')`, modelled by `AgentSearch.Score`.
- `flailWildly` (pegboard.py:69-81): random play with printing.
- `solve_pegboard_using_DFS` and the module-level menu (pegboard.py:133-151, 232-283): timing and printing around `DFS.search` and `AStarSearch.search`.
- main.py and game.py are not part of this model.
- Python's `list.sort` is modelled by a stable insertion sort, which yields the same list for a total order.
- `heapq`'s array layout is not modelled. The queue is a sequence and `heappop` takes a least entry by (priority, counter), as the heap guarantees.
- The A* iteration and expansion counters are not modelled: they are only printed.
- `AStarSearch` path: the source's `path` argument and `State.path` are never extended (the line that would extend them is commented out), so every priority is the heuristic alone and the returned path is always empty. The model states this outright.
- `AStarSearch` visited set: the source stores State objects, which compare by identity, so the `in self.visited` tests never succeed for a fresh state. The model identifies an entry by its counter, which gives the same behaviour.
- Deep copies and aliasing in pentago.py are not modelled: a board is a value.
- The `empty_cells` counter: `apply_move` copies it unchanged. `Pentago.MoveFillsOneCell` states that, and the searches count `'.'` cells instead.
- The integer value of a peg state is modelled as the set of its set bits. Values with bits at 16 and above never arise from the 16-bit initial states.
- `Pentago.ApplyMove` and `Pentago.Applied`: require well-formed move text (`Pentago.IsMoveText`: block and rotation block 1..4, position 1..9). On malformed text the source does something else: a `0` in the block, position or rotation block indexes rows or columns from the end, and a block or rotation block of `5`..`9` raises IndexError. Every move the source applies comes from `get_moves`, and the human agent checks typed moves (agents.py:219-222).
- `Pentago.FromString`: the source raises IndexError for strings of 1..35 characters and does not validate characters. The model returns None in that case and otherwise accepts any characters.
- `AlphaBeta.AlphaBetaSound`: the relation to plain minimax holds up to `AlphaBeta.Clamp`. The heuristic can exceed WINNING_SCORE, and then the early exits return a different, equally decisive number.

## Findings

| source | as written | input that shows it | evidently intended | confidence | as-written member | corrected member |
|---|---|---|---|---|---|---|
| agents.py:268-269 | the minimizing node returns (-inf, None) when `self.win(new_board)` holds, a test of the AGENT's token after the opponent's reply | agent 'w', board `.www.....w.....w....................`, opponent reply "4/9 2R": the turn completes white's row 0, black has not won, and the node scores -inf | test the opponent's token (the comment says "check for opponent win") | not executed | ShortcutExample.ShortcutOnAgentWin | AgentSearch.MinimaxGivesUp |
| agents.py:332-334 | midgame depth is `depth_limit // 2` | `depth_limit` 1 and 7..18 empty cells give depth 0, so `alphabeta` returns the heuristic with no move and `get_move` returns None although moves exist | search at least one ply | not executed | AlphaBeta.MidgameNoMove | AlphaBeta.IntendedScheduleFindsMove |
| pegboard.py:108-109 | the DFS skips a popped state whose parity differs from `(len(self.path) + 1) % 2`, where `path` grows by one per EXPANDED state, not per level | `State(3072)`, pegs 10 and 11: parity 0 differs from 1, so the only stack entry is skipped and `search` returns `(False, [])`, yet the jump 11 over 10 into 9 reaches the goal. Any even start fails the same way, and after a dead-end expansion the siblings left at its depth fail the test too | skip only states that cannot reach the goal (the comment at pegboard.py:103-106); a state d jumps below the start has pegs(start) - d pegs, so no state is ruled out by parity and the search must not cut | not executed | PegSearch.ParityCutoffMissesGoal | PegSearch.DFS.SearchWithoutCutoff |
