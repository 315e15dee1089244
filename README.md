# Go engine and computer players, modelled in Dafny

This project models the rules engine and the computer players of a small Go
game written in Python:

- **The board.** `board.py` holds the 19 by 19 `Board`. `testMinimax.py` holds a 9 by 9 `Board` with different end-of-game rules. Its moves follow the same rules, except that it looks groups up through a memo table that can hand back stale groups (see "## Findings"). The model's 9 by 9 board computes every group afresh.
- **The board's rules.** The model covers:
  - placement with captures, suicide and the ko rule;
  - passing, where two passes in a row end the game and remove dead groups;
  - undo and reset;
  - territory, score and winner;
  - the list of legal moves.
- **The minimax player** of `testMinimax.py`:
  - a transposition table;
  - alpha-beta cut-offs;
  - moves ordered by a position heuristic;
  - a hand-weighted evaluation of the board.
- **The players around it**: the random player and the controller that picks between the two.
- **The Monte-Carlo tree search** of `ai_mcts.py`: the node tree, selection, expansion, random playouts and backpropagation.
- **The flat Monte-Carlo player** of `go_ai.py`: the simulation budget is split evenly between the valid moves, and the move that wins most random games is chosen.

Both boards are one `Board` class (`board.dfy`) with a `variant` field.
- `Classic` is the 19 by 19 board of `board.py`. A group with one eye is alive, and empty regions that touch the edge count as territory.
- `Mini` is the 9 by 9 board of `testMinimax.py`. A group needs two eyes or an eye of at least four points, and territory must not touch the edge.

Every method of the class is proved against a pure transition function on the value `Rules.State`. The properties of the game are then proved about those functions.

The modules, in dependency order:

| file | module | contents |
|---|---|---|
| grid.dfy | GoGrid | cells, positions, grids, the four directions, constants |
| flood.dfy | Flood | flood fill, groups and empty regions, liberties, eyes, life, territory |
| captures.dfy | Captures | capture resolution around a newly placed stone |
| group_ops.dfy | GroupOps | the loop methods: group search, liberties, eyes, life, surroundings |
| rules.dfy | Rules | the game as transitions on `State` |
| board.dfy | GoBoard | the `Board` class |
| choice.dfy | Choice | the first index holding the largest value |
| cache.dfy | GroupCache | the memo table in front of the 9 by 9 board's `get_group` |
| playout.dfy | RandomPlay | the random playout both Monte-Carlo players run, and why it never ends |
| heuristics.dfy | Heuristics | the position heuristic, the move ordering, the evaluation as a specification |
| minimax.dfy | Minimax | the `Minimax` engine, `RandomAI`, `AIController` |
| mcts.dfy | Mcts | the search tree and `MCTS.search` |
| go_ai.dfy | GoAi | `GoAI` |

## Model

| member | source | states |
|---|---|---|
| GoGrid.Opponent | board.py:186 | the enemy `3 - player` is the other player |
| GoGrid.EmptyGrid | board.py:8 | a fresh board is square and every point is empty |
| GoGrid.SetCell | board.py:212 | writing one point changes that point and no other |
| GoGrid.ClearSet | board.py:229-230 | emptying a set of stones empties exactly those points |
| GoGrid.SameGrid | board.py:199 | two boards of one size are equal when they agree at every point; this is the list comparison of the ko check |
| GoGrid.AdjSymmetric | board.py:35-36 | the four directions make adjacency symmetric |
| GoGrid.StonesMembers | board.py:123-130 | the stones of a colour are exactly the on-board points of that colour |
| Flood.Pushable | board.py:162-167 | the neighbours pushed by the flood fill are those on the board, open and not yet visited |
| Flood.DfsSound | board.py:155-168 | every point the explicit-stack fill collects is open |
| Flood.DfsClosed | board.py:155-168 | the fill is closed under adjacency and collects every open point on the stack |
| Flood.DfsLeast | board.py:155-168 | the fill lies inside every closed set that holds its start, so it is the smallest such set |
| Flood.ReachSpec | board.py:29-38 | the reached set is open, closed under adjacency, and holds the start exactly when the start is open |
| Flood.ReachLeast | board.py:29-38 | the reached set is contained in every closed set holding the start |
| Flood.ReachSame | board.py:29-38 | starting from any reached point gives the same set |
| Flood.ReachEqualOrDisjoint | board.py:29-38 | two fills are equal or disjoint |
| Flood.ReachIgnoresAvoidedBlock | board.py:150-153 | a visited set that does not touch the region does not change it |
| Flood.ReachMono | board.py:150-153 | a larger visited set gives a smaller region |
| Flood.ReachNeighbour | board.py:35-36 | the fill from an open point contains the fill from each neighbour |
| Flood.GroupSpec | board.py:22-39 | `get_group` is empty off the board or on an empty point; otherwise it holds the stone, is of the stone's colour and is closed under same-colour adjacency |
| Flood.GroupLeast | board.py:22-39 | the group lies inside every set closed under same-colour adjacency that holds the stone |
| Captures.GroupOfMember | board.py:22-39 | every stone of a group has that same group |
| Captures.CapturedWhole | board.py:217-230 | the captured points are whole enemy groups, and none of those groups has a liberty |
| Captures.CapturedSomeDirection | board.py:217-230 | a non-empty capture comes from at least one of the four neighbours |
| Captures.ClearedGroup | board.py:229-230 | removing whole enemy groups leaves the other enemy groups, and their liberty status, unchanged |
| Captures.CaptureStep | board.py:217-230 | judging each neighbour on the partly cleared board, as the loop does, finds the same dead group or one already removed |
| Captures.CaptureLoopStep | board.py:217-230 | one step of the capture loop adds the new dead group, counts its stones once and clears it |
| Captures.ClearTwice | board.py:229-230 | clearing two sets one after the other equals clearing their union |
| Captures.CapturesEffect | board.py:212-230 | after the captures the new stone is in place, every dead neighbour group is emptied, and only enemy stones of captured groups changed |
| Captures.CapturedMono | board.py:217-230 | the captured set only grows from one direction to the next |
| Captures.CapturedNeighbourEmpty | board.py:217-230 | a neighbour whose group was captured is empty afterwards |
| Captures.PlacedStoneStays | board.py:212-232 | the placed stone survives the captures and belongs to its own group |
| Captures.CaptureGivesLiberty | board.py:217-236 | a placement that captures always leaves its own group with a liberty, so it is never taken back as suicide |
| Captures.SuicideCapturesNothing | board.py:232-236 | a placement taken back as suicide captured nothing |
| Captures.SuicideRestores | board.py:232-236 | taking back a suicide restores the board exactly |
| Captures.StonesAfterClear | board.py:229-230 | clearing stones of one colour removes exactly them and leaves the other colour's stones alone |
| Captures.CaptureCount | board.py:224-228 | the captured count equals the number of enemy stones that left the board |
| Captures.StonesPlaceOther | board.py:212 | placing a stone leaves the enemy's stones as they were |
| Captures.GroupIgnoresOtherCell | testMinimax.py:187-203 | writing another point that is not of the group's colour leaves the group unchanged |
| Captures.KoGroupOnRealGrid | testMinimax.py:196-198 | in the 9 by 9 ko check, the group read on the real board equals the group on the trial board, so the trial board comes out as in `board.py` |
| GroupOps.EmptyComponent | board.py:150-168 | an empty point's region is empty points only, and every member has the same region |
| GroupOps.FreshRegion | board.py:150-168 | from an unvisited empty point, when the visited points are whole regions, `get_empty_group` finds the whole region, disjoint from them |
| GroupOps.AddRegionClosed | board.py:146 | adding a whole region keeps the visited points a union of whole regions |
| GroupOps.SurroundingAdd | board.py:170-178 | the colours around a set grow by the colours around each added point |
| GroupOps.EmptyAdjacentAdd | board.py:60-67 | the empty points next to a group grow by the empty neighbours of each added stone |
| GroupOps.GetEmptyGroup | board.py:150-168 | the loop returns the empty region of the start, avoiding visited points, and marks it visited |
| GroupOps.GetEmptyGroupStatus | testMinimax.py:131-157 | the loop returns the region, whether it touches the edge, and the colours around it |
| GroupOps.TouchesEdgeAdd | testMinimax.py:147-148 | a set touches the edge when an added point is on the edge or it already did |
| GroupOps.HasLiberties | board.py:41-50 | the loop answers true exactly when some stone has an empty on-board neighbour |
| GroupOps.GetSurroundingPlayers | board.py:170-178 | the loop returns exactly the colours of the stones next to the set |
| GroupOps.EmptyNeighbours | board.py:60-67 | the loop returns exactly the empty points next to the group |
| GroupOps.GroupMonochrome | board.py:22-39 | a stone's group holds it and is all of its colour |
| GroupOps.DistinctCard | board.py:69-78 | a list without repeats has as many members as elements |
| GroupOps.EyeScanDone | board.py:69-78 | after the scan the listed regions are exactly the group's eyes |
| GroupOps.GetEyes | board.py:52-78 | `get_eyes` lists every eye once: the empty regions next to the group that touch only its colour |
| GroupOps.NoEyeRegion | board.py:96-110 | without an eye, no region next to the group is bordered by its colour alone |
| GroupOps.IsGroupAliveClassic | board.py:80-112 | on the 19 by 19 board a group is alive exactly when it has an eye; the large-region test after it can never succeed |
| GroupOps.IsGroupAliveMini | testMinimax.py:92-94 | on the 9 by 9 board a group is alive with two eyes or an eye of at least four points |
| GroupOps.IsGroupAlive | board.py:80-112 | dispatch to the variant's rule of life |
| GroupOps.SubsetCard | testMinimax.py:94 | a subset is no larger than its superset |
| GroupOps.Recurse | testMinimax.py:48-55 | the recursive search marks only points in the group, marks the start when it is open, and is closed under same-colour adjacency |
| GroupOps.GetGroup | testMinimax.py:42-58 | the recursive search returns exactly the group of the point |
| Rules.Initial | board.py:7-14 | the initial state is well formed: an empty board of the variant's size |
| Rules.Place | board.py:207-239 | placement keeps the state well formed and the variant fixed |
| Rules.PlaceSpec | board.py:201-239 | an illegal point changes nothing; a successful placement saves the old board, puts the stone with a liberty, resets the passes and hands over the turn |
| Rules.SuicideChangesOnlyPasses | board.py:211-236 | a placement taken back as suicide leaves everything except the pass counter as it was |
| Rules.PlaceCaptureCount | board.py:216-230 | the mover's capture counter grows by the enemy stones removed, the other counter stays, and only enemy stones other than the placed point change, to empty |
| Rules.KoIsRepetition | board.py:180-199 | a ko violation is a capturing move that would recreate the last saved board, and its group would have a liberty |
| Rules.Judge | board.py:120-130 | judging one group keeps the board square |
| Rules.JudgeConserves | board.py:120-130 | removing a dead group credits exactly its stones to the opponent |
| Rules.SweepConserves | board.py:114-130 | the whole dead-group sweep keeps each player's captures plus the opponent's stones on the board constant, and only empties points |
| Rules.RemoveDead | board.py:114-130 | removing dead groups changes only the board and the counters |
| Rules.RemoveDeadConserves | board.py:114-130 | every removed stone is credited to the other player |
| Rules.Pass | board.py:241-249 | passing keeps the state well formed |
| Rules.PassSpec | board.py:241-249 | a pass saves the board, counts the pass, hands over the turn, and ends the game on the second consecutive pass; each side's captures plus the other side's stones on the board are unchanged, for Black and for White |
| Rules.TwoPassesEndGame | board.py:245-247 | two passes in a row end the game, and a first pass leaves the board and the game open |
| Rules.Undo | board.py:251-255 | undo keeps the state well formed |
| Rules.PlaceThenUndo | board.py:207-255 | undo after a placement restores the board, the history and the player |
| Rules.PassThenUndo | board.py:241-255 | undo after a first pass restores the whole state |
| Rules.GameOverFreezes | board.py:205 | after the game ends, placement, passing and undo change nothing |
| Rules.Score | board.py:266-270 | White's score minus Black's is White's captures and territory plus komi, minus Black's captures and territory |
| Rules.KomiBreaksTies | board.py:269 | whole-number captures and territory can never tie with komi 6.5 |
| Rules.Winner | board.py:272-281 | the game is in progress exactly while it is not over; a win carries the positive margin between the scores |
| Rules.TerritoryRegions | board.py:132-148 | territory consists of whole empty regions |
| Rules.TerritoryDisjoint | board.py:142-145 | no point is territory of both players |
| Rules.MiniTerritoryInterior | testMinimax.py:122-127 | 9 by 9 territory is 19 by 19-style territory that does not touch the edge |
| Rules.RowStep | go_ai.py:11-15 | one more point of a row extends the found moves in row-major order |
| Rules.RowsStep | go_ai.py:10-16 | one more row extends the found moves in row-major order |
| Rules.MovesFromMembers | testMinimax.py:283-288 | the row-major scan from a point lists exactly the placeable points from there on |
| Rules.MovesFromOrdered | testMinimax.py:283-288 | the scan lists its moves in row-major order |
| Rules.LegalMovesSpec | testMinimax.py:283-290 | a point is a legal move exactly when a stone can be placed there; the list is in row-major order and is empty once the game is over |
| GoBoard.ClearCells | board.py:229-230 | the loop that empties a group's stones yields the board with those points cleared |
| GoBoard.Shuffle | testMinimax.py:289 | the shuffle returns a permutation of its input |
| GoBoard.ResolveCaptures | board.py:216-230 | the capture loop yields the board with the dead groups cleared and their stone count |
| GoBoard.PlaceOnGrid | board.py:212-233 | the placement yields the board after the captures, their count, and whether the stone's group has a liberty |
| GoBoard.JudgeAt | board.py:120-130 | judging the group at a point yields the effect of `Judge` |
| GoBoard.JudgeOutcome | board.py:122-129 | a live group is left alone; a dead one is cleared and its size credited to the opponent of its colour |
| GoBoard.TrialCaptures | board.py:184-197 | the ko check's trial board is the board after the captures, and a capture is flagged exactly when there was one |
| GoBoard.TerritoryScanDone | board.py:132-148 | the row-by-row scan yields exactly each player's territory |
| GoBoard.RegionTerritory | board.py:139-146 | a region is either all territory of a colour or none of it |
| GoBoard.Board.constructor | board.py:7-14 | a new board is the initial state of its variant |
| GoBoard.Board.Copy | ai_mcts.py:65 | a deep copy is a new board with the same state |
| GoBoard.Board.IsValidPosition | board.py:16-17 | true exactly on the board |
| GoBoard.Board.IsEmpty | board.py:19-20 | true exactly when the point holds no stone |
| GoBoard.Board.IsKoViolation | board.py:180-199 | the check answers `KoViolation` on the current board and history |
| GoBoard.Board.CanPlaceStone | board.py:201-205 | the check answers `CanPlace` on the current state |
| GoBoard.Board.PlaceStone | board.py:207-239 | the flag and the new state are those of `Rules.Place` on the old state |
| GoBoard.Board.RemoveDeadGroups | board.py:114-130 | the new state is `Rules.RemoveDead` of the old one |
| GoBoard.Board.JudgeGroup | board.py:120-130 | judging one group changes only the board and the counters, as `Judge` says |
| GoBoard.Board.Undo | board.py:251-255 | the new state is `Rules.Undo` of the old one |
| GoBoard.Board.PassTurn | board.py:241-249 | the new state is `Rules.Pass` of the old one |
| GoBoard.Board.Reset | board.py:257-264 | the new state is the initial state of the variant |
| GoBoard.Board.GetTerritory | board.py:132-148 | the scan returns exactly each player's territory |
| GoBoard.Board.ScanRegion | testMinimax.py:121-127 | the scanned region is the point's region, and it is credited to a colour exactly as `Credited` says |
| GoBoard.Board.CalculateScore | board.py:266-270 | the scores are those of `Rules.Score` |
| GoBoard.Board.GetWinner | board.py:272-281 | the outcome is that of `Rules.Winner` |
| GoBoard.Board.LegalInRow | testMinimax.py:285-288 | one row of the scan yields that row's legal moves in order |
| GoBoard.Board.GetLegalMoves | testMinimax.py:283-290 | the moves are a permutation of the legal moves, in row-major order on the board without the shuffle |
| Choice.FirstMax | go_ai.py:53 | the chosen index is within the list |
| Choice.FirstMaxSpec | go_ai.py:53 | the chosen value is at least every value and strictly above every earlier one, as `max` returns the first maximum |
| Choice.FirstMaxUnique | go_ai.py:53 | that property determines the index |
| GroupCache.CachedGroup | testMinimax.py:41-42 | the lookup returns the stored entry or stores the computed group; old entries never change |
| GroupCache.CachedGroupCoherent | testMinimax.py:41-58 | while the board is unchanged, the table answers like `get_group` and stays correct |
| GroupCache.DeadAtCached | testMinimax.py:219-224 | place_stone's test of a neighbour through the table: a group it returns has no liberty on the current board |
| GroupCache.DeadAtCachedCoherent | testMinimax.py:219-224 | with a correct table the test removes exactly what the uncached test removes |
| GroupCache.StaleGroupCapture | testMinimax.py:211-233 | after Black (0,0), White (8,8), Black (0,1), White (1,0), the table's stale group {(0,0)} is judged dead; the real group {(0,0),(0,1)} has a liberty and `DeadAt` removes nothing |
| Heuristics.EvaluatePosition | testMinimax.py:326-331 | a point is worth 3.0, 2.0 or 1.0 |
| Heuristics.EvaluatePositionSpec | testMinimax.py:326-331 | a point is worth more than the centre value exactly on the edge and the corner value exactly at the four corners; the value is symmetric under transposition and reflection |
| Heuristics.WithWeightMembers | testMinimax.py:388 | the moves of one weight are exactly the moves of that heuristic value |
| Heuristics.SortPermutation | testMinimax.py:388 | sorting by heuristic is a permutation |
| Heuristics.SortNonIncreasing | testMinimax.py:388 | sorted moves have non-increasing heuristic value |
| Heuristics.SortStable | testMinimax.py:388 | moves of equal value keep their relative order, as Python's sort is stable |
| Heuristics.CountDirs | testMinimax.py:360-363 | at most one same-colour neighbour per direction is counted |
| Heuristics.SumOverRemove | testMinimax.py:353-358 | a sum over a group splits off any one stone |
| Heuristics.SumOverNonNegative | testMinimax.py:353-354 | liberty counts, position values and link counts are never negative |
| Heuristics.GroupBonusSign | testMinimax.py:356-366 | the bonuses of a group of the side to move are non-negative in total, and those of an opposing group non-positive |
| Heuristics.EmptyScan | testMinimax.py:348-352 | an empty board earns no group bonuses |
| Heuristics.NoTerritory | board.py:132-148 | an empty board has no territory |
| Heuristics.EvaluateInitial | testMinimax.py:337-368 | the evaluation of the initial position is minus komi |
| Minimax.ExtMax | testMinimax.py:400 | `max` with infinities is an upper bound that is one of its arguments |
| Minimax.ExtMin | testMinimax.py:414 | `min` with infinities is a lower bound that is one of its arguments |
| Minimax.ScanSnoc | testMinimax.py:393-402 | one more child evaluation is one more step of the loop |
| Minimax.UncutSnoc | testMinimax.py:401-402 | a child after which there is no cut-off extends a run of children without cut-off |
| Minimax.ChildrenValuedSnoc | testMinimax.py:393-396 | one more explored child with a score as `Valued` says extends the record of explored children |
| Minimax.ChildValuedAt | testMinimax.py:393-396 | every recorded child, not only the last, has its score as `Valued` says |
| Minimax.ScanBest | testMinimax.py:393-418 | the loop's result is some explored child's value and move; the child is no worse than every explored child and strictly better than every earlier one |
| Minimax.ScanSpec | testMinimax.py:393-418 | the same as an existence statement |
| Minimax.ScanBounds | testMinimax.py:400-414 | the maximiser's alpha ends as the larger of alpha and the best value, the minimiser's beta as the smaller of beta and the best value; the other bound is unchanged |
| Minimax.ExploredAll | testMinimax.py:401-416 | without a cut-off every move was explored |
| Minimax.SumTerm | testMinimax.py:353-358 | the loop over a group returns the set sum |
| Minimax.Connectivity | testMinimax.py:359-363 | the connectivity bonus is the player factor times 0.4 per same-colour link of the group |
| Minimax.AddLinks | testMinimax.py:360-363 | the direction loop adds the factor times 0.4 per same-colour neighbour |
| Minimax.GroupBonusOf | testMinimax.py:353-366 | the five bonuses of one group are those of `GroupBonus` |
| Minimax.EvalScanCell | testMinimax.py:350-352 | a stone not covered by an earlier group starts a new group |
| Minimax.ScannedStep | testMinimax.py:350-366 | one point of the scan moves the accumulated bonuses on |
| Minimax.ScanRow | testMinimax.py:349-366 | one row of the scan moves the accumulated bonuses on |
| Minimax.ScanDone | testMinimax.py:348-368 | after the last row the bonuses are those of the whole scan |
| Minimax.Engine.constructor | testMinimax.py:322-324 | a new engine has the given depth and an empty table |
| Minimax.Engine.EvaluateBoard | testMinimax.py:337-368 | `evaluate_board` returns `Evaluate`: the score difference from the side to move plus the five bonuses of every group |
| Minimax.Engine.Minimax | testMinimax.py:370-418 | a table hit returns the stored score and no move; a leaf returns its evaluation; a position without moves returns the evaluation after a pass; otherwise the moves are explored in heuristic order until a cut-off, the best legal move is returned, the score is stored and the board is unchanged; each explored child's score is, as `Valued` says, the score stored for it, or its evaluation when it is a leaf or a finished game, or its evaluation after a pass when it has no move; a search that misses the table keeps every earlier entry |
| Minimax.Engine.EvaluateAfterPass | testMinimax.py:381-384 | the score is the evaluation after a pass, and the board is left as undo leaves it |
| Minimax.Engine.SearchMoves | testMinimax.py:388-418 | the moves sorted by heuristic are explored until a cut-off, the result is the loop's best, a legal move, and each explored child's score is as `Valued` says; earlier table entries stay |
| Minimax.Engine.SearchChildren | testMinimax.py:390-418 | the loop explores children in order, stops at the first cut-off, its result is `Scan` of the scores, and each child's score is as `Valued` says for the table before that child; earlier table entries stay |
| Minimax.Engine.Child | testMinimax.py:393-401 | one turn of the loop: the child's score is as `Valued` says for the position after the move, searched one level less deep, and the best value, move, alpha and beta move on by one `Step`; earlier table entries stay |
| Minimax.PassUndo | testMinimax.py:381-384 | the pass minimax undoes leaves the board unchanged after no earlier pass, and game over exactly when the opponent had just passed, since undo does nothing once the game has ended |
| Minimax.Engine.GetBestMove | testMinimax.py:420-424 | as written: a position already in the table gives no move; otherwise, with depth and moves, a legal move from a full alpha-beta search with White maximising, each root child scored as `Valued` says. Earlier table entries stay. On a miss with no move, the board is unchanged at depth 0 or after the end, and otherwise it is left after the undone pass, which is game over exactly when the opponent had just passed |
| Minimax.Engine.AskTwice | testMinimax.py:371-373 | asking the same engine twice about the same position gives a move and then none |
| Minimax.Engine.GetBestMoveFresh | testMinimax.py:420-424 | corrected: no move exactly when the depth is 0 or there is no legal move; otherwise the move of a full search, legal, with the board unchanged and each root child scored as `Valued` says; without a move the board is unchanged at depth 0 or after the end, and otherwise it is left after the undone pass, game over exactly when the opponent had just passed; the root is stored |
| Minimax.RandomAI.GetBestMove | testMinimax.py:431-435 | no move exactly when there is no legal move; otherwise a legal move |
| Minimax.AIController.Create | testMinimax.py:439-445 | a controller exists exactly for "minimax" or "random", with a fresh engine of the given depth for "minimax" |
| Minimax.AIController.GetBestMove | testMinimax.py:447-448 | as written, handing over to the held player: the move is legal; the random player gives none exactly when there is no legal move; the engine gives none for a position already in its table, and otherwise, at depth 1 or more, none exactly when there is no legal move. The board is unchanged after a move, a random answer or a hit. After an engine's miss with no move, it is unchanged at depth 0 or after the end, and otherwise it is left after the undone pass, game over exactly when the opponent had just passed. The engine's table keeps its entries and gains the root |
| Minimax.AIController.GetBestMoveFresh | testMinimax.py:447-448 | corrected, with the engine's table emptied first: the move is legal, and for the random player or an engine of depth 1 or more it is missing exactly when there are no legal moves; the board afterwards is as for `GetBestMove` on a miss, and the root is stored |
| Mcts.AncestorsBelow | ai_mcts.py:74-78 | backpropagation only visits the node and earlier nodes |
| Mcts.RootIsAncestor | ai_mcts.py:74-78 | backpropagation always reaches the root |
| Mcts.BumpOne | ai_mcts.py:76-77 | crediting one node adds one visit and the result to its wins |
| Mcts.BumpKeeps | ai_mcts.py:74-78 | backpropagation keeps the tree's shape and never gives a node more wins than visits |
| Mcts.FinishedIsExpanded | ai_mcts.py:18-20 | a node whose game is over is fully expanded |
| Mcts.SimResult | ai_mcts.py:38-39 | a playout result is 0 or 1 |
| Mcts.SimResultWinner | ai_mcts.py:38-39 | the result is 1 exactly when the player not to move at the end won |
| Mcts.RootChoiceSpec | ai_mcts.py:53-54 | a move is chosen exactly when the root has children; it is a legal move of a most visited child, the first one of them |
| Mcts.Rollout | ai_mcts.py:29-39 | corrected with a move budget: the final position is reached from the start by at most `fuel` playout turns, each a legal move, or a pass when there is none, and the playout stopped because the game is over or the budget is spent; the result is that position's |
| Mcts.Tree.constructor | ai_mcts.py:47 | a new tree is a single root node holding the position |
| Mcts.Tree.Backpropagate | ai_mcts.py:74-78 | every node from the given one up to the root gets one more visit and the result, and nothing else changes |
| Mcts.Tree.Select | ai_mcts.py:57-60 | selection stops at a node without children or not fully expanded, and stays at the root when it has no children |
| Mcts.Tree.Expand | ai_mcts.py:62-69 | with a legal move the node gets one new last child; without one the tree is unchanged |
| Mcts.Tree.SimulateOnce | ai_mcts.py:56-72 | one round: the selected node has no children or is not fully expanded; with a legal move it gets one new last child, the leaf, and otherwise the leaf is the selected node; a budgeted playout from the leaf's position ends in `final`; and the leaf and each of its ancestors, and no other node, get one more visit and that playout's result; a childless root gets a child exactly when it has a legal move |
| Mcts.AppendKeeps | ai_mcts.py:65-68 | appending a child made by a legal move keeps the tree well formed |
| Mcts.Search | ai_mcts.py:46-54 | after the rounds the root has that many visits; a move is returned exactly when there was a round and a legal move; it is the root's choice and legal |
| RandomPlay.PlayoutSnoc | go_ai.py:21-27 | one more playout turn extends a playout |
| RandomPlay.InitialLive | board.py:7-14 | the new game is in play: the game is on, a point is empty and no pass was made |
| RandomPlay.NoKoAfterPass | board.py:180-205 | right after a pass the last saved board is the board itself, so no placement is a ko and every empty point is a legal move |
| RandomPlay.PlaceLive | board.py:207-239 | a legal placement, successful or a suicide, resets the pass count and leaves an empty point, so the game stays in play |
| RandomPlay.PassLive | board.py:241-249 | in a game in play a pass is made only without a legal move, hence not right after a pass, and does not end the game |
| RandomPlay.StepLive | go_ai.py:21-27 | each turn of a playout keeps the game in play |
| RandomPlay.LiveAt | go_ai.py:21-27 | every position of a playout from a position in play is in play |
| RandomPlay.PlayoutNeverEnds | go_ai.py:21-27 | as written: however many turns a playout from a position in play runs, the game is never over and no two passes follow each other, so `while not game_over` never exits |
| RandomPlay.PlayedOutSpendsFuel | ai_mcts.py:31-37 | from a position in play, a budgeted playout always stops because its budget is spent, never because the game ended |
| GoAi.GameWinner | go_ai.py:27-29 | Black wins the playout exactly when Black's score is strictly higher |
| GoAi.GameWinnerSpec | go_ai.py:27-29 | on a finished game the playout verdict is the winner `get_winner` reports |
| GoAi.Share | go_ai.py:42-44 | each move's share is the budget divided evenly, rounded down |
| GoAi.Wins | go_ai.py:47-51 | a move never wins more playouts than it played |
| GoAi.GoAI.constructor | go_ai.py:6-7 | the player keeps its difficulty |
| GoAi.GoAI.GetValidMoves | go_ai.py:9-16 | the nested loop returns the legal moves in row-major order |
| GoAi.GoAI.SimulateRandomGame | go_ai.py:18-29 | corrected with a move budget: the final position is reached from the board's position by at most `fuel` playout turns, each a valid move, or a pass when there is none, stopping when the game is over or the budget is spent; the verdict is that position's winner |
| GoAi.GoAI.Rollouts | go_ai.py:45-51 | one move's share of games are played, each a budgeted playout from the position after the move, and the wins of the side to move are counted |
| GoAi.AllPlayedOutSnoc | go_ai.py:46-49 | one more game played out from the same position extends the games of a move |
| GoAi.ScoredStep | go_ai.py:45-51 | scoring one more move keeps the record of shares, tallies and games of the moves before it |
| GoAi.GoAI.ScoreMoves | go_ai.py:44-51 | every move gets its share of games, each played out after the move, and its tally of wins of the side to move |
| GoAi.GoAI.GetBestMove | go_ai.py:31-54 | no move exactly when there is no valid move; otherwise a valid move; above difficulty 3, each move plays its share of games, each a budgeted playout from the position after that move, scores the games the side to move won, and the first move with the most wins is chosen |

## Left out

- Printing, the terminal game loop (`GoGame`, `print_board`), the `GameController` wrapper and the graphical front end (`render.py`, `main.py` and the other GUI files) are not part of this model.
- The `asyncio` concurrency of the minimax player and of `MCTS.search` is not modelled. The rounds and searches run one after another, which is the order the single-threaded event loop gives them.
- `random.choice` and `random.shuffle` are nondeterministic choices: any legal move, or any permutation. No probability distribution is modelled.
- Float arithmetic is modelled as exact `real` arithmetic. The evaluation's sums therefore have no rounding, and infinities are the `Ext` type.
- Mcts.Tree.Select: the UCB1 score of `best_child` (square roots and logarithms over floats) is not modelled, so selection may descend to any child.
- Mcts.Tree.Expand: like the source, it may pick a move already tried from that node; it does not promise an untried move.
- Mcts.Rollout: the source's playout loop never ends (see Findings). The model bounds it by a move budget `fuel`, and a playout that spends its budget is scored as it stands.
- GoAi.GoAI.SimulateRandomGame: bounded by a move budget in the same way, since the source's random game never ends either.
- GoAi.GoAI.Rollouts: in the source each game is a `simulate_random_game` that never returns, so the loop over a move's share never finishes. The model plays budgeted games.
- GoAi.GoAI.GetBestMove: above difficulty 3 the share of each move is at least one game, so the source never returns. The model's contract describes the move chosen after budgeted games. At difficulty 3 or less it returns a random valid move, as the source does.
- Mcts.Tree.SimulateOnce: the model's round uses the budgeted playout. In the source the first round already fails on the 19 by 19 board that `ai_mcts.py` imports (ai_mcts.py:6). That board has no `get_legal_moves`, so the call at ai_mcts.py:62 raises `AttributeError`. On a board that has the method (testMinimax.py:283, or the model's scan), the round never finishes, because its playout never ends.
- Mcts.Search: `max` over an empty child list raises `ValueError` in the source (no rounds, or no legal move at the root); the model returns None. With at least one round, on the imported 19 by 19 board, `asyncio.gather` (ai_mcts.py:51) passes on the `AttributeError` of the first round, so `search` raises. Only on a board that has `get_legal_moves` does the search never return, since its playouts never end. The model's rounds use budgeted playouts.
- GoBoard.Board.GetLegalMoves: on the 9 by 9 board the result is only a permutation of the legal moves, since the source shuffles it.
- `get_legal_moves` is called on the 19 by 19 board by `ai_mcts.py`, but `board.py` does not define it, so the source's search raises `AttributeError` there. The model gives that board the same row-major scan as the 9 by 9 board, without the shuffle, and models the search on it.
- Minimax.Engine.Minimax: each explored child's score is tied to its position by `Valued`: the stored score, or its evaluation at depth 0, at the end of the game, or after a pass. When the child is searched further, the parent's contract does not spell out that the score is that search's best value, and no separate game-tree function defines the minimax value. The engine works on the 9 by 9 board only, as in the source.
- Minimax.AIController.Create: an unknown AI type raises `ValueError` in the source; here it returns `None`.
- GoBoard.Board.PlaceStone: on the 9 by 9 board the source finds the placed stone's group and its neighbours' groups through the memoised `get_group` (testMinimax.py:223, 233). The model uses the uncached group, which is the corrected behaviour of the first "## Findings" row. The stale table is modelled only for the neighbour test, in `GroupCache`.
- GoBoard.Board.IsKoViolation: the 9 by 9 source reads the memoised `get_group` (testMinimax.py:198); the model uses the uncached group.
- GoBoard.Board.RemoveDeadGroups: the 9 by 9 source reads the memoised `get_group` (testMinimax.py:103); the model uses the uncached group.
- Minimax.Engine.EvaluateBoard: the source reads the memoised `get_group` (testMinimax.py:351); the model's evaluation uses the uncached group.
- GroupCache.CachedGroup: the cache's size bound of 1024 entries and its least-recently-used eviction are not modelled. An evicted entry is recomputed, so eviction only makes the stale-entry problem rarer.
- `copy.deepcopy` of a board is `GoBoard.Board.Copy`; grids are values. The search tree's nodes and `simulate`'s playout hold board states as values, so the model does not capture aliasing between them.

## Findings

| source | as written | input that shows it | evidently intended | confidence | as-written member | corrected member |
|---|---|---|---|---|---|---|
| testMinimax.py:41-42 | `get_group` is memoised on the board object and the point, so after later moves it can return a group computed on an older board | Black (0,0), White (8,8), Black (0,1), White (1,0): the neighbour test for (0,0) gets the stale {(0,0)}, finds no liberty, and the black stone is removed although its group {(0,0),(0,1)} has the liberty (0,2) | the group on the current board, as in `board.py` | not executed | GroupCache.StaleGroupCapture | Captures.CapturedWhole |
| testMinimax.py:371-373, 420-424 | the transposition table lives as long as the engine, and a hit returns no move, so a position the engine has already stored gets no move at the root | an engine of depth 1 or more asked twice about the same position that has a legal move: the first call returns a move, the second returns none and the player passes | a table that does not answer for the root, or is cleared for each `get_best_move` | not executed | Minimax.Engine.AskTwice | Minimax.Engine.GetBestMoveFresh |
| go_ai.py:21-27 | `simulate_random_game` plays until `game_over`, which only two passes in a row set. A pass happens only when no move is valid. Right after a pass the last saved board is the board itself, so no placement is a ko and every empty point is valid. A board in play always has an empty point, and every placement, even a suicide, resets the pass count (board.py:213). So the loop never exits | any position in play, such as the empty board: the game never ends, so `get_best_move` above difficulty 3 never returns | a random game that ends, for instance after a move limit | not executed | RandomPlay.PlayoutNeverEnds | GoAi.GoAI.SimulateRandomGame |
| ai_mcts.py:31-37 | `simulate` has the same loop, on the same board rules, and never exits either, on a board that has `get_legal_moves`. The 19 by 19 board that `ai_mcts.py` imports lacks that method, so there the first round raises `AttributeError` at ai_mcts.py:62 before any playout | a position in play on a board with `get_legal_moves` (testMinimax.py:283), with at least one simulation: `simulate_once` never finishes, so `MCTS.search` never returns | a playout that ends, for instance after a move limit | not executed | RandomPlay.PlayoutNeverEnds | Mcts.Rollout |
