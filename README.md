# Owale rules engine and move search, in Dafny

This project models the core of Owale, a Java Awalé variant. The board has 16 holes,
and each hole holds blue and red seeds. Player 1 plays the even holes and Player 2 the odd ones.

- Blue seeds are sown one per hole around the ring, skipping the origin.
- Red seeds go only to holes of the opposite parity: origin+1, origin+3, and so on.
- Capture walks backward from the landing hole itself. It empties every hole that holds 2 or 3 seeds, up to the first hole that does not.
- The game ends when a player reaches 33 seeds, at 32-32, when fewer than 8 seeds remain on the board, or when the player to move has no seed in their row.

The model has these modules:

- `Rules`: the rules as pure functions on a board value (`BoardState`).
  - A hole is a pair of counts (blue, red), since a seed is only a colour tag.
  - The module holds sowing, capture, the sweep of remaining seeds, checkGameStatus and evaluateBoard.
  - It proves seed conservation (64 in all), monotone scores, the capture run's shape, and the priority of the end-of-game rules.
- `HoleArray`: the in-place loops shared by both board classes, proved against `Rules`. These are take, blue sowing, red sowing, capture and the half sweep.
- `Elements.Board`: the current board class (game/elements/Board.java). Its methods mutate an `array<Hole>` and the score fields, and each one's new state is tied to a `Rules` function.
- `Common.AwaleBoard`: the legacy board (common/AwaleBoard.java), which has the `isGameOver` field. Its stuck test uses the index halves 0..7 and 8..15. One lemma shows that this differs from the parity-row test of the current board.
- `Search`: the minimax of the five board-based AI managers (Ultimate, New, Test, Alex, Nolan). It is one recursive function on board values, and the variant's choices are passed as parameters: maximizing side, forced player, immediate-win test, move ordering, time limit and depth table.
  - `Board.copy()` becomes passing a value, so no search can change the caller's board.
  - The properties proved are: alpha-beta cut-offs, sentinel values, no escaping exception, the random fallback kept unless a move is strictly better, the clock only running down, and move enumeration as a sorted permutation.
- `Managers.AIManager`: the manager class with its `currentDepth` field. Its methods (optimizeDepth, getAllPossibleMoves, findRandomMove, calculateEndHole, evaluateMoveQuality, findBestMove, findBestMoveOld, findMove) are loops proved against `Search`.
- `IntBoard`, `CommonAI`, `FirstAI`: the two older searches on the integer array (common/AIManager.java and AIManager.java).
  - They cover simulated sowing with no origin skip and capture confined to the landing hole's half.
  - Alpha-beta is proved fail-soft sound against plain minimax.
  - The root loops are proved to pick a best candidate, first of equals.
- `Moves`: Move.toString, with its decoding and round trip.
- `Console`: the console move parser of Game.processConsoleMove, parseColor and getCurrentPlayer.

The wall clock, `Math.random` and the helpers the repository references but does not show become parameters:

- The clock is a number of time checks that still pass, `ticks`.
- The random draws are finite sequences of draws.
- evaluateBoardHeuristicUltimate is a function parameter.
- NUM_HOLES is the parameter `half`.
- sowSeedsForSimulation is the captured count of a legal sowing (0 for a refused one).
- forceCurrentPlayer sets the current player.

## Model

| member | source | states |
|---|---|---|
| Rules.InitialBoard | src/main/java/fr/ai/game/programming/game/elements/Board.java:26-40 | The starting board has two blue and two red seeds in every hole and no captured seeds, so holes plus scores make 64. |
| Rules.Opponent | src/main/java/fr/ai/game/programming/game/elements/Board.java:53-55 | The other player is 2 exactly when the player is 1, and is always 1 or 2. |
| Rules.PlayerHoles | src/main/java/fr/ai/game/programming/game/elements/Board.java:304-308 | A player's row is eight distinct holes in increasing order, all of the player's parity (even for Player 1, odd for Player 2), and it contains every hole of that parity. |
| Rules.HasMoveInRow | src/main/java/fr/ai/game/programming/game/elements/Board.java:95-116 | A player has a move exactly when some hole of the player's parity row is non-empty. |
| Rules.SowBlueShare | src/main/java/fr/ai/game/programming/game/elements/Board.java:194-205 | After blue sowing of n seeds, each hole holds its old seeds plus the closed-form number of blue seeds it receives: one per lap of the 15 other holes, plus one more if it is among the first n mod 15 holes after the origin. |
| Rules.SowRedShare | src/main/java/fr/ai/game/programming/game/elements/Board.java:213-220 | After red sowing of n seeds, each hole holds its old seeds plus the closed-form number of red seeds it receives: one per lap of the 8 holes origin+1, origin+3, and so on, plus one for each of the first n mod 8 of them. |
| Rules.SowBlueSum | src/main/java/fr/ai/game/programming/game/elements/Board.java:194-205 | Blue sowing adds exactly n seeds to the board. |
| Rules.SowRedSum | src/main/java/fr/ai/game/programming/game/elements/Board.java:213-220 | Red sowing adds exactly n seeds to the board. |
| Rules.BlueSowing | src/main/java/fr/ai/game/programming/game/elements/Board.java:194-205 | Blue sowing never drops a seed into the origin, and the landing hole is never the origin. With at most 15 seeds, exactly the n holes after the origin gain one blue seed, and the landing hole is the n-th of them. |
| Rules.RedSowing | src/main/java/fr/ai/game/programming/game/elements/Board.java:213-220 | Red sowing never changes a hole of the origin's parity. The landing hole has the opposite parity and is the target of the last seed. |
| Rules.SpreadKeepsSeeds | src/main/java/fr/ai/game/programming/game/elements/Board.java:160-167 | Taking the chosen colour and sowing it keeps the seed total. It removes exactly that colour's seeds from the origin and leaves its other colour. A move that sows anything does not land on the origin. |
| Rules.CaptureSum | src/main/java/fr/ai/game/programming/game/elements/Board.java:228-254 | Capture moves seeds from the holes to the credited count and loses none. |
| Rules.CaptureLength | src/main/java/fr/ai/game/programming/game/elements/Board.java:228-254 | The capture run is no longer than the number of holes holding 2 or 3 seeds, so at most 16. |
| Rules.CaptureClears | src/main/java/fr/ai/game/programming/game/elements/Board.java:228-254 | Every hole of the backward run that starts at the landing hole held 2 or 3 seeds and is emptied. A capture happens exactly when the landing hole itself holds 2 or 3 seeds. |
| Rules.CaptureKeeps | src/main/java/fr/ai/game/programming/game/elements/Board.java:228-254 | Every hole outside the capture run is left as it was. |
| Rules.CaptureStops | src/main/java/fr/ai/game/programming/game/elements/Board.java:228-254 | A run shorter than the ring ends just before a hole that does not hold 2 or 3 seeds. |
| Rules.Sow | src/main/java/fr/ai/game/programming/game/elements/Board.java:148-170 | A move is played exactly when it is legal: the hole is on the board, it holds the colour, and its parity is the current player's. Otherwise it is refused, and a hole off the board is refused as out of range. The current player is unchanged. |
| Rules.SowConserves | src/main/java/fr/ai/game/programming/game/elements/Board.java:148-170 | A legal move keeps holes plus scores at 64. Neither score decreases, the scores grow by exactly the captured seeds, and only the mover's score changes. |
| Rules.Sweep | src/main/java/fr/ai/game/programming/game/elements/Board.java:256-268 | captureRemainingSeeds(1) empties holes 0..7 and captureRemainingSeeds(2) empties holes 8..15; the other index half and the current player are unchanged. |
| Rules.SweepConserves | src/main/java/fr/ai/game/programming/game/elements/Board.java:256-268 | The sweep keeps the total of 64 and credits only the sweeping player's score, which does not decrease. |
| Rules.StatusConserves | src/main/java/fr/ai/game/programming/game/elements/Board.java:65-127 | checkGameStatus keeps the total of 64, never lowers a score and keeps the current player. It changes the board only under the no-move rule, and the game is over exactly when a winner or a draw is named. |
| Rules.StatusPriority | src/main/java/fr/ai/game/programming/game/elements/Board.java:73-126 | The rules apply in this order. Player 1 at 33 or more wins by threshold, then Player 2 at 33 or more. Then 32 each is a draw by even split. Then fewer than 8 seeds on the board go to the leader, with the board unchanged. Then a mover without a move ends the game: the opponent sweeps their index half, and the leader of the swept board wins. The game is not over exactly when none of these holds. |
| Rules.CheckStatus | src/main/java/fr/ai/game/programming/game/elements/Board.java:65-127 | Specification function with no contract of its own. Rules.StatusPriority gives its result in each case, and Rules.StatusConserves states what it keeps. |
| Rules.NoMoveSweepsIndexHalf | src/main/java/fr/ai/game/programming/game/elements/Board.java:119-124 | When the mover has no move, the opponent's index half is swept into the opponent's score: holes 8..15 for Player 2 when Player 1 is stuck, and holes 0..7 for Player 1 when Player 2 is stuck. |
| Rules.Evaluate | src/main/java/fr/ai/game/programming/game/elements/Board.java:275-285 | evaluateBoard is Integer.MAX_VALUE when Player 2 has no move, otherwise Integer.MIN_VALUE when Player 1 has none, otherwise Player 1's score minus Player 2's. |
| Rules.EvaluateSentinels | src/main/java/fr/ai/game/programming/game/elements/Board.java:275-285 | On a board holding 64 seeds, the two sentinels occur exactly in those cases, and the score difference lies within -64..64. |
| Rules.IsWinningState | src/main/java/fr/ai/game/programming/game/elements/Board.java:129-143 | Specification predicate with no contract of its own: the opponent of the player has no seed in their parity row. Rules.Evaluate states the sentinels it yields. |
| HoleArray.TakeSeeds | src/main/java/fr/ai/game/programming/game/elements/Board.java:172-186 | takeSeedsFromHole removes every seed of the colour from the hole, leaves the other colour and every other hole unchanged, and returns the number of seeds removed. |
| HoleArray.SowBlueSeeds | src/main/java/fr/ai/game/programming/game/elements/Board.java:194-205 | The sowing loop leaves the array equal to the blue sowing of the board and returns its landing hole. |
| HoleArray.SowRedSeeds | src/main/java/fr/ai/game/programming/game/elements/Board.java:213-220 | The sowing loop leaves the array equal to the red sowing of the board and returns its landing hole. |
| HoleArray.CaptureSeeds | src/main/java/fr/ai/game/programming/game/elements/Board.java:228-254 | The capture loop leaves the array equal to the capture run's board and returns the seeds it captured. |
| HoleArray.SweepHalf | src/main/java/fr/ai/game/programming/game/elements/Board.java:256-268 | The sweep empties the eight holes of the half and leaves the others. It returns the seeds they held. |
| Elements.Board.constructor | src/main/java/fr/ai/game/programming/game/elements/Board.java:26-40 | The new board is the initial board, with Player 1 or Player 2 to start as the coin says. |
| Elements.Board.HasSeeds | src/main/java/fr/ai/game/programming/game/elements/Board.java:42-44 | hasSeeds is true exactly when the hole holds a seed of the colour. |
| Elements.Board.SwitchPlayer | src/main/java/fr/ai/game/programming/game/elements/Board.java:53-55 | The turn passes to the other player and nothing else changes. |
| Elements.Board.SeedsOnBoard | src/main/java/fr/ai/game/programming/game/elements/Board.java:66-70 | The counting loop returns the number of seeds on the board. |
| Elements.Board.HasValidMove | src/main/java/fr/ai/game/programming/game/elements/Board.java:102-116 | The scan of a player's parity row finds a move exactly when the player has one. |
| Elements.Board.CheckGameStatus | src/main/java/fr/ai/game/programming/game/elements/Board.java:65-127 | checkGameStatus returns the status of the rules in priority order and leaves the board as the no-move rule leaves it. |
| Elements.Board.IsWinningState | src/main/java/fr/ai/game/programming/game/elements/Board.java:129-143 | isWinningState is the test of the winning-state rule on the current board. |
| Elements.Board.SowSeeds | src/main/java/fr/ai/game/programming/game/elements/Board.java:148-170 | An illegal move throws with the reason and changes nothing. A legal move leaves the board as sowing and capture leave it. |
| Elements.Board.CaptureSeeds | src/main/java/fr/ai/game/programming/game/elements/Board.java:228-254 | The capture run's seeds are removed from the holes and credited to the given player. |
| Elements.Board.CaptureRemainingSeeds | src/main/java/fr/ai/game/programming/game/elements/Board.java:256-268 | The board becomes the sweep of the player's index half. |
| Elements.Board.EvaluateBoard | src/main/java/fr/ai/game/programming/game/elements/Board.java:275-285 | evaluateBoard returns the evaluation with its two sentinels. |
| Elements.Board.Copy | src/main/java/fr/ai/game/programming/game/elements/Board.java:287-297 | The copy is a fresh board with fresh hole storage and the same holes, scores and current player. Mutating it cannot reach the original. |
| Common.GameOverConserves | src/main/java/fr/ai/game/programming/common/AwaleBoard.java:65-119 | checkGameOver keeps the total of 64, never lowers a score and keeps the current player. It changes the board only when a player is stuck on their index half, and then the game is over. |
| Common.GameOver | src/main/java/fr/ai/game/programming/common/AwaleBoard.java:65-119 | checkGameOver keeps the player to move. It changes the board only when the game is over because the mover is stuck on their index half. |
| Common.GameOverAgreesBeforeMoveRule | src/main/java/fr/ai/game/programming/common/AwaleBoard.java:74-93 | When one of the first four rules applies, checkGameOver ends the game without touching the board, as checkGameStatus does. |
| Common.HalfTestDiffersFromParityTest | src/main/java/fr/ai/game/programming/common/AwaleBoard.java:96-114 | The stuck test on index halves differs from the parity-row test of checkGameStatus. On a board whose only seeds lie in hole 8, with Player 1 to move, one version declares the game over and the other does not. |
| Common.AwaleBoard.constructor | src/main/java/fr/ai/game/programming/common/AwaleBoard.java:26-40 | The new board is the initial board with the game not over. |
| Common.AwaleBoard.HasSeeds | src/main/java/fr/ai/game/programming/common/AwaleBoard.java:42-44 | hasSeeds is true exactly when the hole holds a seed of the colour. |
| Common.AwaleBoard.SwitchPlayer | src/main/java/fr/ai/game/programming/common/AwaleBoard.java:53-55 | The turn passes to the other player and nothing else changes. |
| Common.AwaleBoard.CheckGameOver | src/main/java/fr/ai/game/programming/common/AwaleBoard.java:65-119 | checkGameOver returns the verdict of the rules in priority order, with the stuck test on index halves. The isGameOver field equals the returned value, and the board is left as the sweep leaves it. |
| Common.AwaleBoard.SeedsOnBoard | src/main/java/fr/ai/game/programming/common/AwaleBoard.java:66-71 | The counting loop returns the number of seeds on the board. |
| Common.AwaleBoard.HalfMoves | src/main/java/fr/ai/game/programming/common/AwaleBoard.java:96-107 | The scans find a move for Player 1 exactly when holes 0..7 hold a seed, and for Player 2 exactly when holes 8..15 do. |
| Common.AwaleBoard.SowSeeds | src/main/java/fr/ai/game/programming/common/AwaleBoard.java:124-147 | An illegal move throws and changes nothing. A legal move leaves the board as sowing and capture leave it, and isGameOver is untouched. |
| Common.AwaleBoard.CaptureSeeds | src/main/java/fr/ai/game/programming/common/AwaleBoard.java:208-234 | The capture run's seeds are removed from the holes and credited to the given player. |
| Common.AwaleBoard.CaptureRemainingSeeds | src/main/java/fr/ai/game/programming/common/AwaleBoard.java:236-248 | The board becomes the sweep of the player's index half. |
| Common.AwaleBoard.EvaluateBoard | src/main/java/fr/ai/game/programming/common/AwaleBoard.java:255-257 | evaluateBoard returns Player 2's score minus Player 1's. |
| Common.LeadMirrorsEvaluate | src/main/java/fr/ai/game/programming/common/AwaleBoard.java:255-257 | Player 2's lead is the negation of Board.evaluateBoard whenever both players can move, and lies within -64..64 on a board of 64 seeds. |
| Common.LeadTracksCaptures | src/main/java/fr/ai/game/programming/common/AwaleBoard.java:255-257 | Player 2's lead is 0 on the initial board and changes sign when the scores are swapped. A legal move changes it by exactly the seeds the mover captures: it rises for Player 2 and falls for Player 1. |
| Search.DepthNonIncreasing | src/main/java/fr/ai/game/programming/game/player/AIManagerUltimate.java:220-234 | More legal moves never give a deeper search, and more than 8 moves give the initial depth 5. The depth table of each variant is written out in full. |
| Search.DepthFor | src/main/java/fr/ai/game/programming/game/player/AIManagerUltimate.java:220-234 | The optimized depth is never below the initial depth 5. |
| Search.RowMovesExact | src/main/java/fr/ai/game/programming/game/player/AIManagerUltimate.java:246-253 | The moves enumerated over a row are exactly the pairs of a row hole and a colour that hole holds. |
| Search.CandidatesExact | src/main/java/fr/ai/game/programming/game/player/AIManagerUltimate.java:237-253 | Before sorting, the candidate moves are exactly the player's holes paired with the colours present in them. |
| Search.PossibleMovesExact | src/main/java/fr/ai/game/programming/game/player/AIManagerUltimate.java:237-282 | getAllPossibleMoves returns exactly the player's (hole, colour) pairs with seeds, in any comparator's order. |
| Search.PossibleMoves | src/main/java/fr/ai/game/programming/game/player/AIManagerUltimate.java:237-282 | Specification function with no contract of its own: the variant's candidates, sorted by its comparator. Search.PossibleMovesExact and Search.SortOrdered state its contents and order. |
| Search.InsertPermutes | src/main/java/fr/ai/game/programming/game/player/AIManagerUltimate.java:256-278 | Inserting a move into the list adds exactly that move. |
| Search.SortPermutes | src/main/java/fr/ai/game/programming/game/player/AIManagerUltimate.java:256-278 | Sorting the moves is a permutation. |
| Search.SortMoves | src/main/java/fr/ai/game/programming/game/player/AIManagerUltimate.java:256-278 | Specification function with no contract of its own: a stable insertion sort. Search.SortPermutes and Search.SortOrdered state that it permutes and orders. |
| Search.CmpFollowsRank | src/main/java/fr/ai/game/programming/game/player/AIManagerAlex.java:231-248 | Every comparator except AIManagerTest's puts one move first exactly when a fixed key ranks it first: more captured seeds (Ultimate), more seeds (New, Nolan) or higher quality (Alex), then fewer seeds of the colour in the origin. |
| Search.InsertSorted | src/main/java/fr/ai/game/programming/game/player/AIManagerUltimate.java:256-278 | Inserting a move into a list sorted by the key keeps it sorted. |
| Search.SortOrdered | src/main/java/fr/ai/game/programming/game/player/AIManagerNew.java:238-242 | The sorted move list is non-decreasing in the comparator's key. |
| Search.EndHoleRange | src/main/java/fr/ai/game/programming/game/player/AIManagerAlex.java:273-295 | calculateEndHole returns the start hole when there are no seeds, and a hole of the board otherwise. |
| Search.EndHoleBlueSteps | src/main/java/fr/ai/game/programming/game/player/AIManagerAlex.java:273-295 | For 1 to 14 blue seeds, calculateEndHole's first step skips a hole and each later step advances one hole: the result is start + n + 1, wrapped once around the 16 holes. |
| Search.EndHoleBlue | src/main/java/fr/ai/game/programming/game/player/AIManagerAlex.java:273-295 | For 1 to 14 blue seeds, calculateEndHole names the hole just after the one where sowBlueSeeds puts the last seed (BlueLanding + 1, modulo 16), not the landing hole itself. |
| Search.EndHoleRedSteps | src/main/java/fr/ai/game/programming/game/player/AIManagerAlex.java:273-295 | For red seeds from a hole of the player's own row that stay below hole 16, calculateEndHole skips the start's neighbour and steps over every hole of the player's row: the result is start + 2n + 1. |
| Search.EndHoleRed | src/main/java/fr/ai/game/programming/game/player/AIManagerAlex.java:273-295 | In that case calculateEndHole names the hole two past the one where sowRedSeeds puts the last seed (RedLanding + 2), not the landing hole itself. |
| Search.EndHole | src/main/java/fr/ai/game/programming/game/player/AIManagerAlex.java:273-295 | Specification function with no contract of its own: the hole reached after the seeds are sown one by one. Search.EndHoleRange states its range; Search.EndHoleBlue and Search.EndHoleRed relate it to where sowing really ends. |
| Search.Quality | src/main/java/fr/ai/game/programming/game/player/AIManagerAlex.java:254-270 | evaluateMoveQuality is 1000 or 0. |
| Search.GroupsOwned | src/main/java/fr/ai/game/programming/game/player/AIManagerNolan.java:128-184 | Every move a node tries belongs to the player whose row the node expands. |
| Search.FoldNode | src/main/java/fr/ai/game/programming/game/player/AIManagerUltimate.java:126-147 | A child board that is searched to a value has that value folded into maxEval or minEval and alpha or beta. The scan then goes on with the remaining moves, unless alpha >= beta. |
| Search.LeavesNeverAbort | src/main/java/fr/ai/game/programming/game/player/AIManagerUltimate.java:113-119 | At depth 0 or on a finished game, minimax returns the leaf evaluation before the clock is looked at, so a leaf never times out. |
| Search.MinimaxClock | src/main/java/fr/ai/game/programming/game/player/AIManagerUltimate.java:117-119 | The remaining time only runs down during a search. Test, Alex and Nolan never time out and never use the clock. |
| Search.Minimax | src/main/java/fr/ai/game/programming/game/player/AIManagerUltimate.java:111-178 | Specification function with no contract of its own: minimax with alpha-beta, the clock and the variant's choices. Search.LeavesNeverAbort, Search.MinimaxClock, Search.MinimaxNeverThrows, Search.NoChildSentinel, Search.CutoffSkipsSiblings and Search.WinReturnsAtOnce state its behaviour. |
| Search.ChildInTurn | src/main/java/fr/ai/game/programming/game/player/AIManagerUltimate.java:126-135 | A move from the expanding side's row that holds its colour is never rejected on a board in turn, and its child is in turn for the next level. |
| Search.MinimaxNeverThrows | src/main/java/fr/ai/game/programming/game/player/AIManagerNew.java:116-170 | On a board whose player to move is the one the node expands (always, for Ultimate, which forces it), no IllegalArgumentException escapes minimax. |
| Search.NoChildSentinel | src/main/java/fr/ai/game/programming/game/player/AIManagerUltimate.java:121-177 | A node that expands no child returns its initial value: Integer.MIN_VALUE when maximizing and Integer.MAX_VALUE when minimizing. |
| Search.CutoffSkipsSiblings | src/main/java/fr/ai/game/programming/game/player/AIManagerUltimate.java:135-141 | Once a child's value brings alpha to or past beta, the remaining moves of the group are not looked at. |
| Search.WinReturnsAtOnce | src/main/java/fr/ai/game/programming/game/player/AIManagerNew.java:122-129 | A child that passes the variant's win test makes the node return the sentinel at once, whatever moves follow. |
| Search.RootKeepsFallbackUnlessBetter | src/main/java/fr/ai/game/programming/game/player/AIManagerUltimate.java:41-89 | findBestMove returns the random fallback with its sentinel value, or a legal move whose value is strictly better for the mover. |
| Search.OldRootKeepsFallbackUnlessBetter | src/main/java/fr/ai/game/programming/game/player/AIManagerNolan.java:262-313 | findBestMoveOld keeps the fallback unless some move is strictly better, and then returns a legal move. |
| Search.RootPicksFirstBest | src/main/java/fr/ai/game/programming/game/player/AIManagerUltimate.java:41-98 | Every branch findBestMove completes is a possible move, and minimax on its child, with the window of that moment, returned the branch's value. The result is beaten by no completed branch. It is the fallback with its sentinel exactly when no completed branch beats the sentinel. Otherwise it is the first completed branch with the result's move and value, strictly better than every branch before it. A timeout or a cut-off leaves the branches after it out of the choice. |
| Search.RootChildSide | src/main/java/fr/ai/game/programming/game/player/AIManagerNew.java:50-59 | The root sows on the copy without switching the player, so the child keeps the mover to play. The first minimax call expands the opponent's row under Ultimate and the mover's own row under every other variant. |
| Search.OldRootPicksFirstBest | src/main/java/fr/ai/game/programming/game/player/AIManagerNolan.java:262-313 | The same for findBestMoveOld: every completed branch was searched at depth 5 to its value, and the result is the first completed branch that no completed branch beats, or the fallback when none beats the sentinel. |
| Search.FindBestMove | src/main/java/fr/ai/game/programming/game/player/AIManagerUltimate.java:31-99 | Specification function with no contract of its own. Search.RootKeepsFallbackUnlessBetter, Search.RootPicksFirstBest and Search.RootNeverCrashes state its result. |
| Search.FindBestMoveOld | src/main/java/fr/ai/game/programming/game/player/AIManagerNolan.java:262-313 | Specification function with no contract of its own. Search.OldRootKeepsFallbackUnlessBetter, Search.OldRootPicksFirstBest and Search.OldRootNeverCrashes state its result. |
| Search.RootNeverCrashes | src/main/java/fr/ai/game/programming/game/player/AIManagerAlex.java:33-84 | With Player 1 or 2 to move, findBestMove never lets an exception escape. |
| Search.OldRootNeverCrashes | src/main/java/fr/ai/game/programming/game/player/AIManagerNolan.java:262-313 | With Player 1 or 2 to move, findBestMoveOld never lets an exception escape. |
| Search.DrawMoveLegal | src/main/java/fr/ai/game/programming/game/player/AIManagerUltimate.java:184-211 | A random draw that lands on a non-empty hole of the player's row yields that hole with a colour it holds. A draw yields nothing exactly when its hole is empty. |
| Search.RandomMoveLegal | src/main/java/fr/ai/game/programming/game/player/AIManagerNolan.java:30-54 | findRandomMove returns one of the mover's holes with a colour present in it. It finds nothing only when no draw lands on a non-empty hole. |
| Search.RandomMove | src/main/java/fr/ai/game/programming/game/player/AIManagerNolan.java:30-54 | Specification function with no contract of its own: the first draw that yields a move. Search.RandomMoveLegal states what it returns. |
| Managers.AIManager.constructor | src/main/java/fr/ai/game/programming/game/player/AIManagerUltimate.java:16-21 | A new manager starts at the initial depth 5. |
| Managers.AIManager.OptimizeDepth | src/main/java/fr/ai/game/programming/game/player/AIManagerUltimate.java:220-234 | currentDepth is set from the variant's depth table. |
| Managers.AIManager.GetAllPossibleMoves | src/main/java/fr/ai/game/programming/game/player/AIManagerUltimate.java:237-282 | The enumeration loop and the sort return the variant's sorted candidate moves on the board. |
| Managers.AIManager.FindRandomMove | src/main/java/fr/ai/game/programming/game/player/AIManagerUltimate.java:184-211 | The drawing loop returns the move of the first draw that finds seeds. |
| Managers.AIManager.CalculateEndHole | src/main/java/fr/ai/game/programming/game/player/AIManagerAlex.java:273-295 | The loop computes the end hole: it skips the start hole, and for red it also skips the player's own holes, wrapping with Java's %. |
| Managers.AIManager.EvaluateMoveQuality | src/main/java/fr/ai/game/programming/game/player/AIManagerAlex.java:254-270 | The quality is 1000 when the end hole holds 1 or 2 seeds, else 0, on the manager's board. |
| Managers.AIManager.RootStep | src/main/java/fr/ai/game/programming/game/player/AIManagerUltimate.java:52-63 | A root move on a copy is always accepted. Searching it gives Minimax with isMax = (player == 2): under Ultimate the opponent is forced to move, and under the other four variants the mover's own row is expanded again. No exception escapes. |
| Managers.AIManager.FindBestMove | src/main/java/fr/ai/game/programming/game/player/AIManagerUltimate.java:31-99 | findBestMove leaves the caller's board unchanged. It returns a move exactly when the random fallback finds one, and the move is the one the root search picks. When it returns a move, currentDepth ends as optimizeDepth's choice for the number of possible moves; otherwise currentDepth is unchanged. |
| Managers.AIManager.FindBestMoveOld | src/main/java/fr/ai/game/programming/game/player/AIManagerNolan.java:262-313 | findBestMoveOld returns the move that the hole-by-hole root search at depth 5 picks, starting from the random fallback. |
| Managers.AIManager.FindMove | src/main/java/fr/ai/game/programming/game/player/AIManagerNolan.java:22-24 | findMove leaves the board unchanged and returns a legal move. For Nolan currentDepth is unchanged; for the others it ends as optimizeDepth's choice when a move is returned and is unchanged otherwise. |
| IntBoard.DropTotal | src/main/java/fr/ai/game/programming/common/AIManager.java:132-141 | Sowing a count adds exactly that many seeds to the array. |
| IntBoard.DropCell | src/main/java/fr/ai/game/programming/common/AIManager.java:132-141 | With fewer than 16 seeds, each of the holes after the origin that the count reaches gains one seed, and every other hole is unchanged. |
| IntBoard.SixteenthSeedReturns | src/main/java/fr/ai/game/programming/common/AIManager.java:132-141 | With no origin skip, a hole of 16 seeds gets one back and the sowing lands on it. |
| IntBoard.CaptureCells | src/main/java/fr/ai/game/programming/common/AIManager.java:153-168 | A hole changes only if it lies in the landing hole's half, at or below it, and held 2 or 3 seeds. It is then emptied. |
| IntBoard.CaptureTotal | src/main/java/fr/ai/game/programming/common/AIManager.java:153-168 | Capture never adds seeds. |
| IntBoard.IntSowTotal | src/main/java/fr/ai/game/programming/common/AIManager.java:132-146 | A simulated move never raises the board total. |
| IntBoard.IntSow | src/main/java/fr/ai/game/programming/common/AIManager.java:132-146 | The simulated move keeps the array at 16 holes. IntBoard.IntSowTotal and IntBoard.MakeMove state its contents. |
| IntBoard.MakeMove | src/main/java/fr/ai/game/programming/common/AIManager.java:132-146 | The array becomes the simulated move: origin emptied, its count sown one per hole, then the capture. |
| IntBoard.CaptureSeedsForSimulation | src/main/java/fr/ai/game/programming/common/AIManager.java:153-168 | The capture loop leaves the array as the downward capture within the landing hole's half leaves it. |
| IntBoard.NoMoveFold | src/main/java/fr/ai/game/programming/common/AIManager.java:93-123 | A node loop over holes none of which holds more than one seed returns its initial value. |
| IntBoard.AlphaBetaSound | src/main/java/fr/ai/game/programming/common/AIManager.java:87-124 | The alpha-beta minimax returns the plain minimax value when that value lies strictly inside the window, and a bound on the correct side otherwise (fail-soft). |
| IntBoard.AlphaBeta | src/main/java/fr/ai/game/programming/common/AIManager.java:87-124 | Specification function with no contract of its own: minimax with alpha-beta over the int array. IntBoard.AlphaBetaSound and IntBoard.NoMoveFold state its value. |
| IntBoard.Minimax | src/main/java/fr/ai/game/programming/common/AIManager.java:87-124 | Reference function with no contract of its own: the same search with every move expanded, to which IntBoard.AlphaBetaSound relates the pruned search. |
| IntBoard.RootFoldCandidate | src/main/java/fr/ai/game/programming/common/AIManager.java:45-70 | The root loop either keeps its starting move or picks a hole of the range holding more than one seed. |
| IntBoard.RootFoldBest | src/main/java/fr/ai/game/programming/common/AIManager.java:45-70 | The root keeps its start exactly when no candidate beats it strictly. Otherwise it picks a candidate whose value no other candidate beats, the first of equals. |
| IntBoard.RootFold | src/main/java/fr/ai/game/programming/common/AIManager.java:45-70 | Specification function with no contract of its own: the root loop over the holes. IntBoard.RootFoldCandidate and IntBoard.RootFoldBest state its pick. |
| IntBoard.RootFoldFirstTakes | src/main/java/fr/ai/game/programming/AIManager.java:15-33 | When the first candidate is always taken, the root returns -1 exactly when there is no candidate, and otherwise a best candidate, the first of equals. |
| IntBoard.Clone | src/main/java/fr/ai/game/programming/common/AIManager.java:55 | board.clone() is a fresh array with the same contents. |
| CommonAI.RandomHoleValid | src/main/java/fr/ai/game/programming/common/AIManager.java:23-38 | findRandomMove returns a hole of the player's half holding more than one seed. It finds one whenever some draw names such a hole. |
| CommonAI.RandomHole | src/main/java/fr/ai/game/programming/common/AIManager.java:23-38 | Specification function with no contract of its own: the first drawn hole holding more than one seed. CommonAI.RandomHoleValid states what it returns. |
| CommonAI.RootPickCandidate | src/main/java/fr/ai/game/programming/common/AIManager.java:45-70 | The root keeps -1 or picks a hole of the player's range holding more than one seed. |
| CommonAI.BestMoveValid | src/main/java/fr/ai/game/programming/common/AIManager.java:45-75 | For Player 1 or 2, findBestMove returns a hole of the player's half (8..15 for Player 1, 0..7 for Player 2) holding more than one seed. |
| CommonAI.BestMoveFound | src/main/java/fr/ai/game/programming/common/AIManager.java:71-73 | findBestMove has a move whenever the random fallback would find one. |
| CommonAI.BestMove | src/main/java/fr/ai/game/programming/common/AIManager.java:45-75 | Specification function with no contract of its own: the root's pick, or the random fallback when the root keeps -1. CommonAI.BestMoveValid and CommonAI.BestMoveFound state what it returns. |
| CommonAI.AIManager.constructor | src/main/java/fr/ai/game/programming/common/AIManager.java:14-16 | The manager keeps the board it is given. |
| CommonAI.AIManager.FindRandomMove | src/main/java/fr/ai/game/programming/common/AIManager.java:23-38 | The drawing loop returns the first hole of the range that a draw names and that holds more than one seed. |
| CommonAI.AIManager.FindBestMove | src/main/java/fr/ai/game/programming/common/AIManager.java:45-75 | The root loop works on clones, leaves the array unchanged and returns the root's pick, or the random fallback when it kept -1. Every leaf is the live board's evaluation. |
| FirstAI.BestMoveAsWritten | src/main/java/fr/ai/game/programming/AIManager.java:15-33 | As written, findBestMove returns -1 exactly when no candidate's value exceeds Integer.MIN_VALUE. Otherwise it returns a candidate of highest value, the first of equals. |
| FirstAI.BestMove | src/main/java/fr/ai/game/programming/AIManager.java:15-33 | Specification function with no contract of its own: the root as written. FirstAI.BestMoveAsWritten states its result, and FirstAI.BestMoveMissesOnlyMove shows the missed move. |
| FirstAI.OnlyCandidateAtMin | src/main/java/fr/ai/game/programming/AIManager.java:15-33 | A board whose only candidate is valued Integer.MIN_VALUE gets -1. |
| FirstAI.BestMoveMissesOnlyMove | src/main/java/fr/ai/game/programming/AIManager.java:15-33 | On a concrete board with half 8, hole 0 is a candidate and findBestMove still returns -1. |
| FirstAI.BestMoveFixedSpec | src/main/java/fr/ai/game/programming/AIManager.java:15-33 | The corrected root returns -1 exactly when no hole of 0..half-1 holds more than one seed. Otherwise it returns a candidate of highest value, the first of equals. |
| FirstAI.BestMoveFixed | src/main/java/fr/ai/game/programming/AIManager.java:15-33 | Specification function with no contract of its own: the corrected root. FirstAI.BestMoveFixedSpec states its result. |
| FirstAI.FindBestMove | src/main/java/fr/ai/game/programming/AIManager.java:15-34 | The root loop computes findBestMove as written. |
| FirstAI.FindBestMoveFixed | src/main/java/fr/ai/game/programming/AIManager.java:15-34 | The root loop with the first candidate always taken computes the corrected choice. |
| FirstAI.EvaluateBoard | src/main/java/fr/ai/game/programming/AIManager.java:96-110 | evaluateBoard(int[]) is the seeds of holes 0..half-1 minus those of holes half..15. |
| FirstAI.IsGameOver | src/main/java/fr/ai/game/programming/AIManager.java:132-149 | isGameOver(int[]) is true exactly when one of the two halves holds no seed. |
| Moves.ValueOfDecimal | src/main/java/fr/ai/game/programming/game/Game.java:149 | Reading the decimal numeral of a number gives the number back. |
| Moves.ColorChar | src/main/java/fr/ai/game/programming/game/player/Move.java:9 | The colour letter is 'R' exactly for RED and 'B' for every other colour. |
| Moves.RoundTrip | src/main/java/fr/ai/game/programming/game/player/Move.java:9-10 | toString is decoded back: the last character gives the colour and the rest the hole, negative holes included. |
| Moves.ToStringInjective | src/main/java/fr/ai/game/programming/game/player/Move.java:5-10 | Two moves have the same string exactly when they are equal. |
| Moves.ToStringShape | src/main/java/fr/ai/game/programming/game/player/Move.java:10 | For a hole of the board, toString is one or two digits with the hole's value, then the colour letter. |
| Moves.ToString | src/main/java/fr/ai/game/programming/game/player/Move.java:9-10 | toString has at least two characters, ends with the colour letter, and starts with a minus sign exactly for a negative hole. |
| Moves.FromString | src/main/java/fr/ai/game/programming/game/player/Move.java:9-10 | A decoded move's colour is the one the string's last letter names. Moves.RoundTrip states that it inverts toString. |
| Console.ParseColor | src/main/java/fr/ai/game/programming/game/Game.java:186-195 | "B" in either case is BLUE, "R" is RED, and anything else is refused. |
| Console.ParseSpec | src/main/java/fr/ai/game/programming/game/Game.java:139-161 | A line is accepted exactly when its upper-cased form has one or two digits, then R or B, and names an odd number from 1 to 16. The move is that number minus one, an even hole, with the colour of the letter. Each refusal has its own cause. |
| Console.Parse | src/main/java/fr/ai/game/programming/game/Game.java:139-161 | An accepted line matches the pattern once upper-cased, and names an even hole of the board. |
| Console.ParseTyped | src/main/java/fr/ai/game/programming/game/Game.java:139-161 | Typing the 1-based number of an even hole and its colour letter, in either case, gives that move. |
| Console.ToStringRefused | src/main/java/fr/ai/game/programming/game/Game.java:149-156 | The console refuses every string Move.toString writes for an even hole, because toString is 0-based and the console 1-based. Hole 0 is refused as out of range. |
| Console.ProcessConsoleMove | src/main/java/fr/ai/game/programming/game/Game.java:136-184 | The method returns true exactly when the line is accepted and sowSeeds plays the move, and then the board is the sown board. Otherwise it returns false and the board is unchanged. |
| Console.AcceptedIsLegal | src/main/java/fr/ai/game/programming/game/Game.java:158-164 | An accepted line is played exactly when Player 1 is to move and the hole holds the colour. |
| Console.CurrentPlayer | src/main/java/fr/ai/game/programming/game/Game.java:197-199 | getCurrentPlayer is player1 when the board's current player is 1, and player2 otherwise. |
| Console.CurrentPlayerAlternates | src/main/java/fr/ai/game/programming/game/Game.java:197-199 | After switchPlayer, the other player object is to play; after two switches, the same one is. |

## Left out

- Printing, logging, JavaFX, MQTT and the turn loop are not modelled. This includes the `Platform.runLater` block of processConsoleMove (the deferred switchPlayer, notifications and next move).
- The wall clock is the `ticks` parameter. Elapsed time only grows, so "the limit is exceeded from the k-th check on" covers every run, but the actual duration is not modelled.
- `Math.random` is a finite sequence of draws. The random loops return `None` when the draws run out, where the Java loops would keep drawing.
- Search.DrawMove: Nolan's findRandomMove picks a random seed of the hole. The order of seeds within a hole is not modelled, so the drawn colour comes from the draw when the hole holds it.
- Search.SortMoves: `List.sort` (TimSort) is modelled as a stable insertion sort. Both give the same order for a consistent comparator. AIManagerTest's comparator simulates both moves on one shared copy, so it is not consistent, and its order under TimSort may differ from the model's.
- evaluateBoardHeuristicUltimate, sowSeedsForSimulation, forceCurrentPlayer, getSeedsInHole(hole, color), SeedColor and NUM_HOLES are not part of this model as code. They are parameters or the obvious functions named above.
- The winner of GameStatus is the datatype `Winner`. In the source, GameStatus.java:9 declares `int winner`, while Board.java:74-126 passes the Strings "Player 1", "Player 2", "Draw" and null, and AIManagerNew.java:127 and 154 and AIManagerTest.java:110 and 137 compare `getWinner()` with 1 and 2. This does not type-check. The model reads "Player 1" as the winner that `== 1` tests and "Player 2" as the one `== 2` tests: in the New and Test variants, a child wins at once for a maximizing node exactly when CheckStatus names `Player1`, and for a minimizing node exactly when it names `Player2`. A draw or an unfinished game matches neither.
- Java `int` overflow is not modelled. Scores and counts stay within 0..64, and the sentinels are Integer.MIN_VALUE and Integer.MAX_VALUE written out.
- Console.Upper: String.toUpperCase is modelled on ASCII letters only.
- Rules.Sow: a hole outside 0..15 makes the Java code throw ArrayIndexOutOfBoundsException from its diagnostic print. That case is the `OutOfRange` refusal, and no state changes.
- Elements.Board.SeedsOnBoard, Elements.Board.HasValidMove and Common.AwaleBoard.HalfMoves are the counting and scanning loops inside checkGameStatus and checkGameOver, written as methods of their own.
- Managers.AIManager.FindBestMove: the bodies of findBestMove in the variants differ only in the choices listed above, and one method with the variant as a field covers all five.
- CommonAI.AIManager.FindBestMove, CommonAI.AIManager.FindRandomMove, FirstAI.FindBestMove and FirstAI.FindBestMoveFixed take the int array as a free parameter. It is not derived from the manager's AwaleBoard. In the source, `int[] board = awaleBoard.getBoard()` (common/AIManager.java:25 and 48, AIManager.java:18) assigns the `List<Seed>[]` that common/AwaleBoard.java:17-18 declares, which does not type-check, so no conversion is modelled. CommonAI.AIManager.FindBestMove takes the value of every depth-0 leaf from the AwaleBoard's scores (evaluateBoard), not from the int array.
- IntBoard.AlphaBetaSound: alpha-beta is related to plain minimax only for windows inside Integer.MIN_VALUE..Integer.MAX_VALUE, the only ones the code uses.

## Findings

| source | as written | input that shows it | evidently intended | confidence | as-written member | corrected member |
|---|---|---|---|---|---|---|
| src/main/java/fr/ai/game/programming/AIManager.java:15-33 | The root replaces bestMove only when `moveValue > bestValue`, starting from Integer.MIN_VALUE. A candidate valued Integer.MIN_VALUE is never taken, so -1 is returned although a hole with more than one seed exists. | NUM_HOLES = 8 and the board [2,0,0,0,0,0,0,0,2,1,1,1,1,1,1,1]. Hole 0 is the only candidate. After it, Player 1's only reply (hole 8) leaves Player 2 no hole with more than one seed, so that node keeps its initial Integer.MIN_VALUE, and hole 0 is valued Integer.MIN_VALUE. | -1 only when no hole holds more than one seed. Otherwise a best candidate, so the first candidate is always taken. | not executed | FirstAI.BestMoveMissesOnlyMove | FirstAI.BestMoveFixedSpec |
