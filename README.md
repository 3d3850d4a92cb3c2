# Isolation game agent: adversarial search engine

A Dafny model of the search engine of the Isolation agents in `game_agent.py`. It covers three parts:

- `MinimaxPlayer`: fixed-depth minimax through the inner `recurse`.
- `AlphaBetaPlayer`: fail-soft alpha-beta through the mutually recursive `max_value` and `min_value`.
- `AlphaBetaPlayer.get_move`: the iterative-deepening driver, which deepens alpha-beta search until the turn clock runs low.

The board is reached only through legal-move enumeration and `forecast_move`, so it is modelled as a game tree (`GameTree.Node`):

- Each node carries the evaluator's score from the searching agent's point of view.
- Each node lists its children in enumeration order, each child behind the move that leads to it.
- Scores are extended integers (`Scores.Score = NegInf | Fin(int) | PosInf`). Python's two-argument `max` and `min` are `Scores.Max` and `Scores.Min`: each keeps its first argument unless the second is strictly better.

## The clock

- Each player class holds the turn clock's next reading in `timeLeft`. `get_move` assigns it, as the source assigns `self.time_left`.
- Every poll (`TimeLeft`) reads the clock and consumes one unit.
- `SearchTimeout` is raised exactly when a reading is below `timerThreshold` (strictly). In the model it becomes `Deadline.Result.Timeout`.
- Each visited node polls twice: once on entry and once in `terminal`. `terminal` is evaluated before the `depth == 0` test.
- `GameTree.Polls` counts the polls of an uninterrupted fixed-depth search. `Deadline.Slack` is the number of polls the clock still allows.

## How the searches are specified

- `GameTree.MinimaxValue` is the reference definition of the depth-limited minimax value. `MinimaxPlayer.Recurse` is proved to compute it. It completes exactly when the clock allows all `Polls` of the search.
- `AlphaBetaSearch.MaxValueRun` and `MinValueRun` describe what `max_value` and `min_value` return when the clock never runs out, and how many polls they make. The methods `MaxValue` and `MinValue` are proved equal to them under every clock.
- Lemmas relate these run functions to `MinimaxValue`:
  - the fail-soft window property;
  - exactness at the root window;
  - the first-best root move;
  - never more polls than unpruned minimax.
- `IterativeDeepening.Deepen` is the driver as a function of the clock slack, and `DeepenClock` gives the clock it leaves behind. `AlphaBetaPlayer.GetMove` is proved to return the one and leave the other. The lemmas show that it returns the move of the last depth that completed with a real move.

## Tie-breaking and the sentinel

- **Minimax ties.** `recurse` keeps the last of tied moves: `max(value, score) == score` holds on equality (game_agent.py:287). See `MinimaxAgent.IsLastBestMove`.
- **Alpha-beta ties.** `max_value` replaces the running best only on a strictly larger score, so it keeps the first of tied moves (game_agent.py:423). On ties the two players therefore choose different moves; only their values agree. See `Scenarios.TieBreaksDiffer`.
- **A single losing move.** `max_value` starts from `(-inf, (-1, -1))`. When every legal move is a certain loss at depth 1, no score beats the start, so `AlphaBetaPlayer.get_move` returns `(-1, -1)`. `MinimaxPlayer` still returns the move. See `IterativeDeepening.DeepeningAllMovesLosing` and `Scenarios.SingleLosingMove`.

## Model

| member | source | states |
|---|---|---|
| Scores.Max | game_agent.py:423-426 | Python's two-argument `max` of scores (the running best at 423, `alpha` raised at 426, the maximizing evaluation of `recurse`): one of the two, no smaller than either, and different from the first exactly when the second is strictly larger |
| Scores.Min | game_agent.py:455-458 | Python's two-argument `min` of scores (the running best at 455, `beta` lowered at 458, the minimizing evaluation of `recurse`): one of the two, no larger than either, and different from the first exactly when the second is strictly smaller |
| GameTree.Extremum | game_agent.py:274-275 | the role's evaluation (`max` when maximizing, `min` otherwise) picks one of its two arguments and is the role's best of the two |
| GameTree.MinimaxValue | game_agent.py:277-290 | the reference depth-limited minimax value: the evaluation at a node without legal moves or depth left, otherwise the role's best child value folded in enumeration order; its meaning is stated by `MinimaxValueIsBestChild` |
| GameTree.Polls | game_agent.py:277-286 | the clock polls of an uninterrupted search, two per visited node (entry and `terminal`); every search polls at least twice |
| GameTree.BestOfFirstIsBest | game_agent.py:283-290 | the running best over the first k children is no worse for the role than any of them and equals one of them |
| GameTree.BestOfFirstMonotone | game_agent.py:285-288 | the running best only improves for the role as more children are seen |
| GameTree.ChildPollsMonotone | game_agent.py:285-286 | the polls of the child searches grow with the number of children searched |
| GameTree.MinimaxValueIsBestChild | game_agent.py:280-290 | at a node with legal moves and depth left, the minimax value is attained by some child and no child is better for the role (max when maximizing, min otherwise) |
| MinimaxAgent.LastBestMoveIsDetermined | game_agent.py:285-288 | the last-best move is unique, so it fixes the move `recurse` returns |
| MinimaxAgent.MinimaxMoveIsLegal | game_agent.py:283-290 | with a legal move and depth at least 1 the minimax move exists, is a legal move and is never `(-1, -1)`, even when every child scores `-inf` |
| MinimaxAgent.MinimaxPlayer.constructor | game_agent.py:174-178 | stores the search depth and the timer threshold |
| MinimaxAgent.MinimaxPlayer.TimeLeft | game_agent.py:277 | a clock reading returns the current time left and consumes one unit |
| MinimaxAgent.MinimaxPlayer.Terminal | game_agent.py:297-316 | times out exactly when the reading is below the threshold; otherwise reports whether there are no legal moves |
| MinimaxAgent.MinimaxPlayer.Recurse | game_agent.py:250-290 | completes exactly when the clock allows all of the search's polls; then returns the minimax value, with the sentinel at a stop node or else the last child attaining it; otherwise propagates the timeout; the clock afterwards is given exactly |
| MinimaxAgent.MinimaxPlayer.Minimax | game_agent.py:229-295 | the move of `recurse` from the maximizing side, or the timeout |
| MinimaxAgent.MinimaxPlayer.GetMove | game_agent.py:185-227 | the last-best minimax move at the configured depth when the search completes in time, otherwise `(-1, -1)` with no partial result kept |
| AlphaBetaSearch.MaxValueRun | game_agent.py:398-428 | every `max_value` call polls the clock at least twice |
| AlphaBetaSearch.MaxLoop | game_agent.py:419-428 | the loop of `max_value` never undoes polls already made |
| AlphaBetaSearch.MinValueRun | game_agent.py:431-460 | every `min_value` call polls the clock at least twice |
| AlphaBetaSearch.MinLoop | game_agent.py:452-460 | the loop of `min_value` never undoes polls already made |
| AlphaBetaSearch.MaxUpdate | game_agent.py:423 | `max(best, (score, move), key=...)`: the kept score is the Python `max` of the two scores, the move changes to the child's exactly on a strictly larger score, and the polls add up |
| AlphaBetaSearch.MinUpdate | game_agent.py:455 | `min(best, (score, move), key=...)`: the kept score is the Python `min` of the two scores, the move changes exactly on a strictly smaller score, and the polls add up |
| AlphaBetaSearch.MaxValueFailSoft | game_agent.py:398-428 | for alpha < beta, `max_value`'s score is exactly the minimax value v when alpha < v < beta, lies in [v, alpha] when v <= alpha, and in [beta, v] when v >= beta |
| AlphaBetaSearch.MinValueFailSoft | game_agent.py:431-460 | the same fail-soft window property for `min_value` against the minimizing minimax value |
| AlphaBetaSearch.MaxStepScores | game_agent.py:421-425 | one iteration of `max_value`'s loop on scores alone: if the updated best reaches beta, it is the child's score and lies in [beta, v]; otherwise the loop invariant holds again with alpha raised to the new best |
| AlphaBetaSearch.MinStepScores | game_agent.py:453-457 | the mirror image for one iteration of `min_value`'s loop: if the updated best reaches alpha, it is the child's score and lies in [v, alpha]; otherwise the invariant holds again with beta lowered |
| AlphaBetaSearch.MaxLoopFailSoft | game_agent.py:419-427 | the loop invariant of `max_value`: with no beta cutoff yet and alpha raised to the running best, the rest of the loop ends fail-soft against the original window |
| AlphaBetaSearch.MinLoopFailSoft | game_agent.py:452-459 | the loop invariant of `min_value`: with no alpha cutoff yet and beta lowered to the running best, the rest of the loop ends fail-soft against the original window |
| AlphaBetaSearch.AlphaBetaRootValue | game_agent.py:371 | with the default window (-inf, +inf) the root score of `alphabeta` equals the minimax value |
| AlphaBetaSearch.RootLoopFirstBest | game_agent.py:419-428 | under the default window the root loop keeps the first child attaining the running best, so it ends with the first-best move |
| AlphaBetaSearch.AlphaBetaRootMove | game_agent.py:419-428 | `alphabeta` returns the first legal move whose minimax value is maximal, and `(-1, -1)` at a stop node or when every move's value is -inf |
| AlphaBetaSearch.MaxValuePollsBound | game_agent.py:421-425 | `max_value` polls the clock no more often than unpruned minimax on the same tree and depth: a cutoff skips the remaining siblings |
| AlphaBetaSearch.MinValuePollsBound | game_agent.py:453-457 | `min_value` polls the clock no more often than unpruned minimax on the same tree and depth |
| AlphaBetaSearch.MaxLoopPollsBound | game_agent.py:421-427 | the rest of `max_value`'s loop polls at most as often as minimax on the children not yet searched |
| AlphaBetaSearch.MinLoopPollsBound | game_agent.py:453-459 | the rest of `min_value`'s loop polls at most as often as minimax on the children not yet searched |
| IterativeDeepening.Deepen | game_agent.py:358-369 | the deepening loop returns the move it started with or a real move, never a fresh sentinel |
| IterativeDeepening.DeepenClock | game_agent.py:358-369 | the clock after the deepening loop: at least one poll lower than at the start, and no lower than `AfterTimeout` of the start, that is one poll lower than at the start when it starts below the threshold and no lower than `threshold - 2` otherwise, so `get_move` returns before the timer runs out whenever the threshold is at least 2 and the clock starts at or above it |
| IterativeDeepening.CumulativePollsMonotone | game_agent.py:359-363 | the polls of depths 1 to d grow with d |
| IterativeDeepening.DeepenFrom | game_agent.py:359-363 | entered after depths 1 to d - 1 completed with real moves, the loop ends with the move of the last such depth |
| IterativeDeepening.DeepeningReturnsLastCompleted | game_agent.py:356-369 | `get_move` returns the move of the last depth that completed with a non-sentinel move before a depth timed out or returned `(-1, -1)`, and `(-1, -1)` if none did |
| IterativeDeepening.DeepeningWithoutMoves | game_agent.py:359-362 | a root without legal moves yields `(-1, -1)` whatever the clock |
| IterativeDeepening.DeepeningTimesOutAtFirstDepth | game_agent.py:365-369 | a deadline that expires before depth 1 completes yields `(-1, -1)` |
| IterativeDeepening.DeepeningFindsMove | game_agent.py:356-369 | with time for an unpruned depth-1 search and a legal move that is not a certain loss, `get_move` returns a real move |
| IterativeDeepening.DeepeningAllMovesLosing | game_agent.py:419-428 | when every legal move is a certain loss at depth 1, `get_move` returns `(-1, -1)` whatever the clock |
| AlphaBetaAgent.AlphaBetaPlayer.constructor | game_agent.py:174-178 | stores the search depth and the timer threshold |
| AlphaBetaAgent.AlphaBetaPlayer.TimeLeft | game_agent.py:413 | a clock reading returns the current time left and consumes one unit |
| AlphaBetaAgent.AlphaBetaPlayer.Terminal | game_agent.py:466-484 | times out exactly when the reading is below the threshold; otherwise reports whether there are no legal moves |
| AlphaBetaAgent.AlphaBetaPlayer.MaxValue | game_agent.py:398-428 | completes exactly when the clock allows all polls of the uninterrupted run; then returns that run's score and move; otherwise propagates the timeout; the clock afterwards is given exactly |
| AlphaBetaAgent.AlphaBetaPlayer.MinValue | game_agent.py:431-460 | the mirror image for `min_value` |
| AlphaBetaAgent.AlphaBetaPlayer.Alphabeta | game_agent.py:371-464 | the root move of `max_value` over the window, default (-inf, +inf), or the timeout |
| AlphaBetaAgent.AlphaBetaPlayer.GetMove | game_agent.py:324-369 | returns the result of the deepening loop for the clock it is given, and leaves the clock exactly where `DeepenClock` says: lowered by at least one poll, one poll lower than at the start when it starts below the threshold and no lower than `threshold - 2` otherwise; when the threshold is at least 2 and the clock starts at or above it, the clock is still non-negative on return, so it returns before the timer runs out; the timeout never escapes |
| Scenarios.TieBreaksDiffer | game_agent.py:285-288 | with two tied moves, minimax keeps the second and alpha-beta the first, while both report the same value |
| Scenarios.SingleLosingMove | game_agent.py:419-428 | with one legal move that is a certain loss, minimax plays it but iterative deepening returns `(-1, -1)` |

## Left out

- The heuristics `custom_score`, `custom_score_2` and `custom_score_3` are left out. They are floating-point formulas over the board, which is not part of this model. The evaluator is each node's `eval`.
- Scores are integers or ±infinity. Fractional scores and NaN are not modelled.
- `isolation.Board` is not part of this model. Its legal-move enumeration is a node's child list, and `forecast_move` is the step to a child.
- Wall-clock time is not modelled. `time_left()` is a counter that each poll lowers by one unit. Real polls consume varying amounts of time; only the strict `<` comparison with the threshold and the polling points are kept.
- The unbounded `itertools.count(1)` loop is bounded by the clock: every depth polls at least twice. No separate maximum depth is modelled.
- `IsolationPlayer.__init__` is reduced to a constructor that stores the depth and the threshold, without its default arguments (`search_depth=3`, `timeout=10.`). `score_fn` is not a field, because evaluation lives in the tree. The initial `time_left = None` is an unconstrained integer.
- Python exceptions are modelled as the `Timeout` result, which each search layer returns to its caller. Only the two `get_move` methods turn it into a move.
