/**
 * Iterative deepening as a pure function of the clock slack: alpha-beta at depth 1, 2, 3, ...
 * until a depth times out or yields the sentinel, keeping the move of the last depth that
 * completed with a real move.
 */
module IterativeDeepening {
  import opened Scores
  import opened GameTree
  import opened AlphaBetaSearch
  import opened Deadline

  /** `alphabeta(game, depth)` with its default window `(-inf, +inf)`. */
  function RootRun(game: Node, depth: nat): Run {
    MaxValueRun(game, depth, NegInf, PosInf)
  }

  /**
   * The deepening loop from `depth` on, with `slack` polls left and `best` the move kept so far.
   * A depth that needs more polls than are left times out and `best` is returned; a depth that
   * yields the sentinel stops the loop and `best` is returned too.
   */
  function Deepen(game: Node, depth: nat, slack: int, best: Move): (r: Move)
    decreases slack
    ensures r == best || r != NoMove
  {
    var run := RootRun(game, depth);
    if slack < run.polls || run.move == NoMove then best
    else Deepen(game, depth + 1, slack - run.polls, run.move)
  }

  /**
   * The clock after the deepening loop entered at `depth` with the clock reading `timeLeft`: every
   * completed depth lowers it by its polls, and a depth that times out leaves it just below the
   * reading that aborted. It ends one poll lower than at the start when it starts below the
   * threshold, and no lower than `threshold - 2` otherwise, so the loop returns before the timer
   * runs out whenever the threshold is at least 2 and the clock starts at or above it.
   */
  function DeepenClock(game: Node, depth: nat, timeLeft: int, threshold: int): (r: int)
    decreases Slack(timeLeft, threshold)
    ensures AfterTimeout(timeLeft, threshold) <= r < timeLeft
  {
    var run := RootRun(game, depth);
    if Slack(timeLeft, threshold) < run.polls then AfterTimeout(timeLeft, threshold)
    else if run.move == NoMove then timeLeft - run.polls
    else DeepenClock(game, depth + 1, timeLeft - run.polls, threshold)
  }

  /** The polls of the completed searches at depths 1 to `d`. */
  function CumulativePolls(game: Node, d: nat): nat {
    if d == 0 then 0 else CumulativePolls(game, d - 1) + RootRun(game, d).polls
  }

  lemma {:induction false} CumulativePollsMonotone(game: Node, d: nat, e: nat)
    requires d <= e
    ensures CumulativePolls(game, d) <= CumulativePolls(game, e)
    decreases e
  {
    if d < e {
      CumulativePollsMonotone(game, d, e - 1);
    }
  }

  /** The deepening loop entered at `depth`, after depths 1 to `depth - 1` completed with real moves. */
  lemma {:induction false} DeepenFrom(game: Node, slack: int, last: nat, depth: nat)
    requires 1 <= depth <= last + 1
    requires last > 0 ==> CumulativePolls(game, last) <= slack
    requires forall d :: 1 <= d <= last ==> RootRun(game, d).move != NoMove
    requires slack < CumulativePolls(game, last + 1) || RootRun(game, last + 1).move == NoMove
    ensures Deepen(game, depth, slack - CumulativePolls(game, depth - 1), if depth == 1 then NoMove else RootRun(game, depth - 1).move)
         == if last == 0 then NoMove else RootRun(game, last).move
    decreases last + 1 - depth
  {
    if depth <= last {
      CumulativePollsMonotone(game, depth, last);
      DeepenFrom(game, slack, last, depth + 1);
    }
  }

  /**
   * `get_move`'s result: when depths 1 to `last` complete within the slack with real moves and
   * depth `last + 1` times out or yields the sentinel, the move of depth `last` (the sentinel
   * when `last` is 0).
   */
  lemma DeepeningReturnsLastCompleted(game: Node, slack: int, last: nat)
    requires last > 0 ==> CumulativePolls(game, last) <= slack
    requires forall d :: 1 <= d <= last ==> RootRun(game, d).move != NoMove
    requires slack < CumulativePolls(game, last + 1) || RootRun(game, last + 1).move == NoMove
    ensures Deepen(game, 1, slack, NoMove) == if last == 0 then NoMove else RootRun(game, last).move
  {
    DeepenFrom(game, slack, last, 1);
  }

  /** A root without legal moves yields the sentinel whatever the clock. */
  lemma DeepeningWithoutMoves(game: Node, slack: int)
    requires game.children == []
    ensures Deepen(game, 1, slack, NoMove) == NoMove
  {
    DeepeningReturnsLastCompleted(game, slack, 0);
  }

  /** A deadline that expires before depth 1 completes yields the sentinel. */
  lemma DeepeningTimesOutAtFirstDepth(game: Node, slack: int)
    requires slack < RootRun(game, 1).polls
    ensures Deepen(game, 1, slack, NoMove) == NoMove
  {
    DeepeningReturnsLastCompleted(game, slack, 0);
  }

  /**
   * When the slack covers an unpruned depth-1 search and some legal move is not a certain loss,
   * `get_move` returns a real move, the first best one of some depth it completed.
   */
  lemma DeepeningFindsMove(game: Node, slack: int)
    requires Polls(game, 1) <= slack && OnBoardMoves(game)
    requires exists i :: 0 <= i < |game.children| && ChildValue(game, 1, true, i) != NegInf
    ensures Deepen(game, 1, slack, NoMove) != NoMove
  {
    var i :| 0 <= i < |game.children| && ChildValue(game, 1, true, i) != NegInf;
    MaxValuePollsBound(game, 1, NegInf, PosInf);
    MinimaxValueIsBestChild(game, 1, true);
    AlphaBetaRootMove(game, 1);
    assert MinimaxValue(game, 1, true) != NegInf;
    var run := RootRun(game, 1);
    assert run.move != NoMove;
    assert Deepen(game, 1, slack, NoMove) == Deepen(game, 2, slack - run.polls, run.move);
  }

  /**
   * When every legal move is a certain loss at depth 1, `get_move` returns the sentinel even though
   * legal moves exist, whatever the clock: depth 1 keeps the initial `(-inf, (-1, -1))`.
   */
  lemma DeepeningAllMovesLosing(game: Node, slack: int)
    requires forall i :: 0 <= i < |game.children| ==> ChildValue(game, 1, true, i) == NegInf
    ensures Deepen(game, 1, slack, NoMove) == NoMove
  {
    if game.children != [] {
      MinimaxValueIsBestChild(game, 1, true);
    }
    AlphaBetaRootMove(game, 1);
  }
}
