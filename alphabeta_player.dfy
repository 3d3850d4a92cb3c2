/** `AlphaBetaPlayer`: iterative deepening over fail-soft alpha-beta search, under a cooperative deadline. */
module AlphaBetaAgent {
  import opened Scores
  import opened Deadline
  import opened GameTree
  import opened AlphaBetaSearch
  import opened IterativeDeepening

  /**
   * What a search whose uninterrupted run is `run` returns when the clock reads `timeLeft`: the
   * run's score and move when the clock allows all of its polls, the timeout otherwise.
   */
  function Timed(run: Run, timeLeft: int, threshold: int): Result<Scored> {
    if run.polls <= Slack(timeLeft, threshold) then Done(Scored(run.score, run.move)) else Timeout
  }

  /** The clock after that search: lowered by the run's polls, or stopped at the poll that aborted. */
  function ClockAfter(run: Run, timeLeft: int, threshold: int): int {
    if run.polls <= Slack(timeLeft, threshold) then timeLeft - run.polls else AfterTimeout(timeLeft, threshold)
  }

  class AlphaBetaPlayer {
    /** The configured fixed depth (unused by iterative deepening). */
    const searchDepth: nat
    /** `TIMER_THRESHOLD`: the search aborts once a clock reading is below it. */
    const timerThreshold: int
    /** The turn clock's next reading. */
    var timeLeft: int

    constructor (searchDepth: nat, timeout: int)
      ensures this.searchDepth == searchDepth && this.timerThreshold == timeout
    {
      this.searchDepth := searchDepth;
      this.timerThreshold := timeout;
    }

    /** One reading of the turn clock; each reading consumes one unit of time. */
    method TimeLeft() returns (t: int)
      modifies this
      ensures t == old(timeLeft) && timeLeft == old(timeLeft) - 1
    {
      t := timeLeft;
      timeLeft := timeLeft - 1;
    }

    /** Polls the clock, then reports whether `game` has no legal moves. */
    method Terminal(game: Node) returns (r: Result<bool>)
      modifies this
      ensures timeLeft == old(timeLeft) - 1
      ensures r.Timeout? <==> old(timeLeft) < timerThreshold
      ensures r.Done? ==> r.value == (game.children == [])
    {
      var t := TimeLeft();
      if t < timerThreshold {
        return Timeout;
      }
      return Done(game.children == []);
    }

    /**
     * `max_value`: completes exactly when the clock allows all the polls of the uninterrupted run,
     * and then returns that run's score and move.
     */
    method MaxValue(game: Node, depth: nat, alpha: Score, beta: Score) returns (r: Result<Scored>)
      modifies this
      decreases game
      ensures r == Timed(MaxValueRun(game, depth, alpha, beta), old(timeLeft), timerThreshold)
      ensures timeLeft == ClockAfter(MaxValueRun(game, depth, alpha, beta), old(timeLeft), timerThreshold)
    {
      ghost var target := MaxValueRun(game, depth, alpha, beta);
      var t := TimeLeft();
      if t < timerThreshold {
        return Timeout;
      }
      var terminal := Terminal(game);
      if terminal.Timeout? {
        return Timeout;
      }
      if terminal.value || depth == 0 {
        return Done(Scored(game.eval, NoMove));
      }
      var best := Scored(NegInf, NoMove);
      var a := alpha;
      ghost var polls: nat := 2;
      for i := 0 to |game.children|
        invariant timeLeft == old(timeLeft) - polls
        invariant polls <= Slack(old(timeLeft), timerThreshold)
        invariant MaxLoop(game, depth, a, beta, i, Run(best.score, best.move, polls)) == target
      {
        var branch := game.children[i];
        ghost var run := MinValueRun(branch.next, depth - 1, a, beta);
        ghost var next := MaxUpdate(Run(best.score, best.move, polls), run, branch.move);
        MaxLoopStep(game, depth, a, beta, i, Run(best.score, best.move, polls));
        var child := MinValue(branch.next, depth - 1, a, beta);
        if child.Timeout? {
          return Timeout;
        }
        polls := polls + run.polls;
        if Lt(best.score, child.value.score) {
          best := Scored(child.value.score, branch.move);
        }
        assert next == Run(best.score, best.move, polls);
        if Le(beta, best.score) {
          return Done(best);
        }
        a := Max(a, best.score);
      }
      return Done(best);
    }

    /** `min_value`: the mirror image of `MaxValue`. */
    method MinValue(game: Node, depth: nat, alpha: Score, beta: Score) returns (r: Result<Scored>)
      modifies this
      decreases game
      ensures r == Timed(MinValueRun(game, depth, alpha, beta), old(timeLeft), timerThreshold)
      ensures timeLeft == ClockAfter(MinValueRun(game, depth, alpha, beta), old(timeLeft), timerThreshold)
    {
      ghost var target := MinValueRun(game, depth, alpha, beta);
      var t := TimeLeft();
      if t < timerThreshold {
        return Timeout;
      }
      var terminal := Terminal(game);
      if terminal.Timeout? {
        return Timeout;
      }
      if terminal.value || depth == 0 {
        return Done(Scored(game.eval, NoMove));
      }
      var best := Scored(PosInf, NoMove);
      var b := beta;
      ghost var polls: nat := 2;
      for i := 0 to |game.children|
        invariant timeLeft == old(timeLeft) - polls
        invariant polls <= Slack(old(timeLeft), timerThreshold)
        invariant MinLoop(game, depth, alpha, b, i, Run(best.score, best.move, polls)) == target
      {
        var branch := game.children[i];
        ghost var run := MaxValueRun(branch.next, depth - 1, alpha, b);
        ghost var next := MinUpdate(Run(best.score, best.move, polls), run, branch.move);
        MinLoopStep(game, depth, alpha, b, i, Run(best.score, best.move, polls));
        var child := MaxValue(branch.next, depth - 1, alpha, b);
        if child.Timeout? {
          return Timeout;
        }
        polls := polls + run.polls;
        if Lt(child.value.score, best.score) {
          best := Scored(child.value.score, branch.move);
        }
        assert next == Run(best.score, best.move, polls);
        if Le(best.score, alpha) {
          return Done(best);
        }
        b := Min(b, best.score);
      }
      return Done(best);
    }

    /** `alphabeta`: the root move of `max_value` over the window, by default `(-inf, +inf)`. */
    method Alphabeta(game: Node, depth: nat, alpha: Score := NegInf, beta: Score := PosInf) returns (r: Result<Move>)
      modifies this
      ensures r.Done? <==> Timed(MaxValueRun(game, depth, alpha, beta), old(timeLeft), timerThreshold).Done?
      ensures r.Done? ==> r.value == MaxValueRun(game, depth, alpha, beta).move
      ensures timeLeft == ClockAfter(MaxValueRun(game, depth, alpha, beta), old(timeLeft), timerThreshold)
    {
      var result := MaxValue(game, depth, alpha, beta);
      if result.Timeout? {
        return Timeout;
      }
      return Done(result.value.move);
    }

    /**
     * `get_move`: deepens alpha-beta search one ply at a time until a depth times out or yields the
     * sentinel, and returns the move of the last depth that completed with a real move. The timeout
     * never escapes.
     */
    method GetMove(game: Node, timeLeft: int) returns (move: Move)
      modifies this
      ensures move == Deepen(game, 1, Slack(timeLeft, timerThreshold), NoMove)
      ensures this.timeLeft == DeepenClock(game, 1, timeLeft, timerThreshold)
      ensures AfterTimeout(timeLeft, timerThreshold) <= this.timeLeft < timeLeft
      ensures timerThreshold >= 2 && timeLeft >= timerThreshold ==> this.timeLeft >= 0
    {
      this.timeLeft := timeLeft;
      var bestMove := NoMove;
      var depth := 1;
      while true
        invariant Deepen(game, depth, Slack(this.timeLeft, timerThreshold), bestMove)
               == Deepen(game, 1, Slack(timeLeft, timerThreshold), NoMove)
        invariant DeepenClock(game, depth, this.timeLeft, timerThreshold) == DeepenClock(game, 1, timeLeft, timerThreshold)
        decreases Slack(this.timeLeft, timerThreshold)
      {
        var m := Alphabeta(game, depth);
        if m.Timeout? {
          break;
        }
        if m.value == NoMove {
          break;
        }
        bestMove := m.value;
        depth := depth + 1;
      }
      return bestMove;
    }
  }
}
