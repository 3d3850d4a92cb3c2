/** `MinimaxPlayer`: fixed-depth minimax search without pruning. */
module MinimaxAgent {
  import opened Scores
  import opened Deadline
  import opened GameTree

  /**
   * Child `i` is the last child, in enumeration order, whose value is the node's minimax value:
   * every later child is strictly worse for the role.
   */
  ghost predicate LastBestAt(n: Node, depth: nat, maximizing: bool, i: nat)
    requires depth >= 1 && i < |n.children|
  {
    var v := MinimaxValue(n, depth, maximizing);
    && ChildValue(n, depth, maximizing, i) == v
    && forall j :: i < j < |n.children| ==> Worse(maximizing, ChildValue(n, depth, maximizing, j), v)
  }

  /**
   * The move fixed-depth minimax keeps: the sentinel at a stop node, otherwise the move of the
   * last best child, since an equal score replaces the incumbent.
   */
  ghost predicate IsLastBestMove(n: Node, depth: nat, maximizing: bool, mv: Move) {
    if IsStop(n, depth) then mv == NoMove
    else exists i :: 0 <= i < |n.children| && n.children[i].move == mv && LastBestAt(n, depth, maximizing, i)
  }

  /** The last-best move exists and is unique, so it determines the minimax move completely. */
  lemma LastBestMoveIsDetermined(n: Node, depth: nat, maximizing: bool, m1: Move, m2: Move)
    requires IsLastBestMove(n, depth, maximizing, m1) && IsLastBestMove(n, depth, maximizing, m2)
    ensures m1 == m2
  {
    if !IsStop(n, depth) {
      var i :| 0 <= i < |n.children| && n.children[i].move == m1 && LastBestAt(n, depth, maximizing, i);
      var k :| 0 <= k < |n.children| && n.children[k].move == m2 && LastBestAt(n, depth, maximizing, k);
      // both children carry the node's value, and neither is strictly worse than the other
      assert !Worse(maximizing, ChildValue(n, depth, maximizing, k), ChildValue(n, depth, maximizing, i));
    }
  }

  /**
   * With at least one legal move and depth at least one, the minimax move is a legal move and
   * never the sentinel, even when every child scores `NegInf`.
   */
  lemma {:induction false} MinimaxMoveIsLegal(n: Node, depth: nat, maximizing: bool)
    requires !IsStop(n, depth) && OnBoardMoves(n)
    ensures exists i :: 0 <= i < |n.children| && IsLastBestMove(n, depth, maximizing, n.children[i].move)
    ensures forall mv :: IsLastBestMove(n, depth, maximizing, mv) ==> mv != NoMove
  {
    var v := MinimaxValue(n, depth, maximizing);
    MinimaxValueIsBestChild(n, depth, maximizing);
    var j :| 0 <= j < |n.children| && ChildValue(n, depth, maximizing, j) == v;
    // the last child attaining the value
    var i := j;
    while i + 1 < |n.children| && exists l :: i < l < |n.children| && ChildValue(n, depth, maximizing, l) == v
      invariant j <= i < |n.children| && ChildValue(n, depth, maximizing, i) == v
      decreases |n.children| - i
    {
      var l :| i < l < |n.children| && ChildValue(n, depth, maximizing, l) == v;
      i := l;
    }
    forall l | i < l < |n.children|
      ensures Worse(maximizing, ChildValue(n, depth, maximizing, l), v)
    {
      assert !Worse(maximizing, v, ChildValue(n, depth, maximizing, l));
    }
    assert LastBestAt(n, depth, maximizing, i);
    assert IsLastBestMove(n, depth, maximizing, n.children[i].move);
  }

  class MinimaxPlayer {
    /** The fixed search depth. */
    const searchDepth: nat
    /** `TIMER_THRESHOLD`: the search aborts once a clock reading is below it. */
    const timerThreshold: int
    /** The turn clock's next reading. */
    var timeLeft: int

    constructor (searchDepth: nat, timeout: int)
      ensures this.searchDepth == searchDepth && this.timerThreshold == timeout
    {
      this.searchDepth := searchDepth;
      this.timerThreshold := timeout;
    }

    /** One reading of the turn clock; each reading consumes one unit of time. */
    method TimeLeft() returns (t: int)
      modifies this
      ensures t == old(timeLeft) && timeLeft == old(timeLeft) - 1
    {
      t := timeLeft;
      timeLeft := timeLeft - 1;
    }

    /** Polls the clock, then reports whether `game` has no legal moves. */
    method Terminal(game: Node) returns (r: Result<bool>)
      modifies this
      ensures timeLeft == old(timeLeft) - 1
      ensures r.Timeout? <==> old(timeLeft) < timerThreshold
      ensures r.Done? ==> r.value == (game.children == [])
    {
      var t := TimeLeft();
      if t < timerThreshold {
        return Timeout;
      }
      return Done(game.children == []);
    }

    /**
     * The inner `recurse`: depth-limited minimax. It completes exactly when the clock allows all of
     * its polls, and then returns the minimax value and the last best move.
     */
    method Recurse(game: Node, depth: nat, maximizing: bool := true) returns (r: Result<Scored>)
      modifies this
      decreases game
      ensures r.Done? <==> Polls(game, depth) <= Slack(old(timeLeft), timerThreshold)
      ensures r.Done? ==> timeLeft == old(timeLeft) - Polls(game, depth)
      ensures r.Timeout? ==> timeLeft == AfterTimeout(old(timeLeft), timerThreshold)
      ensures r.Done? ==> r.value.score == MinimaxValue(game, depth, maximizing)
      ensures r.Done? ==> IsLastBestMove(game, depth, maximizing, r.value.move)
    {
      var t := TimeLeft();
      if t < timerThreshold {
        return Timeout;
      }
      var terminal := Terminal(game);
      if terminal.Timeout? {
        return Timeout;
      }
      if terminal.value || depth == 0 {
        return Done(Scored(game.eval, NoMove));
      }
      var value := if maximizing then NegInf else PosInf;
      var bestMove := NoMove;
      ghost var bestIndex := 0;
      for i := 0 to |game.children|
        invariant timeLeft == old(timeLeft) - 2 - ChildPolls(game, depth, i)
        invariant 2 + ChildPolls(game, depth, i) <= Slack(old(timeLeft), timerThreshold)
        invariant value == BestOfFirst(game, depth, maximizing, i)
        invariant i == 0 ==> bestMove == NoMove
        invariant i > 0 ==> bestIndex < i && game.children[bestIndex].move == bestMove
        invariant i > 0 ==> ChildValue(game, depth, maximizing, bestIndex) == value
        invariant i > 0 ==> forall j :: bestIndex < j < i ==> Worse(maximizing, ChildValue(game, depth, maximizing, j), value)
      {
        var branch := game.children[i];
        var child := Recurse(branch.next, depth - 1, !maximizing);
        if child.Timeout? {
          ChildPollsMonotone(game, depth, i + 1, |game.children|);
          return Timeout;
        }
        var score := child.value.score;
        assert score == ChildValue(game, depth, maximizing, i);
        assert BestOfFirst(game, depth, maximizing, i + 1) == Extremum(maximizing, value, score);
        if Extremum(maximizing, value, score) == score {
          value, bestMove := score, branch.move;
          bestIndex := i;
        }
      }
      assert LastBestAt(game, depth, maximizing, bestIndex);
      return Done(Scored(value, bestMove));
    }

    /** `minimax`: the move of a depth-limited search from the maximizing side, or the timeout. */
    method Minimax(game: Node, depth: nat) returns (r: Result<Move>)
      modifies this
      ensures r.Done? <==> Polls(game, depth) <= Slack(old(timeLeft), timerThreshold)
      ensures r.Done? ==> timeLeft == old(timeLeft) - Polls(game, depth)
      ensures r.Timeout? ==> timeLeft == AfterTimeout(old(timeLeft), timerThreshold)
      ensures r.Done? ==> IsLastBestMove(game, depth, true, r.value)
    {
      var result := Recurse(game, depth);
      if result.Timeout? {
        return Timeout;
      }
      return Done(result.value.move);
    }

    /**
     * `get_move`: the minimax move at the configured depth when the search finishes in time,
     * otherwise the sentinel; nothing of an interrupted search is kept.
     */
    method GetMove(game: Node, timeLeft: int) returns (move: Move)
      modifies this
      ensures Polls(game, searchDepth) <= Slack(timeLeft, timerThreshold) ==>
        IsLastBestMove(game, searchDepth, true, move) && this.timeLeft == timeLeft - Polls(game, searchDepth)
      ensures Slack(timeLeft, timerThreshold) < Polls(game, searchDepth) ==>
        move == NoMove && this.timeLeft == AfterTimeout(timeLeft, timerThreshold)
    {
      this.timeLeft := timeLeft;
      move := NoMove;
      var result := Minimax(game, searchDepth);
      if result.Done? {
        move := result.value;
      }
    }
  }
}
