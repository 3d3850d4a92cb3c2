/**
 * Fail-soft alpha-beta search as pure functions: what `max_value` and `min_value` return when the
 * clock never runs out, and how many clock polls they make. The cutoffs are non-strict
 * (`>= beta`, `<= alpha`) and the running best is replaced only by a strictly better score, so
 * ties keep the first move.
 */
module AlphaBetaSearch {
  import opened Scores
  import opened GameTree

  /** The outcome of an uninterrupted run: score, chosen move and clock polls made. */
  datatype Run = Run(score: Score, move: Move, polls: nat)

  /** `max_value`: a stop node yields its evaluation and the sentinel, otherwise the loop over the children. */
  function MaxValueRun(n: Node, depth: nat, alpha: Score, beta: Score): (r: Run)
    decreases n, 1, 0
    ensures r.polls >= 2
  {
    if IsStop(n, depth) then Run(n.eval, NoMove, 2)
    else MaxLoop(n, depth, alpha, beta, 0, Run(NegInf, NoMove, 2))
  }

  /** The loop of `max_value` from child `i` on, with the current `alpha` and running best. */
  function MaxLoop(n: Node, depth: nat, alpha: Score, beta: Score, i: nat, best: Run): (r: Run)
    requires depth >= 1 && i <= |n.children|
    decreases n, 0, |n.children| - i
    ensures r.polls >= best.polls
  {
    if i == |n.children| then best
    else
      var next := MaxUpdate(best, MinValueRun(n.children[i].next, depth - 1, alpha, beta), n.children[i].move);
      if Le(beta, next.score) then next
      else MaxLoop(n, depth, Max(alpha, next.score), beta, i + 1, next)
  }

  /**
   * `max(best, (score, move), key=...)` in `max_value`: the child's run `c` replaces the running
   * best only when its score is strictly larger; the polls add up either way.
   */
  function MaxUpdate(best: Run, c: Run, mv: Move): (r: Run)
    ensures r.score == Max(best.score, c.score) && r.polls == best.polls + c.polls
    ensures Lt(best.score, c.score) ==> r.move == mv
    ensures !Lt(best.score, c.score) ==> r.move == best.move
  {
    if Lt(best.score, c.score) then Run(c.score, mv, best.polls + c.polls)
    else best.(polls := best.polls + c.polls)
  }

  /** `min(best, (score, move), key=...)` in `min_value`: replaced only by a strictly smaller score. */
  function MinUpdate(best: Run, c: Run, mv: Move): (r: Run)
    ensures r.score == Min(best.score, c.score) && r.polls == best.polls + c.polls
    ensures Lt(c.score, best.score) ==> r.move == mv
    ensures !Lt(c.score, best.score) ==> r.move == best.move
  {
    if Lt(c.score, best.score) then Run(c.score, mv, best.polls + c.polls)
    else best.(polls := best.polls + c.polls)
  }

  /** `min_value`: the mirror image of `max_value`. */
  function MinValueRun(n: Node, depth: nat, alpha: Score, beta: Score): (r: Run)
    decreases n, 1, 0
    ensures r.polls >= 2
  {
    if IsStop(n, depth) then Run(n.eval, NoMove, 2)
    else MinLoop(n, depth, alpha, beta, 0, Run(PosInf, NoMove, 2))
  }

  /** The loop of `min_value` from child `i` on, with the current `beta` and running best. */
  function MinLoop(n: Node, depth: nat, alpha: Score, beta: Score, i: nat, best: Run): (r: Run)
    requires depth >= 1 && i <= |n.children|
    decreases n, 0, |n.children| - i
    ensures r.polls >= best.polls
  {
    if i == |n.children| then best
    else
      var next := MinUpdate(best, MaxValueRun(n.children[i].next, depth - 1, alpha, beta), n.children[i].move);
      if Le(next.score, alpha) then next
      else MinLoop(n, depth, alpha, Min(beta, next.score), i + 1, next)
  }

  /**
   * An unfolding step, not a property: one iteration of `max_value`'s loop (search child `i`,
   * update the running best, cut off or go on), stated for the loop invariant of the method.
   */
  lemma MaxLoopStep(n: Node, depth: nat, alpha: Score, beta: Score, i: nat, best: Run)
    requires depth >= 1 && i < |n.children|
    ensures var next := MaxUpdate(best, MinValueRun(n.children[i].next, depth - 1, alpha, beta), n.children[i].move);
      MaxLoop(n, depth, alpha, beta, i, best)
        == if Le(beta, next.score) then next else MaxLoop(n, depth, Max(alpha, next.score), beta, i + 1, next)
    ensures MaxLoop(n, depth, alpha, beta, i, best).polls
        >= best.polls + MinValueRun(n.children[i].next, depth - 1, alpha, beta).polls
  {
  }

  /** An unfolding step, not a property: one iteration of `min_value`'s loop. */
  lemma MinLoopStep(n: Node, depth: nat, alpha: Score, beta: Score, i: nat, best: Run)
    requires depth >= 1 && i < |n.children|
    ensures var next := MinUpdate(best, MaxValueRun(n.children[i].next, depth - 1, alpha, beta), n.children[i].move);
      MinLoop(n, depth, alpha, beta, i, best)
        == if Le(next.score, alpha) then next else MinLoop(n, depth, alpha, Min(beta, next.score), i + 1, next)
    ensures MinLoop(n, depth, alpha, beta, i, best).polls
        >= best.polls + MaxValueRun(n.children[i].next, depth - 1, alpha, beta).polls
  {
  }

  /**
   * The fail-soft window property of a returned score `r` against the true value `v`: exact inside
   * the window, and otherwise a bound on the same side of the window as `v`.
   */
  predicate FailSoft(r: Score, v: Score, alpha: Score, beta: Score) {
    && (Le(v, alpha) ==> Le(v, r) && Le(r, alpha))
    && (Lt(alpha, v) && Lt(v, beta) ==> r == v)
    && (Le(beta, v) ==> Le(beta, r) && Le(r, v))
  }

  /** `max_value` satisfies the fail-soft property against the minimax value. */
  lemma {:induction false} MaxValueFailSoft(n: Node, depth: nat, alpha: Score, beta: Score)
    requires Lt(alpha, beta)
    ensures FailSoft(MaxValueRun(n, depth, alpha, beta).score, MinimaxValue(n, depth, true), alpha, beta)
    decreases n, 1, 0
  {
    if !IsStop(n, depth) {
      MaxLoopFailSoft(n, depth, alpha, alpha, beta, 0, Run(NegInf, NoMove, 2));
    }
  }

  /** `min_value` satisfies the fail-soft property against the minimax value. */
  lemma {:induction false} MinValueFailSoft(n: Node, depth: nat, alpha: Score, beta: Score)
    requires Lt(alpha, beta)
    ensures FailSoft(MinValueRun(n, depth, alpha, beta).score, MinimaxValue(n, depth, false), alpha, beta)
    decreases n, 1, 0
  {
    if !IsStop(n, depth) {
      MinLoopFailSoft(n, depth, alpha, beta, beta, 0, Run(PosInf, NoMove, 2));
    }
  }

  /**
   * One step of `max_value`'s loop on scores alone: `m` is the best child value so far, `b` the
   * running best, `c` the score the child search returned for a child of value `v`. Either the
   * new running best cuts off, and then it is `c` with `beta <= c <= v`, or the loop invariant
   * holds again for the raised `alpha`.
   */
  lemma MaxStepScores(alpha0: Score, alpha: Score, beta: Score, m: Score, b: Score, v: Score, c: Score)
    requires Lt(alpha0, beta) && Lt(b, beta) && alpha == Max(alpha0, b)
    requires Lt(alpha0, m) ==> b == m
    requires Le(m, alpha0) ==> Le(m, b) && Le(b, alpha0)
    requires FailSoft(c, v, alpha, beta)
    ensures var b' := if Lt(b, c) then c else b;
      && (Le(beta, b') ==> b' == c && Le(beta, c) && Le(c, v))
      && (!Le(beta, b') ==>
            && Lt(b', beta) && Max(alpha, b') == Max(alpha0, b')
            && (Lt(alpha0, Max(m, v)) ==> b' == Max(m, v))
            && (Le(Max(m, v), alpha0) ==> Le(Max(m, v), b') && Le(b', alpha0)))
  {
  }

  /** The mirror image of `MaxStepScores` for `min_value`'s loop. */
  lemma MinStepScores(alpha: Score, beta0: Score, beta: Score, m: Score, b: Score, v: Score, c: Score)
    requires Lt(alpha, beta0) && Lt(alpha, b) && beta == Min(beta0, b)
    requires Lt(m, beta0) ==> b == m
    requires Le(beta0, m) ==> Le(beta0, b) && Le(b, m)
    requires FailSoft(c, v, alpha, beta)
    ensures var b' := if Lt(c, b) then c else b;
      && (Le(b', alpha) ==> b' == c && Le(c, alpha) && Le(v, c))
      && (!Le(b', alpha) ==>
            && Lt(alpha, b') && Min(beta, b') == Min(beta0, b')
            && (Lt(Min(m, v), beta0) ==> b' == Min(m, v))
            && (Le(beta0, Min(m, v)) ==> Le(beta0, b') && Le(b', Min(m, v))))
  {
  }

  /**
   * The loop invariant of `max_value` against the original window `(alpha0, beta)`: no cutoff yet,
   * `alpha` is the original raised to the running best, and the running best is the best of the
   * children seen when that lies above `alpha0`, a bound between it and `alpha0` otherwise.
   */
  lemma {:induction false} MaxLoopFailSoft(n: Node, depth: nat, alpha0: Score, alpha: Score, beta: Score, i: nat, best: Run)
    requires !IsStop(n, depth) && i <= |n.children|
    requires Lt(alpha0, beta) && Lt(best.score, beta) && alpha == Max(alpha0, best.score)
    requires Lt(alpha0, BestOfFirst(n, depth, true, i)) ==> best.score == BestOfFirst(n, depth, true, i)
    requires Le(BestOfFirst(n, depth, true, i), alpha0) ==>
      Le(BestOfFirst(n, depth, true, i), best.score) && Le(best.score, alpha0)
    ensures FailSoft(MaxLoop(n, depth, alpha, beta, i, best).score, MinimaxValue(n, depth, true), alpha0, beta)
    decreases n, 0, |n.children| - i
  {
    var m := BestOfFirst(n, depth, true, i);
    if i < |n.children| {
      var c := MinValueRun(n.children[i].next, depth - 1, alpha, beta);
      var v := ChildValue(n, depth, true, i);
      MinValueFailSoft(n.children[i].next, depth - 1, alpha, beta);
      var next := MaxUpdate(best, c, n.children[i].move);
      assert BestOfFirst(n, depth, true, i + 1) == Max(m, v);
      MaxStepScores(alpha0, alpha, beta, m, best.score, v, c.score);
      MaxLoopStep(n, depth, alpha, beta, i, best);
      if Le(beta, next.score) {
        BestOfFirstMonotone(n, depth, true, i + 1, |n.children|);
      } else {
        MaxLoopFailSoft(n, depth, alpha0, Max(alpha, next.score), beta, i + 1, next);
      }
    }
  }

  /** The mirror image of `MaxLoopFailSoft` for the loop of `min_value`. */
  lemma {:induction false} MinLoopFailSoft(n: Node, depth: nat, alpha: Score, beta0: Score, beta: Score, i: nat, best: Run)
    requires !IsStop(n, depth) && i <= |n.children|
    requires Lt(alpha, beta0) && Lt(alpha, best.score) && beta == Min(beta0, best.score)
    requires Lt(BestOfFirst(n, depth, false, i), beta0) ==> best.score == BestOfFirst(n, depth, false, i)
    requires Le(beta0, BestOfFirst(n, depth, false, i)) ==>
      Le(beta0, best.score) && Le(best.score, BestOfFirst(n, depth, false, i))
    ensures FailSoft(MinLoop(n, depth, alpha, beta, i, best).score, MinimaxValue(n, depth, false), alpha, beta0)
    decreases n, 0, |n.children| - i
  {
    var m := BestOfFirst(n, depth, false, i);
    if i < |n.children| {
      var c := MaxValueRun(n.children[i].next, depth - 1, alpha, beta);
      var v := ChildValue(n, depth, false, i);
      MaxValueFailSoft(n.children[i].next, depth - 1, alpha, beta);
      var next := MinUpdate(best, c, n.children[i].move);
      assert BestOfFirst(n, depth, false, i + 1) == Min(m, v);
      MinStepScores(alpha, beta0, beta, m, best.score, v, c.score);
      MinLoopStep(n, depth, alpha, beta, i, best);
      if Le(next.score, alpha) {
        BestOfFirstMonotone(n, depth, false, i + 1, |n.children|);
      } else {
        MinLoopFailSoft(n, depth, alpha, beta0, Min(beta, next.score), i + 1, next);
      }
    }
  }

  /** With the default window, `alphabeta`'s root score is exactly the minimax value. */
  lemma AlphaBetaRootValue(n: Node, depth: nat)
    ensures MaxValueRun(n, depth, NegInf, PosInf).score == MinimaxValue(n, depth, true)
  {
    MaxValueFailSoft(n, depth, NegInf, PosInf);
  }

  /** Child `i` is the first child, in enumeration order, whose value is `v`; all earlier ones are below it. */
  ghost predicate FirstAt(n: Node, depth: nat, i: nat, v: Score)
    requires depth >= 1 && i < |n.children|
  {
    && ChildValue(n, depth, true, i) == v
    && forall j :: 0 <= j < i ==> Lt(ChildValue(n, depth, true, j), v)
  }

  /**
   * The move `alphabeta` returns at the root: the sentinel at a stop node or when every child is a
   * certain loss, otherwise the move of the first child whose value is the maximum.
   */
  ghost predicate IsFirstBestMove(n: Node, depth: nat, mv: Move) {
    var v := MinimaxValue(n, depth, true);
    if IsStop(n, depth) || v == NegInf then mv == NoMove
    else exists i :: 0 <= i < |n.children| && n.children[i].move == mv && FirstAt(n, depth, i, v)
  }

  /**
   * The root loop under the default window: `alpha` is the running best, which is the best of the
   * children seen, still below `PosInf`, and carries the move of the first child attaining it (`w`).
   */
  lemma {:induction false} RootLoopFirstBest(n: Node, depth: nat, i: nat, best: Run, w: nat)
    requires !IsStop(n, depth) && i <= |n.children|
    requires best.score == BestOfFirst(n, depth, true, i) && Lt(best.score, PosInf)
    requires best.score == NegInf ==> best.move == NoMove
    requires best.score != NegInf ==> w < i && n.children[w].move == best.move && FirstAt(n, depth, w, best.score)
    ensures IsFirstBestMove(n, depth, MaxLoop(n, depth, best.score, PosInf, i, best).move)
    decreases |n.children| - i
  {
    var cs := n.children;
    if i == |cs| {
      if best.score != NegInf {
        assert cs[w].move == best.move && FirstAt(n, depth, w, best.score);
      }
    } else {
      var c := MinValueRun(cs[i].next, depth - 1, best.score, PosInf);
      var v := ChildValue(n, depth, true, i);
      MinValueFailSoft(cs[i].next, depth - 1, best.score, PosInf);
      BestOfFirstIsBest(n, depth, true, i);
      assert BestOfFirst(n, depth, true, i + 1) == Max(best.score, v);
      if Lt(best.score, c.score) {
        assert c.score == v;
        var next := MaxUpdate(best, c, cs[i].move);
        assert FirstAt(n, depth, i, v);
        if Le(PosInf, v) {
          BestOfFirstMonotone(n, depth, true, i + 1, |cs|);
          assert MinimaxValue(n, depth, true) == PosInf;
        } else {
          RootLoopFirstBest(n, depth, i + 1, next, i);
        }
      } else {
        assert Le(v, best.score);
        RootLoopFirstBest(n, depth, i + 1, MaxUpdate(best, c, cs[i].move), w);
      }
    }
  }

  /**
   * At the root, `alphabeta` returns the first legal move whose minimax value is maximal, and the
   * sentinel when there is none or every move is a certain loss.
   */
  lemma AlphaBetaRootMove(n: Node, depth: nat)
    ensures IsFirstBestMove(n, depth, MaxValueRun(n, depth, NegInf, PosInf).move)
  {
    if !IsStop(n, depth) {
      RootLoopFirstBest(n, depth, 0, Run(NegInf, NoMove, 2), 0);
    }
  }

  /** `max_value` polls the clock no more often than unpruned minimax does on the same tree and depth. */
  lemma {:induction false} MaxValuePollsBound(n: Node, depth: nat, alpha: Score, beta: Score)
    ensures MaxValueRun(n, depth, alpha, beta).polls <= Polls(n, depth)
    decreases n, 1, 0
  {
    if !IsStop(n, depth) {
      MaxLoopPollsBound(n, depth, alpha, beta, 0, Run(NegInf, NoMove, 2));
    }
  }

  /** `min_value` polls the clock no more often than unpruned minimax does on the same tree and depth. */
  lemma {:induction false} MinValuePollsBound(n: Node, depth: nat, alpha: Score, beta: Score)
    ensures MinValueRun(n, depth, alpha, beta).polls <= Polls(n, depth)
    decreases n, 1, 0
  {
    if !IsStop(n, depth) {
      MinLoopPollsBound(n, depth, alpha, beta, 0, Run(PosInf, NoMove, 2));
    }
  }

  /** The rest of `max_value`'s loop polls at most as often as minimax on the children not yet seen. */
  lemma {:induction false} MaxLoopPollsBound(n: Node, depth: nat, alpha: Score, beta: Score, i: nat, best: Run)
    requires depth >= 1 && i <= |n.children|
    ensures MaxLoop(n, depth, alpha, beta, i, best).polls
      <= best.polls + ChildPolls(n, depth, |n.children|) - ChildPolls(n, depth, i)
    decreases n, 0, |n.children| - i
  {
    if i < |n.children| {
      var c := MinValueRun(n.children[i].next, depth - 1, alpha, beta);
      MinValuePollsBound(n.children[i].next, depth - 1, alpha, beta);
      ChildPollsMonotone(n, depth, i + 1, |n.children|);
      var next := MaxUpdate(best, c, n.children[i].move);
      if !Le(beta, next.score) {
        MaxLoopPollsBound(n, depth, Max(alpha, next.score), beta, i + 1, next);
      }
    }
  }

  /** The rest of `min_value`'s loop polls at most as often as minimax on the children not yet seen. */
  lemma {:induction false} MinLoopPollsBound(n: Node, depth: nat, alpha: Score, beta: Score, i: nat, best: Run)
    requires depth >= 1 && i <= |n.children|
    ensures MinLoop(n, depth, alpha, beta, i, best).polls
      <= best.polls + ChildPolls(n, depth, |n.children|) - ChildPolls(n, depth, i)
    decreases n, 0, |n.children| - i
  {
    if i < |n.children| {
      var c := MaxValueRun(n.children[i].next, depth - 1, alpha, beta);
      MaxValuePollsBound(n.children[i].next, depth - 1, alpha, beta);
      ChildPollsMonotone(n, depth, i + 1, |n.children|);
      var next := MinUpdate(best, c, n.children[i].move);
      if !Le(next.score, alpha) {
        MinLoopPollsBound(n, depth, alpha, Min(beta, next.score), i + 1, next);
      }
    }
  }
}
