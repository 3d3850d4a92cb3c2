/**
 * The game as the search engine sees it: a tree of positions whose children are listed in
 * legal-move enumeration order, each position carrying the evaluator's score from the searching
 * agent's point of view. `forecast_move` is the step from a node to the child under a move.
 */
module GameTree {
  import opened Scores

  /** A board cell (row, column). */
  datatype Move = Move(row: int, col: int)

  /** The sentinel `(-1, -1)`: no legal move, or nothing found yet. */
  const NoMove := Move(-1, -1)

  datatype Node = Node(eval: Score, children: seq<Branch>)
  datatype Branch = Branch(move: Move, next: Node)

  /** A search's result at a node: its score and the move chosen there. */
  datatype Scored = Scored(score: Score, move: Move)

  /** Every legal move at the root is a cell of the board, so none is the sentinel. */
  predicate OnBoardMoves(n: Node) {
    forall i :: 0 <= i < |n.children| ==> n.children[i].move.row >= 0 && n.children[i].move.col >= 0
  }

  /** A node where the search stops: no legal moves (`terminal`) or no depth left. */
  predicate IsStop(n: Node, depth: nat) {
    n.children == [] || depth == 0
  }

  /** The role's choice between the incumbent `a` and a candidate `b` (`max` or `min`). */
  function Extremum(maximizing: bool, a: Score, b: Score): (r: Score)
    ensures r == a || r == b
    ensures maximizing ==> Le(a, r) && Le(b, r)
    ensures !maximizing ==> Le(r, a) && Le(r, b)
    ensures r == b <==> !Worse(maximizing, b, a)
  {
    if maximizing then Max(a, b) else Min(a, b)
  }

  /** `a` is strictly worse than `b` for the role. */
  predicate Worse(maximizing: bool, a: Score, b: Score) {
    if maximizing then Lt(a, b) else Lt(b, a)
  }

  /**
   * The depth-limited minimax value: the evaluation at a stop node, otherwise the best child
   * value for the role, the roles alternating ply by ply.
   */
  function MinimaxValue(n: Node, depth: nat, maximizing: bool): Score
    decreases n, 2, 0
  {
    if IsStop(n, depth) then n.eval
    else BestOfFirst(n, depth, maximizing, |n.children|)
  }

  /** The minimax value of the `i`-th child, searched one ply shallower by the other role. */
  function ChildValue(n: Node, depth: nat, maximizing: bool, i: nat): Score
    requires depth >= 1 && i < |n.children|
    decreases n, 0, 0
  {
    MinimaxValue(n.children[i].next, depth - 1, !maximizing)
  }

  /** The best value for the role among the first `k` children, starting from the role's worst score. */
  function BestOfFirst(n: Node, depth: nat, maximizing: bool, k: nat): Score
    requires depth >= 1 && k <= |n.children|
    decreases n, 1, k
  {
    if k == 0 then (if maximizing then NegInf else PosInf)
    else Extremum(maximizing, BestOfFirst(n, depth, maximizing, k - 1), ChildValue(n, depth, maximizing, k - 1))
  }

  /**
   * The number of clock polls an uninterrupted depth-limited search of `n` makes: two per node
   * visited, one on entry and one in `terminal`.
   */
  function Polls(n: Node, depth: nat): (r: nat)
    decreases n, 2, 0
    ensures r >= 2
  {
    if IsStop(n, depth) then 2 else 2 + ChildPolls(n, depth, |n.children|)
  }

  /** The polls of the searches of the first `k` children. */
  function ChildPolls(n: Node, depth: nat, k: nat): nat
    requires depth >= 1 && k <= |n.children|
    decreases n, 1, k
  {
    if k == 0 then 0 else ChildPolls(n, depth, k - 1) + Polls(n.children[k - 1].next, depth - 1)
  }

  lemma {:induction false} ChildPollsMonotone(n: Node, depth: nat, i: nat, k: nat)
    requires depth >= 1 && i <= k <= |n.children|
    ensures ChildPolls(n, depth, i) <= ChildPolls(n, depth, k)
    decreases k
  {
    if i < k {
      ChildPollsMonotone(n, depth, i, k - 1);
    }
  }

  /** The running best only improves for the role as more children are seen. */
  lemma {:induction false} BestOfFirstMonotone(n: Node, depth: nat, maximizing: bool, i: nat, k: nat)
    requires depth >= 1 && i <= k <= |n.children|
    ensures maximizing ==> Le(BestOfFirst(n, depth, maximizing, i), BestOfFirst(n, depth, maximizing, k))
    ensures !maximizing ==> Le(BestOfFirst(n, depth, maximizing, k), BestOfFirst(n, depth, maximizing, i))
    decreases k
  {
    if i < k {
      BestOfFirstMonotone(n, depth, maximizing, i, k - 1);
    }
  }

  /** The best of the first `k` children is no worse than each of them and equals one of them. */
  lemma {:induction false} BestOfFirstIsBest(n: Node, depth: nat, maximizing: bool, k: nat)
    requires depth >= 1 && k <= |n.children|
    ensures forall j :: 0 <= j < k ==> !Worse(maximizing, BestOfFirst(n, depth, maximizing, k), ChildValue(n, depth, maximizing, j))
    ensures k > 0 ==> exists j :: 0 <= j < k && ChildValue(n, depth, maximizing, j) == BestOfFirst(n, depth, maximizing, k)
    decreases k
  {
    if k > 0 {
      BestOfFirstIsBest(n, depth, maximizing, k - 1);
      var best := BestOfFirst(n, depth, maximizing, k);
      if best == ChildValue(n, depth, maximizing, k - 1) {
        assert 0 <= k - 1 < k && ChildValue(n, depth, maximizing, k - 1) == best;
      } else {
        // the running best was kept, so it already came from an earlier child
        assert best == BestOfFirst(n, depth, maximizing, k - 1);
        var j :| 0 <= j < k - 1 && ChildValue(n, depth, maximizing, j) == BestOfFirst(n, depth, maximizing, k - 1);
        assert 0 <= j < k && ChildValue(n, depth, maximizing, j) == best;
      }
    }
  }

  /**
   * At a node that is not a stop node, the minimax value is the value of some child and no child
   * is better for the role: the maximum over the children when maximizing, the minimum otherwise.
   */
  lemma MinimaxValueIsBestChild(n: Node, depth: nat, maximizing: bool)
    requires !IsStop(n, depth)
    ensures forall j :: 0 <= j < |n.children| ==> !Worse(maximizing, MinimaxValue(n, depth, maximizing), ChildValue(n, depth, maximizing, j))
    ensures exists j :: 0 <= j < |n.children| && ChildValue(n, depth, maximizing, j) == MinimaxValue(n, depth, maximizing)
  {
    BestOfFirstIsBest(n, depth, maximizing, |n.children|);
  }
}
