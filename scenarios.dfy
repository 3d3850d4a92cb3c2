/** Small game trees on which the two searches' move choices can be read off. */
module Scenarios {
  import opened Scores
  import opened GameTree
  import opened AlphaBetaSearch
  import opened IterativeDeepening
  import opened MinimaxAgent

  /** Two legal moves leading to positions of equal value. */
  function TiedRoot(): Node {
    Node(Fin(0), [Branch(Move(0, 0), Node(Fin(3), [])), Branch(Move(0, 1), Node(Fin(3), []))])
  }

  /** One legal move, into a position that is a certain loss. */
  function LosingRoot(): Node {
    Node(Fin(0), [Branch(Move(2, 3), Node(NegInf, []))])
  }

  /**
   * On a tie the two searches part: minimax keeps the last tied move, alpha-beta the first, while
   * both report the same value.
   */
  lemma TieBreaksDiffer()
    ensures IsLastBestMove(TiedRoot(), 1, true, Move(0, 1))
    ensures IsFirstBestMove(TiedRoot(), 1, Move(0, 0))
    ensures RootRun(TiedRoot(), 1).move == Move(0, 0)
    ensures RootRun(TiedRoot(), 1).score == MinimaxValue(TiedRoot(), 1, true) == Fin(3)
  {
    var n := TiedRoot();
    assert ChildValue(n, 1, true, 0) == Fin(3) && ChildValue(n, 1, true, 1) == Fin(3);
    assert BestOfFirst(n, 1, true, 2) == Fin(3);
    assert LastBestAt(n, 1, true, 1);
    assert FirstAt(n, 1, 0, Fin(3));
    AlphaBetaRootMove(n, 1);
    AlphaBetaRootValue(n, 1);
  }

  /**
   * With a single legal move that loses, minimax still plays it, but iterative deepening returns
   * the sentinel whatever the clock.
   */
  lemma SingleLosingMove(slack: int)
    ensures IsLastBestMove(LosingRoot(), 1, true, Move(2, 3))
    ensures Deepen(LosingRoot(), 1, slack, NoMove) == NoMove
  {
    var n := LosingRoot();
    assert ChildValue(n, 1, true, 0) == NegInf;
    assert LastBestAt(n, 1, true, 0);
    DeepeningAllMovesLosing(n, slack);
  }
}
