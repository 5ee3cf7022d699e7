/**
 * `02_mcts_core.py`, the earlier variant of the engine without tablebase
 * hooks. Its `Node`, `select`, `expand`, `rollout_policy` and
 * `backpropagate` are the same as in `mcts_core.py` and are modelled once,
 * in `MctsTree` and `MctsCore`; its `simulate` and `mcts_search` differ
 * only in never probing a tablebase.
 */
module Mcts02 {
  import opened Wrappers
  import opened Chess
  import opened MctsTree
  import opened MctsCore

  /**
   * `simulate` without a tablebase: rollout moves for at most `maxPlies`
   * plies, then the result of the reached position from White's side.
   */
  method Simulate<P, M>(rules: Rules<P, M>, board: P, maxPlies: nat) returns (v: int)
    ensures v == EndingScore(rules, SimulateEnding(rules, board, maxPlies, None))
    ensures PlayoutEnding(rules, None, board, maxPlies).Stopped?
    ensures v == ResultScore(rules.result(PlayoutEnding(rules, None, board, maxPlies).final))
  {
    ghost var ending := PlayoutEnding(rules, None, board, maxPlies);
    NoTableNoHit(rules, board, maxPlies);
    var b := board;
    var plies: nat := 0;
    AddPliesZero(ending);
    while !rules.isGameOver(b) && plies < maxPlies
      invariant plies <= maxPlies
      invariant ending == AddPlies(PlayoutEnding(rules, None, b, maxPlies - plies), plies)
      decreases maxPlies - plies
    {
      var mv := RolloutPolicy(rules, b);
      if mv.None? {
        PlayoutHalt(rules, None, b, maxPlies - plies);
        break;
      }
      PlayoutAdvance(rules, None, b, maxPlies - plies, mv.value, ending, plies);
      b := rules.apply(b, mv.value);
      plies := plies + 1;
    }
    PlayoutHalt(rules, None, b, maxPlies - plies);
    v := ResultScore(rules.result(b));
  }

  /** `mcts_search` of the earlier variant: the same loop, simulating without a tablebase. */
  method MctsSearch<P, M>(rules: Rules<P, M>, uct: (Node<P, M>, nat) -> real, rootBoard: P, budget: nat)
    returns (best: Option<M>, stats: SearchStats, ghost tree: seq<Node<P, M>>)
    ensures Arena(tree) && Consistent(rules, tree) && Statistics(tree)
    ensures tree[0].board == rootBoard && |tree| <= budget + 1
    ensures stats.iters == budget && stats.rootN == budget
    ensures best.None? <==> budget == 0 || rules.isGameOver(rootBoard) || rules.legalMoves(rootBoard) == []
    ensures forall i :: 0 <= i < |tree| ==> |tree[i].order| <= 1
    ensures best.Some? ==> best.value == rules.legalMoves(rootBoard)[0]
    ensures (best, stats) == Report(tree, budget)
  {
    var root := new SearchTree(rules, rootBoard);
    var iters := 0;
    while iters < budget
      invariant root.Valid() && root.rules == rules
      invariant iters <= budget
      invariant RootState(rules, root.nodes, rootBoard, iters)
      invariant SingleLine(rules, root.nodes, rootBoard)
    {
      ghost var before := root.nodes;
      var leaf := root.Select(uct);
      var child := root.Expand(leaf);
      ghost var expanded := root.nodes;
      var value := Simulate(rules, root.nodes[child].board, RolloutMaxPlies);
      root.Backpropagate(child, value);
      IterationKeepsRoot(rules, before, leaf, expanded, child, root.nodes, value, rootBoard, iters);
      IterationKeepsLine(rules, before, leaf, expanded, child, root.nodes, value, rootBoard);
      iters := iters + 1;
    }
    tree := root.nodes;
    if tree[0].order != [] {
      RootChildren(rules, tree);
    }
    var r := Report(root.nodes, iters);
    best, stats := r.0, r.1;
  }
}
