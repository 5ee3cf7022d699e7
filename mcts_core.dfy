/**
 * The play-out and the search driver of `mcts_core.py`: `rollout_policy`,
 * `simulate` (with its tablebase short-cut) and `mcts_search`.
 *
 * The wall-clock deadline of `mcts_search` becomes `budget`, the number of
 * iterations the deadline allowed. Backed-up values are whole numbers in
 * {-1, 0, 1}, so they are `int`s here.
 */
module MctsCore {
  import opened Wrappers
  import opened Chess
  import opened Ordering
  import opened TbUtils
  import opened MctsTree

  /** `ROLLOUT_MAX_PLIES`: the default length bound of one play-out. */
  const RolloutMaxPlies: nat := 40

  /** The rollout score of `m`: 2 for a capture, plus 1 when the move gives check. */
  function RolloutScore<P, M>(rules: Rules<P, M>, board: P, m: M): (s: int)
    ensures 0 <= s <= 3
    ensures s >= 2 <==> rules.isCapture(board, m)
    ensures (s == 1 || s == 3) <==> rules.isCheck(rules.apply(board, m))
  {
    (if rules.isCapture(board, m) then 2 else 0) + (if rules.isCheck(rules.apply(board, m)) then 1 else 0)
  }

  /** Move `i` of `moves` has the largest rollout score, and every earlier move a smaller one. */
  ghost predicate FirstBestMove<P, M>(rules: Rules<P, M>, board: P, moves: seq<M>, i: nat)
    requires i < |moves|
  {
    (forall j :: 0 <= j < |moves| ==> RolloutScore(rules, board, moves[j]) <= RolloutScore(rules, board, moves[i])) &&
    (forall j :: 0 <= j < i ==> RolloutScore(rules, board, moves[j]) < RolloutScore(rules, board, moves[i]))
  }

  /** The earliest move of `moves` with the largest rollout score (`BestMoveIsFirstBest`). */
  function BestMove<P, M>(rules: Rules<P, M>, board: P, moves: seq<M>): (r: Option<M>)
    ensures r.None? <==> moves == []
    ensures r.Some? ==> r.value in moves
  {
    if moves == [] then None
    else
      var rest := BestMove(rules, board, moves[1..]);
      if rest.None? || RolloutScore(rules, board, rest.value) <= RolloutScore(rules, board, moves[0]) then
        Some(moves[0])
      else
        rest
  }

  lemma {:induction false} BestMoveIsFirstBest<P, M>(rules: Rules<P, M>, board: P, moves: seq<M>)
    requires moves != []
    ensures exists i ::
      0 <= i < |moves| && moves[i] == BestMove(rules, board, moves).value && FirstBestMove(rules, board, moves, i)
  {
    var rest := BestMove(rules, board, moves[1..]);
    if rest.Some? {
      BestMoveIsFirstBest(rules, board, moves[1..]);
    }
    if rest.None? || RolloutScore(rules, board, rest.value) <= RolloutScore(rules, board, moves[0]) {
      assert FirstBestMove(rules, board, moves, 0) by {
        if rest.Some? {
          var i :| 0 <= i < |moves[1..]| && moves[1..][i] == rest.value && FirstBestMove(rules, board, moves[1..], i);
          forall j | 1 <= j < |moves| ensures RolloutScore(rules, board, moves[j]) <= RolloutScore(rules, board, moves[0]) {
            assert moves[j] == moves[1..][j - 1];
          }
        } else {
          assert |moves| == 1;
        }
      }
    } else {
      var i :| 0 <= i < |moves[1..]| && moves[1..][i] == rest.value && FirstBestMove(rules, board, moves[1..], i);
      forall j | 1 <= j < |moves| ensures moves[j] == moves[1..][j - 1] {
      }
      assert FirstBestMove(rules, board, moves, i + 1);
    }
  }

  /**
   * `rollout_policy`: the earliest legal move with the largest rollout score
   * (`RolloutPolicyChoice`), or none when there is no legal move. A pure
   * function: the board is never changed. `RolloutPolicySortsStably` shows it
   * is the head of the legal moves sorted by score, highest first, which is
   * how the Python code finds it (Python's sort is stable, and so is
   * `SortDesc` at the head).
   */
  function RolloutPolicy<P, M>(rules: Rules<P, M>, board: P): (r: Option<M>)
    ensures r.None? <==> rules.legalMoves(board) == []
  {
    BestMove(rules, board, rules.legalMoves(board))
  }

  /** The rollout move is legal, has the largest score, and no earlier legal move has as large a score. */
  lemma RolloutPolicyChoice<P, M>(rules: Rules<P, M>, board: P)
    requires rules.legalMoves(board) != []
    ensures exists i ::
      && 0 <= i < |rules.legalMoves(board)|
      && rules.legalMoves(board)[i] == RolloutPolicy(rules, board).value
      && FirstBestMove(rules, board, rules.legalMoves(board), i)
  {
    BestMoveIsFirstBest(rules, board, rules.legalMoves(board));
  }

  /** `moves.sort(key=score, reverse=True); return moves[0]` picks the same move as `RolloutPolicy`. */
  lemma RolloutPolicySortsStably<P, M>(rules: Rules<P, M>, board: P)
    requires rules.legalMoves(board) != []
    ensures RolloutPolicy(rules, board) == Some(SortDesc(rules.legalMoves(board), (m: M) => RolloutScore(rules, board, m))[0])
  {
    var moves := rules.legalMoves(board);
    var key := (m: M) => RolloutScore(rules, board, m);
    SortDescHead(moves, key);
    var ks := Keys(moves, key);
    var k := FirstMaxIndex(ks);
    RolloutPolicyChoice(rules, board);
    var i :| 0 <= i < |moves| && moves[i] == RolloutPolicy(rules, board).value && FirstBestMove(rules, board, moves, i);
    assert i == k;
  }

  /** `probe_wdl` when a tablebase is open (`tb is not None and tb.obj is not None`), else no answer. */
  function Probe<P>(tb: Option<Tablebase<P>>, board: P): (r: Option<int>)
    ensures tb.None? ==> r.None?
    ensures tb.Some? ==> r == ProbeWdl(tb.value, board)
  {
    match tb
    case None => None
    case Some(t) => ProbeWdl(t, board)
  }

  /**
   * How a play-out ends after `plies` moves: with a tablebase answer `wdl`,
   * or by leaving the loop at position `final`.
   */
  datatype Ending<P> = TableHit(plies: nat, wdl: int) | Stopped(plies: nat, final: P)

  function AddPlies<P>(e: Ending<P>, n: nat): (r: Ending<P>)
    ensures r.plies == e.plies + n
    ensures r.TableHit? <==> e.TableHit?
    ensures r.TableHit? ==> r.wdl == e.wdl
    ensures r.Stopped? ==> r.final == e.final
  {
    match e
    case TableHit(k, s) => TableHit(k + n, s)
    case Stopped(k, b) => Stopped(k + n, b)
  }

  lemma AddPliesZero<P>(e: Ending<P>)
    ensures AddPlies(e, 0) == e
  {
  }

  lemma AddPliesTwice<P>(e: Ending<P>, a: nat, b: nat)
    ensures AddPlies(AddPlies(e, a), b) == AddPlies(e, a + b)
  {
  }

  /**
   * The `while` loop of `simulate` from `board` with `fuel` plies left: it
   * stops when the game is over or the fuel is used up; otherwise a
   * tablebase answer ends it, no legal move stops it, and else the rollout
   * move is played.
   */
  function PlayoutEnding<P, M>(rules: Rules<P, M>, tb: Option<Tablebase<P>>, board: P, fuel: nat): (e: Ending<P>)
    ensures e.plies <= fuel
    decreases fuel
  {
    if rules.isGameOver(board) || fuel == 0 then Stopped(0, board)
    else if Probe(tb, board).Some? then TableHit(0, Probe(tb, board).value)
    else match RolloutPolicy(rules, board)
      case None => Stopped(0, board)
      case Some(mv) => AddPlies(PlayoutEnding(rules, tb, rules.apply(board, mv), fuel - 1), 1)
  }

  /** The whole of `simulate`: a tablebase answer for the starting position wins outright, else the loop runs. */
  function SimulateEnding<P, M>(rules: Rules<P, M>, board: P, maxPlies: nat, tb: Option<Tablebase<P>>): (e: Ending<P>)
    ensures e.plies <= maxPlies
    ensures Probe(tb, board).Some? ==> e == TableHit(0, Probe(tb, board).value)
    ensures Probe(tb, board).None? ==> e == PlayoutEnding(rules, tb, board, maxPlies)
  {
    if Probe(tb, board).Some? then TableHit(0, Probe(tb, board).value)
    else PlayoutEnding(rules, tb, board, maxPlies)
  }

  /** `board.result(claim_draw=True)` read as a number: '1-0' is 1, '0-1' is -1, anything else 0. */
  function ResultScore(res: GameResult): (s: int)
    ensures s == 1 <==> res == WhiteWins
    ensures s == -1 <==> res == BlackWins
    ensures s == 0 <==> res == Drawn || res == Unfinished
  {
    match res
    case WhiteWins => 1
    case BlackWins => -1
    case _ => 0
  }

  /**
   * The value `simulate` returns for an ending. A tablebase score is from the
   * side to move in the probed position; a finished play-out is scored from
   * White's side.
   */
  function EndingScore<P, M>(rules: Rules<P, M>, e: Ending<P>): (v: int)
    ensures -1 <= v <= 1
    ensures e.TableHit? ==> Some(v) == WdlToScore(Some(e.wdl))
    ensures e.Stopped? ==> v == ResultScore(rules.result(e.final))
  {
    match e
    case TableHit(_, wdl) => WdlToScore(Some(wdl)).value
    case Stopped(_, b) => ResultScore(rules.result(b))
  }

  /** A play-out that is not cut short by the tablebase ends at a finished game, at the ply bound, or with no legal move. */
  lemma {:induction false} PlayoutStops<P, M>(rules: Rules<P, M>, tb: Option<Tablebase<P>>, board: P, fuel: nat)
    ensures var e := PlayoutEnding(rules, tb, board, fuel);
      e.Stopped? ==> rules.isGameOver(e.final) || e.plies == fuel || rules.legalMoves(e.final) == []
    decreases fuel
  {
    if !rules.isGameOver(board) && fuel > 0 && Probe(tb, board).None? {
      match RolloutPolicy(rules, board)
      case None =>
      case Some(mv) => PlayoutStops(rules, tb, rules.apply(board, mv), fuel - 1);
    }
  }

  /** Without a tablebase every play-out ends by leaving the loop. */
  lemma {:induction false} NoTableNoHit<P, M>(rules: Rules<P, M>, board: P, fuel: nat)
    ensures PlayoutEnding(rules, None, board, fuel).Stopped?
    decreases fuel
  {
    if !rules.isGameOver(board) && fuel > 0 {
      match RolloutPolicy(rules, board)
      case None =>
      case Some(mv) => NoTableNoHit(rules, rules.apply(board, mv), fuel - 1);
    }
  }

  /** Playing the rollout move carries a play-out that is `plies` moves in over to the next position. */
  lemma PlayoutAdvance<P, M>(rules: Rules<P, M>, tb: Option<Tablebase<P>>, board: P, fuel: nat, mv: M,
                             ending: Ending<P>, plies: nat)
    requires !rules.isGameOver(board) && fuel > 0 && Probe(tb, board).None?
    requires RolloutPolicy(rules, board) == Some(mv)
    requires ending == AddPlies(PlayoutEnding(rules, tb, board, fuel), plies)
    ensures ending == AddPlies(PlayoutEnding(rules, tb, rules.apply(board, mv), fuel - 1), plies + 1)
  {
    AddPliesTwice(PlayoutEnding(rules, tb, rules.apply(board, mv), fuel - 1), 1, plies);
  }

  lemma PlayoutHit<P, M>(rules: Rules<P, M>, tb: Option<Tablebase<P>>, board: P, fuel: nat)
    requires !rules.isGameOver(board) && fuel > 0 && Probe(tb, board).Some?
    ensures PlayoutEnding(rules, tb, board, fuel) == TableHit(0, Probe(tb, board).value)
  {
  }

  lemma PlayoutHalt<P, M>(rules: Rules<P, M>, tb: Option<Tablebase<P>>, board: P, fuel: nat)
    requires rules.isGameOver(board) || fuel == 0 || (Probe(tb, board).None? && RolloutPolicy(rules, board).None?)
    ensures PlayoutEnding(rules, tb, board, fuel) == Stopped(0, board)
  {
  }

  /**
   * `simulate`: play rollout moves from `board` for at most `maxPlies`
   * plies, returning early with the tablebase score when a probe answers.
   */
  method Simulate<P, M>(rules: Rules<P, M>, board: P, maxPlies: nat, tb: Option<Tablebase<P>>) returns (v: int)
    ensures v == EndingScore(rules, SimulateEnding(rules, board, maxPlies, tb))
    ensures -1 <= v <= 1
  {
    var wdl := Probe(tb, board);
    if wdl.Some? {
      return WdlToScore(wdl).value;
    }
    v := PlayOut(rules, board, maxPlies, tb);
  }

  /** The `while` loop of `simulate` and the scoring of the position it stops at. */
  method PlayOut<P, M>(rules: Rules<P, M>, board: P, maxPlies: nat, tb: Option<Tablebase<P>>) returns (v: int)
    ensures v == EndingScore(rules, PlayoutEnding(rules, tb, board, maxPlies))
  {
    ghost var ending := PlayoutEnding(rules, tb, board, maxPlies);
    var b := board;
    var plies: nat := 0;
    AddPliesZero(ending);
    while !rules.isGameOver(b) && plies < maxPlies
      invariant plies <= maxPlies
      invariant ending == AddPlies(PlayoutEnding(rules, tb, b, maxPlies - plies), plies)
      decreases maxPlies - plies
    {
      var wdlMid := Probe(tb, b);
      if wdlMid.Some? {
        PlayoutHit(rules, tb, b, maxPlies - plies);
        return WdlToScore(wdlMid).value;
      }
      var mv := RolloutPolicy(rules, b);
      if mv.None? {
        PlayoutHalt(rules, tb, b, maxPlies - plies);
        break;
      }
      PlayoutAdvance(rules, tb, b, maxPlies - plies, mv.value, ending, plies);
      b := rules.apply(b, mv.value);
      plies := plies + 1;
    }
    PlayoutHalt(rules, tb, b, maxPlies - plies);
    v := ResultScore(rules.result(b));
  }

  /** The statistics `mcts_search` returns; the best-child fields are absent when the root has no children. */
  datatype SearchStats = SearchStats(iters: nat, rootN: nat, bestVisits: Option<nat>, bestQ: Option<real>)


  /**
   * The end of `mcts_search`: no move when the root has no children, else the
   * most visited root child (the first inserted on ties) with its N and Q.
   */
  function Report<P, M>(ns: seq<Node<P, M>>, iters: nat): (r: (Option<M>, SearchStats))
    requires Arena(ns)
    ensures r.0.None? <==> ns[0].children == map[]
    ensures r.0 == MostVisited(ns, 0)
    ensures r.1.iters == iters && r.1.rootN == ns[0].n
    ensures r.0.None? ==> r.1.bestVisits.None? && r.1.bestQ.None?
    ensures r.0.Some? ==>
      r.0.value in ns[0].children &&
      r.1.bestVisits == Some(ns[ns[0].children[r.0.value]].n) && r.1.bestQ == Some(ns[ns[0].children[r.0.value]].q)
  {
    assert WellLinked(ns, 0);
    if ns[0].children == map[] then
      (None, SearchStats(iters, ns[0].n, None, None))
    else
      assert ns[0].order != [] by {
        var m :| m in ns[0].children;
        assert m in ns[0].order;
      }
      var best := MostVisited(ns, 0);
      var c := ns[0].children[best.value];
      (best, SearchStats(iters, ns[0].n, Some(ns[c].n), Some(ns[c].q)))
  }

  /** What the search loop keeps about the root after `iters` iterations. */
  ghost predicate RootState<P, M>(rules: Rules<P, M>, ns: seq<Node<P, M>>, rootBoard: P, iters: nat)
    requires |ns| > 0
  {
    ns[0].board == rootBoard && ns[0].n == iters && |ns| <= iters + 1 &&
    (ns[0].order != [] ==> iters > 0) &&
    (iters > 0 && !rules.isGameOver(rootBoard) && rules.legalMoves(rootBoard) != [] ==> ns[0].order != [])
  }

  /** One select-expand-simulate-backpropagate round keeps `RootState`, one iteration further on. */
  lemma IterationKeepsRoot<P, M>(rules: Rules<P, M>, before: seq<Node<P, M>>, leaf: nat, expanded: seq<Node<P, M>>,
                                 child: nat, after: seq<Node<P, M>>, value: int, rootBoard: P, iters: nat)
    requires Arena(before) && RootState(rules, before, rootBoard, iters)
    requires leaf < |before| && (leaf == 0 <==> before[0].order == [])
    requires Expanded(rules, before, leaf, expanded, child)
    requires Rooted(expanded) && child < |expanded|
    requires Backpropagated(expanded, after, Path(expanded, child), value)
    ensures |after| > 0 && RootState(rules, after, rootBoard, iters + 1)
  {
    if leaf == 0 && !rules.isGameOver(rootBoard) && rules.legalMoves(rootBoard) != [] {
      assert WellLinked(before, 0);
      assert rules.legalMoves(rootBoard)[0] !in before[0].children.Keys;
    }
    assert expanded[0].board == rootBoard && expanded[0].n == iters;
    var p := Path(expanded, child);
    assert p[|p| - 1] == 0;
    assert after[0] == Visit(expanded[0], Alternate(|p| - 1, value));
  }

  /**
   * What `select` as written does to the tree's shape: it goes down whenever
   * a node has a child, so `expand` only ever meets a childless node. Every
   * node therefore has at most one child, and the root's is its first legal move.
   */
  ghost predicate SingleLine<P, M>(rules: Rules<P, M>, ns: seq<Node<P, M>>, rootBoard: P)
    requires |ns| > 0
  {
    (forall i :: 0 <= i < |ns| ==> |ns[i].order| <= 1) &&
    (ns[0].order != [] ==> rules.legalMoves(rootBoard) != [] && ns[0].order[0] == rules.legalMoves(rootBoard)[0])
  }

  /** One round whose leaf had no children keeps `SingleLine`. */
  lemma IterationKeepsLine<P, M>(rules: Rules<P, M>, before: seq<Node<P, M>>, leaf: nat, expanded: seq<Node<P, M>>,
                                 child: nat, after: seq<Node<P, M>>, value: int, rootBoard: P)
    requires Arena(before) && before[0].board == rootBoard && SingleLine(rules, before, rootBoard)
    requires leaf < |before| && before[leaf].order == [] && (leaf == 0 <==> before[0].order == [])
    requires Expanded(rules, before, leaf, expanded, child)
    requires Rooted(expanded) && child < |expanded|
    requires Backpropagated(expanded, after, Path(expanded, child), value)
    ensures |after| > 0 && SingleLine(rules, after, rootBoard)
  {
    BackpropagatedSameShape(expanded, after, Path(expanded, child), value);
    var nd := before[leaf];
    var untried := FirstUntried(rules.legalMoves(nd.board), nd.children.Keys);
    assert WellLinked(before, leaf);
    assert nd.children.Keys == {};
    if !rules.isGameOver(nd.board) && untried.Some? {
      forall i | 0 <= i < |expanded| ensures |expanded[i].order| <= 1 {
        if i < |before| && i != leaf {
          assert expanded[i] == before[i];
        }
      }
      if leaf == 0 {
        var k :| 0 <= k < |rules.legalMoves(nd.board)| && rules.legalMoves(nd.board)[k] == untried.value &&
          forall l :: 0 <= l < k ==> rules.legalMoves(nd.board)[l] in nd.children.Keys;
        assert k == 0;
      } else {
        assert expanded[0] == before[0];
      }
    }
  }

  /** With the root's children kept to one, a root with two different legal moves never explores the second. */
  lemma SingleLineMissesAMove<P, M>(rules: Rules<P, M>, ns: seq<Node<P, M>>, rootBoard: P)
    requires Arena(ns) && SingleLine(rules, ns, rootBoard)
    requires |rules.legalMoves(rootBoard)| >= 2 && rules.legalMoves(rootBoard)[0] != rules.legalMoves(rootBoard)[1]
    ensures rules.legalMoves(rootBoard)[1] !in ns[0].children
  {
    assert WellLinked(ns, 0);
  }

  /** The widening the search is evidently meant to do: after `iters` rounds the first `iters` legal root moves have nodes. */
  ghost predicate Widened<P, M>(rules: Rules<P, M>, ns: seq<Node<P, M>>, rootBoard: P, iters: nat)
    requires |ns| > 0
  {
    !rules.isGameOver(rootBoard) ==>
      forall j :: 0 <= j < |rules.legalMoves(rootBoard)| && j < iters ==> rules.legalMoves(rootBoard)[j] in ns[0].children
  }

  /** After a round of widening, an unfinished root with a legal move has a child. */
  lemma WidenedRoot<P, M>(rules: Rules<P, M>, ns: seq<Node<P, M>>, rootBoard: P, iters: nat)
    requires Arena(ns) && Widened(rules, ns, rootBoard, iters) && iters > 0
    requires !rules.isGameOver(rootBoard) && rules.legalMoves(rootBoard) != []
    ensures ns[0].order != []
  {
    assert rules.legalMoves(rootBoard)[0] in ns[0].children;
    assert WellLinked(ns, 0);
  }

  /** One round with `SelectFrontier`'s leaf keeps the root board and widens the root by the next legal move. */
  lemma IterationWidens<P, M>(rules: Rules<P, M>, before: seq<Node<P, M>>, leaf: nat, expanded: seq<Node<P, M>>,
                              child: nat, after: seq<Node<P, M>>, value: int, rootBoard: P, iters: nat)
    requires |before| > 0 && before[0].board == rootBoard && Widened(rules, before, rootBoard, iters)
    requires leaf < |before|
    requires FirstUntried(rules.legalMoves(rootBoard), before[0].children.Keys).Some? ==> leaf == 0
    requires Expanded(rules, before, leaf, expanded, child)
    requires Rooted(expanded) && child < |expanded|
    requires Backpropagated(expanded, after, Path(expanded, child), value)
    ensures |after| > 0 && after[0].board == rootBoard && Widened(rules, after, rootBoard, iters + 1)
    ensures after[0].n == before[0].n + 1 && |after| <= |before| + 1
  {
    BackpropagatedSameShape(expanded, after, Path(expanded, child), value);
    var legal := rules.legalMoves(rootBoard);
    var tried := before[0].children.Keys;
    var untried := FirstUntried(legal, tried);
    assert expanded[0].board == rootBoard && expanded[0].n == before[0].n by {
      var nd := before[leaf];
      var u := FirstUntried(rules.legalMoves(nd.board), nd.children.Keys);
      if !(rules.isGameOver(nd.board) || u.None?) && leaf != 0 {
        assert expanded[0] == before[0];
      }
    }
    var p := Path(expanded, child);
    assert p[|p| - 1] == 0;
    assert after[0] == Visit(expanded[0], Alternate(|p| - 1, value));
    if !rules.isGameOver(rootBoard) {
      assert forall m :: m in tried ==> m in expanded[0].children by {
        var nd := before[leaf];
        var u := FirstUntried(rules.legalMoves(nd.board), nd.children.Keys);
        if !(rules.isGameOver(nd.board) || u.None?) && leaf != 0 {
          assert expanded[0] == before[0];
        }
      }
      if iters < |legal| && legal[iters] !in tried {
        var k :| 0 <= k < |legal| && legal[k] == untried.value && untried.value !in tried &&
          forall l :: 0 <= l < k ==> legal[l] in tried;
        assert k == iters;
      }
    }
  }

  /** A root with children is an unfinished position with legal moves. */
  lemma RootChildren<P, M>(rules: Rules<P, M>, ns: seq<Node<P, M>>)
    requires Arena(ns) && Consistent(rules, ns) && ns[0].order != []
    ensures !rules.isGameOver(ns[0].board) && rules.legalMoves(ns[0].board) != []
  {
    assert WellLinked(ns, 0) && Fits(rules, ns, 0);
    assert ns[0].order[0] in ns[0].children;
  }

  /**
   * `mcts_search` with `budget` iterations: each selects a leaf, expands it,
   * simulates from the resulting node, and backs the value up to the root.
   * `tree` is the final tree, which the Python code does not return.
   */
  method MctsSearch<P, M>(rules: Rules<P, M>, uct: (Node<P, M>, nat) -> real, rootBoard: P, budget: nat,
                          tb: Option<Tablebase<P>>)
    returns (best: Option<M>, stats: SearchStats, ghost tree: seq<Node<P, M>>)
    ensures Arena(tree) && Consistent(rules, tree) && Statistics(tree)
    ensures tree[0].board == rootBoard && |tree| <= budget + 1
    ensures stats.iters == budget && stats.rootN == budget
    ensures best.None? <==> budget == 0 || rules.isGameOver(rootBoard) || rules.legalMoves(rootBoard) == []
    ensures forall i :: 0 <= i < |tree| ==> |tree[i].order| <= 1
    ensures best.Some? ==> best.value == rules.legalMoves(rootBoard)[0]
    ensures (best, stats) == Report(tree, budget)
  {
    var root := new SearchTree(rules, rootBoard);
    var iters := 0;
    while iters < budget
      invariant root.Valid() && root.rules == rules
      invariant iters <= budget
      invariant RootState(rules, root.nodes, rootBoard, iters)
      invariant SingleLine(rules, root.nodes, rootBoard)
    {
      ghost var before := root.nodes;
      var leaf := root.Select(uct);
      var child := root.Expand(leaf);
      ghost var expanded := root.nodes;
      var value := Simulate(rules, root.nodes[child].board, RolloutMaxPlies, tb);
      root.Backpropagate(child, value);
      IterationKeepsRoot(rules, before, leaf, expanded, child, root.nodes, value, rootBoard, iters);
      IterationKeepsLine(rules, before, leaf, expanded, child, root.nodes, value, rootBoard);
      iters := iters + 1;
    }
    tree := root.nodes;
    if tree[0].order != [] {
      RootChildren(rules, tree);
    }
    var r := Report(root.nodes, iters);
    best, stats := r.0, r.1;
  }

  /**
   * `mcts_search` with `SelectFrontier` in place of `select`: the correction
   * of `select` under which the root is widened by one legal move per round,
   * in enumeration order, until every legal root move has a node.
   */
  method MctsSearchFrontier<P, M>(rules: Rules<P, M>, uct: (Node<P, M>, nat) -> real, rootBoard: P, budget: nat,
                                  tb: Option<Tablebase<P>>)
    returns (best: Option<M>, stats: SearchStats, ghost tree: seq<Node<P, M>>)
    ensures Arena(tree) && Consistent(rules, tree) && Statistics(tree)
    ensures tree[0].board == rootBoard && |tree| <= budget + 1
    ensures stats.iters == budget && stats.rootN == budget
    ensures best.None? <==> budget == 0 || rules.isGameOver(rootBoard) || rules.legalMoves(rootBoard) == []
    ensures !rules.isGameOver(rootBoard) ==>
      forall j :: 0 <= j < |rules.legalMoves(rootBoard)| && j < budget ==> rules.legalMoves(rootBoard)[j] in tree[0].children
    ensures (best, stats) == Report(tree, budget)
  {
    var root := new SearchTree(rules, rootBoard);
    var iters := 0;
    while iters < budget
      invariant root.Valid() && root.rules == rules
      invariant iters <= budget
      invariant root.nodes[0].board == rootBoard && Widened(rules, root.nodes, rootBoard, iters)
      invariant iters == 0 ==> root.nodes[0].order == []
      invariant root.nodes[0].n == iters && |root.nodes| <= iters + 1
    {
      ghost var before := root.nodes;
      var leaf := root.SelectFrontier(uct);
      var child := root.Expand(leaf);
      ghost var expanded := root.nodes;
      var value := Simulate(rules, root.nodes[child].board, RolloutMaxPlies, tb);
      root.Backpropagate(child, value);
      IterationWidens(rules, before, leaf, expanded, child, root.nodes, value, rootBoard, iters);
      iters := iters + 1;
    }
    tree := root.nodes;
    if iters > 0 && !rules.isGameOver(rootBoard) && rules.legalMoves(rootBoard) != [] {
      WidenedRoot(rules, tree, rootBoard, iters);
    }
    if tree[0].order != [] {
      RootChildren(rules, tree);
    }
    var r := Report(root.nodes, iters);
    best, stats := r.0, r.1;
  }
}
