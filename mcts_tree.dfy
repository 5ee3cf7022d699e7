/**
 * The search tree of `mcts_core.py` (and of its earlier variant
 * `02_mcts_core.py`, whose tree code behaves identically): `Node`,
 * `select`, `expand` and `backpropagate`.
 *
 * The Python nodes are objects linked by `parent` references and by a
 * `children` dict from move to node. Here they live in an arena: node `i` is
 * `nodes[i]`, `parent` is an index, and `children` maps a move to an index.
 * Python dicts remember insertion order and `max` returns the first maximal
 * element in that order, so each node also keeps `order`, its child moves
 * in insertion order.
 */
module MctsTree {
  import opened Wrappers
  import opened Chess
  import opened Ordering

  /** One `Node`: N visits, W the sum of backed-up values, Q = W / N. */
  datatype Node<P, M(==)> = Node(
    board: P,
    parent: Option<nat>,
    move: Option<M>,
    children: map<M, nat>,
    order: seq<M>,
    n: nat,
    w: int,
    q: real)

  /** `Node(board, parent=…, move=…)`: no children and N = W = Q = 0. */
  function NewNode<P, M(==)>(board: P, parent: Option<nat>, move: Option<M>): (nd: Node<P, M>)
    ensures nd.children == map[] && nd.order == []
    ensures nd.n == 0 && nd.w == 0 && nd.q == 0.0
    ensures nd.board == board && nd.parent == parent && nd.move == move
  {
    Node(board, parent, move, map[], [], 0, 0, 0.0)
  }

  ghost predicate NoDup<T>(s: seq<T>) {
    forall i, j :: 0 <= i < j < |s| ==> s[i] != s[j]
  }

  /** Node 0 is the root, and every other node's parent was created before it. */
  ghost predicate Rooted<P, M>(ns: seq<Node<P, M>>) {
    |ns| > 0 &&
    forall i :: 0 <= i < |ns| ==>
      (ns[i].parent.None? <==> i == 0) && (ns[i].parent.Some? ==> ns[i].parent.value < i)
  }

  /** The links of node `i` agree in both directions, and `order` lists its child moves once each. */
  ghost predicate WellLinked<P, M>(ns: seq<Node<P, M>>, i: nat)
    requires i < |ns|
  {
    var nd := ns[i];
    NoDup(nd.order) &&
    (forall k :: 0 <= k < |nd.order| ==> nd.order[k] in nd.children) &&
    (forall m :: m in nd.children ==> m in nd.order) &&
    (forall m :: m in nd.children ==>
       i < nd.children[m] < |ns| && ns[nd.children[m]].parent == Some(i) && ns[nd.children[m]].move == Some(m)) &&
    (nd.parent.None? ==> nd.move.None?) &&
    (nd.parent.Some? ==>
       nd.parent.value < i && nd.move.Some? &&
       nd.move.value in ns[nd.parent.value].children && ns[nd.parent.value].children[nd.move.value] == i)
  }

  /** The arena is a tree rooted at node 0. */
  ghost predicate Arena<P, M>(ns: seq<Node<P, M>>) {
    Rooted(ns) && forall i :: 0 <= i < |ns| ==> WellLinked(ns, i)
  }

  /**
   * What node `i` says about the game: it holds its parent's board with its
   * move applied, its child moves are legal there, and a finished game is
   * never expanded.
   */
  ghost predicate Fits<P, M>(rules: Rules<P, M>, ns: seq<Node<P, M>>, i: nat)
    requires i < |ns|
  {
    var nd := ns[i];
    (forall m :: m in nd.children ==> m in rules.legalMoves(nd.board)) &&
    (rules.isGameOver(nd.board) ==> nd.order == []) &&
    (nd.parent.Some? && nd.parent.value < |ns| && nd.move.Some? ==>
       nd.board == rules.apply(ns[nd.parent.value].board, nd.move.value))
  }

  ghost predicate Consistent<P, M>(rules: Rules<P, M>, ns: seq<Node<P, M>>) {
    forall i :: 0 <= i < |ns| ==> Fits(rules, ns, i)
  }

  /** Q = W / N once visited (0 before). */
  ghost predicate MeanConsistent<P, M>(nd: Node<P, M>) {
    nd.q == if nd.n == 0 then 0.0 else nd.w as real / nd.n as real
  }

  /** Node `i` keeps Q = W / N and has no more visits than its parent. */
  ghost predicate NodeStats<P, M>(ns: seq<Node<P, M>>, i: nat)
    requires i < |ns|
  {
    MeanConsistent(ns[i]) &&
    (ns[i].parent.Some? && ns[i].parent.value < |ns| ==> ns[i].n <= ns[ns[i].parent.value].n)
  }

  ghost predicate Statistics<P, M>(ns: seq<Node<P, M>>) {
    forall i :: 0 <= i < |ns| ==> NodeStats(ns, i)
  }

  ghost predicate StrictlyDecreasing(p: seq<nat>) {
    forall k, l :: 0 <= k < l < |p| ==> p[k] > p[l]
  }

  /** The nodes `backpropagate` walks from node `i`: `i`, its parent, …, the root. */
  ghost function Path<P, M>(ns: seq<Node<P, M>>, i: nat): (p: seq<nat>)
    requires Rooted(ns) && i < |ns|
    ensures |p| > 0 && p[0] == i && p[|p| - 1] == 0
    ensures forall k :: 0 <= k < |p| ==> p[k] <= i
    ensures StrictlyDecreasing(p)
    decreases i
  {
    match ns[i].parent
    case None => [i]
    case Some(j) => [i] + Path(ns, j)
  }

  /** Each node of the path is followed by its parent. */
  lemma {:induction false} PathParent<P, M>(ns: seq<Node<P, M>>, i: nat, k: nat)
    requires Rooted(ns) && i < |ns| && k < |Path(ns, i)| - 1
    ensures ns[Path(ns, i)[k]].parent == Some(Path(ns, i)[k + 1])
    decreases i
  {
    if k > 0 {
      PathParent(ns, ns[i].parent.value, k - 1);
    }
  }

  /** The child created for the `k`-th move in insertion order. */
  function ChildAt<P, M(==)>(ns: seq<Node<P, M>>, i: nat, k: nat): (c: nat)
    requires Arena(ns) && i < |ns| && k < |ns[i].order|
    ensures i < c < |ns| && ns[c].parent == Some(i) && ns[c].move == Some(ns[i].order[k])
  {
    assert WellLinked(ns, i);
    ns[i].children[ns[i].order[k]]
  }

  /** The key of every child of `i`, in insertion order; `key` sees the child and the parent's N. */
  function ChildScores<P, M(==)>(ns: seq<Node<P, M>>, i: nat, key: (Node<P, M>, nat) -> real): (s: seq<real>)
    requires Arena(ns) && i < |ns|
    ensures |s| == |ns[i].order|
    ensures forall k :: 0 <= k < |s| ==> s[k] == key(ns[ChildAt(ns, i, k)], ns[i].n)
  {
    seq(|ns[i].order|, k requires 0 <= k < |ns[i].order| => key(ns[ChildAt(ns, i, k)], ns[i].n))
  }

  /** Child `k` of `i` has the largest key, and every earlier child has a smaller one. */
  ghost predicate FirstBest<P, M>(ns: seq<Node<P, M>>, i: nat, key: (Node<P, M>, nat) -> real, k: nat)
    requires Arena(ns) && i < |ns| && k < |ns[i].order|
  {
    (forall j :: 0 <= j < |ns[i].order| ==>
       key(ns[ChildAt(ns, i, j)], ns[i].n) <= key(ns[ChildAt(ns, i, k)], ns[i].n)) &&
    (forall j :: 0 <= j < k ==>
       key(ns[ChildAt(ns, i, j)], ns[i].n) < key(ns[ChildAt(ns, i, k)], ns[i].n))
  }

  /** `max(node.children.values(), key=…)`: the first child in insertion order with the largest key. */
  function BestChild<P, M(==)>(ns: seq<Node<P, M>>, i: nat, key: (Node<P, M>, nat) -> real): (c: nat)
    requires Arena(ns) && i < |ns| && ns[i].order != []
    ensures i < c < |ns| && ns[c].parent == Some(i)
    ensures exists k :: 0 <= k < |ns[i].order| && c == ChildAt(ns, i, k) && FirstBest(ns, i, key, k)
  {
    var k := FirstMaxIndex(ChildScores(ns, i, key));
    assert FirstBest(ns, i, key, k);
    ChildAt(ns, i, k)
  }

  /** The key `mcts_search` ranks root children by: their visit count N. */
  function VisitKey<P, M(==)>(child: Node<P, M>, parentN: nat): real {
    child.n as real
  }

  /** `max(root.children.items(), key=lambda kv: kv[1].N)`: the most visited child move, the first inserted on ties. */
  function MostVisited<P, M(==)>(ns: seq<Node<P, M>>, i: nat): (best: Option<M>)
    requires Arena(ns) && i < |ns|
    ensures best.None? <==> ns[i].order == []
    ensures best.Some? ==>
      exists k :: 0 <= k < |ns[i].order| && ns[i].order[k] == best.value && FirstBest(ns, i, VisitKey<P, M>, k)
  {
    if ns[i].order == [] then None
    else
      var k := FirstMaxIndex(ChildScores(ns, i, VisitKey<P, M>));
      assert FirstBest(ns, i, VisitKey<P, M>, k);
      Some(ns[i].order[k])
  }

  /** Each node of `p` but the last (which is the root when `p` is a path) is `BestChild` of the one after it. */
  ghost predicate Descends<P, M>(ns: seq<Node<P, M>>, key: (Node<P, M>, nat) -> real, p: seq<nat>)
    requires Arena(ns)
  {
    |p| <= 1 ||
    (p[1] < |ns| && ns[p[1]].order != [] && p[0] == BestChild(ns, p[1], key) && Descends(ns, key, p[1..]))
  }

  /** No node strictly between the two ends of `p` holds a finished game. */
  ghost predicate OpenInside<P, M>(rules: Rules<P, M>, ns: seq<Node<P, M>>, p: seq<nat>) {
    forall k :: 0 < k < |p| - 1 ==> p[k] < |ns| && !rules.isGameOver(ns[p[k]].board)
  }

  /** Moving from an unfinished node to its best child extends a greedy, open path by one node. */
  lemma DescendStep<P, M>(rules: Rules<P, M>, ns: seq<Node<P, M>>, key: (Node<P, M>, nat) -> real, cur: nat, next: nat)
    requires Arena(ns) && cur < |ns| && ns[cur].order != [] && next == BestChild(ns, cur, key)
    requires cur != 0 ==> !rules.isGameOver(ns[cur].board)
    ensures next < |ns| && Path(ns, next) == [next] + Path(ns, cur)
    ensures Descends(ns, key, Path(ns, cur)) ==> Descends(ns, key, Path(ns, next))
    ensures OpenInside(rules, ns, Path(ns, cur)) ==> OpenInside(rules, ns, Path(ns, next))
  {
    var p := Path(ns, cur);
    assert ([next] + p)[1..] == p;
    if OpenInside(rules, ns, p) {
      forall k | 0 < k < |p| ensures !rules.isGameOver(ns[([next] + p)[k]].board) {
        if k == 1 {
          assert p[0] == cur && cur != 0;
        }
      }
    }
  }

  /** Every node of `p` after the first has all its legal moves tried already. */
  ghost predicate FullInside<P, M>(rules: Rules<P, M>, ns: seq<Node<P, M>>, p: seq<nat>) {
    forall k :: 0 < k < |p| ==>
      p[k] < |ns| && FirstUntried(rules.legalMoves(ns[p[k]].board), ns[p[k]].children.Keys).None?
  }

  /** Moving on from a node whose legal moves are all tried keeps every node above the new one fully expanded. */
  lemma FullStep<P, M>(rules: Rules<P, M>, ns: seq<Node<P, M>>, cur: nat, next: nat)
    requires Rooted(ns) && cur < |ns| && next < |ns| && Path(ns, next) == [next] + Path(ns, cur)
    requires FirstUntried(rules.legalMoves(ns[cur].board), ns[cur].children.Keys).None?
    requires FullInside(rules, ns, Path(ns, cur))
    ensures FullInside(rules, ns, Path(ns, next))
  {
    var p := Path(ns, cur);
    forall k | 0 < k < |[next] + p|
      ensures ([next] + p)[k] < |ns| &&
        FirstUntried(rules.legalMoves(ns[([next] + p)[k]].board), ns[([next] + p)[k]].children.Keys).None?
    {
      assert ([next] + p)[k] == p[k - 1];
    }
  }

  /** The first legal move, in enumeration order, that is not yet a child. */
  function FirstUntried<M(==)>(moves: seq<M>, tried: set<M>): (r: Option<M>)
    ensures r.None? <==> forall k :: 0 <= k < |moves| ==> moves[k] in tried
    ensures r.Some? ==>
      exists i :: 0 <= i < |moves| && moves[i] == r.value && r.value !in tried &&
        forall k :: 0 <= k < i ==> moves[k] in tried
  {
    if moves == [] then None
    else if moves[0] !in tried then Some(moves[0])
    else
      var r := FirstUntried(moves[1..], tried);
      assert forall k :: 1 <= k < |moves| ==> moves[k] == moves[1..][k - 1];
      r
  }

  /** Node `nd` after one more visit that backs up `v`. */
  function Visit<P, M(==)>(nd: Node<P, M>, v: int): (r: Node<P, M>)
    ensures r.n == nd.n + 1 && r.w == nd.w + v && MeanConsistent(r)
    ensures r == nd.(n := r.n, w := r.w, q := r.q)
  {
    nd.(n := nd.n + 1, w := nd.w + v, q := (nd.w + v) as real / (nd.n + 1) as real)
  }

  /** The value backed up at distance `k` from the start node: the sign flips at each step. */
  function Alternate(k: nat, v: int): (r: int)
    ensures r == v || r == -v
    ensures k % 2 == 0 ==> r == v
    ensures k % 2 == 1 ==> r == -v
  {
    if k % 2 == 0 then v else -v
  }

  lemma AlternateNext(k: nat, v: int)
    ensures Alternate(k + 1, v) == -Alternate(k, v)
  {
    if k % 2 == 0 {
      assert (k + 1) % 2 == 1;
    } else {
      assert (k + 1) % 2 == 0;
    }
  }

  /** The arena after `expand` creates the child for `mv` under `leaf`. */
  function AddChild<P, M(==)>(rules: Rules<P, M>, ns: seq<Node<P, M>>, leaf: nat, mv: M): (r: seq<Node<P, M>>)
    requires leaf < |ns|
    ensures |r| == |ns| + 1
    ensures r[|ns|] == NewNode(rules.apply(ns[leaf].board, mv), Some(leaf), Some(mv))
    ensures mv in r[leaf].children && r[leaf].children[mv] == |ns| && r[leaf].order == ns[leaf].order + [mv]
    ensures forall m :: m in ns[leaf].children && m != mv ==> m in r[leaf].children && r[leaf].children[m] == ns[leaf].children[m]
    ensures r[leaf].board == ns[leaf].board && r[leaf].n == ns[leaf].n && r[leaf].w == ns[leaf].w
    ensures forall j :: 0 <= j < |ns| && j != leaf ==> r[j] == ns[j]
  {
    var nd := ns[leaf];
    ns[leaf := nd.(children := nd.children[mv := |ns|], order := nd.order + [mv])]
      + [NewNode(rules.apply(nd.board, mv), Some(leaf), Some(mv))]
  }

  lemma AddChildValid<P, M>(rules: Rules<P, M>, ns: seq<Node<P, M>>, leaf: nat, mv: M)
    requires Arena(ns) && Consistent(rules, ns) && Statistics(ns) && leaf < |ns|
    requires !rules.isGameOver(ns[leaf].board)
    requires mv !in ns[leaf].children && mv in rules.legalMoves(ns[leaf].board)
    ensures var ns' := AddChild(rules, ns, leaf, mv);
      Arena(ns') && Consistent(rules, ns') && Statistics(ns')
  {
    AddChildArena(rules, ns, leaf, mv);
    var ns' := AddChild(rules, ns, leaf, mv);
    forall i | 0 <= i < |ns'| ensures Fits(rules, ns', i) && NodeStats(ns', i) {
      if i < |ns| {
        assert Fits(rules, ns, i) && NodeStats(ns, i);
        if ns[i].parent.Some? {
          assert ns'[ns'[i].parent.value].board == ns[ns[i].parent.value].board;
          assert ns'[ns'[i].parent.value].n == ns[ns[i].parent.value].n;
        }
      }
    }
  }

  lemma AddChildArena<P, M>(rules: Rules<P, M>, ns: seq<Node<P, M>>, leaf: nat, mv: M)
    requires Arena(ns) && leaf < |ns| && mv !in ns[leaf].children
    ensures Arena(AddChild(rules, ns, leaf, mv))
  {
    var ns' := AddChild(rules, ns, leaf, mv);
    assert Rooted(ns');
    forall i | 0 <= i < |ns'| ensures WellLinked(ns', i) {
      if i == |ns| {
        AddChildLinksNew(rules, ns, leaf, mv);
      } else if i == leaf {
        AddChildLinksLeaf(rules, ns, leaf, mv);
      } else {
        AddChildLinksOther(rules, ns, leaf, mv, i);
      }
    }
  }

  lemma AddChildLinksNew<P, M>(rules: Rules<P, M>, ns: seq<Node<P, M>>, leaf: nat, mv: M)
    requires Arena(ns) && leaf < |ns| && mv !in ns[leaf].children
    ensures WellLinked(AddChild(rules, ns, leaf, mv), |ns|)
  {
  }

  lemma AddChildLinksLeaf<P, M>(rules: Rules<P, M>, ns: seq<Node<P, M>>, leaf: nat, mv: M)
    requires Arena(ns) && leaf < |ns| && mv !in ns[leaf].children
    ensures WellLinked(AddChild(rules, ns, leaf, mv), leaf)
  {
    var ns' := AddChild(rules, ns, leaf, mv);
    var nd := ns[leaf];
    var nd' := ns'[leaf];
    assert WellLinked(ns, leaf);
    assert nd'.order == nd.order + [mv] && nd'.children == nd.children[mv := |ns|];
    assert NoDup(nd'.order) by {
      assert mv !in nd.order;
    }
    forall m | m in nd'.children
      ensures leaf < nd'.children[m] < |ns'| && ns'[nd'.children[m]].parent == Some(leaf) &&
              ns'[nd'.children[m]].move == Some(m)
    {
      if m != mv {
        assert ns'[nd.children[m]] == ns[nd.children[m]];
      }
    }
    if nd.parent.Some? {
      assert WellLinked(ns, nd.parent.value);
      assert ns'[nd.parent.value] == ns[nd.parent.value];
    }
  }

  lemma AddChildLinksOther<P, M>(rules: Rules<P, M>, ns: seq<Node<P, M>>, leaf: nat, mv: M, i: nat)
    requires Arena(ns) && leaf < |ns| && mv !in ns[leaf].children && i < |ns| && i != leaf
    ensures WellLinked(AddChild(rules, ns, leaf, mv), i)
  {
    var ns' := AddChild(rules, ns, leaf, mv);
    var nd := ns[i];
    assert ns'[i] == nd;
    assert WellLinked(ns, i);
    forall m | m in nd.children
      ensures i < nd.children[m] < |ns'| && ns'[nd.children[m]].parent == Some(i) && ns'[nd.children[m]].move == Some(m)
    {
      var c := nd.children[m];
      assert ns'[c].parent == ns[c].parent && ns'[c].move == ns[c].move;
    }
    if nd.parent.Some? {
      var j := nd.parent.value;
      assert WellLinked(ns, j);
      if j == leaf {
        assert nd.move.value != mv;
        assert ns'[j].children == ns[j].children[mv := |ns|];
      } else {
        assert ns'[j] == ns[j];
      }
    }
  }

  /**
   * `expand` at `leaf` turned `before` into `after` and returned `child`:
   * nothing changes when the game is over or every legal move is already a
   * child; otherwise the first legal move not yet a child gets a new node at
   * the end of the arena, with zeroed statistics and the board after the
   * move, and `leaf` records it as its newest child.
   */
  ghost predicate Expanded<P, M>(rules: Rules<P, M>, before: seq<Node<P, M>>, leaf: nat, after: seq<Node<P, M>>, child: nat)
    requires leaf < |before|
  {
    var nd := before[leaf];
    var untried := FirstUntried(rules.legalMoves(nd.board), nd.children.Keys);
    if rules.isGameOver(nd.board) || untried.None? then
      child == leaf && after == before
    else
      child == |before| && |after| == child + 1 &&
      after[child] == NewNode(rules.apply(nd.board, untried.value), Some(leaf), untried) &&
      after[leaf] == nd.(children := nd.children[untried.value := child], order := nd.order + [untried.value]) &&
      forall j :: 0 <= j < child && j != leaf ==> after[j] == before[j]
  }

  /** A node without child moves, or holding a finished game, has no children. */
  lemma Childless<P, M>(rules: Rules<P, M>, ns: seq<Node<P, M>>, i: nat)
    requires Arena(ns) && Consistent(rules, ns) && i < |ns|
    requires ns[i].order == [] || rules.isGameOver(ns[i].board)
    ensures ns[i].order == [] && ns[i].children == map[]
  {
    assert Fits(rules, ns, i) && WellLinked(ns, i);
    assert ns[i].children.Keys == {};
  }

  /** The node fields that only `expand` changes are the same in both arenas. */
  ghost predicate SameShape<P, M>(a: seq<Node<P, M>>, b: seq<Node<P, M>>) {
    |a| == |b| &&
    forall i :: 0 <= i < |a| ==>
      a[i].board == b[i].board && a[i].parent == b[i].parent && a[i].move == b[i].move &&
      a[i].children == b[i].children && a[i].order == b[i].order
  }

  /** `backpropagate` from the start of `p` has turned `before` into `after`. */
  ghost predicate Backpropagated<P, M>(before: seq<Node<P, M>>, after: seq<Node<P, M>>, p: seq<nat>, v: int) {
    |after| == |before| &&
    (forall k :: 0 <= k < |p| ==> p[k] < |before| && after[p[k]] == Visit(before[p[k]], Alternate(k, v))) &&
    (forall j :: 0 <= j < |before| && j !in p ==> after[j] == before[j])
  }

  /** The first `k` nodes of `p` have been visited, and nothing else has changed. */
  ghost predicate BackpropagatedUpTo<P, M>(before: seq<Node<P, M>>, after: seq<Node<P, M>>, p: seq<nat>, v: int, k: nat)
    requires k <= |p|
  {
    |after| == |before| &&
    (forall l :: 0 <= l < k ==> p[l] < |before| && after[p[l]] == Visit(before[p[l]], Alternate(l, v))) &&
    (forall j :: 0 <= j < |before| && j !in p[..k] ==> after[j] == before[j])
  }

  /** Visiting the next node of a walk that never repeats a node extends a partial backpropagation by one node. */
  lemma BackpropagateStep<P, M>(before: seq<Node<P, M>>, after: seq<Node<P, M>>, p: seq<nat>, v: int, k: nat)
    requires StrictlyDecreasing(p) && k < |p| && p[k] < |before|
    requires BackpropagatedUpTo(before, after, p, v, k)
    ensures p[k] < |after| && after[p[k]] == before[p[k]]
    ensures BackpropagatedUpTo(before, after[p[k] := Visit(after[p[k]], Alternate(k, v))], p, v, k + 1)
  {
    assert p[..k + 1] == p[..k] + [p[k]];
    assert p[k] !in p[..k];
  }

  lemma BackpropagatedValid<P, M>(rules: Rules<P, M>, before: seq<Node<P, M>>, after: seq<Node<P, M>>, start: nat, v: int)
    requires Arena(before) && Consistent(rules, before) && Statistics(before) && start < |before|
    requires Backpropagated(before, after, Path(before, start), v)
    ensures Arena(after) && Consistent(rules, after) && Statistics(after)
  {
    var p := Path(before, start);
    BackpropagatedSameShape(before, after, p, v);
    SameShapeValid(rules, before, after);
    forall i | 0 <= i < |after| ensures NodeStats(after, i) {
      assert NodeStats(before, i);
      if i in p {
        var k :| 0 <= k < |p| && p[k] == i;
        if k < |p| - 1 {
          PathParent(before, start, k);
          assert after[p[k + 1]] == Visit(before[p[k + 1]], Alternate(k + 1, v));
        }
      } else if after[i].parent.Some? {
        var j := after[i].parent.value;
        if j in p {
          var k :| 0 <= k < |p| && p[k] == j;
          assert after[p[k]] == Visit(before[p[k]], Alternate(k, v));
        }
      }
    }
  }

  /** A backpropagation changes only N, W and Q. */
  lemma BackpropagatedSameShape<P, M>(before: seq<Node<P, M>>, after: seq<Node<P, M>>, p: seq<nat>, v: int)
    requires Backpropagated(before, after, p, v)
    ensures SameShape(before, after)
  {
    forall i | 0 <= i < |before|
      ensures after[i].board == before[i].board && after[i].parent == before[i].parent &&
              after[i].move == before[i].move && after[i].children == before[i].children &&
              after[i].order == before[i].order
    {
      if i in p {
        var k :| 0 <= k < |p| && p[k] == i;
      }
    }
  }

  /** Changing only N, W and Q keeps the tree's structure and its agreement with the game. */
  lemma SameShapeValid<P, M>(rules: Rules<P, M>, before: seq<Node<P, M>>, after: seq<Node<P, M>>)
    requires Arena(before) && Consistent(rules, before) && SameShape(before, after)
    ensures Arena(after) && Consistent(rules, after)
  {
    assert Rooted(after);
    forall i | 0 <= i < |after| ensures WellLinked(after, i) && Fits(rules, after, i) {
      assert WellLinked(before, i) && Fits(rules, before, i);
    }
  }

  /** The tree of one `mcts_search` call. */
  class SearchTree<P, M(==)> {
    const rules: Rules<P, M>
    var nodes: seq<Node<P, M>>

    ghost predicate Valid()
      reads this
    {
      Arena(nodes) && Consistent(rules, nodes) && Statistics(nodes)
    }

    /** `Node(root_board.copy())`: a tree holding only the root. */
    constructor (rules: Rules<P, M>, board: P)
      ensures Valid() && this.rules == rules
      ensures nodes == [NewNode(board, None, None)]
    {
      this.rules := rules;
      nodes := [NewNode(board, None, None)];
    }

    /**
     * `select`: from the root, repeatedly move to the best child by `uct`
     * (the first on ties) until a node without children, or stop at the
     * first terminal node entered.
     */
    method Select(uct: (Node<P, M>, nat) -> real) returns (leaf: nat)
      requires Valid()
      ensures leaf < |nodes|
      ensures nodes[leaf].children == map[] && nodes[leaf].order == []
      ensures leaf == 0 <==> nodes[0].order == []
      ensures Descends(nodes, uct, Path(nodes, leaf))
      ensures OpenInside(rules, nodes, Path(nodes, leaf))
    {
      ghost var ns := nodes;
      var cur := 0;
      while nodes[cur].order != []
        invariant nodes == ns
        invariant cur < |ns|
        invariant Descends(ns, uct, Path(ns, cur))
        invariant OpenInside(rules, ns, Path(ns, cur))
        invariant cur != 0 ==> !rules.isGameOver(ns[cur].board) && ns[0].order != []
        decreases |ns| - cur
      {
        var next := BestChild(nodes, cur, uct);
        DescendStep(rules, ns, uct, cur, next);
        cur := next;
        if rules.isGameOver(nodes[cur].board) {
          break;
        }
      }
      leaf := cur;
      Childless(rules, nodes, leaf);
    }

    /**
     * `select` as the search evidently means it: the same greedy descent
     * from the root, but only through nodes whose legal moves are all
     * tried, so it stops at the first node that still has an untried legal
     * move and `expand` widens that node instead of only ever deepening the
     * tree.
     */
    method SelectFrontier(uct: (Node<P, M>, nat) -> real) returns (leaf: nat)
      requires Valid()
      ensures leaf < |nodes|
      ensures nodes[leaf].order == [] || FirstUntried(rules.legalMoves(nodes[leaf].board), nodes[leaf].children.Keys).Some?
      ensures FirstUntried(rules.legalMoves(nodes[0].board), nodes[0].children.Keys).Some? ==> leaf == 0
      ensures FullInside(rules, nodes, Path(nodes, leaf))
      ensures Descends(nodes, uct, Path(nodes, leaf))
      ensures OpenInside(rules, nodes, Path(nodes, leaf))
    {
      ghost var ns := nodes;
      var cur := 0;
      while nodes[cur].order != [] && FirstUntried(rules.legalMoves(nodes[cur].board), nodes[cur].children.Keys).None?
        invariant nodes == ns
        invariant cur < |ns|
        invariant Descends(ns, uct, Path(ns, cur))
        invariant OpenInside(rules, ns, Path(ns, cur))
        invariant FullInside(rules, ns, Path(ns, cur))
        invariant cur != 0 ==>
          !rules.isGameOver(ns[cur].board) && FirstUntried(rules.legalMoves(ns[0].board), ns[0].children.Keys).None?
        decreases |ns| - cur
      {
        var next := BestChild(nodes, cur, uct);
        DescendStep(rules, ns, uct, cur, next);
        FullStep(rules, ns, cur, next);
        cur := next;
        if rules.isGameOver(nodes[cur].board) {
          assert Fits(rules, nodes, cur);
          break;
        }
      }
      leaf := cur;
    }

    /**
     * `expand`: unless the node's game is over, create a child for the first
     * legal move that is not a child yet and return it; otherwise return the
     * node itself.
     */
    method Expand(leaf: nat) returns (child: nat)
      requires Valid() && leaf < |nodes|
      modifies this
      ensures Valid()
      ensures Expanded(rules, old(nodes), leaf, nodes, child)
    {
      var nd := nodes[leaf];
      if rules.isGameOver(nd.board) {
        return leaf;
      }
      var tried := nd.children.Keys;
      var legal := rules.legalMoves(nd.board);
      var i := 0;
      while i < |legal|
        invariant 0 <= i <= |legal|
        invariant nodes == old(nodes)
        invariant FirstUntried(legal, tried) == FirstUntried(legal[i..], tried)
      {
        var mv := legal[i];
        assert legal[i..][1..] == legal[i + 1..];
        if mv !in tried {
          AddChildValid(rules, nodes, leaf, mv);
          child := |nodes|;
          nodes := AddChild(rules, nodes, leaf, mv);
          return;
        }
        i := i + 1;
      }
      return leaf;
    }

    /**
     * `backpropagate`: walk from `start` to the root, adding one visit to
     * each node and backing up `value` with the sign flipped at each step.
     */
    method Backpropagate(start: nat, value: int)
      requires Valid() && start < |nodes|
      modifies this
      ensures Valid()
      ensures Backpropagated(old(nodes), nodes, Path(old(nodes), start), value)
    {
      ghost var before := nodes;
      ghost var p := Path(nodes, start);
      var ns := nodes;
      var cur: Option<nat> := Some(start);
      var v := value;
      ghost var k := 0;
      while cur.Some?
        invariant 0 <= k <= |p|
        invariant cur.Some? <==> k < |p|
        invariant cur.Some? ==> cur.value == p[k]
        invariant v == Alternate(k, value)
        invariant BackpropagatedUpTo(before, ns, p, value, k)
        decreases |p| - k
      {
        var c := cur.value;
        BackpropagateStep(before, ns, p, value, k);
        var nd := ns[c];
        ns := ns[c := Visit(nd, v)];
        AlternateNext(k, value);
        v := -v;
        if k < |p| - 1 {
          PathParent(before, start, k);
        } else {
          assert c == 0;
        }
        cur := nd.parent;
        k := k + 1;
      }
      assert p[..k] == p;
      nodes := ns;
      BackpropagatedValid(rules, before, nodes, start, value);
    }
  }
}
