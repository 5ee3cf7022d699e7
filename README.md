# MCTS chess endgame engine: a Dafny model

This project models the search engine of a small chess endgame player: a
Monte-Carlo tree search (`mcts_core.py` and its earlier variant
`02_mcts_core.py`) and the Syzygy tablebase helpers it uses
(`tb_utils.py`).

Chess itself is abstract. `Chess.Rules` bundles the position and move
operations the code asks of `python-chess` as total functions over an opaque
position type `P` and move type `M`: legal moves in enumeration order, apply a
move, game over, result, is a capture, is check. A tablebase is
`TbUtils.Tablebase`, a pair of lookups that either answer a number or raise.

Modules, one per concern:

- `Wrappers`: `Option`.
- `Chess`: the abstract rules and `GameResult` (`'1-0'`, `'0-1'`, draw, unfinished).
- `Ordering`: "first maximal element" (Python's `max`), a descending sort
  (Python's stable `list.sort(reverse=True)`; stability is stated for the
  head of the sort, which is all `rollout_policy` uses), and the minimum of a list.
- `TbUtils`: `probe_wdl`, `probe_dtz`, `wdl_to_score`, `dtz_key` and `best_moves_by_tb`.
- `MctsTree`: `Node`, `select`, `expand` and `backpropagate`. They behave
  identically in both Python files. The tree is an arena of
  `Node` values: `SearchTree.nodes[i]` is node `i`, `parent` is an index, and
  `children` maps a move to an index. Because Python dicts keep insertion
  order and `max` returns the first maximal item, each node also records
  `order`, its child moves in insertion order. `SearchTree.Valid()` is the
  invariant every operation keeps:
  - `Arena`: links agree in both directions and node 0 is the root.
  - `Consistent`: each child's board is its parent's board with its move
    applied, child moves are legal, and finished games are never expanded.
  - `Statistics`: Q = W / N, and no node has more visits than its parent.
- `MctsCore`: `rollout_policy`, `simulate` (with its tablebase short-cut) and
  `mcts_search` of `mcts_core.py`.
- `Mcts02`: `simulate` and `mcts_search` of `02_mcts_core.py`. They reuse everything else.

Two behaviours of the code are modelled as written:

- `simulate` scores a finished play-out from White's side (`'1-0'` is 1). Its
  tablebase short-cut instead returns `wdl_to_score` of a WDL that is from
  the side to move's point of view. `backpropagate` then adds the value to the
  expanded node and flips its sign at every step towards the root. Both are in
  `MctsCore.EndingScore` and `MctsTree.Alternate`.
- `best_moves_by_tb` probes the position after each move, where the opponent
  is to move. The WDL it maximises is therefore the opponent's (`TbUtils.ProbeAfter`).

The engine in these files is simple, and the model keeps it so:

- Expansion takes the first untried legal move in enumeration order.
- The simulator returns White-perspective results.
- There is no mate scan, no prior, and no static evaluation at the ply bound:
  an unfinished game scores 0.
- The later engine in `mcts_core copy.py` orders untried moves by a
  priority, scans for mates and seeds priors; it is not part of this model.
- `select` goes down whenever a node has a child, so the tree never widens:
  every node gets at most one child and the search always returns the
  root's first legal move. `MctsCore.MctsSearch` and `Mcts02.MctsSearch`
  prove this about the code as written; see "## Findings" for the
  correction `SearchTree.SelectFrontier` and what it achieves.

Python's floating-point values 1.0, 0.0 and -1.0 are the integers 1, 0 and
-1 here. W is an integer and Q a real number.

## Model

| member | source | states |
|---|---|---|
| MctsTree.NewNode | mcts_core.py:10-18 | a new node has no children and N = W = Q = 0 |
| MctsTree.SearchTree.constructor | mcts_core.py:88 | the search starts from a tree holding only the root, with the given board, and the tree invariant holds |
| MctsTree.Path | mcts_core.py:77-84 | the parent walk from a node starts at it, ends at the root, and visits strictly older nodes |
| MctsTree.PathParent | mcts_core.py:84 | each node on the walk is followed by its parent |
| MctsTree.BestChild | mcts_core.py:29 | the chosen child is a child of the node with the largest score; every child inserted before it scores strictly less |
| MctsTree.SearchTree.Select | mcts_core.py:26-31 | the returned node exists, has no children (a terminal node it stops at never has any), and is the root exactly when the root has no children; every step on the path from the root moved to the first best-scoring child; no node strictly inside the path is terminal; `select` in 02_mcts_core.py:26-33 is the same code |
| MctsTree.SearchTree.SelectFrontier | mcts_core.py:26-31 | the corrected `select` of "## Findings": the same greedy descent that never passes through a terminal node, but it passes only through nodes whose legal moves are all tried, and stops at a node without children or with an untried legal move; whenever the root has an untried legal move, the root is returned |
| MctsTree.FullStep | mcts_core.py:28-30 | stepping on from a node whose legal moves are all tried keeps every node above the new one fully expanded |
| MctsTree.DescendStep | mcts_core.py:28-30 | moving from a non-terminal node to its best child extends the greedy, open path by exactly that child |
| MctsTree.FirstUntried | mcts_core.py:35-37 | no move exactly when every legal move is already a child; otherwise the first legal move in enumeration order that is not a child |
| MctsTree.SearchTree.Expand | mcts_core.py:33-42 | terminal or fully expanded: the tree is unchanged and the node itself is returned. Otherwise exactly one node is added: keyed by the first untried legal move, with zeroed statistics, that parent and move, and the board after the move. The parent gains that child last in insertion order, every other node is untouched, and the invariant is kept; `expand` in 02_mcts_core.py:35-46 is the same code |
| MctsTree.AddChild | mcts_core.py:38-40 | the arena gains one node at the end, with the board after the move, that parent and move, and zero statistics; the parent keeps its board and statistics, maps the move to the new node after its earlier children, and every other node is unchanged |
| MctsTree.AddChildValid | mcts_core.py:38-40 | adding an untried legal child to a non-terminal node keeps the arena, consistency and statistics invariants |
| MctsTree.AddChildArena | mcts_core.py:39-40 | the new child's parent and move links and the parent's new child entry agree, and the child moves stay duplicate-free |
| MctsTree.Visit | mcts_core.py:80-82 | one visit adds 1 to N and the value to W, leaves the other fields alone, and re-establishes Q = W / N |
| MctsTree.Alternate | mcts_core.py:78-83 | the value added at distance k from the start is the value, negated when k is odd |
| MctsTree.SearchTree.Backpropagate | mcts_core.py:77-84 | each node from the start to the root gets exactly one visit, with the value times (-1)^k at distance k; all other nodes are unchanged; the invariant is kept; `backpropagate` in 02_mcts_core.py:71-79 is the same code |
| MctsTree.BackpropagateStep | mcts_core.py:79-84 | one more visited node extends a partial backpropagation, and that node had not been touched yet |
| MctsTree.BackpropagatedSameShape | mcts_core.py:80-82 | a backpropagation changes only N, W and Q: boards, links and children stay as they were |
| MctsTree.BackpropagatedValid | mcts_core.py:77-84 | a backpropagation keeps the tree shape, Q = W / N, and "no child has more visits than its parent" |
| MctsTree.SameShapeValid | mcts_core.py:80-82 | changing only N, W and Q keeps the arena and consistency invariants |
| MctsTree.MostVisited | mcts_core.py:99 | no move exactly when the root has no children; otherwise the child move with the largest N, the first inserted on ties |
| MctsCore.RolloutScore | mcts_core.py:47-53 | the score is in 0..3: at least 2 exactly for a capture, odd exactly when the move gives check |
| MctsCore.BestMove | mcts_core.py:54-55 | no move exactly when the list is empty; otherwise a move of the list (which one: `BestMoveIsFirstBest`) |
| MctsCore.BestMoveIsFirstBest | mcts_core.py:54-55 | the chosen move has the largest score among the moves, and every earlier move scores strictly less |
| MctsCore.RolloutPolicy | mcts_core.py:44-46 | no move exactly when there are no legal moves |
| MctsCore.RolloutPolicyChoice | mcts_core.py:44-55 | the rollout move is legal, has the largest score, and is the earliest legal move with that score; `rollout_policy` in 02_mcts_core.py:48-60 is the same code |
| MctsCore.RolloutPolicySortsStably | mcts_core.py:54-55 | the rollout move is the head of the legal moves stably sorted by score, highest first |
| Ordering.FirstMaxIndex | mcts_core.py:29 | the index of the first maximal key: nothing is larger, and everything before it is smaller |
| Ordering.InsertDesc | mcts_core.py:54 | inserting an element before the first element with a key no larger adds exactly that element, and it comes first unless the head's key is larger |
| Ordering.InsertDescSorted | mcts_core.py:54 | inserting into a descending list keeps it descending |
| Ordering.SortDesc | mcts_core.py:54 | the sorted list is a permutation of the input and is descending by key |
| Ordering.SortDescHead | mcts_core.py:54-55 | the head of the stable descending sort is the first element with the largest key |
| MctsCore.Probe | mcts_core.py:59-61 | without an open tablebase there is no answer; with one, it is `probe_wdl` |
| MctsCore.PlayoutEnding | mcts_core.py:64-72 | the play-out loop applies at most its ply bound |
| MctsCore.SimulateEnding | mcts_core.py:57-75 | simulate applies at most `max_plies` moves; a tablebase answer for the start position ends it at once, with no ply played; otherwise the loop runs |
| MctsCore.PlayoutStops | mcts_core.py:65-71 | a play-out not cut short by the tablebase stops at a finished game, at the ply bound, or at a position with no legal move |
| MctsCore.NoTableNoHit | mcts_core.py:66-69 | without a tablebase the play-out always ends by leaving the loop |
| MctsCore.ResultScore | mcts_core.py:74-75 | `'1-0'` gives 1, `'0-1'` gives -1, and every other result gives 0 |
| MctsCore.EndingScore | mcts_core.py:60-75 | the simulated value is in {-1, 0, 1}: `wdl_to_score` of the tablebase answer, or the score of the final result |
| MctsCore.Simulate | mcts_core.py:57-62 | the value returned is the score of the modelled ending, between -1 and 1 |
| MctsCore.PlayOut | mcts_core.py:64-75 | the loop returns the score of the play-out ending from the given position |
| MctsCore.Report | mcts_core.py:97-100 | no move and no best-child statistics exactly when the root has no children. Otherwise the most-visited root child, first inserted on ties, with its N and Q; `iters` and `root_N` are reported |
| MctsCore.IterationKeepsRoot | mcts_core.py:91-96 | one iteration keeps the root board, raises root N by one, adds at most one node, and gives the root a child at the first iteration when it has a legal move and is not finished |
| MctsCore.IterationKeepsLine | mcts_core.py:26-42 | a round whose selected node had no children keeps every node at one child at most, and the root's only child is its first legal move |
| MctsCore.SingleLineMissesAMove | mcts_core.py:26-31 | in such a tree, when the first two legal moves of the root differ, the second never has a node |
| MctsCore.IterationWidens | mcts_core.py:86-96 | with the corrected select, a round keeps the root board, raises root N by one, adds at most one node, and gives the next legal root move in enumeration order a node |
| MctsCore.WidenedRoot | mcts_core.py:97-98 | after at least one widening round, an unfinished root with a legal move has a child, so the corrected search returns a move |
| MctsCore.RootChildren | mcts_core.py:97-98 | a root with children is an unfinished position with legal moves |
| MctsCore.MctsSearch | mcts_core.py:86-100 | after `budget` iterations: `iters == root_N == budget`; the tree is valid, keeps the root board, and has at most `budget + 1` nodes; the move is absent exactly when the budget is 0, the root game is over, or it has no legal move; otherwise it is the most-visited root child, first inserted on ties. Every node of the final tree has at most one child, so the move returned is always the root's first legal move |
| MctsCore.MctsSearchFrontier | mcts_core.py:86-100 | the search with the corrected select: the tree is valid, keeps the root board, and has at most `budget + 1` nodes; `iters == root_N == budget`; the move is absent exactly when the budget is 0, the root game is over, or it has no legal move, the result is reported as in `mcts_search`, and at an unfinished root each of the first `budget` legal moves has a node |
| Mcts02.Simulate | 02_mcts_core.py:62-69 | the value is the score of the play-out without tablebase, which always ends by leaving the loop: `'1-0'` is 1, `'0-1'` is -1, anything else 0 |
| Mcts02.MctsSearch | 02_mcts_core.py:81-97 | the same guarantees as `MctsCore.MctsSearch`, for the variant that never consults a tablebase, including that the move returned is always the root's first legal move |
| TbUtils.Caught | tb_utils.py:8-11 | a raised lookup becomes None, an answer becomes its value |
| TbUtils.ProbeWdl | tb_utils.py:7-11 | `probe_wdl` never raises: None exactly when the lookup raised, otherwise its value |
| TbUtils.ProbeDtz | tb_utils.py:13-17 | `probe_dtz` never raises: None exactly when the lookup raised, otherwise its value |
| TbUtils.WdlToScore | tb_utils.py:19-21 | None to None, 2 to 1, 1 to 0, and every other integer to -1 |
| TbUtils.ProbeAfter | tb_utils.py:33-36 | the WDL and DTZ of a move are the probes of the position after it: None exactly when that lookup raised, otherwise its value |
| TbUtils.DtzKey | tb_utils.py:43-52 | the key is the DTZ or its negation, and a missing DTZ is 9999 or -9999; for a best WDL other than 2 and 0 the key is never negative and is 0 exactly for DTZ 0 (the orderings are the four lemmas below) |
| TbUtils.DtzKeyWinPrefersSmallDtz | tb_utils.py:47-48 | when the best WDL is 2, a smaller DTZ ranks first |
| TbUtils.DtzKeyLossPrefersLargeDtz | tb_utils.py:49-50 | when the best WDL is 0, a larger DTZ ranks first |
| TbUtils.DtzKeyDrawPrefersSmallMagnitude | tb_utils.py:51-52 | for any other best WDL, the DTZ nearest zero ranks first, and DTZ 0 has key 0 |
| TbUtils.DtzKeyMissing | tb_utils.py:45-46 | a missing DTZ has key 9999, or -9999 when the best WDL is 0 |
| TbUtils.Candidates | tb_utils.py:41 | the candidates are exactly the scored moves whose WDL equals the best WDL |
| TbUtils.BestMovesByTb | tb_utils.py:23-61 | `moves` has exactly one entry per legal move, holding the WDL and DTZ probed after that move. `best_wdl` is at least -9 and at least every non-None WDL; it is reached by some move unless it is still -9, and it is -9 when every WDL is None. `best_set` is exactly the candidates with the least `dtz_key`, and it is empty exactly when no probe returned a WDL of at least -9 |
| TbUtils.CandidateExists | tb_utils.py:38-41 | some move reaches `best_wdl` exactly when some probe returned a WDL of at least -9 |
| TbUtils.BestSet | tb_utils.py:54-59 | the best set holds exactly the candidates minimising `dtz_key`, and is empty exactly when there are no candidates |
| TbUtils.RankedIsMinimal | tb_utils.py:55-57 | the candidates whose key equals the least key are exactly the candidates minimising the key |
| Ordering.Minimum | tb_utils.py:55-56 | the least element of a non-empty list is in the list and at most every element |

## Findings

| source | as written | input that shows it | evidently intended | confidence | as-written member | corrected member |
|---|---|---|---|---|---|---|
| mcts_core.py:26-31 | `select` (also at 02_mcts_core.py:26-33) descends whenever the node has a child, so `expand` only ever reaches a childless node: the tree is a single line, the root keeps one child, the UCT score never matters, and `mcts_search` always returns the first legal move | a root with two different legal moves and a budget of 2: the second move never gets a node | descend only through nodes whose legal moves are all tried, so the root is widened one legal move per iteration | high for the behaviour, medium that it is unintended; not executed | MctsCore.MctsSearch, MctsCore.SingleLineMissesAMove | MctsTree.SearchTree.SelectFrontier, MctsCore.MctsSearchFrontier |

`MctsCore.MctsSearch` and `Mcts02.MctsSearch` keep the code's `select`,
because they model the files as they are. The correction stands beside
them as `MctsCore.MctsSearchFrontier`, with the widening it gives proved.

## Left out

- The wall-clock deadline (`time.time()`, `max(0.05, time_limit)`) is replaced by `budget`, the number of iterations the deadline allows. A budget of 0 is allowed, and the model says what happens then.
- `random.seed` is left out: nothing in these files draws random numbers.
- `uct_value` is `sqrt`/`log` floating-point arithmetic, and `C_PUCT = 1.4` belongs to it. Both are an opaque scoring parameter `uct` of `Select` and `MctsSearch`, taking the child and the parent's N. Every property of `select` holds for any such score.
- `round(best_child.Q, 3)` is not modelled: `bestQ` is the exact Q.
- `board.copy()`, `push` and `pop` are replaced by the pure `Rules.apply`. The caller's board can never change, so "the board is left as before" holds by construction.
- Moves are keys in their own right. `best_moves_by_tb` keys `scored` by `mv.uci()`, which is one-to-one on legal moves.
- `TBLite` and `open_tablebase` (tb_utils.py:63-75) open and close files and are not modelled. A tablebase is either absent (`None`, which also covers `tb.obj is None`) or a pair of lookups.
- In-place updates are modelled on values. Nodes are immutable values in an arena, replaced when their fields change. `rollout_policy`'s in-place `list.sort` is a functional stable sort, and `best_set`'s `sorted(...)` is a minimum; both choose the same moves, and the sort has no other visible effect.
- `MctsCore.RolloutPolicy`: its own contract says only when it returns a move. Which move it returns is stated by `RolloutPolicyChoice` and `RolloutPolicySortsStably`.
- `MctsCore.Simulate` is split into `Simulate` (the first tablebase probe) and `PlayOut` (the loop and the scoring); together they are the one Python function.
- The user interfaces, command-line players, experiment scripts and the mate/prior heuristics of a newer engine version are not part of this model.
