/**
 * Syzygy tablebase helpers: exception-safe probes, the WDL-to-score mapping
 * and the ranking of root moves by WDL with a DTZ tie-break.
 *
 * WDL values are integers from the side to move's point of view (the source
 * treats 2 as a win, 1 as a draw and everything else as a loss); DTZ is a
 * signed distance to a zeroing move.
 */
module TbUtils {
  import opened Wrappers
  import opened Chess
  import opened Ordering

  /** What one lookup in the tablebase library does: return a number or raise. */
  datatype Answer = Value(n: int) | Raised

  /** An open tablebase: its WDL and DTZ lookups. */
  datatype Tablebase<!P> = Tablebase(wdl: P -> Answer, dtz: P -> Answer)

  /** The `try … except Exception: return None` shared by both probes. */
  function Caught(a: Answer): (r: Option<int>)
    ensures r.None? <==> a.Raised?
    ensures r.Some? ==> r.value == a.n
  {
    match a
    case Value(n) => Some(n)
    case Raised => None
  }

  /** `probe_wdl`: never raises; a failed lookup yields None. */
  function ProbeWdl<P>(tb: Tablebase<P>, board: P): (r: Option<int>)
    ensures r.None? <==> tb.wdl(board).Raised?
    ensures r.Some? ==> r.value == tb.wdl(board).n
  {
    Caught(tb.wdl(board))
  }

  /** `probe_dtz`: never raises; a failed lookup yields None. */
  function ProbeDtz<P>(tb: Tablebase<P>, board: P): (r: Option<int>)
    ensures r.None? <==> tb.dtz(board).Raised?
    ensures r.Some? ==> r.value == tb.dtz(board).n
  {
    Caught(tb.dtz(board))
  }

  /** `wdl_to_score`: a total map onto {None, 1, 0, -1} (the source's floats 1.0, 0.0, -1.0). */
  function WdlToScore(wdl: Option<int>): (r: Option<int>)
    ensures r.None? <==> wdl.None?
    ensures r.Some? ==> r.value in {-1, 0, 1}
    ensures r == Some(1) <==> wdl == Some(2)
    ensures r == Some(0) <==> wdl == Some(1)
    ensures r == Some(-1) <==> wdl.Some? && wdl.value != 1 && wdl.value != 2
  {
    match wdl
    case None => None
    case Some(w) => Some(if w == 2 then 1 else if w == 1 then 0 else -1)
  }

  /** The value `best_wdl` starts from, below every real WDL value. */
  const NoWdl: int := -9
  /** The key a missing DTZ gets (negated when the best outcome is a loss). */
  const MissingDtz: int := 9999

  /** `dtz_key`: the tie-break key among moves reaching `bestWdl`; smaller is preferred. */
  function DtzKey(dtz: Option<int>, bestWdl: int): (k: int)
    ensures dtz.Some? ==> k == dtz.value || k == -dtz.value
    ensures dtz.None? ==> k == MissingDtz || k == -MissingDtz
    ensures bestWdl != 2 && bestWdl != 0 ==> k >= 0
    ensures bestWdl != 2 && bestWdl != 0 && dtz.Some? ==> (k == 0 <==> dtz.value == 0)
  {
    match dtz
    case None => if bestWdl == 2 then MissingDtz else if bestWdl == 0 then -MissingDtz else MissingDtz
    case Some(d) =>
      if bestWdl == 2 then d
      else if bestWdl == 0 then -d
      else if d == 0 then 0 else if d < 0 then -d else d
  }

  /** Win: the smaller DTZ ranks first ("win quickly"). */
  lemma DtzKeyWinPrefersSmallDtz(a: int, b: int)
    ensures DtzKey(Some(a), 2) <= DtzKey(Some(b), 2) <==> a <= b
  {
  }

  /** Loss: the larger DTZ ranks first ("lose slowly"). */
  lemma DtzKeyLossPrefersLargeDtz(a: int, b: int)
    ensures DtzKey(Some(a), 0) <= DtzKey(Some(b), 0) <==> a >= b
  {
  }

  /** Any other best WDL: the DTZ nearest zero ranks first, and DTZ 0 has key 0. */
  lemma DtzKeyDrawPrefersSmallMagnitude(a: int, b: int, bestWdl: int)
    requires bestWdl != 2 && bestWdl != 0
    ensures DtzKey(Some(a), bestWdl) <= DtzKey(Some(b), bestWdl) <==>
            (if a < 0 then -a else a) <= (if b < 0 then -b else b)
    ensures DtzKey(Some(0), bestWdl) == 0 && DtzKey(Some(a), bestWdl) >= 0
  {
  }

  /** A missing DTZ ranks 9999, except -9999 when the best outcome is WDL 0. */
  lemma DtzKeyMissing(bestWdl: int)
    ensures DtzKey(None, bestWdl) == (if bestWdl == 0 then -MissingDtz else MissingDtz)
  {
  }

  /** One entry of `scored`: the WDL and DTZ probed after the move. */
  datatype MoveProbe = MoveProbe(wdl: Option<int>, dtz: Option<int>)

  /** The dict `best_moves_by_tb` returns. */
  datatype TbRanking<M> = TbRanking(moves: map<M, MoveProbe>, bestSet: set<M>, bestWdl: int)

  /** The probes of the position reached by `mv`: the WDL is the opponent's, who is then to move. */
  function ProbeAfter<P, M>(rules: Rules<P, M>, tb: Tablebase<P>, board: P, mv: M): (r: MoveProbe)
    ensures r.wdl.None? <==> tb.wdl(rules.apply(board, mv)).Raised?
    ensures r.wdl.Some? ==> r.wdl.value == tb.wdl(rules.apply(board, mv)).n
    ensures r.dtz.None? <==> tb.dtz(rules.apply(board, mv)).Raised?
    ensures r.dtz.Some? ==> r.dtz.value == tb.dtz(rules.apply(board, mv)).n
  {
    var after := rules.apply(board, mv);
    MoveProbe(ProbeWdl(tb, after), ProbeDtz(tb, after))
  }

  /** A move of `scored` whose WDL is the best one. */
  ghost predicate IsCandidate<M>(scored: map<M, MoveProbe>, bestWdl: int, m: M) {
    m in scored && scored[m].wdl == Some(bestWdl)
  }

  /** `[uci for uci, v in scored.items() if v['wdl'] == best_wdl]`, walking the moves in enumeration order. */
  function Candidates<M>(moves: seq<M>, scored: map<M, MoveProbe>, bestWdl: int): (c: seq<M>)
    requires forall m :: m in moves ==> m in scored
    ensures forall i :: 0 <= i < |c| ==> c[i] in moves && IsCandidate(scored, bestWdl, c[i])
    ensures forall i :: 0 <= i < |moves| && IsCandidate(scored, bestWdl, moves[i]) ==> moves[i] in c
  {
    if moves == [] then []
    else
      var rest := Candidates(moves[1..], scored, bestWdl);
      assert moves == [moves[0]] + moves[1..];
      if scored[moves[0]].wdl == Some(bestWdl) then [moves[0]] + rest else rest
  }

  /** The keys `dtz_key` gives the candidates. */
  function CandidateKeys<M>(c: seq<M>, scored: map<M, MoveProbe>, bestWdl: int): (ks: seq<int>)
    requires forall m :: m in c ==> m in scored
    ensures |ks| == |c|
    ensures forall i :: 0 <= i < |c| ==> ks[i] == DtzKey(scored[c[i]].dtz, bestWdl)
  {
    seq(|c|, i requires 0 <= i < |c| => DtzKey(scored[c[i]].dtz, bestWdl))
  }

  /**
   * `best_moves_by_tb`: probe every legal move (after pushing it), keep the
   * highest WDL, and among the moves reaching it those with the least DTZ key.
   */
  method BestMovesByTb<P, M(==)>(rules: Rules<P, M>, board: P, tb: Tablebase<P>) returns (r: TbRanking<M>)
    ensures r.moves.Keys == set m | m in rules.legalMoves(board)
    ensures forall m :: m in r.moves ==> r.moves[m] == ProbeAfter(rules, tb, board, m)
    ensures r.bestWdl >= NoWdl
    ensures forall m :: m in r.moves && r.moves[m].wdl.Some? ==> r.moves[m].wdl.value <= r.bestWdl
    ensures r.bestWdl != NoWdl ==> exists m :: IsCandidate(r.moves, r.bestWdl, m)
    ensures (forall m :: m in r.moves ==> r.moves[m].wdl.None?) ==> r.bestWdl == NoWdl
    ensures forall m :: m in r.bestSet <==>
              m in r.moves && IsCandidate(r.moves, r.bestWdl, m) && MinimalKey(r.moves, r.bestWdl, m)
    ensures r.bestSet != {} <==>
              exists m :: m in r.moves && r.moves[m].wdl.Some? && r.moves[m].wdl.value >= NoWdl
  {
    var legal := rules.legalMoves(board);
    var scored: map<M, MoveProbe> := map[];
    var bestWdl := NoWdl;
    var i := 0;
    while i < |legal|
      invariant 0 <= i <= |legal|
      invariant scored.Keys == set m | m in legal[..i]
      invariant forall m :: m in scored ==> scored[m] == ProbeAfter(rules, tb, board, m)
      invariant bestWdl >= NoWdl
      invariant forall m :: m in scored && scored[m].wdl.Some? ==> scored[m].wdl.value <= bestWdl
      invariant bestWdl != NoWdl ==> exists m :: IsCandidate(scored, bestWdl, m)
      invariant (forall m :: m in scored ==> scored[m].wdl.None?) ==> bestWdl == NoWdl
    {
      var mv := legal[i];
      var after := rules.apply(board, mv);
      var wdl := ProbeWdl(tb, after);
      var dtz := ProbeDtz(tb, after);
      ghost var prev := scored;
      scored := scored[mv := MoveProbe(wdl, dtz)];
      assert forall m :: m in prev ==> scored[m] == prev[m];
      ghost var prevBest := bestWdl;
      if wdl.Some? && wdl.value > bestWdl {
        bestWdl := wdl.value;
      }
      if bestWdl != NoWdl && wdl != Some(bestWdl) {
        ghost var w :| IsCandidate(prev, prevBest, w);
        assert IsCandidate(scored, bestWdl, w);
      } else if bestWdl != NoWdl {
        assert IsCandidate(scored, bestWdl, mv);
      }
      assert legal[..i + 1] == legal[..i] + [mv];
      i := i + 1;
    }
    assert legal[..i] == legal;

    r := TbRanking(scored, BestSet(legal, scored, bestWdl), bestWdl);
    CandidateExists(scored, bestWdl);
  }

  /** Some move reaches `bestWdl` exactly when some probe returned a WDL of at least -9. */
  lemma CandidateExists<M>(scored: map<M, MoveProbe>, bestWdl: int)
    requires bestWdl >= NoWdl
    requires forall m :: m in scored && scored[m].wdl.Some? ==> scored[m].wdl.value <= bestWdl
    requires bestWdl != NoWdl ==> exists m :: IsCandidate(scored, bestWdl, m)
    ensures (exists m :: m in scored && IsCandidate(scored, bestWdl, m)) <==>
            exists m :: m in scored && scored[m].wdl.Some? && scored[m].wdl.value >= NoWdl
  {
    if m :| m in scored && scored[m].wdl.Some? && scored[m].wdl.value >= NoWdl {
      if bestWdl == NoWdl {
        assert IsCandidate(scored, bestWdl, m);
      }
    }
  }

  /** The DTZ key that does best among the candidates. */
  ghost predicate MinimalKey<M>(scored: map<M, MoveProbe>, bestWdl: int, m: M)
    requires m in scored
  {
    forall c :: c in scored && IsCandidate(scored, bestWdl, c) ==>
      DtzKey(scored[m].dtz, bestWdl) <= DtzKey(scored[c].dtz, bestWdl)
  }

  /**
   * The tail of `best_moves_by_tb`: the candidates (moves whose WDL is
   * `bestWdl`), ranked by `dtz_key`, keeping all that tie with the first.
   */
  function BestSet<M>(legal: seq<M>, scored: map<M, MoveProbe>, bestWdl: int): (best: set<M>)
    requires scored.Keys == set m | m in legal
    ensures forall m :: m in best ==> IsCandidate(scored, bestWdl, m) && MinimalKey(scored, bestWdl, m)
    ensures forall m :: m in scored && IsCandidate(scored, bestWdl, m) && MinimalKey(scored, bestWdl, m) ==> m in best
    ensures best != {} <==> exists m :: m in scored && IsCandidate(scored, bestWdl, m)
  {
    var candidates := Candidates(legal, scored, bestWdl);
    assert forall m :: m in scored && IsCandidate(scored, bestWdl, m) ==> m in candidates by {
      forall m | m in scored && IsCandidate(scored, bestWdl, m) ensures m in candidates {
        var k :| 0 <= k < |legal| && legal[k] == m;
      }
    }
    if candidates != [] then
      var keys := CandidateKeys(candidates, scored, bestWdl);
      var bestVal := Minimum(keys);
      RankedIsMinimal(candidates, scored, bestWdl, keys, bestVal);
      var j :| 0 <= j < |keys| && keys[j] == bestVal;
      assert candidates[j] in candidates;
      set u | u in candidates && DtzKey(scored[u].dtz, bestWdl) == bestVal
    else
      {}
  }

  lemma RankedIsMinimal<M>(candidates: seq<M>, scored: map<M, MoveProbe>, bestWdl: int, keys: seq<int>, bestVal: int)
    requires forall m :: m in candidates ==> m in scored
    requires forall i :: 0 <= i < |candidates| ==> IsCandidate(scored, bestWdl, candidates[i])
    requires forall m :: m in scored && IsCandidate(scored, bestWdl, m) ==> m in candidates
    requires keys == CandidateKeys(candidates, scored, bestWdl)
    requires bestVal in keys && forall x :: x in keys ==> bestVal <= x
    ensures forall m :: m in candidates && DtzKey(scored[m].dtz, bestWdl) == bestVal ==>
              IsCandidate(scored, bestWdl, m) && MinimalKey(scored, bestWdl, m)
    ensures forall m :: m in scored && IsCandidate(scored, bestWdl, m) && MinimalKey(scored, bestWdl, m) ==>
              m in candidates && DtzKey(scored[m].dtz, bestWdl) == bestVal
  {
    forall c | c in candidates ensures IsCandidate(scored, bestWdl, c) && bestVal <= DtzKey(scored[c].dtz, bestWdl) {
      var i :| 0 <= i < |candidates| && candidates[i] == c;
      assert keys[i] in keys;
    }
    var j :| 0 <= j < |keys| && keys[j] == bestVal;
    assert IsCandidate(scored, bestWdl, candidates[j]);
  }

}
