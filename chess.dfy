/**
 * The chess rules engine the search consumes (python-chess in the Python code),
 * abstracted as a record of total functions over an opaque position type `P`
 * and an opaque move type `M`. Nothing here is implemented: every property
 * proved elsewhere holds for any rules engine with these signatures.
 */
module Chess {
  /** What `board.result(claim_draw=True)` reports: "1-0", "0-1", "1/2-1/2" or "*". */
  datatype GameResult = WhiteWins | BlackWins | Drawn | Unfinished

  datatype Rules<!P, !M> = Rules(
    /** `list(board.legal_moves)`: the legal moves in the engine's fixed enumeration order. */
    legalMoves: P -> seq<M>,
    /** A copy of the board with the move pushed; the argument is never changed. */
    apply: (P, M) -> P,
    /** `board.is_game_over(claim_draw=True)`. */
    isGameOver: P -> bool,
    /** `board.result(claim_draw=True)`. */
    result: P -> GameResult,
    /** `board.is_capture(move)`. */
    isCapture: (P, M) -> bool,
    /** `board.is_check()`: the side to move is in check. */
    isCheck: P -> bool
  )
}
