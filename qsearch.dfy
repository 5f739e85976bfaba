/**
 * The quiescence search `qsearch`.  The engine never calls it (the call at
 * the horizon of `negamax` is commented out), but it is part of the
 * program: read the clock, stand pat on the static evaluation, then try the
 * captures in MVV-LVA order with a fail-hard window, returning `beta` on a
 * cutoff and the raised `alpha` otherwise.  Whether a move captures is the
 * chess library's `Board::isCapture`, a parameter here.  The recursion has
 * no depth limit; it ends because every capture removes a piece.
 */
module QuiescenceSearch {
  import opened Chess
  import opened MoveOrder
  import opened Search

  /** The number of pieces on the board. */
  function Material<B>(env: Env<B>, b: B): nat
  {
    PieceCount(env.view(b).squares)
  }

  /** What the recursion needs of the rules: a legal capture leaves fewer pieces on the board. */
  ghost predicate CapturesRemovePiece<B(!new)>(env: Env<B>, isCapture: (B, Move) -> bool)
  {
    forall b, m :: isCapture(b, m) && m in env.legalMoves(b) ==> Material(env, env.apply(b, m)) < Material(env, b)
  }

  /** Every move of the list is a legal capture. */
  predicate LegalCaptures<B>(env: Env<B>, isCapture: (B, Move) -> bool, b: B, moves: seq<Move>)
  {
    forall k :: 0 <= k < |moves| ==> moves[k] in env.legalMoves(b) && isCapture(b, moves[k])
  }

  /** The moves of `ms` that capture, in their order. */
  function CapturesOf<B>(isCapture: (B, Move) -> bool, b: B, ms: seq<Move>): (cs: seq<Move>)
    ensures |cs| <= |ms|
    ensures forall k :: 0 <= k < |cs| ==> cs[k] in ms && isCapture(b, cs[k])
  {
    if ms == [] then []
    else
      var init := CapturesOf(isCapture, b, ms[..|ms| - 1]);
      var last := ms[|ms| - 1];
      assert forall k :: 0 <= k < |init| ==> init[k] in ms[..|ms| - 1];
      init + (if isCapture(b, last) then [last] else [])
  }

  /** Exactly the capturing moves of the list are kept. */
  lemma {:induction false} CapturesOfExactly<B>(isCapture: (B, Move) -> bool, b: B, ms: seq<Move>, m: Move)
    ensures m in CapturesOf(isCapture, b, ms) <==> m in ms && isCapture(b, m)
  {
    if ms != [] {
      var init := ms[..|ms| - 1];
      CapturesOfExactly(isCapture, b, init, m);
      assert ms == init + [ms[|ms| - 1]];
    }
  }

  /**
   * Filtering commutes with concatenation: the kept captures stay in the
   * list's order, so the first capture of the list is the first one searched.
   */
  lemma {:induction false} CapturesOfAppend<B>(isCapture: (B, Move) -> bool, b: B, ms1: seq<Move>, ms2: seq<Move>)
    ensures CapturesOf(isCapture, b, ms1 + ms2) == CapturesOf(isCapture, b, ms1) + CapturesOf(isCapture, b, ms2)
  {
    if ms2 == [] {
      assert ms1 + ms2 == ms1;
    } else {
      var init := ms2[..|ms2| - 1];
      CapturesOfAppend(isCapture, b, ms1, init);
      assert (ms1 + ms2)[..|ms1 + ms2| - 1] == ms1 + init;
    }
  }

  /** `captureMoves`: the capturing moves of the MVV-LVA-sorted legal moves; each is legal. */
  function OrderedCaptures<B>(env: Env<B>, isCapture: (B, Move) -> bool, b: B): (cs: seq<Move>)
    ensures forall k :: 0 <= k < |cs| ==> cs[k] in env.legalMoves(b) && isCapture(b, cs[k])
  {
    var sorted := SortMoves(env.view(b), env.legalMoves(b));
    SortMovesCorrect(env.view(b), env.legalMoves(b));
    var cs := CapturesOf(isCapture, b, sorted);
    assert forall k :: 0 <= k < |cs| ==> cs[k] in multiset(sorted);
    cs
  }

  /** A call's score and the number of clock readings after it. */
  datatype QOutcome = QOutcome(score: int, ticks: nat)

  /** `qsearch(board, alpha, beta)` after `clk` clock readings. */
  function QSearchResult<B(!new)>(env: Env<B>, isCapture: (B, Move) -> bool, b: B, alpha: int, beta: int, clk: nat)
      : (o: QOutcome)
    requires CapturesRemovePiece(env, isCapture)
    ensures o.ticks > clk
    decreases Material(env, b), 1, 0
  {
    if env.expired(clk) then QOutcome(0, clk + 1)
    else
      var standPat := Evaluate(env, b);
      if standPat >= beta then QOutcome(beta, clk + 1)
      else if env.isDraw(b) then QOutcome(0, clk + 1)
      else QLoop(env, isCapture, b, beta, OrderedCaptures(env, isCapture, b), Max(alpha, standPat), clk + 1)
  }

  /** The capture loop: a child that reaches `beta` returns `beta`, a better one raises `alpha`. */
  function QLoop<B(!new)>(env: Env<B>, isCapture: (B, Move) -> bool, b: B, beta: int, moves: seq<Move>,
                          alpha: int, clk: nat): (o: QOutcome)
    requires CapturesRemovePiece(env, isCapture)
    requires LegalCaptures(env, isCapture, b, moves)
    ensures o.ticks >= clk
    decreases Material(env, b), 0, |moves|
  {
    if moves == [] then QOutcome(alpha, clk)
    else
      var child := QSearchResult(env, isCapture, env.apply(b, moves[0]), -beta, -alpha, clk);
      var score := -child.score;
      if score >= beta then QOutcome(beta, child.ticks)
      else QLoop(env, isCapture, b, beta, moves[1..], Max(alpha, score), child.ticks)
  }

  /**
   * The capture loop is fail-hard: it returns `beta` or a value at least the
   * incoming `alpha`, and never more than `beta` when `alpha <= beta`.
   */
  lemma {:induction false} QLoopWindow<B(!new)>(env: Env<B>, isCapture: (B, Move) -> bool, b: B, beta: int,
                                                moves: seq<Move>, alpha: int, clk: nat)
    requires CapturesRemovePiece(env, isCapture)
    requires LegalCaptures(env, isCapture, b, moves)
    ensures var r := QLoop(env, isCapture, b, beta, moves, alpha, clk).score;
            (r == beta || alpha <= r) && (alpha <= beta ==> r <= beta)
    decreases |moves|
  {
    if moves != [] {
      var child := QSearchResult(env, isCapture, env.apply(b, moves[0]), -beta, -alpha, clk);
      var score := -child.score;
      if score < beta {
        QLoopWindow(env, isCapture, b, beta, moves[1..], Max(alpha, score), child.ticks);
      }
    }
  }

  /**
   * `qsearch`'s scores: 0 once the budget has run out; `beta` when standing
   * pat already reaches it; 0 for a drawn position; otherwise a value in the
   * window raised to the stand-pat score, and exactly that raised value when
   * there is no capture.
   */
  lemma QSearchScores<B(!new)>(env: Env<B>, isCapture: (B, Move) -> bool, b: B, alpha: int, beta: int, clk: nat)
    requires CapturesRemovePiece(env, isCapture)
    ensures var r := QSearchResult(env, isCapture, b, alpha, beta, clk).score;
            var standPat := Evaluate(env, b);
            && (env.expired(clk) ==> r == 0)
            && (!env.expired(clk) && standPat >= beta ==> r == beta)
            && (!env.expired(clk) && standPat < beta && env.isDraw(b) ==> r == 0)
            && (!env.expired(clk) && standPat < beta && !env.isDraw(b) && alpha <= beta ==>
                  Max(alpha, standPat) <= r <= beta)
            && (!env.expired(clk) && standPat < beta && !env.isDraw(b) && OrderedCaptures(env, isCapture, b) == [] ==>
                  r == Max(alpha, standPat))
  {
    if !env.expired(clk) && Evaluate(env, b) < beta && !env.isDraw(b) {
      QLoopWindow(env, isCapture, b, beta, OrderedCaptures(env, isCapture, b), Max(alpha, Evaluate(env, b)), clk + 1);
    }
  }

  /** Every score `qsearch` returns lies in the window `[alpha, beta]`, except the 0 of a timeout or a draw. */
  lemma QSearchFailHard<B(!new)>(env: Env<B>, isCapture: (B, Move) -> bool, b: B, alpha: int, beta: int, clk: nat)
    requires CapturesRemovePiece(env, isCapture) && alpha <= beta
    ensures var r := QSearchResult(env, isCapture, b, alpha, beta, clk).score;
            (alpha <= r <= beta) || (r == 0 && (env.expired(clk) || env.isDraw(b)))
  {
    QSearchScores(env, isCapture, b, alpha, beta, clk);
  }

  /** `qsearch` over the searcher's clock: the same score and clock readings as the functional model. */
  method QSearch<B(!new)>(s: Searcher<B>, isCapture: (B, Move) -> bool, b: B, alpha: int, beta: int) returns (score: int)
    requires CapturesRemovePiece(s.env, isCapture)
    modifies s`ticks
    ensures QOutcome(score, s.ticks) == QSearchResult(s.env, isCapture, b, alpha, beta, old(s.ticks))
    decreases Material(s.env, b), 2
  {
    var expired := s.Expired();
    if expired {
      return 0;
    }
    var standPat := Evaluate(s.env, b);
    if standPat >= beta {
      return beta;
    }
    var a := alpha;
    if standPat > a {
      a := standPat;
    }
    if s.env.isDraw(b) {
      return 0;
    }
    var moves := SortMoves(s.env.view(b), s.env.legalMoves(b));
    var captureMoves := CaptureFilter(isCapture, b, moves);
    assert captureMoves == OrderedCaptures(s.env, isCapture, b);
    score := CaptureLoop(s, isCapture, b, beta, captureMoves, a);
  }

  /** The `for (move : moves) if (board.isCapture(move)) captureMoves.push_back(move)` loop. */
  method CaptureFilter<B>(isCapture: (B, Move) -> bool, b: B, moves: seq<Move>) returns (captureMoves: seq<Move>)
    ensures captureMoves == CapturesOf(isCapture, b, moves)
  {
    captureMoves := [];
    for i := 0 to |moves|
      invariant captureMoves == CapturesOf(isCapture, b, moves[..i])
    {
      assert moves[..i + 1][..i] == moves[..i];
      if isCapture(b, moves[i]) {
        captureMoves := captureMoves + [moves[i]];
      }
    }
    assert moves[..|moves|] == moves;
  }

  /** One turn of the capture loop at index `i`: search that capture, then cut off or go on with the rest. */
  lemma QLoopAdvance<B(!new)>(env: Env<B>, isCapture: (B, Move) -> bool, b: B, beta: int, moves: seq<Move>, i: nat,
                              alpha: int, clk: nat)
    requires CapturesRemovePiece(env, isCapture) && i < |moves|
    requires LegalCaptures(env, isCapture, b, moves)
    ensures var child := QSearchResult(env, isCapture, env.apply(b, moves[i]), -beta, -alpha, clk);
            QLoop(env, isCapture, b, beta, moves[i..], alpha, clk) ==
              if -child.score >= beta then QOutcome(beta, child.ticks)
              else QLoop(env, isCapture, b, beta, moves[i + 1..], Max(alpha, -child.score), child.ticks)
  {
    assert moves[i..][0] == moves[i] && moves[i..][1..] == moves[i + 1..];
  }

  /** The capture loop of `qsearch`, with its early `return beta`. */
  method CaptureLoop<B(!new)>(s: Searcher<B>, isCapture: (B, Move) -> bool, b: B, beta: int, moves: seq<Move>, alpha0: int)
      returns (score: int)
    requires CapturesRemovePiece(s.env, isCapture) && LegalCaptures(s.env, isCapture, b, moves)
    modifies s`ticks
    ensures QOutcome(score, s.ticks) == QLoop(s.env, isCapture, b, beta, moves, alpha0, old(s.ticks))
    decreases Material(s.env, b), 1
  {
    var alpha := alpha0;
    ghost var goal := QLoop(s.env, isCapture, b, beta, moves, alpha0, s.ticks);
    var i := 0;
    while i < |moves|
      invariant 0 <= i <= |moves|
      invariant QLoop(s.env, isCapture, b, beta, moves[i..], alpha, s.ticks) == goal
    {
      var cut, next := CaptureStep(s, isCapture, b, beta, moves, i, alpha);
      if cut {
        return beta;
      }
      alpha := next;
      i := i + 1;
    }
    assert moves[i..] == [];
    score := alpha;
  }

  /** The loop body for the capture at index `i`: the negated child score cuts off or raises alpha. */
  method CaptureStep<B(!new)>(s: Searcher<B>, isCapture: (B, Move) -> bool, b: B, beta: int, moves: seq<Move>, i: nat,
                              alpha: int) returns (cut: bool, next: int)
    requires CapturesRemovePiece(s.env, isCapture) && LegalCaptures(s.env, isCapture, b, moves) && i < |moves|
    modifies s`ticks
    ensures cut ==> QOutcome(beta, s.ticks) == QLoop(s.env, isCapture, b, beta, moves[i..], alpha, old(s.ticks))
    ensures !cut ==> QLoop(s.env, isCapture, b, beta, moves[i + 1..], next, s.ticks) ==
                     QLoop(s.env, isCapture, b, beta, moves[i..], alpha, old(s.ticks))
    decreases Material(s.env, b), 0
  {
    QLoopAdvance(s.env, isCapture, b, beta, moves, i, alpha, s.ticks);
    var child := QSearch(s, isCapture, s.env.apply(b, moves[i]), -beta, -alpha);
    cut := -child >= beta;
    next := Max(alpha, -child);
  }
}
