/**
 * `evaluate` and `negamax`.  The chess rules are an environment of
 * functions over an abstract position type (legal moves, making a move,
 * the Zobrist key, the hand-crafted evaluation, king attacks, the draw
 * rules), and the wall clock is an oracle that answers the n-th "has the
 * budget run out?" question.  A position is passed by value, so the only
 * state a search changes is the transposition table and the number of
 * clock readings.
 */
module Search {
  import opened Chess
  import opened MoveOrder
  import opened TranspositionTable

  const NUMERIC_MAX: int := 0x7FFF_FFFF
  const MATE_SCORE: int := 1000000

  datatype Env<!B> = Env(
    view: B -> Board,
    legalMoves: B -> seq<Move>,
    apply: (B, Move) -> B,
    hash: B -> U64,
    hce: B -> int,
    kingAttacked: (B, Color) -> bool,
    isDraw: B -> bool,
    expired: nat -> bool)

  function Max(a: int, b: int): int
  {
    if a >= b then a else b
  }

  predicate InRange(x: int)
  {
    -NUMERIC_MAX <= x <= NUMERIC_MAX
  }

  /** The hand-crafted evaluation never leaves [-INT_MAX, INT_MAX]. */
  ghost predicate EvalBounded<B(!new)>(env: Env<B>)
  {
    forall b :: InRange(env.hce(b))
  }

  /** `evaluate` with the network switched off: White's score, negated when Black is to move. */
  function Evaluate<B>(env: Env<B>, b: B): (s: int)
    ensures env.view(b).turn == White ==> s == env.hce(b)
    ensures env.view(b).turn == Black ==> s == -env.hce(b)
    ensures InRange(env.hce(b)) ==> InRange(s)
  {
    var score := env.hce(b);
    if env.view(b).turn == Black then -score else score
  }

  /** The score of a position without legal moves. */
  function NoMovesScore<B>(env: Env<B>, b: B): (s: int)
    ensures s == -MATE_SCORE <==> env.kingAttacked(b, env.view(b).turn)
    ensures s == MATE_SCORE <==> !env.kingAttacked(b, env.view(b).turn) && env.kingAttacked(b, Opponent(env.view(b).turn))
    ensures s == 0 <==> !env.kingAttacked(b, env.view(b).turn) && !env.kingAttacked(b, Opponent(env.view(b).turn))
  {
    var side := env.view(b).turn;
    if env.kingAttacked(b, side) then -MATE_SCORE
    else if env.kingAttacked(b, Opponent(side)) then MATE_SCORE
    else 0
  }

  /** What a call leaves behind: its score, the table, and the clock readings so far. */
  datatype Outcome = Outcome(score: int, table: seq<Entry>, ticks: nat)

  /** The loop state of an interior node, with the (move, score) pairs searched so far. */
  datatype Scan = Scan(maxScore: int, best: Move, alpha: int, table: seq<Entry>, ticks: nat,
                       searched: seq<(Move, int)>)

  /** One searched child: `score >= maxScore` keeps the later move, alpha rises to the score. */
  function Step(acc: Scan, m: Move, child: Outcome): (r: Scan)
    ensures r.maxScore == Max(acc.maxScore, -child.score) && r.alpha == Max(acc.alpha, -child.score)
    ensures r.searched == acc.searched + [(m, -child.score)]
    ensures r.best == if -child.score >= acc.maxScore then m else acc.best
  {
    var score := -child.score;
    Scan(if score >= acc.maxScore then score else acc.maxScore,
         if score >= acc.maxScore then m else acc.best,
         Max(acc.alpha, score), child.table, child.ticks, acc.searched + [(m, score)])
  }

  function Fuel(depth: int): nat
  {
    if depth <= 0 then 0 else depth
  }

  /** `negamax(board, depth, depth_real = ply, alpha, beta)` from table `t` after `clk` clock readings. */
  function NegamaxResult<B(!new)>(env: Env<B>, b: B, depth: int, ply: int, alpha: int, beta: int,
                      t: seq<Entry>, clk: nat): (o: Outcome)
    requires |t| == TT_SIZE
    ensures |o.table| == TT_SIZE && o.ticks >= clk
    ensures EvalBounded(env) && InRange(alpha) && InRange(beta) ==> InRange(o.score)
    decreases Fuel(depth), 2, 0, 0
  {
    if depth <= 0 then Outcome(Evaluate(env, b), t, clk)
    else if env.expired(clk) then Outcome(0, t, clk + 1)
    else if env.legalMoves(b) == [] then Outcome(NoMovesScore(env, b), t, clk + 1)
    else if env.isDraw(b) then Outcome(0, t, clk + 1)
    else
      var h := env.hash(b);
      var entry := ProbeIn(t, h);
      var s := Interior(env, b, depth, ply, alpha, beta, t, clk + 1);
      Outcome(s.maxScore, if entry.depth <= ply then StoreInto(s.table, h, ply, s.best) else s.table, s.ticks)
  }

  /** The children of an interior node: the table move first when deep enough, then the ordered moves. */
  function Interior<B(!new)>(env: Env<B>, b: B, depth: int, ply: int, alpha: int, beta: int,
                       t: seq<Entry>, clk: nat): (s: Scan)
    requires depth > 0 && |t| == TT_SIZE
    ensures |s.table| == TT_SIZE && s.ticks >= clk
    ensures EvalBounded(env) && InRange(alpha) && InRange(beta) ==> InRange(s.maxScore) && InRange(s.alpha)
    decreases Fuel(depth), 1, 0, 0
  {
    var entry := ProbeIn(t, env.hash(b));
    var start := Scan(-NUMERIC_MAX, NO_MOVE, alpha, t, clk, []);
    var first := if entry.depth >= ply
                 then Step(start, entry.bestMove,
                           NegamaxResult(env, env.apply(b, entry.bestMove), depth - 1, ply + 1, -beta, -alpha, t, clk))
                 else start;
    SearchMoves(env, b, depth, ply, beta, entry.bestMove, SortMoves(env.view(b), env.legalMoves(b)), first)
  }

  /** The ordered loop: skip the table move, search each other move, stop once alpha >= beta. */
  function SearchMoves<B(!new)>(env: Env<B>, b: B, depth: int, ply: int, beta: int, skip: Move,
                          moves: seq<Move>, acc: Scan): (s: Scan)
    requires depth > 0 && |acc.table| == TT_SIZE
    ensures |s.table| == TT_SIZE && s.ticks >= acc.ticks
    ensures EvalBounded(env) && InRange(beta) && InRange(acc.maxScore) && InRange(acc.alpha) ==>
              InRange(s.maxScore) && InRange(s.alpha)
    decreases Fuel(depth), 0, |moves|, 1
  {
    if moves == [] then acc
    else if moves[0] == skip then SearchMoves(env, b, depth, ply, beta, skip, moves[1..], acc)
    else
      Continue(env, b, depth, ply, beta, skip, moves,
               Step(acc, moves[0], NegamaxResult(env, env.apply(b, moves[0]), depth - 1, ply + 1, -beta, -acc.alpha, acc.table, acc.ticks)))
  }

  /** After searching `moves[0]`: stop if alpha reached beta, otherwise go on with the rest. */
  function Continue<B(!new)>(env: Env<B>, b: B, depth: int, ply: int, beta: int, skip: Move,
                             moves: seq<Move>, next: Scan): (s: Scan)
    requires depth > 0 && |next.table| == TT_SIZE && moves != []
    ensures |s.table| == TT_SIZE && s.ticks >= next.ticks
    ensures EvalBounded(env) && InRange(beta) && InRange(next.maxScore) && InRange(next.alpha) ==>
              InRange(s.maxScore) && InRange(s.alpha)
    decreases Fuel(depth), 0, |moves|, 0
  {
    if next.alpha >= beta then next
    else SearchMoves(env, b, depth, ply, beta, skip, moves[1..], next)
  }

  lemma EmptyStep<B(!new)>(env: Env<B>, b: B, depth: int, ply: int, beta: int, skip: Move, acc: Scan)
    requires depth > 0 && |acc.table| == TT_SIZE
    ensures SearchMoves(env, b, depth, ply, beta, skip, [], acc) == acc
  {
  }

  lemma SkipStep<B(!new)>(env: Env<B>, b: B, depth: int, ply: int, beta: int, skip: Move, moves: seq<Move>, acc: Scan)
    requires depth > 0 && |acc.table| == TT_SIZE && moves != [] && moves[0] == skip
    ensures SearchMoves(env, b, depth, ply, beta, skip, moves, acc) == SearchMoves(env, b, depth, ply, beta, skip, moves[1..], acc)
  {
  }

  lemma SearchStep<B(!new)>(env: Env<B>, b: B, depth: int, ply: int, beta: int, skip: Move, moves: seq<Move>,
                            acc: Scan, next: Scan)
    requires depth > 0 && |acc.table| == TT_SIZE && moves != [] && moves[0] != skip
    requires next == Step(acc, moves[0], NegamaxResult(env, env.apply(b, moves[0]), depth - 1, ply + 1, -beta, -acc.alpha, acc.table, acc.ticks))
    ensures SearchMoves(env, b, depth, ply, beta, skip, moves, acc) ==
            if next.alpha >= beta then next else SearchMoves(env, b, depth, ply, beta, skip, moves[1..], next)
  {
    assert SearchMoves(env, b, depth, ply, beta, skip, moves, acc) == Continue(env, b, depth, ply, beta, skip, moves, next);
  }

  lemma InteriorIs<B(!new)>(env: Env<B>, b: B, depth: int, ply: int, alpha: int, beta: int,
                            t: seq<Entry>, clk: nat, first: Scan)
    requires depth > 0 && |t| == TT_SIZE
    requires var entry := ProbeIn(t, env.hash(b));
             first == if entry.depth >= ply
                      then Step(Scan(-NUMERIC_MAX, NO_MOVE, alpha, t, clk, []), entry.bestMove,
                                NegamaxResult(env, env.apply(b, entry.bestMove), depth - 1, ply + 1, -beta, -alpha, t, clk))
                      else Scan(-NUMERIC_MAX, NO_MOVE, alpha, t, clk, [])
    ensures |first.table| == TT_SIZE
    ensures Interior(env, b, depth, ply, alpha, beta, t, clk) ==
            SearchMoves(env, b, depth, ply, beta, ProbeIn(t, env.hash(b)).bestMove, SortMoves(env.view(b), env.legalMoves(b)), first)
  {
  }

  /** The search's mutable context: the rules, the table and the clock. */
  class Searcher<B(!new)> {
    const env: Env<B>
    const tt: Table
    var ticks: nat

    ghost predicate Valid()
      reads this, tt
    {
      tt.Valid()
    }

    constructor (env: Env<B>, tt: Table)
      requires tt.Valid()
      ensures Valid() && this.env == env && this.tt == tt && ticks == 0
    {
      this.env := env;
      this.tt := tt;
      ticks := 0;
    }

    /** Reads the clock: has the budget run out? */
    method Expired() returns (e: bool)
      modifies this`ticks
      ensures e == env.expired(old(ticks)) && ticks == old(ticks) + 1
    {
      e := env.expired(ticks);
      ticks := ticks + 1;
    }

    /** `negamax`: the same score, table and clock readings as the functional search. */
    method Negamax(b: B, depth: int, ply: int, alpha: int, beta: int) returns (score: int)
      requires Valid()
      modifies this`ticks, tt.slots
      ensures Valid()
      ensures Outcome(score, tt.Contents(), ticks) ==
              NegamaxResult(env, b, depth, ply, alpha, beta, old(tt.Contents()), old(ticks))
      decreases Fuel(depth), 3
    {
      if depth <= 0 {
        return Evaluate(env, b);
      }
      var expired := Expired();
      if expired {
        return 0;
      }
      var moves := env.legalMoves(b);
      if moves == [] {
        return NoMovesScore(env, b);
      }
      if env.isDraw(b) {
        return 0;
      }
      var zobrist := env.hash(b);
      var entry := tt.Probe(zobrist);
      var thisBestMove;
      ghost var scan;
      score, thisBestMove, scan := Children(b, depth, ply, alpha, beta, entry);
      if entry.depth <= ply {
        tt.Store(zobrist, ply, thisBestMove);
      }
    }

    /** The table move when deep enough, then the ordered loop. */
    method Children(b: B, depth: int, ply: int, alpha: int, beta: int, entry: Entry)
        returns (maxScore: int, thisBestMove: Move, ghost scan: Scan)
      requires Valid() && depth > 0 && entry == ProbeIn(tt.Contents(), env.hash(b))
      modifies this`ticks, tt.slots
      ensures Valid()
      ensures scan == Interior(env, b, depth, ply, alpha, beta, old(tt.Contents()), old(ticks))
      ensures maxScore == scan.maxScore && thisBestMove == scan.best
      ensures tt.Contents() == scan.table && ticks == scan.ticks
      decreases Fuel(depth), 2
    {
      ghost var t0, clk0 := tt.Contents(), ticks;
      var a;
      ghost var first;
      maxScore, thisBestMove, a, first := TableMove(b, depth, ply, alpha, beta, entry);
      var sorted := SortMoves(env.view(b), env.legalMoves(b));
      maxScore, thisBestMove, scan := OrderedLoop(b, depth, ply, beta, entry.bestMove, sorted, maxScore, thisBestMove, a, first);
      InteriorIs(env, b, depth, ply, alpha, beta, t0, clk0, first);
    }

    /** The table move is searched first when the probed entry is at least as deep as the ply. */
    method TableMove(b: B, depth: int, ply: int, alpha: int, beta: int, entry: Entry)
        returns (maxScore: int, thisBestMove: Move, a: int, ghost first: Scan)
      requires Valid() && depth > 0
      modifies this`ticks, tt.slots
      ensures Valid()
      ensures first == if entry.depth >= ply
                       then Step(Scan(-NUMERIC_MAX, NO_MOVE, alpha, old(tt.Contents()), old(ticks), []), entry.bestMove,
                                 NegamaxResult(env, env.apply(b, entry.bestMove), depth - 1, ply + 1, -beta, -alpha,
                                               old(tt.Contents()), old(ticks)))
                       else Scan(-NUMERIC_MAX, NO_MOVE, alpha, old(tt.Contents()), old(ticks), [])
      ensures first.maxScore == maxScore && first.best == thisBestMove && first.alpha == a
      ensures first.table == tt.Contents() && first.ticks == ticks
      decreases Fuel(depth), 1
    {
      first := Scan(-NUMERIC_MAX, NO_MOVE, alpha, tt.Contents(), ticks, []);
      a := alpha;
      maxScore := -NUMERIC_MAX;
      thisBestMove := NO_MOVE;
      if entry.depth >= ply {
        maxScore, thisBestMove, a, first := Visit(b, depth, ply, beta, entry.bestMove, maxScore, thisBestMove, a, first);
      }
    }

    /** The `for (move : moves)` loop: skip the table move, stop once alpha >= beta. */
    method OrderedLoop(b: B, depth: int, ply: int, beta: int, skip: Move, sorted: seq<Move>,
                       maxScore0: int, best0: Move, alpha0: int, ghost acc0: Scan)
        returns (maxScore: int, thisBestMove: Move, ghost scan: Scan)
      requires Valid() && depth > 0
      requires acc0.maxScore == maxScore0 && acc0.best == best0 && acc0.alpha == alpha0
      requires acc0.table == tt.Contents() && acc0.ticks == ticks
      modifies this`ticks, tt.slots
      ensures Valid()
      ensures scan == SearchMoves(env, b, depth, ply, beta, skip, sorted, acc0)
      ensures maxScore == scan.maxScore && thisBestMove == scan.best
      ensures tt.Contents() == scan.table && ticks == scan.ticks
      decreases Fuel(depth), 1
    {
      maxScore, thisBestMove := maxScore0, best0;
      var a := alpha0;
      ghost var acc := acc0;
      scan := SearchMoves(env, b, depth, ply, beta, skip, sorted, acc0);
      var i := 0;
      while i < |sorted|
        invariant 0 <= i <= |sorted| && Valid()
        invariant acc.maxScore == maxScore && acc.best == thisBestMove && acc.alpha == a
        invariant acc.table == tt.Contents() && acc.ticks == ticks
        invariant SearchMoves(env, b, depth, ply, beta, skip, sorted[i..], acc) == scan
      {
        var move := sorted[i];
        assert sorted[i..][0] == move && sorted[i..][1..] == sorted[i + 1..];
        if move == skip {
          SkipStep(env, b, depth, ply, beta, skip, sorted[i..], acc);
          i := i + 1;
          continue;
        }
        ghost var prev := acc;
        maxScore, thisBestMove, a, acc := Visit(b, depth, ply, beta, move, maxScore, thisBestMove, a, acc);
        SearchStep(env, b, depth, ply, beta, skip, sorted[i..], prev, acc);
        if a >= beta {
          assert acc == scan;
          break;
        }
        i := i + 1;
      }
      if i == |sorted| {
        assert sorted[i..] == [];
        EmptyStep(env, b, depth, ply, beta, skip, acc);
        assert acc == scan;
      }
    }

    /** One iteration of the loop body: make the move, search it, keep the better score. */
    method Visit(b: B, depth: int, ply: int, beta: int, move: Move,
                 maxScore0: int, best0: Move, alpha0: int, ghost acc: Scan)
        returns (maxScore: int, thisBestMove: Move, alpha: int, ghost next: Scan)
      requires Valid() && depth > 0
      requires acc.maxScore == maxScore0 && acc.best == best0 && acc.alpha == alpha0
      requires acc.table == tt.Contents() && acc.ticks == ticks
      modifies this`ticks, tt.slots
      ensures Valid()
      ensures next == Step(acc, move, NegamaxResult(env, env.apply(b, move), depth - 1, ply + 1, -beta, -acc.alpha, acc.table, acc.ticks))
      ensures next.maxScore == maxScore && next.best == thisBestMove && next.alpha == alpha
      ensures next.table == tt.Contents() && next.ticks == ticks
      decreases Fuel(depth), 0
    {
      var s := Negamax(env.apply(b, move), depth - 1, ply + 1, -beta, -alpha0);
      ghost var child := Outcome(s, tt.Contents(), ticks);
      assert child == NegamaxResult(env, env.apply(b, move), depth - 1, ply + 1, -beta, -acc.alpha, acc.table, acc.ticks);
      next := Step(acc, move, child);
      var score := -s;
      maxScore, thisBestMove := maxScore0, best0;
      if score >= maxScore {
        maxScore := score;
        thisBestMove := move;
      }
      alpha := Max(alpha0, score);
    }
  }
}
