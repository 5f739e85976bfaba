/**
 * The iterative-deepening root of `handleGo`.  Each iteration searches
 * every legal root move with `negamax(depth - 1, ply 1, -INT_MAX, INT_MAX)`,
 * keeps the first move with the strictly largest score, and asks the clock
 * after every root move; an iteration the clock cuts short is discarded
 * (its table writes stay, its move does not).  A completed iteration reads
 * the clock once more for its `info` line, without testing the budget.
 */
module Deepening {
  import opened Chess
  import opened TranspositionTable
  import opened Search
  import opened SearchProperties

  /** One iteration's loop state: best score and move so far, and what was searched, in order. */
  datatype Root = Root(bestEval: int, best: Move, completed: bool, table: seq<Entry>, ticks: nat,
                       searched: seq<(Move, int)>)

  /** The root loop from `acc` over `moves`: search, keep a strictly better move, then read the clock. */
  function RootLoop<B(!new)>(env: Env<B>, b: B, depth: int, moves: seq<Move>, acc: Root): (r: Root)
    requires |acc.table| == TT_SIZE
    ensures |r.table| == TT_SIZE && r.ticks >= acc.ticks
    decreases |moves|
  {
    if moves == [] then acc
    else
      var child := NegamaxResult(env, env.apply(b, moves[0]), depth - 1, 1, -NUMERIC_MAX, NUMERIC_MAX, acc.table, acc.ticks);
      var next := RootStep(acc, moves[0], child);
      if env.expired(child.ticks) then next.(completed := false)
      else RootLoop(env, b, depth, moves[1..], next)
  }

  /** One root move: a strictly better score replaces the best; the clock is read once. */
  function RootStep(acc: Root, m: Move, child: Outcome): (r: Root)
    ensures r.searched == acc.searched + [(m, -child.score)] && r.ticks == child.ticks + 1
    ensures r.bestEval == Max(acc.bestEval, -child.score)
    ensures r.best == if -child.score > acc.bestEval then m else acc.best
  {
    var eval := -child.score;
    Root(if eval > acc.bestEval then eval else acc.bestEval, if eval > acc.bestEval then m else acc.best,
         acc.completed, child.table, child.ticks + 1, acc.searched + [(m, eval)])
  }

  /** What `handleGo`'s search leaves: the move and score reported, the last completed depth, the table, the clock. */
  datatype Go = Go(best: Move, eval: int, depth: int, table: seq<Entry>, ticks: nat)

  function Remaining(d: int, maxDepth: int): nat
  {
    if d > maxDepth then 0 else maxDepth - d + 1
  }

  /** The move kept after a completed iteration; at depth 1 a NO_MOVE falls back to the first legal move. */
  function Kept(d: int, moves: seq<Move>, m: Move): Move
  {
    if d == 1 && m == NO_MOVE && moves != [] then moves[0] else m
  }

  /** The deepening loop from depth `d` to `maxDepth`, after the iterations summarised in `g`. */
  function Deepen<B(!new)>(env: Env<B>, b: B, moves: seq<Move>, d: int, maxDepth: int, g: Go): (r: Go)
    requires |g.table| == TT_SIZE
    ensures |r.table| == TT_SIZE && r.ticks >= g.ticks
    decreases Remaining(d, maxDepth)
  {
    if d > maxDepth then g
    else
      var it := RootLoop(env, b, d, moves, Root(-NUMERIC_MAX, g.best, true, g.table, g.ticks, []));
      if !it.completed then g.(table := it.table, ticks := it.ticks)
      else Deepen(env, b, moves, d + 1, maxDepth, Go(Kept(d, moves, it.best), it.bestEval, d, it.table, it.ticks + 1))
  }

  /** The move reported before any iteration completes: the first legal move, or NO_MOVE when there is none. */
  function FirstMove(moves: seq<Move>): Move
  {
    if moves == [] then NO_MOVE else moves[0]
  }

  /** `handleGo` after the budget is known: deepen from depth 1 to `maxDepth`. */
  function GoSearch<B(!new)>(env: Env<B>, b: B, maxDepth: int, t: seq<Entry>, clk: nat): (r: Go)
    requires |t| == TT_SIZE
    ensures |r.table| == TT_SIZE
  {
    var moves := env.legalMoves(b);
    Deepen(env, b, moves, 1, maxDepth, Go(FirstMove(moves), -NUMERIC_MAX, 0, t, clk))
  }

  // ---------------------------------------------------------------- properties

  /** Entry `k` attains `max` and no earlier entry does. */
  predicate FirstAttains(tr: seq<(Move, int)>, k: int, max: int)
  {
    0 <= k < |tr| && tr[k].1 == max && forall j :: 0 <= j < k ==> tr[j].1 < max
  }

  /**
   * `bestEval` is the larger of -INT_MAX and every score searched; `best` is
   * the first move scoring above -INT_MAX with that score, or the move the
   * iteration started with when none does.
   */
  ghost predicate FirstBest(bestEval: int, best: Move, init: Move, tr: seq<(Move, int)>)
  {
    && bestEval >= -NUMERIC_MAX
    && (forall k :: 0 <= k < |tr| ==> tr[k].1 <= bestEval)
    && ((bestEval > -NUMERIC_MAX && exists k :: FirstAttains(tr, k, bestEval) && best == tr[k].0)
        || (bestEval == -NUMERIC_MAX && best == init))
  }

  lemma FirstBestStep(acc: Root, init: Move, m: Move, child: Outcome)
    requires FirstBest(acc.bestEval, acc.best, init, acc.searched)
    ensures var r := RootStep(acc, m, child); FirstBest(r.bestEval, r.best, init, r.searched)
  {
    var r := RootStep(acc, m, child);
    var tr := r.searched;
    assert tr[..|acc.searched|] == acc.searched;
    if -child.score > acc.bestEval {
      assert FirstAttains(tr, |acc.searched|, r.bestEval);
    } else if acc.bestEval > -NUMERIC_MAX {
      var k :| FirstAttains(acc.searched, k, acc.bestEval) && acc.best == acc.searched[k].0;
      assert FirstAttains(tr, k, r.bestEval);
    }
  }

  /** Root ties keep the earlier move: the iteration's move is the first with the best score. */
  lemma {:induction false} RootLoopFirstBest<B(!new)>(env: Env<B>, b: B, depth: int, moves: seq<Move>, acc: Root, init: Move)
    requires |acc.table| == TT_SIZE && FirstBest(acc.bestEval, acc.best, init, acc.searched)
    ensures var r := RootLoop(env, b, depth, moves, acc); FirstBest(r.bestEval, r.best, init, r.searched)
    decreases |moves|
  {
    if moves != [] {
      var child := NegamaxResult(env, env.apply(b, moves[0]), depth - 1, 1, -NUMERIC_MAX, NUMERIC_MAX, acc.table, acc.ticks);
      FirstBestStep(acc, init, moves[0], child);
      if !env.expired(child.ticks) {
        RootLoopFirstBest(env, b, depth, moves[1..], RootStep(acc, moves[0], child), init);
      }
    }
  }

  /**
   * An iteration searches the root moves in order; it is complete exactly
   * when no clock reading said the budget had run out, and then it has
   * searched every root move.
   */
  lemma {:induction false} RootLoopVisits<B(!new)>(env: Env<B>, b: B, depth: int, moves: seq<Move>, acc: Root)
    requires |acc.table| == TT_SIZE && acc.completed
    ensures var r := RootLoop(env, b, depth, moves, acc);
            && |acc.searched| <= |r.searched| && r.searched[..|acc.searched|] == acc.searched
            && IsPrefix(MovesOf(r.searched[|acc.searched|..]), moves)
            && (!r.completed ==> r.ticks >= 1 && env.expired(r.ticks - 1))
            && (r.completed ==> |r.searched| == |acc.searched| + |moves|)
    decreases |moves|
  {
    var r := RootLoop(env, b, depth, moves, acc);
    if moves == [] {
      assert r.searched[|acc.searched|..] == [];
    } else {
      var child := NegamaxResult(env, env.apply(b, moves[0]), depth - 1, 1, -NUMERIC_MAX, NUMERIC_MAX, acc.table, acc.ticks);
      var next := RootStep(acc, moves[0], child);
      var e := (moves[0], -child.score);
      var n := |acc.searched|;
      if env.expired(child.ticks) {
        assert r.searched[n..] == [e];
        assert MovesOf([e]) == [moves[0]];
      } else {
        RootLoopVisits(env, b, depth, moves[1..], next);
        var rest := r.searched[n + 1..];
        assert r.searched[..n + 1] == next.searched;
        assert r.searched[..n] == next.searched[..n];
        assert r.searched[n..] == [e] + rest;
        MovesOfCons(e, rest);
        PrefixCons(moves[0], MovesOf(rest), moves[1..]);
        assert [moves[0]] + moves[1..] == moves;
      }
    }
  }

  /** With an unlimited budget every iteration completes. */
  lemma {:induction false} RootLoopCompletes<B(!new)>(env: Env<B>, b: B, depth: int, moves: seq<Move>, acc: Root)
    requires |acc.table| == TT_SIZE && acc.completed && forall n :: !env.expired(n)
    ensures RootLoop(env, b, depth, moves, acc).completed
    decreases |moves|
  {
    if moves != [] {
      var child := NegamaxResult(env, env.apply(b, moves[0]), depth - 1, 1, -NUMERIC_MAX, NUMERIC_MAX, acc.table, acc.ticks);
      assert !env.expired(child.ticks);
      RootLoopCompletes(env, b, depth, moves[1..], RootStep(acc, moves[0], child));
    }
  }

  /** The iteration keeps the incoming move or picks a root move. */
  lemma {:induction false} RootLoopPicksRootMove<B(!new)>(env: Env<B>, b: B, depth: int, moves: seq<Move>, acc: Root,
                                                          legal: seq<Move>)
    requires |acc.table| == TT_SIZE && (acc.best in legal || legal == [])
    requires forall k :: 0 <= k < |moves| ==> moves[k] in legal
    ensures var r := RootLoop(env, b, depth, moves, acc); r.best in legal || (legal == [] && r.best == acc.best)
    decreases |moves|
  {
    if moves != [] {
      var child := NegamaxResult(env, env.apply(b, moves[0]), depth - 1, 1, -NUMERIC_MAX, NUMERIC_MAX, acc.table, acc.ticks);
      var next := RootStep(acc, moves[0], child);
      assert moves[0] in legal;
      if !env.expired(child.ticks) {
        RootLoopPicksRootMove(env, b, depth, moves[1..], next, legal);
      }
    }
  }

  /**
   * An iteration that the clock cuts short is discarded: the reported move,
   * score and depth are those of the last completed iteration.  A completed
   * iteration's move and score are kept, with the depth-1 fallback.
   */
  lemma DeepenIteration<B(!new)>(env: Env<B>, b: B, moves: seq<Move>, d: int, maxDepth: int, g: Go)
    requires |g.table| == TT_SIZE && d <= maxDepth
    ensures var it := RootLoop(env, b, d, moves, Root(-NUMERIC_MAX, g.best, true, g.table, g.ticks, []));
            var r := Deepen(env, b, moves, d, maxDepth, g);
            && (!it.completed ==> r.best == g.best && r.eval == g.eval && r.depth == g.depth && r.table == it.table)
            && (it.completed ==> r == Deepen(env, b, moves, d + 1, maxDepth, Go(Kept(d, moves, it.best), it.bestEval, d, it.table, it.ticks + 1)))
  {
  }

  /** The reported move is always a legal root move when there is one, and NO_MOVE otherwise. */
  lemma {:induction false} DeepenReportsLegalMove<B(!new)>(env: Env<B>, b: B, moves: seq<Move>, d: int, maxDepth: int, g: Go)
    requires |g.table| == TT_SIZE && d >= 1
    requires if moves == [] then g.best == NO_MOVE else g.best in moves
    ensures var r := Deepen(env, b, moves, d, maxDepth, g); if moves == [] then r.best == NO_MOVE else r.best in moves
    decreases Remaining(d, maxDepth)
  {
    if d <= maxDepth {
      var acc := Root(-NUMERIC_MAX, g.best, true, g.table, g.ticks, []);
      var it := RootLoop(env, b, d, moves, acc);
      RootLoopPicksRootMove(env, b, d, moves, acc, moves);
      if it.completed {
        DeepenReportsLegalMove(env, b, moves, d + 1, maxDepth, Go(Kept(d, moves, it.best), it.bestEval, d, it.table, it.ticks + 1));
      }
    }
  }

  /** The reported depth is the incoming one or a depth the loop reached, never beyond `maxDepth`. */
  lemma {:induction false} DeepenDepth<B(!new)>(env: Env<B>, b: B, moves: seq<Move>, d: int, maxDepth: int, g: Go)
    requires |g.table| == TT_SIZE
    ensures var r := Deepen(env, b, moves, d, maxDepth, g); r.depth == g.depth || d <= r.depth <= maxDepth
    decreases Remaining(d, maxDepth)
  {
    if d <= maxDepth {
      var it := RootLoop(env, b, d, moves, Root(-NUMERIC_MAX, g.best, true, g.table, g.ticks, []));
      if it.completed {
        DeepenDepth(env, b, moves, d + 1, maxDepth, Go(Kept(d, moves, it.best), it.bestEval, d, it.table, it.ticks + 1));
      }
    }
  }

  /** With an unlimited budget the search completes every depth up to `maxDepth`. */
  lemma {:induction false} DeepenUnlimited<B(!new)>(env: Env<B>, b: B, moves: seq<Move>, d: int, maxDepth: int, g: Go)
    requires |g.table| == TT_SIZE && d <= maxDepth && forall n :: !env.expired(n)
    ensures Deepen(env, b, moves, d, maxDepth, g).depth == maxDepth
    decreases Remaining(d, maxDepth)
  {
    var acc := Root(-NUMERIC_MAX, g.best, true, g.table, g.ticks, []);
    var it := RootLoop(env, b, d, moves, acc);
    RootLoopCompletes(env, b, d, moves, acc);
    if d < maxDepth {
      DeepenUnlimited(env, b, moves, d + 1, maxDepth, Go(Kept(d, moves, it.best), it.bestEval, d, it.table, it.ticks + 1));
    }
  }

  /**
   * `handleGo`'s search: it reports a legal move whenever there is one, its
   * last completed depth is 0 or between 1 and `max_depth`, and with an
   * unlimited budget it is `max_depth`.
   */
  lemma GoSearchReport<B(!new)>(env: Env<B>, b: B, maxDepth: int, t: seq<Entry>, clk: nat)
    requires |t| == TT_SIZE
    ensures var r := GoSearch(env, b, maxDepth, t, clk);
            && (if env.legalMoves(b) == [] then r.best == NO_MOVE else r.best in env.legalMoves(b))
            && (r.depth == 0 || 1 <= r.depth <= maxDepth)
            && ((forall n :: !env.expired(n)) && 1 <= maxDepth ==> r.depth == maxDepth)
  {
    var moves := env.legalMoves(b);
    var g := Go(FirstMove(moves), -NUMERIC_MAX, 0, t, clk);
    DeepenReportsLegalMove(env, b, moves, 1, maxDepth, g);
    DeepenDepth(env, b, moves, 1, maxDepth, g);
    if (forall n :: !env.expired(n)) && 1 <= maxDepth {
      DeepenUnlimited(env, b, moves, 1, maxDepth, g);
    }
  }

  // ---------------------------------------------------------------- the loops of `handleGo`

  /** `handleGo`'s search over the engine's table and clock, from depth 1 to `maxDepth`. */
  method GoDeepen<B(!new)>(s: Searcher<B>, b: B, maxDepth: int) returns (bestMove: Move, bestEval: int, depth: int)
    requires s.Valid()
    modifies s`ticks, s.tt.slots
    ensures s.Valid()
    ensures Go(bestMove, bestEval, depth, s.tt.Contents(), s.ticks) ==
            GoSearch(s.env, b, maxDepth, old(s.tt.Contents()), old(s.ticks))
  {
    var moves := s.env.legalMoves(b);
    bestMove, bestEval, depth := FirstMove(moves), -NUMERIC_MAX, 0;
    ghost var g := Go(bestMove, bestEval, depth, s.tt.Contents(), s.ticks);
    ghost var goal := Deepen(s.env, b, moves, 1, maxDepth, g);
    var d := 1;
    while d <= maxDepth
      invariant s.Valid() && g == Go(bestMove, bestEval, depth, s.tt.Contents(), s.ticks)
      invariant Deepen(s.env, b, moves, d, maxDepth, g) == goal
      decreases Remaining(d, maxDepth)
    {
      var eval, move, completed;
      ghost var it;
      eval, move, completed, it := RootIteration(s, b, d, moves, bestMove);
      if !completed {
        g := g.(table := it.table, ticks := it.ticks);
        break;
      }
      // The `info` line reads the clock once more after a completed iteration.
      var infoClock := s.Expired();
      bestEval, bestMove := eval, move;
      if d == 1 && bestMove == NO_MOVE {
        if moves != [] {
          bestMove := moves[0];
        }
      }
      depth := d;
      g := Go(bestMove, bestEval, depth, s.tt.Contents(), s.ticks);
      d := d + 1;
    }
  }

  /** The root loop on `moves[i..]` is one root step, then a stop or the loop on `moves[i + 1..]`. */
  lemma RootLoopAdvance<B(!new)>(env: Env<B>, b: B, depth: int, moves: seq<Move>, i: nat, acc: Root)
    requires i < |moves| && |acc.table| == TT_SIZE
    ensures var child := NegamaxResult(env, env.apply(b, moves[i]), depth - 1, 1, -NUMERIC_MAX, NUMERIC_MAX, acc.table, acc.ticks);
            var next := RootStep(acc, moves[i], child);
            RootLoop(env, b, depth, moves[i..], acc)
              == if env.expired(child.ticks) then next.(completed := false) else RootLoop(env, b, depth, moves[i + 1..], next)
  {
    assert moves[i..][0] == moves[i] && moves[i..][1..] == moves[i + 1..];
  }

  /** One iteration of the deepening loop: every root move, or up to the clock reading that ends it. */
  method RootIteration<B(!new)>(s: Searcher<B>, b: B, depth: int, moves: seq<Move>, best0: Move)
      returns (bestEval: int, best: Move, completed: bool, ghost r: Root)
    requires s.Valid()
    modifies s`ticks, s.tt.slots
    ensures s.Valid()
    ensures r == RootLoop(s.env, b, depth, moves, Root(-NUMERIC_MAX, best0, true, old(s.tt.Contents()), old(s.ticks), []))
    ensures bestEval == r.bestEval && best == r.best && completed == r.completed
    ensures s.tt.Contents() == r.table && s.ticks == r.ticks
  {
    bestEval, best, completed := -NUMERIC_MAX, best0, true;
    ghost var acc := Root(bestEval, best, true, s.tt.Contents(), s.ticks, []);
    r := RootLoop(s.env, b, depth, moves, acc);
    var i := 0;
    while i < |moves|
      invariant 0 <= i <= |moves| && s.Valid()
      invariant acc.bestEval == bestEval && acc.best == best && acc.completed
      invariant acc.table == s.tt.Contents() && acc.ticks == s.ticks
      invariant RootLoop(s.env, b, depth, moves[i..], acc) == r
    {
      var move := moves[i];
      var score := s.Negamax(s.env.apply(b, move), depth - 1, 1, -NUMERIC_MAX, NUMERIC_MAX);
      ghost var child := Outcome(score, s.tt.Contents(), s.ticks);
      RootLoopAdvance(s.env, b, depth, moves, i, acc);
      var eval := -score;
      if eval > bestEval {
        bestEval := eval;
        best := move;
      }
      var expired := s.Expired();
      ghost var prev := acc;
      acc := RootStep(prev, move, child);
      if expired {
        completed := false;
        assert r == acc.(completed := false);
        acc := acc.(completed := false);
        break;
      }
      i := i + 1;
    }
    if i == |moves| {
      assert moves[i..] == [];
    }
  }
}
