/**
 * What `negamax` promises, stated over the functional search: the scores
 * of leaves and terminal positions, the fail-soft maximum and the move that
 * attains it, the handling of the table move, the alpha-beta cutoff, and
 * the rule for writing the table.
 */
module SearchProperties {
  import opened Chess
  import opened MoveOrder
  import opened TranspositionTable
  import opened Search

  /** The moves of a trace, in order. */
  function MovesOf(tr: seq<(Move, int)>): (ms: seq<Move>)
  {
    seq(|tr|, k requires 0 <= k < |tr| => tr[k].0)
  }

  /** The moves of the ordered list other than the table move, in order. */
  function Unskipped(ms: seq<Move>, skip: Move): seq<Move>
  {
    if ms == [] then [] else if ms[0] == skip then Unskipped(ms[1..], skip) else [ms[0]] + Unskipped(ms[1..], skip)
  }

  predicate IsPrefix<T(==)>(p: seq<T>, s: seq<T>)
  {
    |p| <= |s| && s[..|p|] == p
  }

  /** The largest of `a` and the scores of the trace. */
  function Peak(a: int, tr: seq<(Move, int)>): int
  {
    if tr == [] then a else Max(Peak(a, tr[..|tr| - 1]), tr[|tr| - 1].1)
  }

  /** The peak is at least `a` and every score, and it is `a` or one of the scores. */
  lemma {:induction false} PeakIsMaximum(a: int, tr: seq<(Move, int)>)
    ensures Peak(a, tr) >= a && forall k :: 0 <= k < |tr| ==> tr[k].1 <= Peak(a, tr)
    ensures Peak(a, tr) == a || exists k :: 0 <= k < |tr| && tr[k].1 == Peak(a, tr)
  {
    if tr != [] {
      var init := tr[..|tr| - 1];
      PeakIsMaximum(a, init);
      if Peak(a, init) != a && Peak(a, init) >= tr[|tr| - 1].1 {
        var k :| 0 <= k < |init| && init[k].1 == Peak(a, init);
        assert tr[k] == init[k];
      }
      forall k | 0 <= k < |tr| - 1 ensures tr[k].1 <= Peak(a, tr) {
        assert tr[k] == init[k];
      }
    }
  }

  /** The moves other than the table move never include it, and come from the list. */
  lemma {:induction false} UnskippedMembers(ms: seq<Move>, skip: Move)
    ensures forall k :: 0 <= k < |Unskipped(ms, skip)| ==> Unskipped(ms, skip)[k] != skip && Unskipped(ms, skip)[k] in ms
  {
    if ms != [] {
      UnskippedMembers(ms[1..], skip);
      var u := Unskipped(ms[1..], skip);
      forall k | 0 <= k < |u| ensures u[k] in ms {
        assert u[k] in ms[1..];
      }
    }
  }

  /** Entry `k` attains `max` and no later entry does. */
  predicate LastAttains(tr: seq<(Move, int)>, k: int, max: int)
  {
    0 <= k < |tr| && tr[k].1 == max && forall j :: k < j < |tr| ==> tr[j].1 < max
  }

  /**
   * `max` is the larger of -INT_MAX and every score searched; `best` is the
   * move of the last entry attaining it, or NO_MOVE when no score reaches
   * -INT_MAX.
   */
  ghost predicate BestOf(max: int, best: Move, tr: seq<(Move, int)>)
  {
    && max >= -NUMERIC_MAX
    && (forall k :: 0 <= k < |tr| ==> tr[k].1 <= max)
    && ((exists k :: LastAttains(tr, k, max) && best == tr[k].0)
        || (max == -NUMERIC_MAX && best == NO_MOVE && forall k :: 0 <= k < |tr| ==> tr[k].1 < max))
  }

  lemma BestOfStart()
    ensures BestOf(-NUMERIC_MAX, NO_MOVE, [])
  {
  }

  lemma BestOfStep(acc: Scan, m: Move, child: Outcome)
    requires BestOf(acc.maxScore, acc.best, acc.searched)
    ensures var r := Step(acc, m, child); BestOf(r.maxScore, r.best, r.searched)
  {
    var r := Step(acc, m, child);
    var score := -child.score;
    var tr := r.searched;
    assert tr[..|acc.searched|] == acc.searched;
    if score >= acc.maxScore {
      assert LastAttains(tr, |acc.searched|, r.maxScore);
    } else if k :| LastAttains(acc.searched, k, acc.maxScore) && acc.best == acc.searched[k].0 {
      assert LastAttains(tr, k, r.maxScore);
    }
  }

  /** The ordered loop keeps `maxScore`/`best` equal to the best of what it searched. */
  lemma {:induction false} SearchMovesBest<B(!new)>(env: Env<B>, b: B, depth: int, ply: int, beta: int, skip: Move,
                                                    moves: seq<Move>, acc: Scan)
    requires depth > 0 && |acc.table| == TT_SIZE && BestOf(acc.maxScore, acc.best, acc.searched)
    ensures var r := SearchMoves(env, b, depth, ply, beta, skip, moves, acc); BestOf(r.maxScore, r.best, r.searched)
    decreases |moves|
  {
    if moves != [] {
      if moves[0] == skip {
        SearchMovesBest(env, b, depth, ply, beta, skip, moves[1..], acc);
      } else {
        var child := NegamaxResult(env, env.apply(b, moves[0]), depth - 1, ply + 1, -beta, -acc.alpha, acc.table, acc.ticks);
        BestOfStep(acc, moves[0], child);
        var next := Step(acc, moves[0], child);
        SearchStep(env, b, depth, ply, beta, skip, moves, acc, next);
        if next.alpha < beta {
          SearchMovesBest(env, b, depth, ply, beta, skip, moves[1..], next);
        }
      }
    }
  }

  /** The ordered loop only appends to the trace. */
  lemma {:induction false} SearchMovesExtends<B(!new)>(env: Env<B>, b: B, depth: int, ply: int, beta: int, skip: Move,
                                                       moves: seq<Move>, acc: Scan)
    requires depth > 0 && |acc.table| == TT_SIZE
    ensures var r := SearchMoves(env, b, depth, ply, beta, skip, moves, acc);
            |acc.searched| <= |r.searched| && r.searched[..|acc.searched|] == acc.searched
    decreases |moves|
  {
    if moves != [] {
      if moves[0] == skip {
        SearchMovesExtends(env, b, depth, ply, beta, skip, moves[1..], acc);
      } else {
        var child := NegamaxResult(env, env.apply(b, moves[0]), depth - 1, ply + 1, -beta, -acc.alpha, acc.table, acc.ticks);
        var next := Step(acc, moves[0], child);
        SearchStep(env, b, depth, ply, beta, skip, moves, acc, next);
        if next.alpha < beta {
          SearchMovesExtends(env, b, depth, ply, beta, skip, moves[1..], next);
          PrefixOfPrefix(SearchMoves(env, b, depth, ply, beta, skip, moves[1..], next).searched, next.searched, acc.searched);
        }
      }
    }
  }

  lemma PrefixOfPrefix<T>(s: seq<T>, p: seq<T>, q: seq<T>)
    requires |p| <= |s| && s[..|p|] == p && |q| <= |p| && p[..|q|] == q
    ensures s[..|q|] == q
  {
    assert s[..|q|] == s[..|p|][..|q|];
  }

  /** The part of the trace the ordered loop added. */
  function Added(acc: Scan, r: Scan): seq<(Move, int)>
  {
    if |acc.searched| <= |r.searched| then r.searched[|acc.searched|..] else []
  }

  /**
   * The ordered loop searches the moves other than the table move, in order:
   * the moves it added to the trace are a prefix of them.
   */
  lemma {:induction false} SearchMovesVisits<B(!new)>(env: Env<B>, b: B, depth: int, ply: int, beta: int, skip: Move,
                                                      moves: seq<Move>, acc: Scan)
    requires depth > 0 && |acc.table| == TT_SIZE
    ensures IsPrefix(MovesOf(Added(acc, SearchMoves(env, b, depth, ply, beta, skip, moves, acc))), Unskipped(moves, skip))
    decreases |moves|
  {
    var r := SearchMoves(env, b, depth, ply, beta, skip, moves, acc);
    if moves == [] {
      assert Added(acc, r) == [];
    } else if moves[0] == skip {
      SearchMovesVisits(env, b, depth, ply, beta, skip, moves[1..], acc);
    } else {
      var child := NegamaxResult(env, env.apply(b, moves[0]), depth - 1, ply + 1, -beta, -acc.alpha, acc.table, acc.ticks);
      var next := Step(acc, moves[0], child);
      var e := (moves[0], -child.score);
      SearchStep(env, b, depth, ply, beta, skip, moves, acc, next);
      var u := Unskipped(moves[1..], skip);
      assert Unskipped(moves, skip) == [moves[0]] + u;
      if next.alpha >= beta {
        assert Added(acc, r) == [e] + [];
        MovesOfCons(e, []);
      } else {
        SearchMovesVisits(env, b, depth, ply, beta, skip, moves[1..], next);
        SearchMovesExtends(env, b, depth, ply, beta, skip, moves[1..], next);
        AddedCons(acc, next, r, e);
        MovesOfCons(e, Added(next, r));
        PrefixCons(moves[0], MovesOf(Added(next, r)), u);
      }
    }
  }

  lemma PrefixCons<T>(x: T, p: seq<T>, s: seq<T>)
    requires IsPrefix(p, s)
    ensures IsPrefix([x] + p, [x] + s)
  {
    assert ([x] + s)[..|p| + 1] == [x] + s[..|p|];
  }

  /**
   * The ordered loop raises alpha to the largest score it saw, and it stops
   * before the end of the moves only with alpha >= beta.
   */
  lemma {:induction false} SearchMovesAlpha<B(!new)>(env: Env<B>, b: B, depth: int, ply: int, beta: int, skip: Move,
                                                     moves: seq<Move>, acc: Scan)
    requires depth > 0 && |acc.table| == TT_SIZE
    ensures var r := SearchMoves(env, b, depth, ply, beta, skip, moves, acc);
            && r.alpha == Peak(acc.alpha, Added(acc, r))
            && (|Added(acc, r)| < |Unskipped(moves, skip)| ==> r.alpha >= beta)
    decreases |moves|
  {
    var r := SearchMoves(env, b, depth, ply, beta, skip, moves, acc);
    if moves == [] {
      assert Added(acc, r) == [];
    } else if moves[0] == skip {
      SearchMovesAlpha(env, b, depth, ply, beta, skip, moves[1..], acc);
    } else {
      var child := NegamaxResult(env, env.apply(b, moves[0]), depth - 1, ply + 1, -beta, -acc.alpha, acc.table, acc.ticks);
      var next := Step(acc, moves[0], child);
      var e := (moves[0], -child.score);
      SearchStep(env, b, depth, ply, beta, skip, moves, acc, next);
      assert |Unskipped(moves, skip)| == 1 + |Unskipped(moves[1..], skip)|;
      if next.alpha >= beta {
        assert Added(acc, r) == [e] + [];
        PeakCons(acc.alpha, e, []);
      } else {
        SearchMovesAlpha(env, b, depth, ply, beta, skip, moves[1..], next);
        SearchMovesExtends(env, b, depth, ply, beta, skip, moves[1..], next);
        AddedCons(acc, next, r, e);
        PeakCons(acc.alpha, e, Added(next, r));
      }
    }
  }

  lemma AddedCons(acc: Scan, next: Scan, r: Scan, e: (Move, int))
    requires next.searched == acc.searched + [e]
    requires |next.searched| <= |r.searched| && r.searched[..|next.searched|] == next.searched
    ensures Added(acc, r) == [e] + Added(next, r)
  {
    var n := |acc.searched|;
    assert r.searched[n] == next.searched[n];
  }

  /** The ordered loop went on past a move only while alpha stayed below beta. */
  lemma {:induction false} SearchMovesNoEarlyStop<B(!new)>(env: Env<B>, b: B, depth: int, ply: int, beta: int, skip: Move,
                                                           moves: seq<Move>, acc: Scan, k: nat)
    requires depth > 0 && |acc.table| == TT_SIZE
    requires 0 < k < |Added(acc, SearchMoves(env, b, depth, ply, beta, skip, moves, acc))|
    ensures Peak(acc.alpha, Added(acc, SearchMoves(env, b, depth, ply, beta, skip, moves, acc))[..k]) < beta
    decreases |moves|
  {
    var r := SearchMoves(env, b, depth, ply, beta, skip, moves, acc);
    SearchMovesExtends(env, b, depth, ply, beta, skip, moves, acc);
    if moves == [] {
      assert false;
    } else if moves[0] == skip {
      SearchMovesNoEarlyStop(env, b, depth, ply, beta, skip, moves[1..], acc, k);
    } else {
      var child := NegamaxResult(env, env.apply(b, moves[0]), depth - 1, ply + 1, -beta, -acc.alpha, acc.table, acc.ticks);
      var next := Step(acc, moves[0], child);
      var e := (moves[0], -child.score);
      SearchStep(env, b, depth, ply, beta, skip, moves, acc, next);
      if next.alpha >= beta {
        assert false;
      } else {
        SearchMovesExtends(env, b, depth, ply, beta, skip, moves[1..], next);
        AddedCons(acc, next, r, e);
        if k > 1 {
          SearchMovesNoEarlyStop(env, b, depth, ply, beta, skip, moves[1..], next, k - 1);
        }
        PeakAfterCons(acc, next, r, e, beta, k);
      }
    }
  }

  /** The peak of the first k added scores, from the peak of the k - 1 after the first. */
  lemma PeakAfterCons(acc: Scan, next: Scan, r: Scan, e: (Move, int), beta: int, k: nat)
    requires Added(acc, r) == [e] + Added(next, r) && next.alpha == Max(acc.alpha, e.1) < beta
    requires 0 < k < |Added(acc, r)|
    requires k > 1 ==> Peak(next.alpha, Added(next, r)[..k - 1]) < beta
    ensures Peak(acc.alpha, Added(acc, r)[..k]) < beta
  {
    var rest := Added(next, r);
    assert Added(acc, r)[..k] == [e] + rest[..k - 1];
    PeakCons(acc.alpha, e, rest[..k - 1]);
    if k == 1 {
      assert rest[..0] == [];
    }
  }

  lemma {:induction false} PeakCons(a: int, e: (Move, int), tr: seq<(Move, int)>)
    ensures Peak(a, [e] + tr) == Peak(Max(a, e.1), tr)
    decreases |tr|
  {
    if tr == [] {
      assert [e] + tr == [e];
      assert [e][..0] == [];
    } else {
      var init := tr[..|tr| - 1];
      assert ([e] + tr)[..|tr|] == [e] + init;
      PeakCons(a, e, init);
    }
  }

  lemma MovesOfCons(e: (Move, int), tr: seq<(Move, int)>)
    ensures MovesOf([e] + tr) == [e.0] + MovesOf(tr)
  {
    assert forall k :: 0 < k <= |tr| ==> ([e] + tr)[k] == tr[k - 1];
  }

  /**
   * Leaves and terminal positions: a leaf is the static evaluation and reads
   * no clock; an expired budget, a position without moves and a drawn
   * position each read the clock once and leave the table as it was.
   */
  lemma NegamaxTerminal<B(!new)>(env: Env<B>, b: B, depth: int, ply: int, alpha: int, beta: int,
                                 t: seq<Entry>, clk: nat)
    requires |t| == TT_SIZE
    ensures var o := NegamaxResult(env, b, depth, ply, alpha, beta, t, clk);
            && (depth <= 0 ==> o.score == Evaluate(env, b) && o.table == t && o.ticks == clk)
            && (depth > 0 && env.expired(clk) ==> o.score == 0 && o.table == t && o.ticks == clk + 1)
            && (depth > 0 && !env.expired(clk) && env.legalMoves(b) == [] ==>
                  o.score == NoMovesScore(env, b) && o.table == t && o.ticks == clk + 1)
            && (depth > 0 && !env.expired(clk) && env.legalMoves(b) != [] && env.isDraw(b) ==>
                  o.score == 0 && o.table == t && o.ticks == clk + 1)
  {
  }

  /** A search that does not stop at a terminal position has read the clock at least once. */
  lemma LeafOnlyReadsNoClock<B(!new)>(env: Env<B>, b: B, depth: int, ply: int, alpha: int, beta: int,
                                      t: seq<Entry>, clk: nat)
    requires |t| == TT_SIZE
    ensures NegamaxResult(env, b, depth, ply, alpha, beta, t, clk).ticks == clk <==> depth <= 0
  {
    if depth > 0 && !env.expired(clk) && env.legalMoves(b) != [] && !env.isDraw(b) {
      var s := Interior(env, b, depth, ply, alpha, beta, t, clk + 1);
      assert s.ticks >= clk + 1;
    }
  }

  /** An interior node: the children, with the table move first when the probe is deep enough. */
  predicate IsInteriorNode<B(!new)>(env: Env<B>, b: B, depth: int, clk: nat)
  {
    depth > 0 && !env.expired(clk) && env.legalMoves(b) != [] && !env.isDraw(b)
  }

  /**
   * At an interior node the score is the children's fail-soft maximum, and
   * the table is written (under the ply and the best move) exactly when the
   * probed entry's depth is at most the ply.
   */
  lemma InteriorNodeResult<B(!new)>(env: Env<B>, b: B, depth: int, ply: int, alpha: int, beta: int,
                                    t: seq<Entry>, clk: nat)
    requires |t| == TT_SIZE && IsInteriorNode(env, b, depth, clk)
    ensures var o := NegamaxResult(env, b, depth, ply, alpha, beta, t, clk);
            var s := Interior(env, b, depth, ply, alpha, beta, t, clk + 1);
            var h := env.hash(b);
            && o.score == s.maxScore && o.ticks == s.ticks
            && BestOf(s.maxScore, s.best, s.searched)
            && (ProbeIn(t, h).depth <= ply ==> o.table == StoreInto(s.table, h, ply, s.best))
            && (ProbeIn(t, h).depth > ply ==> o.table == s.table)
  {
    InteriorBest(env, b, depth, ply, alpha, beta, t, clk + 1);
  }

  /** The loop state once the table move (if the probe was deep enough) has been searched. */
  function FirstScan<B(!new)>(env: Env<B>, b: B, depth: int, ply: int, alpha: int, beta: int,
                              t: seq<Entry>, clk: nat): (first: Scan)
    requires depth > 0 && |t| == TT_SIZE
    ensures |first.table| == TT_SIZE
    ensures |first.searched| == if ProbeIn(t, env.hash(b)).depth >= ply then 1 else 0
    ensures ProbeIn(t, env.hash(b)).depth >= ply ==> first.searched[0].0 == ProbeIn(t, env.hash(b)).bestMove
  {
    var entry := ProbeIn(t, env.hash(b));
    var start := Scan(-NUMERIC_MAX, NO_MOVE, alpha, t, clk, []);
    if entry.depth >= ply
    then Step(start, entry.bestMove, NegamaxResult(env, env.apply(b, entry.bestMove), depth - 1, ply + 1, -beta, -alpha, t, clk))
    else start
  }

  /** An interior node is the ordered loop started from the first scan. */
  lemma InteriorFromFirst<B(!new)>(env: Env<B>, b: B, depth: int, ply: int, alpha: int, beta: int,
                                   t: seq<Entry>, clk: nat)
    requires depth > 0 && |t| == TT_SIZE
    ensures Interior(env, b, depth, ply, alpha, beta, t, clk) ==
            SearchMoves(env, b, depth, ply, beta, ProbeIn(t, env.hash(b)).bestMove,
                        SortMoves(env.view(b), env.legalMoves(b)), FirstScan(env, b, depth, ply, alpha, beta, t, clk))
  {
    InteriorIs(env, b, depth, ply, alpha, beta, t, clk, FirstScan(env, b, depth, ply, alpha, beta, t, clk));
  }

  /** Whatever the node searched, `maxScore`/`thisBestMove` are the best of it. */
  lemma InteriorBest<B(!new)>(env: Env<B>, b: B, depth: int, ply: int, alpha: int, beta: int,
                              t: seq<Entry>, clk: nat)
    requires depth > 0 && |t| == TT_SIZE
    ensures var s := Interior(env, b, depth, ply, alpha, beta, t, clk); BestOf(s.maxScore, s.best, s.searched)
  {
    var entry := ProbeIn(t, env.hash(b));
    var start := Scan(-NUMERIC_MAX, NO_MOVE, alpha, t, clk, []);
    var child := NegamaxResult(env, env.apply(b, entry.bestMove), depth - 1, ply + 1, -beta, -alpha, t, clk);
    BestOfStart();
    if entry.depth >= ply {
      BestOfStep(start, entry.bestMove, child);
    }
    InteriorFromFirst(env, b, depth, ply, alpha, beta, t, clk);
    SearchMovesBest(env, b, depth, ply, beta, entry.bestMove, SortMoves(env.view(b), env.legalMoves(b)),
                    FirstScan(env, b, depth, ply, alpha, beta, t, clk));
  }

  /**
   * The table move is searched first exactly when the probed entry is at
   * least as deep as the ply, and the ordered loop never searches it: it is
   * searched at most once, and not at all when the entry is too shallow.
   */
  lemma InteriorTableMove<B(!new)>(env: Env<B>, b: B, depth: int, ply: int, alpha: int, beta: int,
                                   t: seq<Entry>, clk: nat)
    requires depth > 0 && |t| == TT_SIZE
    ensures var entry := ProbeIn(t, env.hash(b));
            var s := Interior(env, b, depth, ply, alpha, beta, t, clk);
            var n := if entry.depth >= ply then 1 else 0;
            && n <= |s.searched|
            && (entry.depth >= ply ==> s.searched[0].0 == entry.bestMove)
            && (forall k :: n <= k < |s.searched| ==> s.searched[k].0 != entry.bestMove)
  {
    var entry := ProbeIn(t, env.hash(b));
    var first := FirstScan(env, b, depth, ply, alpha, beta, t, clk);
    var sorted := SortMoves(env.view(b), env.legalMoves(b));
    InteriorFromFirst(env, b, depth, ply, alpha, beta, t, clk);
    SearchMovesExtends(env, b, depth, ply, beta, entry.bestMove, sorted, first);
    SearchMovesVisits(env, b, depth, ply, beta, entry.bestMove, sorted, first);
    UnskippedMembers(sorted, entry.bestMove);
    var s := Interior(env, b, depth, ply, alpha, beta, t, clk);
    if entry.depth >= ply {
      assert s.searched[..1][0] == first.searched[0];
    }
    AddedAvoids(first, s, Unskipped(sorted, entry.bestMove), entry.bestMove);
  }

  lemma AddedAvoids(first: Scan, s: Scan, ordered: seq<Move>, skip: Move)
    requires |first.searched| <= |s.searched| && IsPrefix(MovesOf(Added(first, s)), ordered)
    requires forall k :: 0 <= k < |ordered| ==> ordered[k] != skip
    ensures forall k :: |first.searched| <= k < |s.searched| ==> s.searched[k].0 != skip
  {
    var loop := Added(first, s);
    forall k | |first.searched| <= k < |s.searched|
      ensures s.searched[k].0 != skip
    {
      var j := k - |first.searched|;
      assert loop[j] == s.searched[k];
      assert MovesOf(loop)[j] == ordered[j];
    }
  }

  /**
   * After the table move, the node searches the ordered moves other than
   * the table move, in order, and stops before their end only once alpha
   * has reached beta.
   */
  lemma InteriorOrderedMoves<B(!new)>(env: Env<B>, b: B, depth: int, ply: int, alpha: int, beta: int,
                                      t: seq<Entry>, clk: nat)
    requires depth > 0 && |t| == TT_SIZE
    ensures var entry := ProbeIn(t, env.hash(b));
            var s := Interior(env, b, depth, ply, alpha, beta, t, clk);
            var n := if entry.depth >= ply then 1 else 0;
            var ordered := Unskipped(SortMoves(env.view(b), env.legalMoves(b)), entry.bestMove);
            && n <= |s.searched|
            && IsPrefix(MovesOf(s.searched[n..]), ordered)
            && (|s.searched| - n < |ordered| ==> s.alpha >= beta)
  {
    var entry := ProbeIn(t, env.hash(b));
    var first := FirstScan(env, b, depth, ply, alpha, beta, t, clk);
    var sorted := SortMoves(env.view(b), env.legalMoves(b));
    InteriorFromFirst(env, b, depth, ply, alpha, beta, t, clk);
    SearchMovesExtends(env, b, depth, ply, beta, entry.bestMove, sorted, first);
    SearchMovesVisits(env, b, depth, ply, beta, entry.bestMove, sorted, first);
    SearchMovesAlpha(env, b, depth, ply, beta, entry.bestMove, sorted, first);
    var s := Interior(env, b, depth, ply, alpha, beta, t, clk);
    assert Added(first, s) == s.searched[|first.searched|..];
  }

  /**
   * The search writes the table only through `store_entry`, so a table in
   * which every occupied slot holds a key whose low bits are the slot number
   * stays that way.
   */
  lemma {:induction false} NegamaxKeepsPlaced<B(!new)>(env: Env<B>, b: B, depth: int, ply: int, alpha: int, beta: int,
                                                       t: seq<Entry>, clk: nat)
    requires |t| == TT_SIZE && Placed(t)
    ensures Placed(NegamaxResult(env, b, depth, ply, alpha, beta, t, clk).table)
    decreases Fuel(depth), 2, 0, 0
  {
    if IsInteriorNode(env, b, depth, clk) {
      InteriorKeepsPlaced(env, b, depth, ply, alpha, beta, t, clk + 1);
      var s := Interior(env, b, depth, ply, alpha, beta, t, clk + 1);
      StorePreservesPlaced(s.table, env.hash(b), ply, s.best);
    }
  }

  lemma {:induction false} InteriorKeepsPlaced<B(!new)>(env: Env<B>, b: B, depth: int, ply: int, alpha: int, beta: int,
                                                        t: seq<Entry>, clk: nat)
    requires depth > 0 && |t| == TT_SIZE && Placed(t)
    ensures Placed(Interior(env, b, depth, ply, alpha, beta, t, clk).table)
    decreases Fuel(depth), 1, 0, 0
  {
    var entry := ProbeIn(t, env.hash(b));
    if entry.depth >= ply {
      NegamaxKeepsPlaced(env, env.apply(b, entry.bestMove), depth - 1, ply + 1, -beta, -alpha, t, clk);
    }
    InteriorFromFirst(env, b, depth, ply, alpha, beta, t, clk);
    SearchMovesKeepsPlaced(env, b, depth, ply, beta, entry.bestMove, SortMoves(env.view(b), env.legalMoves(b)),
                           FirstScan(env, b, depth, ply, alpha, beta, t, clk));
  }

  lemma {:induction false} SearchMovesKeepsPlaced<B(!new)>(env: Env<B>, b: B, depth: int, ply: int, beta: int, skip: Move,
                                                           moves: seq<Move>, acc: Scan)
    requires depth > 0 && |acc.table| == TT_SIZE && Placed(acc.table)
    ensures Placed(SearchMoves(env, b, depth, ply, beta, skip, moves, acc).table)
    decreases Fuel(depth), 0, |moves|, 1
  {
    if moves != [] {
      if moves[0] == skip {
        SearchMovesKeepsPlaced(env, b, depth, ply, beta, skip, moves[1..], acc);
      } else {
        var child := NegamaxResult(env, env.apply(b, moves[0]), depth - 1, ply + 1, -beta, -acc.alpha, acc.table, acc.ticks);
        NegamaxKeepsPlaced(env, env.apply(b, moves[0]), depth - 1, ply + 1, -beta, -acc.alpha, acc.table, acc.ticks);
        var next := Step(acc, moves[0], child);
        SearchStep(env, b, depth, ply, beta, skip, moves, acc, next);
        if next.alpha < beta {
          SearchMovesKeepsPlaced(env, b, depth, ply, beta, skip, moves[1..], next);
        }
      }
    }
  }
}
