/**
 * MVV-LVA move ordering ("most valuable victim, least valuable attacker").
 * A move is seen through the two squares the comparator looks at: what
 * stands on its target square (any piece there makes it a "capture") and
 * what stands on its origin square.
 */
module MoveOrder {
  import opened Wrappers
  import opened Chess

  /** `get_piece_value`; a square without a piece has type NONE and value 0. */
  function PieceValue(k: Option<PieceKind>): (v: nat)
    ensures v <= 10000
    ensures k == None <==> v == 0
    ensures k == Some(King) <==> v == 10000
  {
    match k
    case None => 0
    case Some(Pawn) => 100
    case Some(Knight) => 320
    case Some(Bishop) => 330
    case Some(Rook) => 500
    case Some(Queen) => 900
    case Some(King) => 10000
  }

  /** Pawn < Knight < Bishop < Rook < Queen < King, with no two kinds of equal value. */
  lemma PieceValuesStrictlyIncrease(a: PieceKind, b: PieceKind)
    requires KindIndex(a) < KindIndex(b)
    ensures PieceValue(Some(a)) < PieceValue(Some(b))
  {
  }

  /** The kinds of the pieces on a move's target and origin squares. */
  datatype MoveInfo = MoveInfo(victim: Option<PieceKind>, attacker: Option<PieceKind>)

  function KindOn(b: Board, s: Square): Option<PieceKind>
  {
    match b.squares[s]
    case None => None
    case Some(p) => Some(p.kind)
  }

  function InfoOf(b: Board, m: Move): MoveInfo
  {
    MoveInfo(KindOn(b, ToSquare(m)), KindOn(b, FromSquare(m)))
  }

  /** `compareMovesMVVLVA(a, b)`: should `a` be tried before `b`? */
  function Before(a: MoveInfo, b: MoveInfo): bool
  {
    var aCapture, bCapture := a.victim.Some?, b.victim.Some?;
    if aCapture && bCapture then
      if PieceValue(a.victim) != PieceValue(b.victim) then PieceValue(a.victim) > PieceValue(b.victim)
      else PieceValue(a.attacker) < PieceValue(b.attacker)
    else if aCapture then true
    else if bCapture then false
    else false
  }

  /**
   * An independent ranking: captures by falling victim value, then rising
   * attacker value, and all non-captures together after every capture.
   */
  function Rank(x: MoveInfo): (r: nat)
    ensures x.victim.Some? <==> r < 10001 * 20000
  {
    if x.victim.Some? then (10000 - PieceValue(x.victim)) * 20000 + PieceValue(x.attacker)
    else 10001 * 20000
  }

  /** The comparator is exactly "lower rank first". */
  lemma BeforeIsRankOrder(a: MoveInfo, b: MoveInfo)
    ensures Before(a, b) <==> Rank(a) < Rank(b)
  {
    if a.victim.Some? && b.victim.Some? && PieceValue(a.victim) != PieceValue(b.victim) {
      var va, vb := PieceValue(a.victim), PieceValue(b.victim);
      if va > vb {
        assert (10000 - va) * 20000 + 20000 <= (10000 - vb) * 20000;
      } else {
        assert (10000 - vb) * 20000 + 20000 <= (10000 - va) * 20000;
      }
    }
  }

  /** Strict weak order, part 1: nothing is before itself. */
  lemma BeforeIrreflexive(a: MoveInfo)
    ensures !Before(a, a)
  {
  }

  /** Strict weak order, part 2: "before" is transitive. */
  lemma BeforeTransitive(a: MoveInfo, b: MoveInfo, c: MoveInfo)
    requires Before(a, b) && Before(b, c)
    ensures Before(a, c)
  {
    BeforeIsRankOrder(a, b);
    BeforeIsRankOrder(b, c);
    BeforeIsRankOrder(a, c);
  }

  /** Strict weak order, part 3: being unordered is transitive. */
  lemma UnorderedTransitive(a: MoveInfo, b: MoveInfo, c: MoveInfo)
    requires !Before(a, b) && !Before(b, a) && !Before(b, c) && !Before(c, b)
    ensures !Before(a, c) && !Before(c, a)
  {
    BeforeIsRankOrder(a, b);
    BeforeIsRankOrder(b, a);
    BeforeIsRankOrder(b, c);
    BeforeIsRankOrder(c, b);
    BeforeIsRankOrder(a, c);
    BeforeIsRankOrder(c, a);
  }

  /** Captures go first; two non-captures are unordered. */
  lemma CapturesFirst(a: MoveInfo, b: MoveInfo)
    ensures a.victim.Some? && b.victim.None? ==> Before(a, b) && !Before(b, a)
    ensures a.victim.None? && b.victim.None? ==> !Before(a, b) && !Before(b, a)
  {
  }

  /** Two captures: the more valuable victim first, and for equal victims the cheaper attacker. */
  lemma CaptureOrder(a: MoveInfo, b: MoveInfo)
    requires a.victim.Some? && b.victim.Some?
    ensures PieceValue(a.victim) > PieceValue(b.victim) ==> Before(a, b)
    ensures PieceValue(a.victim) == PieceValue(b.victim) ==>
              (Before(a, b) <==> PieceValue(a.attacker) < PieceValue(b.attacker))
  {
  }

  /** No later move should have been tried before an earlier one. */
  predicate SortedOn(b: Board, ms: seq<Move>)
  {
    forall i, j :: 0 <= i < j < |ms| ==> !Before(InfoOf(b, ms[j]), InfoOf(b, ms[i]))
  }

  predicate RankSorted(b: Board, ms: seq<Move>)
  {
    forall i, j :: 0 <= i < j < |ms| ==> Rank(InfoOf(b, ms[i])) <= Rank(InfoOf(b, ms[j]))
  }

  lemma RankSortedIsSorted(b: Board, ms: seq<Move>)
    requires RankSorted(b, ms)
    ensures SortedOn(b, ms)
  {
    forall i, j | 0 <= i < j < |ms|
      ensures !Before(InfoOf(b, ms[j]), InfoOf(b, ms[i]))
    {
      BeforeIsRankOrder(InfoOf(b, ms[j]), InfoOf(b, ms[i]));
    }
  }

  /** Place `m` in front of the first move it is strictly before. */
  function Insert(b: Board, m: Move, ms: seq<Move>): seq<Move>
  {
    if ms == [] then [m]
    else if Before(InfoOf(b, m), InfoOf(b, ms[0])) then [m] + ms
    else [ms[0]] + Insert(b, m, ms[1..])
  }

  /**
   * `sortMovesMVVLVA`: the moves copied and sorted with the comparator.  The
   * model fixes one order among equivalent moves (each keeps its place in
   * the list).
   */
  function SortMoves(b: Board, ms: seq<Move>): seq<Move>
  {
    if ms == [] then [] else Insert(b, ms[|ms| - 1], SortMoves(b, ms[..|ms| - 1]))
  }

  lemma {:induction false} InsertPermutes(b: Board, m: Move, ms: seq<Move>)
    ensures multiset(Insert(b, m, ms)) == multiset(ms) + multiset{m}
    ensures forall k :: 0 <= k < |Insert(b, m, ms)| ==> Insert(b, m, ms)[k] == m || Insert(b, m, ms)[k] in ms
  {
    if ms != [] && !Before(InfoOf(b, m), InfoOf(b, ms[0])) {
      var rest := Insert(b, m, ms[1..]);
      InsertPermutes(b, m, ms[1..]);
      assert ms == [ms[0]] + ms[1..];
      var r := Insert(b, m, ms);
      assert r == [ms[0]] + rest;
      forall k | 0 <= k < |r| ensures r[k] == m || r[k] in ms {
        if k > 0 {
          assert r[k] == rest[k - 1];
        }
      }
    }
  }

  lemma {:induction false} InsertSorted(b: Board, m: Move, ms: seq<Move>)
    requires RankSorted(b, ms)
    ensures RankSorted(b, Insert(b, m, ms))
  {
    if ms != [] {
      BeforeIsRankOrder(InfoOf(b, m), InfoOf(b, ms[0]));
      if !Before(InfoOf(b, m), InfoOf(b, ms[0])) {
        assert RankSorted(b, ms[1..]);
        InsertSorted(b, m, ms[1..]);
        InsertPermutes(b, m, ms[1..]);
        InsertHead(b, m, ms, Insert(b, m, ms[1..]));
      }
    }
  }

  lemma InsertHead(b: Board, m: Move, ms: seq<Move>, rest: seq<Move>)
    requires ms != [] && RankSorted(b, ms) && RankSorted(b, rest)
    requires Rank(InfoOf(b, ms[0])) <= Rank(InfoOf(b, m))
    requires forall k :: 0 <= k < |rest| ==> rest[k] == m || rest[k] in ms[1..]
    ensures RankSorted(b, [ms[0]] + rest)
  {
    var r := [ms[0]] + rest;
    forall i, j | 0 <= i < j < |r|
      ensures Rank(InfoOf(b, r[i])) <= Rank(InfoOf(b, r[j]))
    {
      if i == 0 {
        assert r[j] == rest[j - 1];
        if r[j] != m {
          var k :| 0 <= k < |ms[1..]| && ms[1..][k] == r[j];
          assert ms[k + 1] == r[j];
        }
      } else {
        assert r[i] == rest[i - 1] && r[j] == rest[j - 1];
      }
    }
  }

  lemma {:induction false} SortMovesRanked(b: Board, ms: seq<Move>)
    ensures multiset(SortMoves(b, ms)) == multiset(ms)
    ensures RankSorted(b, SortMoves(b, ms))
  {
    if ms != [] {
      var init := ms[..|ms| - 1];
      assert ms == init + [ms[|ms| - 1]];
      SortMovesRanked(b, init);
      InsertPermutes(b, ms[|ms| - 1], SortMoves(b, init));
      InsertSorted(b, ms[|ms| - 1], SortMoves(b, init));
    }
  }

  /** The sorted list is a permutation of the legal moves, ordered by the comparator. */
  lemma SortMovesCorrect(b: Board, ms: seq<Move>)
    ensures multiset(SortMoves(b, ms)) == multiset(ms)
    ensures |SortMoves(b, ms)| == |ms|
    ensures SortedOn(b, SortMoves(b, ms))
  {
    SortMovesRanked(b, ms);
    var r := SortMoves(b, ms);
    assert |multiset(r)| == |multiset(ms)|;
    RankSortedIsSorted(b, r);
  }

  /** `is_capture_move`: the target holds a piece of the side not to move. */
  function IsCaptureMove(b: Board, m: Move): (c: bool)
    ensures c ==> InfoOf(b, m).victim.Some?
    ensures c <==> b.squares[ToSquare(m)].Some? && b.squares[ToSquare(m)].value.color != b.turn
  {
    match b.squares[ToSquare(m)]
    case None => false
    case Some(p) => p.color != b.turn
  }

  /**
   * The comparator's idea of a capture is wider: a move onto a square held
   * by the mover's own piece is ordered as a capture but is not one for
   * `is_capture_move`.
   */
  lemma OwnPieceTargetOrderedAsCapture(b: Board, m: Move)
    requires b.squares[ToSquare(m)].Some? && b.squares[ToSquare(m)].value.color == b.turn
    ensures InfoOf(b, m).victim.Some? && !IsCaptureMove(b, m)
  {
  }
}
