/**
 * The training-side encoder `board_to_bitboards` of nn/sensenet.py: twelve
 * intermediate integers, one bit per piece, flattened to 768 floats.
 */
module SenseNetPy {
  import opened Wrappers
  import opened Chess
  import opened Bits
  import opened Features

  /** The twelve intermediate boards: bit n of board p is set iff square n lights plane p. */
  predicate BoardsAgree(board: Board, boards: seq<nat>, upTo: int)
    requires |boards| == PLANES
  {
    forall p, n :: 0 <= p < PLANES && 0 <= n < 64 ==>
      Bit(boards[p], n) == if n < upTo && OnPlane(board, p, n) then 1 else 0
  }

  /**
   * `board_to_bitboards`: the intermediate boards stay below 2^64 and
   * record exactly the pieces by plane; entry p * 64 + i of the result is
   * bit i of board p, as 0.0 or 1.0.
   */
  method BoardToBitboards(board: Board) returns (flattened: seq<real>, ghost boards: seq<nat>)
    ensures |boards| == PLANES && BoardsAgree(board, boards, 64)
    ensures forall p :: 0 <= p < PLANES ==> boards[p] < TWO_TO_64
    ensures |flattened| == INPUT_NEURONS
    ensures forall p, i :: 0 <= p < PLANES && 0 <= i < 64 ==> flattened[p * 64 + i] == Bit(boards[p], i) as real
    ensures forall k :: 0 <= k < INPUT_NEURONS ==> flattened[k] == FeatureBit(board, k) as real
  {
    var intermediate: seq<nat> := seq(PLANES, _ => 0);
    forall n: nat ensures Bit(0, n) == 0 {
      ZeroHasNoBits(n);
    }
    for square := 0 to 64
      invariant |intermediate| == PLANES
      invariant forall p :: 0 <= p < PLANES ==> intermediate[p] < TWO_TO_64
      invariant BoardsAgree(board, intermediate, square)
    {
      match board.squares[square]
      case Some(piece) =>
        var pieceTypeIdx := KindIndex(piece.kind);
        var plane := if piece.color == board.turn then pieceTypeIdx else pieceTypeIdx + 6;
        SetBit(intermediate[plane], square);
        intermediate := intermediate[plane := BitOr(intermediate[plane], Pow2(square))];
      case None =>
    }
    boards := intermediate;
    flattened := [];
    for p := 0 to PLANES
      invariant |flattened| == 64 * p
      invariant forall k :: 0 <= k < |flattened| ==>
                  flattened[k] == Bit(intermediate[k / 64], k % 64) as real && flattened[k] == FeatureBit(board, k) as real
    {
      var bb := intermediate[p];
      for i := 0 to 64
        invariant |flattened| == 64 * p + i
        invariant forall k :: 0 <= k < |flattened| ==>
                    flattened[k] == Bit(intermediate[k / 64], k % 64) as real && flattened[k] == FeatureBit(board, k) as real
      {
        assert (64 * p + i) / 64 == p && (64 * p + i) % 64 == i;
        flattened := flattened + [Bit(bb, i) as real];
      }
    }
    forall p, i | 0 <= p < PLANES && 0 <= i < 64 ensures flattened[p * 64 + i] == Bit(boards[p], i) as real {
      assert (p * 64 + i) / 64 == p && (p * 64 + i) % 64 == i;
    }
  }
}
