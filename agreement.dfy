/**
 * What the three encoders and the two weight loaders have in common.  The
 * engine's C++ encoder, the training script's encoder and the test script's
 * encoder produce the same 768 features; the C++ loader and the test
 * script's loader leave the same values in a one-dimensional section,
 * although the C++ counter keeps advancing past the capacity and the
 * script's stops there.
 */
module Agreement {
  import opened Chess
  import opened Features
  import SenseNetCpp
  import SenseNetPy
  import Tester2

  /** The three `board_to_bitboards` agree entry by entry; only the C++ one pads, with zeros. */
  method EncodersAgree(board: Board) returns (cpp: seq<real>, py: seq<real>, ints: seq<int>)
    ensures |cpp| == SenseNetCpp.PADDED_INPUT && |py| == INPUT_NEURONS && |ints| == INPUT_NEURONS
    ensures forall k :: 0 <= k < INPUT_NEURONS ==> cpp[k] == py[k] == ints[k] as real
    ensures forall k :: INPUT_NEURONS <= k < SenseNetCpp.PADDED_INPUT ==> cpp[k] == 0.0
    ensures cpp[..INPUT_NEURONS] == py
  {
    cpp := SenseNetCpp.BoardToBitboards(board);
    ghost var boards;
    py, boards := SenseNetPy.BoardToBitboards(board);
    ints := Tester2.BoardToBitboards(board);
  }

  /**
   * One section's values through both loaders: the stored values are the
   * same, and the script's counter never passes the C++ one.
   */
  lemma FillsAgree(arr: seq<int>, idx: nat, vals: seq<int>)
    ensures Tester2.Fill(arr, idx, vals).0 == SenseNetCpp.FillCapped(arr, idx, vals).0
    ensures Tester2.Fill(arr, idx, vals).1 <= SenseNetCpp.FillCapped(arr, idx, vals).1
    ensures idx + |vals| <= |arr| ==> Tester2.Fill(arr, idx, vals).1 == SenseNetCpp.FillCapped(arr, idx, vals).1
  {
    var t := Tester2.Fill(arr, idx, vals);
    var c := SenseNetCpp.FillCapped(arr, idx, vals);
    assert |t.0| == |c.0|;
    forall j | 0 <= j < |arr| ensures t.0[j] == c.0[j] {
    }
  }
}
