/**
 * The evaluation network's input: twelve 64-square planes, relative to the
 * side to move.  Planes 0-5 hold the mover's pawns, knights, bishops, rooks,
 * queens and king, planes 6-11 the opponent's, and within a plane squares
 * run a1 = 0 ... h8 = 63, so feature k is square k % 64 of plane k / 64.
 * The three encoders (nn/sensenet.hpp, nn/sensenet.py, nn/tester_2.py) are
 * each proved to produce exactly these features.
 */
module Features {
  import opened Wrappers
  import opened Chess

  const PLANES: nat := 12
  const INPUT_NEURONS: nat := 768

  /** The plane a piece lights: its kind, shifted by 6 for the opponent. */
  function Plane(p: Piece, mover: Color): (plane: nat)
    ensures plane < PLANES
    ensures (plane < 6) == (p.color == mover)
    ensures plane % 6 == KindIndex(p.kind)
  {
    KindIndex(p.kind) + (if p.color == mover then 0 else 6)
  }

  /** Square `s` holds a piece whose plane is `plane`. */
  predicate OnPlane(b: Board, plane: int, s: Square)
  {
    b.squares[s].Some? && Plane(b.squares[s].value, b.turn) == plane
  }

  /** Feature `k` of board `b` (0 for every k outside the twelve planes). */
  function FeatureBit(b: Board, k: int): (bit: int)
    ensures bit == 0 || bit == 1
  {
    if 0 <= k < INPUT_NEURONS && OnPlane(b, k / 64, k % 64) then 1 else 0
  }

  /**
   * The features in words: entry p * 64 + s is 1 exactly when square s holds
   * a piece of kind index p % 6 that belongs to the mover (p < 6) or to the
   * opponent (p >= 6).
   */
  lemma FeatureMeaning(b: Board, p: nat, s: Square)
    requires p < PLANES
    ensures FeatureBit(b, p * 64 + s) == 1 <==>
              && b.squares[s].Some?
              && KindIndex(b.squares[s].value.kind) == p % 6
              && (b.squares[s].value.color == b.turn <==> p < 6)
  {
    assert (p * 64 + s) / 64 == p && (p * 64 + s) % 64 == s;
    if b.squares[s].Some? {
      var piece := b.squares[s].value;
      if KindIndex(piece.kind) == p % 6 && (piece.color == b.turn <==> p < 6) {
        assert Plane(piece, b.turn) == p;
      }
    }
  }

  /** Whether square s is lit on plane p, as 0 or 1. */
  function PlaneBit(b: Board, p: int, s: Square): int
  {
    if OnPlane(b, p, s) then 1 else 0
  }

  /** Feature p * 64 + s is square s of plane p. */
  lemma FeatureAt(b: Board, p: nat, s: Square)
    requires p < PLANES
    ensures FeatureBit(b, p * 64 + s) == PlaneBit(b, p, s)
  {
    assert (p * 64 + s) / 64 == p && (p * 64 + s) % 64 == s;
  }

  /** How many of planes 0 .. q-1 square s lights. */
  function PlanesLit(b: Board, s: Square, q: nat): nat
    requires q <= PLANES
  {
    if q == 0 then 0 else PlanesLit(b, s, q - 1) + PlaneBit(b, q - 1, s)
  }

  /** Each occupied square lights exactly one plane and an empty square none. */
  lemma {:induction false} OnePlanePerPiece(b: Board, s: Square, q: nat)
    requires q <= PLANES
    ensures PlanesLit(b, s, q) ==
              if b.squares[s].Some? && Plane(b.squares[s].value, b.turn) < q then 1 else 0
  {
    if q > 0 {
      OnePlanePerPiece(b, s, q - 1);
    }
  }

  /** Number of ones among the features. */
  function Ones(v: seq<int>): nat
  {
    if v == [] then 0 else Ones(v[..|v| - 1]) + (if v[|v| - 1] == 1 then 1 else 0)
  }

  function Features(b: Board): (v: seq<int>)
    ensures |v| == INPUT_NEURONS
    ensures forall k :: 0 <= k < INPUT_NEURONS ==> v[k] == FeatureBit(b, k)
  {
    seq(INPUT_NEURONS, k => FeatureBit(b, k))
  }

  /** Ones in planes 0 .. q-1, restricted to squares 0 .. n-1. */
  function Block(b: Board, q: nat, n: nat): nat
    requires q <= PLANES && n <= 64
  {
    if q == 0 then 0 else Block(b, q - 1, n) + Ones(BlockRow(b, q - 1, n))
  }

  function BlockRow(b: Board, p: nat, n: nat): (row: seq<int>)
    requires p < PLANES && n <= 64
    ensures |row| == n
  {
    seq(n, s requires 0 <= s < n => PlaneBit(b, p, s))
  }

  lemma {:induction false} BlockStep(b: Board, q: nat, n: nat)
    requires q <= PLANES && n < 64
    ensures Block(b, q, n + 1) == Block(b, q, n) + PlanesLit(b, n, q)
  {
    if q > 0 {
      BlockStep(b, q - 1, n);
      var row := BlockRow(b, q - 1, n + 1);
      assert row[..n] == BlockRow(b, q - 1, n);
    }
  }

  lemma {:induction false} BlockCountsPieces(b: Board, n: nat)
    requires n <= 64
    ensures Block(b, PLANES, n) == PieceCount(b.squares[..n])
  {
    if n == 0 {
      ZeroBlock(b, PLANES);
    } else {
      BlockCountsPieces(b, n - 1);
      BlockStep(b, PLANES, n - 1);
      OnePlanePerPiece(b, n - 1, PLANES);
      assert b.squares[..n][..n - 1] == b.squares[..n - 1];
    }
  }

  lemma {:induction false} ZeroBlock(b: Board, q: nat)
    requires q <= PLANES
    ensures Block(b, q, 0) == 0
  {
    if q > 0 {
      ZeroBlock(b, q - 1);
    }
  }

  lemma {:induction false} OnesAppend(u: seq<int>, w: seq<int>)
    ensures Ones(u + w) == Ones(u) + Ones(w)
    decreases |w|
  {
    if w == [] {
      assert u + w == u;
    } else {
      OnesAppend(u, w[..|w| - 1]);
      assert (u + w)[..|u + w| - 1] == u + w[..|w| - 1];
    }
  }

  lemma {:induction false} FeaturesByPlane(b: Board, q: nat)
    requires q <= PLANES
    ensures Ones(Features(b)[..q * 64]) == Block(b, q, 64)
  {
    if q > 0 {
      FeaturesByPlane(b, q - 1);
      PlanePrefix(b, q);
      OnesAppend(Features(b)[..(q - 1) * 64], BlockRow(b, q - 1, 64));
    }
  }

  /** The first q planes are the first q - 1 planes followed by plane q - 1. */
  lemma PlanePrefix(b: Board, q: nat)
    requires 0 < q <= PLANES
    ensures Features(b)[..q * 64] == Features(b)[..(q - 1) * 64] + BlockRow(b, q - 1, 64)
  {
    var v, lo, row := Features(b), (q - 1) * 64, BlockRow(b, q - 1, 64);
    forall k | 0 <= k < lo + 64
      ensures v[..lo + 64][k] == (v[..lo] + row)[k]
    {
      if k >= lo {
        FeatureAt(b, q - 1, k - lo);
      }
    }
    assert v[..lo + 64] == v[..lo] + row;
  }

  /** The number of ones among the 768 features equals the number of pieces. */
  lemma OnesCountPieces(b: Board)
    ensures Ones(Features(b)) == PieceCount(b.squares)
  {
    FeaturesByPlane(b, PLANES);
    assert Features(b)[..PLANES * 64] == Features(b);
    BlockCountsPieces(b, 64);
    assert b.squares[..64] == b.squares;
  }
}
