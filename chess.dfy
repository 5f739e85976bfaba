/**
 * The few facts about chess positions that the engine's own code reads:
 * piece kinds and colours, the 64 squares (a1 = 0 ... h8 = 63), the piece
 * placement with the side to move, and the 16-bit move word of the chess
 * library (target square in bits 0-5, origin square in bits 6-11, 0 is
 * NO_MOVE).  The library itself (move generation, make/unmake, hashing,
 * draw rules) is not part of this model.
 */
module Chess {
  import opened Wrappers

  /** Piece kinds in the library's order PAWN = 0 ... KING = 5. */
  datatype PieceKind = Pawn | Knight | Bishop | Rook | Queen | King

  datatype Color = White | Black

  datatype Piece = Piece(color: Color, kind: PieceKind)

  type Square = s: int | 0 <= s < 64

  /** What stands on each square, indexed a1 = 0, b1 = 1, ..., h8 = 63. */
  type Placement = s: seq<Option<Piece>> | |s| == 64 witness seq(64, _ => None)

  /** The part of a position the evaluation network's encoders look at. */
  datatype Board = Board(squares: Placement, turn: Color)

  type Move = m: int | 0 <= m < 0x1_0000

  const NO_MOVE: Move := 0

  function Opponent(c: Color): (o: Color)
    ensures o != c
  {
    if c == White then Black else White
  }

  /** Index of a kind in the encoders' lookup table (P, N, B, R, Q, K). */
  function KindIndex(k: PieceKind): (i: nat)
    ensures i < 6
  {
    match k
    case Pawn => 0
    case Knight => 1
    case Bishop => 2
    case Rook => 3
    case Queen => 4
    case King => 5
  }

  lemma KindIndexInjective(a: PieceKind, b: PieceKind)
    requires KindIndex(a) == KindIndex(b)
    ensures a == b
  {
  }

  function ToSquare(m: Move): Square
  {
    m % 64
  }

  function FromSquare(m: Move): Square
  {
    (m / 64) % 64
  }

  function PieceCount(p: seq<Option<Piece>>): (n: nat)
    ensures n <= |p|
  {
    if p == [] then 0 else PieceCount(p[..|p| - 1]) + (if p[|p| - 1].Some? then 1 else 0)
  }
}
