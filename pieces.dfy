/** Pieces as the rules engine reports them, and the material evaluation
    `getPieceValue` / `getBoardValue` puts on them. */
module Pieces {
  import opened Int32
  import opened Options

  datatype Side = White | Black

  /** chesslib's piece types; `NoType` is the enum constant `PieceType.NONE`. */
  datatype PieceType = Pawn | Knight | Bishop | Rook | Queen | King | NoType

  /** A chesslib piece. The empty square `Piece.NONE` has a null type and a
      null side, both written `None` here. */
  datatype Piece = Piece(kind: Option<PieceType>, side: Option<Side>)

  predicate IsKing(p: Piece) {
    p.kind == Some(King)
  }

  /** `getPieceValue`: the fixed weight of a piece; positive for White,
      negative for any other side, and the `int` extremes for the kings. */
  function PieceValue(p: Piece): (r: i32)
    ensures p.kind.None? || p.kind == Some(NoType) ==> r == 0
    ensures r > 0 <==> p.side == Some(White) && p.kind.Some? && p.kind.value != NoType
    ensures r < 0 <==> p.side != Some(White) && p.kind.Some? && p.kind.value != NoType
    ensures !IsKing(p) ==> -1000 <= r <= 1000
    ensures IsKing(p) ==> r == if p.side == Some(White) then MaxValue else MinValue
  {
    var white := p.side == Some(White);
    if p.kind.Some? then
      match p.kind.value
      case Pawn => if white then 100 else -100
      case Knight => if white then 300 else -300
      case Bishop => if white then 350 else -350
      case Rook => if white then 500 else -500
      case Queen => if white then 1000 else -1000
      case King => if white then MaxValue else MinValue
      case NoType => 0
    else 0
  }

  /** The two sides' pieces of one type have opposite weights, except the
      kings, whose weights `MAX_VALUE` and `MIN_VALUE` add up to -1. */
  lemma PieceValueMirror(k: PieceType)
    ensures var w, b := PieceValue(Piece(Some(k), Some(White))), PieceValue(Piece(Some(k), Some(Black)));
      if k == King then w as int + b as int == -1 else w == -b
  {
  }

  /** The mathematical (unwrapped) sum of the piece values of a board. */
  function Material(ps: seq<Piece>): int {
    if ps == [] then 0 else Material(ps[..|ps| - 1]) + PieceValue(ps[|ps| - 1])
  }

  /** The sum of the piece values of everything on the board but the kings. */
  function NonKingMaterial(ps: seq<Piece>): int {
    if ps == [] then 0
    else NonKingMaterial(ps[..|ps| - 1]) + (if IsKing(ps[|ps| - 1]) then 0 else PieceValue(ps[|ps| - 1]))
  }

  /** Number of kings `getPieceValue` scores as White's. */
  function WhiteKings(ps: seq<Piece>): nat {
    if ps == [] then 0
    else WhiteKings(ps[..|ps| - 1]) + (if IsKing(ps[|ps| - 1]) && ps[|ps| - 1].side == Some(White) then 1 else 0)
  }

  /** Number of kings `getPieceValue` scores as the other side's. */
  function BlackKings(ps: seq<Piece>): nat {
    if ps == [] then 0
    else BlackKings(ps[..|ps| - 1]) + (if IsKing(ps[|ps| - 1]) && ps[|ps| - 1].side != Some(White) then 1 else 0)
  }

  /** The material sum splits into the non-king material and one extreme per king. */
  lemma {:induction false} MaterialSplit(ps: seq<Piece>)
    ensures Material(ps) == NonKingMaterial(ps) + WhiteKings(ps) * MaxValue + BlackKings(ps) * MinValue
  {
    if ps != [] {
      MaterialSplit(ps[..|ps| - 1]);
    }
  }

  /** Non-king material is at most 1000 per square in either direction. */
  lemma {:induction false} NonKingBound(ps: seq<Piece>)
    ensures -1000 * |ps| <= NonKingMaterial(ps) <= 1000 * |ps|
  {
    if ps != [] {
      NonKingBound(ps[..|ps| - 1]);
    }
  }

  /** With one king on each side the two sentinels do not cancel: the
      32-bit board value is the non-king material minus one. */
  lemma BothKingsMinusOne(ps: seq<Piece>)
    requires WhiteKings(ps) == 1 && BlackKings(ps) == 1
    requires |ps| <= 0x10_0000
    ensures Wrap(Material(ps)) == NonKingMaterial(ps) - 1
  {
    MaterialSplit(ps);
    NonKingBound(ps);
  }

  /** When only White's king is left and White is also ahead in material,
      the 32-bit sum overflows: the board scores as hugely favouring the other side. */
  lemma LoneWhiteKingWraps(ps: seq<Piece>)
    requires WhiteKings(ps) == 1 && BlackKings(ps) == 0
    requires NonKingMaterial(ps) > 0 && |ps| <= 0x10_0000
    ensures Wrap(Material(ps)) == NonKingMaterial(ps) + MaxValue - Modulus
    ensures Wrap(Material(ps)) < 0
  {
    MaterialSplit(ps);
    NonKingBound(ps);
    var m := Material(ps);
    assert MaxValue < m < MaxValue + Modulus;
    WrapCongruent(m, m - Modulus);
  }

  /** The mirror case: only the other side's king is left and that side is
      ahead, so the sum underflows to a large positive value. */
  lemma LoneBlackKingWraps(ps: seq<Piece>)
    requires WhiteKings(ps) == 0 && BlackKings(ps) == 1
    requires NonKingMaterial(ps) < 0 && |ps| <= 0x10_0000
    ensures Wrap(Material(ps)) == NonKingMaterial(ps) + MinValue + Modulus
    ensures Wrap(Material(ps)) > 0
  {
    MaterialSplit(ps);
    NonKingBound(ps);
    var m := Material(ps);
    assert MinValue - Modulus < m < MinValue;
    WrapCongruent(m, m + Modulus);
  }
}
