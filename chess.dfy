/** The rules engine (chesslib) as the evaluator sees it: squares, moves,
    and one shared board whose state is the stack of moves applied to it. */
module Chess {
  import opened Options
  import opened Pieces

  /** A board square, by its file letter `'A'..'H'` and rank digit `'1'..'8'`. */
  datatype Square = Square(file: char, rank: char)

  predicate IsFile(c: char) {
    'A' <= c <= 'H'
  }

  predicate IsRank(c: char) {
    '1' <= c <= '8'
  }

  /** `Square.valueOf(name)`: the square whose enum constant is spelled
      `name`, or `None` where the Java call throws `IllegalArgumentException`. */
  function SquareOf(name: string): (r: Option<Square>)
    ensures r.Some? <==> |name| == 2 && IsFile(name[0]) && IsRank(name[1])
    ensures r.Some? ==> SquareName(r.value) == name
  {
    if |name| == 2 && IsFile(name[0]) && IsRank(name[1]) then Some(Square(name[0], name[1])) else None
  }

  /** The enum constant's name of a square. */
  function SquareName(s: Square): string {
    [s.file, s.rank]
  }

  /** Every square with a legal file and rank is found again from its name. */
  lemma SquareNameRoundTrip(s: Square)
    requires IsFile(s.file) && IsRank(s.rank)
    ensures SquareOf(SquareName(s)) == Some(s)
  {
  }

  /** A move is its origin and destination; two moves are equal iff both match. */
  datatype Move = Move(from: Square, to: Square)

  /** The rules engine's view of a position reached from its starting board by
      a history of moves: the legal moves there, in enumeration order
      (`MoveGenerator.generateLegalMoves`), and the square contents
      (`Board.boardToArray`). */
  datatype Rules = Rules(legal: seq<Move> -> seq<Move>, pieces: seq<Move> -> seq<Piece>)

  /** The shared, mutable board (`MiniChess.board`): its position is the
      stack of moves applied since the rules engine's starting board. */
  class Board {
    const rules: Rules
    var history: seq<Move>

    constructor (rules: Rules)
      ensures this.rules == rules && history == []
    {
      this.rules := rules;
      history := [];
    }

    /** The legal moves of the current position, in enumeration order. */
    function LegalMoves(): seq<Move>
      reads this
    {
      rules.legal(history)
    }

    /** The square contents of the current position. */
    function Pieces(): seq<Piece>
      reads this
    {
      rules.pieces(history)
    }

    /** `Board.doMove`: pushes a move. */
    method DoMove(m: Move)
      modifies this
      ensures history == old(history) + [m]
    {
      history := history + [m];
    }

    /** `Board.undoMove`: takes back the last move made. */
    method UndoMove()
      requires history != []
      modifies this
      ensures history == old(history)[..|old(history)| - 1]
    {
      history := history[..|history| - 1];
    }
  }
}
