/** The computer player: the evaluator's statistics, the minimax search with
    alpha-beta pruning over the shared board, and `eval`, which checks the
    player's move and answers it. */
module Engine {
  import opened Int32
  import opened Options
  import opened Pieces
  import opened Chess
  import opened SearchSpec
  import opened Parser

  /** `getBoardValue`: the 32-bit wrapping sum of the piece values of the board's squares. */
  method GetBoardValue(b: Board) returns (value: i32)
    ensures value == Wrap(Material(b.Pieces()))
  {
    var ps := b.Pieces();
    value := 0;
    for i := 0 to |ps|
      invariant value == Wrap(Material(ps[..i]))
    {
      assert ps[..i + 1][..i] == ps[..i];
      WrapAddLeft(Material(ps[..i]), PieceValue(ps[i]));
      value := Add(value, PieceValue(ps[i]));
    }
    assert ps[..|ps|] == ps;
  }

  /** The legality check of `eval`: whether the player's move is among the legal moves. */
  method IsLegalMove(moves: seq<Move>, givenMove: Move) returns (isLegal: bool)
    ensures isLegal <==> givenMove in moves
  {
    isLegal := false;
    for i := 0 to |moves|
      invariant isLegal <==> givenMove in moves[..i]
    {
      assert moves[..i + 1] == moves[..i] + [moves[i]];
      if moves[i] == givenMove {
        isLegal := true;
      }
    }
    assert moves[..|moves|] == moves;
  }

  /** How one call of `eval` ends. */
  datatype Outcome =
    | Aborted(at: nat)                        // the text at `at` is not a square: an exception ends `eval`
    | RanCommands(run: seq<Command>)          // a command line: the commands it triggered
    | Rejected                                // "Illegal Move!": the board is left as it was
    | Played(human: Move, reply: Option<Move>) // the player's move, then the computer's (`None`: `doMove(null)` throws)

  /** The static state of the Java class `Evaluator`: its two statistics,
      over the shared board `MiniChess.board`. */
  class Evaluator {
    const board: Board
    var posNum: nat
    var pruneNum: nat

    constructor (board: Board)
      ensures this.board == board && posNum == 0 && pruneNum == 0
    {
      this.board := board;
      posNum := 0;
      pruneNum := 0;
    }

    /** `miniMax`: alpha-beta search of the board's position, which every
        `doMove` it makes is undone before it returns. */
    method MiniMax(maximizing: bool, depth: nat, alpha: i32, beta: i32) returns (value: i32)
      modifies this, board
      decreases depth
      ensures board.history == old(board.history)
      ensures var t := Search(board.rules, old(board.history), depth, maximizing, alpha, beta);
        && value == t.value
        && posNum == old(posNum) + t.visited
        && pruneNum == old(pruneNum) + t.pruned
    {
      ghost var h, p, q := board.history, posNum, pruneNum;
      ghost var goal := Search(board.rules, h, depth, maximizing, alpha, beta);
      posNum := posNum + 1;
      if depth == 0 {
        var boardValue := GetBoardValue(board);
        value := Neg(boardValue);
        return;
      }
      var newMoves := board.LegalMoves();
      if maximizing {
        var bestValue: i32 := nInfinity;
        var a: i32 := alpha;
        var i := 0;
        while i < |newMoves|
          invariant 0 <= i <= |newMoves|
          invariant board.history == h
          invariant p <= posNum && q <= pruneNum
          invariant SearchMoves(board.rules, h, depth, true, newMoves, i, a, beta, bestValue, posNum - p, pruneNum - q) == goal
        {
          board.DoMove(newMoves[i]);
          var v := MiniMax(!maximizing, depth - 1, a, beta);
          bestValue := Max(bestValue, v);
          board.UndoMove();
          a := Max(a, v);
          if beta <= a {
            pruneNum := pruneNum + 1;
            assert goal == Tally(bestValue, posNum - p, pruneNum - q);
            break;
          }
          i := i + 1;
        }
        value := bestValue;
      } else {
        var bestValue: i32 := pInfinity;
        var b: i32 := beta;
        var i := 0;
        while i < |newMoves|
          invariant 0 <= i <= |newMoves|
          invariant board.history == h
          invariant p <= posNum && q <= pruneNum
          invariant SearchMoves(board.rules, h, depth, false, newMoves, i, alpha, b, bestValue, posNum - p, pruneNum - q) == goal
        {
          board.DoMove(newMoves[i]);
          var v := MiniMax(!maximizing, depth - 1, alpha, b);
          bestValue := Min(bestValue, v);
          board.UndoMove();
          b := Min(b, v);
          if b <= alpha {
            pruneNum := pruneNum + 1;
            assert goal == Tally(bestValue, posNum - p, pruneNum - q);
            break;
          }
          i := i + 1;
        }
        value := bestValue;
      }
    }

    /** `rootMiniMax`: searches every legal move's child with the full window
        and keeps the last move whose value is at least the best so far. */
    method RootMiniMax(maximizing: bool, depth: nat) returns (bestMove: Option<Move>)
      requires depth >= 1
      modifies this, board
      ensures board.history == old(board.history)
      ensures var t := RootSearch(board.rules, old(board.history), depth, maximizing);
        bestMove == t.move && posNum == old(posNum) + t.visited && pruneNum == old(pruneNum) + t.pruned
    {
      ghost var h, p, q := board.history, posNum, pruneNum;
      ghost var goal := RootSearch(board.rules, h, depth, maximizing);
      bestMove := None;
      var newMoves := board.LegalMoves();
      var bestValue: i32 := nInfinity;
      for i := 0 to |newMoves|
        invariant board.history == h
        invariant p <= posNum && q <= pruneNum
        invariant RootScan(board.rules, h, depth, maximizing, newMoves, i, bestValue, bestMove, posNum - p, pruneNum - q) == goal
      {
        board.DoMove(newMoves[i]);
        var miniMaxValue := MiniMax(!maximizing, depth - 1, nInfinity, pInfinity);
        board.UndoMove();
        if miniMaxValue >= bestValue {
          bestValue := miniMaxValue;
          bestMove := Some(newMoves[i]);
        }
      }
    }

    /** `makeComputerMove`: chooses the reply with a maximizing root search and plays it. */
    method MakeComputerMove(depth: nat) returns (reply: Option<Move>)
      requires depth >= 1
      modifies this, board
      ensures var t := RootSearch(board.rules, old(board.history), depth, true);
        && reply == t.move
        && board.history == old(board.history) + (if reply.Some? then [reply.value] else [])
        && posNum == old(posNum) + t.visited && pruneNum == old(pruneNum) + t.pruned
    {
      reply := RootMiniMax(true, depth);
      if reply.Some? {
        board.DoMove(reply.value);
      }
    }

    /** `eval`: resets the statistics, parses the player's text, and if it is
        a legal move, plays it and the computer's reply. */
    method Eval(input: string, depth: nat) returns (outcome: Outcome)
      requires depth >= 1 || !(Parse(input).SquarePair? && Parse(input).first.Some? && Parse(input).second.Some? &&
                               Move(Parse(input).first.value, Parse(input).second.value) in board.rules.legal(board.history))
      modifies this, board
      ensures !outcome.Played? ==> board.history == old(board.history) && posNum == 0 && pruneNum == 0
      ensures Parse(input).BadSquare? <==> outcome.Aborted?
      ensures outcome.Aborted? ==> Parse(input) == BadSquare(outcome.at)
      ensures Parse(input).Commands? <==> outcome.RanCommands?
      ensures outcome.RanCommands? ==> outcome.run == Parse(input).run
      ensures outcome.Played? ==>
        && Parse(input) == SquarePair(Some(outcome.human.from), Some(outcome.human.to))
        && outcome.human in board.rules.legal(old(board.history))
        && var h1 := old(board.history) + [outcome.human];
           && var t := RootSearch(board.rules, h1, depth, true);
              && outcome.reply == t.move
              && board.history == h1 + (if outcome.reply.Some? then [outcome.reply.value] else [])
              && posNum == t.visited && pruneNum == t.pruned
      ensures outcome.Rejected? <==>
        && Parse(input).SquarePair?
        && var p := Parse(input);
           (p.first.None? || p.second.None? || Move(p.first.value, p.second.value) !in board.rules.legal(old(board.history)))
    {
      var moves := board.LegalMoves();
      posNum := 0;
      pruneNum := 0;
      var parsed := ParseInput(input);
      match parsed
      case BadSquare(at) =>
        return Aborted(at);
      case Commands(run) =>
        return RanCommands(run);
      case SquarePair(first, second) =>
        if first.None? || second.None? {
          return Rejected;
        }
        var givenMove := Move(first.value, second.value);
        var isLegal := IsLegalMove(moves, givenMove);
        if !isLegal {
          return Rejected;
        }
        board.DoMove(givenMove);
        var reply := MakeComputerMove(depth);
        return Played(givenMove, reply);
    }
  }

  /** `pInfinity`, the value `(int) Double.POSITIVE_INFINITY`. */
  const pInfinity: i32 := MaxValue
  /** `nInfinity`, the value `(int) Double.NEGATIVE_INFINITY`. */
  const nInfinity: i32 := MinValue
}
