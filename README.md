# MiniChess evaluator, modelled in Dafny

MiniChess is a console chess program. Its `Evaluator` class is the computer
player. For each line the player types, `eval` does four things:

- it parses the line as either a list of `/commands` or a move given by two squares;
- it checks the move against the legal moves of the shared board;
- it plays the move;
- it answers with the computer's reply.

The reply comes from `rootMiniMax`. That is a root selector over `miniMax`,
a depth-bounded minimax search with alpha-beta pruning. The search scores
leaves with a material count, `getBoardValue`/`getPieceValue`. Two static
counters record how many positions were searched (`posNum`) and how many
cutoffs happened (`pruneNum`).

The model has seven modules:

- `Int32` — Java `int`: its range, wrap-around `+` and unary `-`, and `Math.max`/`Math.min`.
- `Options` — the optional value used for Java's `null`.
- `Pieces` — pieces, `getPieceValue`, and the unwrapped material sum. Lemmas show what 32-bit wrapping does to that sum: with both kings on the board the two `int` extremes add up to −1 instead of cancelling, and with one king only, when that king's side is ahead in material, the sum overflows to the opposite sign.
- `Chess` — the rules engine (chesslib) as the evaluator sees it:
  - squares, and `Square.valueOf`;
  - moves;
  - a `Rules` value giving the legal moves and square contents of any position;
  - the shared `Board` class, whose state is the stack of moves played from the start board. `doMove` pushes a move and `undoMove` pops one.
- `SearchSpec` — the search as values:
  - `Minimax`, the unpruned minimax value;
  - `Search`, the alpha-beta search as `miniMax` runs it, with its value and both counter increments;
  - `RootSearch`, the root loop.

  The lemmas tie these together:
  - fail-soft bounds, and exactness under the full window;
  - the counter bounds;
  - the root's choice: the last legal move of maximal minimax value, or `null` iff there is no legal move.
- `Parser` — `getParam`, `formatMove`, and `eval`'s parse loop:
  - `ParseInput` is the imperative loop;
  - `Parse` is the value it is proved to compute;
  - lemmas state what `Parse` yields on move text and on command text;
  - `IsIntLiteral` says when `Integer.parseInt` accepts `setDepth`'s parameter. A `setDepth` it rejects throws out of `eval`, so, like `exit`, it is the last command run.
- `Engine` — the `Evaluator` class:
  - the counters `posNum` and `pruneNum` are its fields;
  - `MiniMax`, `RootMiniMax`, `MakeComputerMove` and `Eval` are methods over the shared board.

  Each method is proved against the `SearchSpec` and `Parser` functions. Every method also leaves the board's move history as it found it, apart from the moves `eval` deliberately plays.

Two behaviours of the code differ from what a reader might expect, and the model follows the code:

- One might expect the counters to start from zero at every root search, so that one root search's counts never include another's. The code resets them only at the start of `eval` (Evaluator.java lines 28-29), not in `rootMiniMax`. `RootMiniMax` and `MakeComputerMove` therefore add to the counters they find.
- One might expect the two kings' weights to be symmetric and cancel, so that a board with both kings scores its other material exactly. In the code the weights `(int) Double.POSITIVE_INFINITY` and `(int) Double.NEGATIVE_INFINITY` are `Integer.MAX_VALUE` and `Integer.MIN_VALUE`. Their 32-bit sum is −1, so such a board scores its other material minus one (`Pieces.BothKingsMinusOne`).

The inputs that come from outside the class are parameters of the model:

- the legal-move generator and the board contents (the `Rules` value);
- the player's text;
- the search depth.

## Model

| member | source | states |
|---|---|---|
| Int32.Wrap | src/com/minichess/main/Evaluator.java:176 | the result is the unique `int` congruent to its argument modulo 2^32, and is the argument itself when that is in range |
| Int32.WrapAddLeft | src/com/minichess/main/Evaluator.java:174-177 | wrapping after every addition gives the same value as wrapping the exact sum once |
| Int32.Add | src/com/minichess/main/Evaluator.java:176 | Java `int` addition: exact in range, minus 2^32 on overflow, plus 2^32 on underflow |
| Int32.Neg | src/com/minichess/main/Evaluator.java:139 | Java unary minus: `-a`, except that `-MIN_VALUE` is `MIN_VALUE` |
| Int32.Max | src/com/minichess/main/Evaluator.java:146-148 | `Math.max` on two `int`s: the larger |
| Int32.Min | src/com/minichess/main/Evaluator.java:160-162 | `Math.min` on two `int`s: the smaller |
| Pieces.PieceValue | src/com/minichess/main/Evaluator.java:182-197 | zero for a null or `NONE` type; positive exactly for White pieces of a known type; negative exactly for the other side's; at most 1000 in size except for kings; a king scores `MAX_VALUE` for White and `MIN_VALUE` otherwise |
| Pieces.PieceValueMirror | src/com/minichess/main/Evaluator.java:189-194 | the two sides' weights for a type are opposite, except the kings', whose weights add up to −1 |
| Pieces.MaterialSplit | src/com/minichess/main/Evaluator.java:173-179 | the material sum is the non-king material plus `MAX_VALUE` per White king plus `MIN_VALUE` per other king |
| Pieces.BothKingsMinusOne | src/com/minichess/main/Evaluator.java:26-27 | with one king per side, the 32-bit board value is the non-king material minus one |
| Pieces.LoneWhiteKingWraps | src/com/minichess/main/Evaluator.java:174-177 | with only White's king and White ahead in material, the 32-bit sum overflows to a negative value |
| Pieces.LoneBlackKingWraps | src/com/minichess/main/Evaluator.java:174-177 | with only the other side's king and that side ahead, the sum underflows to a positive value |
| Chess.SquareOf | src/com/minichess/main/Evaluator.java:83 | on two-character text, which is all `formatMove` produces, `Square.valueOf` succeeds exactly on a file letter `A`–`H` followed by a rank digit `1`–`8`, and the square's name is the text |
| Chess.SquareNameRoundTrip | src/com/minichess/main/Evaluator.java:83 | every square is found again from its name |
| Chess.Board.DoMove | src/com/minichess/main/Evaluator.java:99 | playing a move pushes it on the history |
| Chess.Board.UndoMove | src/com/minichess/main/Evaluator.java:126 | undoing pops the last move |
| Engine.GetBoardValue | src/com/minichess/main/Evaluator.java:173-179 | the loop's result is the 32-bit wrap of the exact sum of the piece values |
| SearchSpec.Leaf | src/com/minichess/main/Evaluator.java:138-139 | the score at the horizon is the negated 32-bit board value, which is exactly the negated material when the sum neither overflows nor equals `MIN_VALUE` |
| SearchSpec.Search | src/com/minichess/main/Evaluator.java:136-170 | the definition of `miniMax`'s result and of what it adds to both counters: one call, the leaf score at depth 0, otherwise the loop over the legal moves (its properties are the lemmas below) |
| SearchSpec.SearchMoves | src/com/minichess/main/Evaluator.java:141-169 | the definition of `miniMax`'s loop: each child searched with the current window, the running best and the window narrowed with `Math.max`/`Math.min`, and a stop with one more cutoff at the first `beta <= alpha` |
| SearchSpec.SearchBaseCases | src/com/minichess/main/Evaluator.java:137-142 | at depth 0 the result is the negated board value for any window and side; with no legal move it is `MIN_VALUE` when maximizing and `MAX_VALUE` when minimizing; each is counted as one call with no cutoff |
| SearchSpec.SearchFailSoft | src/com/minichess/main/Evaluator.java:136-170 | for `alpha < beta` and true minimax value v: if v ≤ alpha the result lies in [v, alpha]; if v ≥ beta it lies in [beta, v]; otherwise it is v |
| SearchSpec.FullWindowExact | src/com/minichess/main/Evaluator.java:125 | searched with the window (`MIN_VALUE`, `MAX_VALUE`), alpha-beta returns the unpruned minimax value |
| SearchSpec.MinimaxMovesAtLeast | src/com/minichess/main/Evaluator.java:146-160 | folding more children into a node's running best never makes it worse for that node's side |
| SearchSpec.PrunedBelowVisited | src/com/minichess/main/Evaluator.java:137-165 | every search makes at least one call and records fewer cutoffs than calls |
| SearchSpec.VisitedWithinTree | src/com/minichess/main/Evaluator.java:137-168 | the calls never exceed the size of the complete game tree, and equal it when no cutoff happens |
| Engine.Evaluator.MiniMax | src/com/minichess/main/Evaluator.java:136-170 | the method returns `Search`'s value, adds `Search`'s call and cutoff counts to `posNum` and `pruneNum`, and leaves the board's history as it found it |
| SearchSpec.LastArgMaxSpec | src/com/minichess/main/Evaluator.java:122-131 | the `>=` fold from `MIN_VALUE` finds no index iff the list is empty; otherwise it finds an index of a maximal value with every later value strictly smaller |
| SearchSpec.RootScan | src/com/minichess/main/Evaluator.java:122-131 | the definition of `rootMiniMax`'s loop: each child searched with the full window, and a child whose value is `>=` the best so far taking over (its properties are the lemmas below) |
| SearchSpec.RootSearch | src/com/minichess/main/Evaluator.java:119-133 | the definition of `rootMiniMax`'s result and counts, that loop run from `MIN_VALUE` and `null` over the legal moves |
| SearchSpec.RootScanPicksLastArgMax | src/com/minichess/main/Evaluator.java:123-131 | the root loop's move is the one at the index that the fold over the children's full-window values finds |
| SearchSpec.RootMoveSpec | src/com/minichess/main/Evaluator.java:119-133 | the root returns `null` iff there is no legal move; otherwise it returns a legal move whose child has the largest minimax value, and it is the last such move in enumeration order |
| SearchSpec.RootCounts | src/com/minichess/main/Evaluator.java:123-126 | a root search makes at least one more call than it records cutoffs per legal move; at depth 1 it makes exactly one call per legal move and no cutoff |
| Engine.Evaluator.RootMiniMax | src/com/minichess/main/Evaluator.java:119-133 | the method returns `RootSearch`'s move, adds its counts to the counters, and leaves the history unchanged |
| Engine.Evaluator.MakeComputerMove | src/com/minichess/main/Evaluator.java:104-107 | the reply is the root's choice for the maximizing side; it is pushed on the history when there is one; the counters grow by the root's counts |
| Engine.IsLegalMove | src/com/minichess/main/Evaluator.java:92-94 | the result is true iff the given move is in the legal-move list |
| Parser.RemoveSpaces | src/com/minichess/main/Evaluator.java:204-205 | the result is no longer than the text and holds exactly the text's characters other than space |
| Parser.RemoveSpacesAppend | src/com/minichess/main/Evaluator.java:204-205 | removing spaces distributes over concatenation |
| Parser.LineEnd | src/com/minichess/main/Evaluator.java:203 | the result is the first newline at or after the start, or the length when there is none |
| Parser.Param | src/com/minichess/main/Evaluator.java:200-208 | the closed form of `getParam`: the characters after `index` up to the first newline, without spaces, so neither a space nor a newline is in it |
| Parser.GetParam | src/com/minichess/main/Evaluator.java:200-208 | the loop returns the characters after `index` up to the first newline, with spaces removed, so the result holds no space and no newline |
| Parser.ParamPlain | src/com/minichess/main/Evaluator.java:200-208 | on a single line without spaces, the parameter is the rest of the text |
| Parser.FormatMove | src/com/minichess/main/Evaluator.java:210-213 | the result has two characters; it names a square exactly when the upper-cased first character is a file and the second is a rank, and then it names that square |
| Parser.FormatMoveEitherCase | src/com/minichess/main/Evaluator.java:210-213 | a file letter in either case followed by a rank digit is read as that square |
| Parser.CommandOf | src/com/minichess/main/Evaluator.java:45-80 | the `switch (token)`: a command is selected only by its own `case` label, and carries `getParam`'s result as its parameter when it takes one |
| Parser.CommandOfName | src/com/minichess/main/Evaluator.java:45-80 | conversely, every command's label selects that command, with its own parameter |
| Parser.Scan | src/com/minichess/main/Evaluator.java:37-88 | the definition of the parse loop from a given index and state; an abort names a letter at or after that index |
| Parser.Parse | src/com/minichess/main/Evaluator.java:30-88 | the parse loop from its initial variables; an abort names the letter where reading a square failed |
| Parser.ParseInput | src/com/minichess/main/Evaluator.java:30-88 | the parse loop computes `Parse`: the commands triggered, the two squares read, or the index of the letter whose square could not be read |
| Parser.TokenIrrelevant | src/com/minichess/main/Evaluator.java:38-45 | outside a command line the token never affects the result, because a `/` clears it before any command is matched |
| Parser.SkipNonLetters | src/com/minichess/main/Evaluator.java:81-85 | outside a command line, characters that are neither letters nor `/` leave the parse unchanged |
| Parser.ReadSquare | src/com/minichess/main/Evaluator.java:82-84 | outside a command line, a file letter in either case followed by a rank digit fills the next of the two squares, alternating first and second |
| Parser.MoveTextParses | src/com/minichess/main/Evaluator.java:81-89 | two square names, with any separator and any trailing text free of letters and `/` (`e2e4`, `e2 e4`, `E2-E4`, a trailing newline), give exactly those two squares |
| Parser.IsIntLiteral | src/com/minichess/main/Evaluator.java:48 | the definition of when `Integer.parseInt` returns: an optional sign, then at least one decimal digit, with a value in the `int` range |
| Parser.EndsEval | src/com/minichess/main/Evaluator.java:48-49 | the commands after which `eval` goes no further: `exit`, and a `setDepth` whose parameter `parseInt` rejects |
| Parser.IntLiteralDigits | src/com/minichess/main/Evaluator.java:48 | for any digits, unsigned or with `+`, `parseInt` succeeds iff the value is at most `MAX_VALUE`; with `-`, iff it is at most 2^31 |
| Parser.ShortLiteralsRead | src/com/minichess/main/Evaluator.java:48 | any text of one to nine digits, with or without a sign, is accepted |
| Parser.IntLiteralMax | src/com/minichess/main/Evaluator.java:48 | `parseInt` accepts `2147483647` and rejects `2147483648` |
| Parser.IntLiteralMin | src/com/minichess/main/Evaluator.java:48 | `parseInt` accepts `-2147483648`, although it rejects `2147483648`, and rejects `-2147483649` |
| Parser.IntLiteralSyntax | src/com/minichess/main/Evaluator.java:48 | `parseInt` accepts a leading `+`, and rejects a lone sign, the empty text and a trailing letter |
| Parser.OnlyLastCommandEnds | src/com/minichess/main/Evaluator.java:43-49 | from any state whose commands so far all let `eval` go on, only the last command of a command line's result can be `exit` or a `setDepth` that throws |
| Parser.CommandsEndAtMostOnce | src/com/minichess/main/Evaluator.java:43-49 | in a parsed command line, every command except possibly the last is neither `exit` nor a `setDepth` whose parameter `parseInt` rejects |
| Parser.SquaresMeanNoSlash | src/com/minichess/main/Evaluator.java:37-88 | when the result is a pair of squares, the text holds no `/` |
| Parser.SlashFirstIsCommand | src/com/minichess/main/Evaluator.java:37-88 | text that opens with `/` is a command line, whatever follows |
| Parser.CommandLineStaysCommand | src/com/minichess/main/Evaluator.java:39-88 | once a `/` is read, the remaining text cannot turn the line back into a move |
| Parser.TrailingLetterIsBad | src/com/minichess/main/Evaluator.java:82-84 | in move text, a letter in last place has no rank after it, so the parse ends in `BadSquare`: at that letter, where `formatMove` reads past the end, or at an earlier letter that does not start a square |
| Engine.Evaluator.Eval | src/com/minichess/main/Evaluator.java:20-101 | `eval` resets both counters. Bad square text aborts, at the index the parse names, with no move played. A command line runs its commands with no move played, up to and including the first that stops `eval`. Move text is rejected, with no move played, iff a square is missing or the move is not legal. Otherwise the player's legal move is pushed, then the root's reply, and the counters hold the root search's counts. |

## Left out

- Console output and ANSI escape codes: they are I/O, and no state depends on them.
- The side effects of the commands. `printBoard`, `save` with its file I/O, and the assignment to `MiniChess.depth` act on the `MiniChess` class, which is not part of this model; `System.exit` ends the whole program; `load` is described below. The model records which commands were triggered, and with which parameters. The list ends at `exit`, because the program stops there. It also ends at a `setDepth` whose parameter `Integer.parseInt` rejects, because the `NumberFormatException` leaves `eval`; that outcome is written as the command list ending in that `setDepth`, not as an exception.
- Engine.Evaluator.Eval: a successful `/load` replaces the shared board's position with the one in the file. The model keeps the move history unchanged for every command line, so `Eval`'s contract does not describe the board after a `/load`.
- `Integer.parseInt` is modelled on ASCII digits only. The non-ASCII decimal digits that `Character.digit` also accepts are not modelled.
- A move text with a missing square gives `Rejected`. The code builds `new Move(null, …)` and compares it with each legal move, and that comparison is taken to be false; whether chesslib's `Move.equals` would throw on a `null` square instead is not modelled.
- chesslib's internals: move generation, board contents, `doMove`/`undoMove`, `Square.valueOf` and `Move.equals` are not modelled in detail.
  - Legal moves and square contents are opaque functions of the move history.
  - Moves are equal iff their squares are equal. Promotion data is not modelled.
  - `MoveGeneratorException` is taken never to be thrown.
- Exceptions are not modelled as exceptions. The parse loop's three are represented as outcomes:
  - reading past the end in `formatMove`, and `Square.valueOf` on text that is not a square, become the `Aborted` outcome, at the letter being read;
  - `Integer.parseInt`'s `NumberFormatException` in `setDepth` becomes the command list ending in that `setDepth`, as described above.
- `makeComputerMove` calls `doMove(null)` when there is no reply. The model gives `Played(_, None)` and plays nothing; what chesslib's `doMove` does with `null` is not modelled.
- `Square.valueOf` is modelled on two-character text only, which is all `formatMove` produces; the longer name `NONE`, which it also accepts, never reaches it.
- `Character.isAlphabetic` and `Character.toUpperCase` are modelled on the ASCII letters only. Unicode letters outside ASCII are not modelled.
- `Double`-to-`int` casts: `(int) Double.POSITIVE_INFINITY` and `(int) Double.NEGATIVE_INFINITY` are written as the constants `MAX_VALUE` and `MIN_VALUE`, not through floating point. The model takes `pInfinity`/`nInfinity` as set; the code sets them at the start of `eval`, before any search.
- Engine.Evaluator.RootMiniMax, Engine.Evaluator.MakeComputerMove: these require `depth >= 1`. Engine.Evaluator.Eval requires it only when the text names two squares that form a legal move, the one case that searches. With `setDepth` at zero or below, the Java search starts below depth 0. It can then never reach its depth-0 case and recurses until it runs out of moves or stack. That case is not modelled.
- Engine.Evaluator.MiniMax: the counters `posNum`/`pruneNum` are unbounded naturals. Their 32-bit overflow, after more than 2^31 positions in one call of `eval`, is not modelled.
- `makeComputerMove`'s bookkeeping: the unused regeneration of `moves` and `MiniChess.move++` belong to the caller's state, which is not part of this model.
- Engine.Evaluator.MiniMax: its contract is the correspondence with `Search`, on all inputs. The fail-soft bounds, the base cases and the counter bounds are stated once, as lemmas about `Search` (`SearchFailSoft`, `SearchBaseCases`, `PrunedBelowVisited`, `VisitedWithinTree`), rather than repeated in the method's contract.
