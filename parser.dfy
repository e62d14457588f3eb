/** The input parsing of `eval`: `getParam`, `formatMove`, and the loop that
    reads either a command or the two squares of a move from the player's text. */
module Parser {
  import opened Int32
  import opened Options
  import opened Chess

  /** `Character.isAlphabetic`, on the ASCII letters. */
  predicate IsLetter(c: char) {
    'a' <= c <= 'z' || 'A' <= c <= 'Z'
  }

  /** `Character.toUpperCase`, on the ASCII letters. */
  function ToUpper(c: char): char {
    if 'a' <= c <= 'z' then (c as int - 32) as char else c
  }

  // ---------------------------------------------------------------------------
  // getParam

  /** `s` without its spaces. */
  function RemoveSpaces(s: string): (res: string)
    ensures |res| <= |s|
    ensures forall c :: c in res <==> c in s && c != ' '
  {
    if s == [] then []
    else RemoveSpaces(s[..|s| - 1]) + (if s[|s| - 1] == ' ' then [] else [s[|s| - 1]])
  }

  /** Removing spaces distributes over concatenation. */
  lemma {:induction false} RemoveSpacesAppend(s: string, t: string)
    ensures RemoveSpaces(s + t) == RemoveSpaces(s) + RemoveSpaces(t)
    decreases |t|
  {
    if t == [] {
      assert s + t == s;
    } else {
      var t' := t[..|t| - 1];
      assert (s + t)[..|s + t| - 1] == s + t';
      RemoveSpacesAppend(s, t');
    }
  }

  /** Text without spaces is left as it is. */
  lemma {:induction false} RemoveSpacesNone(s: string)
    requires ' ' !in s
    ensures RemoveSpaces(s) == s
  {
    if s != [] {
      assert ' ' !in s[..|s| - 1];
      RemoveSpacesNone(s[..|s| - 1]);
    }
  }

  /** The index of the first newline at or after `from`, or the length. */
  function LineEnd(chars: string, from: nat): (e: nat)
    requires from <= |chars|
    ensures from <= e <= |chars|
    ensures forall k :: from <= k < e ==> chars[k] != '\n'
    ensures e < |chars| ==> chars[e] == '\n'
    decreases |chars| - from
  {
    if from == |chars| || chars[from] == '\n' then from else LineEnd(chars, from + 1)
  }

  /** What `getParam(chars, index)` returns: the characters after `index`
      up to the first newline, without spaces. */
  function Param(chars: string, index: int): (r: string)
    requires index >= -1
    ensures ' ' !in r && '\n' !in r
  {
    if index + 1 >= |chars| then [] else RemoveSpaces(chars[index + 1..LineEnd(chars, index + 1)])
  }

  /** `getParam`. */
  method GetParam(chars: string, index: int) returns (command: string)
    requires index >= -1
    ensures command == Param(chars, index)
    ensures ' ' !in command && '\n' !in command
  {
    command := "";
    if index + 1 >= |chars| {
      return;
    }
    var from: nat := index + 1;
    var i := from;
    while i < |chars|
      invariant from <= i <= |chars|
      invariant forall k :: from <= k < i ==> chars[k] != '\n'
      invariant command == RemoveSpaces(chars[from..i])
    {
      if chars[i] == '\n' {
        break;
      } else if chars[i] != ' ' {
        command := command + [chars[i]];
      }
      ghost var done := chars[from..i + 1];
      assert done[..|done| - 1] == chars[from..i] && done[|done| - 1] == chars[i];
      i := i + 1;
    }
    LineEndUnique(chars, from, i);
  }

  /** The first newline is determined by the text. */
  lemma {:induction false} LineEndUnique(chars: string, from: nat, e: nat)
    requires from <= e <= |chars|
    requires forall k :: from <= k < e ==> chars[k] != '\n'
    requires e < |chars| ==> chars[e] == '\n'
    ensures LineEnd(chars, from) == e
    decreases e - from
  {
    if from < e {
      LineEndUnique(chars, from + 1, e);
    }
  }

  /** On one line without spaces, the parameter is the rest of the text. */
  lemma ParamPlain(chars: string, index: int)
    requires -1 <= index < |chars|
    requires forall k :: index < k < |chars| ==> chars[k] != ' ' && chars[k] != '\n'
    ensures Param(chars, index) == chars[index + 1..]
  {
    if index + 1 < |chars| {
      LineEndUnique(chars, index + 1, |chars|);
      var rest := chars[index + 1..];
      assert chars[index + 1..LineEnd(chars, index + 1)] == rest;
      assert forall k :: 0 <= k < |rest| ==> rest[k] == chars[index + 1 + k];
      assert ' ' !in rest;
      RemoveSpacesNone(rest);
    }
  }

  // ---------------------------------------------------------------------------
  // formatMove and the squares of a move

  /** `formatMove(chars, index)`: the two characters at `index`, upper-cased. */
  function FormatMove(chars: string, index: int): (name: string)
    requires 0 <= index && index + 1 < |chars|
    ensures |name| == 2
    ensures SquareOf(name).Some? <==> IsFile(ToUpper(chars[index])) && IsRank(chars[index + 1])
    ensures SquareOf(name).Some? ==> SquareOf(name).value == Square(ToUpper(chars[index]), chars[index + 1])
  {
    [ToUpper(chars[index]), ToUpper(chars[index + 1])]
  }

  /** A file letter in either case followed by a rank digit names that square. */
  lemma FormatMoveEitherCase(chars: string, index: int)
    requires 0 <= index && index + 1 < |chars|
    requires 'a' <= chars[index] <= 'h' || 'A' <= chars[index] <= 'H'
    requires IsRank(chars[index + 1])
    ensures SquareOf(FormatMove(chars, index)) == Some(Square(ToUpper(chars[index]), chars[index + 1]))
    ensures IsFile(ToUpper(chars[index]))
  {
  }

  // ---------------------------------------------------------------------------
  // The parse loop of eval

  datatype Command = PrintBoard | SetDepth(depth: string) | Exit | Save(file: string) | Load(file: string) | Version | Cmds

  /** The value of a string of decimal digits. */
  function DigitsValue(ds: string): int {
    if ds == [] then 0 else DigitsValue(ds[..|ds| - 1]) * 10 + (ds[|ds| - 1] as int - '0' as int)
  }

  /** The text without its leading sign, if it has one. */
  function Unsigned(s: string): string {
    if |s| > 0 && (s[0] == '-' || s[0] == '+') then s[1..] else s
  }

  /** `Integer.parseInt(s)` returns rather than throwing `NumberFormatException`:
      an optional sign, then at least one decimal digit, with a value in the `int` range. */
  predicate IsIntLiteral(s: string) {
    var digits := Unsigned(s);
    && |digits| > 0
    && AllDigits(digits)
    && (if |s| > 0 && s[0] == '-' then -DigitsValue(digits) >= MinValue else DigitsValue(digits) <= MaxValue)
  }

  /** The decimal values of the texts just inside and outside the `int` range. */
  lemma DigitsValueNearLimit()
    ensures DigitsValue("2147483647") == 2147483647
    ensures DigitsValue("2147483648") == 2147483648
    ensures DigitsValue("2147483649") == 2147483649
  {
    assert DigitsValue("2") == 2;
    assert "2" + "1" == "21";
    assert DigitsValue("21") == 21;
    assert "21" + "4" == "214";
    assert DigitsValue("214") == 214;
    assert "214" + "7" == "2147";
    assert DigitsValue("2147") == 2147;
    assert "2147" + "4" == "21474";
    assert DigitsValue("21474") == 21474;
    assert "21474" + "8" == "214748";
    assert DigitsValue("214748") == 214748;
    assert "214748" + "3" == "2147483";
    assert DigitsValue("2147483") == 2147483;
    assert "2147483" + "6" == "21474836";
    assert DigitsValue("21474836") == 21474836;
    assert "21474836" + "4" == "214748364";
    assert DigitsValue("214748364") == 214748364;
    assert "214748364" + "7" == "2147483647";
    assert DigitsValue("2147483647") == 2147483647;
    assert "214748364" + "8" == "2147483648";
    assert DigitsValue("2147483648") == 2147483648;
    assert "214748364" + "9" == "2147483649";
    assert DigitsValue("2147483649") == 2147483649;
  }

  /** `"2147483647"` is read; `"2147483648"` is not. */
  lemma IntLiteralMax()
    ensures IsIntLiteral("2147483647") && !IsIntLiteral("2147483648")
  {
    DigitsValueNearLimit();
    assert Unsigned("2147483647") == "2147483647";
    assert Unsigned("2147483648") == "2147483648";
  }

  /** `"-2147483648"` is read, although its magnitude alone is out of range;
      `"-2147483649"` is not. */
  lemma IntLiteralMin()
    ensures IsIntLiteral("-2147483648")
    ensures !IsIntLiteral("2147483648") && !IsIntLiteral("-2147483649")
  {
    DigitsValueNearLimit();
    assert Unsigned("-2147483648") == "2147483648";
    assert Unsigned("2147483648") == "2147483648";
    assert Unsigned("-2147483649") == "2147483649";
  }

  /** A leading `+` is allowed; a lone sign, the empty text and a trailing letter are not. */
  lemma IntLiteralSyntax()
    ensures IsIntLiteral("+7")
    ensures !IsIntLiteral("-") && !IsIntLiteral("")
    ensures !IsIntLiteral("4a")
  {
    assert "+7"[1..] == "7";
    assert DigitsValue("7") == 7;
    assert "-"[1..] == "";
    assert Unsigned("4a") == "4a";
    assert !('0' <= "4a"[1] <= '9');
  }

  /** Text made of decimal digits only. */
  predicate AllDigits(ds: string) {
    forall k :: 0 <= k < |ds| ==> '0' <= ds[k] <= '9'
  }

  function Pow10(n: nat): nat {
    if n == 0 then 1 else 10 * Pow10(n - 1)
  }

  lemma {:induction false} Pow10Monotone(n: nat, m: nat)
    requires n <= m
    ensures Pow10(n) <= Pow10(m)
    decreases m
  {
    if n < m {
      Pow10Monotone(n, m - 1);
    }
  }

  /** `n` decimal digits have a value below `10^n`. */
  lemma {:induction false} DigitsValueBound(ds: string)
    requires AllDigits(ds)
    ensures 0 <= DigitsValue(ds) < Pow10(|ds|)
    decreases |ds|
  {
    if ds != [] {
      var init := ds[..|ds| - 1];
      assert AllDigits(init) by {
        assert forall k :: 0 <= k < |init| ==> init[k] == ds[k];
      }
      DigitsValueBound(init);
    }
  }

  /** On digits, with or without a sign, `parseInt` succeeds exactly when the
      value is in range; the negative range reaches one further. */
  lemma IntLiteralDigits(ds: string)
    requires |ds| > 0 && AllDigits(ds)
    ensures IsIntLiteral(ds) <==> DigitsValue(ds) <= MaxValue
    ensures IsIntLiteral("+" + ds) <==> DigitsValue(ds) <= MaxValue
    ensures IsIntLiteral("-" + ds) <==> DigitsValue(ds) <= -MinValue
  {
    assert Unsigned(ds) == ds;
    assert Unsigned("+" + ds) == ds;
    assert Unsigned("-" + ds) == ds;
  }

  /** Every text of one to nine digits, with or without a sign, is an `int`. */
  lemma ShortLiteralsRead(ds: string)
    requires 1 <= |ds| <= 9 && AllDigits(ds)
    ensures IsIntLiteral(ds) && IsIntLiteral("+" + ds) && IsIntLiteral("-" + ds)
  {
    DigitsValueBound(ds);
    Pow10Monotone(|ds|, 9);
    assert Pow10(9) == 1000000000 by {
      assert Pow10(3) == 1000;
      assert Pow10(6) == 1000000;
    }
    IntLiteralDigits(ds);
  }

  /** The commands after which `eval` does not go on: `exit` stops the
      program, and a `setDepth` whose parameter is not an `int` throws. */
  predicate EndsEval(cmd: Command) {
    cmd == Exit || (cmd.SetDepth? && !IsIntLiteral(cmd.depth))
  }

  /** The `case` label of each command. */
  function Name(cmd: Command): string {
    match cmd
    case PrintBoard => "printBoard"
    case SetDepth(_) => "setDepth"
    case Exit => "exit"
    case Save(_) => "save"
    case Load(_) => "load"
    case Version => "version"
    case Cmds => "cmds"
  }

  /** The command carries `param` if it takes a parameter at all. */
  predicate Carries(cmd: Command, param: string) {
    match cmd
    case SetDepth(d) => d == param
    case Save(f) => f == param
    case Load(f) => f == param
    case _ => true
  }

  /** The command `switch (token)` selects, with `getParam`'s result: a
      command is selected only by its own label, and carries the parameter. */
  function CommandOf(token: string, param: string): (r: Option<Command>)
    ensures r.Some? ==> Name(r.value) == token && Carries(r.value, param)
  {
    if token == "printBoard" then Some(PrintBoard)
    else if token == "setDepth" then Some(SetDepth(param))
    else if token == "exit" then Some(Exit)
    else if token == "save" then Some(Save(param))
    else if token == "load" then Some(Load(param))
    else if token == "version" then Some(Version)
    else if token == "cmds" then Some(Cmds)
    else None
  }

  /** Every command is selected by its label, with its own parameter. */
  lemma CommandOfName(cmd: Command, param: string)
    requires Carries(cmd, param)
    ensures CommandOf(Name(cmd), param) == Some(cmd)
  {
  }

  /** What the loop leaves behind:
      - `Commands`: the input held a `/`; the commands recognised, in order;
        when the last one `EndsEval`, the loop stopped there;
      - `SquarePair`: no `/`; `squares[0]` and `squares[1]`, `None` where never set;
      - `BadSquare(i)`: the letter at `i` could not be read as a square, where
        `formatMove` reads past the end or `Square.valueOf` throws. */
  datatype Parsed = Commands(run: seq<Command>) | SquarePair(first: Option<Square>, second: Option<Square>) | BadSquare(at: nat)

  /** The loop's variables between iterations. */
  datatype ScanState = ScanState(token: string, isCommand: bool, nextSquare: bool,
                                 first: Option<Square>, second: Option<Square>, run: seq<Command>)

  const Start := ScanState("", false, false, None, None, [])

  /** The parse loop from index `i` on, with the variables in `st`. */
  function Scan(input: string, i: nat, st: ScanState): (p: Parsed)
    requires i <= |input|
    ensures p.BadSquare? ==> i <= p.at < |input| && IsLetter(input[p.at])
    decreases |input| - i
  {
    if i == |input| then
      if st.isCommand then Commands(st.run) else SquarePair(st.first, st.second)
    else
      var c := input[i];
      var token := if c == '/' then "" else st.token + [c];
      if st.isCommand || c == '/' then
        match CommandOf(token, Param(input, i))
        case Some(cmd) =>
          if EndsEval(cmd) then Commands(st.run + [cmd])
          else Scan(input, i + 1, st.(token := token, isCommand := true, run := st.run + [cmd]))
        case None => Scan(input, i + 1, st.(token := token, isCommand := true))
      else if IsLetter(c) then
        if i + 1 < |input| then
          match SquareOf(FormatMove(input, i))
          case None => BadSquare(i)
          case Some(sq) =>
            Scan(input, i + 1, if st.nextSquare then st.(token := token, second := Some(sq), nextSquare := false)
                               else st.(token := token, first := Some(sq), nextSquare := true))
        else BadSquare(i)
      else Scan(input, i + 1, st.(token := token))
  }

  /** The whole parse loop; an abort names the letter where reading a square failed. */
  function Parse(input: string): (p: Parsed)
    ensures p.BadSquare? ==> p.at < |input| && IsLetter(input[p.at])
  {
    Scan(input, 0, Start)
  }

  /** The parse loop of `eval` (its lines that are not output or command side effects). */
  method ParseInput(input: string) returns (p: Parsed)
    ensures p == Parse(input)
  {
    var token := "";
    var isCommand := false;
    var nextSquare := false;
    var squares := new Option<Square>[2](_ => None);
    var run: seq<Command> := [];
    for i := 0 to |input|
      invariant Scan(input, i, ScanState(token, isCommand, nextSquare, squares[0], squares[1], run)) == Parse(input)
    {
      ghost var st := ScanState(token, isCommand, nextSquare, squares[0], squares[1], run);
      token := token + [input[i]];
      if input[i] == '/' {
        isCommand := true;
        token := "";
      }
      if isCommand {
        var param := GetParam(input, i);
        var cmd := CommandOf(token, param);
        if cmd.Some? {
          if EndsEval(cmd.value) {
            return Commands(run + [cmd.value]);
          }
          run := run + [cmd.value];
        }
        assert Scan(input, i, st) == Scan(input, i + 1, ScanState(token, true, nextSquare, squares[0], squares[1], run));
      } else {
        if IsLetter(input[i]) {
          if i + 1 >= |input| {
            return BadSquare(i);
          }
          var sq := SquareOf(FormatMove(input, i));
          if sq.None? {
            return BadSquare(i);
          }
          squares[if nextSquare then 1 else 0] := sq;
          nextSquare := !nextSquare;
        }
        assert Scan(input, i, st) == Scan(input, i + 1, ScanState(token, false, nextSquare, squares[0], squares[1], run));
      }
    }
    if isCommand {
      return Commands(run);
    }
    return SquarePair(squares[0], squares[1]);
  }

  /** Outside a command line the token is never read: the result does not depend on it. */
  lemma {:induction false} TokenIrrelevant(input: string, i: nat, st: ScanState, t: string)
    requires i <= |input| && !st.isCommand
    ensures Scan(input, i, st) == Scan(input, i, st.(token := t))
    decreases |input| - i
  {
    if i < |input| {
      var c := input[i];
      if c != '/' && IsLetter(c) && i + 1 < |input| {
        match SquareOf(FormatMove(input, i))
        case None =>
        case Some(sq) =>
          var next := if st.nextSquare then st.(second := Some(sq), nextSquare := false)
                      else st.(first := Some(sq), nextSquare := true);
          TokenIrrelevant(input, i + 1, next.(token := st.token + [c]), t + [c]);
      } else if c != '/' && !IsLetter(c) {
        TokenIrrelevant(input, i + 1, st.(token := st.token + [c]), t + [c]);
      }
    }
  }

  /** Outside a command line, characters that are neither letters nor `/` are skipped. */
  lemma {:induction false} SkipNonLetters(input: string, i: nat, j: nat, st: ScanState)
    requires i <= j <= |input| && !st.isCommand
    requires forall k :: i <= k < j ==> !IsLetter(input[k]) && input[k] != '/'
    ensures Scan(input, i, st) == Scan(input, j, st)
    decreases j - i
  {
    if i < j {
      TokenIrrelevant(input, i + 1, st.(token := st.token + [input[i]]), st.token);
      SkipNonLetters(input, i + 1, j, st);
    }
  }

  /** Outside a command line, a file letter in either case and a rank digit
      fill the next of the two squares. */
  lemma ReadSquare(input: string, i: nat, st: ScanState)
    requires i + 1 < |input| && !st.isCommand
    requires 'a' <= input[i] <= 'h' || 'A' <= input[i] <= 'H'
    requires IsRank(input[i + 1])
    ensures var sq := Square(ToUpper(input[i]), input[i + 1]);
      Scan(input, i, st) == Scan(input, i + 2, if st.nextSquare then st.(second := Some(sq), nextSquare := false)
                                               else st.(first := Some(sq), nextSquare := true))
  {
    FormatMoveEitherCase(input, i);
    var sq := Square(ToUpper(input[i]), input[i + 1]);
    var next := if st.nextSquare then st.(second := Some(sq), nextSquare := false)
                else st.(first := Some(sq), nextSquare := true);
    assert Scan(input, i, st) == Scan(input, i + 1, next.(token := st.token + [input[i]]));
    TokenIrrelevant(input, i + 1, next.(token := st.token + [input[i]]), next.token);
    SkipNonLetters(input, i + 1, i + 2, next);
  }

  /** A move text: two square names (file letter in either case, rank digit),
      separated and followed by anything without letters and `/`, such as
      "e2e4", "e2 e4", "E2-E4" or "e2e4\n", gives exactly those two squares. */
  lemma MoveTextParses(a: string, sep: string, b: string, tail: string)
    requires |a| == 2 && ('a' <= a[0] <= 'h' || 'A' <= a[0] <= 'H') && IsRank(a[1])
    requires |b| == 2 && ('a' <= b[0] <= 'h' || 'A' <= b[0] <= 'H') && IsRank(b[1])
    requires forall k :: 0 <= k < |sep| ==> !IsLetter(sep[k]) && sep[k] != '/'
    requires forall k :: 0 <= k < |tail| ==> !IsLetter(tail[k]) && tail[k] != '/'
    ensures Parse(a + sep + b + tail) == SquarePair(Some(Square(ToUpper(a[0]), a[1])), Some(Square(ToUpper(b[0]), b[1])))
  {
    var input := a + sep + b + tail;
    var n := |sep|;
    assert input[0] == a[0] && input[1] == a[1];
    assert input[n + 2] == b[0] && input[n + 3] == b[1];
    assert forall k :: 2 <= k < n + 2 ==> input[k] == sep[k - 2];
    assert forall k :: n + 4 <= k < |input| ==> input[k] == tail[k - n - 4];
    var sqa, sqb := Square(ToUpper(a[0]), a[1]), Square(ToUpper(b[0]), b[1]);
    var st1 := Start.(first := Some(sqa), nextSquare := true);
    var st2 := st1.(second := Some(sqb), nextSquare := false);
    ReadSquare(input, 0, Start);
    SkipNonLetters(input, 2, n + 2, st1);
    ReadSquare(input, n + 2, st1);
    SkipNonLetters(input, n + 4, |input|, st2);
  }

  /** No command of the run ends `eval`. */
  predicate AllGoOn(run: seq<Command>) {
    forall k :: 0 <= k < |run| ==> !EndsEval(run[k])
  }

  /** No command of the run, except possibly the last, ends `eval`. */
  predicate OnlyLastMayEnd(run: seq<Command>) {
    forall k :: 0 <= k < |run| - 1 ==> !EndsEval(run[k])
  }

  /** In a command line's result, only the last command can be one that ends `eval`. */
  lemma {:induction false} OnlyLastCommandEnds(input: string, i: nat, st: ScanState)
    requires i <= |input|
    requires AllGoOn(st.run)
    ensures Scan(input, i, st).Commands? ==> OnlyLastMayEnd(Scan(input, i, st).run)
    decreases |input| - i
  {
    if i < |input| {
      var c := input[i];
      var token := if c == '/' then "" else st.token + [c];
      if st.isCommand || c == '/' {
        match CommandOf(token, Param(input, i))
        case Some(cmd) =>
          var run := st.run + [cmd];
          assert forall k :: 0 <= k < |st.run| ==> run[k] == st.run[k];
          if !EndsEval(cmd) {
            OnlyLastCommandEnds(input, i + 1, st.(token := token, isCommand := true, run := run));
          }
        case None =>
          OnlyLastCommandEnds(input, i + 1, st.(token := token, isCommand := true));
      } else if IsLetter(c) {
        if i + 1 < |input| {
          match SquareOf(FormatMove(input, i))
          case None =>
          case Some(sq) =>
            OnlyLastCommandEnds(input, i + 1, if st.nextSquare then st.(token := token, second := Some(sq), nextSquare := false)
                                              else st.(token := token, first := Some(sq), nextSquare := true));
        }
      } else {
        OnlyLastCommandEnds(input, i + 1, st.(token := token));
      }
    }
  }

  /** Every command the player's line triggers, except possibly the last, lets `eval` go on. */
  lemma CommandsEndAtMostOnce(input: string)
    ensures Parse(input).Commands? ==> forall k :: 0 <= k < |Parse(input).run| - 1 ==> !EndsEval(Parse(input).run[k])
  {
    OnlyLastCommandEnds(input, 0, Start);
  }

  /** Squares are read only from input without a `/`: any `/` makes the input a command line. */
  lemma {:induction false} SquaresOnlyWithoutSlash(input: string, i: nat, st: ScanState)
    requires i <= |input|
    requires Scan(input, i, st).SquarePair?
    ensures !st.isCommand && forall k :: i <= k < |input| ==> input[k] != '/'
    decreases |input| - i
  {
    if i < |input| {
      var c := input[i];
      var token := st.token + [c];
      if st.isCommand || c == '/' {
        CommandLineStaysCommand(input, i, st);
      } else if IsLetter(c) {
        if i + 1 < |input| {
          match SquareOf(FormatMove(input, i))
          case None =>
          case Some(sq) =>
            SquaresOnlyWithoutSlash(input, i + 1, if st.nextSquare then st.(token := token, second := Some(sq), nextSquare := false)
                                                  else st.(token := token, first := Some(sq), nextSquare := true));
        }
      } else {
        SquaresOnlyWithoutSlash(input, i + 1, st.(token := token));
      }
    }
  }

  /** The whole input: its result names squares only if it has no `/`. */
  lemma SquaresMeanNoSlash(input: string)
    requires Parse(input).SquarePair?
    ensures '/' !in input
  {
    SquaresOnlyWithoutSlash(input, 0, Start);
  }

  /** From a point where no command has started, input with a `/` and no
      letter before it is a command line. */
  lemma {:induction false} SlashBeforeLettersIsCommand(input: string, i: nat, st: ScanState, s: nat)
    requires i <= s < |input| && input[s] == '/'
    requires forall k :: i <= k < s ==> !IsLetter(input[k])
    requires !st.isCommand
    ensures Scan(input, i, st).Commands?
    decreases s - i
  {
    var c := input[i];
    if c == '/' {
      CommandLineStaysCommand(input, i, st);
    } else {
      SlashBeforeLettersIsCommand(input, i + 1, st.(token := st.token + [c]), s);
    }
  }

  /** Text opening with `/` is a command line whatever follows. */
  lemma SlashFirstIsCommand(input: string)
    requires |input| > 0 && input[0] == '/'
    ensures Parse(input).Commands?
  {
    SlashBeforeLettersIsCommand(input, 0, Start, 0);
  }

  /** Once a `/` is read, the rest of the input cannot turn it back into a move. */
  lemma {:induction false} CommandLineStaysCommand(input: string, i: nat, st: ScanState)
    requires i <= |input| && (st.isCommand || (i < |input| && input[i] == '/'))
    ensures Scan(input, i, st).Commands?
    decreases |input| - i
  {
    if i < |input| {
      var c := input[i];
      var token := if c == '/' then "" else st.token + [c];
      match CommandOf(token, Param(input, i))
      case Some(cmd) =>
        if !EndsEval(cmd) {
          CommandLineStaysCommand(input, i + 1, st.(token := token, isCommand := true, run := st.run + [cmd]));
        }
      case None =>
        CommandLineStaysCommand(input, i + 1, st.(token := token, isCommand := true));
    }
  }

  /** A letter in last place of a move text has no rank after it, so the input is rejected. */
  lemma {:induction false} TrailingLetterIsBad(input: string, i: nat, st: ScanState)
    requires i < |input| && !st.isCommand
    requires forall k :: i <= k < |input| ==> input[k] != '/'
    requires IsLetter(input[|input| - 1])
    ensures Scan(input, i, st).BadSquare?
    decreases |input| - i
  {
    var c := input[i];
    var token := st.token + [c];
    if IsLetter(c) {
      if i + 1 < |input| {
        match SquareOf(FormatMove(input, i))
        case None =>
        case Some(sq) =>
          TrailingLetterIsBad(input, i + 1, if st.nextSquare then st.(token := token, second := Some(sq), nextSquare := false)
                                            else st.(token := token, first := Some(sq), nextSquare := true));
      }
    } else {
      TrailingLetterIsBad(input, i + 1, st.(token := token));
    }
  }
}
