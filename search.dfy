/** The search as values: the unpruned minimax value of a position, the
    alpha-beta search that `miniMax` performs (its value and how many
    positions it visits and cuts off), the root's choice among the legal
    moves, and the theorems that tie them together. */
module SearchSpec {
  import opened Int32
  import opened Options
  import opened Pieces
  import opened Chess

  /** What one search call yields: its value, the number of search calls it
      made (itself included) and the number of cutoffs among them. */
  datatype Tally = Tally(value: i32, visited: nat, pruned: nat)

  /** The score of a position at the search horizon: the negated 32-bit board
      value, which is the negated material whenever the sum neither overflows
      nor lands on `MIN_VALUE`. */
  function Leaf(r: Rules, h: seq<Move>): (v: i32)
    ensures MinValue < Material(r.pieces(h)) <= MaxValue ==> v == -Material(r.pieces(h))
  {
    Neg(Wrap(Material(r.pieces(h))))
  }

  /** The value a maximizing or minimizing node starts from. */
  function Worst(maximizing: bool): i32 {
    if maximizing then MinValue else MaxValue
  }

  /** The better of two values for the side at a node. */
  function Better(maximizing: bool, a: i32, b: i32): i32 {
    if maximizing then Max(a, b) else Min(a, b)
  }

  /** The unpruned minimax value of the position after history `h`. */
  function Minimax(r: Rules, h: seq<Move>, depth: nat, maximizing: bool): i32
    decreases depth, 1
  {
    if depth == 0 then Leaf(r, h)
    else MinimaxMoves(r, h, depth, maximizing, r.legal(h), 0, Worst(maximizing))
  }

  /** `best` combined with the minimax values of the children reached by `moves[i..]`. */
  function MinimaxMoves(r: Rules, h: seq<Move>, depth: nat, maximizing: bool, moves: seq<Move>, i: nat, best: i32): i32
    requires depth >= 1 && i <= |moves|
    decreases depth, 0, |moves| - i
  {
    if i == |moves| then best
    else
      var v := Minimax(r, h + [moves[i]], depth - 1, !maximizing);
      MinimaxMoves(r, h, depth, maximizing, moves, i + 1, Better(maximizing, best, v))
  }

  /** The alpha-beta search `miniMax(maximizing, depth, alpha, beta)` run on the position after `h`. */
  function Search(r: Rules, h: seq<Move>, depth: nat, maximizing: bool, alpha: i32, beta: i32): Tally
    decreases depth, 1
  {
    if depth == 0 then Tally(Leaf(r, h), 1, 0)
    else
      SearchMoves(r, h, depth, maximizing, r.legal(h), 0, alpha, beta, Worst(maximizing), 1, 0)
  }

  /** The loop of `miniMax` over `moves[i..]`, from window (`alpha`, `beta`),
      running best value `best` and the calls and cutoffs counted so far:
      each child is searched with the current window, the window is
      narrowed, and the loop stops at the first move after which
      `beta <= alpha`, counting one more cutoff. */
  function SearchMoves(r: Rules, h: seq<Move>, depth: nat, maximizing: bool, moves: seq<Move>, i: nat,
                       alpha: i32, beta: i32, best: i32, visited: nat, pruned: nat): Tally
    requires depth >= 1 && i <= |moves|
    decreases depth, 0, |moves| - i
  {
    if i == |moves| then Tally(best, visited, pruned)
    else
      var c := Search(r, h + [moves[i]], depth - 1, !maximizing, alpha, beta);
      var best' := Better(maximizing, best, c.value);
      var alpha' := if maximizing then Max(alpha, c.value) else alpha;
      var beta' := if maximizing then beta else Min(beta, c.value);
      if beta' <= alpha' then Tally(best', visited + c.visited, pruned + c.pruned + 1)
      else SearchMoves(r, h, depth, maximizing, moves, i + 1, alpha', beta', best', visited + c.visited, pruned + c.pruned)
  }

  /** The two ends of the recursion: at depth 0 the search scores the
      position alone, whatever the window and the side; a node with no legal
      move returns its side's worst value. Each is one call without cutoff. */
  lemma SearchBaseCases(r: Rules, h: seq<Move>, depth: nat, maximizing: bool, alpha: i32, beta: i32)
    ensures depth == 0 ==>
      Search(r, h, depth, maximizing, alpha, beta) == Tally(Neg(Wrap(Material(r.pieces(h)))), 1, 0)
    ensures depth > 0 && r.legal(h) == [] ==>
      Search(r, h, depth, maximizing, alpha, beta) == Tally(if maximizing then MinValue else MaxValue, 1, 0)
  {
  }

  /** Fail-soft alpha-beta: a result `res` for true value `v` and window
      (`alpha`, `beta`) is an upper bound no larger than `alpha` when `v`
      fails low, a lower bound no smaller than `beta` when `v` fails high,
      and exact inside the window. */
  predicate FailSoft(v: int, res: int, alpha: int, beta: int) {
    && (v <= alpha ==> v <= res <= alpha)
    && (beta <= v ==> beta <= res <= v)
    && (alpha < v < beta ==> res == v)
  }

  /** Pruning never changes the answer inside the window, and outside it gives the bounds above. */
  lemma {:induction false} SearchFailSoft(r: Rules, h: seq<Move>, depth: nat, maximizing: bool, alpha: i32, beta: i32)
    requires alpha < beta
    ensures FailSoft(Minimax(r, h, depth, maximizing), Search(r, h, depth, maximizing, alpha, beta).value, alpha, beta)
    decreases depth, 1
  {
    if depth > 0 {
      if maximizing {
        SearchMovesFailSoftMax(r, h, depth, r.legal(h), 0, alpha, alpha, beta, MinValue, MinValue, 1, 0);
      } else {
        SearchMovesFailSoftMin(r, h, depth, r.legal(h), 0, alpha, beta, beta, MaxValue, MaxValue, 1, 0);
      }
    }
  }

  /** The loop of a maximizing node, entered with alpha `a` raised from the
      node's `alpha0` by the search's running best `bs`, which relates to the
      true running best `bt` as fail-soft results do. */
  lemma {:induction false} SearchMovesFailSoftMax(r: Rules, h: seq<Move>, depth: nat, moves: seq<Move>, i: nat,
                                                  alpha0: i32, a: i32, beta: i32, bt: i32, bs: i32, vn: nat, pn: nat)
    requires depth >= 1 && i <= |moves|
    requires a == Max(alpha0, bs) && a < beta
    requires FailSoft(bt, bs, alpha0, beta)
    ensures FailSoft(MinimaxMoves(r, h, depth, true, moves, i, bt),
                     SearchMoves(r, h, depth, true, moves, i, a, beta, bs, vn, pn).value, alpha0, beta)
    decreases depth, 0, |moves| - i
  {
    if i < |moves| {
      var child := h + [moves[i]];
      var t := Minimax(r, child, depth - 1, false);
      var c := Search(r, child, depth - 1, false, a, beta);
      SearchFailSoft(r, child, depth - 1, false, a, beta);
      var a' := Max(a, c.value);
      if beta > a' {
        SearchMovesFailSoftMax(r, h, depth, moves, i + 1, alpha0, a', beta, Max(bt, t), Max(bs, c.value), vn + c.visited, pn + c.pruned);
      } else {
        MinimaxMovesAtLeast(r, h, depth, true, moves, i + 1, Max(bt, t));
      }
    }
  }

  /** The mirror of `SearchMovesFailSoftMax` for a minimizing node, whose loop lowers beta. */
  lemma {:induction false} SearchMovesFailSoftMin(r: Rules, h: seq<Move>, depth: nat, moves: seq<Move>, i: nat,
                                                  alpha: i32, b: i32, beta0: i32, bt: i32, bs: i32, vn: nat, pn: nat)
    requires depth >= 1 && i <= |moves|
    requires b == Min(beta0, bs) && alpha < b
    requires FailSoft(bt, bs, alpha, beta0)
    ensures FailSoft(MinimaxMoves(r, h, depth, false, moves, i, bt),
                     SearchMoves(r, h, depth, false, moves, i, alpha, b, bs, vn, pn).value, alpha, beta0)
    decreases depth, 0, |moves| - i
  {
    if i < |moves| {
      var child := h + [moves[i]];
      var t := Minimax(r, child, depth - 1, true);
      var c := Search(r, child, depth - 1, true, alpha, b);
      SearchFailSoft(r, child, depth - 1, true, alpha, b);
      var b' := Min(b, c.value);
      if b' > alpha {
        SearchMovesFailSoftMin(r, h, depth, moves, i + 1, alpha, b', beta0, Min(bt, t), Min(bs, c.value), vn + c.visited, pn + c.pruned);
      } else {
        MinimaxMovesAtLeast(r, h, depth, false, moves, i + 1, Min(bt, t));
      }
    }
  }

  /** Folding more children into a running best only improves it for the node's side. */
  lemma {:induction false} MinimaxMovesAtLeast(r: Rules, h: seq<Move>, depth: nat, maximizing: bool, moves: seq<Move>, i: nat, best: i32)
    requires depth >= 1 && i <= |moves|
    ensures var v := MinimaxMoves(r, h, depth, maximizing, moves, i, best);
      if maximizing then v >= best else v <= best
    decreases |moves| - i
  {
    if i < |moves| {
      var v := Minimax(r, h + [moves[i]], depth - 1, !maximizing);
      MinimaxMovesAtLeast(r, h, depth, maximizing, moves, i + 1, Better(maximizing, best, v));
    }
  }

  /** Searched with the full window (`MIN_VALUE`, `MAX_VALUE`), alpha-beta
      returns exactly the unpruned minimax value. */
  lemma FullWindowExact(r: Rules, h: seq<Move>, depth: nat, maximizing: bool)
    ensures Search(r, h, depth, maximizing, MinValue, MaxValue).value == Minimax(r, h, depth, maximizing)
  {
    SearchFailSoft(r, h, depth, maximizing, MinValue, MaxValue);
  }

  /** Every cutoff is recorded by a distinct call, so a subtree records fewer
      cutoffs than it makes calls. */
  lemma {:induction false} PrunedBelowVisited(r: Rules, h: seq<Move>, depth: nat, maximizing: bool, alpha: i32, beta: i32)
    ensures var t := Search(r, h, depth, maximizing, alpha, beta);
      1 <= t.visited && t.pruned < t.visited
    decreases depth, 1
  {
    if depth > 0 {
      SearchMovesPrunedBelowVisited(r, h, depth, maximizing, r.legal(h), 0, alpha, beta, Worst(maximizing), 1, 0);
    }
  }

  /** The loop part of `PrunedBelowVisited`: the loop adds at most as many
      cutoffs as calls to the counts it starts from. */
  lemma {:induction false} SearchMovesPrunedBelowVisited(r: Rules, h: seq<Move>, depth: nat, maximizing: bool,
                                                         moves: seq<Move>, i: nat, alpha: i32, beta: i32, best: i32,
                                                         visited: nat, pruned: nat)
    requires depth >= 1 && i <= |moves|
    ensures var t := SearchMoves(r, h, depth, maximizing, moves, i, alpha, beta, best, visited, pruned);
      visited <= t.visited && t.pruned - pruned <= t.visited - visited
    decreases depth, 0, |moves| - i
  {
    if i < |moves| {
      var c := Search(r, h + [moves[i]], depth - 1, !maximizing, alpha, beta);
      PrunedBelowVisited(r, h + [moves[i]], depth - 1, !maximizing, alpha, beta);
      var alpha' := if maximizing then Max(alpha, c.value) else alpha;
      var beta' := if maximizing then beta else Min(beta, c.value);
      if beta' > alpha' {
        SearchMovesPrunedBelowVisited(r, h, depth, maximizing, moves, i + 1, alpha', beta', Better(maximizing, best, c.value),
                                      visited + c.visited, pruned + c.pruned);
      }
    }
  }

  /** The number of positions of the complete game tree below `h` to `depth`
      plies: the calls an unpruned search would make. */
  function TreeSize(r: Rules, h: seq<Move>, depth: nat): nat
    decreases depth, 1
  {
    if depth == 0 then 1 else 1 + TreeSizeMoves(r, h, depth, r.legal(h), 0)
  }

  /** The tree sizes of the children reached by `moves[i..]`. */
  function TreeSizeMoves(r: Rules, h: seq<Move>, depth: nat, moves: seq<Move>, i: nat): nat
    requires depth >= 1 && i <= |moves|
    decreases depth, 0, |moves| - i
  {
    if i == |moves| then 0 else TreeSize(r, h + [moves[i]], depth - 1) + TreeSizeMoves(r, h, depth, moves, i + 1)
  }

  /** Alpha-beta never visits more positions than the complete tree has, and
      a search that records no cutoff visits all of them. */
  lemma {:induction false} VisitedWithinTree(r: Rules, h: seq<Move>, depth: nat, maximizing: bool, alpha: i32, beta: i32)
    ensures var t := Search(r, h, depth, maximizing, alpha, beta);
      && t.visited <= TreeSize(r, h, depth)
      && (t.pruned == 0 ==> t.visited == TreeSize(r, h, depth))
    decreases depth, 1
  {
    if depth > 0 {
      SearchMovesWithinTree(r, h, depth, maximizing, r.legal(h), 0, alpha, beta, Worst(maximizing), 1, 0);
    }
  }

  /** The loop part of `VisitedWithinTree`: the calls the loop adds are at
      most the sizes of the remaining children's trees, and exactly those
      when it adds no cutoff. */
  lemma {:induction false} SearchMovesWithinTree(r: Rules, h: seq<Move>, depth: nat, maximizing: bool,
                                                 moves: seq<Move>, i: nat, alpha: i32, beta: i32, best: i32,
                                                 visited: nat, pruned: nat)
    requires depth >= 1 && i <= |moves|
    ensures var t := SearchMoves(r, h, depth, maximizing, moves, i, alpha, beta, best, visited, pruned);
      && pruned <= t.pruned
      && t.visited - visited <= TreeSizeMoves(r, h, depth, moves, i)
      && (t.pruned == pruned ==> t.visited - visited == TreeSizeMoves(r, h, depth, moves, i))
    decreases depth, 0, |moves| - i
  {
    if i < |moves| {
      var c := Search(r, h + [moves[i]], depth - 1, !maximizing, alpha, beta);
      VisitedWithinTree(r, h + [moves[i]], depth - 1, !maximizing, alpha, beta);
      var alpha' := if maximizing then Max(alpha, c.value) else alpha;
      var beta' := if maximizing then beta else Min(beta, c.value);
      if beta' > alpha' {
        SearchMovesWithinTree(r, h, depth, maximizing, moves, i + 1, alpha', beta', Better(maximizing, best, c.value),
                              visited + c.visited, pruned + c.pruned);
      }
    }
  }

  // ---------------------------------------------------------------------------
  // The root

  /** What `rootMiniMax` yields: the move it picks (`None` for Java's
      `null`) and the calls and cutoffs its searches make. */
  datatype RootResult = RootResult(move: Option<Move>, visited: nat, pruned: nat)

  /** The value `rootMiniMax` gets for move `m`: a full-window search of the
      child position with the other role, one ply shallower. */
  function ChildValue(r: Rules, h: seq<Move>, depth: nat, maximizing: bool, m: Move): i32
    requires depth >= 1
  {
    Search(r, h + [m], depth - 1, !maximizing, MinValue, MaxValue).value
  }

  /** The loop of `rootMiniMax` over `moves[i..]`, from running best value
      `best`, chosen move `pick` and the counts so far: a child whose value
      is `>=` the best so far takes over. */
  function RootScan(r: Rules, h: seq<Move>, depth: nat, maximizing: bool, moves: seq<Move>, i: nat,
                    best: i32, pick: Option<Move>, visited: nat, pruned: nat): RootResult
    requires depth >= 1 && i <= |moves|
    decreases |moves| - i
  {
    if i == |moves| then RootResult(pick, visited, pruned)
    else
      var c := Search(r, h + [moves[i]], depth - 1, !maximizing, MinValue, MaxValue);
      if c.value >= best then RootScan(r, h, depth, maximizing, moves, i + 1, c.value, Some(moves[i]), visited + c.visited, pruned + c.pruned)
      else RootScan(r, h, depth, maximizing, moves, i + 1, best, pick, visited + c.visited, pruned + c.pruned)
  }

  /** `rootMiniMax(maximizing, depth)` run on the position after `h`. */
  function RootSearch(r: Rules, h: seq<Move>, depth: nat, maximizing: bool): RootResult
    requires depth >= 1
  {
    RootScan(r, h, depth, maximizing, r.legal(h), 0, MinValue, None, 0, 0)
  }

  /** The root's choice on a list of values, from index `i`, running best
      `best` and chosen index `idx`: a value `>=` the best so far takes over. */
  function LastArgMax(vals: seq<i32>, i: nat, best: i32, idx: Option<nat>): Option<nat>
    requires i <= |vals|
    decreases |vals| - i
  {
    if i == |vals| then idx
    else if vals[i] >= best then LastArgMax(vals, i + 1, vals[i], Some(i))
    else LastArgMax(vals, i + 1, best, idx)
  }

  /** The fold finds no index iff it started with none and nothing was left;
      otherwise it finds the index of a maximal value with every later value
      strictly smaller. */
  lemma {:induction false} LastArgMaxSpec(vals: seq<i32>, i: nat, best: i32, idx: Option<nat>)
    requires i <= |vals|
    requires idx.None? ==> i == 0 && best == MinValue
    requires idx.Some? ==> idx.value < i && vals[idx.value] == best
    requires forall j :: 0 <= j < i ==> vals[j] <= best
    requires idx.Some? ==> forall j :: idx.value < j < i ==> vals[j] < best
    ensures var res := LastArgMax(vals, i, best, idx);
      && (res.None? <==> idx.None? && i == |vals|)
      && (res.Some? ==> && res.value < |vals|
                        && (forall j :: 0 <= j < |vals| ==> vals[j] <= vals[res.value])
                        && (forall j :: res.value < j < |vals| ==> vals[j] < vals[res.value]))
    decreases |vals| - i
  {
    if i < |vals| {
      if vals[i] >= best {
        LastArgMaxSpec(vals, i + 1, vals[i], Some(i));
      } else {
        LastArgMaxSpec(vals, i + 1, best, idx);
      }
    }
  }

  /** The move of the root loop is the one at the index the fold over the
      children's values finds. */
  lemma {:induction false} RootScanPicksLastArgMax(r: Rules, h: seq<Move>, depth: nat, maximizing: bool, moves: seq<Move>,
                                                   i: nat, best: i32, idx: Option<nat>, visited: nat, pruned: nat,
                                                   vals: seq<i32>)
    requires depth >= 1 && i <= |moves| && |vals| == |moves|
    requires forall j :: i <= j < |moves| ==> vals[j] == ChildValue(r, h, depth, maximizing, moves[j])
    requires idx.Some? ==> idx.value < i
    ensures var pick := if idx.None? then None else Some(moves[idx.value]);
      var res := LastArgMax(vals, i, best, idx);
      RootScan(r, h, depth, maximizing, moves, i, best, pick, visited, pruned).move
        == if res.None? || res.value >= |moves| then None else Some(moves[res.value])
    decreases |moves| - i
  {
    if i < |moves| {
      var c := Search(r, h + [moves[i]], depth - 1, !maximizing, MinValue, MaxValue);
      assert c.value == vals[i];
      if c.value >= best {
        RootScanPicksLastArgMax(r, h, depth, maximizing, moves, i + 1, c.value, Some(i), visited + c.visited, pruned + c.pruned, vals);
      } else {
        RootScanPicksLastArgMax(r, h, depth, maximizing, moves, i + 1, best, idx, visited + c.visited, pruned + c.pruned, vals);
      }
    }
  }

  /** The root's choice: `null` iff there is no legal move; otherwise a legal
      move whose child has the largest minimax value, and the last such move
      in enumeration order. */
  lemma RootMoveSpec(r: Rules, h: seq<Move>, depth: nat, maximizing: bool)
    requires depth >= 1
    ensures RootSearch(r, h, depth, maximizing).move.None? <==> r.legal(h) == []
    ensures var moves, best := r.legal(h), RootSearch(r, h, depth, maximizing).move;
      best.Some? ==> exists k ::
        && 0 <= k < |moves| && moves[k] == best.value
        && (forall j :: 0 <= j < |moves| ==>
              Minimax(r, h + [moves[j]], depth - 1, !maximizing) <= Minimax(r, h + [moves[k]], depth - 1, !maximizing))
        && (forall j :: k < j < |moves| ==>
              Minimax(r, h + [moves[j]], depth - 1, !maximizing) < Minimax(r, h + [moves[k]], depth - 1, !maximizing))
  {
    var moves := r.legal(h);
    var vals := seq(|moves|, j requires 0 <= j < |moves| => Minimax(r, h + [moves[j]], depth - 1, !maximizing));
    forall j | 0 <= j < |moves|
      ensures vals[j] == ChildValue(r, h, depth, maximizing, moves[j])
    {
      FullWindowExact(r, h + [moves[j]], depth - 1, !maximizing);
    }
    RootScanPicksLastArgMax(r, h, depth, maximizing, moves, 0, MinValue, None, 0, 0, vals);
    LastArgMaxSpec(vals, 0, MinValue, None);
    var res := LastArgMax(vals, 0, MinValue, None);
    if res.Some? {
      var k := res.value;
      assert forall j :: 0 <= j < |moves| ==> vals[j] == Minimax(r, h + [moves[j]], depth - 1, !maximizing);
    }
  }

  /** Each child the root loop searches makes at least one call more than it
      records cutoffs, and at depth 1 exactly one call and no cutoff. */
  lemma {:induction false} RootScanCounts(r: Rules, h: seq<Move>, depth: nat, maximizing: bool, moves: seq<Move>, i: nat,
                                          best: i32, pick: Option<Move>, visited: nat, pruned: nat)
    requires depth >= 1 && i <= |moves|
    ensures var t := RootScan(r, h, depth, maximizing, moves, i, best, pick, visited, pruned);
      && pruned <= t.pruned
      && (t.pruned - pruned) + (|moves| - i) <= t.visited - visited
      && (depth == 1 ==> t.visited == visited + (|moves| - i) && t.pruned == pruned)
    decreases |moves| - i
  {
    if i < |moves| {
      var c := Search(r, h + [moves[i]], depth - 1, !maximizing, MinValue, MaxValue);
      PrunedBelowVisited(r, h + [moves[i]], depth - 1, !maximizing, MinValue, MaxValue);
      if c.value >= best {
        RootScanCounts(r, h, depth, maximizing, moves, i + 1, c.value, Some(moves[i]), visited + c.visited, pruned + c.pruned);
      } else {
        RootScanCounts(r, h, depth, maximizing, moves, i + 1, best, pick, visited + c.visited, pruned + c.pruned);
      }
    }
  }

  /** Over a whole root search, the calls exceed the cutoffs by at least the
      number of legal moves; a search of depth 1 makes one call per legal
      move and records no cutoff. */
  lemma RootCounts(r: Rules, h: seq<Move>, depth: nat, maximizing: bool)
    requires depth >= 1
    ensures var t := RootSearch(r, h, depth, maximizing);
      && t.pruned + |r.legal(h)| <= t.visited
      && (depth == 1 ==> t.visited == |r.legal(h)| && t.pruned == 0)
  {
    RootScanCounts(r, h, depth, maximizing, r.legal(h), 0, MinValue, None, 0, 0);
  }
}
