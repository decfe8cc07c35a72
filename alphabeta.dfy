/**
 * `Alphabeta.alphabeta` and `Alphabeta.get_move` of agents.py: minimax with
 * an (alpha, beta) window, early exits once alpha reaches WINNING_SCORE or
 * beta reaches LOSING_SCORE, and a search depth chosen from the number of
 * '.' cells.  Its value is compared with the unpruned minimax value
 * (alphabeta has no minimizing-node test) through Clamp: every score at or
 * beyond LOSING_SCORE or WINNING_SCORE counts as that score, which is what
 * the early exits assume.
 */
module AlphaBeta {
  import opened Common
  import opened Pentago
  import opened Agents
  import opened AgentSearch

  /**
   * A node of `alphabeta(board, depth, alpha, beta, maximizing_player)` for
   * the agent playing `token`: a leaf is scored by `sg3824_h`, an inner node
   * scans its moves from -inf (maximizing) or inf (minimizing).
   */
  function AlphaBetaValue(b: Board, depth: int, alpha: Score, beta: Score, maximizing: bool, token: Token): (Score, Option<string>)
    decreases DotCount(b), 2
  {
    if depth == 0 || HasWin(b, token) then (Fin(Heuristic(b, token)), None)
    else if maximizing then MaxLoop(b, depth, token, k := 0, alpha := alpha, beta := beta, maxEval := NegInf, bestMove := None)
    else MinLoop(b, depth, token, k := 0, alpha := alpha, beta := beta, minEval := PosInf, bestMove := None)
  }

  /** The value of the k-th child, searched with the current window. */
  function ReplyScore(b: Board, depth: int, alpha: Score, beta: Score, maximizing: bool, token: Token, k: nat): Score
    requires k < |Moves(b)|
    decreases DotCount(b), 0
  {
    ChildFillsOneCell(b, Mover(token, maximizing), k);
    AlphaBetaValue(Child(b, Mover(token, maximizing), k), depth - 1, alpha, beta, !maximizing, token).0
  }

  /**
   * The maximizing loop from the k-th move on: keep the first strictly
   * greater child value, raise alpha, return (alpha, move) once alpha is at
   * least WINNING_SCORE, stop once beta <= alpha.
   */
  function MaxLoop(b: Board, depth: int, token: Token, k: nat, alpha: Score, beta: Score, maxEval: Score, bestMove: Option<string>)
    : (Score, Option<string>)
    requires k <= |Moves(b)|
    decreases DotCount(b), 1, |Moves(b)| - k
  {
    if k == |Moves(b)| then (maxEval, bestMove)
    else
      var eval := ReplyScore(b, depth, alpha, beta, true, token, k);
      var better := Less(maxEval, eval);
      var maxEval' := if better then eval else maxEval;
      var bestMove' := if better then Some(Moves(b)[k]) else bestMove;
      var alpha' := Max(alpha, eval);
      if Le(Fin(WinningScore), alpha') then (alpha', bestMove')
      else if Le(beta, alpha') then (maxEval', bestMove')
      else MaxLoop(b, depth, token, k + 1, alpha', beta, maxEval', bestMove')
  }

  /**
   * The minimizing loop from the k-th move on: keep the first strictly
   * smaller child value, lower beta, return (beta, move) once beta is at most
   * LOSING_SCORE, stop once beta <= alpha.
   */
  function MinLoop(b: Board, depth: int, token: Token, k: nat, alpha: Score, beta: Score, minEval: Score, bestMove: Option<string>)
    : (Score, Option<string>)
    requires k <= |Moves(b)|
    decreases DotCount(b), 1, |Moves(b)| - k
  {
    if k == |Moves(b)| then (minEval, bestMove)
    else
      var eval := ReplyScore(b, depth, alpha, beta, false, token, k);
      var better := Less(eval, minEval);
      var minEval' := if better then eval else minEval;
      var bestMove' := if better then Some(Moves(b)[k]) else bestMove;
      var beta' := Min(beta, eval);
      if Le(beta', Fin(LosingScore)) then (beta', bestMove')
      else if Le(beta', alpha) then (minEval', bestMove')
      else MinLoop(b, depth, token, k + 1, alpha, beta', minEval', bestMove')
  }

  // ---------------------------------------------------------------------
  // The search as the source writes it
  // ---------------------------------------------------------------------

  /** `Alphabeta.alphabeta`. */
  method AlphaBeta(b: Board, depth: int, alpha: Score, beta: Score, maximizingPlayer: bool, token: Token)
    returns (value: Score, bestMove: Option<string>)
    ensures (value, bestMove) == AlphaBetaValue(b, depth, alpha, beta, maximizingPlayer, token)
    decreases DotCount(b), 2
  {
    var won := Win(b, token);
    if depth == 0 || won {
      var h := Sg3824H(b, token);
      return Fin(h), None;
    }
    var moves := GetMoves(b);
    if maximizingPlayer {
      value, bestMove := AlphaBetaMaxScan(b, depth, alpha, beta, token, moves);
    } else {
      value, bestMove := AlphaBetaMinScan(b, depth, alpha, beta, token, moves);
    }
  }

  /** The maximizing loop of `alphabeta`. */
  method AlphaBetaMaxScan(b: Board, depth: int, alpha: Score, beta: Score, token: Token, moves: seq<string>)
    returns (value: Score, bestMove: Option<string>)
    requires moves == Moves(b)
    ensures (value, bestMove) == MaxLoop(b, depth, token, 0, alpha, beta, NegInf, None)
    decreases DotCount(b), 1
  {
    var maxEval, a := NegInf, alpha;
    bestMove := None;
    var k := 0;
    while k < |moves|
      invariant k <= |moves|
      invariant MaxLoop(b, depth, token, k, a, beta, maxEval, bestMove) == MaxLoop(b, depth, token, 0, alpha, beta, NegInf, None)
      decreases |moves| - k
    {
      var eval := AlphaBetaChild(b, depth, a, beta, true, token, moves, k);
      if Less(maxEval, eval) {
        maxEval, bestMove := eval, Some(moves[k]);
      }
      a := Max(a, eval);
      if Le(Fin(WinningScore), a) {
        return a, bestMove;
      }
      if Le(beta, a) {
        return maxEval, bestMove;
      }
      k := k + 1;
    }
    return maxEval, bestMove;
  }

  /** The minimizing loop of `alphabeta`. */
  method AlphaBetaMinScan(b: Board, depth: int, alpha: Score, beta: Score, token: Token, moves: seq<string>)
    returns (value: Score, bestMove: Option<string>)
    requires moves == Moves(b)
    ensures (value, bestMove) == MinLoop(b, depth, token, 0, alpha, beta, PosInf, None)
    decreases DotCount(b), 1
  {
    var minEval, z := PosInf, beta;
    bestMove := None;
    var k := 0;
    while k < |moves|
      invariant k <= |moves|
      invariant MinLoop(b, depth, token, k, alpha, z, minEval, bestMove) == MinLoop(b, depth, token, 0, alpha, beta, PosInf, None)
      decreases |moves| - k
    {
      var eval := AlphaBetaChild(b, depth, alpha, z, false, token, moves, k);
      if Less(eval, minEval) {
        minEval, bestMove := eval, Some(moves[k]);
      }
      z := Min(z, eval);
      if Le(z, Fin(LosingScore)) {
        return z, bestMove;
      }
      if Le(z, alpha) {
        return minEval, bestMove;
      }
      k := k + 1;
    }
    return minEval, bestMove;
  }

  /** One child: apply the mover's move and search below it with the current window. */
  method AlphaBetaChild(b: Board, depth: int, alpha: Score, beta: Score, maximizing: bool, token: Token, moves: seq<string>, k: nat)
    returns (eval: Score)
    requires moves == Moves(b) && k < |moves|
    ensures eval == ReplyScore(b, depth, alpha, beta, maximizing, token, k)
    decreases DotCount(b), 0
  {
    var mover: Token := if maximizing then token else if token == 'w' then 'b' else 'w';
    ChildFillsOneCell(b, mover, k);
    MoveDecodesToEmptyCell(b, moves[k]);
    var newBoard := ApplyMove(b, moves[k], mover);
    var value, _ := AlphaBeta(newBoard, depth - 1, alpha, beta, !maximizing, token);
    eval := value;
  }

  // ---------------------------------------------------------------------
  // Legal moves
  // ---------------------------------------------------------------------

  /** The move alphabeta returns is None or one of the board's legal moves. */
  lemma AlphaBetaMoveIsLegal(b: Board, depth: int, alpha: Score, beta: Score, maximizing: bool, token: Token)
    ensures var r := AlphaBetaValue(b, depth, alpha, beta, maximizing, token); r.1.None? || r.1.value in Moves(b)
  {
    if !(depth == 0 || HasWin(b, token)) {
      if maximizing {
        MaxLoopMoveIsLegal(b, depth, token, 0, alpha, beta, NegInf, None);
      } else {
        MinLoopMoveIsLegal(b, depth, token, 0, alpha, beta, PosInf, None);
      }
    }
  }

  lemma {:induction false} MaxLoopMoveIsLegal(b: Board, depth: int, token: Token, k: nat, alpha: Score, beta: Score, maxEval: Score, bestMove: Option<string>)
    requires k <= |Moves(b)| && (bestMove.None? || bestMove.value in Moves(b))
    ensures var r := MaxLoop(b, depth, token, k, alpha, beta, maxEval, bestMove); r.1.None? || r.1.value in Moves(b)
    decreases |Moves(b)| - k
  {
    if k < |Moves(b)| {
      var eval := ReplyScore(b, depth, alpha, beta, true, token, k);
      var better := Less(maxEval, eval);
      MaxLoopMoveIsLegal(b, depth, token, k + 1, Max(alpha, eval), beta,
                         if better then eval else maxEval, if better then Some(Moves(b)[k]) else bestMove);
    }
  }

  lemma {:induction false} MinLoopMoveIsLegal(b: Board, depth: int, token: Token, k: nat, alpha: Score, beta: Score, minEval: Score, bestMove: Option<string>)
    requires k <= |Moves(b)| && (bestMove.None? || bestMove.value in Moves(b))
    ensures var r := MinLoop(b, depth, token, k, alpha, beta, minEval, bestMove); r.1.None? || r.1.value in Moves(b)
    decreases |Moves(b)| - k
  {
    if k < |Moves(b)| {
      var eval := ReplyScore(b, depth, alpha, beta, false, token, k);
      var better := Less(eval, minEval);
      MinLoopMoveIsLegal(b, depth, token, k + 1, alpha, Min(beta, eval),
                         if better then eval else minEval, if better then Some(Moves(b)[k]) else bestMove);
    }
  }

  // ---------------------------------------------------------------------
  // Agreement with minimax
  // ---------------------------------------------------------------------

  /** A score read on the scale [LOSING_SCORE, WINNING_SCORE]. */
  function Clamp(s: Score): (c: int)
    ensures LosingScore <= c <= WinningScore
    ensures Le(s, Fin(LosingScore)) <==> c == LosingScore
    ensures Le(Fin(WinningScore), s) <==> c == WinningScore
  {
    if Le(s, Fin(LosingScore)) then LosingScore
    else if Le(Fin(WinningScore), s) then WinningScore
    else s.n
  }

  /** Clamp keeps the order of scores. */
  lemma ClampMonotone(x: Score, y: Score)
    requires Le(x, y)
    ensures Clamp(x) <= Clamp(y)
  {
  }

  /**
   * What a search with window (alpha, beta) tells about the exact value t:
   * a value inside the window is exact, a value at or below alpha bounds t
   * from above, a value at or above beta bounds it from below.
   */
  predicate Sound(v: Score, t: Score, alpha: Score, beta: Score)
  {
    && (Less(alpha, v) && Less(v, beta) ==> Clamp(v) == Clamp(t))
    && (Le(v, alpha) ==> Clamp(t) <= Clamp(v))
    && (Le(beta, v) ==> Clamp(v) <= Clamp(t))
  }

  /** The unpruned minimax value of the first k children, in move order. */
  function ExactPrefix(b: Board, depth: int, maximizing: bool, token: Token, k: nat): Score
    requires k <= |Moves(b)|
  {
    Best(ChildValues(Unpruned, b, depth, maximizing, token, |Moves(b)|), Moves(b), k, maximizing).0
  }

  /**
   * Inside a window that a parent has not yet cut off, alphabeta is sound
   * with respect to the unpruned minimax value.
   */
  lemma AlphaBetaSound(b: Board, depth: int, alpha: Score, beta: Score, maximizing: bool, token: Token)
    requires Less(alpha, beta) && Less(alpha, Fin(WinningScore)) && Less(Fin(LosingScore), beta)
    ensures Sound(AlphaBetaValue(b, depth, alpha, beta, maximizing, token).0,
                  MinimaxValue(Unpruned, b, depth, maximizing, token).0, alpha, beta)
    decreases DotCount(b), 2
  {
    if !(depth == 0 || HasWin(b, token)) {
      if maximizing {
        MaxLoopSound(b, depth, token, 0, alpha, alpha, beta, NegInf, None);
      } else {
        MinLoopSound(b, depth, token, 0, alpha, beta, beta, PosInf, None);
      }
    }
  }

  lemma ReplySound(b: Board, depth: int, alpha: Score, beta: Score, maximizing: bool, token: Token, k: nat)
    requires k < |Moves(b)|
    requires Less(alpha, beta) && Less(alpha, Fin(WinningScore)) && Less(Fin(LosingScore), beta)
    ensures Sound(ReplyScore(b, depth, alpha, beta, maximizing, token, k),
                  ChildValues(Unpruned, b, depth, maximizing, token, |Moves(b)|)[k], alpha, beta)
    decreases DotCount(b), 0
  {
    ChildValuesAt(Unpruned, b, depth, maximizing, token, |Moves(b)|, k);
    ChildFillsOneCell(b, Mover(token, maximizing), k);
    AlphaBetaSound(Child(b, Mover(token, maximizing), k), depth - 1, alpha, beta, !maximizing, token);
  }

  /**
   * One step of the maximizing loop on scores alone: the child's value
   * `eval` is sound for the window (a, beta) against its exact value t,
   * `prefix` is the exact value of the children before it and `final` is at
   * least the exact value of all of them.  An exit returns a value sound for
   * the node's window (alpha0, beta); otherwise the loop's invariant holds
   * again one child further.
   */
  lemma MaxStep(alpha0: Score, a: Score, beta: Score, maxEval: Score, eval: Score, prefix: Score, t: Score, final: Score)
    requires Less(alpha0, beta) && Less(Fin(LosingScore), beta)
    requires Le(alpha0, a) && Le(maxEval, a) && (a == alpha0 || a == maxEval)
    requires Less(a, beta) && Less(a, Fin(WinningScore))
    requires Clamp(prefix) <= Clamp(maxEval) && (Less(alpha0, maxEval) ==> Clamp(maxEval) <= Clamp(prefix))
    requires Sound(eval, t, a, beta) && Le(Max(prefix, t), final)
    ensures var maxEval', alpha' := Max(maxEval, eval), Max(a, eval);
      if Le(Fin(WinningScore), alpha') then Sound(alpha', final, alpha0, beta)
      else if Le(beta, alpha') then Sound(maxEval', final, alpha0, beta)
      else && Le(alpha0, alpha') && Le(maxEval', alpha') && (alpha' == alpha0 || alpha' == maxEval')
           && Less(alpha', beta) && Less(alpha', Fin(WinningScore))
           && Clamp(Max(prefix, t)) <= Clamp(maxEval')
           && (Less(alpha0, maxEval') ==> Clamp(maxEval') <= Clamp(Max(prefix, t)))
  {
    ClampMonotone(Max(prefix, t), final);
  }

  /** One step of the minimizing loop on scores alone, mirroring MaxStep. */
  lemma MinStep(alpha: Score, z: Score, beta0: Score, minEval: Score, eval: Score, prefix: Score, t: Score, final: Score)
    requires Less(alpha, beta0) && Less(alpha, Fin(WinningScore))
    requires Le(z, beta0) && Le(z, minEval) && (z == beta0 || z == minEval)
    requires Less(alpha, z) && Less(Fin(LosingScore), z)
    requires Clamp(minEval) <= Clamp(prefix) && (Less(minEval, beta0) ==> Clamp(prefix) <= Clamp(minEval))
    requires Sound(eval, t, alpha, z) && Le(final, Min(prefix, t))
    ensures var minEval', beta' := Min(minEval, eval), Min(z, eval);
      if Le(beta', Fin(LosingScore)) then Sound(beta', final, alpha, beta0)
      else if Le(beta', alpha) then Sound(minEval', final, alpha, beta0)
      else && Le(beta', beta0) && Le(beta', minEval') && (beta' == beta0 || beta' == minEval')
           && Less(alpha, beta') && Less(Fin(LosingScore), beta')
           && Clamp(minEval') <= Clamp(Min(prefix, t))
           && (Less(minEval', beta0) ==> Clamp(Min(prefix, t)) <= Clamp(minEval'))
  {
    ClampMonotone(final, Min(prefix, t));
  }

  /** The exact value of the children before k + 1: the better of those before k and child k. */
  lemma ExactPrefixNext(b: Board, depth: int, maximizing: bool, token: Token, k: nat)
    requires k < |Moves(b)|
    ensures var t := ChildValues(Unpruned, b, depth, maximizing, token, |Moves(b)|)[k];
      ExactPrefix(b, depth, maximizing, token, k + 1) ==
        if maximizing then Max(ExactPrefix(b, depth, maximizing, token, k), t)
        else Min(ExactPrefix(b, depth, maximizing, token, k), t)
  {
  }

  /** At a node that is neither a leaf nor won, the unpruned value is the exact value of all the children. */
  lemma ExactPrefixWhole(b: Board, depth: int, maximizing: bool, token: Token)
    requires depth != 0 && !HasWin(b, token)
    ensures ExactPrefix(b, depth, maximizing, token, |Moves(b)|) == MinimaxValue(Unpruned, b, depth, maximizing, token).0
  {
  }

  /**
   * Child k of the maximizing scan: an exit there is sound for the node's
   * window (alpha0, beta); otherwise the scan's invariant holds one child
   * further.
   */
  lemma MaxScanStep(b: Board, depth: int, token: Token, k: nat, alpha0: Score, a: Score, beta: Score, maxEval: Score)
    requires depth != 0 && !HasWin(b, token) && k < |Moves(b)|
    requires Less(alpha0, beta) && Less(Fin(LosingScore), beta)
    requires Le(alpha0, a) && Le(maxEval, a) && (a == alpha0 || a == maxEval)
    requires Less(a, beta) && Less(a, Fin(WinningScore))
    requires Clamp(ExactPrefix(b, depth, true, token, k)) <= Clamp(maxEval)
    requires Less(alpha0, maxEval) ==> Clamp(maxEval) <= Clamp(ExactPrefix(b, depth, true, token, k))
    ensures var eval := ReplyScore(b, depth, a, beta, true, token, k);
      var maxEval', alpha' := Max(maxEval, eval), Max(a, eval);
      var final := MinimaxValue(Unpruned, b, depth, true, token).0;
      if Le(Fin(WinningScore), alpha') then Sound(alpha', final, alpha0, beta)
      else if Le(beta, alpha') then Sound(maxEval', final, alpha0, beta)
      else && Le(alpha0, alpha') && Le(maxEval', alpha') && (alpha' == alpha0 || alpha' == maxEval')
           && Less(alpha', beta) && Less(alpha', Fin(WinningScore))
           && Clamp(ExactPrefix(b, depth, true, token, k + 1)) <= Clamp(maxEval')
           && (Less(alpha0, maxEval') ==> Clamp(maxEval') <= Clamp(ExactPrefix(b, depth, true, token, k + 1)))
    decreases DotCount(b), 1, |Moves(b)| - k, 0
  {
    var n := |Moves(b)|;
    var vs := ChildValues(Unpruned, b, depth, true, token, n);
    ReplySound(b, depth, a, beta, true, token, k);
    BestGrows(vs, Moves(b), k + 1, n, true);
    ExactPrefixNext(b, depth, true, token, k);
    ExactPrefixWhole(b, depth, true, token);
    MaxStep(alpha0, a, beta, maxEval, ReplyScore(b, depth, a, beta, true, token, k),
            ExactPrefix(b, depth, true, token, k), vs[k], ExactPrefix(b, depth, true, token, n));
  }

  /** Child k of the minimizing scan, mirroring MaxScanStep with window (alpha, beta0). */
  lemma MinScanStep(b: Board, depth: int, token: Token, k: nat, alpha: Score, z: Score, beta0: Score, minEval: Score)
    requires depth != 0 && !HasWin(b, token) && k < |Moves(b)|
    requires Less(alpha, beta0) && Less(alpha, Fin(WinningScore))
    requires Le(z, beta0) && Le(z, minEval) && (z == beta0 || z == minEval)
    requires Less(alpha, z) && Less(Fin(LosingScore), z)
    requires Clamp(minEval) <= Clamp(ExactPrefix(b, depth, false, token, k))
    requires Less(minEval, beta0) ==> Clamp(ExactPrefix(b, depth, false, token, k)) <= Clamp(minEval)
    ensures var eval := ReplyScore(b, depth, alpha, z, false, token, k);
      var minEval', beta' := Min(minEval, eval), Min(z, eval);
      var final := MinimaxValue(Unpruned, b, depth, false, token).0;
      if Le(beta', Fin(LosingScore)) then Sound(beta', final, alpha, beta0)
      else if Le(beta', alpha) then Sound(minEval', final, alpha, beta0)
      else && Le(beta', beta0) && Le(beta', minEval') && (beta' == beta0 || beta' == minEval')
           && Less(alpha, beta') && Less(Fin(LosingScore), beta')
           && Clamp(minEval') <= Clamp(ExactPrefix(b, depth, false, token, k + 1))
           && (Less(minEval', beta0) ==> Clamp(ExactPrefix(b, depth, false, token, k + 1)) <= Clamp(minEval'))
    decreases DotCount(b), 1, |Moves(b)| - k, 0
  {
    var n := |Moves(b)|;
    var vs := ChildValues(Unpruned, b, depth, false, token, n);
    ReplySound(b, depth, alpha, z, false, token, k);
    BestGrows(vs, Moves(b), k + 1, n, false);
    ExactPrefixNext(b, depth, false, token, k);
    ExactPrefixWhole(b, depth, false, token);
    MinStep(alpha, z, beta0, minEval, ReplyScore(b, depth, alpha, z, false, token, k),
            ExactPrefix(b, depth, false, token, k), vs[k], ExactPrefix(b, depth, false, token, n));
  }

  /**
   * The maximizing loop, entered at move k with current alpha `a` and the
   * best value so far `maxEval`, is sound for the node's window
   * (alpha0, beta) as long as the scan so far kept its invariant.
   */
  lemma {:induction false} MaxLoopSound(b: Board, depth: int, token: Token, k: nat, alpha0: Score, a: Score, beta: Score,
                                        maxEval: Score, bestMove: Option<string>)
    requires depth != 0 && !HasWin(b, token) && k <= |Moves(b)|
    requires Less(alpha0, beta) && Less(Fin(LosingScore), beta)
    requires Le(alpha0, a) && Le(maxEval, a) && (a == alpha0 || a == maxEval)
    requires Less(a, beta) && Less(a, Fin(WinningScore))
    requires Clamp(ExactPrefix(b, depth, true, token, k)) <= Clamp(maxEval)
    requires Less(alpha0, maxEval) ==> Clamp(maxEval) <= Clamp(ExactPrefix(b, depth, true, token, k))
    ensures Sound(MaxLoop(b, depth, token, k, a, beta, maxEval, bestMove).0,
                  MinimaxValue(Unpruned, b, depth, true, token).0, alpha0, beta)
    decreases DotCount(b), 1, |Moves(b)| - k, 1
  {
    if k < |Moves(b)| {
      MaxScanStep(b, depth, token, k, alpha0, a, beta, maxEval);
      var eval := ReplyScore(b, depth, a, beta, true, token, k);
      var alpha' := Max(a, eval);
      if !(Le(Fin(WinningScore), alpha') || Le(beta, alpha')) {
        var better := Less(maxEval, eval);
        MaxLoopSound(b, depth, token, k + 1, alpha0, alpha', beta, Max(maxEval, eval),
                     if better then Some(Moves(b)[k]) else bestMove);
      }
    }
  }

  /** The minimizing loop, mirrored: current beta `z`, best value so far `minEval`, window (alpha, beta0). */
  lemma {:induction false} MinLoopSound(b: Board, depth: int, token: Token, k: nat, alpha: Score, z: Score, beta0: Score,
                                        minEval: Score, bestMove: Option<string>)
    requires depth != 0 && !HasWin(b, token) && k <= |Moves(b)|
    requires Less(alpha, beta0) && Less(alpha, Fin(WinningScore))
    requires Le(z, beta0) && Le(z, minEval) && (z == beta0 || z == minEval)
    requires Less(alpha, z) && Less(Fin(LosingScore), z)
    requires Clamp(minEval) <= Clamp(ExactPrefix(b, depth, false, token, k))
    requires Less(minEval, beta0) ==> Clamp(ExactPrefix(b, depth, false, token, k)) <= Clamp(minEval)
    ensures Sound(MinLoop(b, depth, token, k, alpha, z, minEval, bestMove).0,
                  MinimaxValue(Unpruned, b, depth, false, token).0, alpha, beta0)
    decreases DotCount(b), 1, |Moves(b)| - k, 1
  {
    if k < |Moves(b)| {
      MinScanStep(b, depth, token, k, alpha, z, beta0, minEval);
      var eval := ReplyScore(b, depth, alpha, z, false, token, k);
      var beta' := Min(z, eval);
      if !(Le(beta', Fin(LosingScore)) || Le(beta', alpha)) {
        var better := Less(eval, minEval);
        MinLoopSound(b, depth, token, k + 1, alpha, beta', beta0, Min(minEval, eval),
                     if better then Some(Moves(b)[k]) else bestMove);
      }
    }
  }

  /**
   * From the root window (-inf, inf), which `get_move` uses, alphabeta and
   * the unpruned minimax agree on every score strictly between LOSING_SCORE
   * and WINNING_SCORE, and on whether the score reaches either bound.
   */
  lemma AlphaBetaRootValue(b: Board, depth: int, token: Token)
    ensures Clamp(AlphaBetaValue(b, depth, NegInf, PosInf, true, token).0) ==
            Clamp(MinimaxValue(Unpruned, b, depth, true, token).0)
  {
    AlphaBetaSound(b, depth, NegInf, PosInf, true, token);
  }

  /**
   * The early exits are justified: a value at or above WINNING_SCORE means
   * the unpruned value is too, and one at or below LOSING_SCORE means the
   * unpruned value is too.
   */
  lemma AlphaBetaExitsAgree(b: Board, depth: int, alpha: Score, beta: Score, maximizing: bool, token: Token)
    requires Less(alpha, beta) && Less(alpha, Fin(WinningScore)) && Less(Fin(LosingScore), beta)
    ensures var v, t := AlphaBetaValue(b, depth, alpha, beta, maximizing, token).0, MinimaxValue(Unpruned, b, depth, maximizing, token).0;
      && (Le(Fin(WinningScore), v) ==> Le(Fin(WinningScore), t))
      && (Le(v, Fin(LosingScore)) ==> Le(t, Fin(LosingScore)))
  {
    AlphaBetaSound(b, depth, alpha, beta, maximizing, token);
  }

  /**
   * The root value of alphabeta is never below that of `minimax` as written,
   * whose minimizing nodes may give up with -inf.
   */
  lemma AlphaBetaNotBelowMinimax(b: Board, depth: int, token: Token)
    ensures Clamp(MinimaxValue(AsWritten, b, depth, true, token).0) <= Clamp(AlphaBetaValue(b, depth, NegInf, PosInf, true, token).0)
  {
    AlphaBetaRootValue(b, depth, token);
    MinimaxBelowUnpruned(AsWritten, b, depth, true, token);
    ClampMonotone(MinimaxValue(AsWritten, b, depth, true, token).0, MinimaxValue(Unpruned, b, depth, true, token).0);
  }

  // ---------------------------------------------------------------------
  // get_move
  // ---------------------------------------------------------------------

  /**
   * The depth `Alphabeta.get_move` searches to, from the '.' count: more
   * than 36 // 2 gives min(depth_limit, 1), more than 6 gives depth_limit // 2
   * (Python's floor division; Dafny's / agrees for the divisor 2), and
   * otherwise depth_limit.
   */
  function ScheduledDepth(dots: int, depthLimit: int): int
  {
    if dots > (BoardSize * BoardSize) / 2 then (if depthLimit <= 1 then depthLimit else 1)
    else if dots > BoardSize then depthLimit / 2
    else depthLimit
  }

  /** The schedule never searches deeper than the limit, nor below 0 for a non-negative limit. */
  lemma ScheduledDepthBounds(dots: int, depthLimit: int)
    requires depthLimit >= 0
    ensures 0 <= ScheduledDepth(dots, depthLimit) <= depthLimit
    ensures dots <= BoardSize ==> ScheduledDepth(dots, depthLimit) == depthLimit
    ensures dots > 18 ==> ScheduledDepth(dots, depthLimit) <= 1
  {
  }

  /**
   * `Alphabeta.get_move`: count the '.' cells by scanning the grid (not
   * `empty_cells`, which `apply_move` never lowers), choose the depth, and
   * search from the window (-inf, inf).
   */
  method AlphabetaGetMove(b: Board, depthLimit: int, token: Token) returns (move: Option<string>)
    ensures move == AlphaBetaValue(b, ScheduledDepth(DotCount(b), depthLimit), NegInf, PosInf, true, token).1
    ensures move.None? || move.value in Moves(b)
  {
    var emptyCells := RowsDots(b.grid);
    var currentDepth: int;
    if emptyCells > (BoardSize * BoardSize) / 2 {
      currentDepth := if depthLimit <= 1 then depthLimit else 1;
    } else if emptyCells > BoardSize {
      currentDepth := depthLimit / 2;
    } else {
      currentDepth := depthLimit;
    }
    AlphaBetaMoveIsLegal(b, currentDepth, NegInf, PosInf, true, token);
    var _, best := AlphaBeta(b, currentDepth, NegInf, PosInf, true, token);
    move := best;
  }

  /**
   * With the default depth limit 1, a mid-game board (7 to 18 '.' cells) is
   * searched to depth 0, a leaf: `get_move` returns no move although the
   * board has legal moves.
   */
  lemma MidgameNoMove(b: Board, token: Token)
    requires BoardSize < DotCount(b) <= (BoardSize * BoardSize) / 2
    ensures ScheduledDepth(DotCount(b), 1) == 0
    ensures |Moves(b)| > 0
    ensures AlphaBetaValue(b, ScheduledDepth(DotCount(b), 1), NegInf, PosInf, true, token).1 == None
  {
    MovesLength(b);
  }

  /** The mid-game depth the schedule evidently means: half the limit, but at least one ply. */
  function IntendedDepth(dots: int, depthLimit: int): int
  {
    if dots > (BoardSize * BoardSize) / 2 then (if depthLimit <= 1 then depthLimit else 1)
    else if dots > BoardSize then (if depthLimit / 2 >= 1 then depthLimit / 2 else depthLimit)
    else depthLimit
  }

  /**
   * With a positive limit the intended schedule searches at least one ply in
   * every phase, and agrees with the written one wherever that one does.
   */
  lemma IntendedDepthPositive(dots: int, depthLimit: int)
    requires depthLimit >= 1
    ensures 1 <= IntendedDepth(dots, depthLimit) <= depthLimit
    ensures ScheduledDepth(dots, depthLimit) >= 1 ==> IntendedDepth(dots, depthLimit) == ScheduledDepth(dots, depthLimit)
  {
  }

  /**
   * A one-ply search from the root window returns a legal move whenever the
   * board has one and the agent has not already won: every child is a leaf
   * with a finite score, so the first one beats -inf.
   */
  lemma DepthOneFindsMove(b: Board, token: Token)
    requires |Moves(b)| > 0 && !HasWin(b, token)
    ensures var r := AlphaBetaValue(b, 1, NegInf, PosInf, true, token); r.1.Some? && r.1.value in Moves(b)
  {
    var eval := ReplyScore(b, 1, NegInf, PosInf, true, token, 0);
    ChildFillsOneCell(b, token, 0);
    assert eval == AlphaBetaValue(Child(b, token, 0), 0, NegInf, PosInf, false, token).0;
    if Le(Fin(WinningScore), Max(NegInf, eval)) || Le(PosInf, Max(NegInf, eval)) {
    } else {
      MaxLoopKeepsMove(b, 1, token, 1, Max(NegInf, eval), PosInf, eval, Some(Moves(b)[0]));
    }
    AlphaBetaMoveIsLegal(b, 1, NegInf, PosInf, true, token);
  }

  /** Once the maximizing loop holds a move it returns one. */
  lemma {:induction false} MaxLoopKeepsMove(b: Board, depth: int, token: Token, k: nat, alpha: Score, beta: Score, maxEval: Score, bestMove: Option<string>)
    requires k <= |Moves(b)| && bestMove.Some?
    ensures MaxLoop(b, depth, token, k, alpha, beta, maxEval, bestMove).1.Some?
    decreases |Moves(b)| - k
  {
    if k < |Moves(b)| {
      var eval := ReplyScore(b, depth, alpha, beta, true, token, k);
      var better := Less(maxEval, eval);
      MaxLoopKeepsMove(b, depth, token, k + 1, Max(alpha, eval), beta,
                       if better then eval else maxEval, if better then Some(Moves(b)[k]) else bestMove);
    }
  }

  /**
   * With the intended schedule and a positive limit, `get_move` at depth
   * one (every phase when the limit is 1, the default) returns a legal move
   * whenever the board has one and the agent has not already won.
   */
  lemma IntendedScheduleFindsMove(b: Board, token: Token)
    requires |Moves(b)| > 0 && !HasWin(b, token)
    ensures IntendedDepth(DotCount(b), 1) == 1
    ensures var r := AlphaBetaValue(b, IntendedDepth(DotCount(b), 1), NegInf, PosInf, true, token); r.1.Some? && r.1.value in Moves(b)
  {
    DepthOneFindsMove(b, token);
  }
}
