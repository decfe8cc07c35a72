/**
 * The depth-limited `minimax` of agents.py (class Minimax).  Scores are
 * extended integers: the source seeds its loops with float('-inf') and
 * float('inf') and otherwise only meets integer heuristic values.  A search
 * node is a specification function that recursion on the number of '.'
 * cells makes terminate (every generated move fills one); the source's loops
 * are methods proved equal to those functions.
 */
module AgentSearch {
  import opened Common
  import opened Pentago
  import opened Agents

  /** float('-inf'), an integer score, float('inf'). */
  datatype Score = NegInf | Fin(n: int) | PosInf

  /** `a < b` on scores. */
  predicate Less(a: Score, b: Score)
  {
    match a
    case NegInf => !b.NegInf?
    case Fin(x) => b.PosInf? || (b.Fin? && x < b.n)
    case PosInf => false
  }

  /** `a <= b` on scores. */
  predicate Le(a: Score, b: Score) { !Less(b, a) }

  /** Python's `max(a, b)`: `b` only when it is strictly greater. */
  function Max(a: Score, b: Score): Score { if Less(a, b) then b else a }

  /** Python's `min(a, b)`: `b` only when it is strictly smaller. */
  function Min(a: Score, b: Score): Score { if Less(b, a) then b else a }

  /** The token that moves at a node: the agent at a maximizing node, its opponent otherwise. */
  function Mover(token: Token, maximizing: bool): Token
  {
    if maximizing then token else Opponent(token)
  }

  /** `board.apply_move(move, mover)` for the k-th move of `board.get_moves()`. */
  function Child(b: Board, mover: Token, k: nat): Board
    requires k < |Moves(b)|
  {
    MoveDecodesToEmptyCell(b, Moves(b)[k]);
    Applied(b, Moves(b)[k], mover)
  }

  /** A child has one '.' cell fewer than its parent: the measure the searches decrease. */
  lemma ChildFillsOneCell(b: Board, mover: Token, k: nat)
    requires k < |Moves(b)|
    ensures DotCount(Child(b, mover, k)) == DotCount(b) - 1
  {
    MoveFillsOneCell(b, Moves(b)[k], mover);
  }

  /** Some of the first k generated moves, played by `mover`, gives `winner` five in a row. */
  predicate WinningReply(b: Board, mover: Token, winner: Token, k: nat)
    requires k <= |Moves(b)|
  {
    k > 0 && (WinningReply(b, mover, winner, k - 1) || HasWin(Child(b, mover, k - 1), winner))
  }

  lemma {:induction false} WinningReplyIff(b: Board, mover: Token, winner: Token, k: nat)
    requires k <= |Moves(b)|
    ensures WinningReply(b, mover, winner, k) <==> exists q :: 0 <= q < k && HasWin(Child(b, mover, q), winner)
  {
    if k > 0 {
      WinningReplyIff(b, mover, winner, k - 1);
    }
  }

  lemma {:induction false} WinningReplyGrows(b: Board, mover: Token, winner: Token, k: nat, n: nat)
    requires k <= n <= |Moves(b)|
    ensures WinningReply(b, mover, winner, k) ==> WinningReply(b, mover, winner, n)
    decreases n - k
  {
    if k < n {
      WinningReplyGrows(b, mover, winner, k + 1, n);
    }
  }

  /**
   * The scan both search loops perform over the first n children: keep the
   * first value strictly better (greater at a maximizing node, smaller at a
   * minimizing one) than the best so far, together with its move.
   */
  function Best(vs: seq<Score>, ms: seq<string>, n: nat, maximizing: bool): (Score, Option<string>)
    requires n <= |vs| && n <= |ms|
  {
    if n == 0 then (if maximizing then NegInf else PosInf, None)
    else
      var prev := Best(vs, ms, n - 1, maximizing);
      if (maximizing && Less(prev.0, vs[n - 1])) || (!maximizing && Less(vs[n - 1], prev.0))
      then (vs[n - 1], Some(ms[n - 1]))
      else prev
  }

  /**
   * What the scan keeps: a value no child beats; no move exactly when every
   * child has the starting value (-inf or inf); otherwise the FIRST child
   * reaching the kept value, with every earlier child strictly worse.
   */
  lemma {:induction false} BestIsFirstExtreme(vs: seq<Score>, ms: seq<string>, n: nat, maximizing: bool)
    requires n <= |vs| && n <= |ms|
    ensures var r := Best(vs, ms, n, maximizing);
      && (forall k | 0 <= k < n :: if maximizing then Le(vs[k], r.0) else Le(r.0, vs[k]))
      && (r.1.None? <==> r.0 == (if maximizing then NegInf else PosInf) &&
                         forall k | 0 <= k < n :: vs[k] == r.0)
      && (r.1.Some? ==> exists k :: 0 <= k < n && r.1.value == ms[k] && r.0 == vs[k] &&
                          forall j | 0 <= j < k :: if maximizing then Less(vs[j], vs[k]) else Less(vs[k], vs[j]))
  {
    if n > 0 {
      BestIsFirstExtreme(vs, ms, n - 1, maximizing);
      var prev := Best(vs, ms, n - 1, maximizing);
      var r := Best(vs, ms, n, maximizing);
      if r != prev {
        assert r == (vs[n - 1], Some(ms[n - 1]));
        assert forall j | 0 <= j < n - 1 :: if maximizing then Less(vs[j], vs[n - 1]) else Less(vs[n - 1], vs[j]);
      } else if prev.1.Some? {
        var k :| 0 <= k < n - 1 && prev.1.value == ms[k] && prev.0 == vs[k] &&
                 forall j | 0 <= j < k :: if maximizing then Less(vs[j], vs[k]) else Less(vs[k], vs[j]);
      }
    }
  }

  /** The move the scan keeps is one of the scanned moves. */
  lemma {:induction false} BestMoveIn(vs: seq<Score>, ms: seq<string>, n: nat, maximizing: bool)
    requires n <= |vs| && n <= |ms|
    ensures Best(vs, ms, n, maximizing).1.Some? ==> Best(vs, ms, n, maximizing).1.value in ms
  {
    if n > 0 {
      BestMoveIn(vs, ms, n - 1, maximizing);
    }
  }

  /** Scanning values that are each no greater gives a result that is no greater. */
  lemma {:induction false} BestMonotone(vs: seq<Score>, ws: seq<Score>, ms: seq<string>, n: nat, maximizing: bool)
    requires n <= |vs| && n <= |ws| && n <= |ms|
    requires forall k | 0 <= k < n :: Le(vs[k], ws[k])
    ensures Le(Best(vs, ms, n, maximizing).0, Best(ws, ms, n, maximizing).0)
  {
    if n > 0 {
      BestMonotone(vs, ws, ms, n - 1, maximizing);
    }
  }

  /** Scanning more values never makes the kept value worse. */
  lemma {:induction false} BestGrows(vs: seq<Score>, ms: seq<string>, k: nat, n: nat, maximizing: bool)
    requires k <= n <= |vs| && n <= |ms|
    ensures if maximizing then Le(Best(vs, ms, k, true).0, Best(vs, ms, n, true).0)
            else Le(Best(vs, ms, n, false).0, Best(vs, ms, k, false).0)
    decreases n - k
  {
    if k < n {
      BestGrows(vs, ms, k + 1, n, maximizing);
    }
  }

  // ---------------------------------------------------------------------
  // minimax
  // ---------------------------------------------------------------------

  /**
   * The test a minimizing node applies to each opponent reply before
   * searching below it: AsWritten gives up when the reply leaves a board on
   * which the AGENT has five in a row (the source's `self.win(new_board)`),
   * OpponentWins when the OPPONENT has (what the source's comment says), and
   * Unpruned is the textbook search without any such test.
   */
  datatype Rule = AsWritten | OpponentWins | Unpruned

  /** The token whose five in a row makes a minimizing node give up. */
  function Watched(rule: Rule, token: Token): Token
  {
    if rule == OpponentWins then Opponent(token) else token
  }

  /** A minimizing node gives up with (-inf, None). */
  predicate GivesUp(rule: Rule, b: Board, token: Token)
  {
    rule != Unpruned && WinningReply(b, Opponent(token), Watched(rule, token), |Moves(b)|)
  }

  /**
   * `minimax(board, depth, maximizing_player)` of the agent playing `token`,
   * under a rule for the minimizing-node test (the source is AsWritten).  A
   * leaf (depth 0 or a board the agent has won) is scored by `sg3824_h`.
   */
  function MinimaxValue(rule: Rule, b: Board, depth: int, maximizing: bool, token: Token): (Score, Option<string>)
    decreases DotCount(b), 2
  {
    if depth == 0 || HasWin(b, token) then (Fin(Heuristic(b, token)), None)
    else if !maximizing && GivesUp(rule, b, token) then (NegInf, None)
    else Best(ChildValues(rule, b, depth, maximizing, token, |Moves(b)|), Moves(b), |Moves(b)|, maximizing)
  }

  /** The values the search computes for the first n children of a node, in move order. */
  function ChildValues(rule: Rule, b: Board, depth: int, maximizing: bool, token: Token, n: nat): (vs: seq<Score>)
    requires n <= |Moves(b)|
    ensures |vs| == n
    decreases DotCount(b), 1, n
  {
    if n == 0 then []
    else ChildValues(rule, b, depth, maximizing, token, n - 1) + [ChildValue(rule, b, depth, maximizing, token, n - 1)]
  }

  /** The value the search computes one level down for the k-th generated move. */
  function ChildValue(rule: Rule, b: Board, depth: int, maximizing: bool, token: Token, k: nat): Score
    requires k < |Moves(b)|
    decreases DotCount(b), 0
  {
    ChildFillsOneCell(b, Mover(token, maximizing), k);
    MinimaxValue(rule, Child(b, Mover(token, maximizing), k), depth - 1, !maximizing, token).0
  }

  lemma {:induction false} ChildValuesAt(rule: Rule, b: Board, depth: int, maximizing: bool, token: Token, n: nat, k: nat)
    requires k < n <= |Moves(b)|
    ensures ChildValues(rule, b, depth, maximizing, token, n)[k] == ChildValue(rule, b, depth, maximizing, token, k)
  {
    if k < n - 1 {
      ChildValuesAt(rule, b, depth, maximizing, token, n - 1, k);
    }
  }

  /** `Minimax.minimax`: a leaf is scored by `sg3824_h`, an inner node scans its moves. */
  method Minimax(b: Board, depth: int, maximizingPlayer: bool, token: Token) returns (value: Score, bestMove: Option<string>)
    ensures (value, bestMove) == MinimaxValue(AsWritten, b, depth, maximizingPlayer, token)
    decreases DotCount(b), 2
  {
    var won := Win(b, token);
    if depth == 0 || won {
      var h := Sg3824H(b, token);
      return Fin(h), None;
    }
    var moves := GetMoves(b);
    ghost var vs := ChildValues(AsWritten, b, depth, maximizingPlayer, token, |moves|);
    if maximizingPlayer {
      value, bestMove := MinimaxMaxScan(b, depth, token, moves, vs);
    } else {
      value, bestMove := MinimaxMinScan(b, depth, token, moves, vs);
    }
  }

  /** The maximizing loop of `minimax`: keep the first strictly greater child value. */
  method MinimaxMaxScan(b: Board, depth: int, token: Token, moves: seq<string>, ghost vs: seq<Score>)
    returns (value: Score, bestMove: Option<string>)
    requires moves == Moves(b) && vs == ChildValues(AsWritten, b, depth, true, token, |moves|)
    ensures (value, bestMove) == Best(vs, moves, |moves|, true)
    decreases DotCount(b), 1
  {
    value, bestMove := NegInf, None;
    for k := 0 to |moves|
      invariant (value, bestMove) == Best(vs, moves, k, true)
    {
      var eval := MinimaxChild(b, depth, token, moves, vs, k);
      if Less(value, eval) {
        value, bestMove := eval, Some(moves[k]);
      }
    }
  }

  /**
   * The minimizing loop of `minimax`: return (-inf, None) at the first
   * opponent move after which the agent has five in a row, otherwise keep
   * the first strictly smaller child value.
   */
  method MinimaxMinScan(b: Board, depth: int, token: Token, moves: seq<string>, ghost vs: seq<Score>)
    returns (value: Score, bestMove: Option<string>)
    requires moves == Moves(b) && vs == ChildValues(AsWritten, b, depth, false, token, |moves|)
    ensures (value, bestMove) == if WinningReply(b, Opponent(token), token, |moves|) then (NegInf, None)
                                 else Best(vs, moves, |moves|, false)
    decreases DotCount(b), 1
  {
    value, bestMove := PosInf, None;
    for k := 0 to |moves|
      invariant (value, bestMove) == Best(vs, moves, k, false)
      invariant !WinningReply(b, Opponent(token), token, k)
    {
      var agentWon, eval := MinimaxReply(b, depth, token, moves, vs, k);
      if agentWon {
        WinningReplyGrows(b, Opponent(token), token, k + 1, |moves|);
        return NegInf, None;
      }
      if Less(eval, value) {
        value, bestMove := eval, Some(moves[k]);
      }
    }
  }

  /** One child of a maximizing node: apply the agent's move and search below it. */
  method MinimaxChild(b: Board, depth: int, token: Token, moves: seq<string>, ghost vs: seq<Score>, k: nat)
    returns (eval: Score)
    requires moves == Moves(b) && vs == ChildValues(AsWritten, b, depth, true, token, |moves|) && k < |moves|
    ensures eval == vs[k]
    decreases DotCount(b), 0
  {
    ChildValuesAt(AsWritten, b, depth, true, token, |moves|, k);
    ChildFillsOneCell(b, token, k);
    MoveDecodesToEmptyCell(b, moves[k]);
    var newBoard := ApplyMove(b, moves[k], token);
    var value, _ := Minimax(newBoard, depth - 1, false, token);
    eval := value;
  }

  /**
   * One child of a minimizing node: apply the opponent's move, test `win`
   * for the agent and, when it fails, search below it.
   */
  method MinimaxReply(b: Board, depth: int, token: Token, moves: seq<string>, ghost vs: seq<Score>, k: nat)
    returns (agentWon: bool, eval: Score)
    requires moves == Moves(b) && vs == ChildValues(AsWritten, b, depth, false, token, |moves|) && k < |moves|
    requires !WinningReply(b, Opponent(token), token, k)
    ensures agentWon == WinningReply(b, Opponent(token), token, k + 1)
    ensures !agentWon ==> eval == vs[k]
    decreases DotCount(b), 0
  {
    var opponentToken: Token := if token == 'w' then 'b' else 'w';
    ChildValuesAt(AsWritten, b, depth, false, token, |moves|, k);
    ChildFillsOneCell(b, opponentToken, k);
    MoveDecodesToEmptyCell(b, moves[k]);
    var newBoard := ApplyMove(b, moves[k], opponentToken);
    agentWon := Win(newBoard, token);
    if agentWon {
      return agentWon, NegInf;
    }
    var value, _ := Minimax(newBoard, depth - 1, true, token);
    eval := value;
  }

  /** `Minimax.get_move`: the move of a maximizing search to the depth limit. */
  method MinimaxGetMove(b: Board, depthLimit: int, token: Token) returns (move: Option<string>)
    ensures move == MinimaxValue(AsWritten, b, depthLimit, true, token).1
    ensures move.None? || move.value in Moves(b)
  {
    MinimaxMoveIsLegal(AsWritten, b, depthLimit, true, token);
    var _, best := Minimax(b, depthLimit, true, token);
    move := best;
  }

  /** The move the search returns is None or one of the board's legal moves. */
  lemma MinimaxMoveIsLegal(rule: Rule, b: Board, depth: int, maximizing: bool, token: Token)
    ensures var r := MinimaxValue(rule, b, depth, maximizing, token); r.1.None? || r.1.value in Moves(b)
  {
    if !(depth == 0 || HasWin(b, token)) {
      BestMoveIn(ChildValues(rule, b, depth, maximizing, token, |Moves(b)|), Moves(b), |Moves(b)|, maximizing);
    }
  }

  /**
   * At a maximizing node the search returns the largest child value and the
   * first move reaching it (None, with -inf, when there is no move or every
   * child is -inf).
   */
  lemma MinimaxMaxNode(rule: Rule, b: Board, depth: int, token: Token)
    requires depth != 0 && !HasWin(b, token)
    ensures var r, vs, ms := MinimaxValue(rule, b, depth, true, token), ChildValues(rule, b, depth, true, token, |Moves(b)|), Moves(b);
      && (forall k | 0 <= k < |ms| :: Le(vs[k], r.0))
      && (r.1.None? <==> r.0 == NegInf && forall k | 0 <= k < |ms| :: vs[k] == NegInf)
      && (r.1.Some? ==> exists k :: 0 <= k < |ms| && r.1.value == ms[k] && r.0 == vs[k] &&
                                   forall j | 0 <= j < k :: Less(vs[j], vs[k]))
  {
    BestIsFirstExtreme(ChildValues(rule, b, depth, true, token, |Moves(b)|), Moves(b), |Moves(b)|, true);
  }

  /**
   * At a minimizing node that does not give up, the search returns the least
   * child value (inf when there is no move) and the first move reaching it.
   */
  lemma MinimaxMinNode(rule: Rule, b: Board, depth: int, token: Token)
    requires depth != 0 && !HasWin(b, token) && !GivesUp(rule, b, token)
    ensures var r, vs, ms := MinimaxValue(rule, b, depth, false, token), ChildValues(rule, b, depth, false, token, |Moves(b)|), Moves(b);
      && (forall k | 0 <= k < |ms| :: Le(r.0, vs[k]))
      && (r.1.None? <==> r.0 == PosInf && forall k | 0 <= k < |ms| :: vs[k] == PosInf)
      && (r.1.Some? ==> exists k :: 0 <= k < |ms| && r.1.value == ms[k] && r.0 == vs[k] &&
                                   forall j | 0 <= j < k :: Less(vs[k], vs[j]))
  {
    BestIsFirstExtreme(ChildValues(rule, b, depth, false, token, |Moves(b)|), Moves(b), |Moves(b)|, false);
  }

  /**
   * A minimizing node gives up with (-inf, None), whatever the other moves
   * give, exactly when some opponent reply leaves a board on which the
   * watched token has five in a row: the agent's own token as written.
   */
  lemma MinimaxGivesUp(rule: Rule, b: Board, depth: int, token: Token)
    requires depth != 0 && !HasWin(b, token) && rule != Unpruned
    ensures GivesUp(rule, b, token) <==>
            exists k :: 0 <= k < |Moves(b)| && HasWin(Child(b, Opponent(token), k), Watched(rule, token))
    ensures GivesUp(rule, b, token) ==> MinimaxValue(rule, b, depth, false, token) == (NegInf, None)
  {
    WinningReplyIff(b, Opponent(token), Watched(rule, token), |Moves(b)|);
  }

  /** One opponent reply that gives the watched token five in a row is enough to give up. */
  lemma MinimaxGivesUpOnReply(rule: Rule, b: Board, depth: int, token: Token, m: string)
    requires depth != 0 && !HasWin(b, token) && rule != Unpruned
    requires m in Moves(b) && IsMoveText(m) && HasWin(Applied(b, m, Opponent(token)), Watched(rule, token))
    ensures MinimaxValue(rule, b, depth, false, token) == (NegInf, None)
  {
    var k :| 0 <= k < |Moves(b)| && Moves(b)[k] == m;
    assert HasWin(Child(b, Opponent(token), k), Watched(rule, token));
    MinimaxGivesUp(rule, b, depth, token);
  }

  // ---------------------------------------------------------------------
  // The test only ever lowers a value
  // ---------------------------------------------------------------------

  /** Any minimizing-node test gives at most the value of the unpruned search. */
  lemma {:induction false} MinimaxBelowUnpruned(rule: Rule, b: Board, depth: int, maximizing: bool, token: Token)
    ensures Le(MinimaxValue(rule, b, depth, maximizing, token).0, MinimaxValue(Unpruned, b, depth, maximizing, token).0)
    decreases DotCount(b), 1
  {
    if !(depth == 0 || HasWin(b, token)) {
      var ms := Moves(b);
      var vs := ChildValues(rule, b, depth, maximizing, token, |ms|);
      var ws := ChildValues(Unpruned, b, depth, maximizing, token, |ms|);
      forall k | 0 <= k < |ms| ensures Le(vs[k], ws[k]) {
        ChildBelowUnpruned(rule, b, depth, maximizing, token, k);
      }
      BestMonotone(vs, ws, ms, |ms|, maximizing);
    }
  }

  lemma {:induction false} ChildBelowUnpruned(rule: Rule, b: Board, depth: int, maximizing: bool, token: Token, k: nat)
    requires k < |Moves(b)|
    ensures Le(ChildValues(rule, b, depth, maximizing, token, |Moves(b)|)[k],
               ChildValues(Unpruned, b, depth, maximizing, token, |Moves(b)|)[k])
    decreases DotCount(b), 0
  {
    ChildValuesAt(rule, b, depth, maximizing, token, |Moves(b)|, k);
    ChildValuesAt(Unpruned, b, depth, maximizing, token, |Moves(b)|, k);
    ChildFillsOneCell(b, Mover(token, maximizing), k);
    MinimaxBelowUnpruned(rule, Child(b, Mover(token, maximizing), k), depth - 1, !maximizing, token);
  }

  /** No minimizing node of the searched tree gives up. */
  predicate NeverGivesUp(rule: Rule, b: Board, depth: int, maximizing: bool, token: Token)
    decreases DotCount(b)
  {
    depth == 0 || HasWin(b, token) ||
    ((maximizing || !GivesUp(rule, b, token)) &&
     forall k | 0 <= k < |Moves(b)| ::
       ChildFillsOneCell(b, Mover(token, maximizing), k);
       NeverGivesUp(rule, Child(b, Mover(token, maximizing), k), depth - 1, !maximizing, token))
  }

  /** When no node gives up, the search computes the unpruned value. */
  lemma {:induction false} MinimaxIsUnprunedWhenNeverGivingUp(rule: Rule, b: Board, depth: int, maximizing: bool, token: Token)
    requires NeverGivesUp(rule, b, depth, maximizing, token)
    ensures MinimaxValue(rule, b, depth, maximizing, token).0 == MinimaxValue(Unpruned, b, depth, maximizing, token).0
    decreases DotCount(b), 1
  {
    if !(depth == 0 || HasWin(b, token)) {
      var vs := ChildValues(rule, b, depth, maximizing, token, |Moves(b)|);
      var ws := ChildValues(Unpruned, b, depth, maximizing, token, |Moves(b)|);
      forall k | 0 <= k < |Moves(b)| ensures vs[k] == ws[k] {
        ChildIsUnpruned(rule, b, depth, maximizing, token, k);
      }
      assert vs == ws;
    }
  }

  lemma {:induction false} ChildIsUnpruned(rule: Rule, b: Board, depth: int, maximizing: bool, token: Token, k: nat)
    requires k < |Moves(b)| && depth != 0 && !HasWin(b, token)
    requires NeverGivesUp(rule, b, depth, maximizing, token)
    ensures ChildValues(rule, b, depth, maximizing, token, |Moves(b)|)[k] ==
            ChildValues(Unpruned, b, depth, maximizing, token, |Moves(b)|)[k]
    decreases DotCount(b), 0
  {
    ChildValuesAt(rule, b, depth, maximizing, token, |Moves(b)|, k);
    ChildValuesAt(Unpruned, b, depth, maximizing, token, |Moves(b)|, k);
    ChildFillsOneCell(b, Mover(token, maximizing), k);
    MinimaxIsUnprunedWhenNeverGivingUp(rule, Child(b, Mover(token, maximizing), k), depth - 1, !maximizing, token);
  }
}
