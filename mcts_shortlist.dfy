/**
 * `Minimax_mcts.minimax_for_mcts` of agents.py: score every move by the
 * heuristic of the board it leads to, keep the `top_n` best (score, move)
 * pairs, re-score those by a one-ply minimizing `minimax` and return their
 * moves ordered by that second score.  Python's `list.sort` is modelled by
 * the stable insertion order it is documented to produce.
 */
module MctsShortlist {
  import opened Pentago
  import opened Agents
  import opened AgentSearch

  /** A `(score, move)` pair of the source's two lists. */
  datatype Entry = Entry(score: Score, move: string)

  // ---------------------------------------------------------------------
  // Python's string order
  // ---------------------------------------------------------------------

  /** `a < b` on Python strings: code point by code point, a proper prefix first. */
  predicate StrLess(a: string, b: string)
  {
    if a == [] then b != []
    else if b == [] then false
    else if a[0] != b[0] then a[0] < b[0]
    else StrLess(a[1..], b[1..])
  }

  lemma {:induction false} StrLessAsymmetric(a: string, b: string)
    ensures !(StrLess(a, b) && StrLess(b, a))
  {
    if a != [] && b != [] && a[0] == b[0] {
      StrLessAsymmetric(a[1..], b[1..]);
    }
  }

  lemma {:induction false} StrLessTotal(a: string, b: string)
    ensures a == b || StrLess(a, b) || StrLess(b, a)
  {
    if a != [] && b != [] && a[0] == b[0] {
      StrLessTotal(a[1..], b[1..]);
      if a[1..] == b[1..] {
        assert a == [a[0]] + a[1..] && b == [b[0]] + b[1..];
      }
    }
  }

  lemma {:induction false} StrLessTransitive(a: string, b: string, c: string)
    requires StrLess(a, b) && StrLess(b, c)
    ensures StrLess(a, c)
  {
    if a != [] && a[0] == b[0] && b[0] == c[0] {
      StrLessTransitive(a[1..], b[1..], c[1..]);
    }
  }

  // ---------------------------------------------------------------------
  // Stable descending sort
  // ---------------------------------------------------------------------

  /**
   * `x` may come before `y` in a descending order: by the whole pair
   * `(score, move)` for the first sort (`sort(reverse=True)` compares
   * tuples), by the score alone for the second (`key=lambda x: -x[0]`).
   */
  predicate AtLeast(x: Entry, y: Entry, byMove: bool)
  {
    if byMove then Less(y.score, x.score) || (x.score == y.score && !StrLess(x.move, y.move))
    else Le(y.score, x.score)
  }

  lemma AtLeastTotal(x: Entry, y: Entry, byMove: bool)
    ensures AtLeast(x, y, byMove) || AtLeast(y, x, byMove)
  {
    StrLessAsymmetric(x.move, y.move);
  }

  lemma AtLeastTransitive(x: Entry, y: Entry, z: Entry, byMove: bool)
    requires AtLeast(x, y, byMove) && AtLeast(y, z, byMove)
    ensures AtLeast(x, z, byMove)
  {
    if byMove && x.score == y.score && y.score == z.score && StrLess(x.move, z.move) {
      StrLessTotal(x.move, y.move);
      StrLessTotal(y.move, z.move);
      if x.move != y.move && y.move != z.move {
        StrLessTransitive(z.move, y.move, x.move);
        StrLessAsymmetric(x.move, z.move);
      }
    }
  }

  /** Insert x before the first entry it is at least: after every strictly greater one. */
  function Insert(x: Entry, ys: seq<Entry>, byMove: bool): (r: seq<Entry>)
    ensures |r| == |ys| + 1
  {
    if ys == [] || AtLeast(x, ys[0], byMove) then [x] + ys
    else [ys[0]] + Insert(x, ys[1..], byMove)
  }

  /** A stable sort into descending order. */
  function SortDesc(xs: seq<Entry>, byMove: bool): (r: seq<Entry>)
    ensures |r| == |xs|
  {
    if xs == [] then [] else Insert(xs[0], SortDesc(xs[1..], byMove), byMove)
  }

  predicate Sorted(xs: seq<Entry>, byMove: bool)
  {
    forall i, j | 0 <= i < j < |xs| :: AtLeast(xs[i], xs[j], byMove)
  }

  predicate AllBelow(y: Entry, xs: seq<Entry>, byMove: bool)
  {
    forall i | 0 <= i < |xs| :: AtLeast(y, xs[i], byMove)
  }

  lemma {:induction false} InsertPermutes(x: Entry, ys: seq<Entry>, byMove: bool)
    ensures multiset(Insert(x, ys, byMove)) == multiset(ys) + multiset{x}
  {
    if !(ys == [] || AtLeast(x, ys[0], byMove)) {
      InsertPermutes(x, ys[1..], byMove);
      assert ys == [ys[0]] + ys[1..];
    }
  }

  lemma {:induction false} InsertBelow(y: Entry, x: Entry, ys: seq<Entry>, byMove: bool)
    requires AllBelow(y, ys, byMove) && AtLeast(y, x, byMove)
    ensures AllBelow(y, Insert(x, ys, byMove), byMove)
  {
    if !(ys == [] || AtLeast(x, ys[0], byMove)) {
      InsertBelow(y, x, ys[1..], byMove);
    }
  }

  lemma {:induction false} InsertSorted(x: Entry, ys: seq<Entry>, byMove: bool)
    requires Sorted(ys, byMove)
    ensures Sorted(Insert(x, ys, byMove), byMove)
  {
    var r := Insert(x, ys, byMove);
    if ys == [] || AtLeast(x, ys[0], byMove) {
      forall j | 1 <= j < |r| ensures AtLeast(x, r[j], byMove) {
        if j > 1 {
          AtLeastTransitive(x, ys[0], ys[j - 1], byMove);
        }
      }
    } else {
      InsertSorted(x, ys[1..], byMove);
      AtLeastTotal(x, ys[0], byMove);
      InsertBelow(ys[0], x, ys[1..], byMove);
    }
  }

  /** The sort yields a descending order. */
  lemma {:induction false} SortDescSorted(xs: seq<Entry>, byMove: bool)
    ensures Sorted(SortDesc(xs, byMove), byMove)
  {
    if xs != [] {
      SortDescSorted(xs[1..], byMove);
      InsertSorted(xs[0], SortDesc(xs[1..], byMove), byMove);
    }
  }

  /** The sort only reorders. */
  lemma {:induction false} SortDescPermutes(xs: seq<Entry>, byMove: bool)
    ensures multiset(SortDesc(xs, byMove)) == multiset(xs)
  {
    if xs != [] {
      SortDescPermutes(xs[1..], byMove);
      InsertPermutes(xs[0], SortDesc(xs[1..], byMove), byMove);
      assert xs == [xs[0]] + xs[1..];
    }
  }

  /** The entries with score v, in order. */
  function WithScore(xs: seq<Entry>, v: Score): (r: seq<Entry>)
    ensures |r| <= |xs|
  {
    if xs == [] then [] else (if xs[0].score == v then [xs[0]] else []) + WithScore(xs[1..], v)
  }

  lemma {:induction false} InsertStable(x: Entry, ys: seq<Entry>, v: Score)
    ensures WithScore(Insert(x, ys, false), v) == (if x.score == v then [x] else []) + WithScore(ys, v)
  {
    if !(ys == [] || AtLeast(x, ys[0], false)) {
      InsertStable(x, ys[1..], v);
      assert ([ys[0]] + Insert(x, ys[1..], false))[1..] == Insert(x, ys[1..], false);
    }
  }

  /** Sorting by score alone is stable: entries with equal scores keep their order. */
  lemma {:induction false} SortDescStable(xs: seq<Entry>, v: Score)
    ensures WithScore(SortDesc(xs, false), v) == WithScore(xs, v)
  {
    if xs != [] {
      SortDescStable(xs[1..], v);
      InsertStable(xs[0], SortDesc(xs[1..], false), v);
    }
  }

  /** Python's slice `xs[:n]`, where a negative n drops that many entries from the end. */
  function Prefix(xs: seq<Entry>, n: int): (r: seq<Entry>)
    ensures 0 <= n ==> |r| == if n < |xs| then n else |xs|
    ensures |r| <= |xs| && r == xs[..|r|]
  {
    if n >= 0 then (if n < |xs| then xs[..n] else xs)
    else (if |xs| + n > 0 then xs[..|xs| + n] else [])
  }

  // ---------------------------------------------------------------------
  // minimax_for_mcts
  // ---------------------------------------------------------------------

  /** Every entry's move is a legal move of the board. */
  predicate FromMoves(es: seq<Entry>, b: Board)
  {
    forall i | 0 <= i < |es| :: es[i].move in Moves(b)
  }

  /**
   * `(sg3824_h(board.apply_move(move, token)), move)` for the first n moves,
   * in move order.  The score is the value a one-ply minimax search gives
   * the move: the heuristic of the board it leads to (LeafScore).
   */
  function Candidates(b: Board, token: Token, n: nat): (es: seq<Entry>)
    requires n <= |Moves(b)|
    ensures |es| == n
  {
    if n == 0 then []
    else Candidates(b, token, n - 1) + [Entry(ChildValue(AsWritten, b, 1, true, token, n - 1), Moves(b)[n - 1])]
  }

  /** The first-stage score of the k-th move is `sg3824_h` of the board after it. */
  lemma LeafScore(b: Board, token: Token, k: nat)
    requires k < |Moves(b)|
    ensures ChildValue(AsWritten, b, 1, true, token, k) == Fin(Heuristic(Child(b, token, k), token))
  {
    ChildFillsOneCell(b, token, k);
  }

  lemma {:induction false} CandidatesMoves(b: Board, token: Token, n: nat)
    requires n <= |Moves(b)|
    ensures forall i | 0 <= i < n :: Candidates(b, token, n)[i].move == Moves(b)[i]
  {
    if n > 0 {
      CandidatesMoves(b, token, n - 1);
    }
  }

  /** The first stage: the candidates sorted by (score, move) descending, cut to top_n. */
  function Top(b: Board, token: Token, topN: int): seq<Entry>
  {
    Prefix(SortDesc(Candidates(b, token, |Moves(b)|), true), topN)
  }

  /** The position of the first occurrence of m in ms. */
  function IndexOf(ms: seq<string>, m: string): (k: nat)
    requires m in ms
    ensures k < |ms| && ms[k] == m
  {
    if ms[0] == m then 0 else 1 + IndexOf(ms[1..], m)
  }

  /**
   * `minimax(board.apply_move(move, token), 1, False)[0]`: the value a
   * two-ply minimax search gives the move (ReplyValueIsMinimax).
   */
  function ReplyValue(b: Board, token: Token, m: string): Score
    requires m in Moves(b)
  {
    ChildValue(AsWritten, b, 2, true, token, IndexOf(Moves(b), m))
  }

  /** The second-stage score of a move is the one-ply minimizing search of the board after it. */
  lemma ReplyValueIsMinimax(b: Board, token: Token, m: string)
    requires m in Moves(b)
    ensures IsMoveText(m) && ReplyValue(b, token, m) == MinimaxValue(AsWritten, Applied(b, m, token), 1, false, token).0
  {
    var k := IndexOf(Moves(b), m);
    ChildFillsOneCell(b, token, k);
    MoveDecodesToEmptyCell(b, m);
  }

  /** `(opponent_score, move)` for the first n entries of es. */
  function Rescored(b: Board, token: Token, es: seq<Entry>, n: nat): (rs: seq<Entry>)
    requires n <= |es| && FromMoves(es, b)
    ensures |rs| == n
  {
    if n == 0 then []
    else Rescored(b, token, es, n - 1) + [Entry(ReplyValue(b, token, es[n - 1].move), es[n - 1].move)]
  }

  lemma {:induction false} RescoredEntries(b: Board, token: Token, es: seq<Entry>, n: nat)
    requires n <= |es| && FromMoves(es, b)
    ensures forall i | 0 <= i < n :: Rescored(b, token, es, n)[i] == Entry(ReplyValue(b, token, es[i].move), es[i].move)
  {
    if n > 0 {
      RescoredEntries(b, token, es, n - 1);
    }
  }

  lemma TopFromMoves(b: Board, token: Token, topN: int)
    ensures FromMoves(Top(b, token, topN), b)
  {
    var cs := Candidates(b, token, |Moves(b)|);
    CandidatesMoves(b, token, |Moves(b)|);
    SortDescPermutes(cs, true);
    var s := SortDesc(cs, true);
    forall i | 0 <= i < |Top(b, token, topN)| ensures Top(b, token, topN)[i].move in Moves(b) {
      assert s[i] in multiset(cs);
    }
  }

  /** The second stage: the kept entries re-scored and sorted by that score, descending. */
  function Final(b: Board, token: Token, topN: int): seq<Entry>
  {
    TopFromMoves(b, token, topN);
    var top := Top(b, token, topN);
    SortDesc(Rescored(b, token, top, |top|), false)
  }

  /** The moves of a list of entries: `[move for _, move in entries]`. */
  function MovesOf(es: seq<Entry>): (ms: seq<string>)
    ensures |ms| == |es| && forall i | 0 <= i < |es| :: ms[i] == es[i].move
  {
    if es == [] then [] else [es[0].move] + MovesOf(es[1..])
  }

  /** What `minimax_for_mcts(board, top_n)` returns. */
  function Shortlist(b: Board, token: Token, topN: int): seq<string>
  {
    MovesOf(Prefix(Final(b, token, topN), topN))
  }

  /** The first loop of `minimax_for_mcts`: every move with the heuristic of the board it leads to. */
  method ScoreMoves(b: Board, token: Token) returns (bestMoves: seq<Entry>)
    ensures bestMoves == Candidates(b, token, |Moves(b)|)
  {
    var moves := GetMoves(b);
    bestMoves := [];
    for k := 0 to |moves|
      invariant bestMoves == Candidates(b, token, k)
    {
      MoveDecodesToEmptyCell(b, moves[k]);
      LeafScore(b, token, k);
      var newBoard := ApplyMove(b, moves[k], token);
      var score := Sg3824H(newBoard, token);
      bestMoves := bestMoves + [Entry(Fin(score), moves[k])];
    }
  }

  /** The second loop of `minimax_for_mcts`: each kept move with its one-ply minimizing value. */
  method RescoreMoves(b: Board, token: Token, bestMoves: seq<Entry>) returns (finalMoves: seq<Entry>)
    requires FromMoves(bestMoves, b)
    ensures finalMoves == Rescored(b, token, bestMoves, |bestMoves|)
  {
    finalMoves := [];
    for k := 0 to |bestMoves|
      invariant finalMoves == Rescored(b, token, bestMoves, k)
    {
      var move := bestMoves[k].move;
      ReplyValueIsMinimax(b, token, move);
      var newBoard := ApplyMove(b, move, token);
      var opponentScore, _ := Minimax(newBoard, 1, false, token);
      finalMoves := finalMoves + [Entry(opponentScore, move)];
    }
  }

  /** `Minimax_mcts.minimax_for_mcts`. */
  method MinimaxForMcts(b: Board, token: Token, topN: int) returns (shortlist: seq<string>)
    ensures shortlist == Shortlist(b, token, topN)
  {
    var bestMoves := ScoreMoves(b, token);
    bestMoves := SortDesc(bestMoves, true);
    bestMoves := Prefix(bestMoves, topN);
    TopFromMoves(b, token, topN);
    var finalMoves := RescoreMoves(b, token, bestMoves);
    finalMoves := SortDesc(finalMoves, false);
    shortlist := MovesOf(Prefix(finalMoves, topN));
  }

  // ---------------------------------------------------------------------
  // What the shortlist promises
  // ---------------------------------------------------------------------

  /**
   * Sorting descending and cutting keeps the best entries: the kept ones
   * are in descending order, and together with the dropped ones they are
   * exactly the input, each kept one at least every dropped one.
   */
  lemma CutKeepsBest(cs: seq<Entry>, n: int, byMove: bool)
    ensures var top := Prefix(SortDesc(cs, byMove), n);
      && Sorted(top, byMove)
      && exists dropped: seq<Entry> ::
           && multiset(top) + multiset(dropped) == multiset(cs)
           && forall i, j | 0 <= i < |top| && 0 <= j < |dropped| :: AtLeast(top[i], dropped[j], byMove)
  {
    var s := SortDesc(cs, byMove);
    SortDescSorted(cs, byMove);
    SortDescPermutes(cs, byMove);
    var k := |Prefix(s, n)|;
    assert Prefix(s, n) == s[..k];
    CutSplits(s, k, cs, byMove);
  }

  /** A cut of a sorted arrangement of cs keeps a sorted head that is at least everything it drops. */
  lemma CutSplits(s: seq<Entry>, k: nat, cs: seq<Entry>, byMove: bool)
    requires Sorted(s, byMove) && k <= |s| && multiset(s) == multiset(cs)
    ensures Sorted(s[..k], byMove)
    ensures exists dropped: seq<Entry> ::
      && multiset(s[..k]) + multiset(dropped) == multiset(cs)
      && forall i, j | 0 <= i < k && 0 <= j < |dropped| :: AtLeast(s[..k][i], dropped[j], byMove)
  {
    SortedCut(s, k, byMove);
    CutPermutes(s, k);
    var dropped := s[k..];
    assert multiset(s[..k]) + multiset(dropped) == multiset(cs);
  }

  lemma CutPermutes(s: seq<Entry>, k: nat)
    requires k <= |s|
    ensures multiset(s[..k]) + multiset(s[k..]) == multiset(s)
  {
    assert s[..k] + s[k..] == s;
  }

  /** A cut of a sorted list: both halves stay sorted, and the head is at least the tail. */
  lemma SortedCut(s: seq<Entry>, k: nat, byMove: bool)
    requires Sorted(s, byMove) && k <= |s|
    ensures Sorted(s[..k], byMove)
    ensures forall i, j | 0 <= i < k && 0 <= j < |s| - k :: AtLeast(s[..k][i], s[k..][j], byMove)
  {
    forall i, j | 0 <= i < k && 0 <= j < |s| - k ensures AtLeast(s[..k][i], s[k..][j], byMove) {
      assert s[..k][i] == s[i] && s[k..][j] == s[k + j];
    }
  }

  /** The first stage keeps the top_n best (score, move) pairs of all the scored moves. */
  lemma TopIsBest(b: Board, token: Token, topN: int)
    ensures var top := Top(b, token, topN);
      && Sorted(top, true)
      && exists dropped: seq<Entry> ::
           && multiset(top) + multiset(dropped) == multiset(Candidates(b, token, |Moves(b)|))
           && forall i, j | 0 <= i < |top| && 0 <= j < |dropped| :: AtLeast(top[i], dropped[j], true)
  {
    CutKeepsBest(Candidates(b, token, |Moves(b)|), topN, true);
  }

  /**
   * The shortlist holds at most top_n moves (exactly min(top_n, number of
   * moves) for a non-negative top_n), every one a legal move, in descending
   * order of their depth-one minimax value.
   */
  lemma ShortlistShape(b: Board, token: Token, topN: int)
    ensures var ms := Shortlist(b, token, topN);
      && (0 <= topN ==> |ms| == if topN < |Moves(b)| then topN else |Moves(b)|)
      && (forall i | 0 <= i < |ms| :: ms[i] in Moves(b))
      && forall i, j | 0 <= i < j < |ms| :: Le(ReplyValue(b, token, ms[j]), ReplyValue(b, token, ms[i]))
  {
    TopFromMoves(b, token, topN);
    var top := Top(b, token, topN);
    var rs := Rescored(b, token, top, |top|);
    RescoredEntries(b, token, top, |top|);
    var f := SortDesc(rs, false);
    SortDescSorted(rs, false);
    SortDescPermutes(rs, false);
    RescoredKept(b, token, rs, f, topN);
  }

  /** Every entry kept from a reordering of rescored legal moves is a legal move carrying its minimax value. */
  lemma RescoredKept(b: Board, token: Token, rs: seq<Entry>, f: seq<Entry>, n: int)
    requires multiset(f) == multiset(rs)
    requires forall q | 0 <= q < |rs| :: rs[q].move in Moves(b) && rs[q].score == ReplyValue(b, token, rs[q].move)
    ensures forall i | 0 <= i < |Prefix(f, n)| ::
      Prefix(f, n)[i].move in Moves(b) && Prefix(f, n)[i].score == ReplyValue(b, token, Prefix(f, n)[i].move)
  {
    var p := Prefix(f, n);
    forall i | 0 <= i < |p| ensures p[i].move in Moves(b) && p[i].score == ReplyValue(b, token, p[i].move) {
      assert p[i] == f[i];
      assert f[i] in multiset(rs);
      var q :| 0 <= q < |rs| && rs[q] == f[i];
    }
  }

  /**
   * The second sort is stable: moves with equal minimax values stay in
   * their first-stage order, and no kept entry is lost or added.
   */
  lemma FinalIsStableReorder(b: Board, token: Token, topN: int, v: Score)
    ensures var top := Top(b, token, topN);
      FromMoves(top, b) &&
      var rs := Rescored(b, token, top, |top|);
      && multiset(Final(b, token, topN)) == multiset(rs)
      && WithScore(Final(b, token, topN), v) == WithScore(rs, v)
  {
    TopFromMoves(b, token, topN);
    var top := Top(b, token, topN);
    var rs := Rescored(b, token, top, |top|);
    SortDescPermutes(rs, false);
    SortDescStable(rs, v);
  }
}
