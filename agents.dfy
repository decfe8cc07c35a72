/**
 * The evaluation part of the Pentago agents of agents.py: the `Player` record,
 * five-in-a-row detection and the heuristic `sg3824_h` with its three terms
 * (line scoring, twist potential and mobility).  Each loop of the source is a
 * method proved equal to a specification function; the search code of
 * agent_search.dfy evaluates positions with those functions.
 */
module Agents {
  import opened Common
  import opened Pentago

  const WinningScore := 1000000
  const LosingScore := -1000000

  /** The two player tokens. */
  type Token = c: char | c == 'b' || c == 'w' witness 'b'

  /** A constructed `Player`: its number, its (lower-case) token and its limits. */
  datatype Player = Player(playerNumber: string, token: Token, depthLimit: int, timeLimit: int)

  /**
   * `Player.__init__`: the token is stored, lower-cased, only when it is "b" or
   * "w" in either case.  Any other token leaves the object without a `token`
   * attribute, which the first use turns into an AttributeError: None here.
   */
  function NewPlayer(playerNumber: string, token: string, depthLimit: int, timeLimit: int): (r: Option<Player>)
    ensures r.Some? <==> token in ["b", "B", "w", "W"]
    ensures r.Some? ==> r.value.token == (if token in ["b", "B"] then 'b' else 'w')
    ensures r.Some? ==> r.value.playerNumber == playerNumber && r.value.depthLimit == depthLimit
  {
    if token == "b" || token == "B" then Some(Player(playerNumber, 'b', depthLimit, timeLimit))
    else if token == "w" || token == "W" then Some(Player(playerNumber, 'w', depthLimit, timeLimit))
    else None
  }

  /** The token of the other player, as the search computes it. */
  function Opponent(token: Token): (o: Token)
    ensures o != token
  {
    if token == 'w' then 'b' else 'w'
  }

  // ---------------------------------------------------------------------
  // Five in a row
  // ---------------------------------------------------------------------

  /**
   * The four directions `win` scans, numbered 0..3: rightward along a row,
   * downward along a column, down-right and down-left.  Step k from (i, j) in
   * direction d is the cell (RowAt(i, d, k), ColAt(j, d, k)).
   */
  function RowAt(i: int, d: int, k: int): int
  {
    if d == 0 then i else i + k
  }

  function ColAt(j: int, d: int, k: int): int
  {
    if d == 1 then j else if d == 3 then j - k else j + k
  }

  /** The start cells `win` tries for each direction. */
  predicate StartOk(i: int, j: int, d: int)
  {
    && 0 <= i < 6 && 0 <= j < 6 && 0 <= d < 4
    && (d == 0 ==> j <= 1)
    && (d == 1 ==> i <= 1)
    && (d == 2 ==> i <= 1 && j <= 1)
    && (d == 3 ==> i <= 1 && j >= 4)
  }

  /** Step k (0..4) from the start cell (i, j) in direction d. */
  function RunCell(b: Board, i: int, j: int, d: int, k: int): char
    requires StartOk(i, j, d) && 0 <= k < 5
  {
    b.grid[RowAt(i, d, k)][ColAt(j, d, k)]
  }

  /** The first n steps from (i, j) in direction d all hold `token`. */
  predicate RunPrefix(b: Board, token: char, i: int, j: int, d: int, n: nat)
    requires StartOk(i, j, d) && n <= 5
  {
    n == 0 || (RunPrefix(b, token, i, j, d, n - 1) && RunCell(b, i, j, d, n - 1) == token)
  }

  /** A run of m cells contains the run of its first n cells. */
  lemma {:induction false} RunPrefixShorter(b: Board, token: char, i: int, j: int, d: int, n: nat, m: nat)
    requires StartOk(i, j, d) && n <= m <= 5
    ensures RunPrefix(b, token, i, j, d, m) ==> RunPrefix(b, token, i, j, d, n)
  {
    if n < m {
      RunPrefixShorter(b, token, i, j, d, n, m - 1);
    }
  }

  /** Five `token` cells from (i, j) in direction d. */
  predicate Run(b: Board, token: char, i: int, j: int, d: int)
  {
    StartOk(i, j, d) && RunPrefix(b, token, i, j, d, 5)
  }

  /** The player owning `token` has five in a row somewhere on the board. */
  predicate FiveInARow(b: Board, token: char)
  {
    exists i, j, d | 0 <= i < 6 && 0 <= j < 6 && 0 <= d < 4 :: Run(b, token, i, j, d)
  }

  function Indicator(p: bool): nat { if p then 1 else 0 }

  /** The wins `win` counts at cell (i, j): one per direction with a run. */
  function CellWins(b: Board, token: char, i: int, j: int): nat
  {
    Indicator(Run(b, token, i, j, 0)) + Indicator(Run(b, token, i, j, 1))
    + Indicator(Run(b, token, i, j, 2)) + Indicator(Run(b, token, i, j, 3))
  }

  /** `numWins` after the first k cells in row-major order. */
  function WinsBefore(b: Board, token: char, k: nat): nat
    requires k <= 36
  {
    if k == 0 then 0 else WinsBefore(b, token, k - 1) + CellWins(b, token, (k - 1) / 6, (k - 1) % 6)
  }

  /** The count is positive exactly when some run starts at one of the first k cells. */
  lemma {:induction false} WinsBeforePositive(b: Board, token: char, k: nat)
    requires k <= 36
    ensures WinsBefore(b, token, k) > 0 <==> exists c, d :: 0 <= c < k && Run(b, token, c / 6, c % 6, d)
  {
    if k > 0 {
      WinsBeforePositive(b, token, k - 1);
      var c := k - 1;
      if CellWins(b, token, c / 6, c % 6) > 0 {
        var d :| 0 <= d < 4 && Run(b, token, c / 6, c % 6, d);
      }
    }
  }

  /** `win(board)`: the scan over all 36 cells counted at least one run. */
  predicate HasWin(b: Board, token: char)
  {
    WinsBefore(b, token, 36) > 0
  }

  /**
   * `win` holds exactly when the token has five in a row from a start cell in
   * one of the four directions.
   */
  lemma HasWinIff(b: Board, token: char)
    ensures HasWin(b, token) <==> FiveInARow(b, token)
  {
    WinsBeforePositive(b, token, 36);
    if FiveInARow(b, token) {
      var i, j, d :| 0 <= i < 6 && 0 <= j < 6 && 0 <= d < 4 && Run(b, token, i, j, d);
      assert (6 * i + j) / 6 == i && (6 * i + j) % 6 == j;
      assert Run(b, token, (6 * i + j) / 6, (6 * i + j) % 6, d);
    }
  }

  /** A run starts on a cell holding the token, so no run starts anywhere else. */
  lemma RunStartsWithToken(b: Board, token: char, i: int, j: int)
    requires 0 <= i < 6 && 0 <= j < 6 && b.grid[i][j] != token
    ensures CellWins(b, token, i, j) == 0
  {
    forall d | 0 <= d < 4 && StartOk(i, j, d) ensures !Run(b, token, i, j, d) {
      RunPrefixShorter(b, token, i, j, d, 1, 5);
    }
  }

  /**
   * One of the four `while` loops of `win`: walk five cells from (i, j) in
   * direction d, stopping at the first cell that does not hold the token.
   */
  method FiveInRow(b: Board, token: char, i: int, j: int, d: int) returns (fiveInRow: bool)
    requires StartOk(i, j, d)
    ensures fiveInRow == Run(b, token, i, j, d)
  {
    var count := 5;
    var m, n := i, j;
    fiveInRow := true;
    while count > 0 && fiveInRow
      invariant 0 <= count <= 5
      invariant m == RowAt(i, d, 5 - count) && n == ColAt(j, d, 5 - count)
      invariant fiveInRow == RunPrefix(b, token, i, j, d, 5 - count)
    {
      fiveInRow := b.grid[m][n] == token;
      m := if d == 0 then m else m + 1;
      n := if d == 1 then n else if d == 3 then n - 1 else n + 1;
      count := count - 1;
    }
    RunPrefixShorter(b, token, i, j, d, 5 - count, 5);
  }

  /** Scanning cell (i, j) adds its runs to the count. */
  lemma WinsStep(b: Board, token: char, i: int, j: int)
    requires 0 <= i < 6 && 0 <= j < 6
    ensures WinsBefore(b, token, 6 * i + j + 1) == WinsBefore(b, token, 6 * i + j) + CellWins(b, token, i, j)
  {
    assert (6 * i + j) / 6 == i && (6 * i + j) % 6 == j;
  }

  /**
   * The body of `win`'s double loop for cell (i, j): try the four directions
   * whose five cells fit on the board from (i, j), if that cell holds the token.
   */
  method CellWinCount(b: Board, token: char, i: int, j: int) returns (wins: nat)
    requires 0 <= i < 6 && 0 <= j < 6
    ensures wins == CellWins(b, token, i, j)
  {
    wins := 0;
    if b.grid[i][j] == token {
      if j <= 1 {
        var fiveInRow := FiveInRow(b, token, i, j, 0);
        if fiveInRow { wins := wins + 1; }
      }
      if i <= 1 {
        var fiveInRow := FiveInRow(b, token, i, j, 1);
        if fiveInRow { wins := wins + 1; }
      }
      if i <= 1 && j <= 1 {
        var fiveInRow := FiveInRow(b, token, i, j, 2);
        if fiveInRow { wins := wins + 1; }
      }
      if i <= 1 && j >= 4 {
        var fiveInRow := FiveInRow(b, token, i, j, 3);
        if fiveInRow { wins := wins + 1; }
      }
    } else {
      RunStartsWithToken(b, token, i, j);
    }
  }

  /** `win`: count the runs starting at every cell; the board is won when there is one. */
  method Win(b: Board, token: char) returns (won: bool)
    ensures won == HasWin(b, token)
  {
    var numWins := 0;
    for i := 0 to BoardSize
      invariant numWins == WinsBefore(b, token, 6 * i)
    {
      for j := 0 to BoardSize
        invariant numWins == WinsBefore(b, token, 6 * i + j)
      {
        WinsStep(b, token, i, j);
        var wins := CellWinCount(b, token, i, j);
        numWins := numWins + wins;
      }
    }
    won := numWins > 0;
  }

  // ---------------------------------------------------------------------
  // score_line
  // ---------------------------------------------------------------------

  /** The `patterns` table: 1, 10, 100, 1000, 10000 for counts 1..5, and 0 for any other count. */
  function Pattern(count: int): nat
  {
    if count == 1 then 1
    else if count == 2 then 10
    else if count == 3 then 100
    else if count == 4 then 1000
    else if count == 5 then 10000
    else 0
  }

  /**
   * The loop state of `score_line` (the score and `consecutive_count`) after
   * the first n elements of the line.  A token extends the run and scores its
   * length; another token resets the run and scores nothing; a '.' scores the
   * length of the run it ends, then resets it.
   */
  function ScanUpTo(line: seq<char>, token: char, n: nat): (r: (int, int))
    requires n <= |line|
    ensures r.0 >= 0 && r.1 >= 0
  {
    if n == 0 then (0, 0)
    else
      var prev := ScanUpTo(line, token, n - 1);
      var e := line[n - 1];
      var count := if e == token then prev.1 + 1 else if e != '.' then 0 else prev.1;
      (prev.0 + Pattern(count), if e != token then 0 else count)
  }

  /** `score_line(line, token)`. */
  function LineScore(line: seq<char>, token: char): int
  {
    ScanUpTo(line, token, |line|).0
  }

  /** `score_line`: one pass over the line with a running count. */
  method ScoreLine(line: seq<char>, token: char) returns (score: int)
    ensures score == LineScore(line, token)
  {
    score := 0;
    var consecutiveCount := 0;
    for i := 0 to |line|
      invariant (score, consecutiveCount) == ScanUpTo(line, token, i)
    {
      var element := line[i];
      if element == token {
        consecutiveCount := consecutiveCount + 1;
      } else if element != '.' {
        consecutiveCount := 0;
      }
      score := score + Pattern(consecutiveCount);
      if element != token {
        consecutiveCount := 0;
      }
    }
  }

  /** The number of consecutive tokens ending at element p (0 when p is not a token). */
  function RunEnding(line: seq<char>, token: char, p: int): nat
    requires p < |line|
    decreases p
  {
    if p < 0 || line[p] != token then 0 else RunEnding(line, token, p - 1) + 1
  }

  /**
   * What element p adds to the line score, cell by cell: a token that is the
   * k-th of its run adds the pattern of k; a '.' adds the pattern of the run
   * just before it; any other cell adds nothing.
   */
  function Contribution(line: seq<char>, token: char, p: nat): nat
    requires p < |line|
  {
    if line[p] == token then Pattern(RunEnding(line, token, p))
    else if line[p] == '.' then Pattern(RunEnding(line, token, p - 1))
    else 0
  }

  function ContributionsUpTo(line: seq<char>, token: char, n: nat): nat
    requires n <= |line|
  {
    if n == 0 then 0 else ContributionsUpTo(line, token, n - 1) + Contribution(line, token, n - 1)
  }

  /** The running count is the run ending at the last element read, and the score the sum of contributions. */
  lemma {:induction false} ScanUpToContributions(line: seq<char>, token: char, n: nat)
    requires n <= |line|
    ensures ScanUpTo(line, token, n).1 == RunEnding(line, token, n - 1)
    ensures ScanUpTo(line, token, n).0 == ContributionsUpTo(line, token, n)
  {
    if n > 0 {
      ScanUpToContributions(line, token, n - 1);
    }
  }

  /** The line score is the sum of the cell contributions. */
  lemma LineScoreByCells(line: seq<char>, token: char)
    ensures LineScore(line, token) == ContributionsUpTo(line, token, |line|)
  {
    ScanUpToContributions(line, token, |line|);
  }

  /** A line with no token of the player scores 0. */
  lemma {:induction false} LineScoreWithoutToken(line: seq<char>, token: char)
    requires forall p | 0 <= p < |line| :: line[p] != token
    ensures LineScore(line, token) == 0
  {
    LineScoreByCells(line, token);
    NoTokenContributions(line, token, |line|);
  }

  lemma {:induction false} NoTokenContributions(line: seq<char>, token: char, n: nat)
    requires n <= |line| && forall p | 0 <= p < |line| :: line[p] != token
    ensures ContributionsUpTo(line, token, n) == 0
  {
    if n > 0 {
      NoTokenContributions(line, token, n - 1);
      assert RunEnding(line, token, n - 2) == 0;
    }
  }

  /** Six tokens in a line score 1 + 10 + 100 + 1000 + 10000 and nothing for the sixth. */
  lemma SixTokens(token: char)
    ensures LineScore([token, token, token, token, token, token], token) == 11111
  {
    var line := [token, token, token, token, token, token];
    assert ScanUpTo(line, token, 1) == (1, 1);
    assert ScanUpTo(line, token, 2) == (11, 2);
    assert ScanUpTo(line, token, 3) == (111, 3);
    assert ScanUpTo(line, token, 4) == (1111, 4);
    assert ScanUpTo(line, token, 5) == (11111, 5);
  }

  /** A '.' right after a run scores that run a second time. */
  lemma DotRepeatsRun(token: char)
    requires token != '.'
    ensures LineScore([token, token, '.'], token) == 1 + 10 + 10
  {
    var line := [token, token, '.'];
    assert ScanUpTo(line, token, 1) == (1, 1);
    assert ScanUpTo(line, token, 2) == (11, 2);
  }

  // ---------------------------------------------------------------------
  // advanced_line_scoring
  // ---------------------------------------------------------------------

  /** Column i, top to bottom. */
  function Column(b: Board, i: int): seq<char>
    requires 0 <= i < 6
  {
    seq(6, j requires 0 <= j < 6 => b.grid[j][i])
  }

  /** The score of the first n rows and the first n columns. */
  function RowsColumnsScore(b: Board, token: char, n: nat): int
    requires n <= 6
  {
    if n == 0 then 0
    else RowsColumnsScore(b, token, n - 1) + LineScore(b.grid[n - 1], token) + LineScore(Column(b, n - 1), token)
  }

  /** `advanced_line_scoring`: the line score of the 6 rows, the 6 columns and the two diagonals. */
  function LineScoring(b: Board, token: char): int
  {
    var diags := Diagonals(b);
    RowsColumnsScore(b, token, 6) + LineScore(diags[0], token) + LineScore(diags[1], token)
  }

  /** `advanced_line_scoring`: loop over the rows and columns, then over the diagonals. */
  method AdvancedLineScoring(b: Board, token: char) returns (score: int)
    ensures score == LineScoring(b, token)
  {
    score := 0;
    for i := 0 to BoardSize
      invariant score == RowsColumnsScore(b, token, i)
    {
      var row := ScoreLine(b.grid[i], token);
      score := score + row;
      var column := ScoreLine(seq(BoardSize, j requires 0 <= j < BoardSize => b.grid[j][i]), token);
      score := score + column;
    }
    var diags := Diagonals(b);
    for k := 0 to |diags|
      invariant score == RowsColumnsScore(b, token, 6) + (if k >= 1 then LineScore(diags[0], token) else 0)
                                                      + (if k >= 2 then LineScore(diags[1], token) else 0)
    {
      var diag := ScoreLine(diags[k], token);
      score := score + diag;
    }
  }

  lemma {:induction false} RowsColumnsNonNegative(b: Board, token: char, n: nat)
    requires n <= 6
    ensures RowsColumnsScore(b, token, n) >= 0
  {
    if n > 0 {
      RowsColumnsNonNegative(b, token, n - 1);
    }
  }

  /** The line scoring is never negative. */
  lemma LineScoringNonNegative(b: Board, token: char)
    ensures LineScoring(b, token) >= 0
  {
    RowsColumnsNonNegative(b, token, 6);
  }

  /** The token appears nowhere on the board. */
  predicate Absent(b: Board, token: char)
  {
    forall r, c | 0 <= r < 6 && 0 <= c < 6 :: b.grid[r][c] != token
  }

  lemma {:induction false} RowsColumnsWithoutToken(b: Board, token: char, n: nat)
    requires n <= 6 && Absent(b, token)
    ensures RowsColumnsScore(b, token, n) == 0
  {
    if n > 0 {
      RowsColumnsWithoutToken(b, token, n - 1);
      LineScoreWithoutToken(b.grid[n - 1], token);
      LineScoreWithoutToken(Column(b, n - 1), token);
    }
  }

  /** A board without the player's token scores 0 on every line. */
  lemma LineScoringWithoutToken(b: Board, token: char)
    requires Absent(b, token)
    ensures LineScoring(b, token) == 0
  {
    RowsColumnsWithoutToken(b, token, 6);
    LineScoreWithoutToken(Diagonals(b)[0], token);
    LineScoreWithoutToken(Diagonals(b)[1], token);
  }

  // ---------------------------------------------------------------------
  // evaluate_twist_potential
  // ---------------------------------------------------------------------

  function MaxInt(a: int, b: int): int { if a >= b then a else b }

  /** The line scoring of one of the eight twists: block `blk` turned right or left. */
  function TwistScore(b: Board, token: char, blk: int, right: bool): int
    requires 1 <= blk <= 4
  {
    LineScoring(if right then RotatedRight(b, blk) else RotatedLeft(b, blk), token)
  }

  /**
   * The eight twist scores in the order the source computes them: entry n is
   * block n/2 + 1 turned left for even n and right for odd n.
   */
  function TwistScores(b: Board, token: char): (xs: seq<int>)
    ensures |xs| == 8
  {
    seq(8, n requires 0 <= n < 8 => TwistScore(b, token, n / 2 + 1, n % 2 == 1))
  }

  /** `score = max(score, x)` over the first n of the values, starting from 0. */
  function RunningMax(xs: seq<int>, n: nat): int
    requires n <= |xs|
  {
    if n == 0 then 0 else MaxInt(RunningMax(xs, n - 1), xs[n - 1])
  }

  /** `evaluate_twist_potential(board, token)`. */
  function TwistPotential(b: Board, token: char): int
  {
    RunningMax(TwistScores(b, token), 8)
  }

  /** `evaluate_twist_potential`: the best line scoring over the eight single-block twists. */
  method EvaluateTwistPotential(b: Board, token: char) returns (score: int)
    ensures score == TwistPotential(b, token)
  {
    score := 0;
    for gameBlock := 1 to 5
      invariant score == RunningMax(TwistScores(b, token), 2 * (gameBlock - 1))
    {
      var leftTwist := RotateLeft(b, gameBlock);
      var left := AdvancedLineScoring(leftTwist, token);
      var rightTwist := RotateRight(b, gameBlock);
      var right := AdvancedLineScoring(rightTwist, token);
      TwistStep(b, token, gameBlock, score, left, right);
      score := MaxInt(score, left);
      score := MaxInt(score, right);
    }
  }

  /** One iteration of `evaluate_twist_potential` adds the two twists of one block to the running maximum. */
  lemma TwistStep(b: Board, token: char, blk: int, score: int, left: int, right: int)
    requires 1 <= blk <= 4
    requires score == RunningMax(TwistScores(b, token), 2 * (blk - 1))
    requires left == LineScoring(RotatedLeft(b, blk), token)
    requires right == LineScoring(RotatedRight(b, blk), token)
    ensures MaxInt(MaxInt(score, left), right) == RunningMax(TwistScores(b, token), 2 * blk)
  {
    TwistScoreAt(b, token, blk);
    RunningMaxStep(TwistScores(b, token), 2 * (blk - 1));
  }

  lemma TwistScoreAt(b: Board, token: char, blk: int)
    requires 1 <= blk <= 4
    ensures TwistScores(b, token)[2 * (blk - 1)] == LineScoring(RotatedLeft(b, blk), token)
    ensures TwistScores(b, token)[2 * (blk - 1) + 1] == LineScoring(RotatedRight(b, blk), token)
  {
    var i := 2 * (blk - 1);
    assert i / 2 + 1 == blk && i % 2 == 0;
    assert (i + 1) / 2 + 1 == blk && (i + 1) % 2 == 1;
  }

  lemma RunningMaxStep(xs: seq<int>, n: nat)
    requires n + 2 <= |xs|
    ensures RunningMax(xs, n + 2) == MaxInt(MaxInt(RunningMax(xs, n), xs[n]), xs[n + 1])
  {
  }

  lemma {:induction false} RunningMaxIsMax(xs: seq<int>, n: nat)
    requires n <= |xs|
    ensures RunningMax(xs, n) >= 0
    ensures forall k | 0 <= k < n :: RunningMax(xs, n) >= xs[k]
    ensures RunningMax(xs, n) == 0 || exists k :: 0 <= k < n && RunningMax(xs, n) == xs[k]
  {
    if n > 0 {
      RunningMaxIsMax(xs, n - 1);
    }
  }

  /**
   * The twist potential is the maximum of 0 and the line scores of the eight
   * single-block rotations: at least each of them, and equal to 0 or to one.
   */
  lemma TwistPotentialIsMax(b: Board, token: char)
    ensures TwistPotential(b, token) >= 0
    ensures forall n | 0 <= n < 8 :: TwistPotential(b, token) >= TwistScores(b, token)[n]
    ensures TwistPotential(b, token) == 0 || exists n :: 0 <= n < 8 && TwistPotential(b, token) == TwistScores(b, token)[n]
  {
    RunningMaxIsMax(TwistScores(b, token), 8);
  }

  // ---------------------------------------------------------------------
  // evaluate_mobility and sg3824_h
  // ---------------------------------------------------------------------

  /** The line score for the token of the board after the move `m`. */
  function MoveScore(b: Board, m: string, token: char): (r: int)
    requires IsMoveText(m)
    ensures r >= 0
  {
    LineScoringNonNegative(Applied(b, m, token), token);
    LineScoring(Applied(b, m, token), token)
  }

  /** The move scores of the first `k` moves of `ms`, summed. */
  function MobilityOf(b: Board, token: char, ms: seq<string>, k: nat): int
    requires k <= |ms|
    requires forall i | 0 <= i < |ms| :: IsMoveText(ms[i])
  {
    if k == 0 then 0 else MobilityOf(b, token, ms, k - 1) + MoveScore(b, ms[k - 1], token)
  }

  /** Every generated move is well-formed move text. */
  lemma MovesReadable(b: Board)
    ensures forall i | 0 <= i < |Moves(b)| :: IsMoveText(Moves(b)[i])
  {
    forall i | 0 <= i < |Moves(b)| ensures IsMoveText(Moves(b)[i]) {
      MoveDecodesToEmptyCell(b, Moves(b)[i]);
    }
  }

  /** `evaluate_mobility(board, token)`. */
  function Mobility(b: Board, token: char): int
  {
    MovesReadable(b);
    MobilityOf(b, token, Moves(b), |Moves(b)|)
  }

  /** `evaluate_mobility`: play every legal move and add up the line scores. */
  method EvaluateMobility(b: Board, token: char) returns (score: int)
    ensures score == Mobility(b, token)
  {
    score := 0;
    var moves := GetMoves(b);
    MovesReadable(b);
    for k := 0 to |moves|
      invariant score == MobilityOf(b, token, moves, k)
    {
      var newBoard := ApplyMove(b, moves[k], token);
      var s := AdvancedLineScoring(newBoard, token);
      score := score + s;
    }
  }

  lemma {:induction false} MobilityOfNonNegative(b: Board, token: char, ms: seq<string>, k: nat)
    requires k <= |ms|
    requires forall i | 0 <= i < |ms| :: IsMoveText(ms[i])
    ensures MobilityOf(b, token, ms, k) >= 0
  {
    if k > 0 {
      MobilityOfNonNegative(b, token, ms, k - 1);
    }
  }

  /** Mobility is never negative, and it is 0 on a full board, which has no moves. */
  lemma MobilityBounds(b: Board, token: char)
    ensures Mobility(b, token) >= 0
    ensures IsFull(b) ==> Mobility(b, token) == 0
  {
    MovesReadable(b);
    MobilityOfNonNegative(b, token, Moves(b), |Moves(b)|);
    MovesEmptyIffFull(b);
  }

  /** `sg3824_h(board, token)`: line score plus twist potential plus mobility. */
  function Heuristic(b: Board, token: char): int
  {
    LineScoring(b, token) + TwistPotential(b, token) + Mobility(b, token)
  }

  /** `sg3824_h`: the sum of its three terms. */
  method Sg3824H(b: Board, token: char) returns (score: int)
    ensures score == Heuristic(b, token)
  {
    score := 0;
    var lines := AdvancedLineScoring(b, token);
    score := score + lines;
    var twist := EvaluateTwistPotential(b, token);
    score := score + twist;
    var mobility := EvaluateMobility(b, token);
    score := score + mobility;
  }

  /**
   * Every term of the heuristic is non-negative, so the heuristic is at least
   * the board's own line score and at least its best twist; on a full board
   * the mobility term vanishes.
   */
  lemma HeuristicBounds(b: Board, token: char)
    ensures Heuristic(b, token) >= LineScoring(b, token) >= 0
    ensures Heuristic(b, token) >= TwistPotential(b, token) >= 0
    ensures IsFull(b) ==> Heuristic(b, token) == LineScoring(b, token) + TwistPotential(b, token)
  {
    LineScoringNonNegative(b, token);
    TwistPotentialIsMax(b, token);
    MobilityBounds(b, token);
  }
}
