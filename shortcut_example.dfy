/**
 * A board on which the minimizing-node test of `minimax` fires although the
 * opponent has not won: the opponent's reply lines up five of the AGENT's
 * tokens, and the node is scored -inf, the value of a lost position.
 */
module ShortcutExample {
  import opened Common
  import opened Pentago
  import opened Agents
  import opened AgentSearch

  /** No cell holds the token outside the top-left 4x4 square: every five-cell line leaves it. */
  lemma ConfinedNoWin(b: Board, token: char)
    requires forall x, y | 0 <= x < 6 && 0 <= y < 6 && b.grid[x][y] == token :: x < 4 && y < 4
    ensures !HasWin(b, token)
  {
    forall i, j, d | 0 <= i < 6 && 0 <= j < 6 && 0 <= d < 4 ensures !Run(b, token, i, j, d) {
      if StartOk(i, j, d) {
        assert RunCell(b, i, j, d, 4) != token;
      }
    }
    HasWinIff(b, token);
  }

  /** A single cell holding the token is no line of five. */
  lemma SingleCellNoWin(b: Board, token: char, x0: int, y0: int)
    requires forall x, y | 0 <= x < 6 && 0 <= y < 6 && b.grid[x][y] == token :: x == x0 && y == y0
    ensures !HasWin(b, token)
  {
    forall i, j, d | 0 <= i < 6 && 0 <= j < 6 && 0 <= d < 4 ensures !Run(b, token, i, j, d) {
      if StartOk(i, j, d) {
        RunPrefixShorter(b, token, i, j, d, 2, 5);
      }
    }
    HasWinIff(b, token);
  }

  /** Five of the token on row 0, columns 1..5, are a win. */
  lemma RowZeroWins(c: Board, token: char)
    requires forall y | 1 <= y < 6 :: c.grid[0][y] == token
    ensures HasWin(c, token)
  {
    assert StartOk(0, 1, 0);
    forall k | 0 <= k < 5 ensures RunCell(c, 0, 1, 0, k) == token {
      assert RunCell(c, 0, 1, 0, k) == c.grid[0][1 + k];
    }
    assert RunPrefix(c, token, 0, 1, 0, 1);
    assert RunPrefix(c, token, 0, 1, 0, 2);
    assert RunPrefix(c, token, 0, 1, 0, 3);
    assert RunPrefix(c, token, 0, 1, 0, 4);
    assert RunPrefix(c, token, 0, 1, 0, 5);
    assert Run(c, token, 0, 1, 0);
    HasWinIff(c, token);
  }

  /**
   * A board on which the agent 'w' holds (0, 1), (0, 2), (0, 3) and the
   * left column of block 2 below them, (1, 3) and (2, 3).
   */
  function ShortcutBoard(): Board
  {
    Board(seq(6, x => seq(6, y =>
            if (x == 0 && 1 <= y <= 3) || (y == 3 && 1 <= x <= 2) then 'w' else '.')), 31)
  }

  /** The board after black plays "4/9 2R" on ShortcutBoard: row 0 is (0, 1)..(0, 5) in white. */
  function ShortcutChild(): Board
  {
    Board(seq(6, x => seq(6, y =>
            if x == 0 && 1 <= y then 'w' else if x == 5 && y == 5 then 'b' else '.')), 31)
  }

  /** Every white token of ShortcutBoard lies in the top-left 4x4 square. */
  lemma BoardCells(b: Board)
    requires b == ShortcutBoard()
    ensures forall x, y | 0 <= x < 6 && 0 <= y < 6 && b.grid[x][y] == 'w' :: x < 4 && y < 4
  {
  }

  /** ShortcutChild has white on (0, 1)..(0, 5) and its only black token on (5, 5). */
  lemma ChildCells(c: Board)
    requires c == ShortcutChild()
    ensures forall y | 1 <= y < 6 :: c.grid[0][y] == 'w'
    ensures forall x, y | 0 <= x < 6 && 0 <= y < 6 && c.grid[x][y] == 'b' :: x == 5 && y == 5
  {
  }

  /** Block 2 of the placed board, turned right, gives ShortcutChild. */
  lemma TurnedShortcut(p: Board, t: Board)
    requires p == Place(ShortcutBoard(), 5, 5, 'b')
    requires forall r, c | 0 <= r < 3 && 0 <= c < 3 :: Local(t, 2, c, 2 - r) == Local(p, 2, r, c)
    requires forall x, y | 0 <= x < 6 && 0 <= y < 6 && !InBlock(2, x, y) :: t.grid[x][y] == p.grid[x][y]
    requires t.emptyCells == p.emptyCells
    ensures t == ShortcutChild()
  {
    var e := ShortcutChild();
    forall x, y | 0 <= x < 6 && 0 <= y < 6 ensures t.grid[x][y] == e.grid[x][y] {
      if InBlock(2, x, y) {
        assert Local(t, 2, x, y - 3) == Local(p, 2, 5 - y, x);
      }
    }
    GridExt(t.grid, e.grid);
  }

  /** "4/9 2R" is one of the moves generated for ShortcutBoard. */
  lemma ShortcutLegal(b: Board, m: string)
    requires b == ShortcutBoard() && m == "4/9 2R"
    ensures m in Moves(b)
  {
    assert CellMoves(5, 5)[3] == m;
    CellMoveIn(b, 5, 5, 3);
  }

  /** Black playing "4/9 2R" on ShortcutBoard gives ShortcutChild. */
  lemma ShortcutApplied(b: Board, m: string)
    requires b == ShortcutBoard() && m == "4/9 2R"
    ensures IsMoveText(m) && Applied(b, m, 'b') == ShortcutChild()
  {
    assert DecodeRow(m) == 5 && DecodeCol(m) == 5 && TurnsRight(m) && RotationBlock(m) == 2;
    var p := Place(b, 5, 5, 'b');
    RotatedRightMoves(p, 2);
    TurnedShortcut(p, RotatedRight(p, 2));
  }

  /** Before the reply 'w' has not won. */
  lemma ShortcutBefore(b: Board)
    requires b == ShortcutBoard()
    ensures !HasWin(b, 'w')
  {
    BoardCells(b);
    ConfinedNoWin(b, 'w');
  }

  /** After the reply: 'w' has five in a row on ShortcutChild and 'b' has not. */
  lemma ShortcutAfter(c: Board)
    requires c == ShortcutChild()
    ensures HasWin(c, 'w') && !HasWin(c, 'b')
  {
    ChildCells(c);
    RowZeroWins(c, 'w');
    SingleCellNoWin(c, 'b', 5, 5);
  }

  /**
   * The opponent's move "4/9 2R" (a black token on (5, 5), then block 2
   * turned right) lines up (0, 1)..(0, 5) in white: after it the agent has
   * won, and the opponent has not.
   */
  lemma ShortcutReply(b: Board, m: string, c: Board)
    requires b == ShortcutBoard() && m == "4/9 2R" && c == ShortcutChild()
    ensures m in Moves(b) && !HasWin(b, 'w')
    ensures IsMoveText(m) && Applied(b, m, 'b') == c
    ensures HasWin(c, 'w') && !HasWin(c, 'b')
  {
    ShortcutLegal(b, m);
    ShortcutApplied(b, m);
    ShortcutBefore(b);
    ShortcutAfter(c);
  }

  /**
   * On any board where the agent 'w' has not won, a black reply that gives
   * 'w' five in a row makes the as-written minimizing node give up.
   */
  lemma AgentWinReplyGivesUp(b: Board, m: string, c: Board)
    requires m in Moves(b) && IsMoveText(m) && Applied(b, m, 'b') == c
    requires !HasWin(b, 'w') && HasWin(c, 'w')
    ensures MinimaxValue(AsWritten, b, 1, false, 'w') == (NegInf, None)
  {
    MinimaxGivesUpOnReply(AsWritten, b, 1, 'w', m);
  }

  /**
   * Because that reply gives the AGENT five in a row, `minimax` scores the
   * minimizing node -inf, the value of a lost position, with no move.
   */
  lemma ShortcutOnAgentWin(b: Board, m: string, c: Board)
    requires b == ShortcutBoard() && m == "4/9 2R" && c == ShortcutChild()
    ensures m in Moves(b) && IsMoveText(m) && Applied(b, m, 'b') == c
    ensures HasWin(c, 'w') && !HasWin(c, 'b')
    ensures MinimaxValue(AsWritten, b, 1, false, 'w') == (NegInf, None)
  {
    ShortcutReply(b, m, c);
    AgentWinReplyGivesUp(b, m, c);
  }

  // ---------------------------------------------------------------------
  // The corrected test on the same board
  // ---------------------------------------------------------------------

  /** No cell of `b` holds `token`. */
  predicate Absent(b: Board, token: char)
  {
    forall x, y | 0 <= x < 6 && 0 <= y < 6 :: b.grid[x][y] != token
  }

  /**
   * A move that places the first `token` of the board leaves that token on
   * exactly one cell, the image of the decoded cell under the turn, and so
   * gives `token` no five in a row.
   */
  lemma FirstTokenNoWin(b: Board, m: string, token: char)
    requires IsMoveText(m)
    requires Absent(b, token)
    ensures !HasWin(Applied(b, m, token), token)
  {
    var i, j, blk := DecodeRow(m), DecodeCol(m), RotationBlock(m);
    DecodeInRange(m);
    var ro, co := RowOffset(blk), ColOffset(blk);
    var p := Place(b, i, j, token);
    var t := Applied(b, m, token);
    var x0 := if !InBlock(blk, i, j) then i else if TurnsRight(m) then ro + j - co else ro + 2 - (j - co);
    var y0 := if !InBlock(blk, i, j) then j else if TurnsRight(m) then co + 2 - (i - ro) else co + i - ro;
    forall x, y | 0 <= x < 6 && 0 <= y < 6 && t.grid[x][y] == token ensures x == x0 && y == y0 {
      if InBlock(blk, x, y) {
        var sx, sy := SourceRow(blk, TurnsRight(m), x, y), SourceCol(blk, TurnsRight(m), x, y);
        assert t.grid[x][y] == p.grid[sx][sy];
        assert sx == i && sy == j;
      } else {
        assert t.grid[x][y] == p.grid[x][y];
      }
    }
    SingleCellNoWin(t, token, x0, y0);
  }

  /**
   * Where black has no token yet, no black reply wins for black, so the
   * corrected minimizing node never gives up and, with moves to scan, keeps
   * the finite value of its least child.
   */
  lemma CorrectedRuleKeepsScore(b: Board)
    requires !HasWin(b, 'w') && |Moves(b)| > 0
    requires Absent(b, 'b')
    ensures !GivesUp(OpponentWins, b, 'w')
    ensures MinimaxValue(OpponentWins, b, 1, false, 'w').0.Fin?
  {
    var n := |Moves(b)|;
    forall k | 0 <= k < n ensures !HasWin(Child(b, Opponent('w'), k), Watched(OpponentWins, 'w')) {
      MoveDecodesToEmptyCell(b, Moves(b)[k]);
      FirstTokenNoWin(b, Moves(b)[k], 'b');
    }
    MinimaxGivesUp(OpponentWins, b, 1, 'w');
    MinimaxMinNode(OpponentWins, b, 1, 'w');
    var vs := ChildValues(OpponentWins, b, 1, false, 'w', n);
    forall k | 0 <= k < n ensures vs[k].Fin? {
      ChildValuesAt(OpponentWins, b, 1, false, 'w', n, k);
    }
  }

  /** ShortcutBoard holds no black token. */
  lemma NoBlackOnShortcut(b: Board)
    requires b == ShortcutBoard()
    ensures Absent(b, 'b')
  {
  }

  /** What CorrectedRuleKeepsScore needs of ShortcutBoard. */
  lemma ShortcutFacts(b: Board)
    requires b == ShortcutBoard()
    ensures !HasWin(b, 'w') && |Moves(b)| > 0 && Absent(b, 'b')
  {
    ShortcutBefore(b);
    ShortcutLegal(b, "4/9 2R");
    NoBlackOnShortcut(b);
  }

  /**
   * On ShortcutBoard the two tests part: the as-written node gives up with
   * -inf, while the node that watches the opponent keeps a finite score,
   * because no black reply there gives black five in a row.
   */
  lemma ShortcutCorrected(b: Board)
    requires b == ShortcutBoard()
    ensures MinimaxValue(AsWritten, b, 1, false, 'w') == (NegInf, None)
    ensures MinimaxValue(OpponentWins, b, 1, false, 'w').0.Fin?
  {
    ShortcutOnAgentWin(b, "4/9 2R", ShortcutChild());
    ShortcutFacts(b);
    CorrectedRuleKeepsScore(b);
  }
}
