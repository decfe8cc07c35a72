/**
 * The Pentago board of pentago.py: a 6x6 grid of 'w', 'b' and '.' cells split
 * into four 3x3 blocks numbered 1..4 in row-major order.  Every operation of
 * the source returns a fresh board (rotate_left, rotate_right and apply_move
 * deep-copy the receiver), so a board is a value here; the copy-and-overwrite
 * loops of the source are methods over a local copy of the grid, proved equal
 * to the specification functions that the search code uses.
 */
module Pentago {
  import opened Common

  const BoardSize := 6
  const GridSize := 3

  /** A 6x6 grid, stored as the source stores it: a list of six rows. */
  type Grid = g: seq<seq<char>> | |g| == 6 && forall r :: 0 <= r < 6 ==> |g[r]| == 6
    witness seq(6, _ => seq(6, _ => '.'))

  /**
   * A PentagoBoard: its grid and its `empty_cells` counter.  The counter is
   * set on construction and copied by every operation, never decremented.
   */
  datatype Board = Board(grid: Grid, emptyCells: int)

  // ---------------------------------------------------------------------
  // Counting
  // ---------------------------------------------------------------------

  /** Python's `s.count(c)` for a one-character `c`. */
  function CountChar(s: seq<char>, c: char): (n: nat)
    ensures n <= |s|
  {
    if s == [] then 0 else (if s[0] == c then 1 else 0) + CountChar(s[1..], c)
  }

  lemma {:induction false} CountCharAppend(a: seq<char>, b: seq<char>, c: char)
    ensures CountChar(a + b, c) == CountChar(a, c) + CountChar(b, c)
  {
    if a == [] {
      assert a + b == b;
    } else {
      assert (a + b)[1..] == a[1..] + b;
      CountCharAppend(a[1..], b, c);
    }
  }

  function Dot(c: char): nat { if c == '.' then 1 else 0 }

  /** The number of '.' cells in a list of rows: `sum(row.count('.') for row in rows)`. */
  function RowsDots(rows: seq<seq<char>>): nat
  {
    if rows == [] then 0 else CountChar(rows[0], '.') + RowsDots(rows[1..])
  }

  /** The number of empty cells of the board, counted by scanning its grid. */
  function DotCount(b: Board): nat
  {
    RowsDots(b.grid)
  }

  /** The '.' count of one row, written out cell by cell. */
  lemma RowDotsCells(row: seq<char>)
    requires |row| == 6
    ensures CountChar(row, '.') == Dot(row[0]) + Dot(row[1]) + Dot(row[2]) + Dot(row[3]) + Dot(row[4]) + Dot(row[5])
  {
    assert CountChar(row[5..], '.') == Dot(row[5]) + CountChar(row[6..], '.');
    assert CountChar(row[4..], '.') == Dot(row[4]) + CountChar(row[5..], '.');
    assert CountChar(row[3..], '.') == Dot(row[3]) + CountChar(row[4..], '.');
    assert CountChar(row[2..], '.') == Dot(row[2]) + CountChar(row[3..], '.');
    assert CountChar(row[1..], '.') == Dot(row[1]) + CountChar(row[2..], '.');
    assert CountChar(row, '.') == Dot(row[0]) + CountChar(row[1..], '.');
  }

  function RowDots(row: seq<char>): nat
    requires |row| == 6
  {
    Dot(row[0]) + Dot(row[1]) + Dot(row[2]) + Dot(row[3]) + Dot(row[4]) + Dot(row[5])
  }

  /** The '.' count of a grid, written out cell by cell. */
  lemma DotCountCells(b: Board)
    ensures DotCount(b) == RowDots(b.grid[0]) + RowDots(b.grid[1]) + RowDots(b.grid[2])
                         + RowDots(b.grid[3]) + RowDots(b.grid[4]) + RowDots(b.grid[5])
  {
    var g := b.grid;
    forall r | 0 <= r < 6 ensures CountChar(g[r], '.') == RowDots(g[r]) {
      RowDotsCells(g[r]);
    }
    assert RowsDots(g[5..]) == CountChar(g[5], '.') + RowsDots(g[6..]);
    assert RowsDots(g[4..]) == CountChar(g[4], '.') + RowsDots(g[5..]);
    assert RowsDots(g[3..]) == CountChar(g[3], '.') + RowsDots(g[4..]);
    assert RowsDots(g[2..]) == CountChar(g[2], '.') + RowsDots(g[3..]);
    assert RowsDots(g[1..]) == CountChar(g[1], '.') + RowsDots(g[2..]);
  }

  predicate IsFull(b: Board)
  {
    forall r, c | 0 <= r < 6 && 0 <= c < 6 :: b.grid[r][c] != '.'
  }

  // ---------------------------------------------------------------------
  // Construction and serialisation
  // ---------------------------------------------------------------------

  function BlankGrid(): Grid
  {
    seq(6, _ => seq(6, _ => '.'))
  }

  /**
   * `PentagoBoard(board)`: the empty string gives a blank board with 36 empty
   * cells; otherwise cell (row, col) is `board[6*row + col]` and the counter
   * is the number of '.' in the whole string.  The source does not check the
   * string: a non-empty string shorter than 36 characters raises IndexError
   * (None here), a longer one is accepted and its tail is only counted.
   */
  function FromString(s: string): (r: Option<Board>)
    ensures r.None? <==> 0 < |s| < 36
    ensures s == "" ==> r == Some(Board(BlankGrid(), 36))
    ensures |s| >= 36 ==> r.Some? && r.value.emptyCells == CountChar(s, '.')
  {
    if s == "" then Some(Board(BlankGrid(), BoardSize * BoardSize))
    else if |s| < 36 then None
    else Some(Board(seq(6, row requires 0 <= row < 6 =>
                      seq(6, col requires 0 <= col < 6 => s[row * 6 + col])),
                    CountChar(s, '.')))
  }

  function Flatten(rows: seq<seq<char>>): seq<char>
  {
    if rows == [] then [] else rows[0] + Flatten(rows[1..])
  }

  lemma {:induction false} FlattenCells(rows: seq<seq<char>>)
    requires forall r :: 0 <= r < |rows| ==> |rows[r]| == 6
    ensures |Flatten(rows)| == 6 * |rows|
    ensures forall k :: 0 <= k < 6 * |rows| ==> Flatten(rows)[k] == rows[k / 6][k % 6]
  {
    if rows != [] {
      FlattenCells(rows[1..]);
      var f := Flatten(rows);
      assert f == rows[0] + Flatten(rows[1..]);
      forall k | 0 <= k < 6 * |rows| ensures f[k] == rows[k / 6][k % 6] {
        if k >= 6 {
          assert f[k] == Flatten(rows[1..])[k - 6];
          assert (k - 6) / 6 == k / 6 - 1 && (k - 6) % 6 == k % 6;
        }
      }
    }
  }

  lemma {:induction false} FlattenDots(rows: seq<seq<char>>)
    ensures CountChar(Flatten(rows), '.') == RowsDots(rows)
  {
    if rows != [] {
      CountCharAppend(rows[0], Flatten(rows[1..]), '.');
      FlattenDots(rows[1..]);
    }
  }

  /** `to_string`: the 36 cells in row-major order. */
  function ToString(b: Board): (s: string)
    ensures |s| == 36
    ensures forall k :: 0 <= k < 36 ==> s[k] == b.grid[k / 6][k % 6]
    ensures CountChar(s, '.') == DotCount(b)
  {
    FlattenCells(b.grid);
    FlattenDots(b.grid);
    Flatten(b.grid)
  }

  /** Serialising a board built from a string of at least 36 characters gives back its first 36. */
  lemma FromStringRoundTrip(s: string)
    requires |s| >= 36
    ensures FromString(s).Some? && ToString(FromString(s).value) == s[..36]
  {
    var t := ToString(FromString(s).value);
    forall k | 0 <= k < 36 ensures t[k] == s[k] {
      assert (k / 6) * 6 + k % 6 == k;
    }
  }

  /**
   * Re-reading a serialised board gives the same grid, with the counter
   * recomputed from the cells; the board itself comes back only when its
   * counter was accurate.
   */
  lemma ToStringRoundTrip(b: Board)
    ensures FromString(ToString(b)) == Some(Board(b.grid, DotCount(b)))
    ensures FromString(ToString(b)) == Some(b) <==> b.emptyCells == DotCount(b)
  {
    var s := ToString(b);
    var g := FromString(s).value.grid;
    forall r, c | 0 <= r < 6 && 0 <= c < 6 ensures g[r][c] == b.grid[r][c] {
      assert (r * 6 + c) / 6 == r && (r * 6 + c) % 6 == c;
    }
    GridExt(g, b.grid);
  }

  /** The blank board has 36 '.' cells, and its counter agrees. */
  lemma BlankBoard()
    ensures var b := FromString("").value;
      (forall r, c | 0 <= r < 6 && 0 <= c < 6 :: b.grid[r][c] == '.') && b.emptyCells == 36 && DotCount(b) == 36
  {
    DotCountCells(FromString("").value);
  }

  /** A board is full exactly when it has no '.' cell. */
  lemma FullIffNoDots(b: Board)
    ensures IsFull(b) <==> DotCount(b) == 0
  {
    DotCountCells(b);
    if DotCount(b) == 0 {
      forall r, c | 0 <= r < 6 && 0 <= c < 6 ensures b.grid[r][c] != '.' {
        assert RowDots(b.grid[r]) == 0;
      }
    }
  }

  // ---------------------------------------------------------------------
  // Rotation of one block
  // ---------------------------------------------------------------------

  /** `((blk - 1) // 2) * 3` for the blocks 1..4: blocks 3 and 4 are the lower half. */
  function RowOffset(blk: int): int { if blk <= 2 then 0 else GridSize }

  /** `((blk - 1) % 2) * 3` for the blocks 1..4: blocks 2 and 4 are the right half. */
  function ColOffset(blk: int): int { if blk == 1 || blk == 3 then 0 else GridSize }

  /** The source's offset formulas agree with RowOffset and ColOffset on every block. */
  lemma OffsetFormulas(blk: int)
    requires 1 <= blk <= 4
    ensures ((blk - 1) / 2) * GridSize == RowOffset(blk)
    ensures ((blk - 1) % 2) * GridSize == ColOffset(blk)
  {
    if blk == 1 {} else if blk == 2 {} else if blk == 3 {} else {}
  }

  predicate InBlock(blk: int, x: int, y: int)
  {
    RowOffset(blk) <= x < RowOffset(blk) + 3 && ColOffset(blk) <= y < ColOffset(blk) + 3
  }

  /**
   * `rotate_left(blk)`: block `blk` turned a quarter counter-clockwise.  Cell
   * (x, y) of the result is the cell of the receiver that the source's loop
   * copies there.
   */
  function RotatedLeft(b: Board, blk: int): Board
    requires 1 <= blk <= 4
  {
    var ro, co := RowOffset(blk), ColOffset(blk);
    Board(seq(6, x requires 0 <= x < 6 => seq(6, y requires 0 <= y < 6 =>
            if InBlock(blk, x, y) then b.grid[y + ro - co][2 + ro + co - x] else b.grid[x][y])),
          b.emptyCells)
  }

  /** `rotate_right(blk)`: block `blk` turned a quarter clockwise. */
  function RotatedRight(b: Board, blk: int): Board
    requires 1 <= blk <= 4
  {
    var ro, co := RowOffset(blk), ColOffset(blk);
    Board(seq(6, x requires 0 <= x < 6 => seq(6, y requires 0 <= y < 6 =>
            if InBlock(blk, x, y) then b.grid[2 + ro + co - y][x - ro + co] else b.grid[x][y])),
          b.emptyCells)
  }

  /** Cell (r, c) of block `blk`, in block-local coordinates. */
  function Local(b: Board, blk: int, r: int, c: int): char
    requires 1 <= blk <= 4 && 0 <= r < 3 && 0 <= c < 3
  {
    b.grid[RowOffset(blk) + r][ColOffset(blk) + c]
  }

  lemma GridExt(g: Grid, h: Grid)
    requires forall x, y | 0 <= x < 6 && 0 <= y < 6 :: g[x][y] == h[x][y]
    ensures g == h
  {
    forall x | 0 <= x < 6 ensures g[x] == h[x] {
      assert forall y | 0 <= y < 6 :: g[x][y] == h[x][y];
    }
  }

  /**
   * In block-local coordinates a left rotation sends (r, c) to (2-c, r); every
   * cell outside the block keeps its content, and so does the counter.
   */
  lemma RotatedLeftMoves(b: Board, blk: int)
    requires 1 <= blk <= 4
    ensures var t := RotatedLeft(b, blk);
      && (forall r, c | 0 <= r < 3 && 0 <= c < 3 :: Local(t, blk, 2 - c, r) == Local(b, blk, r, c))
      && (forall x, y | 0 <= x < 6 && 0 <= y < 6 && !InBlock(blk, x, y) :: t.grid[x][y] == b.grid[x][y])
      && t.emptyCells == b.emptyCells
  {
  }

  /** In block-local coordinates a right rotation sends (r, c) to (c, 2-r). */
  lemma RotatedRightMoves(b: Board, blk: int)
    requires 1 <= blk <= 4
    ensures var t := RotatedRight(b, blk);
      && (forall r, c | 0 <= r < 3 && 0 <= c < 3 :: Local(t, blk, c, 2 - r) == Local(b, blk, r, c))
      && (forall x, y | 0 <= x < 6 && 0 <= y < 6 && !InBlock(blk, x, y) :: t.grid[x][y] == b.grid[x][y])
      && t.emptyCells == b.emptyCells
  {
  }

  /** A right rotation undoes a left rotation of the same block, and the other way round. */
  lemma RotateLeftThenRight(b: Board, blk: int)
    requires 1 <= blk <= 4
    ensures RotatedRight(RotatedLeft(b, blk), blk) == b
    ensures RotatedLeft(RotatedRight(b, blk), blk) == b
  {
    GridExt(RotatedRight(RotatedLeft(b, blk), blk).grid, b.grid);
    GridExt(RotatedLeft(RotatedRight(b, blk), blk).grid, b.grid);
  }

  /** Two left rotations of a block are two right rotations: a half turn. */
  lemma HalfTurn(b: Board, blk: int)
    requires 1 <= blk <= 4
    ensures RotatedLeft(RotatedLeft(b, blk), blk) == RotatedRight(RotatedRight(b, blk), blk)
  {
    GridExt(RotatedLeft(RotatedLeft(b, blk), blk).grid, RotatedRight(RotatedRight(b, blk), blk).grid);
  }

  /** Four left rotations of one block give back the board. */
  lemma FourLeftRotations(b: Board, blk: int)
    requires 1 <= blk <= 4
    ensures RotatedLeft(RotatedLeft(RotatedLeft(RotatedLeft(b, blk), blk), blk), blk) == b
  {
    var rr := RotatedRight(RotatedRight(b, blk), blk);
    HalfTurn(b, blk);
    RotateLeftThenRight(RotatedRight(b, blk), blk);
    RotateLeftThenRight(b, blk);
    assert RotatedLeft(rr, blk) == RotatedRight(b, blk);
  }

  /** A rotation permutes the cells of one block, so it keeps the number of '.' cells. */
  lemma RotationKeepsDots(b: Board, blk: int)
    requires 1 <= blk <= 4
    ensures DotCount(RotatedLeft(b, blk)) == DotCount(b)
    ensures DotCount(RotatedRight(b, blk)) == DotCount(b)
  {
    RotateLeftKeepsDots(b, blk);
    RotateLeftKeepsDots(RotatedRight(b, blk), blk);
    RotateLeftThenRight(b, blk);
  }

  /** The number of '.' cells of block `blk`. */
  function BlockDots(b: Board, blk: int): nat
    requires 1 <= blk <= 4
  {
    Dot(Local(b, blk, 0, 0)) + Dot(Local(b, blk, 0, 1)) + Dot(Local(b, blk, 0, 2))
    + Dot(Local(b, blk, 1, 0)) + Dot(Local(b, blk, 1, 1)) + Dot(Local(b, blk, 1, 2))
    + Dot(Local(b, blk, 2, 0)) + Dot(Local(b, blk, 2, 1)) + Dot(Local(b, blk, 2, 2))
  }

  /** The '.' cells of the board are those of its four blocks. */
  lemma DotCountBlocks(b: Board)
    ensures DotCount(b) == BlockDots(b, 1) + BlockDots(b, 2) + BlockDots(b, 3) + BlockDots(b, 4)
  {
    DotCountCells(b);
  }

  /** Two boards that agree on every cell of block `blk` have as many '.' cells there. */
  lemma SameBlockDots(b: Board, t: Board, blk: int)
    requires 1 <= blk <= 4
    requires forall r, c | 0 <= r < 3 && 0 <= c < 3 :: Local(t, blk, r, c) == Local(b, blk, r, c)
    ensures BlockDots(t, blk) == BlockDots(b, blk)
  {
  }

  /** A quarter turn of block `blk` keeps the number of its '.' cells. */
  lemma TurnedBlockDots(b: Board, t: Board, blk: int)
    requires 1 <= blk <= 4
    requires forall r, c | 0 <= r < 3 && 0 <= c < 3 :: Local(t, blk, 2 - c, r) == Local(b, blk, r, c)
    ensures BlockDots(t, blk) == BlockDots(b, blk)
  {
    assert Local(t, blk, 2, 0) == Local(b, blk, 0, 0) && Local(t, blk, 1, 0) == Local(b, blk, 0, 1);
    assert Local(t, blk, 0, 0) == Local(b, blk, 0, 2) && Local(t, blk, 2, 1) == Local(b, blk, 1, 0);
    assert Local(t, blk, 1, 1) == Local(b, blk, 1, 1) && Local(t, blk, 0, 1) == Local(b, blk, 1, 2);
    assert Local(t, blk, 2, 2) == Local(b, blk, 2, 0) && Local(t, blk, 1, 2) == Local(b, blk, 2, 1);
    assert Local(t, blk, 0, 2) == Local(b, blk, 2, 2);
  }

  /** A block other than the turned one keeps its cells, hence its '.' count. */
  lemma UntouchedBlockDots(b: Board, t: Board, blk: int, o: int)
    requires 1 <= blk <= 4 && 1 <= o <= 4 && o != blk
    requires forall x, y | 0 <= x < 6 && 0 <= y < 6 && !InBlock(blk, x, y) :: t.grid[x][y] == b.grid[x][y]
    ensures BlockDots(t, o) == BlockDots(b, o)
  {
    forall r, c | 0 <= r < 3 && 0 <= c < 3 ensures Local(t, o, r, c) == Local(b, o, r, c) {
      assert !InBlock(blk, RowOffset(o) + r, ColOffset(o) + c);
    }
    SameBlockDots(b, t, o);
  }

  /**
   * A board that differs from `b` only by a quarter turn of block `blk` (as
   * RotatedLeftMoves describes it) has as many '.' cells.
   */
  lemma TurnedBlockKeepsDots(b: Board, t: Board, blk: int)
    requires 1 <= blk <= 4
    requires forall r, c | 0 <= r < 3 && 0 <= c < 3 :: Local(t, blk, 2 - c, r) == Local(b, blk, r, c)
    requires forall x, y | 0 <= x < 6 && 0 <= y < 6 && !InBlock(blk, x, y) :: t.grid[x][y] == b.grid[x][y]
    ensures DotCount(t) == DotCount(b)
  {
    DotCountBlocks(b);
    DotCountBlocks(t);
    TurnedBlockDots(b, t, blk);
    if blk != 1 { UntouchedBlockDots(b, t, blk, 1); }
    if blk != 2 { UntouchedBlockDots(b, t, blk, 2); }
    if blk != 3 { UntouchedBlockDots(b, t, blk, 3); }
    if blk != 4 { UntouchedBlockDots(b, t, blk, 4); }
  }

  lemma RotateLeftKeepsDots(b: Board, blk: int)
    requires 1 <= blk <= 4
    ensures DotCount(RotatedLeft(b, blk)) == DotCount(b)
  {
    RotatedLeftMoves(b, blk);
    TurnedBlockKeepsDots(b, RotatedLeft(b, blk), blk);
  }

  /** The block turned by `rotate_right` when `right` holds, by `rotate_left` otherwise. */
  function Rotated(b: Board, blk: int, right: bool): Board
    requires 1 <= blk <= 4
  {
    if right then RotatedRight(b, blk) else RotatedLeft(b, blk)
  }

  /** The row of the cell a rotation copies to (x, y). */
  function SourceRow(blk: int, right: bool, x: int, y: int): int
  {
    if right then 2 + RowOffset(blk) + ColOffset(blk) - y else y + RowOffset(blk) - ColOffset(blk)
  }

  /** The column of the cell a rotation copies to (x, y). */
  function SourceCol(blk: int, right: bool, x: int, y: int): int
  {
    if right then x - RowOffset(blk) + ColOffset(blk) else 2 + RowOffset(blk) + ColOffset(blk) - x
  }

  /** The position of that cell in the order the source's double loop visits the block. */
  function SourceIndex(blk: int, right: bool, x: int, y: int): int
  {
    3 * (SourceRow(blk, right, x, y) - RowOffset(blk)) + (SourceCol(blk, right, x, y) - ColOffset(blk))
  }

  /** After n steps of the loop, exactly the cells written so far hold their copied content. */
  ghost predicate Progress(b: Board, blk: int, right: bool, g: Grid, n: int)
    requires 1 <= blk <= 4
  {
    forall x, y | 0 <= x < 6 && 0 <= y < 6 ::
      g[x][y] == if InBlock(blk, x, y) && SourceIndex(blk, right, x, y) < n
                 then b.grid[SourceRow(blk, right, x, y)][SourceCol(blk, right, x, y)] else b.grid[x][y]
  }

  /** Where the step of the loop at cell (i, j) writes: row ... */
  function TargetRow(blk: int, right: bool, i: int, j: int): int
  {
    if right then j + RowOffset(blk) - ColOffset(blk) else 2 - j + RowOffset(blk) + ColOffset(blk)
  }

  /** ... and column. */
  function TargetCol(blk: int, right: bool, i: int, j: int): int
  {
    if right then 2 - i + RowOffset(blk) + ColOffset(blk) else i - RowOffset(blk) + ColOffset(blk)
  }

  /** One step of the loop writes the next cell in visiting order. */
  lemma ProgressStep(b: Board, blk: int, right: bool, g: Grid, i: int, j: int)
    requires 1 <= blk <= 4
    requires RowOffset(blk) <= i < RowOffset(blk) + 3 && ColOffset(blk) <= j < ColOffset(blk) + 3
    requires Progress(b, blk, right, g, 3 * (i - RowOffset(blk)) + (j - ColOffset(blk)))
    ensures var x, y := TargetRow(blk, right, i, j), TargetCol(blk, right, i, j);
      && 0 <= x < 6 && 0 <= y < 6
      && Progress(b, blk, right, g[x := g[x][y := b.grid[i][j]]], 3 * (i - RowOffset(blk)) + (j - ColOffset(blk)) + 1)
  {
    var x, y := TargetRow(blk, right, i, j), TargetCol(blk, right, i, j);
    var n := 3 * (i - RowOffset(blk)) + (j - ColOffset(blk));
    assert InBlock(blk, x, y) && SourceRow(blk, right, x, y) == i && SourceCol(blk, right, x, y) == j;
    var h := g[x := g[x][y := b.grid[i][j]]];
    forall p, q | 0 <= p < 6 && 0 <= q < 6
      ensures h[p][q] == if InBlock(blk, p, q) && SourceIndex(blk, right, p, q) < n + 1
                         then b.grid[SourceRow(blk, right, p, q)][SourceCol(blk, right, p, q)] else b.grid[p][q]
    {
      if p != x || q != y {
        assert h[p][q] == g[p][q];
      }
    }
  }

  /** After all nine steps the block is rotated. */
  lemma ProgressDone(b: Board, blk: int, right: bool, g: Grid)
    requires 1 <= blk <= 4
    requires Progress(b, blk, right, g, 9)
    ensures g == Rotated(b, blk, right).grid
  {
    var t := Rotated(b, blk, right);
    forall x, y | 0 <= x < 6 && 0 <= y < 6 ensures g[x][y] == t.grid[x][y] {
    }
    GridExt(g, t.grid);
  }

  /** `rotate_left`: copy the board, then write every cell of the block to its rotated place. */
  method RotateLeft(b: Board, gameBlock: int) returns (rotLeft: Board)
    requires 1 <= gameBlock <= 4
    ensures rotLeft == RotatedLeft(b, gameBlock)
  {
    var rowOffset := ((gameBlock - 1) / 2) * GridSize;
    var colOffset := ((gameBlock - 1) % 2) * GridSize;
    OffsetFormulas(gameBlock);
    var g := b.grid;
    for i := rowOffset to GridSize + rowOffset
      invariant Progress(b, gameBlock, false, g, 3 * (i - rowOffset))
    {
      for j := colOffset to GridSize + colOffset
        invariant Progress(b, gameBlock, false, g, 3 * (i - rowOffset) + (j - colOffset))
      {
        var x, y := 2 - j + rowOffset + colOffset, i - rowOffset + colOffset;
        ProgressStep(b, gameBlock, false, g, i, j);
        g := g[x := g[x][y := b.grid[i][j]]];
      }
    }
    ProgressDone(b, gameBlock, false, g);
    rotLeft := Board(g, b.emptyCells);
  }

  /** `rotate_right`: copy the board, then write every cell of the block to its rotated place. */
  method RotateRight(b: Board, gameBlock: int) returns (rotRight: Board)
    requires 1 <= gameBlock <= 4
    ensures rotRight == RotatedRight(b, gameBlock)
  {
    var rowOffset := ((gameBlock - 1) / 2) * GridSize;
    var colOffset := ((gameBlock - 1) % 2) * GridSize;
    OffsetFormulas(gameBlock);
    var g := b.grid;
    for i := rowOffset to GridSize + rowOffset
      invariant Progress(b, gameBlock, true, g, 3 * (i - rowOffset))
    {
      for j := colOffset to GridSize + colOffset
        invariant Progress(b, gameBlock, true, g, 3 * (i - rowOffset) + (j - colOffset))
      {
        var x, y := j + rowOffset - colOffset, 2 - i + rowOffset + colOffset;
        ProgressStep(b, gameBlock, true, g, i, j);
        g := g[x := g[x][y := b.grid[i][j]]];
      }
    }
    ProgressDone(b, gameBlock, true, g);
    rotRight := Board(g, b.emptyCells);
  }

  // ---------------------------------------------------------------------
  // Legal moves: the text "G/P KD"
  // ---------------------------------------------------------------------

  /** `str(d)` for a one-digit number. */
  function DigitChar(d: int): char
    requires 0 <= d <= 9
  {
    ('0' as int + d) as char
  }

  /** `int(c)` for a digit character. */
  function DigitValue(c: char): int
  {
    c as int - '0' as int
  }

  /** The block (1..4) holding cell (i, j). */
  function BlockOf(i: int, j: int): int
  {
    (i / GridSize) * 2 + (j / GridSize) + 1
  }

  /** The position (1..9) of cell (i, j) inside its block, in row-major order. */
  function PositionOf(i: int, j: int): int
  {
    (i % GridSize) * GridSize + (j % GridSize) + 1
  }

  /**
   * The eight moves that place a token on cell (i, j): the prefix "G/P " and
   * then, for the blocks 1..4 in turn, the left and then the right rotation.
   */
  function CellMoves(i: int, j: int): seq<string>
    requires 0 <= i < 6 && 0 <= j < 6
  {
    var pos := [DigitChar(BlockOf(i, j)), '/', DigitChar(PositionOf(i, j)), ' '];
    seq(8, n requires 0 <= n < 8 => pos + [DigitChar(n / 2 + 1), if n % 2 == 0 then 'L' else 'R'])
  }

  /** The moves of the first j cells of row i: eight for each '.' cell, cells left to right. */
  function RowMoves(g: Grid, i: int, j: int): seq<string>
    requires 0 <= i < 6 && 0 <= j <= 6
  {
    if j == 0 then [] else RowMoves(g, i, j - 1) + (if g[i][j - 1] == '.' then CellMoves(i, j - 1) else [])
  }

  /** The moves of the first i rows, rows top to bottom. */
  function RowsMoves(g: Grid, i: int): seq<string>
    requires 0 <= i <= 6
  {
    if i == 0 then [] else RowsMoves(g, i - 1) + RowMoves(g, i - 1, 6)
  }

  /** `get_moves()`: the moves of every '.' cell, cells in row-major order. */
  function Moves(b: Board): seq<string>
  {
    RowsMoves(b.grid, 6)
  }

  /**
   * The body of `get_moves` for a '.' cell (i, j): the prefix "G/P " and then,
   * for each of the four blocks, the left and the right turn.
   */
  method CellMoveList(i: int, j: int) returns (moves: seq<string>)
    requires 0 <= i < 6 && 0 <= j < 6
    ensures moves == CellMoves(i, j)
  {
    var gameBlock := (i / GridSize) * 2 + (j / GridSize) + 1;
    var position := (i % GridSize) * GridSize + (j % GridSize) + 1;
    CellCodes(i, j);
    var pos := [DigitChar(gameBlock), '/', DigitChar(position), ' '];
    var numBlocks := (BoardSize / GridSize) * (BoardSize / GridSize);
    moves := [];
    for k := 0 to numBlocks
      invariant moves == CellMoves(i, j)[..2 * k]
    {
      var block := DigitChar(k + 1);
      CellMovesPrefix(i, j, k);
      moves := moves + [pos + [block, 'L']];
      moves := moves + [pos + [block, 'R']];
    }
    assert CellMoves(i, j)[..8] == CellMoves(i, j);
  }

  /** `get_moves`: scan the grid, appending eight moves for each '.' cell. */
  method GetMoves(b: Board) returns (moveList: seq<string>)
    ensures moveList == Moves(b)
  {
    moveList := [];
    for i := 0 to BoardSize
      invariant moveList == RowsMoves(b.grid, i)
    {
      ghost var rows := moveList;
      for j := 0 to BoardSize
        invariant moveList == rows + RowMoves(b.grid, i, j)
      {
        if b.grid[i][j] == '.' {
          var cellMoves := CellMoveList(i, j);
          moveList := moveList + cellMoves;
          assert moveList == rows + (RowMoves(b.grid, i, j) + cellMoves);
        }
      }
    }
  }

  lemma CellCodes(i: int, j: int)
    requires 0 <= i < 6 && 0 <= j < 6
    ensures 1 <= BlockOf(i, j) <= 4 && 1 <= PositionOf(i, j) <= 9
  {
  }

  lemma CellMovesPrefix(i: int, j: int, k: int)
    requires 0 <= i < 6 && 0 <= j < 6 && 0 <= k < 4
    ensures var pos := [DigitChar(BlockOf(i, j)), '/', DigitChar(PositionOf(i, j)), ' '];
      CellMoves(i, j)[..2 * k + 2] == CellMoves(i, j)[..2 * k] + [pos + [DigitChar(k + 1), 'L'], pos + [DigitChar(k + 1), 'R']]
  {
    var c := CellMoves(i, j);
    assert c[..2 * k + 2] == c[..2 * k] + [c[2 * k], c[2 * k + 1]];
  }

  /** The number of '.' among the first j cells of row i. */
  function RowDotsBefore(g: Grid, i: int, j: int): nat
    requires 0 <= i < 6 && 0 <= j <= 6
  {
    if j == 0 then 0 else RowDotsBefore(g, i, j - 1) + Dot(g[i][j - 1])
  }

  /** The number of '.' in the first i rows. */
  function RowsDotsBefore(g: Grid, i: int): nat
    requires 0 <= i <= 6
  {
    if i == 0 then 0 else RowsDotsBefore(g, i - 1) + RowDotsBefore(g, i - 1, 6)
  }

  lemma {:induction false} RowMovesLength(g: Grid, i: int, j: int)
    requires 0 <= i < 6 && 0 <= j <= 6
    ensures |RowMoves(g, i, j)| == 8 * RowDotsBefore(g, i, j)
  {
    if j > 0 {
      RowMovesLength(g, i, j - 1);
    }
  }

  lemma {:induction false} RowsMovesLength(g: Grid, i: int)
    requires 0 <= i <= 6
    ensures |RowsMoves(g, i)| == 8 * RowsDotsBefore(g, i)
  {
    if i > 0 {
      RowsMovesLength(g, i - 1);
      RowMovesLength(g, i - 1, 6);
    }
  }

  /** Counting cell by cell, row by row, finds every '.' of the board. */
  lemma RowsDotsAll(b: Board)
    ensures RowsDotsBefore(b.grid, 6) == DotCount(b)
  {
    var g := b.grid;
    forall r | 0 <= r < 6 ensures RowDotsBefore(g, r, 6) == RowDots(g[r]) {
      assert RowDotsBefore(g, r, 1) == Dot(g[r][0]);
      assert RowDotsBefore(g, r, 2) == RowDotsBefore(g, r, 1) + Dot(g[r][1]);
      assert RowDotsBefore(g, r, 3) == RowDotsBefore(g, r, 2) + Dot(g[r][2]);
      assert RowDotsBefore(g, r, 4) == RowDotsBefore(g, r, 3) + Dot(g[r][3]);
      assert RowDotsBefore(g, r, 5) == RowDotsBefore(g, r, 4) + Dot(g[r][4]);
    }
    assert RowsDotsBefore(g, 1) == RowDotsBefore(g, 0, 6);
    assert RowsDotsBefore(g, 2) == RowsDotsBefore(g, 1) + RowDotsBefore(g, 1, 6);
    assert RowsDotsBefore(g, 3) == RowsDotsBefore(g, 2) + RowDotsBefore(g, 2, 6);
    assert RowsDotsBefore(g, 4) == RowsDotsBefore(g, 3) + RowDotsBefore(g, 3, 6);
    assert RowsDotsBefore(g, 5) == RowsDotsBefore(g, 4) + RowDotsBefore(g, 4, 6);
    DotCountCells(b);
  }

  /** Eight moves per empty cell. */
  lemma MovesLength(b: Board)
    ensures |Moves(b)| == 8 * DotCount(b)
  {
    RowsMovesLength(b.grid, 6);
    RowsDotsAll(b);
  }

  /** No move is generated exactly when the board is full. */
  lemma MovesEmptyIffFull(b: Board)
    ensures Moves(b) == [] <==> IsFull(b)
  {
    MovesLength(b);
    FullIffNoDots(b);
  }

  lemma {:induction false} RowMovesGrow(g: Grid, i: int, j: int, m: string)
    requires 0 <= i < 6 && 0 <= j <= 6 && m in RowMoves(g, i, j)
    ensures m in RowMoves(g, i, 6)
    decreases 6 - j
  {
    if j < 6 {
      assert m in RowMoves(g, i, j) + (if g[i][j] == '.' then CellMoves(i, j) else []);
      RowMovesGrow(g, i, j + 1, m);
    }
  }

  lemma {:induction false} RowsMovesGrow(g: Grid, i: int, m: string)
    requires 0 <= i <= 6 && m in RowsMoves(g, i)
    ensures m in RowsMoves(g, 6)
    decreases 6 - i
  {
    if i < 6 {
      assert m in RowsMoves(g, i) + RowMoves(g, i, 6);
      RowsMovesGrow(g, i + 1, m);
    }
  }

  /** Every variant of every '.' cell is generated. */
  lemma CellMoveIn(b: Board, i: int, j: int, n: int)
    requires 0 <= i < 6 && 0 <= j < 6 && 0 <= n < 8 && b.grid[i][j] == '.'
    ensures CellMoves(i, j)[n] in Moves(b)
  {
    var m := CellMoves(i, j)[n];
    assert m in RowMoves(b.grid, i, j + 1);
    RowMovesGrow(b.grid, i, j + 1, m);
    assert m in RowsMoves(b.grid, i + 1);
    RowsMovesGrow(b.grid, i + 1, m);
  }

  lemma {:induction false} RowMovesFrom(g: Grid, i: int, j: int, m: string)
    requires 0 <= i < 6 && 0 <= j <= 6 && m in RowMoves(g, i, j)
    ensures exists c, n :: 0 <= c < 6 && 0 <= n < 8 && g[i][c] == '.' && m == CellMoves(i, c)[n]
  {
    if m in RowMoves(g, i, j - 1) {
      RowMovesFrom(g, i, j - 1, m);
    } else {
      var n :| 0 <= n < 8 && m == CellMoves(i, j - 1)[n];
    }
  }

  lemma {:induction false} RowsMovesFrom(g: Grid, i: int, m: string)
    requires 0 <= i <= 6 && m in RowsMoves(g, i)
    ensures exists r, c, n :: 0 <= r < 6 && 0 <= c < 6 && 0 <= n < 8 && g[r][c] == '.' && m == CellMoves(r, c)[n]
  {
    if m in RowsMoves(g, i - 1) {
      RowsMovesFrom(g, i - 1, m);
    } else {
      RowMovesFrom(g, i - 1, 6, m);
    }
  }

  /** Every generated move comes from a '.' cell and one of its eight variants. */
  lemma MoveOrigin(b: Board, m: string)
    requires m in Moves(b)
    ensures exists i, j, n :: 0 <= i < 6 && 0 <= j < 6 && 0 <= n < 8 && b.grid[i][j] == '.' && m == CellMoves(i, j)[n]
  {
    RowsMovesFrom(b.grid, 6, m);
  }

  // ---------------------------------------------------------------------
  // Decoding and applying a move
  // ---------------------------------------------------------------------

  /**
   * The move texts `apply_move` can read: at least six characters, a block
   * digit 1..4, a position digit 1..9 and a rotation block digit 1..4 at the
   * places it reads them.
   */
  predicate IsMoveText(m: string)
  {
    |m| >= 6 && '1' <= m[0] <= '4' && '1' <= m[2] <= '9' && '1' <= m[4] <= '4'
  }

  /** The row `apply_move` decodes from a move. */
  function DecodeRow(m: string): int
    requires IsMoveText(m)
  {
    (DigitValue(m[2]) - 1) / GridSize + GridSize * ((DigitValue(m[0]) - 1) / 2)
  }

  /** The column `apply_move` decodes from a move. */
  function DecodeCol(m: string): int
    requires IsMoveText(m)
  {
    (DigitValue(m[2]) - 1) % GridSize + GridSize * ((DigitValue(m[0]) - 1) % 2)
  }

  lemma DecodeInRange(m: string)
    requires IsMoveText(m)
    ensures 0 <= DecodeRow(m) < 6 && 0 <= DecodeCol(m) < 6
  {
  }

  /**
   * Decoding inverts the encoding: move n of cell (i, j) is a readable move
   * text naming (i, j), rotation block n/2 + 1, left for even n and right for
   * odd n.
   */
  lemma CellMoveDecodes(i: int, j: int, n: int)
    requires 0 <= i < 6 && 0 <= j < 6 && 0 <= n < 8
    ensures var m := CellMoves(i, j)[n];
      && IsMoveText(m) && |m| == 6 && DecodeRow(m) == i && DecodeCol(m) == j
      && DigitValue(m[4]) == n / 2 + 1 && m[5] == (if n % 2 == 0 then 'L' else 'R')
  {
    var m := CellMoves(i, j)[n];
    assert DigitValue(m[0]) == BlockOf(i, j) && DigitValue(m[2]) == PositionOf(i, j);
    assert (PositionOf(i, j) - 1) / 3 == i % 3 && (PositionOf(i, j) - 1) % 3 == j % 3;
    assert (BlockOf(i, j) - 1) / 2 == i / 3 && (BlockOf(i, j) - 1) % 2 == j / 3;
  }

  /** Every generated move decodes to the '.' cell it was generated for. */
  lemma MoveDecodesToEmptyCell(b: Board, m: string)
    requires m in Moves(b)
    ensures IsMoveText(m) && 0 <= DecodeRow(m) < 6 && 0 <= DecodeCol(m) < 6
    ensures b.grid[DecodeRow(m)][DecodeCol(m)] == '.'
  {
    MoveOrigin(b, m);
    var i, j, n :| 0 <= i < 6 && 0 <= j < 6 && 0 <= n < 8 && b.grid[i][j] == '.' && m == CellMoves(i, j)[n];
    CellMoveDecodes(i, j, n);
  }

  /** The board with cell (i, j) overwritten by `token`. */
  function Place(b: Board, i: int, j: int, token: char): Board
    requires 0 <= i < 6 && 0 <= j < 6
  {
    Board(b.grid[i := b.grid[i][j := token]], b.emptyCells)
  }

  function RotationBlock(m: string): int
    requires IsMoveText(m)
  {
    DigitValue(m[4])
  }

  predicate TurnsRight(m: string)
    requires IsMoveText(m)
  {
    m[5] == 'r' || m[5] == 'R'
  }

  /**
   * `apply_move(move, token)`: the token is written on the decoded cell of a
   * copy, whose rotation block is then turned right for direction 'r' or 'R'
   * and left for any other direction.  The counter is copied unchanged.
   */
  function Applied(b: Board, m: string, token: char): Board
    requires IsMoveText(m)
  {
    var placed := Place(b, DecodeRow(m), DecodeCol(m), token);
    if TurnsRight(m) then RotatedRight(placed, RotationBlock(m)) else RotatedLeft(placed, RotationBlock(m))
  }

  /** `apply_move`: decode, copy and place, then rotate the copy. */
  method ApplyMove(b: Board, move: string, token: char) returns (newBoard: Board)
    requires IsMoveText(move)
    ensures newBoard == Applied(b, move, token)
  {
    var gameBlock := DigitValue(move[0]);
    var position := DigitValue(move[2]);
    var rotBlock := DigitValue(move[4]);
    var direction := move[5];
    var i := (position - 1) / GridSize + GridSize * ((gameBlock - 1) / 2);
    var j := (position - 1) % GridSize + GridSize * ((gameBlock - 1) % 2);
    var g := b.grid;
    g := g[i := g[i][j := token]];
    newBoard := Board(g, b.emptyCells);
    if direction == 'r' || direction == 'R' {
      newBoard := RotateRight(newBoard, rotBlock);
    } else {
      newBoard := RotateLeft(newBoard, rotBlock);
    }
  }

  lemma RowDotsUpdate(row: seq<char>, j: int, token: char)
    requires |row| == 6 && 0 <= j < 6 && row[j] == '.' && token != '.'
    ensures RowDots(row[j := token]) == RowDots(row) - 1
  {
  }

  /** Writing a non-'.' token on a '.' cell removes exactly one '.' cell. */
  lemma PlaceFillsOneCell(b: Board, i: int, j: int, token: char)
    requires 0 <= i < 6 && 0 <= j < 6 && b.grid[i][j] == '.' && token != '.'
    ensures DotCount(Place(b, i, j, token)) == DotCount(b) - 1
  {
    var p := Place(b, i, j, token);
    DotCountCells(b);
    DotCountCells(p);
    RowDotsUpdate(b.grid[i], j, token);
    var g, h := b.grid, p.grid;
    assert RowDots(h[i]) == RowDots(g[i]) - 1;
    if i == 0 { assert h[1] == g[1] && h[2] == g[2] && h[3] == g[3] && h[4] == g[4] && h[5] == g[5]; }
    else if i == 1 { assert h[0] == g[0] && h[2] == g[2] && h[3] == g[3] && h[4] == g[4] && h[5] == g[5]; }
    else if i == 2 { assert h[0] == g[0] && h[1] == g[1] && h[3] == g[3] && h[4] == g[4] && h[5] == g[5]; }
    else if i == 3 { assert h[0] == g[0] && h[1] == g[1] && h[2] == g[2] && h[4] == g[4] && h[5] == g[5]; }
    else if i == 4 { assert h[0] == g[0] && h[1] == g[1] && h[2] == g[2] && h[3] == g[3] && h[5] == g[5]; }
    else { assert h[0] == g[0] && h[1] == g[1] && h[2] == g[2] && h[3] == g[3] && h[4] == g[4]; }
  }

  /**
   * A generated move played with a real token fills exactly one empty cell,
   * while the `empty_cells` counter keeps its old value.
   */
  lemma MoveFillsOneCell(b: Board, m: string, token: char)
    requires m in Moves(b) && token != '.'
    ensures IsMoveText(m)
    ensures DotCount(Applied(b, m, token)) == DotCount(b) - 1
    ensures Applied(b, m, token).emptyCells == b.emptyCells
  {
    MoveDecodesToEmptyCell(b, m);
    PlaceFillsOneCell(b, DecodeRow(m), DecodeCol(m), token);
    RotationKeepsDots(Place(b, DecodeRow(m), DecodeCol(m), token), RotationBlock(m));
  }

  /**
   * Where the placed token ends up: its cell moves with the rotation when it
   * lies in the rotated block and stays put otherwise.
   */
  lemma AppliedLandsToken(b: Board, m: string, token: char)
    requires IsMoveText(m)
    ensures var i, j, blk := DecodeRow(m), DecodeCol(m), RotationBlock(m);
      var ro, co := RowOffset(blk), ColOffset(blk);
      var t := Applied(b, m, token);
      && (!InBlock(blk, i, j) ==> t.grid[i][j] == token)
      && (InBlock(blk, i, j) && TurnsRight(m) ==> t.grid[ro + j - co][co + 2 - (i - ro)] == token)
      && (InBlock(blk, i, j) && !TurnsRight(m) ==> t.grid[ro + 2 - (j - co)][co + i - ro] == token)
  {
    var i, j, blk := DecodeRow(m), DecodeCol(m), RotationBlock(m);
    var p := Place(b, i, j, token);
    if InBlock(blk, i, j) {
      if TurnsRight(m) {
        RotatedRightMoves(p, blk);
        assert Local(p, blk, i - RowOffset(blk), j - ColOffset(blk)) == token;
      } else {
        RotatedLeftMoves(p, blk);
        assert Local(p, blk, i - RowOffset(blk), j - ColOffset(blk)) == token;
      }
    }
  }

  // ---------------------------------------------------------------------
  // Diagonals
  // ---------------------------------------------------------------------

  /** `get_diagonals()`: the main diagonal and the anti-diagonal, top row first. */
  function Diagonals(b: Board): seq<seq<char>>
  {
    [seq(6, i requires 0 <= i < 6 => b.grid[i][i]),
     seq(6, i requires 0 <= i < 6 => b.grid[i][BoardSize - i - 1])]
  }

  /**
   * In the serialised board the main diagonal is every seventh character from
   * the first, the anti-diagonal every fifth from the sixth.
   */
  lemma DiagonalsInString(b: Board)
    ensures var d, s := Diagonals(b), ToString(b);
      |d| == 2 && |d[0]| == 6 && |d[1]| == 6 &&
      forall i | 0 <= i < 6 :: d[0][i] == s[7 * i] && d[1][i] == s[5 * i + 5]
  {
    var s := ToString(b);
    assert s[0] == b.grid[0][0] && s[7] == b.grid[1][1] && s[14] == b.grid[2][2];
    assert s[21] == b.grid[3][3] && s[28] == b.grid[4][4] && s[35] == b.grid[5][5];
    assert s[5] == b.grid[0][5] && s[10] == b.grid[1][4] && s[15] == b.grid[2][3];
    assert s[20] == b.grid[3][2] && s[25] == b.grid[4][1] && s[30] == b.grid[5][0];
  }

  /** Turning block 2 or 3 leaves the main diagonal alone; turning block 1 or 4 the anti-diagonal. */
  lemma RotationKeepsDiagonal(b: Board, blk: int)
    requires 1 <= blk <= 4
    ensures blk == 2 || blk == 3 ==>
      Diagonals(RotatedLeft(b, blk))[0] == Diagonals(b)[0] && Diagonals(RotatedRight(b, blk))[0] == Diagonals(b)[0]
    ensures blk == 1 || blk == 4 ==>
      Diagonals(RotatedLeft(b, blk))[1] == Diagonals(b)[1] && Diagonals(RotatedRight(b, blk))[1] == Diagonals(b)[1]
  {
  }
}
