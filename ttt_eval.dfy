/** The static evaluator of the 4x4 engine (`MiniMax::evaluate_gamestate`):
    a win is worth WIN to the winner, otherwise the score is the number of
    lines held only by the perspective's marks minus the number held only by
    the opponent's. The ten lines are the cell sequences the source's loops
    visit, including the last loop's extra cell 15. */
module TTTEval {
  import opened Game

  /** `cSquares` of the 4x4 board. */
  const SQUARES: nat := 16

  /** `win_lose_scalar`. */
  const WIN: int := 5

  /** Number of lines the evaluator inspects. */
  const LINES: nat := 10

  /** The cells visited by `for (cell = first; cell < bound; cell += step)`. */
  function Cells(first: nat, step: nat, bound: nat): (s: seq<nat>)
    requires step > 0
    ensures forall c :: c in s ==> first <= c < bound
    decreases bound - first
  {
    if first >= bound then [] else [first] + Cells(first + step, step, bound)
  }

  /** Line k as the source scans it: rows for k < 4, columns for 4 <= k < 8,
      the main diagonal for k == 8 and the loop `cell = 3; cell < 16;
      cell += 3` for k == 9. */
  function Line(k: nat): seq<nat>
    requires k < LINES
  {
    if k < 4 then Cells(4 * k, 1, 4 * k + 4)
    else if k < 8 then Cells(k - 4, 4, SQUARES)
    else if k == 8 then Cells(0, 5, SQUARES)
    else Cells(3, 3, SQUARES)
  }

  /** Some cell of `line` holds `c`. */
  predicate HasMark(board: seq<Cell>, line: seq<nat>, c: Cell)
  {
    exists i :: i in line && i < |board| && board[i] == c
  }

  /** `line` holds marks of `p` and none of the opponent's. */
  predicate Open(board: seq<Cell>, line: seq<nat>, p: Player)
  {
    HasMark(board, line, p.Mark()) && !HasMark(board, line, p.Opponent().Mark())
  }

  /** How many of the first k lines are open for `p`. */
  function OpenLines(board: seq<Cell>, p: Player, k: nat): nat
    requires k <= LINES
  {
    if k == 0 then 0 else OpenLines(board, p, k - 1) + (if Open(board, Line(k - 1), p) then 1 else 0)
  }

  /** The value `evaluate_gamestate` returns for `n` from the side `persp`. */
  function Score(n: Node, persp: Player): int
    requires |n.board| == SQUARES
  {
    if n.status.xWin then (if persp == PX then WIN else -WIN)
    else if n.status.oWin then (if persp == PO then WIN else -WIN)
    else OpenLines(n.board, persp, LINES) - OpenLines(n.board, persp.Opponent(), LINES)
  }

  /** No line is open for both sides, so the two counts share the k lines. */
  lemma {:induction false} OpenLinesShare(board: seq<Cell>, k: nat)
    requires k <= LINES
    ensures OpenLines(board, PX, k) + OpenLines(board, PO, k) <= k
  {
    if k > 0 {
      OpenLinesShare(board, k - 1);
    }
  }

  /** Every score lies in [-LINES, LINES]; a win scores exactly +-WIN. */
  lemma ScoreBounds(n: Node, persp: Player)
    requires |n.board| == SQUARES
    ensures -(LINES as int) <= Score(n, persp) <= LINES
    ensures n.status.xWin || n.status.oWin ==> Score(n, persp) == WIN || Score(n, persp) == -WIN
  {
    OpenLinesShare(n.board, LINES);
  }

  /** An X win is checked first: it is worth WIN to X and -WIN to O even if
      the position also reports an O win. */
  lemma XWinFirst(n: Node)
    requires |n.board| == SQUARES && n.status.xWin
    ensures Score(n, PX) == WIN && Score(n, PO) == -WIN
  {
  }

  /** Swapping the perspective negates the score, wins included (there is
      no draw score on this board). */
  lemma ScoreAntisymmetric(n: Node)
    requires |n.board| == SQUARES
    ensures Score(n, PO) == -Score(n, PX)
  {
  }

  /** A position without a win can score more than a win: X alone on cells
      0, 3, 5 and 10 holds every line but the last row, and O none. */
  lemma OpenOutscoresWin()
    ensures var n := Node(PO, OpenBoard(), Status(false, false, false, false), []);
      |n.board| == SQUARES && Score(n, PX) == 9 > WIN
  {
    var b := OpenBoard();
    for k := 0 to LINES
      invariant OpenLines(b, PX, k) == (if k <= 3 then k else k - 1)
      invariant OpenLines(b, PO, k) == 0
    {
      OpenBoardLine(k);
    }
  }

  /** Line k of `OpenBoard` is open for X unless it is the last row, and
      never open for O. */
  lemma OpenBoardLine(k: nat)
    requires k < LINES
    ensures Open(OpenBoard(), Line(k), PX) == (k != 3)
    ensures !Open(OpenBoard(), Line(k), PO)
  {
    var b := OpenBoard();
    assert forall i :: 0 <= i < |b| ==> b[i] != O;
    if k == 3 {
      assert Line(3) == [12, 13, 14, 15];
    } else {
      var w := [0, 5, 10, 0, 0, 5, 10, 3, 0, 3][k];
      LineHolds(k, w);
      assert b[w] == X;
    }
  }

  /** The cell of `OpenBoard` that puts an X on line k. */
  lemma LineHolds(k: nat, w: nat)
    requires k < LINES && k != 3 && w == [0, 5, 10, 0, 0, 5, 10, 3, 0, 3][k]
    ensures w in Line(k)
  {
    if k < 3 {
      assert Line(k) == [4 * k, 4 * k + 1, 4 * k + 2, 4 * k + 3];
    } else if k == 4 {
      assert Line(4) == [0, 4, 8, 12];
    } else if k == 5 {
      assert Line(5) == [1, 5, 9, 13];
    } else if k == 6 {
      assert Line(6) == [2, 6, 10, 14];
    } else if k == 7 {
      assert Line(7) == [3, 7, 11, 15];
    } else if k == 8 {
      assert Line(8) == [0, 5, 10, 15];
    } else {
      assert Line(9) == [3, 6, 9, 12, 15];
    }
  }

  /** The board of `OpenOutscoresWin`. */
  function OpenBoard(): seq<Cell>
  {
    [X, Empty, Empty, X, Empty, X, Empty, Empty, Empty, Empty, X, Empty, Empty, Empty, Empty, Empty]
  }

  /** The two diagonal loops visit {0, 5, 10, 15} and {3, 6, 9, 12, 15}. */
  lemma DiagonalLines()
    ensures Line(8) == [0, 5, 10, 15]
    ensures Line(9) == [3, 6, 9, 12, 15]
  {
  }

  /** Scans `for (cell = first; cell < bound; cell += step)` and reports
      whether an X and whether an O was met (`contains_x`, `contains_o`). */
  method ScanLine(board: seq<Cell>, first: nat, step: nat, bound: nat) returns (containsX: bool, containsO: bool)
    requires step > 0 && bound <= |board|
    ensures containsX == HasMark(board, Cells(first, step, bound), X)
    ensures containsO == HasMark(board, Cells(first, step, bound), O)
  {
    containsX, containsO := false, false;
    var cell := first;
    ghost var seen: seq<nat> := [];
    while cell < bound
      invariant seen + Cells(cell, step, bound) == Cells(first, step, bound)
      invariant containsX == HasMark(board, seen, X)
      invariant containsO == HasMark(board, seen, O)
      decreases bound - cell
    {
      if board[cell] == X {
        containsX := true;
      } else if board[cell] == O {
        containsO := true;
      }
      seen := seen + [cell];
      cell := cell + step;
    }
  }

  /** Scans line k (the cells `first, first + step, ...` below `bound`) and
      adds it to `x_value` or `o_value` when only one side holds it. */
  method TallyLine(b: seq<Cell>, ghost k: nat, first: nat, step: nat, bound: nat, xValue: nat, oValue: nat)
    returns (xValue': nat, oValue': nat)
    requires |b| == SQUARES && k < LINES && step > 0 && bound <= SQUARES
    requires Line(k) == Cells(first, step, bound)
    requires xValue == OpenLines(b, PX, k) && oValue == OpenLines(b, PO, k)
    ensures xValue' == OpenLines(b, PX, k + 1) && oValue' == OpenLines(b, PO, k + 1)
  {
    var containsX, containsO := ScanLine(b, first, step, bound);
    xValue', oValue' := xValue, oValue;
    if containsX && !containsO {
      xValue' := xValue + 1;
    } else if containsO && !containsX {
      oValue' := oValue + 1;
    }
  }

  /** `evaluate_gamestate`: wins first, then the rows, the columns and the
      two diagonal loops, each counted for X or for O when only that side
      holds it. */
  method EvaluateGameState(n: Node, persp: Player) returns (v: int)
    requires |n.board| == SQUARES
    ensures v == Score(n, persp)
  {
    if n.status.xWin {
      return if persp == PX then WIN else -WIN;
    } else if n.status.oWin {
      return if persp == PO then WIN else -WIN;
    }
    var b := n.board;
    var xValue: nat, oValue: nat := 0, 0;
    var row := 0;
    ghost var k := 0;
    while row < SQUARES
      invariant 0 <= k <= 4 && row == 4 * k
      invariant xValue == OpenLines(b, PX, k) && oValue == OpenLines(b, PO, k)
    {
      xValue, oValue := TallyLine(b, k, row, 1, row + 4, xValue, oValue);
      row := row + 4;
      k := k + 1;
    }
    var col := 0;
    while col < 4
      invariant 0 <= col <= 4
      invariant xValue == OpenLines(b, PX, 4 + col) && oValue == OpenLines(b, PO, 4 + col)
    {
      assert Line(4 + col) == Cells(col, 4, SQUARES);
      xValue, oValue := TallyLine(b, 4 + col, col, 4, SQUARES, xValue, oValue);
      col := col + 1;
    }
    assert Line(8) == Cells(0, 5, SQUARES) && Line(9) == Cells(3, 3, SQUARES);
    xValue, oValue := TallyLine(b, 8, 0, 5, SQUARES, xValue, oValue);
    xValue, oValue := TallyLine(b, 9, 3, 3, SQUARES, xValue, oValue);
    if persp == PX {
      v := xValue as int - oValue as int;
    } else {
      v := oValue as int - xValue as int;
    }
  }
}
