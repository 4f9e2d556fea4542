/** The static evaluator of the 4x4x4 engine (`evaluate_gamestate_3d`): at
    the end of the game a win is worth WIN to the winner and a draw DRAW to
    either side; otherwise every occupied cell weighs 4, 2 or 1 according to
    how many diagonals it lies on, and the score is the perspective's total
    weight minus the opponent's. */
module TTT3DEval {
  import opened Game

  /** `cSquares` of the 64-cell cube. */
  const SQUARES: nat := 64

  /** `win_lose_scalar`. */
  const WIN: int := 500

  /** `win_lose_scalar - 300`, returned for a draw whatever the perspective. */
  const DRAW: int := WIN - 300

  /** `p_values`: the cells of weight 4 (positions 0 to 15) followed by the
      cells of weight 2 (positions 16 to 31). */
  const P_VALUES: seq<nat> := [
    0, 3, 12, 15, 21, 22, 25, 26, 37, 38, 41, 42, 48, 51, 60, 63,
    17, 18, 20, 23, 24, 27, 29, 30, 33, 34, 36, 39, 40, 43, 45, 46]

  /** `index_p_4_max`: the last position of a weight-4 cell in P_VALUES. */
  const INDEX_P_4_MAX: nat := 15

  /** The cells lying on four diagonals of the cube. */
  const ON_FOUR: set<nat> := {0, 3, 12, 15, 21, 22, 25, 26, 37, 38, 41, 42, 48, 51, 60, 63}

  /** The cells lying on two diagonals of the cube. */
  const ON_TWO: set<nat> := {17, 18, 20, 23, 24, 27, 29, 30, 33, 34, 36, 39, 40, 43, 45, 46}

  /** The weight of cell i: its number of diagonals, every other cell 1. */
  function Weight(i: nat): nat
  {
    if i in ON_FOUR then 4 else if i in ON_TWO then 2 else 1
  }

  /** Total weight of the cells below k that hold `c`. */
  function Total(board: seq<Cell>, c: Cell, k: nat): nat
    requires k <= |board|
  {
    if k == 0 then 0 else Total(board, c, k - 1) + (if board[k - 1] == c then Weight(k - 1) else 0)
  }

  /** Total weight of the cells lo, ..., hi - 1. */
  function RangeWeight(lo: nat, hi: nat): nat
    decreases hi
  {
    if hi <= lo then 0 else RangeWeight(lo, hi - 1) + Weight(hi - 1)
  }

  /** The value `evaluate_gamestate_3d` returns for `n` from the side `persp`. */
  function Score(n: Node, persp: Player): int
    requires |n.board| == SQUARES
  {
    var s := n.status;
    if s.eog && s.xWin then (if persp == PX then WIN else -WIN)
    else if s.eog && s.oWin then (if persp == PO then WIN else -WIN)
    else if s.eog && s.draw then DRAW
    else Total(n.board, persp.Mark(), SQUARES) - Total(n.board, persp.Opponent().Mark(), SQUARES)
  }

  /** The positions of P_VALUES split exactly into the two weight classes. */
  lemma PValuesClasses()
    ensures forall k :: 0 <= k <= INDEX_P_4_MAX ==> P_VALUES[k] in ON_FOUR
    ensures forall k :: INDEX_P_4_MAX < k < |P_VALUES| ==> P_VALUES[k] in ON_TWO && P_VALUES[k] !in ON_FOUR
    ensures forall x :: x in ON_FOUR || x in ON_TWO ==> x in P_VALUES
  {
  }

  /** Two sides never hold the same cell, so together they weigh at most
      the cells below k. */
  lemma {:induction false} TotalsShare(board: seq<Cell>, k: nat)
    requires k <= |board|
    ensures Total(board, X, k) + Total(board, O, k) <= RangeWeight(0, k)
  {
    if k > 0 {
      TotalsShare(board, k - 1);
    }
  }

  /** Consecutive ranges of cells add up. */
  lemma {:induction false} RangeSplit(lo: nat, mid: nat, hi: nat)
    requires lo <= mid <= hi
    ensures RangeWeight(lo, hi) == RangeWeight(lo, mid) + RangeWeight(mid, hi)
    decreases hi
  {
    if hi > mid {
      RangeSplit(lo, mid, hi - 1);
    }
  }

  /** The weights of the eight blocks of two rows (8 cells) of the cube,
      one lemma per block to keep each proof small. */
  lemma RowPairWeight0()
    ensures RangeWeight(0, 8) == 14
  {
  }

  lemma RowPairWeight1()
    ensures RangeWeight(8, 16) == 14
  {
  }

  lemma RowPairWeight2()
    ensures RangeWeight(16, 24) == 18
  {
  }

  lemma RowPairWeight3()
    ensures RangeWeight(24, 32) == 18
  {
  }

  lemma RowPairWeight4()
    ensures RangeWeight(32, 40) == 18
  {
  }

  lemma RowPairWeight5()
    ensures RangeWeight(40, 48) == 18
  {
  }

  lemma RowPairWeight6()
    ensures RangeWeight(48, 56) == 14
  {
  }

  lemma RowPairWeight7()
    ensures RangeWeight(56, 64) == 14
  {
  }

  /** The whole cube weighs 16 * 4 + 16 * 2 + 32 * 1 = 128. */
  lemma CubeWeightIs128()
    ensures RangeWeight(0, SQUARES) == 128
  {
    RowPairWeight0();
    RowPairWeight1();
    RowPairWeight2();
    RowPairWeight3();
    RowPairWeight4();
    RowPairWeight5();
    RowPairWeight6();
    RowPairWeight7();
    RangeSplit(0, 8, 16);
    RangeSplit(0, 16, 24);
    RangeSplit(0, 24, 32);
    RangeSplit(0, 32, 40);
    RangeSplit(0, 40, 48);
    RangeSplit(0, 48, 56);
    RangeSplit(0, 56, 64);
  }

  /** Away from the end of the game the score lies in [-128, 128], so a win
      (+-WIN) and a draw (DRAW) always lie outside the heuristic range. */
  lemma ScoreBounds(n: Node, persp: Player)
    requires |n.board| == SQUARES && !n.status.eog
    ensures -128 <= Score(n, persp) <= 128 < DRAW < WIN
  {
    TotalsShare(n.board, SQUARES);
    CubeWeightIs128();
  }

  /** Every score lies in [-WIN, WIN]. */
  lemma ScoreRange(n: Node, persp: Player)
    requires |n.board| == SQUARES
    ensures -WIN <= Score(n, persp) <= WIN
  {
    TotalsShare(n.board, SQUARES);
    CubeWeightIs128();
  }

  /** Away from the end of the game, swapping the perspective negates the
      score; a draw scores DRAW for both sides, so it is not anti-symmetric. */
  lemma ScoreAntisymmetric(n: Node)
    requires |n.board| == SQUARES
    ensures !n.status.eog ==> Score(n, PO) == -Score(n, PX)
    ensures n.status.eog && n.status.draw && !n.status.xWin && !n.status.oWin ==>
              Score(n, PX) == Score(n, PO) == DRAW
  {
  }

  /** `std::find`: the first position of `x` in `s`, or |s| when absent. */
  method Find(s: seq<nat>, x: nat) returns (k: nat)
    ensures k <= |s|
    ensures k < |s| ==> s[k] == x
    ensures forall j :: 0 <= j < k ==> s[j] != x
  {
    k := 0;
    while k < |s| && s[k] != x
      invariant k <= |s|
      invariant forall j :: 0 <= j < k ==> s[j] != x
    {
      k := k + 1;
    }
  }

  /** The weight the evaluator adds for an occupied cell i: 1 when i is not
      in P_VALUES, else 4 or 2 by its position. */
  method CellWeight(i: nat) returns (w: nat)
    ensures w == Weight(i)
  {
    PValuesClasses();
    var index := Find(P_VALUES, i);
    if index == |P_VALUES| {
      assert i !in P_VALUES;
      w := 1;
    } else if index <= INDEX_P_4_MAX {
      assert P_VALUES[index] in ON_FOUR;
      w := 4;
    } else {
      assert P_VALUES[index] in ON_TWO && P_VALUES[index] !in ON_FOUR;
      w := 2;
    }
  }

  /** `evaluate_gamestate_3d`. */
  method EvaluateGameState3D(n: Node, persp: Player) returns (v: int)
    requires |n.board| == SQUARES
    ensures v == Score(n, persp)
  {
    if n.status.eog {
      if n.status.xWin {
        return if persp == PX then WIN else -WIN;
      } else if n.status.oWin {
        return if persp == PO then WIN else -WIN;
      } else if n.status.draw {
        return WIN - 300;
      }
    }
    var b := n.board;
    var xValue: nat, oValue: nat := 0, 0;
    var i := 0;
    while i < SQUARES
      invariant 0 <= i <= SQUARES
      invariant xValue == Total(b, X, i) && oValue == Total(b, O, i)
    {
      if b[i] == X || b[i] == O {
        var w := CellWeight(i);
        if b[i] == X {
          xValue := xValue + w;
        } else {
          oValue := oValue + w;
        }
      }
      i := i + 1;
    }
    if persp == PX {
      v := xValue as int - oValue as int;
    } else {
      v := oValue as int - xValue as int;
    }
  }
}
