/** The search of the 4x4 engine (`TICTACTOE::MiniMax::minimax`, both
    overloads). `Search`, `MaxLoop` and `MinLoop` state what the recursion
    computes, poll by poll; the methods `MinimaxAB` and `BestNextState` are
    the procedures themselves, proved to compute exactly that. The window
    test `beta <= alpha && time short` only ever stops a loop when time is
    short, so with an ample deadline the search is plain minimax. */
module TTTSearch {
  import opened Game
  import R = Reference
  import TTTEval

  /** The reference rules this search follows. */
  function RulesOf(c: Ctx): R.Rules
  {
    R.Rules(R.Square, R.Exact, c.persp, c.maxDepth)
  }

  /** The static evaluation of `n`: `{current_state, evaluate_gamestate(...)}`. */
  function Leaf(n: Node, persp: Player): Evaluation
    requires |n.board| == TTTEval.SQUARES
  {
    Evaluation(n, TTTEval.Score(n, persp))
  }

  /** What `minimax(pDue, n, persp, max_depth, depth, alpha, beta)` returns
      when the first `t` polls of the clock have been made. The clock is
      polled only when `n` has moves and `depth != max_depth`. */
  function Search(n: Node, c: Ctx, depth: nat, alpha: int, beta: int, t: nat): Run
    requires AllBoards(n, TTTEval.SQUARES)
    decreases n
  {
    if |n.children| == 0 || depth == c.maxDepth then Run(Leaf(n, c.persp), t)
    else if Short(c.clock, t, TIME_BUFFER) then Run(Leaf(n, c.persp), t + 1)
    else if n.toMove != c.persp then MaxLoop(n.children, c, depth, 0, Evaluation(n, -INT_MAX), alpha, beta, t + 1)
    else MinLoop(n.children, c, depth, 0, Evaluation(n, INT_MAX), alpha, beta, t + 1)
  }

  /** The max loop from child i on, with `best_next_state` = best. A child
      replaces `best` only when its value is strictly larger; alpha rises to
      the best value; the clock is polled only once `beta <= alpha`, and the
      loop stops only when that poll reports short time. */
  function MaxLoop(cs: seq<Node>, c: Ctx, depth: nat, i: nat, best: Evaluation, alpha: int, beta: int, t: nat): Run
    requires i <= |cs| && forall j :: 0 <= j < |cs| ==> AllBoards(cs[j], TTTEval.SQUARES)
    decreases cs, |cs| - i
  {
    if i == |cs| then Run(best, t)
    else
      var r := Search(cs[i], c, depth + 1, alpha, beta, t);
      var best' := if r.eval.value > best.value then Evaluation(cs[i], r.eval.value) else best;
      var alpha' := if best'.value > alpha then best'.value else alpha;
      if beta <= alpha' then
        if Short(c.clock, r.polls, TIME_BUFFER) then Run(best', r.polls + 1)
        else MaxLoop(cs, c, depth, i + 1, best', alpha', beta, r.polls + 1)
      else MaxLoop(cs, c, depth, i + 1, best', alpha', beta, r.polls)
  }

  /** The min loop from child i on: a child replaces `best` only when its
      value is strictly smaller, and beta falls to each smaller child value. */
  function MinLoop(cs: seq<Node>, c: Ctx, depth: nat, i: nat, best: Evaluation, alpha: int, beta: int, t: nat): Run
    requires i <= |cs| && forall j :: 0 <= j < |cs| ==> AllBoards(cs[j], TTTEval.SQUARES)
    decreases cs, |cs| - i
  {
    if i == |cs| then Run(best, t)
    else
      var r := Search(cs[i], c, depth + 1, alpha, beta, t);
      var best' := if r.eval.value < best.value then Evaluation(cs[i], r.eval.value) else best;
      var beta' := if r.eval.value < beta then r.eval.value else beta;
      if beta' <= alpha then
        if Short(c.clock, r.polls, TIME_BUFFER) then Run(best', r.polls + 1)
        else MinLoop(cs, c, depth, i + 1, best', alpha, beta', r.polls + 1)
      else MinLoop(cs, c, depth, i + 1, best', alpha, beta', r.polls)
  }

  /** With an ample deadline no loop stops early and the windows have no
      effect: the search returns the reference minimax evaluation, state and
      value, whatever alpha and beta it starts from. */
  lemma {:induction false} SearchIsMinimax(n: Node, c: Ctx, depth: nat, alpha: int, beta: int, t: nat)
    requires AllBoards(n, TTTEval.SQUARES) && Ample(c.clock, TIME_BUFFER)
    ensures Search(n, c, depth, alpha, beta, t).eval == R.Minimax(n, RulesOf(c), depth)
    decreases n
  {
    assert !Short(c.clock, t, TIME_BUFFER);
    if !(|n.children| == 0 || depth == c.maxDepth) {
      if n.toMove != c.persp {
        MaxLoopIsBestMax(n.children, c, depth, 0, Evaluation(n, -INT_MAX), alpha, beta, t + 1);
      } else {
        MinLoopIsBestMin(n.children, c, depth, 0, Evaluation(n, INT_MAX), alpha, beta, t + 1);
      }
    }
  }

  /** The max loop visits every child when the deadline is ample. */
  lemma {:induction false} MaxLoopIsBestMax(cs: seq<Node>, c: Ctx, depth: nat, i: nat, best: Evaluation, alpha: int, beta: int, t: nat)
    requires i <= |cs| && forall j :: 0 <= j < |cs| ==> AllBoards(cs[j], TTTEval.SQUARES)
    requires Ample(c.clock, TIME_BUFFER)
    ensures MaxLoop(cs, c, depth, i, best, alpha, beta, t).eval == R.BestMax(cs, RulesOf(c), depth, i, best)
    decreases cs, |cs| - i
  {
    if i < |cs| {
      var r := Search(cs[i], c, depth + 1, alpha, beta, t);
      SearchIsMinimax(cs[i], c, depth + 1, alpha, beta, t);
      assert !Short(c.clock, r.polls, TIME_BUFFER);
      var best' := if r.eval.value > best.value then Evaluation(cs[i], r.eval.value) else best;
      var alpha' := if best'.value > alpha then best'.value else alpha;
      MaxLoopIsBestMax(cs, c, depth, i + 1, best', alpha', beta, if beta <= alpha' then r.polls + 1 else r.polls);
    }
  }

  /** The min loop visits every child when the deadline is ample. */
  lemma {:induction false} MinLoopIsBestMin(cs: seq<Node>, c: Ctx, depth: nat, i: nat, best: Evaluation, alpha: int, beta: int, t: nat)
    requires i <= |cs| && forall j :: 0 <= j < |cs| ==> AllBoards(cs[j], TTTEval.SQUARES)
    requires Ample(c.clock, TIME_BUFFER)
    ensures MinLoop(cs, c, depth, i, best, alpha, beta, t).eval == R.BestMin(cs, RulesOf(c), depth, i, best)
    decreases cs, |cs| - i
  {
    if i < |cs| {
      var r := Search(cs[i], c, depth + 1, alpha, beta, t);
      SearchIsMinimax(cs[i], c, depth + 1, alpha, beta, t);
      assert !Short(c.clock, r.polls, TIME_BUFFER);
      var best' := if r.eval.value < best.value then Evaluation(cs[i], r.eval.value) else best;
      var beta' := if r.eval.value < beta then r.eval.value else beta;
      MinLoopIsBestMin(cs, c, depth, i + 1, best', alpha, beta', if beta' <= alpha then r.polls + 1 else r.polls);
    }
  }

  /** Whatever the clock says, the search returns a value within the
      evaluator's range [-10, 10], and its state is `n` itself or one of
      the moves of `n`. */
  lemma {:induction false} SearchAnytime(n: Node, c: Ctx, depth: nat, alpha: int, beta: int, t: nat)
    requires AllBoards(n, TTTEval.SQUARES)
    ensures var e := Search(n, c, depth, alpha, beta, t).eval;
      -(TTTEval.LINES as int) <= e.value <= TTTEval.LINES && (e.state == n || e.state in n.children)
    decreases n
  {
    TTTEval.ScoreBounds(n, c.persp);
    if !(|n.children| == 0 || depth == c.maxDepth) && !Short(c.clock, t, TIME_BUFFER) {
      if n.toMove != c.persp {
        MaxLoopAnytime(n.children, c, depth, 0, Evaluation(n, -INT_MAX), alpha, beta, t + 1);
      } else {
        MinLoopAnytime(n.children, c, depth, 0, Evaluation(n, INT_MAX), alpha, beta, t + 1);
      }
    }
  }

  /** The max loop keeps `best` or moves to a child, never lowers the best
      value, and once a child is visited the value is within range. */
  lemma {:induction false} MaxLoopAnytime(cs: seq<Node>, c: Ctx, depth: nat, i: nat, best: Evaluation, alpha: int, beta: int, t: nat)
    requires i <= |cs| && forall j :: 0 <= j < |cs| ==> AllBoards(cs[j], TTTEval.SQUARES)
    requires best.value <= TTTEval.LINES
    ensures var e := MaxLoop(cs, c, depth, i, best, alpha, beta, t).eval;
      && best.value <= e.value <= TTTEval.LINES
      && (i < |cs| ==> -(TTTEval.LINES as int) <= e.value)
      && (e == best || e.state in cs)
    decreases cs, |cs| - i
  {
    if i < |cs| {
      var r := Search(cs[i], c, depth + 1, alpha, beta, t);
      SearchAnytime(cs[i], c, depth + 1, alpha, beta, t);
      var best' := if r.eval.value > best.value then Evaluation(cs[i], r.eval.value) else best;
      var alpha' := if best'.value > alpha then best'.value else alpha;
      var t' := if beta <= alpha' then r.polls + 1 else r.polls;
      MaxLoopAnytime(cs, c, depth, i + 1, best', alpha', beta, t');
      assert cs[i] in cs;
      assert MaxLoop(cs, c, depth, i, best, alpha, beta, t).eval in {best', MaxLoop(cs, c, depth, i + 1, best', alpha', beta, t').eval};
    }
  }

  /** The min loop keeps `best` or moves to a child, never raises the best
      value, and once a child is visited the value is within range. */
  lemma {:induction false} MinLoopAnytime(cs: seq<Node>, c: Ctx, depth: nat, i: nat, best: Evaluation, alpha: int, beta: int, t: nat)
    requires i <= |cs| && forall j :: 0 <= j < |cs| ==> AllBoards(cs[j], TTTEval.SQUARES)
    requires -(TTTEval.LINES as int) <= best.value
    ensures var e := MinLoop(cs, c, depth, i, best, alpha, beta, t).eval;
      && -(TTTEval.LINES as int) <= e.value <= best.value
      && (i < |cs| ==> e.value <= TTTEval.LINES)
      && (e == best || e.state in cs)
    decreases cs, |cs| - i
  {
    if i < |cs| {
      var r := Search(cs[i], c, depth + 1, alpha, beta, t);
      SearchAnytime(cs[i], c, depth + 1, alpha, beta, t);
      var best' := if r.eval.value < best.value then Evaluation(cs[i], r.eval.value) else best;
      var beta' := if r.eval.value < beta then r.eval.value else beta;
      var t' := if beta' <= alpha then r.polls + 1 else r.polls;
      MinLoopAnytime(cs, c, depth, i + 1, best', alpha, beta', t');
      assert cs[i] in cs;
      assert MinLoop(cs, c, depth, i, best, alpha, beta, t).eval in {best', MinLoop(cs, c, depth, i + 1, best', alpha, beta', t').eval};
    }
  }

  /** The recursive `minimax(pDue, current_state, our_player_type,
      max_depth, depth, alpha, beta)`: it returns the evaluation and the
      number of clock polls made so far. */
  method MinimaxAB(n: Node, c: Ctx, depth: nat, alpha0: int, beta0: int, t0: nat) returns (e: Evaluation, t: nat)
    requires AllBoards(n, TTTEval.SQUARES)
    ensures Run(e, t) == Search(n, c, depth, alpha0, beta0, t0)
    decreases n, 1
  {
    var moves := n.children;
    t := t0;
    var timeShort := false;
    if !(|moves| == 0 || depth == c.maxDepth) {
      timeShort := c.clock(t) < TIME_BUFFER;
      t := t + 1;
    }
    if |moves| == 0 || depth == c.maxDepth || timeShort {
      var v := TTTEval.EvaluateGameState(n, c.persp);
      return Evaluation(n, v), t;
    }
    if n.toMove != c.persp {
      e, t := MaxChildren(n, c, depth, alpha0, beta0, t);
    } else {
      e, t := MinChildren(n, c, depth, alpha0, beta0, t);
    }
  }

  /** The loop of `minimax` at a node whose side to move is not the
      perspective. Alpha is kept equal to the larger of its start value and
      the best value so far, so it never falls; the clock is polled only once
      `beta <= alpha`, and the loop leaves only when that poll reports short
      time. */
  method MaxChildren(n: Node, c: Ctx, depth: nat, alpha0: int, beta: int, t0: nat) returns (e: Evaluation, t: nat)
    requires AllBoards(n, TTTEval.SQUARES)
    ensures Run(e, t) == MaxLoop(n.children, c, depth, 0, Evaluation(n, -INT_MAX), alpha0, beta, t0)
    decreases n, 0
  {
    var moves := n.children;
    e, t := Evaluation(n, -INT_MAX), t0;
    var alpha := alpha0;
    var i := 0;
    while i < |moves|
      invariant 0 <= i <= |moves|
      invariant i == 0 ==> alpha == alpha0
      invariant i > 0 ==> alpha == Max(alpha0, e.value)
      invariant MaxLoop(moves, c, depth, i, e, alpha, beta, t) == MaxLoop(moves, c, depth, 0, Evaluation(n, -INT_MAX), alpha0, beta, t0)
    {
      var next, t1 := MinimaxAB(moves[i], c, depth + 1, alpha, beta, t);
      t := t1;
      if next.value > e.value {
        e := Evaluation(moves[i], next.value);
      }
      if e.value > alpha {
        alpha := e.value;
      }
      if beta <= alpha {
        var timeShort := c.clock(t) < TIME_BUFFER;
        t := t + 1;
        if timeShort {
          return;
        }
      }
      i := i + 1;
    }
  }

  /** The loop of `minimax` at a node where the perspective is to move. Beta
      falls to each smaller child value, so once a move is visited it equals
      the smaller of its start value and the best value so far (when it
      starts at or below INT_MAX); the clock is polled only once
      `beta <= alpha`. */
  method MinChildren(n: Node, c: Ctx, depth: nat, alpha: int, beta0: int, t0: nat) returns (e: Evaluation, t: nat)
    requires AllBoards(n, TTTEval.SQUARES)
    ensures Run(e, t) == MinLoop(n.children, c, depth, 0, Evaluation(n, INT_MAX), alpha, beta0, t0)
    decreases n, 0
  {
    var moves := n.children;
    e, t := Evaluation(n, INT_MAX), t0;
    var beta := beta0;
    var i := 0;
    while i < |moves|
      invariant 0 <= i <= |moves|
      invariant i == 0 ==> beta == beta0 && e.value == INT_MAX
      invariant i > 0 && beta0 <= INT_MAX ==> beta == Min(beta0, e.value)
      invariant MinLoop(moves, c, depth, i, e, alpha, beta, t) == MinLoop(moves, c, depth, 0, Evaluation(n, INT_MAX), alpha, beta0, t0)
    {
      var next, t1 := MinimaxAB(moves[i], c, depth + 1, alpha, beta, t);
      t := t1;
      if next.value < e.value {
        e := Evaluation(moves[i], next.value);
      }
      if next.value < beta {
        beta := next.value;
      }
      if beta <= alpha {
        var timeShort := c.clock(t) < TIME_BUFFER;
        t := t + 1;
        if timeShort {
          return;
        }
      }
      i := i + 1;
    }
  }

  /** The entry `minimax(pDue, current_state, our_player_type, max_depth)`:
      it ignores `ourPlayerType`, takes the side not to move as the
      perspective, searches from depth 0 with the window (-INT_MAX, INT_MAX)
      and returns the state only. Whatever the clock, the result is the
      root itself or one of its moves; with an ample deadline it is the
      reference choice: the first move of largest minimax value, or the
      root itself when the root is a leaf. */
  method BestNextState(clock: Clock, root: Node, ourPlayerType: Player, maxDepth: int) returns (s: Node)
    requires AllBoards(root, TTTEval.SQUARES)
    ensures s == Search(root, Ctx(root.toMove.Opponent(), maxDepth, clock), 0, -INT_MAX, INT_MAX, 0).eval.state
    ensures s == root || s in root.children
    ensures Ample(clock, TIME_BUFFER) ==> s == R.Minimax(root, RulesOf(Ctx(root.toMove.Opponent(), maxDepth, clock)), 0).state
    ensures Ample(clock, TIME_BUFFER) && |root.children| > 0 && maxDepth != 0 ==>
              R.FirstMax(root.children, RulesOf(Ctx(root.toMove.Opponent(), maxDepth, clock)), 0, 0, Evaluation(s, R.Minimax(root, RulesOf(Ctx(root.toMove.Opponent(), maxDepth, clock)), 0).value))
  {
    var c := Ctx(root.toMove.Opponent(), maxDepth, clock);
    var e, t := MinimaxAB(root, c, 0, -INT_MAX, INT_MAX, 0);
    s := e.state;
    SearchAnytime(root, c, 0, -INT_MAX, INT_MAX, 0);
    if Ample(clock, TIME_BUFFER) {
      SearchIsMinimax(root, c, 0, -INT_MAX, INT_MAX, 0);
      R.MinimaxCharacterized(root, RulesOf(c), 0);
    }
  }
}
