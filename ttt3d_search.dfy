/** The alpha-beta search of the 4x4x4 engine (`TICTACTOE3D::MiniMax::
    minimax_alpha_beta` and `get_best_next_state`). At the root the moves
    are first ordered by `prelim_sort` at depth 0; below the root a node is
    scored statically when it has no moves or when it is at or past the
    depth limit with more than seven moves, so narrow nodes are searched
    past the limit. The loops stop as soon as the window closes or time runs
    short. `Search`, `MaxLoop` and `MinLoop` state what the recursion
    computes, poll by poll; the methods are proved to compute exactly that. */
module TTT3DSearch {
  import opened Game
  import R = Reference
  import P = TTT3DPrelim
  import TTT3DEval

  /** The reference rules this search is compared with. */
  function RulesOf(c: Ctx): R.Rules
  {
    R.Rules(R.Cube, R.Extended, c.persp, c.maxDepth)
  }

  /** The context of `prelim_sort(pDue, our_player_type, 0, l_next_states)`. */
  function PrelimCtx(c: Ctx): Ctx
  {
    Ctx(c.persp, 0, c.clock)
  }

  /** The moves `minimax_alpha_beta` loops over: sorted by `prelim_sort` at
      the root when there is more than one, as generated otherwise. */
  function Moves(n: Node, c: Ctx, depth: nat, t: nat): P.Ordered
    requires AllBoards(n, TTT3DEval.SQUARES)
  {
    if depth == 0 && |n.children| > 1 then P.PrelimSortSpec(n.children, PrelimCtx(c), t)
    else P.Ordered(n.children, t)
  }

  /** The move list is a permutation of the generated moves, the ordering
      polls no clock, and below the root it is the generated list itself. */
  lemma MovesFacts(n: Node, c: Ctx, depth: nat, t: nat)
    requires AllBoards(n, TTT3DEval.SQUARES)
    ensures var o := Moves(n, c, depth, t);
      && o.polls == t
      && multiset(o.moves) == multiset(n.children)
      && |o.moves| == |n.children|
      && (forall m :: m in o.moves ==> m in n.children)
      && (depth != 0 ==> o.moves == n.children)
  {
    var o := Moves(n, c, depth, t);
    if depth == 0 && |n.children| > 1 {
      P.PrelimSortOrders(n.children, PrelimCtx(c), t);
    }
    assert |multiset(o.moves)| == |multiset(n.children)|;
    forall m | m in o.moves ensures m in n.children {
      assert m in multiset(o.moves);
    }
  }

  /** The leaf rule of the search, before the clock is polled. */
  predicate Horizon(moves: seq<Node>, c: Ctx, depth: nat)
  {
    |moves| == 0 || (depth >= c.maxDepth && |moves| > 7)
  }

  /** What `minimax_alpha_beta(pDue, n, persp, max_depth, depth, alpha,
      beta)` returns when the first `t` polls have been made. At a leaf
      (by the horizon or by short time) the root returns its first move with
      value 0, every other node its static evaluation. */
  function Search(n: Node, c: Ctx, depth: nat, alpha: int, beta: int, t: nat): Run
    requires AllBoards(n, TTT3DEval.SQUARES)
    requires depth == 0 ==> |n.children| > 0
    decreases n, 1
  {
    MovesFacts(n, c, depth, t);
    var o := Moves(n, c, depth, t);
    var moves := o.moves;
    if Horizon(moves, c, depth) || Short(c.clock, o.polls, TIME_BUFFER) then
      var polls := if Horizon(moves, c, depth) then o.polls else o.polls + 1;
      if depth == 0 then Run(Evaluation(moves[0], 0), polls) else Run(P.Leaf(n, c.persp), polls)
    else if n.toMove != c.persp then MaxLoop(n, moves, c, depth, 0, Evaluation(n, -INT_MAX), alpha, beta, o.polls + 1)
    else MinLoop(n, moves, c, depth, 0, Evaluation(n, INT_MAX), alpha, beta, o.polls + 1)
  }

  /** The max loop over moves[i..]: a strictly larger child replaces
      `best`, alpha rises to the best value, and the loop stops once
      `alpha >= beta` or, failing that, when the poll reports short time. */
  function MaxLoop(n: Node, moves: seq<Node>, c: Ctx, depth: nat, i: nat, best: Evaluation, alpha: int, beta: int, t: nat): Run
    requires AllBoards(n, TTT3DEval.SQUARES) && i <= |moves|
    requires forall m :: m in moves ==> m in n.children
    decreases n, 0, |moves| - i
  {
    if i == |moves| then Run(best, t)
    else
      assert moves[i] in moves;
      var r := Search(moves[i], c, depth + 1, alpha, beta, t);
      var best' := if r.eval.value > best.value then Evaluation(moves[i], r.eval.value) else best;
      var alpha' := if best'.value > alpha then best'.value else alpha;
      if alpha' >= beta then Run(best', r.polls)
      else if Short(c.clock, r.polls, TIME_BUFFER) then Run(best', r.polls + 1)
      else MaxLoop(n, moves, c, depth, i + 1, best', alpha', beta, r.polls + 1)
  }

  /** The min loop over moves[i..]: a strictly smaller child replaces
      `best`, beta falls to each smaller child value, and the loop stops
      once `beta <= alpha` or, failing that, on short time. */
  function MinLoop(n: Node, moves: seq<Node>, c: Ctx, depth: nat, i: nat, best: Evaluation, alpha: int, beta: int, t: nat): Run
    requires AllBoards(n, TTT3DEval.SQUARES) && i <= |moves|
    requires forall m :: m in moves ==> m in n.children
    decreases n, 0, |moves| - i
  {
    if i == |moves| then Run(best, t)
    else
      assert moves[i] in moves;
      var r := Search(moves[i], c, depth + 1, alpha, beta, t);
      var best' := if r.eval.value < best.value then Evaluation(moves[i], r.eval.value) else best;
      var beta' := if r.eval.value < beta then r.eval.value else beta;
      if beta' <= alpha then Run(best', r.polls)
      else if Short(c.clock, r.polls, TIME_BUFFER) then Run(best', r.polls + 1)
      else MinLoop(n, moves, c, depth, i + 1, best', alpha, beta', r.polls + 1)
  }

  /** The value is within the evaluator's range. */
  predicate InRange(v: int)
  {
    -TTT3DEval.WIN <= v <= TTT3DEval.WIN
  }

  /** Whatever the clock says: below the root the value lies in
      [-WIN, WIN] and the state is `n` or one of its moves; the root always
      returns one of its moves. */
  lemma {:induction false} SearchAnytime(n: Node, c: Ctx, depth: nat, alpha: int, beta: int, t: nat)
    requires AllBoards(n, TTT3DEval.SQUARES)
    requires depth == 0 ==> |n.children| > 0
    ensures var e := Search(n, c, depth, alpha, beta, t).eval;
      && (depth > 0 ==> InRange(e.value) && (e.state == n || e.state in n.children))
      && (depth == 0 ==> e.state in n.children)
    decreases n, 1
  {
    MovesFacts(n, c, depth, t);
    var o := Moves(n, c, depth, t);
    TTT3DEval.ScoreRange(n, c.persp);
    if Horizon(o.moves, c, depth) || Short(c.clock, o.polls, TIME_BUFFER) {
      if depth == 0 {
        assert o.moves[0] in o.moves;
      }
    } else if n.toMove != c.persp {
      MaxLoopAnytime(n, o.moves, c, depth, 0, Evaluation(n, -INT_MAX), alpha, beta, o.polls + 1);
    } else {
      MinLoopAnytime(n, o.moves, c, depth, 0, Evaluation(n, INT_MAX), alpha, beta, o.polls + 1);
    }
  }

  /** The max loop, started on a nonempty list, returns one of the moves
      with a value in range. */
  lemma {:induction false} MaxLoopAnytime(n: Node, moves: seq<Node>, c: Ctx, depth: nat, i: nat, best: Evaluation, alpha: int, beta: int, t: nat)
    requires AllBoards(n, TTT3DEval.SQUARES) && i <= |moves|
    requires forall m :: m in moves ==> m in n.children
    requires (i < |moves| && best.value == -INT_MAX) || (InRange(best.value) && best.state in moves)
    ensures var e := MaxLoop(n, moves, c, depth, i, best, alpha, beta, t).eval;
      InRange(e.value) && e.state in moves
    decreases n, 0, |moves| - i
  {
    if i < |moves| {
      assert moves[i] in moves;
      var r := Search(moves[i], c, depth + 1, alpha, beta, t);
      SearchAnytime(moves[i], c, depth + 1, alpha, beta, t);
      var best' := if r.eval.value > best.value then Evaluation(moves[i], r.eval.value) else best;
      var alpha' := if best'.value > alpha then best'.value else alpha;
      if alpha' < beta && !Short(c.clock, r.polls, TIME_BUFFER) {
        MaxLoopAnytime(n, moves, c, depth, i + 1, best', alpha', beta, r.polls + 1);
      }
    }
  }

  /** The min loop, started on a nonempty list, returns one of the moves
      with a value in range. */
  lemma {:induction false} MinLoopAnytime(n: Node, moves: seq<Node>, c: Ctx, depth: nat, i: nat, best: Evaluation, alpha: int, beta: int, t: nat)
    requires AllBoards(n, TTT3DEval.SQUARES) && i <= |moves|
    requires forall m :: m in moves ==> m in n.children
    requires (i < |moves| && best.value == INT_MAX) || (InRange(best.value) && best.state in moves)
    ensures var e := MinLoop(n, moves, c, depth, i, best, alpha, beta, t).eval;
      InRange(e.value) && e.state in moves
    decreases n, 0, |moves| - i
  {
    if i < |moves| {
      assert moves[i] in moves;
      var r := Search(moves[i], c, depth + 1, alpha, beta, t);
      SearchAnytime(moves[i], c, depth + 1, alpha, beta, t);
      var best' := if r.eval.value < best.value then Evaluation(moves[i], r.eval.value) else best;
      var beta' := if r.eval.value < beta then r.eval.value else beta;
      if alpha < beta' && !Short(c.clock, r.polls, TIME_BUFFER) {
        MinLoopAnytime(n, moves, c, depth, i + 1, best', alpha, beta', r.polls + 1);
      }
    }
  }

  /** One step of a max loop keeps the clamped values equal: with
      `a == max(lo, x) < hi`, clamped x and y agreeing in [lo, hi] and
      clamped v and m agreeing in [a, hi], the larger of x and v agrees
      with the larger of y and m. */
  lemma ClampMaxStep(lo: int, hi: int, a: int, x: int, y: int, v: int, m: int)
    requires a == Max(lo, x) < hi
    requires Clamp(x, lo, hi) == Clamp(y, lo, hi)
    requires Clamp(v, a, hi) == Clamp(m, a, hi)
    ensures Clamp(Max(x, v), lo, hi) == Clamp(Max(y, m), lo, hi)
  {
  }

  /** One step of a min loop keeps the clamped values equal. */
  lemma ClampMinStep(lo: int, hi: int, b: int, x: int, y: int, v: int, m: int)
    requires lo < b == Min(hi, x)
    requires Clamp(x, lo, hi) == Clamp(y, lo, hi)
    requires Clamp(v, lo, b) == Clamp(m, lo, b)
    ensures Clamp(Min(x, v), lo, hi) == Clamp(Min(y, m), lo, hi)
  {
  }

  /** Reference loops only improve on their starting value. */
  lemma BestMonotone(cs: seq<Node>, r: R.Rules, depth: nat, i: nat, best: Evaluation)
    requires i <= |cs| && R.ChildBoards(cs, r.variant)
    ensures R.BestMax(cs, r, depth, i, best).value >= best.value
    ensures R.BestMin(cs, r, depth, i, best).value <= best.value
  {
    R.BestMaxFacts(cs, r, depth, i, best);
    R.BestMinFacts(cs, r, depth, i, best);
  }

  /** Soundness of the pruning below the root: with an ample deadline and a
      window -INT_MAX <= alpha < beta <= INT_MAX, the search value and the
      reference minimax value (same leaf rule, no pruning) agree once
      clamped to the window; so a value strictly inside the window is exact,
      and a value at or beyond a bound is on the same side of it as the
      true value. */
  lemma {:induction false} SearchSound(n: Node, c: Ctx, depth: nat, alpha: int, beta: int, t: nat)
    requires AllBoards(n, TTT3DEval.SQUARES) && depth > 0 && Ample(c.clock, TIME_BUFFER)
    requires -INT_MAX <= alpha < beta <= INT_MAX
    ensures Clamp(Search(n, c, depth, alpha, beta, t).eval.value, alpha, beta)
         == Clamp(R.Minimax(n, RulesOf(c), depth).value, alpha, beta)
    decreases n, 1
  {
    MovesFacts(n, c, depth, t);
    assert !Short(c.clock, t, TIME_BUFFER);
    if !Horizon(n.children, c, depth) {
      if n.toMove != c.persp {
        MaxLoopSound(n, c, depth, 0, Evaluation(n, -INT_MAX), Evaluation(n, -INT_MAX), alpha, alpha, beta, t + 1);
      } else {
        MinLoopSound(n, c, depth, 0, Evaluation(n, INT_MAX), Evaluation(n, INT_MAX), alpha, beta, beta, t + 1);
      }
    }
  }

  /** The max loop below the root against the reference loop `BestMax`:
      `a` is the running alpha, `max(alpha, best.value)`, still below beta. */
  lemma {:induction false} MaxLoopSound(n: Node, c: Ctx, depth: nat, i: nat, best: Evaluation, mbest: Evaluation,
                                       alpha: int, a: int, beta: int, t: nat)
    requires AllBoards(n, TTT3DEval.SQUARES) && depth > 0 && i <= |n.children| && Ample(c.clock, TIME_BUFFER)
    requires -INT_MAX <= alpha < beta <= INT_MAX && a == Max(alpha, best.value) < beta
    requires Clamp(best.value, alpha, beta) == Clamp(mbest.value, alpha, beta)
    ensures Clamp(MaxLoop(n, n.children, c, depth, i, best, a, beta, t).eval.value, alpha, beta)
         == Clamp(R.BestMax(n.children, RulesOf(c), depth, i, mbest).value, alpha, beta)
    decreases n, 0, |n.children| - i
  {
    var cs := n.children;
    if i < |cs| {
      var r := Search(cs[i], c, depth + 1, a, beta, t);
      var m := R.Minimax(cs[i], RulesOf(c), depth + 1);
      SearchSound(cs[i], c, depth + 1, a, beta, t);
      var best' := if r.eval.value > best.value then Evaluation(cs[i], r.eval.value) else best;
      var mbest' := if m.value > mbest.value then Evaluation(cs[i], m.value) else mbest;
      ClampMaxStep(alpha, beta, a, best.value, mbest.value, r.eval.value, m.value);
      assert best'.value == Max(best.value, r.eval.value) && mbest'.value == Max(mbest.value, m.value);
      var a' := if best'.value > a then best'.value else a;
      assert R.BestMax(cs, RulesOf(c), depth, i, mbest) == R.BestMax(cs, RulesOf(c), depth, i + 1, mbest');
      if a' >= beta {
        BestMonotone(cs, RulesOf(c), depth, i + 1, mbest');
      } else {
        assert !Short(c.clock, r.polls, TIME_BUFFER);
        MaxLoopSound(n, c, depth, i + 1, best', mbest', alpha, a', beta, r.polls + 1);
      }
    }
  }

  /** The min loop below the root against the reference loop `BestMin`:
      `b` is the running beta, `min(beta, best.value)`, still above alpha. */
  lemma {:induction false} MinLoopSound(n: Node, c: Ctx, depth: nat, i: nat, best: Evaluation, mbest: Evaluation,
                                       alpha: int, beta: int, b: int, t: nat)
    requires AllBoards(n, TTT3DEval.SQUARES) && depth > 0 && i <= |n.children| && Ample(c.clock, TIME_BUFFER)
    requires -INT_MAX <= alpha < beta <= INT_MAX && alpha < b == Min(beta, best.value)
    requires Clamp(best.value, alpha, beta) == Clamp(mbest.value, alpha, beta)
    ensures Clamp(MinLoop(n, n.children, c, depth, i, best, alpha, b, t).eval.value, alpha, beta)
         == Clamp(R.BestMin(n.children, RulesOf(c), depth, i, mbest).value, alpha, beta)
    decreases n, 0, |n.children| - i
  {
    var cs := n.children;
    if i < |cs| {
      var r := Search(cs[i], c, depth + 1, alpha, b, t);
      var m := R.Minimax(cs[i], RulesOf(c), depth + 1);
      SearchSound(cs[i], c, depth + 1, alpha, b, t);
      var best' := if r.eval.value < best.value then Evaluation(cs[i], r.eval.value) else best;
      var mbest' := if m.value < mbest.value then Evaluation(cs[i], m.value) else mbest;
      ClampMinStep(alpha, beta, b, best.value, mbest.value, r.eval.value, m.value);
      assert best'.value == Min(best.value, r.eval.value) && mbest'.value == Min(mbest.value, m.value);
      var b' := if r.eval.value < b then r.eval.value else b;
      assert R.BestMin(cs, RulesOf(c), depth, i, mbest) == R.BestMin(cs, RulesOf(c), depth, i + 1, mbest');
      if b' <= alpha {
        BestMonotone(cs, RulesOf(c), depth, i + 1, mbest');
      } else {
        assert !Short(c.clock, r.polls, TIME_BUFFER);
        MinLoopSound(n, c, depth, i + 1, best', mbest', alpha, beta, b', r.polls + 1);
      }
    }
  }

  /** The root loop with the window (best.value, INT_MAX): every child is
      visited and each is taken exactly when its minimax value beats the best
      so far, so the loop computes the reference `BestMax` over the ordered
      moves. */
  lemma {:induction false} RootLoopExact(n: Node, moves: seq<Node>, c: Ctx, i: nat, best: Evaluation, t: nat)
    requires AllBoards(n, TTT3DEval.SQUARES) && i <= |moves| && Ample(c.clock, TIME_BUFFER)
    requires forall m :: m in moves ==> m in n.children
    requires -INT_MAX <= best.value <= TTT3DEval.WIN
    ensures R.ChildBoards(moves, R.Cube)
    ensures MaxLoop(n, moves, c, 0, i, best, best.value, INT_MAX, t).eval
         == R.BestMax(moves, RulesOf(c), 0, i, best)
    decreases |moves| - i
  {
    forall j | 0 <= j < |moves| ensures AllBoards(moves[j], TTT3DEval.SQUARES) {
      assert moves[j] in moves;
    }
    if i < |moves| {
      assert moves[i] in moves;
      var r := Search(moves[i], c, 1, best.value, INT_MAX, t);
      var m := R.Minimax(moves[i], RulesOf(c), 1);
      SearchSound(moves[i], c, 1, best.value, INT_MAX, t);
      SearchAnytime(moves[i], c, 1, best.value, INT_MAX, t);
      R.MinimaxBounded(moves[i], RulesOf(c), 1);
      assert r.eval.value == m.value || (r.eval.value <= best.value && m.value <= best.value);
      var best' := if r.eval.value > best.value then Evaluation(moves[i], r.eval.value) else best;
      assert !Short(c.clock, r.polls, TIME_BUFFER);
      RootLoopExact(n, moves, c, i + 1, best', r.polls + 1);
    }
  }

  /** With an ample deadline, a root that is not cut by the horizon returns
      the first of its ordered moves whose minimax value is largest, with
      that value. */
  lemma RootExact(n: Node, c: Ctx, t: nat)
    requires AllBoards(n, TTT3DEval.SQUARES) && |n.children| > 0 && Ample(c.clock, TIME_BUFFER)
    requires n.toMove != c.persp && !Horizon(n.children, c, 0)
    ensures var moves := Moves(n, c, 0, t).moves;
      && R.ChildBoards(moves, R.Cube)
      && Search(n, c, 0, -INT_MAX, INT_MAX, t).eval == R.BestMax(moves, RulesOf(c), 0, 0, Evaluation(n, -INT_MAX))
      && R.FirstMax(moves, RulesOf(c), 0, 0, Search(n, c, 0, -INT_MAX, INT_MAX, t).eval)
  {
    MovesFacts(n, c, 0, t);
    var moves := Moves(n, c, 0, t).moves;
    assert !Short(c.clock, t, TIME_BUFFER);
    RootLoopExact(n, moves, c, 0, Evaluation(n, -INT_MAX), t + 1);
    assert moves[0] in moves;
    R.MinimaxBounded(moves[0], RulesOf(c), 1);
    R.BestMaxFacts(moves, RulesOf(c), 0, 0, Evaluation(n, -INT_MAX));
  }

  /** With an ample deadline, a root not cut by the horizon gets the value
      of plain minimax under the same leaf rule: the move ordering and the
      pruning change which of several equally good moves is returned, never
      the value; the move returned has that minimax value itself. */
  lemma RootValueIsMinimax(n: Node, c: Ctx, t: nat)
    requires AllBoards(n, TTT3DEval.SQUARES) && |n.children| > 0 && Ample(c.clock, TIME_BUFFER)
    requires n.toMove != c.persp && !Horizon(n.children, c, 0)
    ensures var e := Search(n, c, 0, -INT_MAX, INT_MAX, t).eval;
      && e.value == R.Minimax(n, RulesOf(c), 0).value
      && e.state in n.children && AllBoards(e.state, TTT3DEval.SQUARES)
      && R.Minimax(e.state, RulesOf(c), 1).value == e.value
  {
    RootExact(n, c, t);
    MovesFacts(n, c, 0, t);
    R.MinimaxCharacterized(n, RulesOf(c), 0);
    var r := RulesOf(c);
    var moves := Moves(n, c, 0, t).moves;
    var e := Search(n, c, 0, -INT_MAX, INT_MAX, t).eval;
    var m := R.Minimax(n, r, 0);
    var k :| 0 <= k < |moves| && e == Evaluation(moves[k], R.ChildValue(moves, r, 0, k))
             && forall j :: 0 <= j < k ==> R.ChildValue(moves, r, 0, j) < e.value;
    assert moves[k] in moves;
    var j :| 0 <= j < |n.children| && n.children[j] == moves[k];
    assert R.ChildValue(n.children, r, 0, j) <= m.value;
    var k' :| 0 <= k' < |n.children| && m == Evaluation(n.children[k'], R.ChildValue(n.children, r, 0, k'))
              && forall i :: 0 <= i < k' ==> R.ChildValue(n.children, r, 0, i) < m.value;
    assert n.children[k'] in multiset(moves);
    var j' :| 0 <= j' < |moves| && moves[j'] == n.children[k'];
    assert R.ChildValue(moves, r, 0, j') <= e.value;
  }

  /** A root cut at once, by the horizon (depth limit 0 or less and more
      than seven moves) or by a first poll that reports short time, returns
      the first ordered move with value 0, and that move has the highest
      static score of all moves. */
  lemma RootCut(n: Node, c: Ctx, t: nat)
    requires AllBoards(n, TTT3DEval.SQUARES) && |n.children| > 0
    requires Horizon(n.children, c, 0) || Short(c.clock, t, TIME_BUFFER)
    ensures var e := Search(n, c, 0, -INT_MAX, INT_MAX, t).eval;
      && e.value == 0 && e.state in n.children && AllBoards(e.state, TTT3DEval.SQUARES)
      && forall j :: 0 <= j < |n.children| ==>
           (AllBoards(n.children[j], TTT3DEval.SQUARES) &&
            TTT3DEval.Score(e.state, c.persp) >= TTT3DEval.Score(n.children[j], c.persp))
  {
    MovesFacts(n, c, 0, t);
    var moves := Moves(n, c, 0, t).moves;
    if |n.children| > 1 {
      P.PrelimSortOrders(n.children, PrelimCtx(c), t);
    }
    assert moves[0] in moves;
    forall j | 0 <= j < |n.children| ensures TTT3DEval.Score(moves[0], c.persp) >= TTT3DEval.Score(n.children[j], c.persp) {
      var m := n.children[j];
      assert m in multiset(moves);
      var k :| 0 <= k < |moves| && moves[k] == m;
    }
  }

  /** `minimax_alpha_beta(pDue, current_state, our_player_type, max_depth,
      depth, alpha, beta)`: it returns the evaluation and the number of clock
      polls made so far. */
  method MinimaxAlphaBeta(n: Node, c: Ctx, depth: nat, alpha0: int, beta0: int, t0: nat) returns (e: Evaluation, t: nat)
    requires AllBoards(n, TTT3DEval.SQUARES)
    requires depth == 0 ==> |n.children| > 0
    ensures Run(e, t) == Search(n, c, depth, alpha0, beta0, t0)
    decreases n, 1
  {
    var moves := n.children;
    t := t0;
    if depth == 0 && |moves| > 1 {
      moves, t := P.PrelimSort(PrelimCtx(c), moves, t);
    }
    MovesFacts(n, c, depth, t0);
    var timeShort := false;
    if !(|moves| == 0 || (depth >= c.maxDepth && |moves| > 7)) {
      timeShort := c.clock(t) < TIME_BUFFER;
      t := t + 1;
    }
    if |moves| == 0 || (depth >= c.maxDepth && |moves| > 7) || timeShort {
      if depth == 0 {
        return Evaluation(moves[0], 0), t;
      }
      var v := TTT3DEval.EvaluateGameState3D(n, c.persp);
      return Evaluation(n, v), t;
    }
    if n.toMove != c.persp {
      e, t := MaxChildren(n, moves, c, depth, alpha0, beta0, t);
    } else {
      e, t := MinChildren(n, moves, c, depth, alpha0, beta0, t);
    }
  }

  /** The loop of `minimax_alpha_beta` at a node whose side to move is not
      the perspective. Alpha is kept equal to the larger of its start value
      and the best value so far, so it never falls; the loop leaves as soon
      as `alpha >= beta` or the clock runs short. */
  method MaxChildren(n: Node, moves: seq<Node>, c: Ctx, depth: nat, alpha0: int, beta: int, t0: nat) returns (e: Evaluation, t: nat)
    requires AllBoards(n, TTT3DEval.SQUARES)
    requires forall m :: m in moves ==> m in n.children
    ensures Run(e, t) == MaxLoop(n, moves, c, depth, 0, Evaluation(n, -INT_MAX), alpha0, beta, t0)
    decreases n, 0
  {
    e, t := Evaluation(n, -INT_MAX), t0;
    var alpha := alpha0;
    var i := 0;
    while i < |moves|
      invariant 0 <= i <= |moves|
      invariant i == 0 ==> alpha == alpha0
      invariant i > 0 ==> alpha == Max(alpha0, e.value)
      invariant MaxLoop(n, moves, c, depth, i, e, alpha, beta, t) == MaxLoop(n, moves, c, depth, 0, Evaluation(n, -INT_MAX), alpha0, beta, t0)
    {
      assert moves[i] in moves;
      var next, t1 := MinimaxAlphaBeta(moves[i], c, depth + 1, alpha, beta, t);
      t := t1;
      if next.value > e.value {
        e := Evaluation(moves[i], next.value);
      }
      if e.value > alpha {
        alpha := e.value;
      }
      if alpha >= beta {
        return;
      }
      var timeShort := c.clock(t) < TIME_BUFFER;
      t := t + 1;
      if timeShort {
        return;
      }
      i := i + 1;
    }
  }

  /** The loop of `minimax_alpha_beta` at a node where the perspective is to
      move. Beta falls to each smaller child value, so once a move is visited
      it equals the smaller of its start value and the best value so far
      (when it starts at or below INT_MAX); the loop leaves as soon as
      `beta <= alpha` or the clock runs short. */
  method MinChildren(n: Node, moves: seq<Node>, c: Ctx, depth: nat, alpha: int, beta0: int, t0: nat) returns (e: Evaluation, t: nat)
    requires AllBoards(n, TTT3DEval.SQUARES)
    requires forall m :: m in moves ==> m in n.children
    ensures Run(e, t) == MinLoop(n, moves, c, depth, 0, Evaluation(n, INT_MAX), alpha, beta0, t0)
    decreases n, 0
  {
    e, t := Evaluation(n, INT_MAX), t0;
    var beta := beta0;
    var i := 0;
    while i < |moves|
      invariant 0 <= i <= |moves|
      invariant i == 0 ==> beta == beta0 && e.value == INT_MAX
      invariant i > 0 && beta0 <= INT_MAX ==> beta == Min(beta0, e.value)
      invariant MinLoop(n, moves, c, depth, i, e, alpha, beta, t) == MinLoop(n, moves, c, depth, 0, Evaluation(n, INT_MAX), alpha, beta0, t0)
    {
      assert moves[i] in moves;
      var next, t1 := MinimaxAlphaBeta(moves[i], c, depth + 1, alpha, beta, t);
      t := t1;
      if next.value < e.value {
        e := Evaluation(moves[i], next.value);
      }
      if next.value < beta {
        beta := next.value;
      }
      if beta <= alpha {
        return;
      }
      var timeShort := c.clock(t) < TIME_BUFFER;
      t := t + 1;
      if timeShort {
        return;
      }
      i := i + 1;
    }
  }

  /** `get_best_next_state(pDue, current_state, our_player_type,
      max_depth)`: it ignores `ourPlayerType`, takes the side not to move as
      the perspective (so the root is a max node), searches from depth 0
      with the window (-INT_MAX, INT_MAX) and returns the state only. The
      caller guarantees at least one move. Whatever the clock, the result is
      one of the moves; with an ample deadline and a root not cut by the
      horizon it is the first ordered move of largest minimax value, and
      its minimax value is that of the root. */
  method GetBestNextState(clock: Clock, root: Node, ourPlayerType: Player, maxDepth: int) returns (s: Node)
    requires AllBoards(root, TTT3DEval.SQUARES) && |root.children| > 0
    ensures s == Search(root, Ctx(root.toMove.Opponent(), maxDepth, clock), 0, -INT_MAX, INT_MAX, 0).eval.state
    ensures s in root.children
    ensures Ample(clock, TIME_BUFFER) && !(0 >= maxDepth && |root.children| > 7) ==>
              && R.ChildBoards(Moves(root, Ctx(root.toMove.Opponent(), maxDepth, clock), 0, 0).moves, R.Cube)
              && s == R.BestMax(Moves(root, Ctx(root.toMove.Opponent(), maxDepth, clock), 0, 0).moves,
                                RulesOf(Ctx(root.toMove.Opponent(), maxDepth, clock)), 0, 0, Evaluation(root, -INT_MAX)).state
    ensures Ample(clock, TIME_BUFFER) && !(0 >= maxDepth && |root.children| > 7) ==>
              && AllBoards(s, TTT3DEval.SQUARES)
              && R.Minimax(s, RulesOf(Ctx(root.toMove.Opponent(), maxDepth, clock)), 1).value
                 == R.Minimax(root, RulesOf(Ctx(root.toMove.Opponent(), maxDepth, clock)), 0).value
  {
    var c := Ctx(root.toMove.Opponent(), maxDepth, clock);
    var e, t := MinimaxAlphaBeta(root, c, 0, -INT_MAX, INT_MAX, 0);
    s := e.state;
    SearchAnytime(root, c, 0, -INT_MAX, INT_MAX, 0);
    if Ample(clock, TIME_BUFFER) && !Horizon(root.children, c, 0) {
      RootExact(root, c, 0);
      RootValueIsMinimax(root, c, 0);
    }
  }
}
