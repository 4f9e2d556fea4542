/** Plain depth-limited minimax without pruning and without a clock: the
    reference value the searches of both engines are compared with. It walks
    the children in order and keeps the first child whose value beats the
    best so far, starting from -INT_MAX (max nodes) or INT_MAX (min nodes),
    as the engines do. */
module Reference {
  import opened Game
  import TTTEval
  import TTT3DEval

  /** Which engine's evaluator scores the leaves. */
  datatype Variant = Square | Cube

  /** Which leaf rule cuts the search: `depth == max_depth` (the 4x4 engine
      and the unpruned 3D search) or `depth >= max_depth` only for nodes
      with more than seven moves (the 3D alpha-beta search). */
  datatype Horizon = Exact | Extended

  /** Everything that stays fixed during one search. */
  datatype Rules = Rules(variant: Variant, horizon: Horizon, persp: Player, maxDepth: int)

  /** The number of squares of the variant's board. */
  function Size(v: Variant): nat
  {
    if v == Square then TTTEval.SQUARES else TTT3DEval.SQUARES
  }

  /** The largest score magnitude of the variant's evaluator. */
  function Bound(v: Variant): int
  {
    if v == Square then TTTEval.LINES else TTT3DEval.WIN
  }

  /** The variant's static evaluation of `n` from `persp`. */
  function Score(v: Variant, n: Node, persp: Player): int
    requires |n.board| == Size(v)
  {
    if v == Square then TTTEval.Score(n, persp) else TTT3DEval.Score(n, persp)
  }

  /** Both evaluators stay within their bound, which is far from +-INT_MAX. */
  lemma ScoreBounded(v: Variant, n: Node, persp: Player)
    requires |n.board| == Size(v)
    ensures -Bound(v) <= Score(v, n, persp) <= Bound(v) < INT_MAX
  {
    if v == Square {
      TTTEval.ScoreBounds(n, persp);
    } else {
      TTT3DEval.ScoreRange(n, persp);
    }
  }

  /** `n` is scored statically rather than expanded. */
  predicate IsLeaf(n: Node, r: Rules, depth: nat)
  {
    || |n.children| == 0
    || (r.horizon == Exact && depth == r.maxDepth)
    || (r.horizon == Extended && depth >= r.maxDepth && |n.children| > 7)
  }

  /** All children have boards of the variant's size. */
  predicate ChildBoards(cs: seq<Node>, v: Variant)
  {
    forall j :: 0 <= j < |cs| ==> AllBoards(cs[j], Size(v))
  }

  /** The minimax evaluation of `n` at `depth`: its static score at a leaf,
      else the best child for the side that is to move (the perspective's
      opponent maximizes, as the engines do with `getNextPlayer() !=
      our_player_type`). */
  function Minimax(n: Node, r: Rules, depth: nat): Evaluation
    requires AllBoards(n, Size(r.variant))
    decreases n
  {
    if IsLeaf(n, r, depth) then Evaluation(n, Score(r.variant, n, r.persp))
    else if n.toMove != r.persp then BestMax(n.children, r, depth, 0, Evaluation(n, -INT_MAX))
    else BestMin(n.children, r, depth, 0, Evaluation(n, INT_MAX))
  }

  /** The children cs[i..] tried after `best` at a max node. */
  function BestMax(cs: seq<Node>, r: Rules, depth: nat, i: nat, best: Evaluation): Evaluation
    requires i <= |cs| && ChildBoards(cs, r.variant)
    decreases cs, |cs| - i
  {
    if i == |cs| then best
    else
      var e := Minimax(cs[i], r, depth + 1);
      BestMax(cs, r, depth, i + 1, if e.value > best.value then Evaluation(cs[i], e.value) else best)
  }

  /** The children cs[i..] tried after `best` at a min node. */
  function BestMin(cs: seq<Node>, r: Rules, depth: nat, i: nat, best: Evaluation): Evaluation
    requires i <= |cs| && ChildBoards(cs, r.variant)
    decreases cs, |cs| - i
  {
    if i == |cs| then best
    else
      var e := Minimax(cs[i], r, depth + 1);
      BestMin(cs, r, depth, i + 1, if e.value < best.value then Evaluation(cs[i], e.value) else best)
  }

  /** The minimax value of child j. */
  function ChildValue(cs: seq<Node>, r: Rules, depth: nat, j: nat): int
    requires j < |cs| && ChildBoards(cs, r.variant)
  {
    Minimax(cs[j], r, depth + 1).value
  }

  /** `e` is the first of the children cs[i..] with the largest value. */
  ghost predicate FirstMax(cs: seq<Node>, r: Rules, depth: nat, i: nat, e: Evaluation)
    requires ChildBoards(cs, r.variant)
  {
    && (forall j :: i <= j < |cs| ==> ChildValue(cs, r, depth, j) <= e.value)
    && exists k :: i <= k < |cs| && e == Evaluation(cs[k], ChildValue(cs, r, depth, k))
                   && forall j :: i <= j < k ==> ChildValue(cs, r, depth, j) < e.value
  }

  /** `e` is the first of the children cs[i..] with the smallest value. */
  ghost predicate FirstMin(cs: seq<Node>, r: Rules, depth: nat, i: nat, e: Evaluation)
    requires ChildBoards(cs, r.variant)
  {
    && (forall j :: i <= j < |cs| ==> e.value <= ChildValue(cs, r, depth, j))
    && exists k :: i <= k < |cs| && e == Evaluation(cs[k], ChildValue(cs, r, depth, k))
                   && forall j :: i <= j < k ==> e.value < ChildValue(cs, r, depth, j)
  }

  /** BestMax either keeps `best`, which no later child beats, or moves to
      the first later child with the largest value, which beats `best`. */
  lemma {:induction false} BestMaxFacts(cs: seq<Node>, r: Rules, depth: nat, i: nat, best: Evaluation)
    requires i <= |cs| && ChildBoards(cs, r.variant)
    ensures var res := BestMax(cs, r, depth, i, best);
      || (res == best && forall j :: i <= j < |cs| ==> ChildValue(cs, r, depth, j) <= best.value)
      || (best.value < res.value && FirstMax(cs, r, depth, i, res))
    decreases |cs| - i
  {
    if i < |cs| {
      var e := Minimax(cs[i], r, depth + 1);
      var next := if e.value > best.value then Evaluation(cs[i], e.value) else best;
      BestMaxFacts(cs, r, depth, i + 1, next);
      var res := BestMax(cs, r, depth, i, best);
      assert res == BestMax(cs, r, depth, i + 1, next);
      if res != best && !(res == next && next == best) {
        if res == next {
          assert FirstMax(cs, r, depth, i, res) by {
            assert res == Evaluation(cs[i], ChildValue(cs, r, depth, i));
          }
        } else {
          var k :| i + 1 <= k < |cs| && res == Evaluation(cs[k], ChildValue(cs, r, depth, k))
                   && forall j :: i + 1 <= j < k ==> ChildValue(cs, r, depth, j) < res.value;
          assert forall j :: i <= j < k ==> ChildValue(cs, r, depth, j) < res.value;
        }
      }
    }
  }

  /** BestMin either keeps `best`, which no later child undercuts, or moves
      to the first later child with the smallest value, below `best`. */
  lemma {:induction false} BestMinFacts(cs: seq<Node>, r: Rules, depth: nat, i: nat, best: Evaluation)
    requires i <= |cs| && ChildBoards(cs, r.variant)
    ensures var res := BestMin(cs, r, depth, i, best);
      || (res == best && forall j :: i <= j < |cs| ==> best.value <= ChildValue(cs, r, depth, j))
      || (res.value < best.value && FirstMin(cs, r, depth, i, res))
    decreases |cs| - i
  {
    if i < |cs| {
      var e := Minimax(cs[i], r, depth + 1);
      var next := if e.value < best.value then Evaluation(cs[i], e.value) else best;
      BestMinFacts(cs, r, depth, i + 1, next);
      var res := BestMin(cs, r, depth, i, best);
      assert res == BestMin(cs, r, depth, i + 1, next);
      if res != best && !(res == next && next == best) {
        if res == next {
          assert FirstMin(cs, r, depth, i, res) by {
            assert res == Evaluation(cs[i], ChildValue(cs, r, depth, i));
          }
        } else {
          var k :| i + 1 <= k < |cs| && res == Evaluation(cs[k], ChildValue(cs, r, depth, k))
                   && forall j :: i + 1 <= j < k ==> res.value < ChildValue(cs, r, depth, j);
          assert forall j :: i <= j < k ==> res.value < ChildValue(cs, r, depth, j);
        }
      }
    }
  }

  /** Every minimax value is a score of some leaf, so it lies within the
      evaluator's bound; the state is `n` itself at a leaf and a child of `n`
      otherwise. */
  lemma {:induction false} MinimaxBounded(n: Node, r: Rules, depth: nat)
    requires AllBoards(n, Size(r.variant))
    ensures var e := Minimax(n, r, depth);
      && -Bound(r.variant) <= e.value <= Bound(r.variant)
      && (if IsLeaf(n, r, depth) then e.state == n else e.state in n.children)
    decreases n
  {
    var v := r.variant;
    if IsLeaf(n, r, depth) {
      ScoreBounded(v, n, r.persp);
    } else {
      var cs := n.children;
      forall j | 0 <= j < |cs|
        ensures -Bound(v) <= ChildValue(cs, r, depth, j) <= Bound(v)
      {
        MinimaxBounded(cs[j], r, depth + 1);
      }
      assert -Bound(v) <= ChildValue(cs, r, depth, 0) <= Bound(v) < INT_MAX;
      if n.toMove != r.persp {
        BestMaxFacts(cs, r, depth, 0, Evaluation(n, -INT_MAX));
      } else {
        BestMinFacts(cs, r, depth, 0, Evaluation(n, INT_MAX));
      }
    }
  }

  /** The reference in the terms of the engines' comments: a leaf is scored
      statically; at a max node the result is the first child with the
      largest value, at a min node the first child with the smallest. */
  lemma MinimaxCharacterized(n: Node, r: Rules, depth: nat)
    requires AllBoards(n, Size(r.variant))
    ensures IsLeaf(n, r, depth) ==> Minimax(n, r, depth) == Evaluation(n, Score(r.variant, n, r.persp))
    ensures !IsLeaf(n, r, depth) && n.toMove != r.persp ==> FirstMax(n.children, r, depth, 0, Minimax(n, r, depth))
    ensures !IsLeaf(n, r, depth) && n.toMove == r.persp ==> FirstMin(n.children, r, depth, 0, Minimax(n, r, depth))
  {
    if !IsLeaf(n, r, depth) {
      var cs := n.children;
      MinimaxBounded(cs[0], r, depth + 1);
      ScoreBounded(r.variant, n, r.persp);
      if n.toMove != r.persp {
        BestMaxFacts(cs, r, depth, 0, Evaluation(n, -INT_MAX));
      } else {
        BestMinFacts(cs, r, depth, 0, Evaluation(n, INT_MAX));
      }
    }
  }
}
