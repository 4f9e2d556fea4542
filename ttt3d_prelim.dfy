/** The move ordering of the 4x4x4 engine: the unpruned search
    `MiniMax::minimax` (with its own, larger time margin) and `prelim_sort`,
    which scores every move with it and rebuilds the move list best first.
    `GameStateEvaluation::operator<` is "value greater than", so sorting by
    it puts larger values first. */
module TTT3DPrelim {
  import opened Game
  import R = Reference
  import TTT3DEval

  /** The reference rules the unpruned search follows. */
  function RulesOf(c: Ctx): R.Rules
  {
    R.Rules(R.Cube, R.Exact, c.persp, c.maxDepth)
  }

  /** `{current_state, evaluate_gamestate_3d(current_state, our_player_type)}`. */
  function Leaf(n: Node, persp: Player): Evaluation
    requires |n.board| == TTT3DEval.SQUARES
  {
    Evaluation(n, TTT3DEval.Score(n, persp))
  }

  /** All nodes of the list have 64-cell boards all the way down. */
  predicate CubeBoards(cs: seq<Node>)
  {
    forall j :: 0 <= j < |cs| ==> AllBoards(cs[j], TTT3DEval.SQUARES)
  }

  /** What `minimax(pDue, n, persp, max_depth, depth)` returns after `t`
      polls: a leaf when there are no moves, at `depth == max_depth` or when
      less than PRELIM_TIME_BUFFER remains; otherwise the loop over the
      moves. */
  function Prelim(n: Node, c: Ctx, depth: nat, t: nat): Run
    requires AllBoards(n, TTT3DEval.SQUARES)
    decreases n
  {
    if |n.children| == 0 || depth == c.maxDepth then Run(Leaf(n, c.persp), t)
    else if Short(c.clock, t, PRELIM_TIME_BUFFER) then Run(Leaf(n, c.persp), t + 1)
    else if n.toMove != c.persp then PrelimMax(n.children, c, depth, 0, Evaluation(n, -INT_MAX), t + 1)
    else PrelimMin(n.children, c, depth, 0, Evaluation(n, INT_MAX), t + 1)
  }

  /** The max loop from child i on: a strictly larger child replaces `best`;
      the clock is polled after every child and the loop stops on short time. */
  function PrelimMax(cs: seq<Node>, c: Ctx, depth: nat, i: nat, best: Evaluation, t: nat): Run
    requires i <= |cs| && CubeBoards(cs)
    decreases cs, |cs| - i
  {
    if i == |cs| then Run(best, t)
    else
      var r := Prelim(cs[i], c, depth + 1, t);
      var best' := if r.eval.value > best.value then Evaluation(cs[i], r.eval.value) else best;
      if Short(c.clock, r.polls, PRELIM_TIME_BUFFER) then Run(best', r.polls + 1)
      else PrelimMax(cs, c, depth, i + 1, best', r.polls + 1)
  }

  /** The min loop from child i on: a strictly smaller child replaces `best`. */
  function PrelimMin(cs: seq<Node>, c: Ctx, depth: nat, i: nat, best: Evaluation, t: nat): Run
    requires i <= |cs| && CubeBoards(cs)
    decreases cs, |cs| - i
  {
    if i == |cs| then Run(best, t)
    else
      var r := Prelim(cs[i], c, depth + 1, t);
      var best' := if r.eval.value < best.value then Evaluation(cs[i], r.eval.value) else best;
      if Short(c.clock, r.polls, PRELIM_TIME_BUFFER) then Run(best', r.polls + 1)
      else PrelimMin(cs, c, depth, i + 1, best', r.polls + 1)
  }

  /** With an ample deadline the unpruned search is the reference minimax
      with the leaf rule `depth == max_depth`. */
  lemma {:induction false} PrelimIsMinimax(n: Node, c: Ctx, depth: nat, t: nat)
    requires AllBoards(n, TTT3DEval.SQUARES) && Ample(c.clock, PRELIM_TIME_BUFFER)
    ensures Prelim(n, c, depth, t).eval == R.Minimax(n, RulesOf(c), depth)
    decreases n
  {
    assert !Short(c.clock, t, PRELIM_TIME_BUFFER);
    if !(|n.children| == 0 || depth == c.maxDepth) {
      if n.toMove != c.persp {
        PrelimMaxIsBestMax(n.children, c, depth, 0, Evaluation(n, -INT_MAX), t + 1);
      } else {
        PrelimMinIsBestMin(n.children, c, depth, 0, Evaluation(n, INT_MAX), t + 1);
      }
    }
  }

  /** The max loop visits every child when the deadline is ample. */
  lemma {:induction false} PrelimMaxIsBestMax(cs: seq<Node>, c: Ctx, depth: nat, i: nat, best: Evaluation, t: nat)
    requires i <= |cs| && CubeBoards(cs) && Ample(c.clock, PRELIM_TIME_BUFFER)
    ensures PrelimMax(cs, c, depth, i, best, t).eval == R.BestMax(cs, RulesOf(c), depth, i, best)
    decreases cs, |cs| - i
  {
    if i < |cs| {
      var r := Prelim(cs[i], c, depth + 1, t);
      PrelimIsMinimax(cs[i], c, depth + 1, t);
      assert !Short(c.clock, r.polls, PRELIM_TIME_BUFFER);
      var best' := if r.eval.value > best.value then Evaluation(cs[i], r.eval.value) else best;
      PrelimMaxIsBestMax(cs, c, depth, i + 1, best', r.polls + 1);
    }
  }

  /** The min loop visits every child when the deadline is ample. */
  lemma {:induction false} PrelimMinIsBestMin(cs: seq<Node>, c: Ctx, depth: nat, i: nat, best: Evaluation, t: nat)
    requires i <= |cs| && CubeBoards(cs) && Ample(c.clock, PRELIM_TIME_BUFFER)
    ensures PrelimMin(cs, c, depth, i, best, t).eval == R.BestMin(cs, RulesOf(c), depth, i, best)
    decreases cs, |cs| - i
  {
    if i < |cs| {
      var r := Prelim(cs[i], c, depth + 1, t);
      PrelimIsMinimax(cs[i], c, depth + 1, t);
      assert !Short(c.clock, r.polls, PRELIM_TIME_BUFFER);
      var best' := if r.eval.value < best.value then Evaluation(cs[i], r.eval.value) else best;
      PrelimMinIsBestMin(cs, c, depth, i + 1, best', r.polls + 1);
    }
  }

  /** The evaluations of moves[..k] in order, and the polls made for them,
      starting after `t` polls. */
  datatype Scored = Scored(evals: seq<Evaluation>, polls: nat)

  /** The first loop of `prelim_sort`: `evals[move] = minimax(pDue,
      moves[move], our_player_type, prelim_sort_depth, 0)` for every move
      below k. */
  function PrelimEvals(moves: seq<Node>, c: Ctx, k: nat, t: nat): (s: Scored)
    requires k <= |moves| && CubeBoards(moves)
    ensures |s.evals| == k
  {
    if k == 0 then Scored([], t)
    else
      var p := PrelimEvals(moves, c, k - 1, t);
      var r := Prelim(moves[k - 1], c, 0, p.polls);
      Scored(p.evals + [r.eval], r.polls)
  }

  /** With `prelim_sort_depth == 0`, as the 3D search calls it, every move
      is scored by its static evaluation and the clock is never polled. */
  lemma {:induction false} PrelimEvalsAtDepthZero(moves: seq<Node>, c: Ctx, k: nat, t: nat)
    requires k <= |moves| && CubeBoards(moves) && c.maxDepth == 0
    ensures PrelimEvals(moves, c, k, t).polls == t
    ensures forall j :: 0 <= j < k ==> PrelimEvals(moves, c, k, t).evals[j] == Leaf(moves[j], c.persp)
  {
    if k > 0 {
      PrelimEvalsAtDepthZero(moves, c, k - 1, t);
    }
  }

  /** `sorted` with `x` placed after every element whose value is not
      smaller than x's, as one step of insertion sort does. */
  function Insert(sorted: seq<Evaluation>, x: Evaluation): (s: seq<Evaluation>)
    ensures |s| == |sorted| + 1
  {
    if |sorted| == 0 then [x]
    else if sorted[|sorted| - 1].value < x.value then Insert(sorted[..|sorted| - 1], x) + [sorted[|sorted| - 1]]
    else sorted + [x]
  }

  /** The evaluations sorted by `operator<`, larger values first. Equal
      values keep their order here; `std::sort` does not promise that. */
  function SortDesc(s: seq<Evaluation>): (r: seq<Evaluation>)
    ensures |r| == |s|
  {
    if |s| == 0 then [] else Insert(SortDesc(s[..|s| - 1]), s[|s| - 1])
  }

  /** No evaluation is followed by a larger one. */
  ghost predicate NonIncreasing(s: seq<Evaluation>)
  {
    forall i, j :: 0 <= i < j < |s| ==> s[i].value >= s[j].value
  }

  /** The states of a list of evaluations, in order. */
  function States(s: seq<Evaluation>): (r: seq<Node>)
    ensures |r| == |s| && forall i :: 0 <= i < |s| ==> r[i] == s[i].state
  {
    seq(|s|, i requires 0 <= i < |s| => s[i].state)
  }

  /** Insert places x at some position k: everything before it is not
      smaller than x, everything after it is smaller. */
  lemma {:induction false} InsertShape(sorted: seq<Evaluation>, x: Evaluation) returns (k: nat)
    ensures k <= |sorted| && Insert(sorted, x) == sorted[..k] + [x] + sorted[k..]
    ensures forall j :: k <= j < |sorted| ==> sorted[j].value < x.value
    ensures 0 < k ==> sorted[k - 1].value >= x.value
    decreases |sorted|
  {
    if |sorted| == 0 {
      k := 0;
    } else {
      var n := |sorted|;
      var init := sorted[..n - 1];
      if sorted[n - 1].value < x.value {
        k := InsertShape(init, x);
        assert sorted[..k] == init[..k];
        assert sorted[k..] == init[k..] + [sorted[n - 1]];
      } else {
        k := n;
      }
    }
  }

  /** Appending one evaluation adds its state to the states. */
  lemma StatesSnoc(init: seq<Evaluation>, last: Evaluation)
    ensures multiset(States(init + [last])) == multiset(States(init)) + multiset{last.state}
  {
    StatesAppend(init, [last]);
    assert States([last]) == [last.state];
  }

  /** The states of a concatenation are the concatenated states. */
  lemma StatesAppend(a: seq<Evaluation>, b: seq<Evaluation>)
    ensures States(a + b) == States(a) + States(b)
  {
  }

  /** Inserting into a non-increasing list keeps it non-increasing. */
  lemma InsertSorted(sorted: seq<Evaluation>, x: Evaluation)
    requires NonIncreasing(sorted)
    ensures NonIncreasing(Insert(sorted, x))
  {
    var k := InsertShape(sorted, x);
    var r := Insert(sorted, x);
    forall i, j | 0 <= i < j < |r| ensures r[i].value >= r[j].value {
      if i < k && k <= j {
        assert sorted[i].value >= sorted[k - 1].value;
      }
    }
  }

  /** Inserting adds exactly x, to the evaluations and to their states. */
  lemma InsertPermutes(sorted: seq<Evaluation>, x: Evaluation)
    ensures multiset(Insert(sorted, x)) == multiset(sorted) + multiset{x}
    ensures multiset(States(Insert(sorted, x))) == multiset(States(sorted)) + multiset{x.state}
  {
    var k := InsertShape(sorted, x);
    assert sorted == sorted[..k] + sorted[k..];
    SplicePermutes(sorted[..k], sorted[k..], x);
  }

  /** Splicing x between two lists adds exactly x. */
  lemma SplicePermutes(lo: seq<Evaluation>, hi: seq<Evaluation>, x: Evaluation)
    ensures multiset(lo + [x] + hi) == multiset(lo + hi) + multiset{x}
    ensures multiset(States(lo + [x] + hi)) == multiset(States(lo + hi)) + multiset{x.state}
  {
    StatesAppend(lo, hi);
    StatesAppend(lo + [x], hi);
    StatesAppend(lo, [x]);
  }

  /** The sort yields a non-increasing list. */
  lemma {:induction false} SortDescSorted(s: seq<Evaluation>)
    ensures NonIncreasing(SortDesc(s))
    decreases |s|
  {
    if |s| > 0 {
      SortDescSorted(s[..|s| - 1]);
      InsertSorted(SortDesc(s[..|s| - 1]), s[|s| - 1]);
    }
  }

  /** The sort is a permutation of its input. */
  lemma {:induction false} SortDescPermutes(s: seq<Evaluation>)
    ensures multiset(SortDesc(s)) == multiset(s)
    decreases |s|
  {
    if |s| > 0 {
      var init, last := s[..|s| - 1], s[|s| - 1];
      SortDescPermutes(init);
      InsertPermutes(SortDesc(init), last);
      assert s == init + [last];
    }
  }

  /** The states in the sorted order are a permutation of the input's
      states. */
  lemma {:induction false} SortDescPermutesStates(s: seq<Evaluation>)
    ensures multiset(States(SortDesc(s))) == multiset(States(s))
    decreases |s|
  {
    if |s| > 0 {
      var init, last := s[..|s| - 1], s[|s| - 1];
      SortDescPermutesStates(init);
      InsertPermutes(SortDesc(init), last);
      StatesSnoc(init, last);
      calc {
        multiset(States(SortDesc(s)));
        multiset(States(Insert(SortDesc(init), last)));
        multiset(States(SortDesc(init))) + multiset{last.state};
        multiset(States(init)) + multiset{last.state};
        { assert s == init + [last]; }
        multiset(States(s));
      }
    }
  }

  /** The new move list of `prelim_sort` and the polls made so far. */
  datatype Ordered = Ordered(moves: seq<Node>, polls: nat)

  /** What `prelim_sort(pDue, persp, prelim_sort_depth, moves)` leaves in
      `moves`: their states in the order of their sorted evaluations. */
  function PrelimSortSpec(moves: seq<Node>, c: Ctx, t: nat): Ordered
    requires CubeBoards(moves)
  {
    var p := PrelimEvals(moves, c, |moves|, t);
    Ordered(States(SortDesc(p.evals)), p.polls)
  }

  /** Every evaluation is the static score of its state. */
  ghost predicate StaticLeaves(evals: seq<Evaluation>, persp: Player)
  {
    forall j :: 0 <= j < |evals| ==>
      AllBoards(evals[j].state, TTT3DEval.SQUARES) && evals[j] == Leaf(evals[j].state, persp)
  }

  /** A permutation of static leaves holds static leaves only. */
  lemma PermutedLeaves(s: seq<Evaluation>, s': seq<Evaluation>, persp: Player)
    requires multiset(s) == multiset(s') && StaticLeaves(s', persp)
    ensures StaticLeaves(s, persp)
  {
    forall k | 0 <= k < |s|
      ensures AllBoards(s[k].state, TTT3DEval.SQUARES) && s[k] == Leaf(s[k].state, persp)
    {
      assert s[k] in multiset(s');
      var j :| 0 <= j < |s'| && s'[j] == s[k];
    }
  }

  /** The states of non-increasing static leaves come in non-increasing
      order of static score. */
  lemma LeavesByScore(s: seq<Evaluation>, persp: Player)
    requires StaticLeaves(s, persp) && NonIncreasing(s)
    ensures CubeBoards(States(s))
    ensures forall i, j :: 0 <= i < j < |s| ==>
      TTT3DEval.Score(States(s)[i], persp) >= TTT3DEval.Score(States(s)[j], persp)
  {
  }

  /** `prelim_sort` with depth 0 rebuilds `moves` as a permutation of itself
      ordered by non-increasing static score, without polling the clock. */
  lemma PrelimSortOrders(moves: seq<Node>, c: Ctx, t: nat)
    requires CubeBoards(moves) && c.maxDepth == 0
    ensures var o := PrelimSortSpec(moves, c, t);
      && o.polls == t
      && multiset(o.moves) == multiset(moves)
      && CubeBoards(o.moves)
      && forall i, j :: 0 <= i < j < |o.moves| ==>
           TTT3DEval.Score(o.moves[i], c.persp) >= TTT3DEval.Score(o.moves[j], c.persp)
  {
    var p := PrelimEvals(moves, c, |moves|, t);
    PrelimEvalsAtDepthZero(moves, c, |moves|, t);
    var sorted := SortDesc(p.evals);
    SortDescSorted(p.evals);
    SortDescPermutes(p.evals);
    SortDescPermutesStates(p.evals);
    assert States(p.evals) == moves;
    assert StaticLeaves(p.evals, c.persp);
    PermutedLeaves(sorted, p.evals, c.persp);
    LeavesByScore(sorted, c.persp);
  }

  /** The unpruned `minimax(pDue, current_state, our_player_type, max_depth,
      depth)`; the depth limit is `c.maxDepth`. */
  method PrelimMinimax(n: Node, c: Ctx, depth: nat, t0: nat) returns (e: Evaluation, t: nat)
    requires AllBoards(n, TTT3DEval.SQUARES)
    ensures Run(e, t) == Prelim(n, c, depth, t0)
    decreases n
  {
    var moves := n.children;
    t := t0;
    var timeShort := false;
    if !(|moves| == 0 || depth == c.maxDepth) {
      timeShort := c.clock(t) < PRELIM_TIME_BUFFER;
      t := t + 1;
    }
    if |moves| == 0 || depth == c.maxDepth || timeShort {
      var v := TTT3DEval.EvaluateGameState3D(n, c.persp);
      return Evaluation(n, v), t;
    }
    if n.toMove != c.persp {
      e := Evaluation(n, -INT_MAX);
      var i := 0;
      while i < |moves|
        invariant 0 <= i <= |moves|
        invariant PrelimMax(moves, c, depth, i, e, t) == Prelim(n, c, depth, t0)
      {
        var next, t1 := PrelimMinimax(moves[i], c, depth + 1, t);
        if next.value > e.value {
          e := Evaluation(moves[i], next.value);
        }
        timeShort := c.clock(t1) < PRELIM_TIME_BUFFER;
        t := t1 + 1;
        if timeShort {
          return;
        }
        i := i + 1;
      }
    } else {
      e := Evaluation(n, INT_MAX);
      var i := 0;
      while i < |moves|
        invariant 0 <= i <= |moves|
        invariant PrelimMin(moves, c, depth, i, e, t) == Prelim(n, c, depth, t0)
      {
        var next, t1 := PrelimMinimax(moves[i], c, depth + 1, t);
        if next.value < e.value {
          e := Evaluation(moves[i], next.value);
        }
        timeShort := c.clock(t1) < PRELIM_TIME_BUFFER;
        t := t1 + 1;
        if timeShort {
          return;
        }
        i := i + 1;
      }
    }
  }

  /** Insert places x at j when the elements from j on have smaller values
      and the one before j does not. */
  lemma {:induction false} InsertAtGap(sorted: seq<Evaluation>, j: nat, x: Evaluation)
    requires j <= |sorted| && (j == 0 || sorted[j - 1].value >= x.value)
    requires forall k :: j <= k < |sorted| ==> sorted[k].value < x.value
    ensures Insert(sorted, x) == sorted[..j] + [x] + sorted[j..]
    decreases |sorted|
  {
    if j < |sorted| {
      var n := |sorted|;
      InsertAtGap(sorted[..n - 1], j, x);
      assert sorted[..n - 1][..j] == sorted[..j];
      assert sorted[j..] == sorted[..n - 1][j..] + [sorted[n - 1]];
    }
  }

  /** One step of the insertion sort: a[i] moves down past the elements of
      the sorted prefix a[..i] with smaller values; a[i + 1..] is untouched. */
  method InsertAt(a: array<Evaluation>, i: nat)
    requires i < a.Length
    modifies a
    ensures a[..i + 1] == Insert(old(a[..i]), old(a[i]))
    ensures a[i + 1..] == old(a[i + 1..])
  {
    ghost var sorted := a[..i];
    var x := a[i];
    var j := i;
    while j > 0 && a[j - 1].value < x.value
      invariant 0 <= j <= i
      invariant forall k :: 0 <= k < j ==> a[k] == sorted[k]
      invariant forall k :: j < k <= i ==> a[k] == sorted[k - 1]
      invariant forall k :: i < k < a.Length ==> a[k] == old(a[k])
      invariant forall k :: j <= k < i ==> sorted[k].value < x.value
    {
      a[j] := a[j - 1];
      j := j - 1;
    }
    a[j] := x;
    InsertAtGap(sorted, j, x);
    Spliced(a[..], sorted, i, j, x);
    assert a[i + 1..] == old(a[i + 1..]);
  }

  /** The array contents InsertAt leaves: the sorted prefix with x spliced
      in at j. */
  lemma Spliced(s: seq<Evaluation>, sorted: seq<Evaluation>, i: nat, j: nat, x: Evaluation)
    requires j <= i < |s| && |sorted| == i && s[j] == x
    requires forall k :: 0 <= k < j ==> s[k] == sorted[k]
    requires forall k :: j < k <= i ==> s[k] == sorted[k - 1]
    ensures s[..i + 1] == sorted[..j] + [x] + sorted[j..i]
  {
  }

  /** `std::sort(evals.begin(), evals.end())` with `operator<`, as an
      insertion sort in place. */
  method SortEvals(a: array<Evaluation>)
    modifies a
    ensures a[..] == SortDesc(old(a[..]))
  {
    ghost var input := a[..];
    var i := 0;
    while i < a.Length
      invariant 0 <= i <= a.Length
      invariant a[..i] == SortDesc(input[..i])
      invariant a[i..] == input[i..]
    {
      assert input[..i + 1][..i] == input[..i];
      InsertAt(a, i);
      i := i + 1;
    }
    assert input[..a.Length] == input;
  }

  /** `prelim_sort`: score every move, sort the scores, then `moves.clear()`
      and `push_back` every state in sorted order. */
  method PrelimSort(c: Ctx, moves: seq<Node>, t0: nat) returns (sorted: seq<Node>, t: nat)
    requires CubeBoards(moves)
    ensures Ordered(sorted, t) == PrelimSortSpec(moves, c, t0)
  {
    var evals := new Evaluation[|moves|];
    t := t0;
    var move := 0;
    while move < |moves|
      invariant 0 <= move <= |moves|
      invariant evals[..move] == PrelimEvals(moves, c, move, t0).evals
      invariant t == PrelimEvals(moves, c, move, t0).polls
    {
      var e, t1 := PrelimMinimax(moves[move], c, 0, t);
      evals[move] := e;
      t := t1;
      move := move + 1;
    }
    assert evals[..] == evals[..|moves|];
    SortEvals(evals);
    sorted := [];
    var k := 0;
    while k < evals.Length
      invariant 0 <= k <= evals.Length
      invariant sorted == States(evals[..k])
    {
      sorted := sorted + [evals[k].state];
      k := k + 1;
    }
    assert evals[..k] == evals[..];
  }
}
