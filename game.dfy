/** Shared vocabulary of both tic-tac-toe engines: the abstract game tree that
    the position model (GameState, findPossibleMoves, isXWin, ...) provides,
    the (state, value) pair the searches return, and the wall clock, which is
    replaced by an oracle answering one poll at a time. */
module Game {

  /** The largest C++ `int`; the searches start from the window
      (-INT_MAX, INT_MAX) and use +-INT_MAX as initial "best" values. */
  const INT_MAX: int := 2147483647

  /** Seconds a search must keep in hand before the deadline
      (`MiniMax::TIME_BUFFER`, the same in both engines). */
  const TIME_BUFFER: real := 0.1

  /** The larger margin of the unpruned search behind the 3D move ordering
      (`MiniMax::PRELIM_TIME_BUFFER`). */
  const PRELIM_TIME_BUFFER: real := 1.2

  /** Content of one board square: CELL_EMPTY, CELL_X or CELL_O. */
  datatype Cell = Empty | X | O

  /** A side, as returned by `getNextPlayer` and passed as `our_player_type`. */
  datatype Player = PX | PO {
    /** `p ^ (CELL_X | CELL_O)`: the other side. */
    function Opponent(): (q: Player)
      ensures q != this
    {
      if this == PX then PO else PX
    }

    /** The mark this side puts on the board. */
    function Mark(): (c: Cell)
      ensures c != Empty
    {
      if this == PX then X else O
    }
  }

  /** The terminal-outcome queries of a position (`isEOG`, `isXWin`,
      `isOWin`, `isDraw`); they are supplied by the position model and are
      taken here as given flags. */
  datatype Status = Status(eog: bool, xWin: bool, oWin: bool, draw: bool)

  /** A position together with its successors in generation order: the part
      of the game tree below it, which is finite, so structural recursion on
      `children` terminates. */
  datatype Node = Node(toMove: Player, board: seq<Cell>, status: Status, children: seq<Node>)

  /** `GameStateEvaluation`: a state together with a value. */
  datatype Evaluation = Evaluation(state: Node, value: int)

  /** A search result together with the number of clock polls made so far. */
  datatype Run = Run(eval: Evaluation, polls: nat)

  /** The wall clock: the remaining time, in seconds, seen at the k-th poll
      of `pDue - Deadline::now()`. */
  type Clock = nat -> real

  /** Everything fixed for one search: the perspective (`our_player_type`),
      the depth limit and the clock. */
  datatype Ctx = Ctx(persp: Player, maxDepth: int, clock: Clock)

  /** The k-th poll reports that less than `buffer` seconds remain. */
  predicate Short(clock: Clock, k: nat, buffer: real)
  {
    clock(k) < buffer
  }

  /** The deadline is far enough that no poll ever reports short time. */
  ghost predicate Ample(clock: Clock, buffer: real)
  {
    forall k: nat :: clock(k) >= buffer
  }

  /** Every board in the tree below `n` has `size` squares. */
  predicate AllBoards(n: Node, size: nat)
  {
    |n.board| == size && forall i :: 0 <= i < |n.children| ==> AllBoards(n.children[i], size)
  }

  /** The larger of two values. */
  function Max(a: int, b: int): int
  {
    if a < b then b else a
  }

  /** The smaller of two values. */
  function Min(a: int, b: int): int
  {
    if a < b then a else b
  }

  /** `v` clipped to the window [lo, hi]: what an alpha-beta search with the
      window (lo, hi) is able to tell about a value. */
  function Clamp(v: int, lo: int, hi: int): int
  {
    Max(lo, Min(v, hi))
  }
}
