/** minMove / maxMove: depth-limited alpha-beta search, as functions of the
    search state.

    The shared depth counter of the player becomes an explicit parameter
    (the counter is reset to the node's depth before every sibling, so each
    child is entered at depth + 1).  The clock is the sequence of values
    that successive calls of System.currentTimeMillis return; the state
    records how many readings have been taken.  The order in which the
    priority queue hands out moves is an oracle `reorder`. */
module Search {
  import opened Scores
  import opened Boards
  import opened Moves
  import opened MoveGen
  import opened Evaluator

  /** The exceptions the search can raise. */
  datatype Fault =
    | NoMoves       // moves.get(0) on an empty move list
    | MissingEntry  // boardMap.get(child) is null and is unboxed into new Move(move, double)
    | NoQueue       // moveQueue.clear() while moveQueue was never assigned

  datatype Outcome<T> = Done(value: T) | Crash(fault: Fault)

  datatype Side = MinSide | MaxSide

  /** What the search reads but never changes: the AI's identities, the
      board's winner(), the clock, the deadline and the queue's order. */
  datatype Ctx = Ctx(
    player: int,
    enemy: int,
    winner: Board -> int,
    clock: nat -> int,
    deadline: int,
    reorder: seq<Move> -> seq<Move>)

  /** The AI's mutable fields: boardMap, the number of clock readings taken,
      testQui, and whether moveQueue has ever been assigned. */
  datatype St = St(table: map<Grid, Score>, polls: nat, qui: bool, queued: bool)

  datatype Res = Res(out: Outcome<Score>, st: St)

  /** The queue hands out exactly the moves `ms` it was given. */
  ghost predicate Permutes(reorder: seq<Move> -> seq<Move>, ms: seq<Move>)
  {
    multiset(reorder(ms)) == multiset(ms)
  }

  /** A PriorityQueue hands out exactly the moves it was given. */
  ghost predicate ReorderOk(c: Ctx)
  {
    forall ms: seq<Move> :: Permutes(c.reorder, ms)
  }

  /** None of the clock readings numbered `from` to `to - 1` is past the
      deadline: a search that takes exactly those readings never sees the
      deadline pass. */
  ghost predicate NoDeadline(c: Ctx, from: nat, to: nat)
  {
    forall n: nat :: from <= n < to ==> c.clock(n) <= c.deadline
  }

  /** The readings of a part of a search are among the readings of the whole. */
  lemma NoDeadlineWithin(c: Ctx, from: nat, to: nat, from': nat, to': nat)
    requires NoDeadline(c, from, to) && from <= from' && to' <= to
    ensures NoDeadline(c, from', to')
  {
  }

  /** The side that moves at a node: minMove places enemy pieces, maxMove
      the AI's own. */
  function Mover(c: Ctx, side: Side): int
  {
    if side == MinSide then c.enemy else c.player
  }

  function Flip(side: Side): Side
  {
    if side == MinSide then MaxSide else MinSide
  }

  /** The initial bestScore of a node. */
  function Worst(side: Side): Score
  {
    if side == MinSide then PosInf else NegInf
  }

  /** `v` replaces `best`: strictly lower for min, strictly higher for max. */
  predicate Improves(side: Side, v: Score, best: Score)
  {
    if side == MinSide then Lt(v, best) else Lt(best, v)
  }

  /** The board after `mover` plays `m`. */
  function Child(b: Board, m: Move, mover: int): Board
    requires WellFormed(b) && OnBoard(b, m.col, m.row)
  {
    PlacePiece(b, m.Pos(), mover)
  }

  /** The queue contents: each move rescored with its child's table value,
      or None when some child has no table entry (a NullPointerException). */
  function CachedMoves(table: map<Grid, Score>, b: Board, ms: seq<Move>, mover: int): (r: Option<seq<Move>>)
    requires WellFormed(b) && AllOnBoard(b, ms)
    ensures r.Some? <==> forall k :: 0 <= k < |ms| ==> Child(b, ms[k], mover).pieces in table
    ensures r.Some? ==>
      && |r.value| == |ms|
      && forall k :: 0 <= k < |ms| ==>
           && r.value[k].Pos() == ms[k].Pos()
           && Child(b, ms[k], mover).pieces in table
           && r.value[k].score == table[Child(b, ms[k], mover).pieces]
  {
    if |ms| == 0 then Some([])
    else
      var init := ms[..|ms| - 1];
      var last := ms[|ms| - 1];
      assert AllOnBoard(b, init);
      var child := Child(b, last, mover);
      match CachedMoves(table, b, init, mover)
      case None => None
      case Some(q) =>
        if child.pieces in table then Some(q + [FromPoint(last.Pos(), table[child.pieces])])
        else None
  }

  lemma ReorderOnBoard(c: Ctx, b: Board, q: seq<Move>)
    requires ReorderOk(c) && AllOnBoard(b, q)
    ensures AllOnBoard(b, c.reorder(q)) && |c.reorder(q)| == |q|
  {
    var o := c.reorder(q);
    assert Permutes(c.reorder, q);
    forall k | 0 <= k < |o|
      ensures OnBoard(b, o[k].col, o[k].row)
    {
      assert o[k] in multiset(o);
      assert o[k] in q;
    }
  }

  /** The order in which a node visits its children: natural order unless
      the first child is already in the table, in which case the queue
      order of the rescored moves. */
  function ChildOrder(c: Ctx, b: Board, ms: seq<Move>, mover: int, table: map<Grid, Score>): (r: Outcome<seq<Move>>)
    requires WellFormed(b) && AllOnBoard(b, ms) && ReorderOk(c)
    ensures r.Done? ==> AllOnBoard(b, r.value) && |r.value| == |ms| > 0
  {
    if |ms| == 0 then Crash(NoMoves)
    else if Child(b, ms[0], mover).pieces !in table then Done(ms)
    else
      match CachedMoves(table, b, ms, mover)
      case None => Crash(MissingEntry)
      case Some(q) =>
        ReorderOnBoard(c, b, q);
        Done(c.reorder(q))
  }

  /** The test that makes a node a leaf: the deadline has passed, the
      depth limit is reached, or the game is over. */
  predicate IsLeaf(c: Ctx, b: Board, depth: nat, limit: nat, s: St)
  {
    c.clock(s.polls) > c.deadline || depth >= limit || c.winner(b) != NotGameOver
  }

  /** minMove (side MinSide) and maxMove (side MaxSide) at `depth`, the
      value of the depth counter after its increment on entry: one clock
      reading, then a leaf or an inner node. */
  function Node(c: Ctx, side: Side, b: Board, depth: nat, limit: nat, alpha: Score, beta: Score, s: St): (r: Res)
    requires WellFormed(b) && ReorderOk(c)
    ensures r.st.polls > s.polls && r.st.queued == s.queued
    decreases limit - depth, 2, 0
  {
    var s1 := s.(polls := s.polls + 1);
    if IsLeaf(c, b, depth, limit, s) then Leaf(c, b, s1)
    else Inner(c, side, b, depth, limit, alpha, beta, s1)
  }

  /** A leaf: eval(state, player) is stored in the table and returned. */
  function Leaf(c: Ctx, b: Board, s: St): (r: Res)
    requires WellFormed(b)
    ensures r.out.Done? && r.st.polls == s.polls && r.st.queued == s.queued
    ensures r.out.value == EvalScore(b, c.winner(b), c.player, c.enemy, c.player)
    ensures b.pieces in r.st.table && r.st.table[b.pieces] == r.out.value
  {
    var w := c.winner(b);
    var v := EvalScore(b, w, c.player, c.enemy, c.player);
    Res(Done(v), s.(table := s.table[b.pieces := v], qui := EvalQui(b, w, c.player, c.enemy, c.player, s.qui)))
  }

  /** An inner node: the generated moves in natural or queue order, then
      the loop over them from the side's worst score. */
  function Inner(c: Ctx, side: Side, b: Board, depth: nat, limit: nat, alpha: Score, beta: Score, s: St): (r: Res)
    requires WellFormed(b) && ReorderOk(c) && depth < limit
    ensures r.st.polls >= s.polls && r.st.queued == s.queued
    decreases limit - depth, 1, 0
  {
    var w := c.winner(b);
    var ms := Generated(b, w);
    GeneratedOnBoard(b, w);
    match ChildOrder(c, b, ms, Mover(c, side), s.table)
    case Crash(f) => Res(Crash(f), s)
    case Done(order) => Loop(c, side, b, order, 0, depth, limit, alpha, beta, Worst(side), s)
  }

  /** The loop over the children order[i..], with the running bestScore and
      the current window; the node's value is stored when the loop ends. */
  function Loop(c: Ctx, side: Side, b: Board, order: seq<Move>, i: nat, depth: nat, limit: nat,
                alpha: Score, beta: Score, best: Score, s: St): (r: Res)
    requires WellFormed(b) && ReorderOk(c) && AllOnBoard(b, order) && i <= |order| && depth < limit
    ensures r.st.polls >= s.polls && r.st.queued == s.queued
    decreases limit - depth, 0, |order| - i
  {
    if i == |order| then Res(Done(best), s.(table := s.table[b.pieces := best]))
    else
      var r := Node(c, Flip(side), Child(b, order[i], Mover(c, side)), depth + 1, limit, alpha, beta, s);
      match r.out
      case Crash(_) => r
      case Done(v) =>
        if Improves(side, v, best) then
          var alpha' := if side == MaxSide then v else alpha;
          var beta' := if side == MinSide then v else beta;
          if Le(beta', alpha') then Res(Done(v), r.st.(table := r.st.table[b.pieces := v]))
          else Loop(c, side, b, order, i + 1, depth, limit, alpha', beta', v, r.st)
        else Loop(c, side, b, order, i + 1, depth, limit, alpha, beta, best, r.st)
  }

  /** A child loop that completes leaves its result in the table under the
      node's position, whether it ran to the end or pruned. */
  lemma {:induction false} LoopStores(c: Ctx, side: Side, b: Board, order: seq<Move>, i: nat, depth: nat, limit: nat,
                                      alpha: Score, beta: Score, best: Score, s: St)
    requires WellFormed(b) && ReorderOk(c) && AllOnBoard(b, order) && i <= |order| && depth < limit
    requires Loop(c, side, b, order, i, depth, limit, alpha, beta, best, s).out.Done?
    ensures var r := Loop(c, side, b, order, i, depth, limit, alpha, beta, best, s);
      b.pieces in r.st.table && r.st.table[b.pieces] == r.out.value
    decreases |order| - i
  {
    if i < |order| {
      var r := Node(c, Flip(side), Child(b, order[i], Mover(c, side)), depth + 1, limit, alpha, beta, s);
      if r.out.Done? {
        var v := r.out.value;
        if Improves(side, v, best) {
          var alpha' := if side == MaxSide then v else alpha;
          var beta' := if side == MinSide then v else beta;
          if !Le(beta', alpha') {
            LoopStores(c, side, b, order, i + 1, depth, limit, alpha', beta', v, r.st);
          }
        } else {
          LoopStores(c, side, b, order, i + 1, depth, limit, alpha, beta, best, r.st);
        }
      }
    }
  }

  /** minMove and maxMove: a node that completes leaves its value in the
      table under its own position. */
  lemma NodeStores(c: Ctx, side: Side, b: Board, depth: nat, limit: nat, alpha: Score, beta: Score, s: St)
    requires WellFormed(b) && ReorderOk(c)
    requires Node(c, side, b, depth, limit, alpha, beta, s).out.Done?
    ensures var r := Node(c, side, b, depth, limit, alpha, beta, s);
      b.pieces in r.st.table && r.st.table[b.pieces] == r.out.value
  {
    var s1 := s.(polls := s.polls + 1);
    if !IsLeaf(c, b, depth, limit, s) {
      var w := c.winner(b);
      GeneratedOnBoard(b, w);
      var order := ChildOrder(c, b, Generated(b, w), Mover(c, side), s1.table);
      if order.Done? {
        LoopStores(c, side, b, order.value, 0, depth, limit, alpha, beta, Worst(side), s1);
      }
    }
  }

  /** The end of the child loop. */
  lemma LoopEnd(c: Ctx, side: Side, b: Board, order: seq<Move>, depth: nat, limit: nat,
                alpha: Score, beta: Score, best: Score, s: St)
    requires WellFormed(b) && ReorderOk(c) && AllOnBoard(b, order) && depth < limit
    ensures Loop(c, side, b, order, |order|, depth, limit, alpha, beta, best, s)
         == Res(Done(best), s.(table := s.table[b.pieces := best]))
  {
  }

  /** One turn of minMove's loop, given the result `r` of maxMove on the
      child: a crash ends the loop; a lower value becomes the best and beta
      and ends the loop once alpha >= beta. */
  lemma MinTurn(c: Ctx, b: Board, order: seq<Move>, i: nat, depth: nat, limit: nat,
                alpha: Score, beta: Score, best: Score, s: St, r: Res)
    requires WellFormed(b) && ReorderOk(c) && AllOnBoard(b, order) && i < |order| && depth < limit
    requires r == Node(c, MaxSide, Child(b, order[i], c.enemy), depth + 1, limit, alpha, beta, s)
    ensures r.out.Crash? ==> Loop(c, MinSide, b, order, i, depth, limit, alpha, beta, best, s) == r
    ensures r.out.Done? && !Lt(r.out.value, best) ==>
      Loop(c, MinSide, b, order, i, depth, limit, alpha, beta, best, s)
      == Loop(c, MinSide, b, order, i + 1, depth, limit, alpha, beta, best, r.st)
    ensures r.out.Done? && Lt(r.out.value, best) && Le(r.out.value, alpha) ==>
      Loop(c, MinSide, b, order, i, depth, limit, alpha, beta, best, s)
      == Res(r.out, r.st.(table := r.st.table[b.pieces := r.out.value]))
    ensures r.out.Done? && Lt(r.out.value, best) && !Le(r.out.value, alpha) ==>
      Loop(c, MinSide, b, order, i, depth, limit, alpha, beta, best, s)
      == Loop(c, MinSide, b, order, i + 1, depth, limit, alpha, r.out.value, r.out.value, r.st)
  {
  }

  /** One turn of maxMove's loop, the mirror image of minMove's. */
  lemma MaxTurn(c: Ctx, b: Board, order: seq<Move>, i: nat, depth: nat, limit: nat,
                alpha: Score, beta: Score, best: Score, s: St, r: Res)
    requires WellFormed(b) && ReorderOk(c) && AllOnBoard(b, order) && i < |order| && depth < limit
    requires r == Node(c, MinSide, Child(b, order[i], c.player), depth + 1, limit, alpha, beta, s)
    ensures r.out.Crash? ==> Loop(c, MaxSide, b, order, i, depth, limit, alpha, beta, best, s) == r
    ensures r.out.Done? && !Lt(best, r.out.value) ==>
      Loop(c, MaxSide, b, order, i, depth, limit, alpha, beta, best, s)
      == Loop(c, MaxSide, b, order, i + 1, depth, limit, alpha, beta, best, r.st)
    ensures r.out.Done? && Lt(best, r.out.value) && Le(beta, r.out.value) ==>
      Loop(c, MaxSide, b, order, i, depth, limit, alpha, beta, best, s)
      == Res(r.out, r.st.(table := r.st.table[b.pieces := r.out.value]))
    ensures r.out.Done? && Lt(best, r.out.value) && !Le(beta, r.out.value) ==>
      Loop(c, MaxSide, b, order, i, depth, limit, alpha, beta, best, s)
      == Loop(c, MaxSide, b, order, i + 1, depth, limit, r.out.value, beta, r.out.value, r.st)
  {
  }
}
