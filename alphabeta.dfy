/** What minMove / maxMove compute: when none of the clock readings the
    search takes is past the deadline and the search does not raise, a node searched with the full window returns its
    depth-limited minimax value, whatever order the priority queue hands
    the children out in. */
module AlphaBeta {
  import opened Scores
  import opened Boards
  import opened Moves
  import opened MoveGen
  import opened Evaluator
  import opened Search

  /** The reduction a node applies to its children's values. */
  function Combine(side: Side, x: Score, y: Score): (r: Score)
    ensures r == x || r == y
  {
    if side == MinSide then Min(x, y) else Max(x, y)
  }

  /** `x` is at least as good as `y` for the side to move. */
  predicate Prefers(side: Side, x: Score, y: Score)
  {
    if side == MinSide then Le(x, y) else Le(y, x)
  }

  /** Depth-limited minimax with the same leaves, depth counter and move
      lists as the search, but no window, no table and no clock. */
  function Minimax(c: Ctx, side: Side, b: Board, depth: nat, limit: nat): Score
    requires WellFormed(b)
    decreases limit - depth, 2, 0
  {
    var w := c.winner(b);
    if depth >= limit || w != NotGameOver then EvalScore(b, w, c.player, c.enemy, c.player)
    else
      GeneratedOnBoard(b, w);
      BestFrom(c, side, b, Generated(b, w), 0, depth, limit)
  }

  /** The reduction of the values of the children ms[i..]. */
  function BestFrom(c: Ctx, side: Side, b: Board, ms: seq<Move>, i: nat, depth: nat, limit: nat): Score
    requires WellFormed(b) && AllOnBoard(b, ms) && i <= |ms| && depth < limit
    decreases limit - depth, 1, |ms| - i
  {
    if i == |ms| then Worst(side)
    else Combine(side, Value(c, side, b, ms[i].Pos(), depth, limit), BestFrom(c, side, b, ms, i + 1, depth, limit))
  }

  /** The minimax value of the child reached by playing `p`. */
  function Value(c: Ctx, side: Side, b: Board, p: Point, depth: nat, limit: nat): Score
    requires WellFormed(b) && OnBoard(b, p.x, p.y) && depth < limit
    decreases limit - depth, 0, 0
  {
    Minimax(c, Flip(side), PlacePiece(b, p, Mover(c, side)), depth + 1, limit)
  }

  /** The coordinates of a list of moves, scores forgotten. */
  function Positions(ms: seq<Move>): set<Point>
  {
    set m | m in ms :: m.Pos()
  }

  /** Fail-soft alpha-beta bound: `v` is the true value `t` when `t` lies
      strictly inside the window (a, b), and lies on the same side of the
      window as `t` otherwise. */
  predicate Bounded(v: Score, t: Score, a: Score, b: Score)
  {
    && (Le(t, a) ==> Le(v, a))
    && (Le(b, t) ==> Le(b, v))
    && (Lt(a, t) && Lt(t, b) ==> v == t)
  }

  /** With the full window the bound pins the value down. */
  lemma FullWindowExact(v: Score, t: Score)
    requires Bounded(v, t, NegInf, PosInf)
    ensures v == t
  {
  }

  lemma {:induction false} BestPrefersAll(c: Ctx, side: Side, b: Board, ms: seq<Move>, i: nat, depth: nat, limit: nat)
    requires WellFormed(b) && AllOnBoard(b, ms) && i <= |ms| && depth < limit
    ensures forall k :: i <= k < |ms| ==>
      Prefers(side, BestFrom(c, side, b, ms, i, depth, limit), Value(c, side, b, ms[k].Pos(), depth, limit))
    decreases |ms| - i
  {
    if i < |ms| {
      BestPrefersAll(c, side, b, ms, i + 1, depth, limit);
      var x := Value(c, side, b, ms[i].Pos(), depth, limit);
      var rest := BestFrom(c, side, b, ms, i + 1, depth, limit);
      var r := BestFrom(c, side, b, ms, i, depth, limit);
      assert Prefers(side, r, x) && Prefers(side, r, rest);
      forall k | i < k < |ms|
        ensures Prefers(side, r, Value(c, side, b, ms[k].Pos(), depth, limit))
      {
        var y := Value(c, side, b, ms[k].Pos(), depth, limit);
        assert Prefers(side, rest, y);
        if side == MinSide { LeTransitive(r, rest, y); } else { LeTransitive(y, rest, r); }
      }
    }
  }

  lemma {:induction false} BestAttained(c: Ctx, side: Side, b: Board, ms: seq<Move>, i: nat, depth: nat, limit: nat)
    requires WellFormed(b) && AllOnBoard(b, ms) && i < |ms| && depth < limit
    ensures exists k :: i <= k < |ms| && BestFrom(c, side, b, ms, i, depth, limit) == Value(c, side, b, ms[k].Pos(), depth, limit)
    decreases |ms| - i
  {
    var x := Value(c, side, b, ms[i].Pos(), depth, limit);
    var rest := BestFrom(c, side, b, ms, i + 1, depth, limit);
    var r := BestFrom(c, side, b, ms, i, depth, limit);
    if r == x {
    } else if i + 1 == |ms| {
      assert false;
    } else {
      BestAttained(c, side, b, ms, i + 1, depth, limit);
    }
  }

  lemma PositionsEmpty(ms: seq<Move>)
    ensures Positions(ms) == {} <==> ms == []
  {
    if ms != [] {
      assert ms[0].Pos() in Positions(ms);
    }
  }

  /** The value of a node does not depend on the order of its children,
      only on the set of coordinates played. */
  lemma BestOrderIndependent(c: Ctx, side: Side, b: Board, ms1: seq<Move>, ms2: seq<Move>, depth: nat, limit: nat)
    requires WellFormed(b) && AllOnBoard(b, ms1) && AllOnBoard(b, ms2) && depth < limit
    requires Positions(ms1) == Positions(ms2)
    ensures BestFrom(c, side, b, ms1, 0, depth, limit) == BestFrom(c, side, b, ms2, 0, depth, limit)
  {
    var r1 := BestFrom(c, side, b, ms1, 0, depth, limit);
    var r2 := BestFrom(c, side, b, ms2, 0, depth, limit);
    PositionsEmpty(ms1);
    PositionsEmpty(ms2);
    if |ms1| == 0 || |ms2| == 0 {
    } else {
      BestPrefersAll(c, side, b, ms1, 0, depth, limit);
      BestPrefersAll(c, side, b, ms2, 0, depth, limit);
      BestAttained(c, side, b, ms1, 0, depth, limit);
      BestAttained(c, side, b, ms2, 0, depth, limit);
      var k1 :| 0 <= k1 < |ms1| && r1 == Value(c, side, b, ms1[k1].Pos(), depth, limit);
      var k2 :| 0 <= k2 < |ms2| && r2 == Value(c, side, b, ms2[k2].Pos(), depth, limit);
      assert ms1[k1].Pos() in Positions(ms2);
      var j2 :| j2 in ms2 && j2.Pos() == ms1[k1].Pos();
      var i2 :| 0 <= i2 < |ms2| && ms2[i2] == j2;
      assert Prefers(side, r2, r1);
      assert ms2[k2].Pos() in Positions(ms1);
      var j1 :| j1 in ms1 && j1.Pos() == ms2[k2].Pos();
      var i1 :| 0 <= i1 < |ms1| && ms1[i1] == j1;
      assert Prefers(side, r1, r2);
      LeAntisymmetric(r1, r2);
    }
  }

  /** A node visits exactly the coordinates move generation lists. */
  lemma ChildOrderPositions(c: Ctx, b: Board, ms: seq<Move>, mover: int, table: map<Grid, Score>)
    requires WellFormed(b) && AllOnBoard(b, ms) && ReorderOk(c)
    requires ChildOrder(c, b, ms, mover, table).Done?
    ensures Positions(ChildOrder(c, b, ms, mover, table).value) == Positions(ms)
  {
    if Child(b, ms[0], mover).pieces in table {
      var q := CachedMoves(table, b, ms, mover).value;
      var o := c.reorder(q);
      assert Permutes(c.reorder, q);
      forall p | p in Positions(o)
        ensures p in Positions(ms)
      {
        var m :| m in o && m.Pos() == p;
        assert m in multiset(o);
        var k :| 0 <= k < |q| && q[k] == m;
        assert ms[k].Pos() == p;
      }
      forall p | p in Positions(ms)
        ensures p in Positions(o)
      {
        var m :| m in ms && m.Pos() == p;
        var k :| 0 <= k < |ms| && ms[k] == m;
        assert q[k] in multiset(q);
        assert q[k] in o;
      }
    }
  }

  lemma MinAssociative(x: Score, y: Score, z: Score)
    ensures Min(x, Min(y, z)) == Min(Min(x, y), z)
  {
  }

  lemma MaxAssociative(x: Score, y: Score, z: Score)
    ensures Max(x, Max(y, z)) == Max(Max(x, y), z)
  {
  }

  /** The bound for a node searched inside the window (alpha, beta). */
  lemma {:induction false} NodeBound(c: Ctx, side: Side, b: Board, depth: nat, limit: nat,
                                     alpha: Score, beta: Score, s: St)
    requires WellFormed(b) && ReorderOk(c) && Lt(alpha, beta)
    requires NoDeadline(c, s.polls, Node(c, side, b, depth, limit, alpha, beta, s).st.polls)
    requires Node(c, side, b, depth, limit, alpha, beta, s).out.Done?
    ensures Bounded(Node(c, side, b, depth, limit, alpha, beta, s).out.value, Minimax(c, side, b, depth, limit), alpha, beta)
    decreases limit - depth, 1, 0
  {
    var w := c.winner(b);
    assert c.clock(s.polls) <= c.deadline;
    if depth < limit && w == NotGameOver {
      var ms := Generated(b, w);
      GeneratedOnBoard(b, w);
      var s1 := s.(polls := s.polls + 1);
      var order := ChildOrder(c, b, ms, Mover(c, side), s1.table).value;
      ChildOrderPositions(c, b, ms, Mover(c, side), s1.table);
      BestOrderIndependent(c, side, b, order, ms, depth, limit);
      if side == MinSide {
        MinLoopBound(c, b, order, 0, depth, limit, alpha, beta, PosInf, PosInf, beta, s1);
      } else {
        MaxLoopBound(c, b, order, 0, depth, limit, alpha, beta, NegInf, NegInf, alpha, s1);
      }
    }
  }

  /** minMove's loop.  `tPre` is the minimum of the children already
      visited, `b0` the beta the node was called with; the current beta is
      the running best once one child has lowered it. */
  lemma {:induction false} MinLoopBound(c: Ctx, b: Board, order: seq<Move>, i: nat, depth: nat, limit: nat,
                                        a: Score, beta: Score, best: Score, tPre: Score, b0: Score, s: St)
    requires WellFormed(b) && ReorderOk(c) && AllOnBoard(b, order) && i <= |order| && depth < limit
    requires NoDeadline(c, s.polls, Loop(c, MinSide, b, order, i, depth, limit, a, beta, best, s).st.polls)
    requires Lt(a, b0) && Lt(a, best)
    requires beta == (if best == PosInf then b0 else best)
    requires best == tPre || (Le(b0, best) && Le(b0, tPre))
    requires Loop(c, MinSide, b, order, i, depth, limit, a, beta, best, s).out.Done?
    ensures Bounded(Loop(c, MinSide, b, order, i, depth, limit, a, beta, best, s).out.value,
                    Min(tPre, BestFrom(c, MinSide, b, order, i, depth, limit)), a, b0)
    decreases limit - depth, 0, |order| - i
  {
    if i < |order| {
      var child := Child(b, order[i], Mover(c, MinSide));
      var r := Node(c, MaxSide, child, depth + 1, limit, a, beta, s);
      var whole := Loop(c, MinSide, b, order, i, depth, limit, a, beta, best, s);
      MinTurn(c, b, order, i, depth, limit, a, beta, best, s, r);
      NoDeadlineWithin(c, s.polls, whole.st.polls, s.polls, r.st.polls);
      NodeBound(c, MaxSide, child, depth + 1, limit, a, beta, s);
      var v := r.out.value;
      var t := Value(c, MinSide, b, order[i].Pos(), depth, limit);
      var rest := BestFrom(c, MinSide, b, order, i + 1, depth, limit);
      MinAssociative(tPre, t, rest);
      if Lt(v, best) {
        if !Le(v, a) {
          NoDeadlineWithin(c, s.polls, whole.st.polls, r.st.polls, whole.st.polls);
          MinLoopBound(c, b, order, i + 1, depth, limit, a, v, v, Min(tPre, t), b0, r.st);
        }
      } else {
        NoDeadlineWithin(c, s.polls, whole.st.polls, r.st.polls, whole.st.polls);
        MinLoopBound(c, b, order, i + 1, depth, limit, a, beta, best, Min(tPre, t), b0, r.st);
      }
    }
  }

  /** maxMove's loop, the mirror image of minMove's: `a0` is the alpha the
      node was called with. */
  lemma {:induction false} MaxLoopBound(c: Ctx, b: Board, order: seq<Move>, i: nat, depth: nat, limit: nat,
                                        alpha: Score, bt: Score, best: Score, tPre: Score, a0: Score, s: St)
    requires WellFormed(b) && ReorderOk(c) && AllOnBoard(b, order) && i <= |order| && depth < limit
    requires NoDeadline(c, s.polls, Loop(c, MaxSide, b, order, i, depth, limit, alpha, bt, best, s).st.polls)
    requires Lt(a0, bt) && Lt(best, bt)
    requires alpha == (if best == NegInf then a0 else best)
    requires best == tPre || (Le(best, a0) && Le(tPre, a0))
    requires Loop(c, MaxSide, b, order, i, depth, limit, alpha, bt, best, s).out.Done?
    ensures Bounded(Loop(c, MaxSide, b, order, i, depth, limit, alpha, bt, best, s).out.value,
                    Max(tPre, BestFrom(c, MaxSide, b, order, i, depth, limit)), a0, bt)
    decreases limit - depth, 0, |order| - i
  {
    if i < |order| {
      var child := Child(b, order[i], Mover(c, MaxSide));
      var r := Node(c, MinSide, child, depth + 1, limit, alpha, bt, s);
      var whole := Loop(c, MaxSide, b, order, i, depth, limit, alpha, bt, best, s);
      MaxTurn(c, b, order, i, depth, limit, alpha, bt, best, s, r);
      NoDeadlineWithin(c, s.polls, whole.st.polls, s.polls, r.st.polls);
      NodeBound(c, MinSide, child, depth + 1, limit, alpha, bt, s);
      var v := r.out.value;
      var t := Value(c, MaxSide, b, order[i].Pos(), depth, limit);
      var rest := BestFrom(c, MaxSide, b, order, i + 1, depth, limit);
      MaxAssociative(tPre, t, rest);
      if Lt(best, v) {
        if !Le(bt, v) {
          NoDeadlineWithin(c, s.polls, whole.st.polls, r.st.polls, whole.st.polls);
          MaxLoopBound(c, b, order, i + 1, depth, limit, v, bt, v, Max(tPre, t), a0, r.st);
        }
      } else {
        NoDeadlineWithin(c, s.polls, whole.st.polls, r.st.polls, whole.st.polls);
        MaxLoopBound(c, b, order, i + 1, depth, limit, alpha, bt, best, Max(tPre, t), a0, r.st);
      }
    }
  }

  /** Searched with the full window, a node that completes returns its
      minimax value: pruning, the table and the queue order change only
      how much is searched. */
  lemma PrunedEqualsMinimax(c: Ctx, side: Side, b: Board, depth: nat, limit: nat, s: St)
    requires WellFormed(b) && ReorderOk(c)
    requires NoDeadline(c, s.polls, Node(c, side, b, depth, limit, NegInf, PosInf, s).st.polls)
    requires Node(c, side, b, depth, limit, NegInf, PosInf, s).out.Done?
    ensures Node(c, side, b, depth, limit, NegInf, PosInf, s).out.value == Minimax(c, side, b, depth, limit)
  {
    NodeBound(c, side, b, depth, limit, NegInf, PosInf, s);
    FullWindowExact(Node(c, side, b, depth, limit, NegInf, PosInf, s).out.value, Minimax(c, side, b, depth, limit));
  }

  /** Two queue orders give the same value when both searches complete. */
  lemma OrderIrrelevant(c1: Ctx, c2: Ctx, side: Side, b: Board, depth: nat, limit: nat, s1: St, s2: St)
    requires c1 == c2.(reorder := c1.reorder)
    requires WellFormed(b) && ReorderOk(c1) && ReorderOk(c2)
    requires NoDeadline(c1, s1.polls, Node(c1, side, b, depth, limit, NegInf, PosInf, s1).st.polls)
    requires NoDeadline(c2, s2.polls, Node(c2, side, b, depth, limit, NegInf, PosInf, s2).st.polls)
    requires Node(c1, side, b, depth, limit, NegInf, PosInf, s1).out.Done?
    requires Node(c2, side, b, depth, limit, NegInf, PosInf, s2).out.Done?
    ensures Node(c1, side, b, depth, limit, NegInf, PosInf, s1).out.value
         == Node(c2, side, b, depth, limit, NegInf, PosInf, s2).out.value
  {
    PrunedEqualsMinimax(c1, side, b, depth, limit, s1);
    PrunedEqualsMinimax(c2, side, b, depth, limit, s2);
    MinimaxIgnoresReorder(c1, c2, side, b, depth, limit);
  }

  /** The reference value reads nothing of the queue order. */
  lemma {:induction false} MinimaxIgnoresReorder(c1: Ctx, c2: Ctx, side: Side, b: Board, depth: nat, limit: nat)
    requires c1 == c2.(reorder := c1.reorder) && WellFormed(b)
    ensures Minimax(c1, side, b, depth, limit) == Minimax(c2, side, b, depth, limit)
    decreases limit - depth, 2, 0
  {
    var w := c1.winner(b);
    if depth < limit && w == NotGameOver {
      GeneratedOnBoard(b, w);
      BestIgnoresReorder(c1, c2, side, b, Generated(b, w), 0, depth, limit);
    }
  }

  lemma {:induction false} BestIgnoresReorder(c1: Ctx, c2: Ctx, side: Side, b: Board, ms: seq<Move>, i: nat, depth: nat, limit: nat)
    requires c1 == c2.(reorder := c1.reorder) && WellFormed(b) && AllOnBoard(b, ms) && i <= |ms| && depth < limit
    ensures BestFrom(c1, side, b, ms, i, depth, limit) == BestFrom(c2, side, b, ms, i, depth, limit)
    decreases limit - depth, 1, |ms| - i
  {
    if i < |ms| {
      var p := ms[i].Pos();
      MinimaxIgnoresReorder(c1, c2, Flip(side), PlacePiece(b, p, Mover(c1, side)), depth + 1, limit);
      BestIgnoresReorder(c1, c2, side, b, ms, i + 1, depth, limit);
    }
  }
}
