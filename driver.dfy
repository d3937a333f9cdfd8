/** getMove: the opening shortcut, then iterative deepening at the root
    until the deadline, keeping the best-scored root move seen so far. */
module Driver {
  import opened Scores
  import opened Boards
  import opened Moves
  import opened MoveGen
  import opened Evaluator
  import opened Search
  import opened AlphaBeta

  /** The root moves of one deepening iteration, rescored, in the order they
      were searched. */
  datatype Round = Round(out: Outcome<seq<Move>>, st: St)

  /** The iteration loop's result: the best move, and the state. */
  datatype Pick = Pick(out: Outcome<Move>, st: St)

  /** What getMove returns, and the state it leaves. */
  datatype Answer = Answer(out: Outcome<Point>, st: St)

  /** The n-th clock reading is later than the m-th. */
  predicate Later(clock: nat -> int, m: nat, n: nat)
  {
    clock(m) < clock(n)
  }

  /** Every clock reading is later than the ones before it. */
  ghost predicate StrictClock(c: Ctx)
  {
    forall m: nat, n: nat :: m < n ==> Later(c.clock, m, n)
  }

  /** With readings that strictly increase, a search sees no reading past
      the deadline as soon as its last reading is not past it. */
  lemma NoDeadlineStrict(c: Ctx, from: nat, to: nat)
    requires StrictClock(c) && from < to
    ensures NoDeadline(c, from, to) <==> c.clock(to - 1) <= c.deadline
  {
    if c.clock(to - 1) <= c.deadline {
      forall n: nat | from <= n < to
        ensures c.clock(n) <= c.deadline
      {
        if n < to - 1 {
          assert Later(c.clock, n, to - 1);
        }
      }
    }
  }

  /** `bestMove` after the root moves `xs` were scored: a move replaces the
      current best when its score is at least as high. */
  function PickBest(init: Move, xs: seq<Move>): (r: Move)
    ensures r == init || r in xs
    ensures Le(init.score, r.score)
    ensures forall k :: 0 <= k < |xs| ==> Le(xs[k].score, r.score)
  {
    if |xs| == 0 then init
    else
      var cur := PickBest(init, xs[..|xs| - 1]);
      var last := xs[|xs| - 1];
      if Le(cur.score, last.score) then last else
        assert forall k :: 0 <= k < |xs| - 1 ==> xs[..|xs| - 1][k] == xs[k];
        cur
  }

  /** PickBest keeps a root move as soon as one scores at least the
      initial score. */
  lemma {:induction false} PickBestTakesRoot(init: Move, xs: seq<Move>)
    ensures (exists k :: 0 <= k < |xs| && Le(init.score, xs[k].score)) ==> PickBest(init, xs) in xs
  {
    if |xs| > 0 {
      var front := xs[..|xs| - 1];
      PickBestTakesRoot(init, front);
      var cur := PickBest(init, front);
      if !Le(cur.score, xs[|xs| - 1].score) && exists k :: 0 <= k < |xs| && Le(init.score, xs[k].score) {
        var k :| 0 <= k < |xs| && Le(init.score, xs[k].score);
        if k < |xs| - 1 {
          assert front[k] == xs[k];
        }
      }
    }
  }

  /** A root move kept by PickBest scores strictly higher than every move
      after it: on a tie the later move wins. */
  lemma {:induction false} PickBestLatest(init: Move, xs: seq<Move>)
    ensures var r := PickBest(init, xs);
      r in xs ==> exists k :: 0 <= k < |xs| && xs[k] == r && forall j :: k < j < |xs| ==> Lt(xs[j].score, r.score)
  {
    if |xs| > 0 {
      var front := xs[..|xs| - 1];
      PickBestLatest(init, front);
      var cur := PickBest(init, front);
      var r := PickBest(init, xs);
      if Le(cur.score, xs[|xs| - 1].score) {
        assert xs[|xs| - 1] == r;
      } else if r in xs {
        assert r == cur;
        assert forall k :: 0 <= k < |xs| - 1 ==> front[k] == xs[k];
        var k :| 0 <= k < |front| && front[k] == r && forall j :: k < j < |front| ==> Lt(front[j].score, r.score);
        assert xs[k] == r;
      }
    }
  }

  /** The root loop over order[i..]: each root child is searched by minMove
      at depth 1 with the full window and the move is rescored with the
      result; `acc` holds the moves already rescored. */
  function ScoreFrom(c: Ctx, b: Board, order: seq<Move>, i: nat, limit: nat, acc: seq<Move>, s: St): (r: Round)
    requires WellFormed(b) && ReorderOk(c) && AllOnBoard(b, order) && i <= |order|
    ensures r.st.polls >= s.polls && r.st.queued == s.queued
    ensures r.out.Done? ==>
      && |r.out.value| == |acc| + |order| - i
      && (forall k :: 0 <= k < |acc| ==> r.out.value[k] == acc[k])
      && forall k :: i <= k < |order| ==> r.out.value[|acc| + k - i].Pos() == order[k].Pos()
    decreases |order| - i
  {
    if i == |order| then Round(Done(acc), s)
    else
      var r := Node(c, MinSide, Child(b, order[i], c.player), 1, limit, NegInf, PosInf, s);
      match r.out
      case Crash(f) => Round(Crash(f), r.st)
      case Done(v) =>
        ScoreFrom(c, b, order, i + 1, limit, acc + [order[i].SetScore(v)], r.st)
  }

  /** One deepening iteration with depth limit `limit`: a fresh queue, the
      root children in natural or queue order, each scored by minMove. */
  function Iteration(c: Ctx, b: Board, ms: seq<Move>, limit: nat, s: St): (r: Round)
    requires WellFormed(b) && ReorderOk(c) && AllOnBoard(b, ms)
    ensures r.st.polls >= s.polls && r.st.queued
  {
    var s1 := s.(queued := true);
    match ChildOrder(c, b, ms, c.player, s1.table)
    case Crash(f) => Round(Crash(f), s1)
    case Done(order) => ScoreFrom(c, b, order, 0, limit, [], s1)
  }

  /** The deepening loop from depth limit `limit`: one clock reading per
      test of the loop condition. */
  function Deepen(c: Ctx, b: Board, ms: seq<Move>, limit: nat, best: Move, s: St): (r: Pick)
    requires WellFormed(b) && ReorderOk(c) && StrictClock(c) && AllOnBoard(b, ms)
    ensures r.st.polls > s.polls && (r.st.queued ==> s.queued || c.clock(s.polls) < c.deadline)
    decreases c.deadline - c.clock(s.polls)
  {
    var now := c.clock(s.polls);
    var s1 := s.(polls := s.polls + 1);
    if !(now < c.deadline) then Pick(Done(best), s1)
    else
      var r := Iteration(c, b, ms, limit, s1);
      match r.out
      case Crash(f) => Pick(Crash(f), r.st)
      case Done(scored) =>
        assert Later(c.clock, s.polls, r.st.polls);
        Deepen(c, b, ms, limit + 1, PickBest(best, scored), r.st)
  }

  /** The deadline has passed at the test of the loop condition. */
  lemma DeepenStop(c: Ctx, b: Board, ms: seq<Move>, limit: nat, best: Move, s: St)
    requires WellFormed(b) && ReorderOk(c) && StrictClock(c) && AllOnBoard(b, ms)
    requires !(c.clock(s.polls) < c.deadline)
    ensures Deepen(c, b, ms, limit, best, s) == Pick(Done(best), s.(polls := s.polls + 1))
  {
  }

  /** One pass of the deepening loop, given the iteration's result `r`. */
  lemma DeepenStep(c: Ctx, b: Board, ms: seq<Move>, limit: nat, best: Move, s: St, r: Round)
    requires WellFormed(b) && ReorderOk(c) && StrictClock(c) && AllOnBoard(b, ms)
    requires c.clock(s.polls) < c.deadline
    requires r == Iteration(c, b, ms, limit, s.(polls := s.polls + 1))
    ensures c.clock(s.polls) < c.clock(r.st.polls)
    ensures r.out.Crash? ==> Deepen(c, b, ms, limit, best, s) == Pick(Crash(r.out.fault), r.st)
    ensures r.out.Done? ==> Deepen(c, b, ms, limit, best, s) == Deepen(c, b, ms, limit + 1, PickBest(best, r.out.value), r.st)
  {
    assert Later(c.clock, s.polls, r.st.polls);
    match r.out
    case Crash(f) =>
    case Done(scored) =>
  }

  /** The opening move: the middle column, on the bottom row under gravity
      and in the middle row otherwise. */
  function Centre(b: Board): (p: Point)
    ensures 0 < b.width && 0 < b.height ==> OnBoard(b, p.x, p.y)
    ensures b.gravity ==> p.y == 0
  {
    if b.gravity then Point(b.width / 2, 0) else Point(b.width / 2, b.height / 2)
  }

  /** getMove(state, timelimit).  The deadline is the first clock reading
      plus timelimit minus 100; the deadline already in `c` is replaced. */
  function GetMoveSpec(c: Ctx, b: Board, timelimit: int, s: St): (r: Answer)
    requires WellFormed(b) && ReorderOk(c) && StrictClock(c)
    ensures r.st.polls > s.polls
  {
    var c1 := c.(deadline := c.clock(s.polls) + timelimit - 100);
    var s1 := s.(polls := s.polls + 1);
    if b.lastMove.None? then Answer(Done(Centre(b)), s1)
    else
      Finish(RootSearch(c1, b, s1))
  }

  /** The end of getMove: moveQueue.clear() raises if no iteration ever
      assigned the queue; otherwise the best move's position. */
  function Finish(p: Pick): (r: Answer)
    ensures r.st == p.st
    ensures r.out.Done? <==> p.out.Done? && p.st.queued
    ensures r.out.Done? ==> r.out.value == p.out.value.Pos()
  {
    match p.out
    case Crash(f) => Answer(Crash(f), p.st)
    case Done(m) => if p.st.queued then Answer(Done(m.Pos()), p.st) else Answer(Crash(NoQueue), p.st)
  }

  /** The search part of getMove: a fresh table, the generated root moves,
      no best move yet, and deepening from depth limit 0. */
  function RootSearch(c: Ctx, b: Board, s: St): (r: Pick)
    requires WellFormed(b) && ReorderOk(c) && StrictClock(c)
    ensures r.st.polls > s.polls
  {
    GeneratedOnBoard(b, c.winner(b));
    Deepen(c, b, Generated(b, c.winner(b)), 0, Move(0, 0, NegInf), s.(table := map[]))
  }

  /** getMove on a position with a last move, given the result `p` of the
      deepening loop over the generated moves with a fresh table. */
  lemma GetMoveSearch(c: Ctx, c1: Ctx, b: Board, timelimit: int, s: St, s2: St, p: Pick)
    requires WellFormed(b) && ReorderOk(c) && StrictClock(c) && b.lastMove.Some?
    requires c1 == c.(deadline := c.clock(s.polls) + timelimit - 100) && ReorderOk(c1) && StrictClock(c1)
    requires s2 == s.(polls := s.polls + 1, table := map[])
    requires (GeneratedOnBoard(b, c.winner(b));
              p == Deepen(c1, b, Generated(b, c.winner(b)), 0, Move(0, 0, NegInf), s2))
    ensures GetMoveSpec(c, b, timelimit, s) == Finish(p)
  {
  }

  /** The first move of the game needs no search. */
  lemma FirstMoveCentre(c: Ctx, b: Board, timelimit: int, s: St)
    requires WellFormed(b) && ReorderOk(c) && StrictClock(c) && b.lastMove.None?
    ensures GetMoveSpec(c, b, timelimit, s).out == Done(Centre(b))
    ensures GetMoveSpec(c, b, timelimit, s).st == s.(polls := s.polls + 1)
  {
  }

  /** The root moves an iteration scored are exactly the generated moves. */
  lemma IterationPositions(c: Ctx, b: Board, ms: seq<Move>, limit: nat, s: St)
    requires WellFormed(b) && ReorderOk(c) && AllOnBoard(b, ms)
    requires Iteration(c, b, ms, limit, s).out.Done?
    ensures Positions(Iteration(c, b, ms, limit, s).out.value) == Positions(ms)
    ensures AllOnBoard(b, Iteration(c, b, ms, limit, s).out.value)
    ensures |Iteration(c, b, ms, limit, s).out.value| > 0
  {
    var s1 := s.(queued := true);
    var order := ChildOrder(c, b, ms, c.player, s1.table).value;
    ChildOrderPositions(c, b, ms, c.player, s1.table);
    var scored := ScoreFrom(c, b, order, 0, limit, [], s1).out.value;
    assert |scored| == |order| && forall k :: 0 <= k < |order| ==> scored[k].Pos() == order[k].Pos();
    SamePositions(scored, order);
  }

  lemma SamePositions(xs: seq<Move>, ys: seq<Move>)
    requires |xs| == |ys| && forall k :: 0 <= k < |xs| ==> xs[k].Pos() == ys[k].Pos()
    ensures Positions(xs) == Positions(ys)
  {
    forall p | p in Positions(xs)
      ensures p in Positions(ys)
    {
      var m :| m in xs && m.Pos() == p;
      var k :| 0 <= k < |xs| && xs[k] == m;
      assert ys[k] in ys;
    }
    forall p | p in Positions(ys)
      ensures p in Positions(xs)
    {
      var m :| m in ys && m.Pos() == p;
      var k :| 0 <= k < |ys| && ys[k] == m;
      assert xs[k] in xs;
    }
  }

  /** A completed root loop is, after its first move is searched and
      rescored, the root loop over the remaining moves. */
  lemma ScoreFromStep(c: Ctx, b: Board, order: seq<Move>, i: nat, limit: nat, acc: seq<Move>, s: St)
    requires WellFormed(b) && ReorderOk(c) && AllOnBoard(b, order) && i < |order|
    requires ScoreFrom(c, b, order, i, limit, acc, s).out.Done?
    ensures var r := Node(c, MinSide, Child(b, order[i], c.player), 1, limit, NegInf, PosInf, s);
      && r.out.Done?
      && ScoreFrom(c, b, order, i, limit, acc, s)
         == ScoreFrom(c, b, order, i + 1, limit, acc + [order[i].SetScore(r.out.value)], r.st)
  {
  }

  /** When none of the readings the root loop takes is past the deadline,
      its first move is scored with the minimax value of its child. */
  lemma ScoreFromHead(c: Ctx, b: Board, order: seq<Move>, i: nat, limit: nat, acc: seq<Move>, s: St)
    requires WellFormed(b) && ReorderOk(c) && AllOnBoard(b, order) && i < |order|
    requires NoDeadline(c, s.polls, ScoreFrom(c, b, order, i, limit, acc, s).st.polls)
    requires ScoreFrom(c, b, order, i, limit, acc, s).out.Done?
    ensures ScoreFrom(c, b, order, i, limit, acc, s).out.value[|acc|].score
        == Minimax(c, MinSide, Child(b, order[i], c.player), 1, limit)
  {
    var r := Node(c, MinSide, Child(b, order[i], c.player), 1, limit, NegInf, PosInf, s);
    var whole := ScoreFrom(c, b, order, i, limit, acc, s);
    ScoreFromStep(c, b, order, i, limit, acc, s);
    var acc' := acc + [order[i].SetScore(r.out.value)];
    var rest := ScoreFrom(c, b, order, i + 1, limit, acc', r.st);
    NoDeadlineWithin(c, s.polls, whole.st.polls, s.polls, r.st.polls);
    PrunedEqualsMinimax(c, MinSide, Child(b, order[i], c.player), 1, limit, s);
    assert rest.out.value[|acc|] == acc'[|acc|];
  }

  /** The rest of a root loop that takes no reading past the deadline takes
      none either. */
  lemma ScoreFromTail(c: Ctx, b: Board, order: seq<Move>, i: nat, limit: nat, acc: seq<Move>, s: St)
    requires WellFormed(b) && ReorderOk(c) && AllOnBoard(b, order) && i < |order|
    requires NoDeadline(c, s.polls, ScoreFrom(c, b, order, i, limit, acc, s).st.polls)
    requires ScoreFrom(c, b, order, i, limit, acc, s).out.Done?
    ensures var r := Node(c, MinSide, Child(b, order[i], c.player), 1, limit, NegInf, PosInf, s);
      && r.out.Done?
      && NoDeadline(c, r.st.polls, ScoreFrom(c, b, order, i + 1, limit, acc + [order[i].SetScore(r.out.value)], r.st).st.polls)
  {
    var r := Node(c, MinSide, Child(b, order[i], c.player), 1, limit, NegInf, PosInf, s);
    var whole := ScoreFrom(c, b, order, i, limit, acc, s);
    ScoreFromStep(c, b, order, i, limit, acc, s);
    var rest := ScoreFrom(c, b, order, i + 1, limit, acc + [order[i].SetScore(r.out.value)], r.st);
    NoDeadlineWithin(c, s.polls, whole.st.polls, r.st.polls, rest.st.polls);
  }

  /** When none of the readings the root loop takes is past the deadline,
      the move at position `k` is scored with the minimax value of its
      child. */
  lemma {:induction false} ScoreFromAt(c: Ctx, b: Board, order: seq<Move>, i: nat, limit: nat, acc: seq<Move>, s: St, k: nat)
    requires WellFormed(b) && ReorderOk(c) && AllOnBoard(b, order) && i <= k < |order|
    requires NoDeadline(c, s.polls, ScoreFrom(c, b, order, i, limit, acc, s).st.polls)
    requires ScoreFrom(c, b, order, i, limit, acc, s).out.Done?
    ensures ScoreFrom(c, b, order, i, limit, acc, s).out.value[|acc| + k - i].score
         == Minimax(c, MinSide, Child(b, order[k], c.player), 1, limit)
    decreases k - i
  {
    if i == k {
      ScoreFromHead(c, b, order, i, limit, acc, s);
    } else {
      var r := Node(c, MinSide, Child(b, order[i], c.player), 1, limit, NegInf, PosInf, s);
      ScoreFromTail(c, b, order, i, limit, acc, s);
      ScoreFromShift(c, b, order, i, limit, acc, s, k);
      var acc' := acc + [order[i].SetScore(r.out.value)];
      ScoreFromAt(c, b, order, i + 1, limit, acc', r.st, k);
    }
  }

  /** The move at position `k` of a completed root loop is the one at the
      same position of the loop over the remaining moves. */
  lemma ScoreFromShift(c: Ctx, b: Board, order: seq<Move>, i: nat, limit: nat, acc: seq<Move>, s: St, k: nat)
    requires WellFormed(b) && ReorderOk(c) && AllOnBoard(b, order) && i < k < |order|
    requires ScoreFrom(c, b, order, i, limit, acc, s).out.Done?
    ensures var r := Node(c, MinSide, Child(b, order[i], c.player), 1, limit, NegInf, PosInf, s);
      var acc' := acc + [order[i].SetScore(r.out.value)];
      && r.out.Done?
      && ScoreFrom(c, b, order, i + 1, limit, acc', r.st).out.Done?
      && ScoreFrom(c, b, order, i, limit, acc, s).out.value[|acc| + k - i]
         == ScoreFrom(c, b, order, i + 1, limit, acc', r.st).out.value[|acc'| + k - (i + 1)]
  {
    ScoreFromStep(c, b, order, i, limit, acc, s);
  }

  /** When none of the readings the root loop takes is past the deadline,
      the loop gives every move the minimax value of its child. */
  lemma ScoreFromExact(c: Ctx, b: Board, order: seq<Move>, i: nat, limit: nat, acc: seq<Move>, s: St)
    requires WellFormed(b) && ReorderOk(c) && AllOnBoard(b, order) && i <= |order|
    requires NoDeadline(c, s.polls, ScoreFrom(c, b, order, i, limit, acc, s).st.polls)
    requires ScoreFrom(c, b, order, i, limit, acc, s).out.Done?
    ensures forall k :: i <= k < |order| ==>
      ScoreFrom(c, b, order, i, limit, acc, s).out.value[|acc| + k - i].score
        == Minimax(c, MinSide, Child(b, order[k], c.player), 1, limit)
  {
    forall k | i <= k < |order|
      ensures ScoreFrom(c, b, order, i, limit, acc, s).out.value[|acc| + k - i].score
           == Minimax(c, MinSide, Child(b, order[k], c.player), 1, limit)
    {
      ScoreFromAt(c, b, order, i, limit, acc, s, k);
    }
  }

  /** When none of the readings the iteration takes is past the deadline,
      every root move of an iteration is scored with the
      depth-limited minimax value of the position after the AI plays it. */
  lemma IterationExact(c: Ctx, b: Board, ms: seq<Move>, limit: nat, s: St)
    requires WellFormed(b) && ReorderOk(c) && AllOnBoard(b, ms)
    requires NoDeadline(c, s.polls, Iteration(c, b, ms, limit, s).st.polls)
    requires Iteration(c, b, ms, limit, s).out.Done?
    ensures var scored := Iteration(c, b, ms, limit, s).out.value;
      && AllOnBoard(b, scored)
      && Positions(scored) == Positions(ms)
      && forall k :: 0 <= k < |scored| ==>
           scored[k].score == Minimax(c, MinSide, PlacePiece(b, scored[k].Pos(), c.player), 1, limit)
  {
    IterationPositions(c, b, ms, limit, s);
    var s1 := s.(queued := true);
    var order := ChildOrder(c, b, ms, c.player, s1.table).value;
    ScoreFromExact(c, b, order, 0, limit, [], s1);
    var scored := Iteration(c, b, ms, limit, s).out.value;
    forall k | 0 <= k < |scored|
      ensures scored[k].score == Minimax(c, MinSide, PlacePiece(b, scored[k].Pos(), c.player), 1, limit)
    {
      assert scored[k] == ScoreFrom(c, b, order, 0, limit, [], s1).out.value[k];
      assert scored[k].Pos() == order[k].Pos();
    }
  }

  /** PickBest over root moves scored with their children's minimax values
      yields the better of the old best score and the root's value. */
  lemma PickBestRoot(c: Ctx, b: Board, xs: seq<Move>, limit: nat, best: Move)
    requires WellFormed(b) && AllOnBoard(b, xs) && 0 < limit
    requires forall k :: 0 <= k < |xs| ==> xs[k].score == Value(c, MaxSide, b, xs[k].Pos(), 0, limit)
    ensures PickBest(best, xs).score == Max(best.score, BestFrom(c, MaxSide, b, xs, 0, 0, limit))
  {
    var root := BestFrom(c, MaxSide, b, xs, 0, 0, limit);
    var r := PickBest(best, xs);
    if |xs| > 0 {
      BestPrefersAll(c, MaxSide, b, xs, 0, 0, limit);
      BestAttained(c, MaxSide, b, xs, 0, 0, limit);
      var k :| 0 <= k < |xs| && root == Value(c, MaxSide, b, xs[k].Pos(), 0, limit);
      assert Le(root, r.score);
      assert Le(r.score, Max(best.score, root));
      LeAntisymmetric(r.score, Max(best.score, root));
    }
  }

  /** When none of the readings the iteration takes is past the deadline
      and the game is still on, an iteration raises the best
      score to the root's minimax value: the best of the moves it searched
      at depth limit `limit`, or the previous best if that is higher. */
  lemma IterationValue(c: Ctx, b: Board, limit: nat, best: Move, s: St)
    requires WellFormed(b) && ReorderOk(c) && 0 < limit
    requires c.winner(b) == NotGameOver
    requires (GeneratedOnBoard(b, NotGameOver);
              NoDeadline(c, s.polls, Iteration(c, b, Generated(b, NotGameOver), limit, s).st.polls))
    requires (GeneratedOnBoard(b, NotGameOver); Iteration(c, b, Generated(b, NotGameOver), limit, s).out.Done?)
    ensures (GeneratedOnBoard(b, NotGameOver);
             PickBest(best, Iteration(c, b, Generated(b, NotGameOver), limit, s).out.value).score
               == Max(best.score, Minimax(c, MaxSide, b, 0, limit)))
  {
    var ms := Generated(b, NotGameOver);
    GeneratedOnBoard(b, NotGameOver);
    var scored := Iteration(c, b, ms, limit, s).out.value;
    IterationExact(c, b, ms, limit, s);
    assert Minimax(c, MaxSide, b, 0, limit) == BestFrom(c, MaxSide, b, ms, 0, 0, limit);
    BestOrderIndependent(c, MaxSide, b, scored, ms, 0, limit);
    forall k | 0 <= k < |scored|
      ensures scored[k].score == Value(c, MaxSide, b, scored[k].Pos(), 0, limit)
    {
    }
    PickBestRoot(c, b, scored, limit, best);
  }

  /** The move kept by the deepening loop: once an iteration has run it is
      one of the generated moves. */
  lemma {:induction false} DeepenPicksGenerated(c: Ctx, b: Board, ms: seq<Move>, limit: nat, best: Move, s: St)
    requires WellFormed(b) && ReorderOk(c) && StrictClock(c) && AllOnBoard(b, ms)
    requires best.score == NegInf || best.Pos() in Positions(ms)
    requires Deepen(c, b, ms, limit, best, s).out.Done?
    ensures var m := Deepen(c, b, ms, limit, best, s).out.value;
      m == best || m.Pos() in Positions(ms)
    ensures c.clock(s.polls) < c.deadline ==> Deepen(c, b, ms, limit, best, s).out.value.Pos() in Positions(ms)
    decreases c.deadline - c.clock(s.polls)
  {
    var now := c.clock(s.polls);
    var s1 := s.(polls := s.polls + 1);
    if now < c.deadline {
      var r := Iteration(c, b, ms, limit, s1);
      var scored := r.out.value;
      IterationPositions(c, b, ms, limit, s1);
      var next := PickBest(best, scored);
      PickBestTakesRoot(best, scored);
      if best.score == NegInf {
        assert Le(best.score, scored[0].score);
      }
      assert next in scored || next == best;
      if next in scored {
        assert next.Pos() in Positions(scored);
      }
      assert Later(c.clock, s.polls, r.st.polls);
      DeepenPicksGenerated(c, b, ms, limit + 1, next, r.st);
    }
  }

  /** Once the first test of the loop condition passes, the root search
      settles on a generated move. */
  lemma RootSearchPicksGenerated(c: Ctx, b: Board, s: St)
    requires WellFormed(b) && ReorderOk(c) && StrictClock(c)
    requires c.clock(s.polls) < c.deadline && RootSearch(c, b, s).out.Done?
    ensures var p := RootSearch(c, b, s).out.value.Pos();
      OnBoard(b, p.x, p.y) && Space(b, p.x, p.y) == Empty && p in Positions(Generated(b, c.winner(b)))
  {
    var ms := Generated(b, c.winner(b));
    GeneratedOnBoard(b, c.winner(b));
    DeepenPicksGenerated(c, b, ms, 0, Move(0, 0, NegInf), s.(table := map[]));
    var p := RootSearch(c, b, s).out.value.Pos();
    assert p in Positions(ms);
    var q :| q in ms && q.Pos() == p;
    var k :| 0 <= k < |ms| && ms[k] == q;
    assert OnBoard(b, ms[k].col, ms[k].row) && Space(b, ms[k].col, ms[k].row) == Empty;
  }

  /** Setting the deadline keeps the clock and the queue order. */
  lemma SetDeadline(c: Ctx, d: int)
    requires ReorderOk(c) && StrictClock(c)
    ensures ReorderOk(c.(deadline := d)) && StrictClock(c.(deadline := d))
  {
  }

  /** getMove's answer on a position with a last move: when the first test
      of the loop condition passes and nothing raises, an empty on-board
      cell from the generated list. */
  lemma GetMoveLegal(c: Ctx, b: Board, timelimit: int, s: St)
    requires WellFormed(b) && ReorderOk(c) && StrictClock(c) && b.lastMove.Some?
    requires c.clock(s.polls + 1) < c.clock(s.polls) + timelimit - 100
    requires GetMoveSpec(c, b, timelimit, s).out.Done?
    ensures var p := GetMoveSpec(c, b, timelimit, s).out.value;
      OnBoard(b, p.x, p.y) && Space(b, p.x, p.y) == Empty && p in Positions(Generated(b, c.winner(b)))
  {
    var d := c.clock(s.polls) + timelimit - 100;
    var c1 := c.(deadline := d);
    var s1 := s.(polls := s.polls + 1);
    SetDeadline(c, d);
    var p := RootSearch(c1, b, s1);
    assert GetMoveSpec(c, b, timelimit, s) == Finish(p);
    assert c1.clock(s1.polls) < c1.deadline;
    RootSearchPicksGenerated(c1, b, s1);
  }

  /** The queue field is assigned only inside the loop: if the deadline has
      already passed at the first test and no earlier call ever ran an
      iteration, moveQueue.clear() raises. */
  lemma GetMoveNoQueue(c: Ctx, b: Board, timelimit: int, s: St)
    requires WellFormed(b) && ReorderOk(c) && StrictClock(c) && b.lastMove.Some? && !s.queued
    requires c.clock(s.polls + 1) >= c.clock(s.polls) + timelimit - 100
    ensures GetMoveSpec(c, b, timelimit, s).out == Crash(NoQueue)
  {
    var c1 := c.(deadline := c.clock(s.polls) + timelimit - 100);
    var s2 := s.(polls := s.polls + 1, table := map[]);
    var ms := Generated(b, c.winner(b));
    GeneratedOnBoard(b, c.winner(b));
    SetDeadline(c, c1.deadline);
    DeepenStop(c1, b, ms, 0, Move(0, 0, NegInf), s2);
    assert GetMoveSpec(c, b, timelimit, s) == Finish(Pick(Done(Move(0, 0, NegInf)), s2.(polls := s2.polls + 1)));
  }
}
