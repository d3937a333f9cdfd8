/** DrakenAI.java: the player object.  Its methods update the fields
    boardMap, testQui, moveDeadline and moveQueue as the search runs; each
    method is proved to compute exactly what the specification functions of
    the Evaluator, Search and Driver modules say, starting from the fields'
    values on entry.

    The clock is the sequence of readings `clock`, and `polls` counts the
    readings taken so far.  `queued` records whether moveQueue has ever been
    assigned.  The shared depth counter is passed as an argument (see the
    Search module). */
module DrakenPlayer {
  import opened Scores
  import opened Boards
  import opened Moves
  import opened MoveGen
  import opened Evaluator
  import opened Search
  import opened Driver

  class DrakenAI {
    const player: int
    const enemy: int
    /** BoardModel.winner(). */
    const winner: Board -> int
    /** The n-th value of System.currentTimeMillis(). */
    const clock: nat -> int
    /** The order in which a PriorityQueue with MoveComparator hands out moves. */
    const reorder: seq<Move> -> seq<Move>

    var moveDeadline: int
    var testQui: bool
    var boardMap: map<Grid, Score>
    var polls: nat
    var queued: bool

    /** What the search reads but never changes. */
    function Context(): Ctx
      reads this`moveDeadline
    {
      Ctx(player, enemy, winner, clock, moveDeadline, reorder)
    }

    /** The fields the search changes. */
    function State(): St
      reads this`boardMap, this`polls, this`testQui, this`queued
    {
      St(boardMap, polls, testQui, queued)
    }

    /** DrakenAI(player, state): the enemy is the other player; the table
        and the queue do not exist yet. */
    constructor (player: int, winner: Board -> int, clock: nat -> int, reorder: seq<Move> -> seq<Move>)
      ensures this.player == player && enemy == Other(player) && enemy != player
      ensures this.winner == winner && this.clock == clock && this.reorder == reorder
      ensures moveDeadline == 0 && State() == St(map[], 0, false, false)
    {
      this.player := player;
      this.enemy := if player == 1 then 2 else 1;
      this.winner := winner;
      this.clock := clock;
      this.reorder := reorder;
      moveDeadline := 0;
      testQui := false;
      boardMap := map[];
      polls := 0;
      queued := false;
    }

    /** System.currentTimeMillis(). */
    method ReadClock() returns (t: int)
      modifies this`polls
      ensures t == clock(old(polls)) && polls == old(polls) + 1
    {
      t := clock(polls);
      polls := polls + 1;
    }

    /** evalLine(p, pCount, eCount, pScore): a one-sided line adds its
        weight and runs the quiescence test. */
    method EvalLine(p: int, pCount: int, eCount: int, pScore: int, kLength: int) returns (r: int)
      modifies this`testQui
      ensures Line(r, testQui) == Evaluator.EvalLine(p, pCount, eCount, pScore, old(testQui), enemy, kLength)
    {
      r := pScore;
      if pCount > 0 && eCount == 0 {
        r := pScore + ApplyWeight(kLength, pCount);
        testQui := Quiescence(testQui, p, pCount, enemy, kLength);
      }
    }

    /** One of the four double loops of eval: every window of direction `d`
        is counted and passed to evalLine for both sides. */
    method ScanLines(b: Board, d: Dir, p1: int, p2: int, s1In: int, s2In: int) returns (s1: int, s2: int)
      requires WellFormed(b) && p1 != p2
      modifies this`testQui
      ensures Tally(s1, s2, testQui) == ScanDir(b, d, p1, p2, enemy, Tally(s1In, s2In, old(testQui)))
    {
      ghost var goal := ScanDir(b, d, p1, p2, enemy, Tally(s1In, s2In, testQui));
      s1, s2 := s1In, s2In;
      var i := ILo(b, d);
      while i < IHi(b, d)
        invariant ILo(b, d) <= i
        invariant ScanFrom(b, d, i, 0, p1, p2, enemy, Tally(s1, s2, testQui)) == goal
        decreases IHi(b, d) - i
      {
        var j := 0;
        while j < JHi(b, d)
          invariant 0 <= j
          invariant ScanFrom(b, d, i, j, p1, p2, enemy, Tally(s1, s2, testQui)) == goal
          decreases JHi(b, d) - j
        {
          var p1Count, p2Count := CountWindow(b, d, i, j, p1, p2);
          s1 := EvalLine(p1, p1Count, p2Count, s1, b.kLength);
          s2 := EvalLine(p2, p2Count, p1Count, s2, b.kLength);
          j := j + 1;
        }
        i := i + 1;
      }
    }

    /** eval(state, p1): infinite for a decided game, otherwise p1's line
        total minus p2's; testQui is cleared and recomputed by the scans. */
    method Eval(b: Board, p1: int) returns (score: Score)
      requires WellFormed(b)
      modifies this`testQui
      ensures score == EvalScore(b, winner(b), player, enemy, p1)
      ensures testQui == EvalQui(b, winner(b), player, enemy, p1, old(testQui))
    {
      var w := winner(b);
      if w == player {
        return PosInf;
      } else if w == enemy {
        return NegInf;
      }
      var p2 := Other(p1);
      testQui := false;
      var s1, s2 := ScanLines(b, Horizontal, p1, p2, 0, 0);
      s1, s2 := ScanLines(b, Vertical, p1, p2, s1, s2);
      s1, s2 := ScanLines(b, Rising, p1, p2, s1, s2);
      s1, s2 := ScanLines(b, Falling, p1, p2, s1, s2);
      return Fin(s1 - s2);
    }

    /** The loop that fills the priority queue: every move rescored with its
        child's table value; a missing value is the NullPointerException of
        unboxing null. */
    method BuildQueue(b: Board, moves: seq<Move>, mover: int) returns (q: Option<seq<Move>>)
      requires WellFormed(b) && AllOnBoard(b, moves)
      ensures q == CachedMoves(boardMap, b, moves, mover)
    {
      var acc: seq<Move> := [];
      var i := 0;
      while i < |moves|
        invariant 0 <= i <= |moves|
        invariant AllOnBoard(b, moves[..i])
        invariant CachedMoves(boardMap, b, moves[..i], mover) == Some(acc)
      {
        var child := Child(b, moves[i], mover);
        if child.pieces !in boardMap {
          return None;
        }
        assert moves[..i + 1][..i] == moves[..i];
        acc := acc + [FromPoint(moves[i].Pos(), boardMap[child.pieces])];
        i := i + 1;
      }
      assert moves[..i] == moves;
      return Some(acc);
    }

    /** The choice between the natural order of `moves` and the queue order,
        made on whether the first child is already in boardMap. */
    method OrderChildren(b: Board, moves: seq<Move>, mover: int) returns (r: Outcome<seq<Move>>)
      requires WellFormed(b) && AllOnBoard(b, moves) && ReorderOk(Context())
      ensures r == ChildOrder(Context(), b, moves, mover, boardMap)
    {
      if |moves| == 0 {
        return Crash(NoMoves);
      }
      if Child(b, moves[0], mover).pieces !in boardMap {
        return Done(moves);
      }
      var q := BuildQueue(b, moves, mover);
      if q.None? {
        return Crash(MissingEntry);
      }
      return Done(reorder(q.value));
    }

    /** minMove(state, depthLimit, alpha, beta), entered with the depth
        counter already incremented to `depth`: a leaf is evaluated and
        stored, an inner node searched with the enemy to move. */
    method MinMove(b: Board, depth: nat, limit: nat, alpha: Score, beta: Score) returns (r: Outcome<Score>)
      requires WellFormed(b) && ReorderOk(Context())
      modifies this`boardMap, this`polls, this`testQui
      ensures Res(r, State()) == Node(Context(), MinSide, b, depth, limit, alpha, beta, old(State()))
      decreases limit - depth, 2
    {
      ghost var c := Context();
      ghost var s := State();
      var now := ReadClock();
      ghost var s1 := State();
      assert s1 == s.(polls := s.polls + 1);
      var w := winner(b);
      if now > moveDeadline || depth >= limit || w != NotGameOver {
        assert IsLeaf(c, b, depth, limit, s);
        r := StoreEval(b);
        assert Res(r, State()) == Leaf(c, b, s1);
      } else {
        assert !IsLeaf(c, b, depth, limit, s);
        r := Expand(MinSide, b, w, depth, limit, alpha, beta);
        assert Res(r, State()) == Inner(c, MinSide, b, depth, limit, alpha, beta, s1);
      }
      assert Res(r, State()) == Node(c, MinSide, b, depth, limit, alpha, beta, s);
      assert c == Context();
    }

    /** maxMove(state, depthLimit, alpha, beta): as minMove, with the AI to
        move at an inner node. */
    method MaxMove(b: Board, depth: nat, limit: nat, alpha: Score, beta: Score) returns (r: Outcome<Score>)
      requires WellFormed(b) && ReorderOk(Context())
      modifies this`boardMap, this`polls, this`testQui
      ensures Res(r, State()) == Node(Context(), MaxSide, b, depth, limit, alpha, beta, old(State()))
      decreases limit - depth, 2
    {
      ghost var c := Context();
      ghost var s := State();
      var now := ReadClock();
      ghost var s1 := State();
      assert s1 == s.(polls := s.polls + 1);
      var w := winner(b);
      if now > moveDeadline || depth >= limit || w != NotGameOver {
        assert IsLeaf(c, b, depth, limit, s);
        r := StoreEval(b);
        assert Res(r, State()) == Leaf(c, b, s1);
      } else {
        assert !IsLeaf(c, b, depth, limit, s);
        r := Expand(MaxSide, b, w, depth, limit, alpha, beta);
        assert Res(r, State()) == Inner(c, MaxSide, b, depth, limit, alpha, beta, s1);
      }
      assert Res(r, State()) == Node(c, MaxSide, b, depth, limit, alpha, beta, s);
      assert c == Context();
    }

    /** The leaf case of both methods: eval(state, player), stored in
        boardMap under the position. */
    method StoreEval(b: Board) returns (r: Outcome<Score>)
      requires WellFormed(b)
      modifies this`boardMap, this`testQui
      ensures Res(r, State()) == Leaf(Context(), b, old(State()))
    {
      var e := Eval(b, player);
      boardMap := boardMap[b.pieces := e];
      return Done(e);
    }

    /** The inner case of both methods, after the clock was read: generate
        the moves, choose the order, and run the loop of the side. */
    method Expand(side: Side, b: Board, w: int, depth: nat, limit: nat, alpha: Score, beta: Score)
      returns (r: Outcome<Score>)
      requires WellFormed(b) && ReorderOk(Context()) && w == winner(b) && depth < limit
      modifies this`boardMap, this`polls, this`testQui
      ensures Res(r, State()) == Inner(Context(), side, b, depth, limit, alpha, beta, old(State()))
      decreases limit - depth, 1
    {
      var moves := GenerateMoves(b, w);
      GeneratedOnBoard(b, w);
      var order := OrderChildren(b, moves, Mover(Context(), side));
      if order.Crash? {
        return Crash(order.fault);
      }
      if side == MinSide {
        r := MinLoop(b, order.value, depth, limit, alpha, beta);
      } else {
        r := MaxLoop(b, order.value, depth, limit, alpha, beta);
      }
    }

    /** minMove's loop over the children: each is searched by maxMove; a
        lower value becomes bestScore and beta, and the loop stops once
        alpha >= beta.  bestScore is then stored under the position. */
    method MinLoop(b: Board, children: seq<Move>, depth: nat, limit: nat, alpha: Score, beta: Score)
      returns (r: Outcome<Score>)
      requires WellFormed(b) && ReorderOk(Context()) && AllOnBoard(b, children) && depth < limit
      modifies this`boardMap, this`polls, this`testQui
      ensures Res(r, State()) == Loop(Context(), MinSide, b, children, 0, depth, limit, alpha, beta, PosInf, old(State()))
      decreases limit - depth, 0
    {
      ghost var c := Context();
      ghost var goal := Loop(c, MinSide, b, children, 0, depth, limit, alpha, beta, PosInf, State());
      var bestScore := PosInf;
      var beta' := beta;
      var i := 0;
      ghost var pruned := false;
      while i < |children|
        invariant 0 <= i <= |children| && !pruned
        invariant Loop(c, MinSide, b, children, i, depth, limit, alpha, beta', bestScore, State()) == goal
        decreases |children| - i
      {
        ghost var s0 := State();
        var v := MaxMove(Child(b, children[i], enemy), depth + 1, limit, alpha, beta');
        MinTurn(c, b, children, i, depth, limit, alpha, beta', bestScore, s0, Res(v, State()));
        if v.Crash? {
          return v;
        }
        if Lt(v.value, bestScore) {
          bestScore := v.value;
          beta' := bestScore;
          if Le(beta', alpha) {
            pruned := true;
            break;
          }
        }
        i := i + 1;
      }
      if !pruned {
        LoopEnd(c, MinSide, b, children, depth, limit, alpha, beta', bestScore, State());
      }
      boardMap := boardMap[b.pieces := bestScore];
      return Done(bestScore);
    }

    /** maxMove's loop: the mirror image, raising bestScore and alpha. */
    method MaxLoop(b: Board, children: seq<Move>, depth: nat, limit: nat, alpha: Score, beta: Score)
      returns (r: Outcome<Score>)
      requires WellFormed(b) && ReorderOk(Context()) && AllOnBoard(b, children) && depth < limit
      modifies this`boardMap, this`polls, this`testQui
      ensures Res(r, State()) == Loop(Context(), MaxSide, b, children, 0, depth, limit, alpha, beta, NegInf, old(State()))
      decreases limit - depth, 0
    {
      ghost var c := Context();
      ghost var goal := Loop(c, MaxSide, b, children, 0, depth, limit, alpha, beta, NegInf, State());
      var bestScore := NegInf;
      var alpha' := alpha;
      var i := 0;
      ghost var pruned := false;
      while i < |children|
        invariant 0 <= i <= |children| && !pruned
        invariant Loop(c, MaxSide, b, children, i, depth, limit, alpha', beta, bestScore, State()) == goal
        decreases |children| - i
      {
        ghost var s0 := State();
        var v := MinMove(Child(b, children[i], player), depth + 1, limit, alpha', beta);
        MaxTurn(c, b, children, i, depth, limit, alpha', beta, bestScore, s0, Res(v, State()));
        if v.Crash? {
          return v;
        }
        if Lt(bestScore, v.value) {
          bestScore := v.value;
          alpha' := bestScore;
          if Le(beta, alpha') {
            pruned := true;
            break;
          }
        }
        i := i + 1;
      }
      if !pruned {
        LoopEnd(c, MaxSide, b, children, depth, limit, alpha', beta, bestScore, State());
      }
      boardMap := boardMap[b.pieces := bestScore];
      return Done(bestScore);
    }

    /** The body of getMove's deepening loop: a fresh queue, the root
        children in natural or queue order, each scored by minMove with the
        full window, and bestMove replaced by any move scoring at least as
        high. */
    method SearchRoots(b: Board, moves: seq<Move>, limit: nat, bestIn: Move) returns (r: Outcome<Move>)
      requires WellFormed(b) && AllOnBoard(b, moves) && ReorderOk(Context())
      modifies this`boardMap, this`polls, this`testQui, this`queued
      ensures State() == Iteration(Context(), b, moves, limit, old(State())).st
      ensures r.Crash? <==> Iteration(Context(), b, moves, limit, old(State())).out.Crash?
      ensures r.Crash? ==> r.fault == Iteration(Context(), b, moves, limit, old(State())).out.fault
      ensures r.Done? ==> r.value == PickBest(bestIn, Iteration(Context(), b, moves, limit, old(State())).out.value)
    {
      ghost var c := Context();
      ghost var goal := Iteration(c, b, moves, limit, State());
      queued := true;
      var order := OrderChildren(b, moves, player);
      if order.Crash? {
        return Crash(order.fault);
      }
      var children := order.value;
      var best := bestIn;
      ghost var acc: seq<Move> := [];
      var i := 0;
      while i < |children|
        invariant 0 <= i <= |children|
        invariant ScoreFrom(c, b, children, i, limit, acc, State()) == goal
        invariant best == PickBest(bestIn, acc)
        decreases |children| - i
      {
        var v := MinMove(Child(b, children[i], player), 1, limit, NegInf, PosInf);
        if v.Crash? {
          return Crash(v.fault);
        }
        var move := children[i].SetScore(v.value);
        assert (acc + [move])[..|acc|] == acc;
        acc := acc + [move];
        if Le(best.score, move.score) {
          best := move;
        }
        i := i + 1;
      }
      return Done(best);
    }

    /** getMove(state): getMove with the default time limit of 5000 ms. */
    method GetMoveDefault(b: Board) returns (r: Outcome<Point>)
      requires WellFormed(b) && ReorderOk(Context()) && StrictClock(Context())
      modifies this`moveDeadline, this`boardMap, this`polls, this`testQui, this`queued
      ensures Answer(r, State()) == GetMoveSpec(old(Context()), b, 5000, old(State()))
      ensures moveDeadline == clock(old(polls)) + 4900
    {
      r := GetMove(b, 5000);
    }

    /** getMove(state, timelimit): set the deadline, answer the opening
        move at once, and otherwise search the generated moves with a fresh
        table until the deadline. */
    method GetMove(b: Board, timelimit: int) returns (r: Outcome<Point>)
      requires WellFormed(b) && ReorderOk(Context()) && StrictClock(Context())
      modifies this`moveDeadline, this`boardMap, this`polls, this`testQui, this`queued
      ensures Answer(r, State()) == GetMoveSpec(old(Context()), b, timelimit, old(State()))
      ensures moveDeadline == clock(old(polls)) + timelimit - 100
    {
      ghost var c0 := Context();
      ghost var s0 := State();
      var now := ReadClock();
      moveDeadline := now + timelimit - 100;
      ghost var c1 := Context();
      assert c1 == c0.(deadline := c0.clock(s0.polls) + timelimit - 100);
      SetDeadline(c0, moveDeadline);
      if b.lastMove.None? {
        FirstMoveCentre(c0, b, timelimit, s0);
        assert State() == s0.(polls := s0.polls + 1);
        return Done(Centre(b));
      }
      boardMap := map[];
      ghost var s2 := State();
      assert s2 == s0.(polls := s0.polls + 1, table := map[]);
      var moves := GenerateMoves(b, winner(b));
      GeneratedOnBoard(b, winner(b));
      var best := Deepening(b, moves);
      GetMoveSearch(c0, c1, b, timelimit, s0, s2, Pick(best, State()));
      if best.Crash? {
        return Crash(best.fault);
      }
      if !queued {
        return Crash(NoQueue);
      }
      return Done(best.value.Pos());
    }

    /** getMove's deepening loop: the depth limit grows from 0 while the
        clock reads before the deadline; each pass searches all root moves
        and keeps the best move found so far. */
    method Deepening(b: Board, moves: seq<Move>) returns (r: Outcome<Move>)
      requires WellFormed(b) && AllOnBoard(b, moves) && ReorderOk(Context()) && StrictClock(Context())
      modifies this`boardMap, this`polls, this`testQui, this`queued
      ensures Pick(r, State()) == Deepen(Context(), b, moves, 0, Move(0, 0, NegInf), old(State()))
    {
      ghost var c := Context();
      ghost var goal := Deepen(c, b, moves, 0, Move(0, 0, NegInf), State());
      var bestMove := Move(0, 0, NegInf);
      var limit := 0;
      while true
        invariant Deepen(c, b, moves, limit, bestMove, State()) == goal
        decreases moveDeadline - clock(polls)
      {
        ghost var s0 := State();
        var t := ReadClock();
        if !(t < moveDeadline) {
          DeepenStop(c, b, moves, limit, bestMove, s0);
          return Done(bestMove);
        }
        ghost var s1 := State();
        assert s1 == s0.(polls := s0.polls + 1);
        assert c.clock(s0.polls) < c.deadline;
        var res := SearchRoots(b, moves, limit, bestMove);
        DeepenStep(c, b, moves, limit, bestMove, s0, Iteration(c, b, moves, limit, s1));
        if res.Crash? {
          return Crash(res.fault);
        }
        bestMove := res.value;
        limit := limit + 1;
      }
    }
  }
}
