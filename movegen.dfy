/** generateMoves: the legal next placements of a position. */
module MoveGen {
  import opened Scores
  import opened Boards
  import opened Moves

  /** Every generated move carries Integer.MIN_VALUE as its score. */
  const Unscored: Score := Fin(-2147483648)

  /** The first empty row of column `col` at or above `row`. */
  function LowestEmpty(b: Board, col: int, row: nat): (r: Option<nat>)
    requires WellFormed(b) && 0 <= col < b.width
    decreases b.height - row
  {
    if row >= b.height then None
    else if Space(b, col, row) == Empty then Some(row)
    else LowestEmpty(b, col, row + 1)
  }

  /** Gravity moves of the columns `col`, `col + 1`, ..., in that order. */
  function GravityFrom(b: Board, col: nat): seq<Move>
    requires WellFormed(b)
    decreases b.width - col
  {
    if col >= b.width then []
    else
      (match LowestEmpty(b, col, 0)
       case Some(r) => [Move(col, r, Unscored)]
       case None => [])
      + GravityFrom(b, col + 1)
  }

  /** Empty cells from (col, row) onwards in row-major order. */
  function FreeFrom(b: Board, row: nat, col: nat): seq<Move>
    requires WellFormed(b)
    decreases b.height - row, b.width - col
  {
    if row >= b.height then []
    else if col >= b.width then FreeFrom(b, row + 1, 0)
    else (if Space(b, col, row) == Empty then [Move(col, row, Unscored)] else [])
         + FreeFrom(b, row, col + 1)
  }

  /** What generateMoves returns for a board whose winner() is `w`. */
  function Generated(b: Board, w: int): seq<Move>
    requires WellFormed(b)
  {
    if w != NotGameOver then []
    else if b.gravity then GravityFrom(b, 0)
    else FreeFrom(b, 0, 0)
  }

  /** generateMoves(state), with `w` the value of state.winner(). */
  method GenerateMoves(b: Board, w: int) returns (ms: seq<Move>)
    requires WellFormed(b)
    ensures ms == Generated(b, w)
  {
    ms := [];
    if w != NotGameOver {
      return;
    }
    if b.gravity {
      var col := 0;
      while col < b.width
        invariant 0 <= col <= b.width
        invariant ms + GravityFrom(b, col) == GravityFrom(b, 0)
      {
        var row := 0;
        while row < b.height
          invariant 0 <= row <= b.height
          invariant LowestEmpty(b, col, row) == LowestEmpty(b, col, 0)
        {
          if Space(b, col, row) == Empty {
            break;
          }
          row := row + 1;
        }
        GravityStep(b, col, row, ms);
        if row < b.height {
          ms := ms + [Move(col, row, Unscored)];
        }
        col := col + 1;
      }
    } else {
      var row := 0;
      while row < b.height
        invariant 0 <= row <= b.height
        invariant ms + FreeFrom(b, row, 0) == FreeFrom(b, 0, 0)
      {
        var col := 0;
        while col < b.width
          invariant 0 <= col <= b.width
          invariant ms + FreeFrom(b, row, col) == FreeFrom(b, 0, 0)
        {
          FreeStep(b, row, col, ms);
          if Space(b, col, row) == Empty {
            ms := ms + [Move(col, row, Unscored)];
          }
          col := col + 1;
        }
        assert FreeFrom(b, row, b.width) == FreeFrom(b, row + 1, 0);
        row := row + 1;
      }
    }
  }

  /** One column of the gravity scan: the lowest empty row found, if any,
      is the next move. */
  lemma GravityStep(b: Board, col: nat, row: nat, ms: seq<Move>)
    requires WellFormed(b) && col < b.width && row <= b.height
    requires LowestEmpty(b, col, row) == LowestEmpty(b, col, 0)
    requires row < b.height ==> Space(b, col, row) == Empty
    requires ms + GravityFrom(b, col) == GravityFrom(b, 0)
    ensures (if row < b.height then ms + [Move(col, row, Unscored)] else ms) + GravityFrom(b, col + 1) == GravityFrom(b, 0)
  {
    var here := if row < b.height then [Move(col, row, Unscored)] else [];
    assert GravityFrom(b, col) == here + GravityFrom(b, col + 1);
    assert ms + here + GravityFrom(b, col + 1) == ms + (here + GravityFrom(b, col + 1));
  }

  /** One cell of the row-major scan. */
  lemma FreeStep(b: Board, row: nat, col: nat, ms: seq<Move>)
    requires WellFormed(b) && col < b.width && row < b.height
    requires ms + FreeFrom(b, row, col) == FreeFrom(b, 0, 0)
    ensures (if Space(b, col, row) == Empty then ms + [Move(col, row, Unscored)] else ms) + FreeFrom(b, row, col + 1)
         == FreeFrom(b, 0, 0)
  {
    var here := if Space(b, col, row) == Empty then [Move(col, row, Unscored)] else [];
    assert FreeFrom(b, row, col) == here + FreeFrom(b, row, col + 1);
    assert ms + here + FreeFrom(b, row, col + 1) == ms + (here + FreeFrom(b, row, col + 1));
  }

  /** Every generated move is an on-board cell. */
  predicate AllOnBoard(b: Board, ms: seq<Move>)
  {
    forall k :: 0 <= k < |ms| ==> OnBoard(b, ms[k].col, ms[k].row)
  }

  lemma {:induction false} LowestEmptySpec(b: Board, col: int, row: nat)
    requires WellFormed(b) && 0 <= col < b.width
    ensures match LowestEmpty(b, col, row)
            case Some(r) =>
              row <= r < b.height && Space(b, col, r) == Empty
              && forall q :: row <= q < r ==> Space(b, col, q) != Empty
            case None =>
              forall q :: row <= q < b.height ==> Space(b, col, q) != Empty
    decreases b.height - row
  {
    if row < b.height && Space(b, col, row) != Empty {
      LowestEmptySpec(b, col, row + 1);
    }
  }

  /** Column `c` still has an empty cell. */
  predicate HasRoom(b: Board, c: int)
    requires WellFormed(b) && 0 <= c < b.width
  {
    exists q :: 0 <= q < b.height && Space(b, c, q) == Empty
  }

  /** Some move of `ms` is in column `c`. */
  predicate Listed(ms: seq<Move>, c: int)
  {
    exists k :: 0 <= k < |ms| && ms[k].col == c
  }

  /** Each gravity move is the lowest empty cell of its column. */
  predicate LowestCells(b: Board, ms: seq<Move>)
    requires WellFormed(b)
  {
    forall k :: 0 <= k < |ms| ==>
      && OnBoard(b, ms[k].col, ms[k].row)
      && Space(b, ms[k].col, ms[k].row) == Empty
      && ms[k].score == Unscored
      && forall q :: 0 <= q < ms[k].row ==> Space(b, ms[k].col, q) != Empty
  }

  lemma {:induction false} GravityFromCells(b: Board, col: nat)
    requires WellFormed(b)
    ensures LowestCells(b, GravityFrom(b, col))
    ensures forall k :: 0 <= k < |GravityFrom(b, col)| ==> col <= GravityFrom(b, col)[k].col
    decreases b.width - col
  {
    if col < b.width {
      GravityFromCells(b, col + 1);
      LowestEmptySpec(b, col, 0);
    }
  }

  /** Strictly increasing columns. */
  predicate ColumnsAscending(ms: seq<Move>)
  {
    forall k, l :: 0 <= k < l < |ms| ==> ms[k].col < ms[l].col
  }

  lemma {:induction false} GravityFromAscending(b: Board, col: nat)
    requires WellFormed(b)
    ensures ColumnsAscending(GravityFrom(b, col))
    decreases b.width - col
  {
    if col < b.width {
      GravityFromAscending(b, col + 1);
      GravityFromCells(b, col + 1);
      var low := LowestEmpty(b, col, 0);
      var head := if low.Some? then [Move(col, low.value, Unscored)] else [];
      var rest := GravityFrom(b, col + 1);
      var ms := GravityFrom(b, col);
      assert ms == head + rest;
      forall k, l | 0 <= k < l < |ms|
        ensures ms[k].col < ms[l].col
      {
        assert ms[l] == rest[l - |head|];
        assert col + 1 <= rest[l - |head|].col;
        if k >= |head| {
          assert ms[k] == rest[k - |head|];
        } else {
          assert ms[k] == head[0];
        }
      }
    }
  }

  lemma {:induction false} GravityFromCovers(b: Board, col: nat)
    requires WellFormed(b)
    ensures var ms := GravityFrom(b, col);
      forall c :: col <= c < b.width ==> (HasRoom(b, c) <==> Listed(ms, c))
    decreases b.width - col
  {
    if col < b.width {
      GravityFromCovers(b, col + 1);
      GravityFromCells(b, col + 1);
      LowestEmptySpec(b, col, 0);
      var rest := GravityFrom(b, col + 1);
      var ms := GravityFrom(b, col);
      var head := match LowestEmpty(b, col, 0) case Some(r) => [Move(col, r, Unscored)] case None => [];
      assert ms == head + rest;
      forall c | col <= c < b.width
        ensures HasRoom(b, c) <==> Listed(ms, c)
      {
        if c == col {
          match LowestEmpty(b, col, 0)
          case Some(r) =>
            assert ms[0].col == c && Space(b, c, r) == Empty;
          case None =>
            assert ms == rest;
        } else {
          if Listed(rest, c) {
            var k :| 0 <= k < |rest| && rest[k].col == c;
            assert ms[k + |head|].col == c;
          }
          if Listed(ms, c) {
            var k :| 0 <= k < |ms| && ms[k].col == c;
            assert k >= |head| && rest[k - |head|].col == c;
          }
        }
      }
    }
  }

  /** `m` is at or after (col, row) in row-major order. */
  predicate AtOrAfter(m: Move, row: int, col: int)
  {
    row < m.row || (row == m.row && col <= m.col)
  }

  /** Every move of `ms` is an empty on-board cell at or after (col, row). */
  predicate EmptyCellsFrom(b: Board, ms: seq<Move>, row: int, col: int)
    requires WellFormed(b)
  {
    forall k :: 0 <= k < |ms| ==>
      && OnBoard(b, ms[k].col, ms[k].row)
      && Space(b, ms[k].col, ms[k].row) == Empty
      && ms[k].score == Unscored
      && AtOrAfter(ms[k], row, col)
  }

  /** No move of `ms` comes after a later one in row-major order. */
  predicate RowMajor(ms: seq<Move>)
  {
    forall k, l :: 0 <= k < l < |ms| ==> RowMajorBefore(ms[k], ms[l])
  }

  /** Every empty cell at or after (col, row) is in `ms`. */
  ghost predicate CoversFrom(b: Board, ms: seq<Move>, row: int, col: int)
    requires WellFormed(b)
  {
    forall c, r :: OnBoard(b, c, r) && Space(b, c, r) == Empty && AtOrAfter(Move(c, r, Unscored), row, col)
      ==> Move(c, r, Unscored) in ms
  }

  lemma {:induction false} FreeFromCells(b: Board, row: nat, col: nat)
    requires WellFormed(b)
    ensures EmptyCellsFrom(b, FreeFrom(b, row, col), row, col)
    decreases b.height - row, b.width - col
  {
    if row >= b.height {
    } else if col >= b.width {
      FreeFromCells(b, row + 1, 0);
    } else {
      FreeFromCells(b, row, col + 1);
      var head := if Space(b, col, row) == Empty then [Move(col, row, Unscored)] else [];
      var rest := FreeFrom(b, row, col + 1);
      var ms := FreeFrom(b, row, col);
      assert ms == head + rest;
      forall k | 0 <= k < |ms|
        ensures OnBoard(b, ms[k].col, ms[k].row) && Space(b, ms[k].col, ms[k].row) == Empty
        ensures ms[k].score == Unscored && AtOrAfter(ms[k], row, col)
      {
        if k >= |head| {
          assert ms[k] == rest[k - |head|];
        }
      }
    }
  }

  lemma {:induction false} FreeFromOrdered(b: Board, row: nat, col: nat)
    requires WellFormed(b)
    ensures RowMajor(FreeFrom(b, row, col))
    decreases b.height - row, b.width - col
  {
    if row >= b.height {
    } else if col >= b.width {
      FreeFromOrdered(b, row + 1, 0);
    } else {
      FreeFromOrdered(b, row, col + 1);
      FreeFromCells(b, row, col + 1);
      var head := if Space(b, col, row) == Empty then [Move(col, row, Unscored)] else [];
      var rest := FreeFrom(b, row, col + 1);
      var ms := FreeFrom(b, row, col);
      assert ms == head + rest;
      forall k, l | 0 <= k < l < |ms|
        ensures RowMajorBefore(ms[k], ms[l])
      {
        assert ms[l] == rest[l - |head|];
        if k >= |head| {
          assert ms[k] == rest[k - |head|];
        }
      }
    }
  }

  lemma {:induction false} FreeFromComplete(b: Board, row: nat, col: nat)
    requires WellFormed(b)
    ensures CoversFrom(b, FreeFrom(b, row, col), row, col)
    decreases b.height - row, b.width - col
  {
    if row >= b.height {
    } else if col >= b.width {
      FreeFromComplete(b, row + 1, 0);
    } else {
      FreeFromComplete(b, row, col + 1);
      var head := if Space(b, col, row) == Empty then [Move(col, row, Unscored)] else [];
      var rest := FreeFrom(b, row, col + 1);
      var ms := FreeFrom(b, row, col);
      assert ms == head + rest;
      forall c, r | OnBoard(b, c, r) && Space(b, c, r) == Empty && AtOrAfter(Move(c, r, Unscored), row, col)
        ensures Move(c, r, Unscored) in ms
      {
        if (c, r) != (col, row) {
          assert Move(c, r, Unscored) in rest;
        }
      }
    }
  }

  /** Row-major order: row outer, column inner. */
  predicate RowMajorBefore(m: Move, n: Move)
  {
    m.row < n.row || (m.row == n.row && m.col < n.col)
  }

  /** Once the game is over there is nothing to play. */
  lemma NoMovesWhenGameOver(b: Board, w: int)
    requires WellFormed(b) && w != NotGameOver
    ensures Generated(b, w) == []
  {
  }

  /** With gravity: one move per column that still has room, none for full
      columns, each on the lowest empty row, in ascending column order. */
  lemma GravityMoves(b: Board)
    requires WellFormed(b) && b.gravity
    ensures var ms := Generated(b, NotGameOver);
      && AllOnBoard(b, ms)
      && (forall k, l :: 0 <= k < l < |ms| ==> ms[k].col < ms[l].col)
      && (forall k :: 0 <= k < |ms| ==>
            Space(b, ms[k].col, ms[k].row) == Empty
            && forall q :: 0 <= q < ms[k].row ==> Space(b, ms[k].col, q) != Empty)
      && (forall c :: 0 <= c < b.width ==> (HasRoom(b, c) <==> Listed(ms, c)))
  {
    assert Generated(b, NotGameOver) == GravityFrom(b, 0);
    GravityFromCells(b, 0);
    GravityFromAscending(b, 0);
    GravityFromCovers(b, 0);
  }

  /** Without gravity: exactly the empty cells, each once, row-major. */
  lemma FreeMoves(b: Board)
    requires WellFormed(b) && !b.gravity
    ensures var ms := Generated(b, NotGameOver);
      && AllOnBoard(b, ms)
      && (forall k, l :: 0 <= k < l < |ms| ==> RowMajorBefore(ms[k], ms[l]))
      && (forall c, r :: OnBoard(b, c, r) ==>
            (Space(b, c, r) == Empty <==> Move(c, r, Unscored) in ms))
  {
    assert Generated(b, NotGameOver) == FreeFrom(b, 0, 0);
    FreeFromCells(b, 0, 0);
    FreeFromOrdered(b, 0, 0);
    FreeFromComplete(b, 0, 0);
  }

  /** Whatever the rule, a generated move is an empty on-board cell. */
  lemma GeneratedOnBoard(b: Board, w: int)
    requires WellFormed(b)
    ensures AllOnBoard(b, Generated(b, w))
    ensures forall k :: 0 <= k < |Generated(b, w)| ==>
      Space(b, Generated(b, w)[k].col, Generated(b, w)[k].row) == Empty
  {
    if w == NotGameOver {
      if b.gravity {
        GravityFromCells(b, 0);
      } else {
        assert Generated(b, w) == FreeFrom(b, 0, 0);
        FreeFromCells(b, 0, 0);
      }
    }
  }
}
