/** eval / evalLine / applyWeight / quiescence: the positional evaluator.

    Every window of `kLength` consecutive cells in the four directions is
    counted; a window holding pieces of one side only adds a weight to that
    side's total, and the score is the difference of the two totals. */
module Evaluator {
  import opened Scores
  import opened Boards

  /** Double.MAX_VALUE, written out as the integer it denotes. */
  const Sentinel: int := 179769313486231570814527423731704356798070567525844996598917476803157260780028538760589558632766878171540458953514382464234321326889464182768467546703537516986049910576551282076245490090389328944075868508455133942304583236903222948165808559332123348274797826204144723168738177180919299881250404026184124858368

  const TwoTo31: int := 0x8000_0000
  const TwoTo32: int := 0x1_0000_0000

  /** Java `int` arithmetic: the result taken modulo 2^32 into [-2^31, 2^31). */
  function Wrap32(x: int): (r: int)
    ensures -TwoTo31 <= r < TwoTo31
    ensures (r - x) % TwoTo32 == 0
    ensures -TwoTo31 <= x < TwoTo31 ==> r == x
  {
    (x + TwoTo31) % TwoTo32 - TwoTo31
  }

  /** applyWeight(n): the sentinel for a complete line, else the int n*n*n. */
  function ApplyWeight(kLength: int, n: int): (r: int)
    ensures n == kLength ==> r == Sentinel
    ensures n != kLength ==> -TwoTo31 <= r < TwoTo31 && (r - n * n * n) % TwoTo32 == 0
  {
    if n == kLength then Sentinel else Wrap32(n * n * n)
  }

  /** quiescence(p, n), given the current value of the testQui flag. */
  function Quiescence(testQui: bool, p: int, n: int, enemy: int, kLength: int): (r: bool)
    ensures testQui ==> r
    ensures r <==> testQui || (p == enemy && n == kLength - 1)
  {
    if testQui then true
    else if p == enemy && n == kLength - 1 then true
    else false
  }

  /** The new running score and testQui flag after evalLine. */
  datatype Line = Line(score: int, qui: bool)

  /** evalLine(p, pCount, eCount, pScore), given the testQui flag. */
  function EvalLine(p: int, pCount: int, eCount: int, pScore: int, testQui: bool, enemy: int, kLength: int): Line
  {
    if pCount > 0 && eCount == 0 then
      Line(pScore + ApplyWeight(kLength, pCount), Quiescence(testQui, p, pCount, enemy, kLength))
    else Line(pScore, testQui)
  }

  /** The four scans of eval: horizontal, vertical, `/` and `\`. */
  datatype Dir = Horizontal | Vertical | Rising | Falling

  /** kLim = kLength - 1. */
  function KLim(b: Board): int
  {
    b.kLength - 1
  }

  /** The range [ILo, IHi) of the outer (column) loop of a scan: columns
      0 to width - kLim - 1 for the horizontal and `/` scans, every column
      for the vertical scan, and kLim to width - 1 for the `\` scan, whose
      windows run leftwards. */
  function ILo(b: Board, d: Dir): int
  {
    if d == Falling then KLim(b) else 0
  }

  function IHi(b: Board, d: Dir): int
  {
    if d == Vertical || d == Falling then b.width else b.width - KLim(b)
  }

  /** The range [0, JHi) of the inner (row) loop of a scan. */
  function JHi(b: Board, d: Dir): int
  {
    if d == Horizontal then b.height else b.height - KLim(b)
  }

  /** (i, j) is a start cell that the scan in direction `d` visits. */
  predicate InScan(b: Board, d: Dir, i: int, j: int)
  {
    ILo(b, d) <= i < IHi(b, d) && 0 <= j < JHi(b, d)
  }

  /** Column and row of the k-th cell of the window starting at (i, j). */
  function CellCol(d: Dir, i: int, k: int): int
  {
    match d
    case Horizontal => i + k
    case Vertical => i
    case Rising => i + k
    case Falling => i - k
  }

  function CellRow(d: Dir, j: int, k: int): int
  {
    if d == Horizontal then j else j + k
  }

  /** The `\` scan reaches the windows that start in the last column: on a
      board that holds a line of kLength both ways, the window that starts
      in the rightmost column of row 0 is scanned, and its far end is on
      the board. */
  lemma FallingScanLastColumn(b: Board)
    requires 1 <= b.kLength <= b.width && b.kLength <= b.height
    ensures InScan(b, Falling, b.width - 1, 0)
    ensures OnBoard(b, CellCol(Falling, b.width - 1, KLim(b)), CellRow(Falling, 0, KLim(b)))
  {
  }

  /** Every cell of every scanned window lies on the board. */
  lemma WindowOnBoard(b: Board, d: Dir, i: int, j: int, k: int)
    requires InScan(b, d, i, j) && 0 <= k < b.kLength
    ensures OnBoard(b, CellCol(d, i, k), CellRow(d, j, k))
  {
  }

  /** The number of the first `n` cells of the window holding `p`. */
  function Count(b: Board, d: Dir, i: int, j: int, p: int, n: nat): nat
    requires WellFormed(b) && InScan(b, d, i, j) && n <= b.kLength
  {
    if n == 0 then 0
    else
      WindowOnBoard(b, d, i, j, n - 1);
      Count(b, d, i, j, p, n - 1)
      + (if Space(b, CellCol(d, i, n - 1), CellRow(d, j, n - 1)) == p then 1 else 0)
  }

  /** The inner `k` loop of eval: the two counts of one window. */
  method CountWindow(b: Board, d: Dir, i: int, j: int, p1: int, p2: int) returns (p1Count: nat, p2Count: nat)
    requires WellFormed(b) && InScan(b, d, i, j) && p1 != p2
    ensures p1Count == Count(b, d, i, j, p1, b.kLength)
    ensures p2Count == Count(b, d, i, j, p2, b.kLength)
  {
    p1Count, p2Count := 0, 0;
    var k := 0;
    while k < b.kLength
      invariant 0 <= k <= b.kLength
      invariant p1Count == Count(b, d, i, j, p1, k)
      invariant p2Count == Count(b, d, i, j, p2, k)
    {
      WindowOnBoard(b, d, i, j, k);
      var piece := Space(b, CellCol(d, i, k), CellRow(d, j, k));
      if piece == p1 {
        p1Count := p1Count + 1;
      } else if piece == p2 {
        p2Count := p2Count + 1;
      }
      k := k + 1;
    }
  }

  /** A window never holds more pieces of the two sides than it has cells. */
  lemma {:induction false} CountBound(b: Board, d: Dir, i: int, j: int, p1: int, p2: int, n: nat)
    requires WellFormed(b) && InScan(b, d, i, j) && n <= b.kLength && p1 != p2
    ensures Count(b, d, i, j, p1, n) + Count(b, d, i, j, p2, n) <= n
  {
    if n > 0 {
      CountBound(b, d, i, j, p1, p2, n - 1);
    }
  }

  /** The running totals of eval and the testQui flag. */
  datatype Tally = Tally(s1: int, s2: int, qui: bool)

  /** The two evalLine calls for the window starting at (i, j). */
  function WindowStep(b: Board, d: Dir, i: int, j: int, p1: int, p2: int, enemy: int, t: Tally): Tally
    requires WellFormed(b) && InScan(b, d, i, j)
  {
    var c1 := Count(b, d, i, j, p1, b.kLength);
    var c2 := Count(b, d, i, j, p2, b.kLength);
    var l1 := EvalLine(p1, c1, c2, t.s1, t.qui, enemy, b.kLength);
    var l2 := EvalLine(p2, c2, c1, t.s2, l1.qui, enemy, b.kLength);
    Tally(l1.score, l2.score, l2.qui)
  }

  /** The rest of the scan in direction `d`, from the start cell (i, j):
      j is the inner loop, i the outer one. */
  function ScanFrom(b: Board, d: Dir, i: int, j: int, p1: int, p2: int, enemy: int, t: Tally): Tally
    requires WellFormed(b) && ILo(b, d) <= i && 0 <= j
    decreases IHi(b, d) - i, JHi(b, d) - j
  {
    if i >= IHi(b, d) then t
    else if j >= JHi(b, d) then ScanFrom(b, d, i + 1, 0, p1, p2, enemy, t)
    else ScanFrom(b, d, i, j + 1, p1, p2, enemy, WindowStep(b, d, i, j, p1, p2, enemy, t))
  }

  /** A whole scan in direction `d`. */
  function ScanDir(b: Board, d: Dir, p1: int, p2: int, enemy: int, t: Tally): Tally
    requires WellFormed(b)
  {
    ScanFrom(b, d, ILo(b, d), 0, p1, p2, enemy, t)
  }

  /** The four scans one after another, from zero totals and a cleared flag. */
  function Scan(b: Board, p1: int, p2: int, enemy: int): Tally
    requires WellFormed(b)
  {
    var h := ScanDir(b, Horizontal, p1, p2, enemy, Tally(0, 0, false));
    var v := ScanDir(b, Vertical, p1, p2, enemy, h);
    var r := ScanDir(b, Rising, p1, p2, enemy, v);
    ScanDir(b, Falling, p1, p2, enemy, r)
  }

  /** p2 = (p1 == 1) ? 2 : 1. */
  function Other(p: int): int
  {
    if p == 1 then 2 else 1
  }

  /** The value eval(state, p1) returns, where `w` is state.winner() and
      `player`/`enemy` are the AI's own identities. */
  function EvalScore(b: Board, w: int, player: int, enemy: int, p1: int): (r: Score)
    requires WellFormed(b)
    ensures r == PosInf <==> w == player
    ensures w != player ==> (r == NegInf <==> w == enemy)
  {
    if w == player then PosInf
    else if w == enemy then NegInf
    else
      var t := Scan(b, p1, Other(p1), enemy);
      Fin(t.s1 - t.s2)
  }

  /** The testQui flag after eval(state, p1), given its value before.  A
      terminal position returns before the flag is reset. */
  function EvalQui(b: Board, w: int, player: int, enemy: int, p1: int, testQui: bool): (r: bool)
    requires WellFormed(b)
    ensures w == player || w == enemy ==> r == testQui
  {
    if w == player || w == enemy then testQui
    else Scan(b, p1, Other(p1), enemy).qui
  }

  // ---------------------------------------------------------------------
  // Properties

  /** A won position scores +infinity, a lost one -infinity. */
  lemma EvalTerminal(b: Board, w: int, player: int, enemy: int, p1: int)
    requires WellFormed(b) && player != enemy
    ensures w == player ==> EvalScore(b, w, player, enemy, p1) == PosInf
    ensures w == enemy ==> EvalScore(b, w, player, enemy, p1) == NegInf
    ensures w != player && w != enemy ==> EvalScore(b, w, player, enemy, p1).Fin?
  {
  }

  /** applyWeight: a complete line is worth the sentinel; a shorter one n^3
      as long as n^3 fits in a Java int (n <= 1290). */
  lemma WeightValues(kLength: int, n: int)
    requires 0 <= n <= 1290 && n != kLength
    ensures ApplyWeight(kLength, kLength) == Sentinel
    ensures ApplyWeight(kLength, n) == n * n * n
  {
    CubeBound(n);
  }

  lemma MulLe(a: int, b: int, c: int)
    requires 0 <= a <= b && 0 <= c
    ensures a * c <= b * c
  {
  }

  lemma MulLt(a: int, b: int, c: int)
    requires 0 <= a < b && 0 < c
    ensures a * c < b * c
  {
  }

  lemma CubeBound(n: int)
    requires 0 <= n <= 1290
    ensures 0 <= n * n * n <= 2146689000 < TwoTo31
  {
    MulLe(n, 1290, n);
    MulLe(n, 1290, 1290);
    assert n * n <= 1664100;
    MulLe(n * n, 1664100, n);
    MulLe(n, 1290, 1664100);
  }

  lemma CubeIncreasing(n: int, m: int)
    requires 0 < n < m
    ensures n * n * n < m * m * m
  {
    MulLt(n, m, n);
    MulLt(n, m, m);
    assert n * n < m * m;
    MulLt(n * n, m * m, n);
    MulLt(n, m, m * m);
  }

  /** Longer one-sided lines weigh more, up to the sentinel. */
  lemma WeightIncreasing(kLength: int, n: int, m: int)
    requires 1 <= n < m <= kLength <= 1291
    ensures 0 < ApplyWeight(kLength, n) < ApplyWeight(kLength, m)
  {
    CubeBound(n);
    CubeIncreasing(0 + 1, n + 1);
    MulLt(0, n, n);
    MulLt(0, n * n, n);
    if m < kLength {
      CubeBound(m);
      CubeIncreasing(n, m);
    }
  }

  /** A window with pieces of both sides, or of neither, changes nothing. */
  lemma EvalLineBlocked(p: int, pCount: int, eCount: int, pScore: int, testQui: bool, enemy: int, kLength: int)
    requires pCount == 0 || eCount != 0
    ensures EvalLine(p, pCount, eCount, pScore, testQui, enemy, kLength) == Line(pScore, testQui)
  {
  }

  /** Swapping p1 and p2 swaps the two totals of a scan. */
  lemma {:induction false} ScanFromSwap(b: Board, d: Dir, i: int, j: int, p1: int, p2: int, enemy: int,
                                         t: Tally, u: Tally)
    requires WellFormed(b) && ILo(b, d) <= i && 0 <= j
    requires u.s1 == t.s2 && u.s2 == t.s1
    ensures ScanFrom(b, d, i, j, p2, p1, enemy, u).s1 == ScanFrom(b, d, i, j, p1, p2, enemy, t).s2
    ensures ScanFrom(b, d, i, j, p2, p1, enemy, u).s2 == ScanFrom(b, d, i, j, p1, p2, enemy, t).s1
    decreases IHi(b, d) - i, JHi(b, d) - j
  {
    if i >= IHi(b, d) {
    } else if j >= JHi(b, d) {
      ScanFromSwap(b, d, i + 1, 0, p1, p2, enemy, t, u);
    } else {
      ScanFromSwap(b, d, i, j + 1, p1, p2, enemy,
                   WindowStep(b, d, i, j, p1, p2, enemy, t), WindowStep(b, d, i, j, p2, p1, enemy, u));
    }
  }

  /** The evaluation is zero-sum: for a position nobody has won, scoring for
      the other side negates the result. */
  lemma EvalAntisymmetric(b: Board, w: int, player: int, enemy: int, p1: int)
    requires WellFormed(b) && (p1 == 1 || p1 == 2) && w != player && w != enemy
    ensures EvalScore(b, w, player, enemy, Other(p1)) == Neg(EvalScore(b, w, player, enemy, p1))
  {
    var p2 := Other(p1);
    assert Other(p2) == p1;
    var t0 := Tally(0, 0, false);
    var h := ScanDir(b, Horizontal, p1, p2, enemy, t0);
    var h' := ScanDir(b, Horizontal, p2, p1, enemy, t0);
    ScanFromSwap(b, Horizontal, ILo(b, Horizontal), 0, p1, p2, enemy, t0, t0);
    var v := ScanDir(b, Vertical, p1, p2, enemy, h);
    var v' := ScanDir(b, Vertical, p2, p1, enemy, h');
    ScanFromSwap(b, Vertical, ILo(b, Vertical), 0, p1, p2, enemy, h, h');
    var r := ScanDir(b, Rising, p1, p2, enemy, v);
    var r' := ScanDir(b, Rising, p2, p1, enemy, v');
    ScanFromSwap(b, Rising, ILo(b, Rising), 0, p1, p2, enemy, v, v');
    ScanFromSwap(b, Falling, ILo(b, Falling), 0, p1, p2, enemy, r, r');
  }

  /** The window at (i, j) is a one-sided line of `enemy` that is one piece
      short of a win: the condition that makes a position non-quiet. */
  predicate Threat(b: Board, d: Dir, i: int, j: int, p1: int, p2: int, enemy: int)
    requires WellFormed(b) && InScan(b, d, i, j)
  {
    var c1 := Count(b, d, i, j, p1, b.kLength);
    var c2 := Count(b, d, i, j, p2, b.kLength);
    || (c1 > 0 && c2 == 0 && p1 == enemy && c1 == b.kLength - 1)
    || (c2 > 0 && c1 == 0 && p2 == enemy && c2 == b.kLength - 1)
  }

  /** (i2, j2) is a start cell the scan reaches from (i, j) onwards. */
  predicate Pending(b: Board, d: Dir, i: int, j: int, i2: int, j2: int)
  {
    InScan(b, d, i2, j2) && (i < i2 || (i == i2 && j <= j2))
  }

  /** Some window from (i, j) onwards is a threat. */
  ghost predicate ThreatFrom(b: Board, d: Dir, i: int, j: int, p1: int, p2: int, enemy: int)
    requires WellFormed(b)
  {
    exists i2, j2 :: Pending(b, d, i, j, i2, j2) && Threat(b, d, i2, j2, p1, p2, enemy)
  }

  lemma ThreatFromNextRow(b: Board, d: Dir, i: int, j: int, p1: int, p2: int, enemy: int)
    requires WellFormed(b) && j >= JHi(b, d)
    ensures ThreatFrom(b, d, i, j, p1, p2, enemy) <==> ThreatFrom(b, d, i + 1, 0, p1, p2, enemy)
  {
    if ThreatFrom(b, d, i, j, p1, p2, enemy) {
      var i2, j2 :| Pending(b, d, i, j, i2, j2) && Threat(b, d, i2, j2, p1, p2, enemy);
      assert Pending(b, d, i + 1, 0, i2, j2);
    }
    if ThreatFrom(b, d, i + 1, 0, p1, p2, enemy) {
      var i2, j2 :| Pending(b, d, i + 1, 0, i2, j2) && Threat(b, d, i2, j2, p1, p2, enemy);
      assert Pending(b, d, i, j, i2, j2);
    }
  }

  lemma ThreatFromNextCell(b: Board, d: Dir, i: int, j: int, p1: int, p2: int, enemy: int)
    requires WellFormed(b) && InScan(b, d, i, j)
    ensures ThreatFrom(b, d, i, j, p1, p2, enemy)
      <==> Threat(b, d, i, j, p1, p2, enemy) || ThreatFrom(b, d, i, j + 1, p1, p2, enemy)
  {
    if ThreatFrom(b, d, i, j, p1, p2, enemy) {
      var i2, j2 :| Pending(b, d, i, j, i2, j2) && Threat(b, d, i2, j2, p1, p2, enemy);
      if (i2, j2) != (i, j) {
        assert Pending(b, d, i, j + 1, i2, j2);
      }
    }
    if Threat(b, d, i, j, p1, p2, enemy) {
      assert Pending(b, d, i, j, i, j);
    }
    if ThreatFrom(b, d, i, j + 1, p1, p2, enemy) {
      var i2, j2 :| Pending(b, d, i, j + 1, i2, j2) && Threat(b, d, i2, j2, p1, p2, enemy);
      assert Pending(b, d, i, j, i2, j2);
    }
  }

  /** The flag is sticky, and the scan sets it exactly when a remaining
      window is a threat. */
  lemma {:induction false} ScanFromQui(b: Board, d: Dir, i: int, j: int, p1: int, p2: int, enemy: int, t: Tally)
    requires WellFormed(b) && ILo(b, d) <= i && 0 <= j
    ensures ScanFrom(b, d, i, j, p1, p2, enemy, t).qui <==> t.qui || ThreatFrom(b, d, i, j, p1, p2, enemy)
    decreases IHi(b, d) - i, JHi(b, d) - j
  {
    if i >= IHi(b, d) {
      assert !ThreatFrom(b, d, i, j, p1, p2, enemy);
    } else if j >= JHi(b, d) {
      ScanFromQui(b, d, i + 1, 0, p1, p2, enemy, t);
      ThreatFromNextRow(b, d, i, j, p1, p2, enemy);
    } else {
      var t' := WindowStep(b, d, i, j, p1, p2, enemy, t);
      ScanFromQui(b, d, i, j + 1, p1, p2, enemy, t');
      ThreatFromNextCell(b, d, i, j, p1, p2, enemy);
      assert t'.qui == (t.qui || Threat(b, d, i, j, p1, p2, enemy));
    }
  }

  /** Some window of the scan in direction `d` is a threat. */
  ghost predicate ThreatIn(b: Board, d: Dir, p1: int, p2: int, enemy: int)
    requires WellFormed(b)
  {
    exists i, j :: InScan(b, d, i, j) && Threat(b, d, i, j, p1, p2, enemy)
  }

  lemma ScanDirQui(b: Board, d: Dir, p1: int, p2: int, enemy: int, t: Tally)
    requires WellFormed(b)
    ensures ScanDir(b, d, p1, p2, enemy, t).qui <==> t.qui || ThreatIn(b, d, p1, p2, enemy)
  {
    ScanFromQui(b, d, ILo(b, d), 0, p1, p2, enemy, t);
    if ThreatIn(b, d, p1, p2, enemy) {
      var i, j :| InScan(b, d, i, j) && Threat(b, d, i, j, p1, p2, enemy);
      assert Pending(b, d, ILo(b, d), 0, i, j);
    }
    if ThreatFrom(b, d, ILo(b, d), 0, p1, p2, enemy) {
      var i, j :| Pending(b, d, ILo(b, d), 0, i, j) && Threat(b, d, i, j, p1, p2, enemy);
      assert InScan(b, d, i, j);
    }
  }

  /** After eval of a position nobody has won, testQui holds exactly when
      some scanned window is a line of the enemy one piece from complete. */
  lemma EvalQuiExact(b: Board, w: int, player: int, enemy: int, p1: int, testQui: bool)
    requires WellFormed(b) && w != player && w != enemy
    ensures EvalQui(b, w, player, enemy, p1, testQui)
      <==> exists d :: ThreatIn(b, d, p1, Other(p1), enemy)
  {
    var p2 := Other(p1);
    var t0 := Tally(0, 0, false);
    var h := ScanDir(b, Horizontal, p1, p2, enemy, t0);
    var v := ScanDir(b, Vertical, p1, p2, enemy, h);
    var r := ScanDir(b, Rising, p1, p2, enemy, v);
    ScanDirQui(b, Horizontal, p1, p2, enemy, t0);
    ScanDirQui(b, Vertical, p1, p2, enemy, h);
    ScanDirQui(b, Rising, p1, p2, enemy, v);
    ScanDirQui(b, Falling, p1, p2, enemy, r);
    if exists d :: ThreatIn(b, d, p1, p2, enemy) {
      var d :| ThreatIn(b, d, p1, p2, enemy);
      assert d == Horizontal || d == Vertical || d == Rising || d == Falling;
    }
  }
}
