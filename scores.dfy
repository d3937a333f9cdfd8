/** Search and evaluation scores.

    The player stores scores as Java doubles and uses only three kinds of
    value: the two infinities (won and lost positions, the initial best
    score of a minimizing or maximizing node) and finite line totals.  The
    model keeps exactly those three kinds, with exact integers for the
    finite totals. */
module Scores {

  datatype Score = NegInf | Fin(n: int) | PosInf

  /** `a <= b` on the extended integers. */
  predicate Le(a: Score, b: Score)
  {
    match (a, b)
    case (NegInf, _) => true
    case (_, PosInf) => true
    case (Fin(x), Fin(y)) => x <= y
    case _ => false
  }

  /** `a < b` on the extended integers. */
  predicate Lt(a: Score, b: Score)
  {
    !Le(b, a)
  }

  function Min(a: Score, b: Score): (r: Score)
    ensures Le(r, a) && Le(r, b) && (r == a || r == b)
  {
    if Le(a, b) then a else b
  }

  function Max(a: Score, b: Score): (r: Score)
    ensures Le(a, r) && Le(b, r) && (r == a || r == b)
  {
    if Le(a, b) then b else a
  }

  /** Negation, which swaps the two infinities. */
  function Neg(a: Score): (r: Score)
    ensures Le(NegInf, r) && (a == PosInf <==> r == NegInf) && (a == NegInf <==> r == PosInf)
  {
    match a
    case NegInf => PosInf
    case Fin(x) => Fin(-x)
    case PosInf => NegInf
  }

  lemma LeAntisymmetric(a: Score, b: Score)
    requires Le(a, b) && Le(b, a)
    ensures a == b
  {
  }

  lemma LeTransitive(a: Score, b: Score, c: Score)
    requires Le(a, b) && Le(b, c)
    ensures Le(a, c)
  {
  }
}
