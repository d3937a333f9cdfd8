/** Move.java: a board coordinate with a score used to order candidates.

    Move objects are never observed through two references once their score
    has changed (the root loop rescores only the list it owns, and later
    iterations copy coordinates into fresh objects), so the model treats a
    move as a value and `setScore` as a functional update. */
module Moves {
  import opened Scores
  import opened Boards

  datatype Move = Move(col: int, row: int, score: Score)
  {
    /** The coordinate part (Move extends Point). */
    function Pos(): Point
    {
      Point(col, row)
    }

    /** getScore(). */
    function GetScore(): (s: Score)
      ensures s == score
    {
      score
    }

    /** setScore(s): the same coordinate with score `s`. */
    function SetScore(s: Score): (m: Move)
      ensures m.GetScore() == s
      ensures m.Pos() == Pos()
    {
      this.(score := s)
    }

    /** compareTo(o): -1, 0 or 1 by score alone. */
    function CompareTo(o: Move): (r: int)
      ensures r == -1 <==> Lt(score, o.score)
      ensures r == 1 <==> Lt(o.score, score)
      ensures r == 0 <==> score == o.score
    {
      if Lt(score, o.score) then -1
      else if Lt(o.score, score) then 1
      else 0
    }
  }

  /** Move(Point point, double score). */
  function FromPoint(p: Point, s: Score): (m: Move)
    ensures m.Pos() == p && m.GetScore() == s
  {
    Move(p.x, p.y, s)
  }

  lemma CompareAntisymmetric(a: Move, b: Move)
    ensures a.CompareTo(b) == -b.CompareTo(a)
  {
  }

  lemma CompareTransitive(a: Move, b: Move, c: Move)
    requires a.CompareTo(b) <= 0 && b.CompareTo(c) <= 0
    ensures a.CompareTo(c) <= 0
  {
  }

  lemma CompareTotal(a: Move, b: Move)
    ensures a.CompareTo(b) <= 0 || b.CompareTo(a) <= 0
  {
  }

  /** Coordinates play no part in the comparison. */
  lemma CompareIgnoresCoordinates(a: Move, b: Move)
    requires a.score == b.score
    ensures a.CompareTo(b) == 0 && b.CompareTo(a) == 0
  {
  }
}
