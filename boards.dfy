/** The board as the player sees it (connectK.BoardModel, a library type).

    Only the parts the player reads are kept: the cell grid, indexed
    `pieces[col][row]` with row 0 at the bottom, the dimensions, the
    win length, the gravity flag and the last move.  `winner()` is not
    modelled here: the player receives it as an uninterpreted function
    (see `DrakenPlayer.DrakenAI.winner`). */
module Boards {

  datatype Option<T> = None | Some(value: T)

  /** java.awt.Point: x is the column, y the row. */
  datatype Point = Point(x: int, y: int)

  /** Cell contents: 0 is empty, 1 and 2 are the two players. */
  const Empty: int := 0

  /** BoardModel.winner() returns -1 while the game goes on. */
  const NotGameOver: int := -1

  type Grid = seq<seq<int>>

  datatype Board = Board(
    pieces: Grid,
    width: nat,
    height: nat,
    kLength: nat,
    gravity: bool,
    lastMove: Option<Point>)

  /** The grid has `width` columns of `height` cells each, and a line to
      win has at least one cell. */
  predicate WellFormed(b: Board)
  {
    && |b.pieces| == b.width
    && (forall c :: 0 <= c < b.width ==> |b.pieces[c]| == b.height)
    && b.kLength >= 1
  }

  predicate OnBoard(b: Board, col: int, row: int)
  {
    0 <= col < b.width && 0 <= row < b.height
  }

  /** BoardModel.getSpace(col, row). */
  function Space(b: Board, col: int, row: int): int
    requires WellFormed(b) && OnBoard(b, col, row)
  {
    b.pieces[col][row]
  }

  /** `clone().placePiece(p, player)`: a fresh board with one more piece,
      which becomes the last move. */
  function PlacePiece(b: Board, p: Point, player: int): (r: Board)
    requires WellFormed(b) && OnBoard(b, p.x, p.y)
    ensures WellFormed(r)
    ensures r.width == b.width && r.height == b.height && r.kLength == b.kLength
    ensures r.gravity == b.gravity && r.lastMove == Some(p)
  {
    b.(pieces := b.pieces[p.x := b.pieces[p.x][p.y := player]], lastMove := Some(p))
  }

  /** The new piece is on its cell and every other cell is unchanged. */
  lemma PlacePieceCells(b: Board, p: Point, player: int)
    requires WellFormed(b) && OnBoard(b, p.x, p.y)
    ensures Space(PlacePiece(b, p, player), p.x, p.y) == player
    ensures forall c, w :: OnBoard(b, c, w) && (c, w) != (p.x, p.y) ==> Space(PlacePiece(b, p, player), c, w) == Space(b, c, w)
  {
  }
}
