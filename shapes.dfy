/**
 * The five tetromino shapes, the random shape choice and the falling piece
 * ("mino") of the Tetris engine.  Everything here is a value.
 */
module Shapes {

  /** The byte the engine draws at random; the draw itself is a parameter. */
  newtype u8 = x: int | 0 <= x < 256

  /** A board cell or a cell offset, as a (row, column) pair: row 0 is the top. */
  datatype Point = Point(y: int, x: int)

  function Add(a: Point, b: Point): Point
  {
    Point(a.y + b.y, a.x + b.x)
  }

  datatype Tetromino = Straight | Square | T | L | S

  /** A piece shape: its kind tag and the offsets of its four blocks from the reference corner. */
  datatype Shape = Shape(kind: Tetromino, cells: seq<Point>)

  /** The piece together with the flag that says whether it is still falling. */
  datatype Mino = Mino(isFalling: bool, block: Shape)

  /**
   * Four blocks, all inside the 2-row by 4-column box whose top-left corner is
   * the reference point, pairwise distinct, the first one on the reference point.
   */
  predicate WellFormed(s: Shape)
  {
    && |s.cells| == 4
    && s.cells[0] == Point(0, 0)
    && (forall i :: 0 <= i < 4 ==> 0 <= s.cells[i].y <= 1 && 0 <= s.cells[i].x <= 3)
    && (forall i, j :: 0 <= i < j < 4 ==> s.cells[i] != s.cells[j])
  }

  /** The fixed offsets of each kind. */
  function ShapeOf(k: Tetromino): (s: Shape)
    ensures s.kind == k && WellFormed(s)
  {
    match k
    case Straight => Shape(Straight, [Point(0, 0), Point(0, 1), Point(0, 2), Point(0, 3)])
    case Square => Shape(Square, [Point(0, 0), Point(0, 1), Point(1, 0), Point(1, 1)])
    case T => Shape(T, [Point(0, 0), Point(0, 1), Point(0, 2), Point(1, 1)])
    case L => Shape(L, [Point(0, 0), Point(0, 1), Point(0, 2), Point(1, 2)])
    case S => Shape(S, [Point(0, 0), Point(0, 1), Point(1, 1), Point(1, 2)])
  }

  /** The shape picked by the random byte `r`: its residue modulo 5 selects the kind. */
  function NewShape(r: u8): (s: Shape)
    ensures s == ShapeOf(s.kind)
    ensures WellFormed(s)
  {
    match r % 5
    case 0 => ShapeOf(Straight)
    case 1 => ShapeOf(Square)
    case 2 => ShapeOf(T)
    case 3 => ShapeOf(L)
    case _ => ShapeOf(S)
  }

  /** Every kind can be drawn. */
  lemma NewShapeCoversEveryKind(k: Tetromino)
    ensures exists r: u8 :: NewShape(r).kind == k
  {
    match k
    case Straight => assert NewShape(0).kind == k;
    case Square => assert NewShape(1).kind == k;
    case T => assert NewShape(2).kind == k;
    case L => assert NewShape(3).kind == k;
    case S => assert NewShape(4).kind == k;
  }

  /** A fresh piece: a random shape that is not yet falling. */
  function NewMino(r: u8): (m: Mino)
    ensures !m.isFalling && WellFormed(m.block) && m.block == ShapeOf(m.block.kind)
  {
    Mino(false, NewShape(r))
  }

  /** The board cells covered by piece `m` when its reference point is at `p`. */
  function Placement(m: Mino, p: Point): seq<Point>
  {
    seq(|m.block.cells|, i requires 0 <= i < |m.block.cells| => Add(m.block.cells[i], p))
  }

  /**
   * The reference point is the piece's top-left corner: it is one of the
   * covered cells, and every covered cell lies in the two rows and four
   * columns that start there.
   */
  lemma PlacementAnchored(m: Mino, p: Point)
    requires WellFormed(m.block)
    ensures p in Placement(m, p)
    ensures forall q :: q in Placement(m, p) ==> p.y <= q.y <= p.y + 1 && p.x <= q.x <= p.x + 3
  {
    assert Placement(m, p)[0] == p;
  }

  /** A placed piece covers exactly four distinct cells. */
  lemma PlacementDistinct(m: Mino, p: Point)
    requires WellFormed(m.block)
    ensures |Placement(m, p)| == 4
    ensures forall i, j :: 0 <= i < j < 4 ==> Placement(m, p)[i] != Placement(m, p)[j]
  {
  }
}
