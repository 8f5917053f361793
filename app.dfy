/**
 * The board/piece engine: a 20-row by 10-column occupancy board (0 empty,
 * 1 filled), the active piece and its position, and the operations that
 * paint, move, drop and spawn the piece.
 */
module Engine {
  import opened Shapes

  const Height := 20
  const Width := 10
  const Origin := Point(0, 0)
  /** The one-row downward step taken on every tick. */
  const Down := Point(1, 0)

  /** True exactly for the cells that lie outside the 20 by 10 board. */
  function IsOutOfRange(py: int, px: int): (r: bool)
    ensures !r <==> 0 <= py < Height && 0 <= px < Width
  {
    py < 0 || py >= 20 || px < 0 || px >= 10
  }

  predicate Sized(b: array2<int>)
  {
    b.Length0 == Height && b.Length1 == Width
  }

  /** Every cell of the board is empty (0) or filled (1). */
  ghost predicate Binary(b: array2<int>)
    reads b
  {
    forall y, x :: 0 <= y < b.Length0 && 0 <= x < b.Length1 ==> b[y, x] == 0 || b[y, x] == 1
  }

  /** Every cell of `cells` lies on the board. */
  predicate OnBoard(cells: seq<Point>)
  {
    forall q :: q in cells ==> !IsOutOfRange(q.y, q.x)
  }

  /** Cell `q` is on the board and filled. */
  predicate Filled(b: array2<int>, q: Point)
    reads b
  {
    0 <= q.y < b.Length0 && 0 <= q.x < b.Length1 && b[q.y, q.x] == 1
  }

  /** Every cell of `cells` lies on the board and is not filled. */
  predicate Fits(b: array2<int>, cells: seq<Point>)
    requires Sized(b)
    reads b
  {
    forall q :: q in cells ==> !IsOutOfRange(q.y, q.x) && b[q.y, q.x] != 1
  }

  /**
   * What `Fits` says once the cells `own` have been cleared: a cell of
   * `cells` may be filled only if it is one of `own`.
   */
  predicate FitsAfterErase(b: array2<int>, cells: seq<Point>, own: seq<Point>)
    requires Sized(b)
    reads b
  {
    forall q :: q in cells ==> !IsOutOfRange(q.y, q.x) && (b[q.y, q.x] != 1 || q in own)
  }

  class App {
    var score: nat
    var shouldQuit: bool
    var mino: Mino
    /** The top-left corner of the active piece. */
    var position: Point
    const board: array2<int>

    /** What holds in every reachable state. */
    ghost predicate Valid()
      reads this, board
    {
      Sized(board) && Binary(board) && WellFormed(mino.block)
    }

    /** The cells the active piece covers at its current position. */
    function Cells(): seq<Point>
      reads this
    {
      Placement(mino, position)
    }

    /** The active piece is drawn on the board: its cells are on the board and filled. */
    ghost predicate PieceShown()
      requires Sized(board)
      reads this, board
    {
      forall q :: q in Cells() ==> !IsOutOfRange(q.y, q.x) && board[q.y, q.x] == 1
    }

    /** Moving the piece by `diff` is possible: the piece's own cells do not block it. */
    ghost predicate CanMove(diff: Point)
      requires Sized(board)
      reads this, board
    {
      FitsAfterErase(board, Placement(mino, Add(position, diff)), Cells())
    }

    /**
     * The effect of one move attempt by `diff` reporting `ok`: it succeeds
     * exactly when the target cells are free apart from the piece's own; on
     * success the piece is redrawn at the new position and its vacated cells
     * are cleared, on failure it is redrawn where it was; nothing else changes.
     */
    twostate predicate Moved(diff: Point, ok: bool)
      requires Sized(board)
      reads this, board
    {
      var own := Placement(old(mino), old(position));
      var dest := Placement(old(mino), Add(old(position), diff));
      && mino == old(mino) && score == old(score) && shouldQuit == old(shouldQuit)
      && (ok <==> old(CanMove(diff)))
      && position == (if ok then Add(old(position), diff) else old(position))
      && (forall y, x :: 0 <= y < Height && 0 <= x < Width ==>
            board[y, x] == if ok && Point(y, x) in dest then 1
                           else if Point(y, x) in own then (if ok then 0 else 1)
                           else old(board[y, x]))
      && (!ok && old(PieceShown()) ==>
            forall y, x :: 0 <= y < Height && 0 <= x < Width ==> board[y, x] == old(board[y, x]))
    }

    /**
     * The effect of one spawn attempt with random byte `r` reporting `ok`:
     * the position is back at the origin; the spawn succeeds exactly when the
     * new piece fits there; on success exactly its four cells are filled and
     * it becomes the active shape, on failure board and shape are unchanged.
     */
    twostate predicate Spawned(r: u8, ok: bool)
      requires Sized(board)
      reads this, board
    {
      var cells := Placement(NewMino(r), Origin);
      && position == Origin
      && score == old(score)
      && (ok <==> old(Fits(board, cells)))
      && mino.block == (if ok then NewShape(r) else old(mino.block))
      && (forall y, x :: 0 <= y < Height && 0 <= x < Width ==>
            board[y, x] == if ok && Point(y, x) in cells then 1 else old(board[y, x]))
    }

    /** A new engine: an empty board and a fresh piece, not yet drawn, at the origin. */
    constructor (r: u8)
      ensures Valid() && fresh(board)
      ensures score == 0 && !shouldQuit && mino == NewMino(r) && position == Origin
      ensures forall y, x :: 0 <= y < Height && 0 <= x < Width ==> board[y, x] == 0
    {
      score := 0;
      shouldQuit := false;
      mino := NewMino(r);
      position := Origin;
      board := new int[20, 10]((y, x) => 0);
    }

    /** Writes `value` into the cells of `m` placed at `base`; no other cell changes. */
    method Render(m: Mino, base: Point, value: int)
      requires Sized(board) && OnBoard(Placement(m, base))
      modifies board
      ensures forall y, x :: 0 <= y < Height && 0 <= x < Width ==>
        board[y, x] == if Point(y, x) in Placement(m, base) then value else old(board[y, x])
    {
      ghost var cells := Placement(m, base);
      var i := 0;
      while i < |m.block.cells|
        invariant 0 <= i <= |m.block.cells|
        invariant forall y, x :: 0 <= y < Height && 0 <= x < Width ==>
          board[y, x] == if Point(y, x) in cells[..i] then value else old(board[y, x])
      {
        var ny := m.block.cells[i].y + base.y;
        var nx := m.block.cells[i].x + base.x;
        assert cells[i] == Point(ny, nx) && cells[i] in cells;
        board[ny, nx] := value;
        assert cells[..i + 1] == cells[..i] + [cells[i]];
        i := i + 1;
      }
      assert cells[..i] == cells;
    }

    /** Whether `m` placed at `p` leaves the board or overlaps a filled cell. */
    method IsConflict(p: Point, m: Mino) returns (c: bool)
      requires Sized(board)
      ensures c <==> !Fits(board, Placement(m, p))
    {
      ghost var cells := Placement(m, p);
      var i := 0;
      while i < |m.block.cells|
        invariant 0 <= i <= |m.block.cells|
        invariant Fits(board, cells[..i])
      {
        var cy := m.block.cells[i].y + p.y;
        var cx := m.block.cells[i].x + p.x;
        assert cells[i] == Point(cy, cx) && cells[i] in cells;
        if IsOutOfRange(cy, cx) {
          return true;
        }
        if board[cy, cx] == 1 {
          return true;
        }
        assert cells[..i + 1] == cells[..i] + [cells[i]];
        i := i + 1;
      }
      assert cells[..i] == cells;
      return false;
    }

    method ResetPosition()
      modifies this`position
      ensures position == Origin
    {
      position := Origin;
    }

    /**
     * Clears the piece, tests the target position, and draws the piece
     * either there (success) or back where it was (blocked).
     */
    method MoveMino(diff: Point) returns (ok: bool)
      requires Valid() && OnBoard(Cells())
      modifies this, board
      ensures Valid() && PieceShown()
      ensures Moved(diff, ok)
    {
      var np := Point(position.y + diff.y, position.x + diff.x);
      var m := mino;
      var base := position;
      ghost var own, dest := Cells(), Placement(m, np);
      assert np == Add(position, diff);
      ghost var canMove := FitsAfterErase(board, dest, own);
      assert canMove == CanMove(diff);
      Render(m, base, 0);
      assert Fits(board, dest) <==> canMove by {
        forall q | q in dest && !IsOutOfRange(q.y, q.x)
          ensures board[q.y, q.x] != 1 <==> old(board[q.y, q.x]) != 1 || q in own
        {
        }
      }
      var blocked := IsConflict(np, m);
      if blocked {
        Render(m, base, 1);
        assert forall y, x :: 0 <= y < Height && 0 <= x < Width ==>
          board[y, x] == if Point(y, x) in own then 1 else old(board[y, x]);
        assert PieceShown() by {
          forall q | q in own ensures !IsOutOfRange(q.y, q.x) && board[q.y, q.x] == 1 { }
        }
        assert !canMove;
        assert old(PieceShown()) ==> forall y, x :: 0 <= y < Height && 0 <= x < Width ==> board[y, x] == old(board[y, x]);
        return false;
      }
      Render(m, np, 1);
      assert forall y, x :: 0 <= y < Height && 0 <= x < Width ==>
        board[y, x] == if Point(y, x) in dest then 1 else if Point(y, x) in own then 0 else old(board[y, x]);
      assert canMove;
      position := np;
      assert PieceShown() by {
        assert Cells() == dest;
        forall q | q in dest ensures !IsOutOfRange(q.y, q.x) && board[q.y, q.x] == 1 { }
      }
      return true;
    }

    /** One downward step, attempted only while the piece is falling. */
    method Fall() returns (ok: bool)
      requires Valid() && (mino.isFalling ==> OnBoard(Cells()))
      modifies this, board
      ensures Valid()
      ensures !old(mino.isFalling) ==> !ok && unchanged(this) && unchanged(board)
      ensures old(mino.isFalling) ==> Moved(Down, ok) && PieceShown()
    {
      if !mino.isFalling {
        return false;
      }
      ok := MoveMino(Down);
    }

    /** Draws a new piece, chosen by the random byte `r`, at the top-left corner of the board. */
    method Spawn(r: u8) returns (ok: bool)
      requires Valid()
      modifies this, board
      ensures Valid() && Spawned(r, ok) && shouldQuit == old(shouldQuit)
      ensures mino.isFalling == (if ok then false else old(mino.isFalling))
      ensures ok ==> PieceShown()
    {
      var m := NewMino(r);
      ResetPosition();
      var c := IsConflict(position, m);
      if c {
        return false;
      }
      Render(m, position, 1);
      mino := m;
      return true;
    }

    /**
     * One tick of the game loop: the piece falls one row if it can; a piece
     * that cannot fall has landed and a new one, chosen by `r`, is spawned;
     * a spawn that does not fit ends the game.
     */
    method Tick(r: u8)
      requires Valid() && !shouldQuit && (mino.isFalling ==> PieceShown())
      modifies this, board
      ensures Valid() && mino.isFalling
      ensures !shouldQuit ==> PieceShown()
      ensures old(mino.isFalling && CanMove(Down)) ==> Moved(Down, true)
      ensures !old(mino.isFalling && CanMove(Down)) ==> Spawned(r, !shouldQuit)
    {
      var fell := Fall();
      if !fell {
        mino := mino.(isFalling := false);
      }
      if !mino.isFalling {
        var spawned := Spawn(r);
        if !spawned {
          shouldQuit := true;
        }
        mino := mino.(isFalling := true);
      }
    }
  }

  /**
   * A new piece always lies on the board at the origin, so a spawn is
   * refused exactly when one of its four cells is already filled.
   */
  lemma SpawnBlockedIffOccupied(b: array2<int>, r: u8)
    requires Sized(b)
    ensures !Fits(b, Placement(NewMino(r), Origin)) <==>
      exists q :: q in Placement(NewMino(r), Origin) && Filled(b, q)
  {
    var cells := Placement(NewMino(r), Origin);
    NewPieceOnBoard(r);
    if !Fits(b, cells) {
      var q :| q in cells && !(!IsOutOfRange(q.y, q.x) && b[q.y, q.x] != 1);
      assert !IsOutOfRange(q.y, q.x);
      assert Filled(b, q);
    }
    if q :| q in cells && Filled(b, q) {
      assert !(!IsOutOfRange(q.y, q.x) && b[q.y, q.x] != 1);
    }
  }

  /** Every cell of a new piece placed at the origin lies on the board. */
  lemma NewPieceOnBoard(r: u8)
    ensures OnBoard(Placement(NewMino(r), Origin))
  {
    var cells := Placement(NewMino(r), Origin);
    forall q | q in cells
      ensures !IsOutOfRange(q.y, q.x)
    {
      PlacementAnchored(NewMino(r), Origin);
    }
  }

  /** On an empty board every piece fits at the origin, so the first spawn succeeds. */
  lemma EmptyBoardFits(b: array2<int>, r: u8)
    requires Sized(b)
    requires forall y, x :: 0 <= y < Height && 0 <= x < Width ==> b[y, x] == 0
    ensures Fits(b, Placement(NewMino(r), Origin))
  {
    SpawnBlockedIffOccupied(b, r);
  }
}
