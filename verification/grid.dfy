/**
 The playing field of the snake game: pixel points that are multiples of the
 cell size, the four directions of travel and the boundary test.
 */
module Grid {

  /** Edge length, in pixels, of one cell of the grid (SnakeSquareSize). */
  const SquareSize: int := 20

  /** A pixel position on the canvas; the game only ever uses multiples of SquareSize. */
  datatype Point = Point(x: int, y: int)

  datatype Direction = Left | Right | Up | Down

  /**
   The playground's actual size in pixels. The window reports it as a floating
   point number; only its integer part matters, because every coordinate it is
   compared with or divided into is an integer.
   */
  datatype Field = Field(width: nat, height: nat)

  function Min(a: int, b: int): int { if a <= b then a else b }

  function Max(a: int, b: int): int { if a >= b then a else b }

  function Abs(n: int): nat { if n < 0 then -n else n }

  predicate Horizontal(d: Direction) { d == Left || d == Right }

  /** Two directions are perpendicular when exactly one of them is horizontal. */
  predicate Perpendicular(a: Direction, b: Direction) { Horizontal(a) != Horizontal(b) }

  /** The direction of travel that would reverse d. */
  function Opposite(d: Direction): (r: Direction)
    ensures r != d && !Perpendicular(r, d)
    ensures forall e :: e != d && e != r ==> Perpendicular(e, d)
  {
    match d
    case Left => Right
    case Right => Left
    case Up => Down
    case Down => Up
  }

  predicate Aligned(p: Point) { p.x % SquareSize == 0 && p.y % SquareSize == 0 }

  /** p and q are neighbouring cells: one cell apart on exactly one axis. */
  predicate Adjacent(p: Point, q: Point)
  {
    || (p.x == q.x && Abs(p.y - q.y) == SquareSize)
    || (p.y == q.y && Abs(p.x - q.x) == SquareSize)
  }

  /**
   The cell one step from p in direction d (the switch in MoveSnake): the
   result is a neighbour of p lying on the side that d points to, where the
   y axis grows downwards as on the canvas.
   */
  function Shift(p: Point, d: Direction): (q: Point)
    ensures Adjacent(p, q)
    ensures Horizontal(d) <==> q.y == p.y
    ensures d == Right ==> q.x > p.x
    ensures d == Left ==> q.x < p.x
    ensures d == Down ==> q.y > p.y
    ensures d == Up ==> q.y < p.y
    ensures Aligned(p) ==> Aligned(q)
  {
    match d
    case Left => Point(p.x - SquareSize, p.y)
    case Right => Point(p.x + SquareSize, p.y)
    case Up => Point(p.x, p.y - SquareSize)
    case Down => Point(p.x, p.y + SquareSize)
  }

  /** Stepping back in the opposite direction returns to the starting cell. */
  lemma ShiftRoundTrip(p: Point, d: Direction)
    ensures Shift(Shift(p, d), Opposite(d)) == p
  {
  }

  /** Every neighbour of p is reached by shifting p in exactly one direction. */
  lemma AdjacentIsShift(p: Point, q: Point)
    requires Adjacent(p, q)
    ensures exists d :: Shift(p, d) == q
    ensures forall d, e :: Shift(p, d) == q && Shift(p, e) == q ==> d == e
  {
    if q.x > p.x {
      assert Shift(p, Right) == q;
    } else if q.x < p.x {
      assert Shift(p, Left) == q;
    } else if q.y > p.y {
      assert Shift(p, Down) == q;
    } else {
      assert Shift(p, Up) == q;
    }
  }

  /**
   The fatal boundary test of CheckColision. It is strict: a head whose
   x equals the width (or whose y equals the height), one cell beyond the
   right (or bottom) edge when the size is a multiple of the cell size, is
   still in bounds.
   */
  predicate OutOfBounds(field: Field, p: Point)
  {
    p.y < 0 || p.y > field.height || p.x < 0 || p.x > field.width
  }
}
