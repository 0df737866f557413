/**
 Food placement: the rejection sampling of `Food` in the main window. The
 random number generator is modelled as the sequence of values it hands out;
 each attempt consumes one draw (a column and a row index).
 */
module FoodPlacement {

  import opened Wrappers
  import opened Grid

  /** Whole cells across the playground (maxX): the width divided by the cell size, truncated. */
  function Columns(field: Field): (r: nat)
    ensures r * SquareSize <= field.width < r * SquareSize + SquareSize
  {
    field.width / SquareSize
  }

  /** Whole cells down the playground (maxY). */
  function Rows(field: Field): (r: nat)
    ensures r * SquareSize <= field.height < r * SquareSize + SquareSize
  {
    field.height / SquareSize
  }

  /**
   The values Random.Next(0, n) can return: 0 when n is 0 (the lower bound
   equals the upper bound), otherwise some v with 0 <= v < n.
   */
  predicate NextResult(n: nat, v: int)
  {
    if n == 0 then v == 0 else 0 <= v < n
  }

  /** One attempt of the sampler: the column and row indices drawn from the generator. */
  datatype Draw = Draw(col: int, row: int)

  predicate ValidDraw(field: Field, d: Draw)
  {
    NextResult(Columns(field), d.col) && NextResult(Rows(field), d.row)
  }

  predicate ValidDraws(field: Field, draws: seq<Draw>)
  {
    forall k :: 0 <= k < |draws| ==> ValidDraw(field, draws[k])
  }

  /** The pixel position a draw names. */
  function CellOf(d: Draw): Point
  {
    Point(d.col * SquareSize, d.row * SquareSize)
  }

  /** p is a cell the sampler can name: grid aligned, with indices Random.Next can return. */
  predicate OnBoard(field: Field, p: Point)
  {
    && Aligned(p)
    && NextResult(Columns(field), p.x / SquareSize)
    && NextResult(Rows(field), p.y / SquareSize)
  }

  /** p is a point that a completed placement can return for this body: on the board and free. */
  predicate Placeable(field: Field, body: seq<Point>, p: Point)
  {
    OnBoard(field, p) && p !in body
  }

  /** The cells named by valid draws are exactly the cells on the board. */
  lemma DrawCellRoundTrip(field: Field, d: Draw, p: Point)
    ensures ValidDraw(field, d) ==> OnBoard(field, CellOf(d))
    ensures CellOf(d).x / SquareSize == d.col && CellOf(d).y / SquareSize == d.row
    ensures OnBoard(field, p) ==> ValidDraw(field, Draw(p.x / SquareSize, p.y / SquareSize))
    ensures Aligned(p) ==> CellOf(Draw(p.x / SquareSize, p.y / SquareSize)) == p
  {
  }

  /**
   The strict boundary test on aligned points: a point is in bounds exactly
   when its cell indices lie in 0 .. Columns and 0 .. Rows, both ends
   included. EdgeCellsBeyondBoard says what that means for the cells the
   sampler names.
   */
  lemma InBoundsCells(field: Field, p: Point)
    requires Aligned(p)
    ensures !OutOfBounds(field, p) <==>
              0 <= p.x / SquareSize <= Columns(field) && 0 <= p.y / SquareSize <= Rows(field)
  {
  }

  /**
   On a playground at least one cell wide, the column with index Columns
   passes the boundary test although the sampler never names it; likewise
   the row with index Rows on a playground at least one cell high. On a
   playground narrower and lower than one cell, Random.Next(0, 0) returns 0,
   so the sampler names cell (0, 0), and that is the only aligned point
   that passes the test.
   */
  lemma EdgeCellsBeyondBoard(field: Field, p: Point)
    requires Aligned(p)
    ensures Columns(field) >= 1 && p.x / SquareSize == Columns(field) && 0 <= p.y / SquareSize <= Rows(field) ==>
              !OutOfBounds(field, p) && !OnBoard(field, p)
    ensures Rows(field) >= 1 && p.y / SquareSize == Rows(field) && 0 <= p.x / SquareSize <= Columns(field) ==>
              !OutOfBounds(field, p) && !OnBoard(field, p)
    ensures Columns(field) == 0 && Rows(field) == 0 ==>
              (!OutOfBounds(field, p) <==> p == Point(0, 0)) && (OnBoard(field, p) <==> p == Point(0, 0))
  {
    InBoundsCells(field, p);
  }

  /**
   A food cell lies within the fatal boundary test; together with the check
   order this is why eating never ends the game.
   */
  lemma OnBoardIsInBounds(field: Field, p: Point)
    requires OnBoard(field, p)
    ensures !OutOfBounds(field, p)
  {
  }

  /**
   The sampler run on the given draws: try the cell each draw names, retry
   while it is covered by the body, and return the first free one. None means
   that every supplied draw hit the body, so the window's `Food` would
   still be recursing; it never stops when the body covers the whole board.
   */
  function Food(field: Field, body: seq<Point>, draws: seq<Draw>): (r: Option<Point>)
    requires ValidDraws(field, draws)
    ensures r.Some? ==> Placeable(field, body, r.value)
    ensures r.Some? <==> exists k :: 0 <= k < |draws| && CellOf(draws[k]) !in body
    ensures r.Some? ==>
              exists k :: 0 <= k < |draws| && r.value == CellOf(draws[k])
                          && forall j :: 0 <= j < k ==> CellOf(draws[j]) in body
    decreases |draws|
  {
    if |draws| == 0 then None
    else
      var p := CellOf(draws[0]);
      DrawCellRoundTrip(field, draws[0], p);
      if p in body then
        var r := Food(field, body, draws[1..]);
        assert forall k :: 1 <= k < |draws| ==> draws[k] == draws[1..][k - 1];
        r
      else Some(p)
  }

  /**
   Every placeable point is a possible outcome of the sampler: the draw that
   names it is valid and is accepted on the first attempt. With the contract
   of Food, Placeable is exactly the set of points a placement can produce.
   */
  lemma PlaceableIsReachable(field: Field, body: seq<Point>, p: Point)
    requires Placeable(field, body, p)
    ensures ValidDraws(field, [Draw(p.x / SquareSize, p.y / SquareSize)])
    ensures Food(field, body, [Draw(p.x / SquareSize, p.y / SquareSize)]) == Some(p)
  {
    DrawCellRoundTrip(field, Draw(p.x / SquareSize, p.y / SquareSize), p);
  }
}
