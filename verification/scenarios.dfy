/**
 Concrete and general consequences of the transition rules that show the
 game's particular behaviour: the strict boundary, the one-part start, the
 restart move, moves after death and tail chasing.
 */
module Scenarios {

  import opened Grid
  import opened FoodPlacement
  import opened SnakeGame
  import opened Session

  /** A playground of ten by ten cells. */
  const Board: Field := Field(200, 200)

  /**
   The strict bounds test: heading right from x = 180 on a 200 pixel wide
   board reaches x = 200, one cell beyond the last visible column, and the
   game goes on; only the next step, to x = 220, ends it.
   */
  lemma EdgeColumnIsNotFatal()
    ensures var g := Game([Point(140, 100), Point(160, 100), Point(180, 100)], 3, Right, 0, 400, Point(0, 0), true);
            var once := Tick(Board, g, Point(0, 0));
            && once.running && Head(once) == Point(200, 100)
            && var twice := Tick(Board, once, Point(0, 0));
               !twice.running && Head(twice) == Point(220, 100) && twice.score == 0
  {
    var g := Game([Point(140, 100), Point(160, 100), Point(180, 100)], 3, Right, 0, 400, Point(0, 0), true);
    var once := Tick(Board, g, Point(0, 0));
    assert once.body == [Point(160, 100), Point(180, 100), Point(200, 100)];
    assert !HitsBody(once.body);
    var twice := Tick(Board, once, Point(0, 0));
    assert twice.body == [Point(180, 100), Point(200, 100), Point(220, 100)];
  }

  /** The first move of a new game appends the right neighbour of the start part. */
  lemma NewGameFirstMove(field: Field, food: Point)
    requires Placeable(field, [StartPoint], food)
    ensures Move(StartNewGame(field, food)).body == [StartPoint, Point(120, 100)]
  {
    var s := StartNewGame(field, food);
    assert Trim(s.body, s.targetLength) == [StartPoint];
  }

  /**
   The first tick of a new game, without food in the way: the body becomes
   the start part and its right neighbour, which ends the game only on a
   playground too small to hold that neighbour.
   */
  lemma NewGameFirstTick(field: Field, food: Point)
    requires Placeable(field, [StartPoint], food) && food != Point(120, 100)
    ensures TickReady(field, StartNewGame(field, food), food)
    ensures Tick(field, StartNewGame(field, food), food)
            == StartNewGame(field, food).(body := [StartPoint, Point(120, 100)],
                                          running := !OutOfBounds(field, Point(120, 100)))
  {
    NewGameFirstMove(field, food);
    var s := StartNewGame(field, food);
    var m := Move(s);
    assert !HitsBody(m.body);
    var r := MoveSnake(field, s, food);
    assert r.body == m.body && r.running == !OutOfBounds(field, Point(120, 100));
    assert r == Game(m.body, s.targetLength, s.direction, s.score, s.interval, s.food, r.running);
  }

  /**
   A new game has one part, not three: without food in the way the body has
   two parts after the first tick and reaches the target of three only after
   the second.
   */
  lemma NewGameGrowsToTarget(field: Field, food: Point)
    requires Placeable(field, [StartPoint], food)
    requires food != Point(120, 100) && food != Point(140, 100)
    ensures TickReady(field, StartNewGame(field, food), food)
    ensures var once := Tick(field, StartNewGame(field, food), food);
            && |once.body| == 2
            && (once.running ==> TickReady(field, once, food) && |Tick(field, once, food).body| == SnakeStartLength)
  {
    NewGameFirstTick(field, food);
    var once := Tick(field, StartNewGame(field, food), food);
    assert Trim(once.body, once.targetLength) == once.body;
    assert Move(once).body == once.body + [Point(140, 100)];
  }

  /**
   After a move that does not eat, a body that was at most one part short of
   its target has exactly the target length.
   */
  lemma BodyFillsTarget(field: Field, g: Game, newFood: Point)
    requires Valid(field, g) && TickReady(field, g, newFood)
    requires |g.body| >= g.targetLength - 1
    requires Shift(Head(g), g.direction) != g.food
    ensures |MoveSnake(field, g, newFood).body| == MoveSnake(field, g, newFood).targetLength
  {
  }

  /**
   Space on a stopped game whose direction was not Right restarts it and then
   moves once, because the direction before the key (not Right) differs from
   the fresh game's Right: the new game starts with two parts.
   */
  lemma RestartMovesWhenDirectionWasNotRight(field: Field, g: Game, startFood: Point, newFood: Point)
    requires !g.running && g.direction != Right
    requires Placeable(field, [StartPoint], startFood)
    requires TickReady(field, StartNewGame(field, startFood), newFood)
    ensures KeyUp(field, g, Space, startFood, newFood).body == [StartPoint, Shift(StartPoint, Right)]
    ensures KeyUp(field, g, Space, startFood, newFood).direction == Right
  {
    NewGameFirstMove(field, startFood);
  }

  /**
   The arrow keys are not tied to a game in progress: after the game ended an
   accepted turn still moves the snake (it can even eat), but the game stays
   stopped.
   */
  lemma TurnAfterGameOverStillMoves(field: Field, g: Game, d: Direction, newFood: Point)
    requires !g.running && Perpendicular(g.direction, d)
    requires TickReady(field, g.(direction := d), newFood)
    ensures var r := KeyUp(field, g, Arrow(d), newFood, newFood);
            !r.running && Head(r) == Shift(Head(g), d)
            && (Head(r) == g.food ==> r.score == g.score + 1)
  {
  }

  /**
   Following the own tail is safe when the body is at its target length,
   because the tail is trimmed before the head moves; a snake one part
   shorter than its target keeps the tail and dies.
   */
  lemma TailChase()
    ensures var body := [Point(20, 20), Point(40, 20), Point(40, 40), Point(20, 40)];
            && Tick(Board, Game(body, 4, Up, 1, 398, Point(100, 100), true), Point(0, 0)).running
            && !Tick(Board, Game(body, 5, Up, 2, 394, Point(100, 100), true), Point(0, 0)).running
  {
    var body := [Point(20, 20), Point(40, 20), Point(40, 40), Point(20, 40)];
    var safe := Move(Game(body, 4, Up, 1, 398, Point(100, 100), true));
    assert safe.body == [Point(40, 20), Point(40, 40), Point(20, 40), Point(20, 20)];
    assert !HitsBody(safe.body);
    var fatal := Move(Game(body, 5, Up, 2, 394, Point(100, 100), true));
    assert fatal.body == body + [Point(20, 20)];
    assert HitsBody(fatal.body);
  }

  /**
   The food test precedes both fatal tests: a head on the food keeps the game
   going even where the bounds or the body test would end it.
   */
  lemma EatingPrecedesCollision(field: Field, g: Game, newFood: Point)
    requires |g.body| > 0 && Head(g) == g.food && Placeable(field, g.body, newFood)
    requires g.running && (OutOfBounds(field, Head(g)) || HitsBody(g.body))
    ensures CheckCollision(field, g, newFood).running
  {
  }

  /** Ending a game twice, as CheckColision can, is the same as ending it once. */
  lemma EndGameIdempotent(g: Game)
    ensures EndGame(EndGame(g)) == EndGame(g)
  {
  }
}
