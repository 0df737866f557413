/**
 The snake game's state machine: the fields of the main window that hold a
 session, and the transitions MoveSnake, CheckColision, SnakeEatsFood,
 EndGame, StartNewGame and the key handler, with the drawing removed.
 */
module SnakeGame {

  import opened Grid
  import opened FoodPlacement

  const SnakeStartLength: int := 3
  /** Tick interval, in milliseconds, of a new game. */
  const SnakeStartSpeed: int := 400
  /** The shortest tick interval eating can bring about. */
  const SnakeSpeedThreshold: int := 100
  /** The single part a new game starts with. */
  const StartPoint: Point := Point(SquareSize * 5, SquareSize * 5)

  /**
   The session fields of the window. The body lists the parts tail first,
   head last; targetLength is snakeLength; interval is the tick timer's
   interval in milliseconds; running stands for both IsGameInProgress and the
   timer being enabled, which are always switched together.
   */
  datatype Game = Game(
    body: seq<Point>,
    targetLength: int,
    direction: Direction,
    score: int,
    interval: int,
    food: Point,
    running: bool)

  /** The keys the key handler distinguishes. */
  datatype Key = Arrow(towards: Direction) | Space | Other

  /**
   The window before the first game: an empty body, snakeLength 0 and a
   direction of Right. The timer interval has its default of 0 and no food
   exists yet; the food field here is never read before StartNewGame.
   */
  function Initial(): (r: Game)
    ensures !r.running && |r.body| == 0 && r.targetLength == 0 && !CanMove(r)
    ensures r.direction == Right && r.score == 0 && r.interval == 0
  {
    Game([], 0, Right, 0, 0, Point(0, 0), false)
  }

  function Head(g: Game): Point
    requires |g.body| > 0
  {
    g.body[|g.body| - 1]
  }

  /**
   The trimming loop of MoveSnake: drop the oldest part while the body is at
   least as long as the target. What remains is the newest
   min(|parts|, targetLength - 1) parts, in their original order.
   */
  function Trim(parts: seq<Point>, targetLength: int): (r: seq<Point>)
    requires targetLength >= 1
    ensures |r| == Min(|parts|, targetLength - 1)
    ensures r == parts[|parts| - |r|..]
    decreases |parts|
  {
    if |parts| >= targetLength then Trim(parts[1..], targetLength) else parts
  }

  /**
   MoveSnake reads the head after trimming, so it needs a part left over:
   with an empty body or a target below 2 the list is emptied and the read
   of its last element throws.
   */
  predicate CanMove(g: Game)
  {
    |g.body| >= 1 && g.targetLength >= 2
  }

  /**
   The crash domain of MoveSnake: for a positive target, the trim leaves a
   part whose position can be read as the head exactly when CanMove holds.
   */
  lemma TrimLeavesHeadIffCanMove(body: seq<Point>, targetLength: int)
    requires targetLength >= 1
    ensures |Trim(body, targetLength)| > 0 <==> |body| >= 1 && targetLength >= 2
  {
  }

  /**
   The body update of MoveSnake: trim, then append the cell one step from
   the head in the current direction. Nothing but the body changes.
   */
  function Move(g: Game): (r: Game)
    requires CanMove(g)
    ensures |r.body| == Min(|g.body| + 1, g.targetLength)
    ensures Head(r) == Shift(Head(g), g.direction)
    ensures r.body[..|r.body| - 1] == g.body[|g.body| - (|r.body| - 1)..]
    ensures r.targetLength == g.targetLength && r.direction == g.direction && r.score == g.score
    ensures r.interval == g.interval && r.food == g.food && r.running == g.running
  {
    var kept := Trim(g.body, g.targetLength);
    g.(body := kept + [Shift(kept[|kept| - 1], g.direction)])
  }

  /** The head coincides with an earlier part (the loop over all parts but the last). */
  predicate HitsBody(body: seq<Point>)
    requires |body| > 0
  {
    body[|body| - 1] in body[..|body| - 1]
  }

  /** The body test compares the head with every earlier part, by position. */
  lemma HitsBodyIffEarlierPart(body: seq<Point>)
    requires |body| > 0
    ensures HitsBody(body) <==> exists i :: 0 <= i < |body| - 1 && body[i] == body[|body| - 1]
  {
    var earlier := body[..|body| - 1];
    assert forall i :: 0 <= i < |earlier| ==> earlier[i] == body[i];
  }

  /** EndGame without the message box: the timer stops and the game is no longer in progress. */
  function EndGame(g: Game): (r: Game)
    ensures !r.running
    ensures r.(running := g.running) == g
  {
    g.(running := false)
  }

  /**
   The sequence of intervals a session passes through: after the n-th meal
   the interval is the previous one minus 2 * n, but never below the
   threshold.
   */
  function IntervalAfterMeals(n: nat): int
  {
    if n == 0 then SnakeStartSpeed
    else Max(SnakeSpeedThreshold, IntervalAfterMeals(n - 1) - 2 * n)
  }

  /**
   SnakeEatsFood: the target length and the score go up by one, the interval
   shrinks by twice the new score but not below the threshold, and new food
   is placed on a free cell of the current body.
   */
  function EatFood(field: Field, g: Game, newFood: Point): (r: Game)
    requires Placeable(field, g.body, newFood)
    ensures r.targetLength == g.targetLength + 1 && r.score == g.score + 1
    ensures r.interval == Max(SnakeSpeedThreshold, g.interval - 2 * r.score)
    ensures r.food == newFood && r.food !in r.body && OnBoard(field, r.food)
    ensures r.body == g.body && r.direction == g.direction && r.running == g.running
  {
    var score := g.score + 1;
    g.(targetLength := g.targetLength + 1,
       score := score,
       interval := Max(SnakeSpeedThreshold, g.interval - score * 2),
       food := newFood)
  }

  /**
   CheckColision. The food test comes first and returns; otherwise the bounds
   test and then the body test may each end the game (the bounds branch does
   not return, so both can fire).
   */
  function CheckCollision(field: Field, g: Game, newFood: Point): (r: Game)
    requires |g.body| > 0
    requires Head(g) == g.food ==> Placeable(field, g.body, newFood)
    ensures Head(g) == g.food ==>
              r.running == g.running && r.score == g.score + 1 && r.food == newFood
    ensures Head(g) == g.food ==> r == EatFood(field, g, newFood)
    ensures Head(g) != g.food ==>
              r == g.(running := g.running && !OutOfBounds(field, Head(g)) && !HitsBody(g.body))
  {
    var head := Head(g);
    if head == g.food then
      EatFood(field, g, newFood)
    else
      var afterBounds := if OutOfBounds(field, head) then EndGame(g) else g;
      if HitsBody(g.body) then EndGame(afterBounds) else afterBounds
  }

  /**
   What MoveSnake demands: a body it can move and, when the new head lands on
   the food, a cell the placement can return for the moved body.
   */
  predicate TickReady(field: Field, g: Game, newFood: Point)
  {
    && CanMove(g)
    && (Head(Move(g)) == g.food ==> Placeable(field, Move(g).body, newFood))
  }

  /** MoveSnake: move the body one cell, then resolve collisions for the new head. */
  function MoveSnake(field: Field, g: Game, newFood: Point): (r: Game)
    requires TickReady(field, g, newFood)
    ensures r.body == Move(g).body && r.direction == g.direction
    ensures Head(r) == Shift(Head(g), g.direction)
    ensures Head(r) == g.food ==>
              r.running == g.running && r.score == g.score + 1 && r.targetLength == g.targetLength + 1
              && r == EatFood(field, Move(g), newFood)
    ensures Head(r) != g.food ==>
              r.score == g.score && r.targetLength == g.targetLength && r.food == g.food
              && r.interval == g.interval
              && (r.running <==> g.running && !OutOfBounds(field, Head(r)) && !HitsBody(r.body))
  {
    var moved := Move(g);
    assert |moved.body| >= 2 && Head(moved) == Shift(Head(g), g.direction);
    var r := CheckCollision(field, moved, newFood);
    assert r.body == moved.body && |r.body| <= g.targetLength;
    assert Head(moved) == g.food ==> r == EatFood(field, moved, newFood);
    assert Head(moved) != g.food ==>
             r == moved.(running := g.running && !OutOfBounds(field, Head(moved)) && !HitsBody(moved.body));
    r
  }

  /**
   One firing of the tick timer. The timer is only armed while a game is in
   progress, so a stopped game does not change.
   */
  function Tick(field: Field, g: Game, newFood: Point): (r: Game)
    requires g.running ==> TickReady(field, g, newFood)
    ensures !g.running ==> r == g
    ensures g.running ==> r == MoveSnake(field, g, newFood)
    ensures g.running ==> |r.body| > 0 && Head(r) == Shift(Head(g), g.direction)
    ensures r.direction == g.direction
    ensures g.running && !r.running ==> r.score == g.score
  {
    if g.running then MoveSnake(field, g, newFood) else g
  }

  /**
   StartNewGame (with the running flag the key handler sets just before it):
   whatever the previous state, a session starts with score 0, a target of
   three parts, direction Right, the single part StartPoint, the start
   interval and food on a free board cell.
   */
  function StartNewGame(field: Field, food: Point): (r: Game)
    requires Placeable(field, [StartPoint], food)
    ensures r.score == 0 && r.targetLength == SnakeStartLength && r.direction == Right
    ensures r.body == [StartPoint] && r.interval == SnakeStartSpeed && r.running
    ensures r.food == food && r.food !in r.body && OnBoard(field, r.food)
  {
    Game([StartPoint], SnakeStartLength, Right, 0, SnakeStartSpeed, food, true)
  }

  /**
   The direction rule of the key handler: a requested direction replaces the
   current one only when it is perpendicular to it; asking for the same or
   the opposite direction keeps the current one.
   */
  function Turn(current: Direction, requested: Direction): (r: Direction)
    ensures Perpendicular(current, requested) ==> r == requested
    ensures !Perpendicular(current, requested) ==> r == current
  {
    match requested
    case Up => if current != Up && current != Down then Up else current
    case Down => if current != Down && current != Up then Down else current
    case Left => if current != Left && current != Right then Left else current
    case Right => if current != Right && current != Left then Right else current
  }

  /**
   The switch of the key handler: arrows go through Turn whether or not a
   game is in progress; Space starts a new game only when none is.
   */
  function PressKey(field: Field, g: Game, key: Key, startFood: Point): (r: Game)
    requires key == Space && !g.running ==> Placeable(field, [StartPoint], startFood)
    ensures key.Arrow? ==> r == g.(direction := r.direction)
    ensures key.Arrow? ==> (r.direction != g.direction <==> Perpendicular(g.direction, key.towards))
    ensures key.Arrow? && Perpendicular(g.direction, key.towards) ==> r == g.(direction := key.towards)
    ensures key == Space && !g.running ==> r == StartNewGame(field, startFood)
    ensures key == Other || (key == Space && g.running) ==> r == g
  {
    match key
    case Arrow(d) => g.(direction := Turn(g.direction, d))
    case Space => if !g.running then StartNewGame(field, startFood) else g
    case Other => g
  }

  /**
   Window_KeyUp: apply the key, then move once if the direction now differs
   from the one held before the key. startFood is the placement a restart
   needs and newFood the one a move onto the food needs.
   */
  function KeyUp(field: Field, g: Game, key: Key, startFood: Point, newFood: Point): (r: Game)
    requires key == Space && !g.running ==> Placeable(field, [StartPoint], startFood)
    requires PressKey(field, g, key, startFood).direction != g.direction ==>
               TickReady(field, PressKey(field, g, key, startFood), newFood)
    // The next two clauses follow from the requires. They name, for each case
    // that moves, the state MoveSnake is applied to, so that the clauses after
    // them are cheap to check for well-formedness; they add no meaning.
    ensures key.Arrow? && Perpendicular(g.direction, key.towards) ==>
              TickReady(field, g.(direction := key.towards), newFood)
    ensures key == Space && !g.running && g.direction != Right ==>
              TickReady(field, StartNewGame(field, startFood), newFood)
    ensures key.Arrow? && Perpendicular(g.direction, key.towards) ==>
              r == MoveSnake(field, g.(direction := key.towards), newFood)
    ensures key.Arrow? && !Perpendicular(g.direction, key.towards) ==> r == g
    ensures key == Other || (key == Space && g.running) ==> r == g
    ensures key == Space && !g.running && g.direction == Right ==>
              r == StartNewGame(field, startFood)
    ensures key == Space && !g.running && g.direction != Right ==>
              r == MoveSnake(field, StartNewGame(field, startFood), newFood)
  {
    var pressed := PressKey(field, g, key, startFood);
    assert key.Arrow? && Perpendicular(g.direction, key.towards) ==>
             pressed == g.(direction := key.towards);
    assert key == Space && !g.running ==> pressed == StartNewGame(field, startFood);
    if pressed.direction != g.direction then MoveSnake(field, pressed, newFood) else pressed
  }
}
