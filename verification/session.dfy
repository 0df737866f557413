/**
 Properties of whole sessions: the speed schedule, the invariant every state
 reached from StartNewGame keeps, and the rules of the key handler.
 */
module Session {

  import opened Grid
  import opened FoodPlacement
  import opened SnakeGame

  /**
   Consecutive parts are neighbouring cells. The pair form with j == i + 1
   avoids the matching loop that a trigger on s[i] and s[i + 1] would cause.
   */
  ghost predicate Connected(s: seq<Point>)
  {
    forall i, j :: 0 <= i < j < |s| && j == i + 1 ==> Adjacent(s[i], s[j])
  }

  ghost predicate Distinct(s: seq<Point>)
  {
    forall i, j :: 0 <= i < j < |s| ==> s[i] != s[j]
  }

  ghost predicate AllAligned(s: seq<Point>)
  {
    forall i :: 0 <= i < |s| ==> Aligned(s[i])
  }

  /**
   The invariant of a started session: a non-empty, connected, grid-aligned
   body no longer than the target; a target and interval determined by the
   score; food on the board and off the body; and, while the game is in
   progress, no two parts on the same cell.
   */
  ghost predicate Valid(field: Field, g: Game)
  {
    && 1 <= |g.body| <= g.targetLength
    && g.score >= 0
    && g.targetLength == SnakeStartLength + g.score
    && g.interval == IntervalAfterMeals(g.score)
    && AllAligned(g.body)
    && Connected(g.body)
    && OnBoard(field, g.food)
    && g.food !in g.body
    && (g.running ==> Distinct(g.body))
  }

  /**
   The compounding speed-up in closed form: after n meals the interval is
   max(100, 400 - n * (n + 1)), because the subtracted amounts 2, 4, 6, ...
   add up to n * (n + 1) until the threshold is reached.
   */
  lemma {:induction false} IntervalClosedForm(n: nat)
    ensures IntervalAfterMeals(n) == Max(SnakeSpeedThreshold, SnakeStartSpeed - n * (n + 1))
  {
    if n > 0 {
      IntervalClosedForm(n - 1);
      assert (n - 1) * n + 2 * n == n * (n + 1);
    }
  }

  /**
   The schedule never increases, never leaves [100, 400], and strictly
   decreases while it is above the threshold.
   */
  lemma IntervalSchedule(n: nat)
    ensures SnakeSpeedThreshold <= IntervalAfterMeals(n) <= SnakeStartSpeed
    ensures IntervalAfterMeals(n + 1) <= IntervalAfterMeals(n)
    ensures IntervalAfterMeals(n) > SnakeSpeedThreshold ==> IntervalAfterMeals(n + 1) < IntervalAfterMeals(n)
  {
    IntervalClosedForm(n);
    IntervalClosedForm(n + 1);
    assert n * (n + 1) <= (n + 1) * (n + 2);
  }

  /** The threshold is reached with the seventeenth meal: 16 * 17 = 272 < 300 <= 17 * 18. */
  lemma ThresholdReachedAtSeventeenMeals(n: nat)
    ensures IntervalAfterMeals(n) == SnakeSpeedThreshold <==> n >= 17
  {
    IntervalClosedForm(n);
    if n >= 17 {
      assert n * (n + 1) >= 17 * (n + 1) >= 17 * 18;
    } else {
      assert n * (n + 1) <= 16 * (n + 1) <= 16 * 17;
    }
  }

  /**
   Eating on a state within the schedule moves it one meal further: the
   interval neither increases nor drops below the threshold.
   */
  lemma EatFoodFollowsSchedule(field: Field, g: Game, newFood: Point)
    requires Placeable(field, g.body, newFood)
    requires g.score >= 0 && g.interval == IntervalAfterMeals(g.score)
    ensures EatFood(field, g, newFood).interval == IntervalAfterMeals(g.score + 1)
    ensures SnakeSpeedThreshold <= EatFood(field, g, newFood).interval <= g.interval
  {
    IntervalSchedule(g.score);
  }

  /** A direction request is ignored exactly when it asks for the current direction or its reverse. */
  lemma TurnRejectedIffSameOrOpposite(current: Direction, requested: Direction)
    ensures Turn(current, requested) == current <==> requested == current || requested == Opposite(current)
    ensures Turn(current, requested) != current ==> Turn(current, requested) == requested
  {
  }

  /** A suffix of a connected, aligned (and distinct) body is again one. */
  lemma SuffixKeepsShape(s: seq<Point>, k: nat)
    requires k <= |s| && AllAligned(s) && Connected(s)
    ensures AllAligned(s[k..]) && Connected(s[k..])
    ensures Distinct(s) ==> Distinct(s[k..])
  {
    var t := s[k..];
    assert forall i :: 0 <= i < |t| ==> t[i] == s[k + i];
  }

  /** Appending a neighbour of the last part keeps a body connected, aligned and, if new, distinct. */
  lemma AppendKeepsShape(s: seq<Point>, p: Point)
    requires |s| > 0 && AllAligned(s) && Connected(s)
    requires Aligned(p) && Adjacent(s[|s| - 1], p)
    ensures AllAligned(s + [p]) && Connected(s + [p])
    ensures Distinct(s) && p !in s ==> Distinct(s + [p])
  {
    var t := s + [p];
    assert forall i :: 0 <= i < |s| ==> t[i] == s[i];
    assert forall i :: 0 <= i < |t| - 1 ==> Adjacent(t[i], t[i + 1]) by {
      forall i | 0 <= i < |t| - 1
        ensures Adjacent(t[i], t[i + 1])
      {
        if i < |s| - 1 {
          assert Adjacent(s[i], s[i + 1]);
        }
      }
    }
  }

  /**
   A suffix of a shaped body extended by a neighbour of its last part is
   again shaped; a point off the body is off the suffix.
   */
  lemma ExtendSuffixKeepsShape(s: seq<Point>, k: nat, p: Point, q: Point)
    requires k < |s| && AllAligned(s) && Connected(s)
    requires Aligned(p) && Adjacent(s[|s| - 1], p)
    ensures AllAligned(s[k..] + [p]) && Connected(s[k..] + [p])
    ensures Distinct(s) && p !in s[k..] ==> Distinct(s[k..] + [p])
    ensures q !in s ==> q !in s[k..]
  {
    SuffixKeepsShape(s, k);
    AppendKeepsShape(s[k..], p);
  }

  /**
   A move keeps the body connected and aligned, keeps food placed off the body
   off every part but the new head, and keeps the parts distinct unless the
   new head hits the body.
   */
  lemma MoveKeepsShape(g: Game)
    requires CanMove(g) && AllAligned(g.body) && Connected(g.body)
    ensures AllAligned(Move(g).body) && Connected(Move(g).body)
    ensures g.food !in g.body ==> g.food !in Move(g).body[..|Move(g).body| - 1]
    ensures Distinct(g.body) && !HitsBody(Move(g).body) ==> Distinct(Move(g).body)
  {
    var b := Move(g).body;
    var k := |g.body| - (|b| - 1);
    var h := Shift(Head(g), g.direction);
    assert b[..|b| - 1] == g.body[k..];
    assert b == g.body[k..] + [h];
    ExtendSuffixKeepsShape(g.body, k, h, g.food);
  }

  /** A new game is a valid session, whatever state the window was in. */
  lemma StartNewGameIsValid(field: Field, food: Point)
    requires Placeable(field, [StartPoint], food)
    ensures Valid(field, StartNewGame(field, food))
  {
  }

  /** Valid sessions can always be moved: the body is non-empty and the target at least 3. */
  lemma ValidCanMove(field: Field, g: Game)
    requires Valid(field, g)
    ensures CanMove(g) && g.targetLength >= SnakeStartLength
    ensures SnakeSpeedThreshold <= g.interval <= SnakeStartSpeed
  {
    IntervalSchedule(g.score);
  }

  /** After a move onto the food the body keeps its shape: the head was the food, so it was off the body. */
  lemma EatingMoveKeepsShape(field: Field, g: Game, newFood: Point)
    requires Valid(field, g) && TickReady(field, g, newFood)
    requires Head(Move(g)) == g.food
    ensures AllAligned(MoveSnake(field, g, newFood).body) && Connected(MoveSnake(field, g, newFood).body)
    ensures MoveSnake(field, g, newFood).running ==> Distinct(MoveSnake(field, g, newFood).body)
  {
    var m := Move(g);
    MoveKeepsShape(g);
    assert !HitsBody(m.body);
  }

  /** After a move onto the food the interval is one meal further along the schedule. */
  lemma EatingMoveKeepsSchedule(field: Field, g: Game, newFood: Point)
    requires TickReady(field, g, newFood) && Head(Move(g)) == g.food
    requires g.score >= 0 && g.interval == IntervalAfterMeals(g.score)
    ensures MoveSnake(field, g, newFood).interval == IntervalAfterMeals(g.score + 1)
    ensures MoveSnake(field, g, newFood).interval == IntervalAfterMeals(MoveSnake(field, g, newFood).score)
  {
    var m := Move(g);
    var r := MoveSnake(field, g, newFood);
    assert r == EatFood(field, m, newFood);
    EatFoodFollowsSchedule(field, m, newFood);
    assert m.score == g.score && r.score == g.score + 1;
  }

  /** After a move onto the food, target and food follow the score one meal further. */
  lemma EatingMoveKeepsCounters(field: Field, g: Game, newFood: Point)
    requires Valid(field, g) && TickReady(field, g, newFood)
    requires Head(Move(g)) == g.food
    ensures var r := MoveSnake(field, g, newFood);
            && 1 <= |r.body| <= r.targetLength
            && r.score >= 0 && r.targetLength == SnakeStartLength + r.score
            && OnBoard(field, r.food) && r.food !in r.body
  {
    var m := Move(g);
    assert MoveSnake(field, g, newFood) == EatFood(field, m, newFood);
  }

  /** A move onto the food keeps the invariant. */
  lemma EatingMoveKeepsValid(field: Field, g: Game, newFood: Point)
    requires Valid(field, g) && TickReady(field, g, newFood)
    requires Head(Move(g)) == g.food
    ensures Valid(field, MoveSnake(field, g, newFood))
  {
    var r := MoveSnake(field, g, newFood);
    EatingMoveKeepsShape(field, g, newFood);
    EatingMoveKeepsCounters(field, g, newFood);
    EatingMoveKeepsSchedule(field, g, newFood);
  }

  /** A move beside the food keeps the invariant: a game still running after it has no self-hit. */
  lemma PlainMoveKeepsValid(field: Field, g: Game, newFood: Point)
    requires Valid(field, g) && TickReady(field, g, newFood)
    requires Head(Move(g)) != g.food
    ensures Valid(field, MoveSnake(field, g, newFood))
  {
    var m := Move(g);
    MoveKeepsShape(g);
    var r := MoveSnake(field, g, newFood);
    assert r == m.(running := r.running);
  }

  /**
   MoveSnake keeps a valid session valid, whether it eats, dies or simply
   moves, and whether or not the game is still in progress.
   */
  lemma MoveSnakePreservesValid(field: Field, g: Game, newFood: Point)
    requires Valid(field, g) && TickReady(field, g, newFood)
    ensures Valid(field, MoveSnake(field, g, newFood))
  {
    if Head(Move(g)) == g.food {
      EatingMoveKeepsValid(field, g, newFood);
    } else {
      PlainMoveKeepsValid(field, g, newFood);
    }
  }

  /** One firing of the timer keeps a valid session valid. */
  lemma TickPreservesValid(field: Field, g: Game, newFood: Point)
    requires Valid(field, g) && (g.running ==> TickReady(field, g, newFood))
    ensures Valid(field, Tick(field, g, newFood))
  {
    if g.running {
      MoveSnakePreservesValid(field, g, newFood);
    }
  }

  /** Every key keeps a valid session valid, the restart included. */
  lemma KeyUpPreservesValid(field: Field, g: Game, key: Key, startFood: Point, newFood: Point)
    requires Valid(field, g)
    requires key == Space && !g.running ==> Placeable(field, [StartPoint], startFood)
    requires PressKey(field, g, key, startFood).direction != g.direction ==>
               TickReady(field, PressKey(field, g, key, startFood), newFood)
    ensures Valid(field, KeyUp(field, g, key, startFood, newFood))
  {
    var pressed := PressKey(field, g, key, startFood);
    if key == Space && !g.running {
      StartNewGameIsValid(field, startFood);
    }
    assert Valid(field, pressed);
    if pressed.direction != g.direction {
      MoveSnakePreservesValid(field, pressed, newFood);
    }
  }

  /**
   Before the first game only Space starts anything; Left, Right and other
   keys change nothing, while Up and Down are accepted turns whose move would
   read the head of an empty body.
   */
  lemma KeysBeforeFirstGame(field: Field, startFood: Point, newFood: Point)
    requires Placeable(field, [StartPoint], startFood)
    ensures Valid(field, KeyUp(field, Initial(), Space, startFood, newFood))
    ensures KeyUp(field, Initial(), Arrow(Left), startFood, newFood) == Initial()
    ensures KeyUp(field, Initial(), Arrow(Right), startFood, newFood) == Initial()
    ensures KeyUp(field, Initial(), Other, startFood, newFood) == Initial()
    ensures PressKey(field, Initial(), Arrow(Up), startFood).direction != Initial().direction
    ensures PressKey(field, Initial(), Arrow(Down), startFood).direction != Initial().direction
    ensures !TickReady(field, PressKey(field, Initial(), Arrow(Up), startFood), newFood)
    ensures !TickReady(field, PressKey(field, Initial(), Arrow(Down), startFood), newFood)
  {
    StartNewGameIsValid(field, startFood);
  }

  /**
   An accepted turn moves the snake exactly once, in the new direction,
   whether or not a game is in progress; a rejected one leaves the body where
   it was.
   */
  lemma KeyUpMovesOnlyOnTurn(field: Field, g: Game, d: Direction, newFood: Point)
    requires Perpendicular(g.direction, d) ==> TickReady(field, g.(direction := d), newFood)
    ensures Perpendicular(g.direction, d) ==>
              var r := KeyUp(field, g, Arrow(d), newFood, newFood);
              r.direction == d && |r.body| > 0 && |g.body| > 0 && Head(r) == Shift(Head(g), d)
              && |r.body| == Min(|g.body| + 1, g.targetLength)
    ensures !Perpendicular(g.direction, d) ==> KeyUp(field, g, Arrow(d), newFood, newFood) == g
  {
    if Perpendicular(g.direction, d) {
      var turned := g.(direction := d);
      MoveSnakeStep(field, turned, newFood);
      assert KeyUp(field, g, Arrow(d), newFood, newFood) == MoveSnake(field, turned, newFood);
    }
  }

  /** The length and head of the body after one MoveSnake step. */
  lemma MoveSnakeStep(field: Field, g: Game, newFood: Point)
    requires TickReady(field, g, newFood)
    ensures |MoveSnake(field, g, newFood).body| == Min(|g.body| + 1, g.targetLength)
    ensures Head(MoveSnake(field, g, newFood)) == Shift(Head(g), g.direction)
    ensures MoveSnake(field, g, newFood).direction == g.direction
  {
  }
}
