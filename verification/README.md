# Snake game state machine, in Dafny

This project models the game logic of a WPF snake game, `Snake/MainWindow.xaml.cs`,
with the drawing removed. What remains is a small, deterministic transition system
over the window's session fields. The body is a list of grid-aligned pixel points,
tail first and head last. The other fields are the target length (`snakeLength`),
the direction, the score, the tick interval, the food point and a running flag.
The running flag stands for both `IsGameInProgress` and the enabled tick timer,
which the code always switches together.

Modules:

- `Wrappers` (wrappers.dfy) holds the `Option` type that a placement which can fail
  returns.
- `Grid` (grid.dfy) holds points, directions and the cell size of 20 pixels. It also
  has the one-cell step `Shift`, the reversal relation and the strict boundary test.
- `FoodPlacement` (food.dfy) holds the rejection sampler `Food`. Its random generator
  is the sequence of draws it consumes. `Placeable` is exactly the set of points a
  finished placement can return.
- `SnakeGame` (game.dfy) holds the transitions: `Trim`, `Move`, `CheckCollision`,
  `EatFood`, `EndGame`, `MoveSnake`, `Tick`, `StartNewGame`, `Turn`, `PressKey` and
  `KeyUp`.
- `Session` (session.dfy) holds the closed form of the speed schedule and the
  invariant `Valid`. `StartNewGame` establishes `Valid`, and every tick and every key
  preserves it.
- `Scenarios` (scenarios.dfy) holds consequences that show the game's particular
  behaviour.

Coordinates are integer pixels. The playground's `ActualWidth`/`ActualHeight` are
doubles in the source; here they are `Field(width, height)`, their integer parts.
This loses nothing, for two reasons:

- Every coordinate compared with them is an integer, and the comparison is a strict `>`.
- `(int)(w / 20)` equals `floor(w) / 20` for non-negative `w`.

The code has several quirks; the model follows it in each:

- A new game starts with ONE part at (100, 100), not three. The body grows to three
  over the first two ticks (`Scenarios.NewGameGrowsToTarget`).
- The bounds test is strict (`x > width`). When the playground's size is a multiple of
  20, a head one cell beyond the right or bottom edge survives
  (`Scenarios.EdgeColumnIsNotFatal`). Otherwise the cell that straddles the edge
  survives, and the first cell wholly beyond it dies.
  On a playground at least one cell wide, the test admits one column more than the
  sampler names. On a playground narrower and lower than one cell, it admits only the
  cell (0, 0) that the sampler names (`FoodPlacement.EdgeCellsBeyondBoard`).
- The bounds branch does not return, so the body test runs after it as well. Ending
  a game is idempotent, so firing both tests gives the same state.
- Arrow keys are handled whether or not a game is in progress. An accepted turn after
  game over still moves the snake, and it can even eat
  (`Scenarios.TurnAfterGameOverStillMoves`).
- The key handler saves the direction before Space restarts the game. If that
  direction was not Right, the restart is followed by one move
  (`Scenarios.RestartMovesWhenDirectionWasNotRight`).
- Every accepted turn moves the snake immediately, in addition to the timer's ticks.
- Each meal subtracts twice the new score from the *current* interval. The interval
  after n meals is therefore max(100, 400 - n(n+1)), and it reaches the floor of 100
  at the 17th meal.
- `MoveSnake` reads the head after trimming. It therefore needs a non-empty body and
  a target of at least 2: with a target of 1 the trim empties the list. The
  precondition `CanMove` says exactly this.
- `Random.Next(0, n)` returns 0 when `n` is 0. On a playground narrower than one cell,
  all food therefore lies in column 0.

## Model

| member | source | states |
|---|---|---|
| Grid.Shift | Snake/MainWindow.xaml.cs:139-153 | the next head is a neighbouring cell, one cell away on exactly one axis, on the side the direction points to; alignment to the grid is kept |
| Grid.ShiftRoundTrip | Snake/MainWindow.xaml.cs:139-153 | a step followed by a step in the opposite direction returns to the start |
| Grid.AdjacentIsShift | Snake/MainWindow.xaml.cs:139-153 | every neighbouring cell is reached by exactly one direction |
| Grid.Opposite | Snake/MainWindow.xaml.cs:266-292 | the reverse of a direction differs from it and is not perpendicular to it; every other direction is perpendicular to it |
| FoodPlacement.Food | Snake/MainWindow.xaml.cs:209-224 | a completed placement is grid aligned, inside the sampled range and off the body; it succeeds iff some draw names a free cell, and it returns the first such draw |
| FoodPlacement.PlaceableIsReachable | Snake/MainWindow.xaml.cs:211-223 | every aligned, in-range, free point can come out of the sampler, so the food parameter of the transitions ranges over exactly the sampler's outcomes |
| FoodPlacement.DrawCellRoundTrip | Snake/MainWindow.xaml.cs:211-214 | valid draws name exactly the on-board cells, and the conversion between draw and pixel point round-trips |
| FoodPlacement.Columns | Snake/MainWindow.xaml.cs:211 | maxX is the number of whole cells across: the largest count whose pixel width fits in the playground width |
| FoodPlacement.Rows | Snake/MainWindow.xaml.cs:212 | maxY is the number of whole cells down: the largest count whose pixel height fits in the playground height |
| FoodPlacement.NextResult | Snake/MainWindow.xaml.cs:213-214 | Random.Next(0, n) yields 0 when n is 0 and a value in [0, n) otherwise; it has no contract of its own, and DrawCellRoundTrip and Food state what follows from it |
| Grid.OutOfBounds | Snake/MainWindow.xaml.cs:314 | the strict boundary test; it has no contract of its own, and InBoundsCells characterises it |
| FoodPlacement.InBoundsCells | Snake/MainWindow.xaml.cs:314 | an aligned point survives the boundary test iff its cell indices lie in 0..maxX and 0..maxY inclusive |
| FoodPlacement.EdgeCellsBeyondBoard | Snake/MainWindow.xaml.cs:211-214 | on a playground at least one cell wide (high), the column maxX (the row maxY) passes the bounds test of line 314 although the sampler never names it; on a playground below one cell in both directions, Random.Next(0, 0) gives 0, and cell (0, 0) is both the only cell the sampler names and the only aligned point that passes the test |
| FoodPlacement.OnBoardIsInBounds | Snake/MainWindow.xaml.cs:211-214 | every food cell passes the fatal bounds test |
| SnakeGame.Trim | Snake/MainWindow.xaml.cs:124-128 | the trimming loop keeps the newest min(n, target-1) parts in order, removing only from the tail |
| SnakeGame.CanMove | Snake/MainWindow.xaml.cs:124-135 | the domain on which MoveSnake does not throw; it has no contract of its own, and TrimLeavesHeadIffCanMove justifies it |
| SnakeGame.TrimLeavesHeadIffCanMove | Snake/MainWindow.xaml.cs:124-135 | for a positive target the trimming loop leaves a part to read as the head iff the body is non-empty and the target is at least 2 |
| SnakeGame.Move | Snake/MainWindow.xaml.cs:124-158 | after a move the body has min(old length + 1, target) parts; the new head is one step from the old head in the current direction; the parts before it are an unchanged suffix of the old body; no other field changes |
| SnakeGame.EndGame | Snake/MainWindow.xaml.cs:342-347 | ending stops the game and changes nothing else |
| SnakeGame.Initial | Snake/MainWindow.xaml.cs:18-40 | the window before the first game: no game in progress, an empty body that cannot be moved (snakeLength 0), direction Right, score 0 and the timer's default interval of 0; the null food is a placeholder never read |
| SnakeGame.IntervalAfterMeals | Snake/MainWindow.xaml.cs:325-328 | the interval after n meals: the start speed of 400 that StartNewGame sets, then each meal's max(100, previous - 2 * n); no contract of its own, IntervalClosedForm and IntervalSchedule characterise it |
| SnakeGame.EatFood | Snake/MainWindow.xaml.cs:323-332 | eating raises target and score by one, sets the interval to max(100, old - 2 * new score), and puts the food at the new placement, off the body and on the board; body, direction and running are kept |
| SnakeGame.CheckCollision | Snake/MainWindow.xaml.cs:307-322 | a head on the food eats and never ends the game; otherwise the game ends exactly when the head is strictly out of bounds or equals an earlier part, and nothing else changes |
| SnakeGame.HitsBody | Snake/MainWindow.xaml.cs:318-321 | the body test; it has no contract of its own, and HitsBodyIffEarlierPart characterises it |
| SnakeGame.HitsBodyIffEarlierPart | Snake/MainWindow.xaml.cs:318-321 | the body test fires iff some part before the head has the head's position |
| SnakeGame.MoveSnake | Snake/MainWindow.xaml.cs:122-162 | a move relocates the body as Move does. On food, score and target rise by one, the running flag is kept, and the rest is the eating step applied to the moved body. Otherwise score, target, food and interval are kept, and the game survives iff the head is in bounds and off the body |
| SnakeGame.Tick | Snake/MainWindow.xaml.cs:169-172 | a stopped game is unchanged by the timer; a running one takes exactly one MoveSnake step (trim, advance the head one step in its direction, then eat or die); dying keeps the score |
| SnakeGame.StartNewGame | Snake/MainWindow.xaml.cs:176-203 | a new game has score 0, target 3, direction Right, the single part (100,100), interval 400, is running, and has food off the body |
| SnakeGame.Turn | Snake/MainWindow.xaml.cs:266-292 | a requested direction is taken iff it is perpendicular to the current one; otherwise the current direction stays |
| SnakeGame.PressKey | Snake/MainWindow.xaml.cs:267-300 | arrows change only the direction, and change it to the request iff the request is perpendicular; Space on a stopped game gives exactly a new game and ignores a running one; other keys do nothing |
| SnakeGame.KeyUp | Snake/MainWindow.xaml.cs:264-305 | an accepted turn causes exactly one move in the new direction, and the precondition guarantees that move cannot throw; a rejected one, another key, or Space during a game change nothing; Space on a stopped game restarts it and moves once iff the old direction was not Right |
| Session.IntervalClosedForm | Snake/MainWindow.xaml.cs:325-328 | the interval after n meals is max(100, 400 - n(n+1)) |
| Session.IntervalSchedule | Snake/MainWindow.xaml.cs:325-328 | the interval stays within [100, 400], never increases, and strictly decreases while above 100 |
| Session.ThresholdReachedAtSeventeenMeals | Snake/MainWindow.xaml.cs:325-328 | the interval equals the floor of 100 iff at least 17 meals were eaten |
| Session.EatFoodFollowsSchedule | Snake/MainWindow.xaml.cs:323-332 | eating moves a state one meal along the schedule; the interval does not increase and stays at least 100 |
| Session.TurnRejectedIffSameOrOpposite | Snake/MainWindow.xaml.cs:266-292 | a request leaves the direction unchanged iff it is the current direction or its reverse |
| Session.MoveKeepsShape | Snake/MainWindow.xaml.cs:124-158 | a move keeps the body connected and aligned; food that was off the body is off all parts but the new head; parts stay distinct unless the head hits the body |
| Session.StartNewGameIsValid | Snake/MainWindow.xaml.cs:187-196 | a new game satisfies the session invariant |
| Session.ValidCanMove | Snake/MainWindow.xaml.cs:124-135 | in a valid session the move cannot crash, and the interval lies in [100, 400] |
| Session.EatingMoveKeepsShape | Snake/MainWindow.xaml.cs:310-313 | after a move onto the food the body stays connected and aligned, and stays distinct while the game runs, because the food was off the body |
| Session.EatingMoveKeepsCounters | Snake/MainWindow.xaml.cs:323-332 | after a move onto the food the body is within the new target, the target is 3 + score, and the new food is on the board and off the body |
| Session.EatingMoveKeepsSchedule | Snake/MainWindow.xaml.cs:325-328 | after a move onto the food the interval is the schedule's value for one more meal |
| Session.PlainMoveKeepsValid | Snake/MainWindow.xaml.cs:314-321 | a move beside the food keeps the session invariant; a game still running has no two parts on one cell |
| Session.MoveSnakePreservesValid | Snake/MainWindow.xaml.cs:122-162 | a move keeps the session invariant, whether the snake eats, dies or just moves |
| Session.TickPreservesValid | Snake/MainWindow.xaml.cs:169-172 | a timer tick keeps the session invariant |
| Session.KeyUpPreservesValid | Snake/MainWindow.xaml.cs:264-305 | every key, restart included, keeps the session invariant |
| Session.KeysBeforeFirstGame | Snake/MainWindow.xaml.cs:264-305 | before the first game, Space starts a valid session and Left, Right and other keys change nothing; Up and Down are accepted turns whose move would throw, so KeyUp's precondition excludes exactly them |
| Session.MoveSnakeStep | Snake/MainWindow.xaml.cs:122-162 | one MoveSnake step leaves min(n + 1, target) parts, advances the head one cell in the direction and keeps the direction |
| Session.KeyUpMovesOnlyOnTurn | Snake/MainWindow.xaml.cs:301-304 | an accepted turn advances the head one cell in the new direction and grows the body to min(n + 1, target); a rejected request changes nothing |
| Scenarios.EdgeColumnIsNotFatal | Snake/MainWindow.xaml.cs:314-317 | on a 200-pixel board, a head at x = 200 survives and one at x = 220 dies with the score kept |
| Scenarios.NewGameFirstMove | Snake/MainWindow.xaml.cs:124-158 | the first move of a new game keeps the start part and appends its right neighbour (120, 100) |
| Scenarios.NewGameFirstTick | Snake/MainWindow.xaml.cs:169-172 | without food in the way, the first tick of a new game gives the two-part body and changes nothing else, except that the game ends when the new head (120, 100) is outside a playground narrower than 120 or lower than 100 pixels |
| Scenarios.NewGameGrowsToTarget | Snake/MainWindow.xaml.cs:189-191 | a new game has two parts after one tick and three after two, when no food is in the way |
| Scenarios.BodyFillsTarget | Snake/MainWindow.xaml.cs:124-158 | a move that does not eat, from a body at most one part short of its target, leaves exactly the target length |
| Scenarios.RestartMovesWhenDirectionWasNotRight | Snake/MainWindow.xaml.cs:293-304 | Space on a stopped game whose direction was not Right yields the two-part body [(100,100), (120,100)] heading Right |
| Scenarios.TurnAfterGameOverStillMoves | Snake/MainWindow.xaml.cs:269-304 | after game over an accepted turn still moves the head and can score, but the game stays stopped |
| Scenarios.TailChase | Snake/MainWindow.xaml.cs:318-321 | stepping onto the tail is safe at full length, where the tail is trimmed first, and fatal one part short of the target |
| Scenarios.EatingPrecedesCollision | Snake/MainWindow.xaml.cs:310-313 | a head on the food keeps the game running even where a fatal test would fire |
| Scenarios.EndGameIdempotent | Snake/MainWindow.xaml.cs:314-321 | ending twice in one check equals ending once |

## Left out

- Drawing is left out: `DrawPlayground`, `DrawSnake`, the ellipse in `DrawFood`, the
  brushes, and the `UiElement`/`IsHead` bookkeeping. `IsHead` is simply the last element
  of the body.
- The `DispatcherTimer` itself is left out. Its enabled flag is the running flag, and
  its firing is `Tick`.
- The window title of `UpdateGameStatus` and the message box of `EndGame` are I/O and
  are left out.
- `System.Random` is left out. Food placement takes its draws as a parameter. The
  transitions take the placed point as a parameter, constrained by `Placeable`.
- `FoodPlacement.Food`: termination of the recursive sampler is not modelled. It
  consumes a finite list of draws and returns None when all of them hit the body. The
  sampler never stops when the body covers the board, so the transitions require a
  placeable point instead.
- Arrow Up or Down before the first game is left out. It is an accepted turn on an
  empty body with `snakeLength` 0, and `MoveSnake` would throw. The preconditions
  (`CanMove` inside `TickReady`) exclude it.
- The 32-bit `int` arithmetic is left out. The model uses unbounded integers. The
  first overflow would be the product `currentScore * 2` in `SnakeEatsFood`, which
  wraps after 2^30 meals; the increments of `snakeLength` and `currentScore` would
  wrap after 2^31.
- Fractional playground sizes are left out. They are modelled by their integer parts,
  which is exact for the tests the code performs.
- The modal message box is left out, and so is anything that happens to key events
  while it is shown.
