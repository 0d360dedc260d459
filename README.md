# Snake game logic in Dafny

A model of the game logic of the one-file pygame snake game `snake_game.py`. The board is a
grid of 20-pixel cells. The snake has a head cell, a tail of vacated cells (newest first) and a
heading. It moves one cell per frame and grows by one segment when it eats. The game ends when
the head leaves the board or lands on the tail. Food is placed by rejection sampling: the game
draws random cells until one misses the snake.

The model has four modules:

- `Grid` (`grid.dfy`): cells, directions, the board size `NumCells` (integer quotient of the
  screen size by the cell width, so 800x600 gives 40x30), `Opposite` and the unit step
  `Neighbour`.
- `Snakes` (`snake.dfy`): the `Snake` class. It keeps the source's mutable fields `head`, `tail`
  and `direction`, plus the board size the source reads through its back-reference to the game.
  It has the constructor's heading rule, `MoveSnake` and the three collision queries. The
  abstract value `SnakeState` and the function `Moved` are the specification `MoveSnake` is
  proved against.
- `Foods` (`food.dfy`): the `Food` class and `ChangePosition`. The loop is proved to commit the
  first random draw that misses the snake (`FirstFree`). Beside it is a counting argument about
  when such a draw exists at all.
- `Games` (`game.dfy`): the `Game` class with score, level, game-over flag, food and snake. It
  has the constructor, `RestartGame` and `RunTick`, which is the logic of one iteration of the
  main loop. The functions `Tick`, `Restart` and `Run` (a sequence of ticks) specify them, and
  the lemmas about several ticks are stated over these functions.

Randomness is an input. The constructor and `RestartGame` take the drawn head cell. Each
placement of the food takes the sequence of drawn cells: the first draw, then each redraw.
The source's rejection loop ends only if some draw misses the snake. That condition is the
precondition of `ChangePosition`. `Run` yields `None` when none of a tick's supplied draws ends
the loop; on a full board no draw ever can (`FullBoardNeverPlaces`).

Points where the program behaves differently from what a player might expect:

- The food check (`snake_game.py:214`) is not guarded by the game-over flag. The tick that ends
  the game can still score 100 (`ScoreOnGameOverTick`).
- The game-over and food checks both look at the head the previous tick's move produced. With the head at
  (20,15) heading right and the food at (25,15), five ticks bring the head onto the food, and the
  food is only noticed on the sixth tick (`EatAfterFiveTicks`).
- `restart_game` moves the food before it builds the new snake. The food therefore avoids the
  old snake and can land under the new one (`RestartFoodUnderNewHead`).
- The food eaten on a tick is replaced before that tick's move, so the new food avoids only the
  snake as it stood before the move. The moving head can land on the new food and eat it on the
  next tick (`EatPlacesFoodUnderNewHead`).
- The food starts at the unchecked placeholder (0, 0) and is not placed before the first tick.
- Each direction key of a frame is checked against the heading the previous key left. Two keys
  in one frame can reverse the snake (`TwoTurnsReverse`).
- `Food.change_position` calls `is_position_find_in_head_or_tail`, which `Snake` never defines.
  The model uses the evidently intended test, `Snake.IsPositionFindInHeadOrTail`: the cell is
  the head or one of the tail segments.

## Model

| member | source | states |
|---|---|---|
| Grid.NumCells | snake_game.py:152-153 | the board size is the screen size divided by 20, truncated toward zero: `n*20 <= screen < n*20 + 20` for non-negative screens |
| Grid.DefaultBoard | snake_game.py:152-153 | the 800x600 screen is a 40x30 board |
| Grid.Opposite | snake_game.py:185-201 | every direction's opposite is a different direction (UP/DOWN, LEFT/RIGHT as the key rules pair them) |
| Grid.Neighbour | snake_game.py:90-97 | a step moves exactly one cell: UP lowers y, DOWN raises y, LEFT lowers x, RIGHT raises x, and the other coordinate is unchanged |
| Grid.NeighbourUndo | snake_game.py:90-97 | a step followed by a step in the opposite direction returns to the start cell |
| Snakes.InitialDirection | snake_game.py:62-68 | the new heading is LEFT in the right half, else DOWN in the top half, else UP; it is never RIGHT; on a board with at least two rows the first step from an on-board head stays on the board |
| Snakes.Moved | snake_game.py:82-97 | a move keeps the tail length when not growing and adds exactly one when growing; the new first segment is the old head and the rest is the old tail minus its last cell unless growing; the head moves one cell along the heading; the heading is unchanged |
| Snakes.MovedCells | snake_game.py:84-88 | after a move every covered cell is the new head or was covered before; a growing move keeps all old cells, a plain one all but the dropped last segment |
| Snakes.Snake.constructor | snake_game.py:51-68 | a new snake has the drawn on-board head, the single tail segment (11, 10) and the heading of `InitialDirection`; its tail is non-empty |
| Snakes.Snake.MoveSnake | snake_game.py:82-97 | the new state is `Moved` of the old one, and the tail stays non-empty |
| Snakes.Snake.IsHeadCollideWithWall | snake_game.py:99-104 | true iff the head is off the board: x < 0, y < 0, x > numCellx - 1 or y > numCelly - 1 |
| Snakes.Snake.TailContains | snake_game.py:106-110 | the linear search over the tail answers true iff the cell is one of the segments |
| Snakes.Snake.IsHeadCollideWithTail | snake_game.py:106-110 | true iff the head equals some tail segment |
| Snakes.Snake.IsHeadCollideWithFood | snake_game.py:112-113 | true iff the head equals the food cell on both coordinates |
| Snakes.Snake.IsPositionFindInHeadOrTail | snake_game.py:129 | the occupancy test the food placement calls (missing in the source): true iff the cell is the head or a tail segment |
| Foods.FirstFree | snake_game.py:125-131 | the draw the rejection loop commits is off the snake, and every earlier draw was on it |
| Foods.FreeCellExists | snake_game.py:125-131 | while the snake covers fewer cells than the board has, some board cell is free |
| Foods.FullBoardNeverPlaces | snake_game.py:129-130 | when the snake covers every board cell, no on-board draw is free, so the loop never ends |
| Foods.Food.constructor | snake_game.py:117-119 | the food starts on the placeholder cell (0, 0) |
| Foods.Food.ChangePosition | snake_game.py:125-133 | the committed position is the first draw off the snake; it lies on the board and is neither the head nor a tail segment |
| Games.ChangeDirection | snake_game.py:185-201 | a key for the exact reverse of the heading is ignored and any other key becomes the heading, so the result is never the reverse of the old heading |
| Games.ApplyTurns | snake_game.py:175-201 | each key of the frame is judged against the heading the keys before it left: a key that reverses that heading is ignored, any other key becomes the heading; so the result is the old heading or one of the keys, and a single key acts as `ChangeDirection` |
| Games.TwoTurnsReverse | snake_game.py:175-201 | two keys in one frame (UP then LEFT while heading RIGHT) do reverse the snake |
| Games.Tick | snake_game.py:185-229 | game over is set iff it was set or the head is off the board or on the tail; while playing the keys steer the snake as `ApplyTurns` says; eating adds exactly 100 to score and 1 to level, puts the food on the first draw off the snake as it stood before the move, and makes the move grow; without food score, level and food are unchanged; a finished game never moves or turns the snake; otherwise the head steps once along the new heading, the old head leads the tail and the rest of the tail is the old tail, minus its last cell unless growing |
| Games.Restart | snake_game.py:160-165 | score 0, level 0, game over cleared, a new snake around the drawn head, food off the old snake |
| Games.RestartFoodUnderNewHead | snake_game.py:164-165 | because the food is placed before the new snake is built, it can land under the new head |
| Games.EatPlacesFoodUnderNewHead | snake_game.py:212-226 | the food is moved (line 218) before the snake moves (line 226): from head (5,5) heading right onto food (5,5), the draw (6,5) is committed, the move puts the head on it, and the next tick eats again, reaching score 200 and level 2 |
| Games.ScoreOnGameOverTick | snake_game.py:208-218 | the unguarded food check lets the tick that ends the game still add 100 to score and 1 to level |
| Games.InitialConsistent | snake_game.py:142-157 | the constructed game has a non-empty tail, score = 100 x level and the food on the board |
| Games.TickConsistent | snake_game.py:213-218 | every tick keeps the tail non-empty, score = 100 x level and the food on the board |
| Games.RestartConsistent | snake_game.py:160-165 | a restart re-establishes the same bookkeeping |
| Games.OpeningIsSafe | snake_game.py:51-68 | with no key pressed and at least two rows, neither of the first two ticks ends the game, unless the head was drawn on (11, 10), where the first tick ends it |
| Games.BitesOwnTail | snake_game.py:207-210 | the move onto a tail cell is made and the next tick's check ends the game |
| Games.GameOverTickClearsFood | snake_game.py:213-218 | after a tick of a finished game the head is not on the food |
| Games.FrozenRun | snake_game.py:225-229 | a finished game whose head is off the food is unchanged by any number of ticks |
| Games.GameOverIsFinal | snake_game.py:208-229 | from any state with the flag set, the game stays over for every later tick until a restart and the snake never changes; score and level can rise by one food only if the head starts on the food, which no state a tick leaves over has (`OverTickOffFood`) |
| Games.OverTickOffFood | snake_game.py:208-218 | every state a tick leaves with the game over has the head off the food; the only rise of score with the flag set is inside the tick that ends the game (`ScoreOnGameOverTick`) |
| Games.ReachableFrozen | snake_game.py:208-229 | after a tick that leaves the game over, every later run of ticks leaves score, level, snake and food exactly unchanged until a restart |
| Games.Run | snake_game.py:173-237 | the frame loop: ticks one after another, stopping (`None`) where none of a tick's supplied draws ends the food loop at lines 129-130; without a restart score and level never fall, a finished game stays finished and the tail stays non-empty |
| Foods.FirstFreeIgnoresHeading | snake_game.py:129 | the draw the food loop commits depends only on the cells the snake covers, so turning the snake before the food moves does not change it |
| Games.EatAfterFiveTicks | snake_game.py:212-229 | head (20,15) heading right reaches the food at (25,15) in five ticks; the sixth tick scores 100, reaches level 1 and grows the tail to two |
| Games.WallEndsGame | snake_game.py:207-229 | a head at (0,5) heading left leaves the board on the first tick, the second tick ends the game, and the third changes nothing |
| Games.Game.constructor | snake_game.py:138-157 | the board size comes from `NumCells`, score and level are 0, the game is not over, the food is at (0, 0) and the snake is built around the drawn head |
| Games.Game.RestartGame | snake_game.py:160-165 | the new game state is `Restart` of the old one, with a fresh snake |
| Games.Game.RunTick | snake_game.py:173-229 | the new game state is `Tick` of the old one: keys only while playing, the game-over check, eating, then the move only while playing |

## Left out

- Rendering: the `Message` class, `Color`, `draw_snake`, `draw_food`, `draw_board`, fonts and
  surfaces. This is pixel work with no game logic.
- pygame setup and the display (`pygame.init`, `set_mode`, `display.flip`). These are foreign calls.
- Event polling and `sys.exit` on QUIT or ESC. These are I/O.
- Key decoding: in the program as written, the direction rules and the restart sit under the
  `MOUSEBUTTONDOWN` branch (`snake_game.py:181-205`), whose events carry no `key`, and the
  `KEYDOWN` branch handles only ESC, so keyboard keys never reach the direction rules. The model
  treats a frame's direction keys as an idealised input sequence, and offers `RestartGame` and
  `RunTick` as separate operations. The RETURN/SPACE restart branch is unreachable, because the
  game is never over at that point.
- Frame pacing with `clock.tick(10 + level)`. This is timing, not logic.
- The `random` module. Draws are inputs, and their uniform distribution is not modelled. The
  source's `randint` raises on an empty board; the constructors instead require the drawn head
  to lie on the board.
- The rejection loop's non-termination is not modelled as a run. `ChangePosition` requires a free draw,
  and `Run` yields `None` where none of the supplied draws ends the loop; on a full board no draw
  ever can.
- `NumCells` uses exact integer arithmetic. Float rounding of `screen / 20` for screens wider
  than about 2^52 pixels is not modelled.
- Positions are immutable `Cell` values that are reassigned, where the source updates the `x`
  and `y` entries of a dict one after the other. No dict is shared in the source, so no aliasing
  is lost.
- The debug `print` in `change_position` and the top-level `Game(800, 600).run_game()` call.
