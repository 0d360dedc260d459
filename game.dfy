/** The game: score, level, the game-over flag, the snake and the food, and the logic of
    one iteration of the main loop. */
module Games {
  import opened Grid
  import opened Snakes
  import opened Foods

  datatype Option<T> = None | Some(value: T)

  /** Points for one food eaten. */
  const ScorePerFood: int := 100

  /** The abstract value of a `Game` object. */
  datatype GameState = GameState(score: int, level: int, gameOver: bool, snake: SnakeState, food: Cell)

  /** What one loop iteration receives from outside: the direction keys pressed since
      the last frame, in order, and the cells the random generator draws if the food
      has to move. */
  datatype TickInput = TickInput(requests: seq<Direction>, samples: seq<Cell>)

  /** One direction key: a key for the exact reverse of the heading is ignored, any
      other key becomes the heading. */
  function ChangeDirection(current: Direction, requested: Direction): (d: Direction)
    ensures requested == Opposite(current) ==> d == current
    ensures requested != Opposite(current) ==> d == requested
    ensures d != Opposite(current)
  {
    match requested
    case Up => if current != Down then Up else current
    case Left => if current != Right then Left else current
    case Down => if current != Up then Down else current
    case Right => if current != Left then Right else current
  }

  /** The heading after the keys of one frame, applied one after the other. */
  function ApplyTurns(current: Direction, requests: seq<Direction>): (d: Direction)
    ensures d == current || d in requests
    ensures |requests| == 1 ==> d == ChangeDirection(current, requests[0]) && d != Opposite(current)
    ensures requests != [] ==>
              var before := ApplyTurns(current, requests[..|requests| - 1]);
              var key := requests[|requests| - 1];
              && d != Opposite(before)
              && (key != Opposite(before) ==> d == key)
              && (key == Opposite(before) ==> d == before)
    decreases |requests|
  {
    if requests == [] then current
    else ChangeDirection(ApplyTurns(current, requests[..|requests| - 1]), requests[|requests| - 1])
  }

  /** Two keys in one frame can reverse the snake: each key is checked only against
      the heading the previous key left. */
  lemma TwoTurnsReverse()
    ensures ApplyTurns(Right, [Up, Left]) == Opposite(Right)
  {
  }

  /** The state the constructor builds: food on the placeholder (0, 0). */
  function InitialGame(start: Cell, numCellx: int, numCelly: int): (g: GameState) {
    GameState(0, 0, false, NewSnake(start, numCellx, numCelly), Cell(0, 0))
  }

  /** The food placement of this tick, if one is needed, ends. */
  predicate CanPlaceFood(g: GameState, samples: seq<Cell>) {
    g.snake.head == g.food ==> HasFreeSample(g.snake, samples)
  }

  /** One iteration of the main loop: keys (only while playing), the game-over check
      on the head the previous move produced, eating (not guarded by the game-over
      flag), and the move (only while playing). */
  function Tick(g: GameState, numCellx: int, numCelly: int, input: TickInput): (r: GameState)
    requires |g.snake.tail| >= 1
    requires CanPlaceFood(g, input.samples)
    ensures |r.snake.tail| >= 1
    ensures r.gameOver <==> g.gameOver || !InGrid(g.snake.head, numCellx, numCelly) || g.snake.head in g.snake.tail
    ensures g.snake.head == g.food ==>
              r.score == g.score + ScorePerFood && r.level == g.level + 1 &&
              r.food == input.samples[FirstFree(g.snake, input.samples)] &&
              !Occupied(g.snake, r.food) && r.food in input.samples
    ensures g.snake.head != g.food ==> r.score == g.score && r.level == g.level && r.food == g.food
    ensures r.gameOver ==> r.snake.head == g.snake.head && r.snake.tail == g.snake.tail
    ensures g.gameOver ==> r.snake == g.snake
    ensures !g.gameOver ==> r.snake.direction == ApplyTurns(g.snake.direction, input.requests)
    ensures !r.gameOver ==>
              r.snake.head == Neighbour(g.snake.head, r.snake.direction) &&
              r.snake.tail[0] == g.snake.head &&
              |r.snake.tail| == |g.snake.tail| + (if g.snake.head == g.food then 1 else 0) &&
              r.snake.tail[1..] == if g.snake.head == g.food then g.snake.tail else g.snake.tail[..|g.snake.tail| - 1]
  {
    var steered := if !g.gameOver then g.snake.(direction := ApplyTurns(g.snake.direction, input.requests)) else g.snake;
    var over := g.gameOver || !InGrid(steered.head, numCellx, numCelly) || steered.head in steered.tail;
    var eats := steered.head == g.food;
    var food := if eats then input.samples[FirstFree(g.snake, input.samples)] else g.food;
    GameState(
      if eats then g.score + ScorePerFood else g.score,
      if eats then g.level + 1 else g.level,
      over,
      if over then steered else Moved(steered, eats),
      food)
  }

  /** A restart: score, level and flag cleared, the food moved off the OLD snake, then
      a new snake built around the drawn head cell. */
  function Restart(g: GameState, numCellx: int, numCelly: int, samples: seq<Cell>, newHead: Cell): (r: GameState)
    requires HasFreeSample(g.snake, samples)
    ensures r.score == 0 && r.level == 0 && !r.gameOver
    ensures r.snake == NewSnake(newHead, numCellx, numCelly)
    ensures !Occupied(g.snake, r.food) && r.food in samples
  {
    GameState(0, 0, false, NewSnake(newHead, numCellx, numCelly), samples[FirstFree(g.snake, samples)])
  }

  /** The food is placed before the new snake exists, so it can land on it. */
  lemma RestartFoodUnderNewHead()
    ensures var g := GameState(300, 3, true, SnakeState(Cell(5, 5), [Cell(4, 5)], Right), Cell(9, 9));
            HasFreeSample(g.snake, [Cell(7, 7)]) &&
            var r := Restart(g, 40, 30, [Cell(7, 7)], Cell(7, 7));
            r.food == r.snake.head
  {
    var g := GameState(300, 3, true, SnakeState(Cell(5, 5), [Cell(4, 5)], Right), Cell(9, 9));
    assert !Occupied(g.snake, [Cell(7, 7)][0]);
  }

  /** Since eating is not guarded by the flag, the tick that ends the game can still
      score: a restart puts the food and the new head on the initial tail cell. */
  lemma ScoreOnGameOverTick()
    ensures var g := GameState(0, 0, true, SnakeState(Cell(2, 2), [Cell(3, 2)], Left), Cell(0, 0));
            HasFreeSample(g.snake, [InitialTailCell]) &&
            var r := Restart(g, 40, 30, [InitialTailCell], InitialTailCell);
            HasFreeSample(r.snake, [Cell(1, 1)]) &&
            var t := Tick(r, 40, 30, TickInput([], [Cell(1, 1)]));
            t.gameOver && t.score == ScorePerFood && t.level == 1
  {
    var g := GameState(0, 0, true, SnakeState(Cell(2, 2), [Cell(3, 2)], Left), Cell(0, 0));
    assert !Occupied(g.snake, [InitialTailCell][0]);
    var r := Restart(g, 40, 30, [InitialTailCell], InitialTailCell);
    assert !Occupied(r.snake, [Cell(1, 1)][0]);
  }

  /** The eaten food is replaced before the same tick's move, so the new food avoids only
      the snake as it stood before the move: the moving head can land on it, and the next
      tick eats again. */
  lemma EatPlacesFoodUnderNewHead()
    ensures var g := GameState(0, 0, false, SnakeState(Cell(5, 5), [Cell(4, 5)], Right), Cell(5, 5));
            HasFreeSample(g.snake, [Cell(6, 5)]) &&
            var t1 := Tick(g, 40, 30, TickInput([], [Cell(6, 5)]));
            && !t1.gameOver && t1.snake.head == t1.food
            && HasFreeSample(t1.snake, [Cell(1, 1)])
            && var t2 := Tick(t1, 40, 30, TickInput([], [Cell(1, 1)]));
            t2.score == 2 * ScorePerFood && t2.level == 2 && !t2.gameOver
  {
    var g := GameState(0, 0, false, SnakeState(Cell(5, 5), [Cell(4, 5)], Right), Cell(5, 5));
    assert !Occupied(g.snake, [Cell(6, 5)][0]);
    var t1 := Tick(g, 40, 30, TickInput([], [Cell(6, 5)]));
    assert t1.snake == SnakeState(Cell(6, 5), [Cell(5, 5), Cell(4, 5)], Right);
    assert !Occupied(t1.snake, [Cell(1, 1)][0]);
  }

  /** Bookkeeping that every reachable state keeps. */
  predicate Consistent(g: GameState, numCellx: int, numCelly: int) {
    && |g.snake.tail| >= 1
    && g.level >= 0
    && g.score == ScorePerFood * g.level
    && InGrid(g.food, numCellx, numCelly)
  }

  lemma InitialConsistent(start: Cell, numCellx: int, numCelly: int)
    requires InGrid(start, numCellx, numCelly)
    ensures Consistent(InitialGame(start, numCellx, numCelly), numCellx, numCelly)
  {
  }

  lemma TickConsistent(g: GameState, numCellx: int, numCelly: int, input: TickInput)
    requires Consistent(g, numCellx, numCelly)
    requires CanPlaceFood(g, input.samples) && AllInGrid(input.samples, numCellx, numCelly)
    ensures Consistent(Tick(g, numCellx, numCelly, input), numCellx, numCelly)
  {
  }

  lemma RestartConsistent(g: GameState, numCellx: int, numCelly: int, samples: seq<Cell>, newHead: Cell)
    requires HasFreeSample(g.snake, samples) && AllInGrid(samples, numCellx, numCelly)
    ensures Consistent(Restart(g, numCellx, numCelly, samples, newHead), numCellx, numCelly)
  {
  }

  /** The opening is safe when the board has at least two rows and no key is pressed:
      the first move stays on the board and off the tail, so neither of the first two
      game-over checks fires; a head drawn on the fixed tail cell (11, 10) instead ends
      the game on the first tick. */
  lemma OpeningIsSafe(start: Cell, numCellx: int, numCelly: int, first: TickInput, second: TickInput)
    requires InGrid(start, numCellx, numCelly) && numCelly >= 2
    requires first.requests == []
    requires CanPlaceFood(InitialGame(start, numCellx, numCelly), first.samples)
    ensures var t1 := Tick(InitialGame(start, numCellx, numCelly), numCellx, numCelly, first);
            && (t1.gameOver <==> start == InitialTailCell)
            && (CanPlaceFood(t1, second.samples) && start != InitialTailCell ==>
                  !Tick(t1, numCellx, numCelly, second).gameOver)
  {
  }

  /** A snake of five cells turning into itself: the move onto a tail cell is made,
      and the next tick's check ends the game. */
  lemma BitesOwnTail()
    ensures var g := GameState(0, 0, false,
                       SnakeState(Cell(4, 4), [Cell(4, 3), Cell(3, 3), Cell(3, 4), Cell(3, 5)], Down), Cell(20, 20));
            var t1 := Tick(g, 40, 30, TickInput([Left], []));
            var t2 := Tick(t1, 40, 30, TickInput([], []));
            && t1.snake.head == Cell(3, 4) && !t1.gameOver
            && t2.gameOver && t2.snake == t1.snake
  {
    var g := GameState(0, 0, false,
               SnakeState(Cell(4, 4), [Cell(4, 3), Cell(3, 3), Cell(3, 4), Cell(3, 5)], Down), Cell(20, 20));
    assert [Left][..0] == [];
    assert ApplyTurns(Down, [Left]) == Left;
    var turned := SnakeState(Cell(4, 4), [Cell(4, 3), Cell(3, 3), Cell(3, 4), Cell(3, 5)], Left);
    assert Cell(4, 4) !in turned.tail;
    var t1 := GameState(0, 0, false,
                SnakeState(Cell(3, 4), [Cell(4, 4), Cell(4, 3), Cell(3, 3), Cell(3, 4)], Left), Cell(20, 20));
    assert Moved(turned, false) == t1.snake;
    assert Tick(g, 40, 30, TickInput([Left], [])) == t1;
    assert t1.snake.tail[3] == t1.snake.head;
  }

  /** Ticks in order. `None` when some tick needs to move the food and none of its
      supplied draws ends the rejection loop (on a full board no draw ever can), so no
      later tick runs. */
  function Run(g: GameState, numCellx: int, numCelly: int, ticks: seq<TickInput>): (r: Option<GameState>)
    requires |g.snake.tail| >= 1
    ensures ticks == [] ==> r == Some(g)
    ensures r.Some? ==> g.score <= r.value.score && g.level <= r.value.level
    ensures r.Some? && g.gameOver ==> r.value.gameOver
    ensures r.Some? ==> |r.value.snake.tail| >= 1
    decreases |ticks|
  {
    if ticks == [] then Some(g)
    else if !CanPlaceFood(g, ticks[0].samples) then None
    else Run(Tick(g, numCellx, numCelly, ticks[0]), numCellx, numCelly, ticks[1..])
  }

  /** After game over the head is never on the food once a tick has passed: the food
      was either elsewhere already or was just moved off the snake. */
  lemma GameOverTickClearsFood(g: GameState, numCellx: int, numCelly: int, input: TickInput)
    requires |g.snake.tail| >= 1 && CanPlaceFood(g, input.samples)
    requires g.gameOver
    ensures var r := Tick(g, numCellx, numCelly, input);
            r.snake.head != r.food
  {
  }

  /** A finished game with the head off the food is a fixed point of every run. */
  lemma {:induction false} FrozenRun(g: GameState, numCellx: int, numCelly: int, ticks: seq<TickInput>)
    requires |g.snake.tail| >= 1
    requires g.gameOver && g.snake.head != g.food
    ensures Run(g, numCellx, numCelly, ticks) == Some(g)
    decreases |ticks|
  {
    if ticks != [] {
      assert Tick(g, numCellx, numCelly, ticks[0]) == g;
      FrozenRun(g, numCellx, numCelly, ticks[1..]);
    }
  }

  /** Every state a tick leaves with the game over has the head off the food: on the
      tick that ends the game the snake does not move, and a food under the head is
      moved off the snake. */
  lemma OverTickOffFood(g: GameState, numCellx: int, numCelly: int, input: TickInput)
    requires |g.snake.tail| >= 1 && CanPlaceFood(g, input.samples)
    ensures var r := Tick(g, numCellx, numCelly, input);
            r.gameOver ==> r.snake.head != r.food
  {
  }

  /** After a tick that leaves the game over, no later tick changes anything until a
      restart: score, level, snake and food stay exactly as they are. */
  lemma ReachableFrozen(g: GameState, numCellx: int, numCelly: int, input: TickInput, ticks: seq<TickInput>)
    requires |g.snake.tail| >= 1 && CanPlaceFood(g, input.samples)
    requires Tick(g, numCellx, numCelly, input).gameOver
    ensures var r := Tick(g, numCellx, numCelly, input);
            Run(r, numCellx, numCelly, ticks) == Some(r)
  {
    OverTickOffFood(g, numCellx, numCelly, input);
    FrozenRun(Tick(g, numCellx, numCelly, input), numCellx, numCelly, ticks);
  }

  /** Once the game is over it stays over and the snake never moves or turns again;
      score and level can rise by one food only if the head starts on the food, which
      no state a tick leaves over has (`OverTickOffFood`). */
  lemma GameOverIsFinal(g: GameState, numCellx: int, numCelly: int, ticks: seq<TickInput>)
    requires |g.snake.tail| >= 1
    requires g.gameOver
    ensures var r := Run(g, numCellx, numCelly, ticks);
            r.Some? ==>
              r.value.gameOver && r.value.snake == g.snake &&
              g.score <= r.value.score <= g.score + ScorePerFood &&
              g.level <= r.value.level <= g.level + 1
  {
    if ticks != [] && CanPlaceFood(g, ticks[0].samples) {
      var g1 := Tick(g, numCellx, numCelly, ticks[0]);
      GameOverTickClearsFood(g, numCellx, numCelly, ticks[0]);
      FrozenRun(g1, numCellx, numCelly, ticks[1..]);
    }
  }

  /** The state of the five-tick scenario below with the head at column `x`. */
  function RightwardsTo(x: int): (g: GameState) {
    GameState(0, 0, false, SnakeState(Cell(x, 15), [Cell(x - 1, 15)], Right), Cell(25, 15))
  }

  lemma {:induction false} RightwardsRun(x: int, n: nat)
    requires 20 <= x && x + n <= 25
    ensures Run(RightwardsTo(x), 40, 30, seq(n, _ => TickInput([], []))) == Some(RightwardsTo(x + n))
    decreases n
  {
    if n > 0 {
      var ticks := seq(n, _ => TickInput([], []));
      assert ticks[0] == TickInput([], []);
      assert Tick(RightwardsTo(x), 40, 30, ticks[0]) == RightwardsTo(x + 1);
      assert ticks[1..] == seq(n - 1, _ => TickInput([], []));
      RightwardsRun(x + 1, n - 1);
    }
  }

  /** Five plain ticks take a head at (20, 15) heading right onto the food at (25, 15);
      the source notices the food on the sixth tick, which scores and grows the snake. */
  lemma EatAfterFiveTicks()
    ensures Run(RightwardsTo(20), 40, 30, seq(5, _ => TickInput([], []))) == Some(RightwardsTo(25))
    ensures HasFreeSample(RightwardsTo(25).snake, [Cell(1, 1)]) &&
            var six := Tick(RightwardsTo(25), 40, 30, TickInput([], [Cell(1, 1)]));
            six.score == 100 && six.level == 1 && |six.snake.tail| == 2 && six.food == Cell(1, 1) &&
            six.snake.head == Cell(26, 15)
  {
    RightwardsRun(20, 5);
    assert !Occupied(RightwardsTo(25).snake, [Cell(1, 1)][0]);
  }

  /** A head at (0, 5) heading left leaves the board on the first tick; the second tick
      ends the game and later ticks change nothing. */
  lemma WallEndsGame()
    ensures var g := GameState(0, 0, false, SnakeState(Cell(0, 5), [Cell(1, 5)], Left), Cell(10, 10));
            var plain := TickInput([], []);
            var t1 := Tick(g, 40, 30, plain);
            var t2 := Tick(t1, 40, 30, plain);
            && t1.snake.head == Cell(-1, 5) && !t1.gameOver
            && t2.gameOver && t2.snake == t1.snake
            && Tick(t2, 40, 30, plain) == t2
  {
  }

  class Game {
    const numCellx: int
    const numCelly: int
    var score: int
    var level: int
    var gameOver: bool
    var food: Food
    var snake: Snake

    ghost predicate Valid()
      reads this, snake, food
    {
      && snake.Valid()
      && snake.numCellx == numCellx && snake.numCelly == numCelly
      && food.numCellx == numCellx && food.numCelly == numCelly
    }

    function State(): (s: GameState)
      reads this, snake, food
    {
      GameState(score, level, gameOver, snake.State(), food.position)
    }

    /** `start` is the head cell the random generator draws for the first snake. */
    constructor (screenWidth: int, screenHeight: int, start: Cell)
      requires InGrid(start, NumCells(screenWidth), NumCells(screenHeight))
      ensures Valid() && fresh(snake) && fresh(food)
      ensures numCellx == NumCells(screenWidth) && numCelly == NumCells(screenHeight)
      ensures State() == InitialGame(start, numCellx, numCelly)
    {
      score := 0;
      level := 0;
      gameOver := false;
      var cellsX := NumCells(screenWidth);
      var cellsY := NumCells(screenHeight);
      numCellx := cellsX;
      numCelly := cellsY;
      food := new Food(cellsX, cellsY);
      snake := new Snake(cellsX, cellsY, start);
    }

    /** `samples` are the draws for the food, `newHead` the draw for the new snake. */
    method RestartGame(samples: seq<Cell>, newHead: Cell)
      requires Valid()
      requires AllInGrid(samples, numCellx, numCelly) && HasFreeSample(snake.State(), samples)
      requires InGrid(newHead, numCellx, numCelly)
      modifies this, food
      ensures Valid() && fresh(snake) && food == old(food)
      ensures State() == Restart(old(State()), numCellx, numCelly, samples, newHead)
    {
      score := 0;
      level := 0;
      gameOver := false;
      food.ChangePosition(snake, samples);
      snake := new Snake(numCellx, numCelly, newHead);
    }

    /** The logic of one iteration of the main loop. */
    method RunTick(input: TickInput)
      requires Valid()
      requires AllInGrid(input.samples, numCellx, numCelly)
      requires CanPlaceFood(State(), input.samples)
      modifies this, snake, food
      ensures Valid() && snake == old(snake) && food == old(food)
      ensures State() == Tick(old(State()), numCellx, numCelly, input)
    {
      if !gameOver {
        var heading := snake.direction;
        for i := 0 to |input.requests|
          invariant heading == ApplyTurns(snake.direction, input.requests[..i])
        {
          assert input.requests[..i + 1][..i] == input.requests[..i];
          heading := ChangeDirection(heading, input.requests[i]);
        }
        assert input.requests[..|input.requests|] == input.requests;
        snake.direction := heading;
      }

      if !gameOver {
        var wall := snake.IsHeadCollideWithWall();
        if wall {
          gameOver := true;
        } else {
          var bitten := snake.IsHeadCollideWithTail();
          if bitten {
            gameOver := true;
          }
        }
      }

      var grow := snake.IsHeadCollideWithFood(food.position);
      if grow {
        score := score + ScorePerFood;
        level := level + 1;
        FirstFreeIgnoresHeading(old(snake.State()), snake.direction, input.samples);
        food.ChangePosition(snake, input.samples);
      }

      if !gameOver {
        snake.MoveSnake(grow);
      }
    }
  }
}
