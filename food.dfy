/** Food placement by rejection sampling. The random cells the generator draws are an
    input: `samples[0]` is the first draw, `samples[1]` the first redraw, and so on. */
module Foods {
  import opened Grid
  import opened Snakes

  /** Every draw lies on the board, as `randint(0, numCell - 1)` guarantees. */
  predicate AllInGrid(samples: seq<Cell>, numCellx: int, numCelly: int) {
    forall i :: 0 <= i < |samples| ==> InGrid(samples[i], numCellx, numCelly)
  }

  /** Some draw misses the snake, so the rejection loop stops. */
  predicate HasFreeSample(s: SnakeState, samples: seq<Cell>) {
    exists i :: 0 <= i < |samples| && !Occupied(s, samples[i])
  }

  /** Index of the draw the rejection loop commits: the first one off the snake. */
  function FirstFree(s: SnakeState, samples: seq<Cell>): (k: nat)
    requires HasFreeSample(s, samples)
    ensures k < |samples| && !Occupied(s, samples[k])
    ensures forall j :: 0 <= j < k ==> Occupied(s, samples[j])
    decreases |samples|
  {
    if !Occupied(s, samples[0]) then 0
    else
      assert HasFreeSample(s, samples[1..]) by {
        var i :| 0 <= i < |samples| && !Occupied(s, samples[i]);
        assert samples[1..][i - 1] == samples[i];
      }
      1 + FirstFree(s, samples[1..])
  }

  /** The committed draw depends only on the cells the snake covers, not on its heading. */
  lemma FirstFreeIgnoresHeading(s: SnakeState, d: Direction, samples: seq<Cell>)
    requires HasFreeSample(s, samples)
    ensures HasFreeSample(s.(direction := d), samples)
    ensures FirstFree(s.(direction := d), samples) == FirstFree(s, samples)
  {
    var i :| 0 <= i < |samples| && !Occupied(s, samples[i]);
    assert !Occupied(s.(direction := d), samples[i]);
    var k, k' := FirstFree(s, samples), FirstFree(s.(direction := d), samples);
    assert !Occupied(s, samples[k']);
    assert !Occupied(s.(direction := d), samples[k]);
  }

  /** The cells of row `y` with `0 <= x < width`. */
  function Row(y: int, width: nat): (r: set<Cell>)
    ensures |r| == width
    ensures forall c :: c in r <==> c.y == y && 0 <= c.x < width
  {
    if width == 0 then {} else Row(y, width - 1) + {Cell(width - 1, y)}
  }

  /** All cells of a `numCellx` by `numCelly` board. */
  function Board(numCellx: nat, numCelly: nat): (r: set<Cell>)
    ensures |r| == numCellx * numCelly
    ensures forall c :: c in r <==> InGrid(c, numCellx, numCelly)
  {
    if numCelly == 0 then {}
    else
      var rest := Board(numCellx, numCelly - 1);
      var row := Row(numCelly - 1, numCellx);
      assert rest !! row;
      assert numCellx * numCelly == numCellx * (numCelly - 1) + numCellx;
      rest + row
  }

  /** A sequence has at most as many distinct elements as it has elements. */
  lemma {:induction false} DistinctCells(t: seq<Cell>)
    ensures |set c | c in t| <= |t|
  {
    if t != [] {
      DistinctCells(t[1..]);
      assert (set c | c in t) == {t[0]} + (set c | c in t[1..]);
    }
  }

  /** While the snake covers fewer cells than the board has, some board cell is free,
      so a generator that eventually draws every cell ends the rejection loop. */
  lemma FreeCellExists(s: SnakeState, numCellx: nat, numCelly: nat)
    requires 1 + |s.tail| < numCellx * numCelly
    ensures exists c :: InGrid(c, numCellx, numCelly) && !Occupied(s, c)
  {
    var body := {s.head} + set c | c in s.tail;
    DistinctCells(s.tail);
    var board := Board(numCellx, numCelly);
    var free := board - body;
    assert |board| == |free| + |board * body|;
    assert |board * body| <= |body|;
    assert |free| > 0;
    var c :| c in free;
    assert InGrid(c, numCellx, numCelly) && !Occupied(s, c);
  }

  /** When the snake covers the whole board no draw is ever free: the rejection loop
      never ends. */
  lemma FullBoardNeverPlaces(s: SnakeState, numCellx: int, numCelly: int, samples: seq<Cell>)
    requires forall c :: InGrid(c, numCellx, numCelly) ==> Occupied(s, c)
    requires AllInGrid(samples, numCellx, numCelly)
    ensures !HasFreeSample(s, samples)
  {
  }

  class Food {
    const numCellx: int
    const numCelly: int
    var position: Cell

    /** The food starts on the unchecked placeholder cell (0, 0). */
    constructor (numCellx: int, numCelly: int)
      ensures this.numCellx == numCellx && this.numCelly == numCelly
      ensures position == Cell(0, 0)
    {
      this.numCellx := numCellx;
      this.numCelly := numCelly;
      position := Cell(0, 0);
    }

    /** Redraws until a draw misses the snake, then commits that draw. */
    method ChangePosition(snake: Snake, samples: seq<Cell>)
      requires AllInGrid(samples, numCellx, numCelly)
      requires HasFreeSample(snake.State(), samples)
      modifies this
      ensures position == samples[FirstFree(snake.State(), samples)]
      ensures InGrid(position, numCellx, numCelly) && !Occupied(snake.State(), position)
    {
      var i := 0;
      var taken := snake.IsPositionFindInHeadOrTail(samples[0]);
      while taken
        invariant 0 <= i < |samples|
        invariant taken <==> Occupied(snake.State(), samples[i])
        invariant forall j :: 0 <= j < i ==> Occupied(snake.State(), samples[j])
        decreases |samples| - i
      {
        i := i + 1;
        taken := snake.IsPositionFindInHeadOrTail(samples[i]);
      }
      var k := FirstFree(snake.State(), samples);
      assert !(k < i) && !(i < k);
      position := samples[i];
    }
  }
}
