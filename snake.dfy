/** The snake: a head cell, a tail of vacated cells (newest first) and a heading. */
module Snakes {
  import opened Grid

  /** Every new snake starts with this one tail segment, wherever its head is. */
  const InitialTailCell: Cell := Cell(11, 10)

  /** The abstract value of a `Snake` object. */
  datatype SnakeState = SnakeState(head: Cell, tail: seq<Cell>, direction: Direction)

  /** The cell is under the snake: its head or one of its tail segments. */
  predicate Occupied(s: SnakeState, c: Cell) {
    c == s.head || c in s.tail
  }

  /** Heading of a new snake: LEFT in the right half of the board, else DOWN in the
      top half, else UP. The source compares with a true division (`x > numCellx / 2`),
      which for integers is `2 * x > numCellx`. */
  function InitialDirection(head: Cell, numCellx: int, numCelly: int): (d: Direction)
    ensures d != Right
    ensures InGrid(head, numCellx, numCelly) && numCelly >= 2 ==>
              InGrid(Neighbour(head, d), numCellx, numCelly)
  {
    if 2 * head.x > numCellx then Left
    else if 2 * head.y < numCelly then Down
    else Up
  }

  /** The snake a constructor call builds around the drawn head cell. */
  function NewSnake(head: Cell, numCellx: int, numCelly: int): (s: SnakeState) {
    SnakeState(head, [InitialTailCell], InitialDirection(head, numCellx, numCelly))
  }

  /** One tick of movement: the oldest segment is dropped unless growing, the old head
      becomes the newest segment, and the head steps once along the heading. */
  function Moved(s: SnakeState, grow: bool): (r: SnakeState)
    requires grow || |s.tail| >= 1
    ensures |r.tail| == |s.tail| + (if grow then 1 else 0)
    ensures r.tail[0] == s.head
    ensures r.tail[1..] == if grow then s.tail else s.tail[..|s.tail| - 1]
    ensures Distance(s.head, r.head) == 1 && r.head == Neighbour(s.head, s.direction)
    ensures r.direction == s.direction
  {
    var kept := if grow then s.tail else s.tail[..|s.tail| - 1];
    SnakeState(Neighbour(s.head, s.direction), [s.head] + kept, s.direction)
  }

  /** A move covers only cells the snake covered before plus the new head; a growing
      move keeps every old cell, a plain one all but the dropped oldest segment. */
  lemma MovedCells(s: SnakeState, grow: bool)
    requires grow || |s.tail| >= 1
    ensures forall c :: Occupied(Moved(s, grow), c) ==> c == Moved(s, grow).head || Occupied(s, c)
    ensures grow ==> forall c :: Occupied(s, c) ==> Occupied(Moved(s, grow), c)
    ensures !grow ==> forall c :: Occupied(s, c) && c != s.tail[|s.tail| - 1] ==> Occupied(Moved(s, grow), c)
  {
  }

  class Snake {
    const numCellx: int
    const numCelly: int
    var head: Cell
    var tail: seq<Cell>
    var direction: Direction

    /** The tail is never empty, so a non-growing move always has a segment to drop. */
    ghost predicate Valid()
      reads this
    {
      |tail| >= 1
    }

    function State(): (s: SnakeState)
      reads this
    {
      SnakeState(head, tail, direction)
    }

    /** `start` is the head cell the random generator draws on the board. */
    constructor (numCellx: int, numCelly: int, start: Cell)
      requires InGrid(start, numCellx, numCelly)
      ensures Valid()
      ensures this.numCellx == numCellx && this.numCelly == numCelly
      ensures State() == NewSnake(start, numCellx, numCelly)
    {
      this.numCellx := numCellx;
      this.numCelly := numCelly;
      head := start;
      tail := [InitialTailCell];
      direction := Up;
      if 2 * start.x > numCellx {
        direction := Left;
      } else if 2 * start.y < numCelly {
        direction := Down;
      }
    }

    method MoveSnake(grow: bool)
      requires Valid()
      modifies this
      ensures Valid()
      ensures State() == Moved(old(State()), grow)
    {
      if !grow {
        tail := tail[..|tail| - 1];
      }
      tail := [head] + tail;
      if direction == Up {
        head := head.(y := head.y - 1);
      } else if direction == Down {
        head := head.(y := head.y + 1);
      } else if direction == Left {
        head := head.(x := head.x - 1);
      } else if direction == Right {
        head := head.(x := head.x + 1);
      }
    }

    method IsHeadCollideWithWall() returns (r: bool)
      ensures r <==> !InGrid(head, numCellx, numCelly)
    {
      if head.x < 0 || head.y < 0 {
        r := true;
      } else if head.x > numCellx - 1 || head.y > numCelly - 1 {
        r := true;
      } else {
        r := false;
      }
    }

    /** Linear search of the tail for cell `c`. */
    method TailContains(c: Cell) returns (r: bool)
      ensures r <==> c in tail
    {
      var i := 0;
      while i < |tail|
        invariant 0 <= i <= |tail|
        invariant forall j :: 0 <= j < i ==> tail[j] != c
      {
        if tail[i].x == c.x && tail[i].y == c.y {
          return true;
        }
        i := i + 1;
      }
      return false;
    }

    method IsHeadCollideWithTail() returns (r: bool)
      ensures r <==> head in tail
    {
      r := TailContains(head);
    }

    method IsHeadCollideWithFood(food: Cell) returns (r: bool)
      ensures r <==> head == food
    {
      r := head.x == food.x && head.y == food.y;
    }

    /** The occupancy test the food placement calls. The source calls
        `is_position_find_in_head_or_tail` on the snake but never defines it; this is
        the evidently intended test: the cell is the head or one of the tail segments. */
    method IsPositionFindInHeadOrTail(c: Cell) returns (r: bool)
      ensures r <==> Occupied(State(), c)
    {
      if c.x == head.x && c.y == head.y {
        r := true;
      } else {
        r := TailContains(c);
      }
    }
  }
}
