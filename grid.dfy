/** Board geometry shared by the snake, the food and the game loop. */
module Grid {

  /** Side of one square cell, in pixels (CELL_WIDTH). */
  const CellWidth: int := 20

  /** A board cell. The source keeps cells as `{'x': .., 'y': ..}` dicts or `(x, y)` tuples. */
  datatype Cell = Cell(x: int, y: int)

  datatype Direction = Up | Down | Left | Right

  /** Number of cells along one side of a screen of `screen` pixels: Python's
      `int(screen / CELL_WIDTH)`, a true division truncated toward zero. */
  function NumCells(screen: int): (n: int)
    ensures screen >= 0 ==> 0 <= n && n * CellWidth <= screen < n * CellWidth + CellWidth
    ensures screen < 0 ==> n <= 0 && n * CellWidth - CellWidth < screen <= n * CellWidth
  {
    if screen >= 0 then screen / CellWidth else -((-screen) / CellWidth)
  }

  /** The 800x600 window the program opens is a 40x30 board. */
  lemma DefaultBoard()
    ensures NumCells(800) == 40 && NumCells(600) == 30
  {
  }

  /** The cell lies on a board of `numCellx` columns and `numCelly` rows. */
  predicate InGrid(c: Cell, numCellx: int, numCelly: int) {
    0 <= c.x < numCellx && 0 <= c.y < numCelly
  }

  function Abs(n: int): (m: nat) {
    if n < 0 then -n else n
  }

  /** Manhattan distance between two cells. */
  function Distance(a: Cell, b: Cell): (n: nat) {
    Abs(a.x - b.x) + Abs(a.y - b.y)
  }

  function Opposite(d: Direction): (o: Direction)
    ensures o != d
  {
    match d
    case Up => Down
    case Down => Up
    case Left => Right
    case Right => Left
  }

  lemma OppositeInvolutive(d: Direction)
    ensures Opposite(Opposite(d)) == d
  {
  }

  /** The cell one step away in direction `d`; y grows downwards, as on the screen. */
  function Neighbour(c: Cell, d: Direction): (n: Cell)
    ensures Distance(c, n) == 1
    ensures (d == Up || d == Down) ==> n.x == c.x
    ensures (d == Left || d == Right) ==> n.y == c.y
    ensures d == Up ==> n.y < c.y
    ensures d == Down ==> n.y > c.y
    ensures d == Left ==> n.x < c.x
    ensures d == Right ==> n.x > c.x
  {
    match d
    case Up => c.(y := c.y - 1)
    case Down => c.(y := c.y + 1)
    case Left => c.(x := c.x - 1)
    case Right => c.(x := c.x + 1)
  }

  /** A step in the opposite direction undoes a step. */
  lemma NeighbourUndo(c: Cell, d: Direction)
    ensures Neighbour(Neighbour(c, d), Opposite(d)) == c
  {
  }
}
