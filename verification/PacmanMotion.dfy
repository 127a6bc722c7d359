/** Coordinates and directions of pacman.js; one square of the maze is ten units wide. */
module PacmanMotion {
  import opened PacmanMap

  datatype Direction = NoDirection | Up | Left | Down | Right

  predicate Horizontal(d: Direction) {
    d == Left || d == Right
  }

  predicate Vertical(d: Direction) {
    d == Up || d == Down
  }

  /** x % 10 as JavaScript computes it: the sign is that of x. */
  function Rem10(x: int): int {
    if x >= 0 then x % 10 else -((-x) % 10)
  }

  predicate OnWholeSquare(x: int) {
    Rem10(x) == 0
  }

  predicate OnGrid(x: int, y: int) {
    OnWholeSquare(y) && OnWholeSquare(x)
  }

  function NextSquare(x: int, d: Direction): (r: int)
    ensures r % 10 == 0
  {
    var rem := Rem10(x);
    if rem == 0 then x
    else if d == Right || d == Down then x + (10 - rem)
    else x - rem
  }

  /** pointToCoord is only applied to whole squares, where nothing needs rounding. */
  function PointToCoord(x: int): int
    requires x % 10 == 0
  {
    x / 10
  }

  function NextCoord(x: int, d: Direction): int {
    PointToCoord(NextSquare(x, d))
  }

  function DeltaX(d: Direction): int {
    if d == Left then -1 else if d == Right then 1 else 0
  }

  function DeltaY(d: Direction): int {
    if d == Down then 1 else if d == Up then -1 else 0
  }

  /** Both squares that a figure at (x, y) overlaps can be reached, so neither is a wall. */
  predicate OnPath(x: int, y: int) {
    IsPath(y / 10, x / 10) && IsPath((y + 9) / 10, (x + 9) / 10)
  }

  /** Where a figure may be: on the grid along one axis, off it only in the direction it faces. */
  predicate WellPlaced(x: int, y: int, d: Direction) {
    && OnPath(x, y) && -10 <= x <= 190
    && (x % 10 != 0 ==> y % 10 == 0 && Horizontal(d))
    && (y % 10 != 0 ==> x % 10 == 0 && Vertical(d))
    && (x < 0 || x > 180 ==> Horizontal(d))
  }

  lemma OverlapsNoWall(x: int, y: int, d: Direction)
    requires WellPlaced(x, y, d)
    ensures forall r, c :: y / 10 <= r <= (y + 9) / 10 && x / 10 <= c <= (x + 9) / 10 && WithinBounds(r, c) ==>
              Tile(r, c) != WALL && Tile(r, c) != BLOCK
    ensures x < 0 || x > 180 ==> y == 100
  {
    hide Tile;
  }

  /** The tunnel row is open at both ends. */
  lemma TunnelEnds()
    ensures IsPath(10, -1) && IsPath(10, 0) && IsPath(10, 1) && IsPath(10, 18) && IsPath(10, 19)
  {
  }

  lemma EdgeSquares(r: int, c: int)
    requires IsPath(r, c)
    ensures 0 < r < HEIGHT - 1
    ensures c <= 0 || c >= 18 ==> r == 10
  {
  }

  /**
   * The square in front of a figure on the grid, and what the code looks at instead: they differ only at the left
   * edge.
   */
  lemma AheadOnGrid(x: int, y: int, d: Direction, v: int)
    requires x % 10 == 0 && y % 10 == 0 && 0 <= y && -10 <= x && 0 < v < 10 && d != NoDirection
    ensures Horizontal(d) ==> NextCoord(y, d) == y / 10
    ensures Vertical(d) ==> NextCoord(x, d) == x / 10
    ensures d == Right && 0 <= x ==> NextCoord(x + v, d) == x / 10 + 1
    ensures d == Left && 10 <= x ==> NextCoord(x - v, d) == x / 10 - 1
    ensures d == Down ==> NextCoord(y + v, d) == y / 10 + 1
    ensures d == Up && 10 <= y ==> NextCoord(y - v, d) == y / 10 - 1
    ensures x == -10 ==> NextCoord(x, d) == -1
    ensures d == Left && x == 0 ==> NextCoord(x - v, d) == 0
    ensures d == Right && x == -10 ==> NextCoord(x + v, d) == 1
    ensures d == Left && x == -10 ==> NextCoord(x - v, d) == -1
  {
  }
}
