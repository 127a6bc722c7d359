/** Pacman.Map: the maze, its tiles, and the part of it that ghosts and player can reach. */
module PacmanMap {
  const WALL := 0
  const BISCUIT := 1
  const EMPTY := 2
  const BLOCK := 3
  const PILL := 4

  const HEIGHT := 22
  const WIDTH := 19

  /** Pacman.MAP */
  const MAP: seq<seq<int>> := [
    [0, 0, 0, 0, 0, 0, 0, 0, 0, 0, 0, 0, 0, 0, 0, 0, 0, 0, 0],
    [0, 1, 1, 1, 1, 1, 1, 1, 1, 0, 1, 1, 1, 1, 1, 1, 1, 1, 0],
    [0, 4, 0, 0, 1, 0, 0, 0, 1, 0, 1, 0, 0, 0, 1, 0, 0, 4, 0],
    [0, 1, 0, 0, 1, 0, 0, 0, 1, 0, 1, 0, 0, 0, 1, 0, 0, 1, 0],
    [0, 1, 1, 1, 1, 1, 1, 1, 1, 1, 1, 1, 1, 1, 1, 1, 1, 1, 0],
    [0, 1, 0, 0, 1, 0, 1, 0, 0, 0, 0, 0, 1, 0, 1, 0, 0, 1, 0],
    [0, 1, 1, 1, 1, 0, 1, 1, 1, 0, 1, 1, 1, 0, 1, 1, 1, 1, 0],
    [0, 0, 0, 0, 1, 0, 0, 0, 1, 0, 1, 0, 0, 0, 1, 0, 0, 0, 0],
    [2, 2, 2, 0, 1, 0, 1, 1, 1, 1, 1, 1, 1, 0, 1, 0, 2, 2, 2],
    [0, 0, 0, 0, 1, 0, 1, 0, 0, 3, 0, 0, 1, 0, 1, 0, 0, 0, 0],
    [2, 2, 2, 2, 1, 1, 1, 0, 3, 3, 3, 0, 1, 1, 1, 2, 2, 2, 2],
    [0, 0, 0, 0, 1, 0, 1, 0, 0, 0, 0, 0, 1, 0, 1, 0, 0, 0, 0],
    [2, 2, 2, 0, 1, 0, 1, 1, 1, 2, 1, 1, 1, 0, 1, 0, 2, 2, 2],
    [0, 0, 0, 0, 1, 0, 1, 0, 0, 0, 0, 0, 1, 0, 1, 0, 0, 0, 0],
    [0, 1, 1, 1, 1, 1, 1, 1, 1, 0, 1, 1, 1, 1, 1, 1, 1, 1, 0],
    [0, 1, 0, 0, 1, 0, 0, 0, 1, 0, 1, 0, 0, 0, 1, 0, 0, 1, 0],
    [0, 4, 1, 0, 1, 1, 1, 1, 1, 1, 1, 1, 1, 1, 1, 0, 1, 4, 0],
    [0, 0, 1, 0, 1, 0, 1, 0, 0, 0, 0, 0, 1, 0, 1, 0, 1, 0, 0],
    [0, 1, 1, 1, 1, 0, 1, 1, 1, 0, 1, 1, 1, 0, 1, 1, 1, 1, 0],
    [0, 1, 0, 0, 0, 0, 0, 0, 1, 0, 1, 0, 0, 0, 0, 0, 0, 1, 0],
    [0, 1, 1, 1, 1, 1, 1, 1, 1, 1, 1, 1, 1, 1, 1, 1, 1, 1, 0],
    [0, 0, 0, 0, 0, 0, 0, 0, 0, 0, 0, 0, 0, 0, 0, 0, 0, 0, 0]
  ]

  /** The same maze by the columns of its tiles, which is what the proofs compute with. */
  function Tile(r: int, c: int): int {
    if r in {1, 14} then
      if 1 <= c <= 8 || 10 <= c <= 17 then BISCUIT else WALL
    else if r == 2 then
      if c in {1, 17} then PILL else if c in {4, 8, 10, 14} then BISCUIT else WALL
    else if r in {3, 15} then
      if c in {1, 4, 8, 10, 14, 17} then BISCUIT else WALL
    else if r in {4, 20} then
      if 1 <= c <= 17 then BISCUIT else WALL
    else if r == 5 then
      if c in {1, 4, 6, 12, 14, 17} then BISCUIT else WALL
    else if r in {6, 18} then
      if 1 <= c <= 4 || 6 <= c <= 8 || 10 <= c <= 12 || 14 <= c <= 17 then BISCUIT else WALL
    else if r == 7 then
      if c in {4, 8, 10, 14} then BISCUIT else WALL
    else if r == 8 then
      if 0 <= c <= 2 || 16 <= c <= 18 then EMPTY else if 6 <= c <= 12 || c in {4, 14} then BISCUIT else
      WALL
    else if r == 9 then
      if c == 9 then BLOCK else if c in {4, 6, 12, 14} then BISCUIT else WALL
    else if r == 10 then
      if 8 <= c <= 10 then BLOCK else if 0 <= c <= 3 || 15 <= c <= 18 then EMPTY else
      if 4 <= c <= 6 || 12 <= c <= 14 then BISCUIT else WALL
    else if r in {11, 13} then
      if c in {4, 6, 12, 14} then BISCUIT else WALL
    else if r == 12 then
      if 0 <= c <= 2 || 16 <= c <= 18 || c == 9 then EMPTY else
      if 6 <= c <= 8 || 10 <= c <= 12 || c in {4, 14} then BISCUIT else WALL
    else if r == 16 then
      if c in {1, 17} then PILL else if 4 <= c <= 14 || c in {2, 16} then BISCUIT else WALL
    else if r == 17 then
      if c in {2, 4, 6, 12, 14, 16} then BISCUIT else WALL
    else if r == 19 then
      if c in {1, 8, 10, 17} then BISCUIT else WALL
    else WALL
  }

  lemma TilesOfRows0To3(r: int, c: int)
    requires 0 <= r < 4 && 0 <= c < WIDTH
    ensures MAP[r][c] == Tile(r, c)
  {
  }

  lemma TilesOfRows4To7(r: int, c: int)
    requires 4 <= r < 8 && 0 <= c < WIDTH
    ensures MAP[r][c] == Tile(r, c)
  {
  }

  lemma TilesOfRows8To11(r: int, c: int)
    requires 8 <= r < 12 && 0 <= c < WIDTH
    ensures MAP[r][c] == Tile(r, c)
  {
  }

  lemma TilesOfRows12To16(r: int, c: int)
    requires 12 <= r < 17 && 0 <= c < WIDTH
    ensures MAP[r][c] == Tile(r, c)
  {
  }

  lemma TilesOfRows17To21(r: int, c: int)
    requires 17 <= r < 22 && 0 <= c < WIDTH
    ensures MAP[r][c] == Tile(r, c)
  {
  }

  lemma MapIsTiles()
    ensures |MAP| == HEIGHT
    ensures forall r :: 0 <= r < HEIGHT ==> |MAP[r]| == WIDTH
    ensures forall r, c :: 0 <= r < HEIGHT && 0 <= c < WIDTH ==> MAP[r][c] == Tile(r, c)
  {
    MapShape();
    forall r, c | 0 <= r < HEIGHT && 0 <= c < WIDTH
      ensures MAP[r][c] == Tile(r, c)
    {
      hide Tile;
      if r < 4 {
        TilesOfRows0To3(r, c);
      } else if r < 8 {
        TilesOfRows4To7(r, c);
      } else if r < 12 {
        TilesOfRows8To11(r, c);
      } else if r < 17 {
        TilesOfRows12To16(r, c);
      } else {
        TilesOfRows17To21(r, c);
      }
    }
  }

  lemma MapShape()
    ensures |MAP| == HEIGHT
    ensures forall r :: 0 <= r < HEIGHT ==> |MAP[r]| == WIDTH
  {
  }

  predicate WithinBounds(r: int, c: int) {
    0 <= r < HEIGHT && 0 <= c < WIDTH
  }

  predicate IsFloor(tile: int) {
    tile == EMPTY || tile == BISCUIT || tile == PILL
  }

  predicate IsPellet(tile: int) {
    tile == BISCUIT || tile == PILL
  }

  function TilePellets(r: int, n: nat): nat {
    if n == 0 then 0 else TilePellets(r, n - 1) + (if IsPellet(Tile(r, n - 1)) then 1 else 0)
  }

  function TileRows(k: nat): nat {
    if k == 0 then 0 else TileRows(k - 1) + TilePellets(k - 1, WIDTH)
  }

  /** The number of pellets among the first n tiles of row r, by runs. */
  function PelletsBefore(r: int, n: int): int {
    if r in {1, 14} then
      if n <= 1 then 0 else if n <= 9 then n - 1 else if n <= 10 then 8 else if n <= 18 then n - 2 else 16
    else if r in {2, 3, 15} then
      if n <= 1 then 0 else if n <= 2 then n - 1 else if n <= 4 then 1 else if n <= 5 then n - 3 else
      if n <= 8 then 2 else if n <= 9 then n - 6 else if n <= 10 then 3 else if n <= 11 then n - 7 else
      if n <= 14 then 4 else if n <= 15 then n - 10 else if n <= 17 then 5 else
      if n <= 18 then n - 12 else 6
    else if r in {4, 20} then
      if n <= 1 then 0 else if n <= 18 then n - 1 else 17
    else if r == 5 then
      if n <= 1 then 0 else if n <= 2 then n - 1 else if n <= 4 then 1 else if n <= 5 then n - 3 else
      if n <= 6 then 2 else if n <= 7 then n - 4 else if n <= 12 then 3 else if n <= 13 then n - 9 else
      if n <= 14 then 4 else if n <= 15 then n - 10 else if n <= 17 then 5 else
      if n <= 18 then n - 12 else 6
    else if r in {6, 18} then
      if n <= 1 then 0 else if n <= 5 then n - 1 else if n <= 6 then 4 else if n <= 9 then n - 2 else
      if n <= 10 then 7 else if n <= 13 then n - 3 else if n <= 14 then 10 else if n <= 18 then n - 4 else
      14
    else if r == 7 then
      if n <= 4 then 0 else if n <= 5 then n - 4 else if n <= 8 then 1 else if n <= 9 then n - 7 else
      if n <= 10 then 2 else if n <= 11 then n - 8 else if n <= 14 then 3 else if n <= 15 then n - 11 else
      4
    else if r == 8 then
      if n <= 4 then 0 else if n <= 5 then n - 4 else if n <= 6 then 1 else if n <= 13 then n - 5 else
      if n <= 14 then 8 else if n <= 15 then n - 6 else 9
    else if r in {9, 11, 13} then
      if n <= 4 then 0 else if n <= 5 then n - 4 else if n <= 6 then 1 else if n <= 7 then n - 5 else
      if n <= 12 then 2 else if n <= 13 then n - 10 else if n <= 14 then 3 else
      if n <= 15 then n - 11 else 4
    else if r == 10 then
      if n <= 4 then 0 else if n <= 7 then n - 4 else if n <= 12 then 3 else if n <= 15 then n - 9 else 6
    else if r == 12 then
      if n <= 4 then 0 else if n <= 5 then n - 4 else if n <= 6 then 1 else if n <= 9 then n - 5 else
      if n <= 10 then 4 else if n <= 13 then n - 6 else if n <= 14 then 7 else if n <= 15 then n - 7 else
      8
    else if r == 16 then
      if n <= 1 then 0 else if n <= 3 then n - 1 else if n <= 4 then 2 else if n <= 15 then n - 2 else
      if n <= 16 then 13 else if n <= 18 then n - 3 else 15
    else if r == 17 then
      if n <= 2 then 0 else if n <= 3 then n - 2 else if n <= 4 then 1 else if n <= 5 then n - 3 else
      if n <= 6 then 2 else if n <= 7 then n - 4 else if n <= 12 then 3 else if n <= 13 then n - 9 else
      if n <= 14 then 4 else if n <= 15 then n - 10 else if n <= 16 then 5 else
      if n <= 17 then n - 11 else 6
    else if r == 19 then
      if n <= 1 then 0 else if n <= 2 then n - 1 else if n <= 8 then 1 else if n <= 9 then n - 7 else
      if n <= 10 then 2 else if n <= 11 then n - 8 else if n <= 17 then 3 else if n <= 18 then n - 14 else
      4
    else 0
  }

  lemma RunStepAbove(r: int, n: nat)
    requires 0 <= r < 9 && 0 < n <= WIDTH
    ensures PelletsBefore(r, n) == PelletsBefore(r, n - 1) + (if IsPellet(Tile(r, n - 1)) then 1 else 0)
  {
  }

  lemma RunStepBelow(r: int, n: nat)
    requires 9 <= r < HEIGHT && 0 < n <= WIDTH
    ensures PelletsBefore(r, n) == PelletsBefore(r, n - 1) + (if IsPellet(Tile(r, n - 1)) then 1 else 0)
  {
  }

  lemma {:induction false} CountByRuns(r: int, n: nat)
    requires 0 <= r < HEIGHT && n <= WIDTH
    ensures TilePellets(r, n) == PelletsBefore(r, n)
  {
    if n > 0 {
      hide Tile;
      CountByRuns(r, n - 1);
      if r < 9 {
        RunStepAbove(r, n);
      } else {
        RunStepBelow(r, n);
      }
    }
  }

  /** The number of pellets in the first k rows. */
  function PelletsInRows(k: nat): nat {
    if k <= 1 then 0 else if k == 2 then 16 else if k == 3 then 22 else if k == 4 then 28
    else if k == 5 then 45 else if k == 6 then 51 else if k == 7 then 65 else if k == 8 then 69
    else if k == 9 then 78 else if k == 10 then 82 else if k == 11 then 88 else if k == 12 then 92
    else if k == 13 then 100 else if k == 14 then 104 else if k == 15 then 120 else if k == 16 then 126
    else if k == 17 then 141 else if k == 18 then 147 else if k == 19 then 161 else if k == 20 then 165
    else if k == 21 then 182
    else 182
  }

  lemma {:induction false} CountRows(k: nat)
    requires k <= HEIGHT
    ensures TileRows(k) == PelletsInRows(k)
  {
    hide TilePellets;
    if k > 0 {
      CountByRuns(k - 1, WIDTH);
      CountRows(k - 1);
    }
  }

  type Maze = m: seq<seq<int>> | |m| == HEIGHT && forall r :: 0 <= r < HEIGHT ==> |m[r]| == WIDTH
    witness seq(HEIGHT, _ => seq(WIDTH, _ => WALL))

  function FullMaze(): (m: Maze) {
    MapShape();
    MAP
  }

  predicate IsWallSpace(m: Maze, r: int, c: int) {
    WithinBounds(r, c) && m[r][c] == WALL
  }

  predicate IsFloorSpace(m: Maze, r: int, c: int) {
    WithinBounds(r, c) && IsFloor(m[r][c])
  }

  function RowPellets(row: seq<int>, n: nat): nat
    requires n <= |row|
  {
    if n == 0 then 0 else RowPellets(row, n - 1) + (if IsPellet(row[n - 1]) then 1 else 0)
  }

  function PelletsAbove(m: Maze, k: nat): nat
    requires k <= HEIGHT
  {
    if k == 0 then 0 else PelletsAbove(m, k - 1) + RowPellets(m[k - 1], WIDTH)
  }

  /** The number of biscuits and pills that are left. */
  function Pellets(m: Maze): nat {
    PelletsAbove(m, HEIGHT)
  }

  lemma {:induction false} SameRow(row: seq<int>, r: int, n: nat)
    requires n <= |row| && forall c :: 0 <= c < n ==> row[c] == Tile(r, c)
    ensures RowPellets(row, n) == TilePellets(r, n)
  {
    if n > 0 {
      SameRow(row, r, n - 1);
    }
  }

  lemma {:induction false} SameRows(m: Maze, k: nat)
    requires k <= HEIGHT && forall r, c :: 0 <= r < HEIGHT && 0 <= c < WIDTH ==> m[r][c] == Tile(r, c)
    ensures PelletsAbove(m, k) == TileRows(k)
  {
    hide Tile;
    if k > 0 {
      SameRows(m, k - 1);
      SameRow(m[k - 1], k - 1, WIDTH);
    }
  }

  lemma FullMazeIsTiles()
    ensures forall r, c :: 0 <= r < HEIGHT && 0 <= c < WIDTH ==> FullMaze()[r][c] == Tile(r, c)
  {
    hide Tile;
    MapIsTiles();
  }

  /** A full maze holds as many pellets as the player must eat. */
  lemma FullMazePellets()
    ensures Pellets(FullMaze()) == 182
  {
    hide Tile, FullMaze;
    FullMazeIsTiles();
    SameRows(FullMaze(), HEIGHT);
    CountRows(HEIGHT);
  }

  function SetBlock(m: Maze, r: int, c: int, tile: int): Maze
    requires WithinBounds(r, c)
  {
    m[r := m[r][c := tile]]
  }

  lemma {:induction false} RowWithout(row: seq<int>, c: nat, n: nat)
    requires c < |row| && n <= |row| && IsPellet(row[c])
    ensures RowPellets(row[c := EMPTY], n) == RowPellets(row, n) - (if c < n then 1 else 0)
  {
    if n > 0 {
      RowWithout(row, c, n - 1);
    }
  }

  /** Eating a pellet leaves one pellet less. */
  lemma {:induction false} EatenPellet(m: Maze, r: int, c: int, k: nat)
    requires WithinBounds(r, c) && IsPellet(m[r][c]) && k <= HEIGHT
    ensures PelletsAbove(SetBlock(m, r, c, EMPTY), k) == PelletsAbove(m, k) - (if r < k then 1 else 0)
  {
    if k > 0 {
      EatenPellet(m, r, c, k - 1);
      if k - 1 == r {
        RowWithout(m[r], c, WIDTH);
      }
    }
  }

  /**
   The squares that can be reached from the starting squares: floor, except for the four enclosed
   stretches at the sides, and the two squares outside the maze where the tunnel ends.
   */
  predicate IsPath(r: int, c: int) {
    || (r == 10 && (c == -1 || c == WIDTH))
    || (WithinBounds(r, c) && IsFloor(Tile(r, c)) && !((r == 8 || r == 12) && (c <= 2 || c >= 16)))
  }

  /** A maze that was full: only pellets have become empty squares. */
  predicate IsEaten(m: Maze) {
    forall r, c :: 0 <= r < HEIGHT && 0 <= c < WIDTH ==>
      m[r][c] == Tile(r, c) || (m[r][c] == EMPTY && IsPellet(Tile(r, c)))
  }

  /** Eating changes neither the walls nor the floor. */
  lemma EatenMazeSpaces(m: Maze, r: int, c: int)
    requires IsEaten(m)
    ensures IsWallSpace(m, r, c) <==> WithinBounds(r, c) && Tile(r, c) == WALL
    ensures IsFloorSpace(m, r, c) <==> WithinBounds(r, c) && IsFloor(Tile(r, c))
  {
    hide Tile;
  }

  /** The same square or one next to it. */
  predicate Beside(r: int, c: int, r': int, c': int) {
    (r' == r && -1 <= c' - c <= 1) || (c' == c && -1 <= r' - r <= 1)
  }

  /** Paths are never left by stepping onto floor. */
  lemma FloorBesidePath(m: Maze, r: int, c: int, r': int, c': int)
    requires IsEaten(m) && IsPath(r, c) && Beside(r, c, r', c')
    requires IsFloorSpace(m, r', c')
    ensures IsPath(r', c')
  {
    EatenMazeSpaces(m, r', c');
  }

  /** Nor by stepping onto what is not a wall, except into the pen below the middle of row 8. */
  lemma OpenBesidePath(m: Maze, r: int, c: int, r': int, c': int)
    requires IsEaten(m) && IsPath(r, c) && WithinBounds(r, c)
    requires Beside(r, c, r', c')
    requires !IsWallSpace(m, r', c') && !(r == 8 && c == 9 && r' == 9)
    ensures IsPath(r', c')
  {
    EatenMazeSpaces(m, r', c');
  }

  /** There are no dead ends: in front of a wall it is always possible to turn to a side. */
  lemma NoDeadEnds(m: Maze, r: int, c: int)
    requires IsEaten(m) && IsPath(r, c) && WithinBounds(r, c)
    ensures IsWallSpace(m, r - 1, c) || IsWallSpace(m, r + 1, c) ==>
              IsFloorSpace(m, r, c - 1) || IsFloorSpace(m, r, c + 1)
    ensures IsWallSpace(m, r, c - 1) || IsWallSpace(m, r, c + 1) ==>
              IsFloorSpace(m, r - 1, c) || IsFloorSpace(m, r + 1, c)
  {
    hide IsWallSpace, IsFloorSpace;
    EatenMazeSpaces(m, r - 1, c);
    EatenMazeSpaces(m, r + 1, c);
    EatenMazeSpaces(m, r, c - 1);
    EatenMazeSpaces(m, r, c + 1);
    TilesHaveNoDeadEnds(r, c);
  }

  lemma TilesHaveNoDeadEnds(r: int, c: int)
    requires IsPath(r, c) && WithinBounds(r, c)
    ensures Tile(r - 1, c) == WALL || Tile(r + 1, c) == WALL ==>
              (c > 0 && IsFloor(Tile(r, c - 1))) || (c + 1 < WIDTH && IsFloor(Tile(r, c + 1)))
    ensures (c > 0 && Tile(r, c - 1) == WALL) || (c + 1 < WIDTH && Tile(r, c + 1) == WALL) ==>
              (r > 0 && IsFloor(Tile(r - 1, c))) || (r + 1 < HEIGHT && IsFloor(Tile(r + 1, c)))
  {
  }

  lemma FullMazeIsEaten()
    ensures IsEaten(FullMaze())
  {
    hide Tile, FullMaze;
    FullMazeIsTiles();
  }
}
