/** Pacman.User: the player's moves, score and lives, and the pellets that disappear on the way. */
module PacmanPlayer {
  import opened Wrappers
  import opened PacmanMap
  import opened PacmanMotion

  const ALL_PELLETS := 182

  datatype Player = Player(x: int, y: int, direction: Direction, due: Direction, eaten: int, lives: int, score: int)

  function AddScore(p: Player, points: int): Player {
    var score := p.score + points;
    p.(score := score, lives := if score >= 10000 && score - points < 10000 then p.lives + 1 else p.lives)
  }

  function ResetPosition(p: Player): Player {
    p.(x := 90, y := 120, direction := Left, due := Left)
  }

  function NewLevel(p: Player): Player {
    ResetPosition(p).(eaten := 0)
  }

  function NewPlayer(p: Player): Player {
    NewLevel(p.(score := 0, lives := 3))
  }

  predicate OnSamePlane(due: Direction, d: Direction) {
    (Horizontal(due) && Horizontal(d)) || (Vertical(due) && Vertical(d))
  }

  function StepTo(x: int, delta: int): int {
    x + 2 * delta
  }

  /** The square that the player looks at when facing d: next() of the new position. */
  function LooksAtRow(p: Player, d: Direction): int {
    NextCoord(StepTo(p.y, DeltaY(d)), d)
  }

  function LooksAtColumn(p: Player, d: Direction): int {
    NextCoord(StepTo(p.x, DeltaX(d)), d)
  }

  predicate TakesDue(m: Maze, p: Player) {
    && p.due != p.direction
    && (OnSamePlane(p.due, p.direction)
        || (OnGrid(p.x, p.y) && IsFloorSpace(m, LooksAtRow(p, p.due), LooksAtColumn(p, p.due))))
  }

  /** The direction after a turn and the check for a wall ahead. */
  function Facing(m: Maze, p: Player): Direction {
    var d := if TakesDue(m, p) then p.due else p.direction;
    if OnGrid(p.x, p.y) && IsWallSpace(m, LooksAtRow(p, d), LooksAtColumn(p, d)) then NoDirection else d
  }

  function Tunnelled(x: int, y: int, d: Direction): int {
    if y == 100 && x >= 190 && d == Right then -10
    else if y == 100 && x <= -12 && d == Left then 190
    else x
  }

  /** The player and the maze after one frame, and the pellet that was eaten, if any. */
  datatype Moved = Moved(player: Player, maze: Maze, ate: Option<int>)

  /** Where the player is after one frame, before anything is eaten. */
  function Step(m: Maze, p: Player): Player {
    var d := Facing(m, p);
    if d == NoDirection then p.(direction := NoDirection)
    else
      var (x, y) := (StepTo(p.x, DeltaX(d)), StepTo(p.y, DeltaY(d)));
      p.(x := Tunnelled(x, y, d), y := y, direction := d)
  }

  function Move(m: Maze, p: Player): Moved {
    var p' := Step(m, p);
    var (r, c) := (NextCoord(p'.y, p'.direction), NextCoord(p'.x, p'.direction));
    if p'.direction == NoDirection || !WithinBounds(r, c) || !IsPellet(m[r][c]) then Moved(p', m, None)
    else
      var points := if m[r][c] == BISCUIT then 10 else 50;
      var p'' := AddScore(p', points);
      Moved(p''.(eaten := p''.eaten + 1), SetBlock(m, r, c, EMPTY), Some(m[r][c]))
  }

  /** The player moves by two units on even coordinates and cannot face the pen. */
  predicate InCorridor(p: Player) {
    && WellPlaced(p.x, p.y, p.direction) && p.x % 2 == 0 && p.y % 2 == 0
    && (p.x == 90 && p.y == 80 ==> !Vertical(p.direction))
    && p.due != NoDirection
  }

  lemma EvenSteps(x: int, d: Direction)
    requires x % 2 == 0 && -10 <= x
    ensures OnWholeSquare(x) <==> x % 10 == 0
    ensures 0 <= x && d != NoDirection ==> NextCoord(x, d) == if d == Right || d == Down then (x + 9) / 10 else x / 10
  {
  }

  /** What the player looks at from a whole square. */
  lemma LooksAhead(p: Player, d: Direction)
    requires -10 <= p.x && p.x % 10 == 0 && 0 <= p.y && p.y % 10 == 0 && d != NoDirection
    ensures (d == Left ==> 10 <= p.x) && (d == Up ==> 10 <= p.y) && 0 <= p.x ==>
              LooksAtRow(p, d) == p.y / 10 + DeltaY(d) && LooksAtColumn(p, d) == p.x / 10 + DeltaX(d)
    ensures Horizontal(d) ==> LooksAtRow(p, d) == p.y / 10
    ensures Horizontal(d) && p.x == -10 ==> LooksAtColumn(p, d) == if d == Left then -1 else 1
    ensures d == Left && p.x == 0 ==> LooksAtColumn(p, d) == 0
    ensures Vertical(d) && p.x == -10 ==> LooksAtColumn(p, d) == -1
  {
    AheadOnGrid(p.x, p.y, d, 2);
  }

  lemma StepXKeeps(x: int, y: int, d: Direction)
    requires WellPlaced(x, y, d) && Horizontal(d) && y % 10 == 0 && x % 2 == 0
    requires x % 10 == 0 && 0 <= x <= 180 ==> IsPath(y / 10, x / 10 + DeltaX(d))
    ensures WellPlaced(Tunnelled(StepTo(x, DeltaX(d)), y, d), y, d)
    ensures Tunnelled(StepTo(x, DeltaX(d)), y, d) % 2 == 0
  {
    hide Tile;
    TunnelEnds();
    EdgeSquares(y / 10, x / 10);
    EdgeSquares((y + 9) / 10, (x + 9) / 10);
  }

  lemma StepYKeeps(x: int, y: int, d: Direction)
    requires WellPlaced(x, y, d) && Vertical(d) && x % 10 == 0 && 0 <= x <= 180 && y % 2 == 0
    requires y % 10 == 0 ==> IsPath(y / 10 + DeltaY(d), x / 10)
    ensures WellPlaced(x, StepTo(y, DeltaY(d)), d) && StepTo(y, DeltaY(d)) % 2 == 0
  {
    hide Tile;
    EdgeSquares(y / 10, x / 10);
  }

  /** The squares above and below the middle of row 8 are not on the path. */
  lemma NoPathToPen()
    ensures !IsPath(7, 9) && !IsPath(9, 9)
    ensures Tile(9, 9) == BLOCK && Tile(7, 9) == WALL
  {
  }

  /** The direction before the check for a wall ahead. */
  function Turned(m: Maze, p: Player): Direction {
    if TakesDue(m, p) then p.due else p.direction
  }

  /** Turning keeps the player well placed. */
  lemma TurnedIsPlaced(m: Maze, p: Player)
    requires IsEaten(m) && InCorridor(p)
    ensures var d := Turned(m, p);
      && WellPlaced(p.x, p.y, d)
      && (Horizontal(d) ==> p.y % 10 == 0)
      && (Vertical(d) ==> p.x % 10 == 0 && 0 <= p.x <= 180)
  {
    hide Tile, IsEaten, IsPath, OnPath, LooksAtRow, LooksAtColumn;
    EvenSteps(p.x, p.due);
    RowIsInside(p.x, p.y);
    EvenSteps(p.y, p.due);
    if OnGrid(p.x, p.y) && (p.x < 0 || p.x > 180) && Vertical(p.due) {
      LooksAhead(p, p.due);
    }
  }

  lemma RowIsInside(x: int, y: int)
    requires OnPath(x, y)
    ensures 0 < y / 10 < HEIGHT - 1 && 0 < (y + 9) / 10 < HEIGHT - 1
  {
    EdgeSquares(y / 10, x / 10);
    EdgeSquares((y + 9) / 10, (x + 9) / 10);
  }

  /** Above the pen there is nothing to turn down or up to. */
  lemma AbovePen(m: Maze, p: Player)
    requires IsEaten(m) && InCorridor(p) && p.x == 90 && p.y == 80
    ensures !Vertical(Turned(m, p))
  {
    hide Tile, IsEaten, IsPath;
    NoPathToPen();
    LooksAhead(p, p.due);
    EatenMazeSpaces(m, 7, 9);
    EatenMazeSpaces(m, 9, 9);
  }

  /** A player who is not stopped by a wall is about to enter a square on the path. */
  lemma EntersOnlyPath(m: Maze, p: Player)
    requires IsEaten(m) && InCorridor(p) && Facing(m, p) != NoDirection
    requires p.x % 10 == 0 && p.y % 10 == 0 && 0 <= p.x <= 180
    ensures var d := Facing(m, p); IsPath(p.y / 10 + DeltaY(d), p.x / 10 + DeltaX(d))
  {
    hide Tile, IsEaten, IsPath, IsWallSpace, IsFloorSpace, TakesDue;
    var d := Facing(m, p);
    var (r, c) := (p.y / 10, p.x / 10);
    assert d == Turned(m, p);
    EdgeSquares(r, c);
    TunnelEnds();
    LooksAhead(p, d);
    if d != Left || p.x >= 10 {
      if r == 8 && c == 9 {
        AbovePen(m, p);
      }
      InsideMaze(r, c);
      OpenBesidePath(m, r, c, r + DeltaY(d), c + DeltaX(d));
    }
  }

  lemma InsideMaze(r: int, c: int)
    requires IsPath(r, c) && 0 <= c < WIDTH
    ensures WithinBounds(r, c)
  {
  }

  /** The player's corridors are those of the ghosts. */
  lemma StepStaysInCorridor(m: Maze, p: Player)
    requires IsEaten(m) && InCorridor(p)
    ensures InCorridor(Step(m, p))
  {
    hide Tile, IsEaten, IsPath, IsWallSpace, IsFloorSpace, TakesDue;
    var d := Facing(m, p);
    RowIsInside(p.x, p.y);
    EvenSteps(p.x, d);
    EvenSteps(p.y, d);
    TurnedIsPlaced(m, p);
    if d == NoDirection {
      StopsInside(m, p);
    } else {
      if p.x % 10 == 0 && p.y % 10 == 0 && 0 <= p.x <= 180 {
        EntersOnlyPath(m, p);
      }
      if Horizontal(d) {
        StepXKeeps(p.x, p.y, d);
      } else {
        StepYKeeps(p.x, p.y, d);
        NotIntoPen(p.x, p.y, StepTo(p.y, DeltaY(d)));
      }
    }
  }

  lemma NotIntoPen(x: int, y: int, y': int)
    requires OnPath(x, y) && OnPath(x, y') && (y' == y + 2 || y' == y - 2)
    ensures !(x == 90 && y' == 80)
  {
    NoPathToPen();
  }

  /** A player is stopped on the grid and inside the maze only. */
  lemma StopsInside(m: Maze, p: Player)
    requires IsEaten(m) && InCorridor(p) && Facing(m, p) == NoDirection
    ensures p.x % 10 == 0 && p.y % 10 == 0 && 0 <= p.x <= 180
  {
  }

  /** The row of the square that is eaten from exists, so looking it up cannot fail. */
  lemma LooksInsideMaze(x: int, y: int, d: Direction)
    requires WellPlaced(x, y, d) && d != NoDirection
    ensures 0 <= NextCoord(y, d) < HEIGHT
  {
    hide IsPath;
    RowIsInside(x, y);
  }

  /** Every pellet is either eaten or left, and eating only ever empties squares that held one. */
  lemma MoveConservesPellets(m: Maze, p: Player)
    requires IsEaten(m) && InCorridor(p)
    ensures var r := Move(m, p);
      && InCorridor(r.player) && IsEaten(r.maze)
      && r.player.eaten + Pellets(r.maze) == p.eaten + Pellets(m)
      && r.player.eaten == p.eaten + (if r.ate.Some? then 1 else 0)
      && p.lives <= r.player.lives
  {
    hide Tile, IsPath, Step, InCorridor;
    StepStaysInCorridor(m, p);
    StepOnlyMoves(m, p);
    var p' := Step(m, p);
    var (r, c) := (NextCoord(p'.y, p'.direction), NextCoord(p'.x, p'.direction));
    if WithinBounds(r, c) && IsPellet(m[r][c]) {
      EatenPellet(m, r, c, HEIGHT);
    }
    SamePlace(p', Move(m, p).player);
  }

  lemma StepOnlyMoves(m: Maze, p: Player)
    ensures Step(m, p).eaten == p.eaten && Step(m, p).lives == p.lives
  {
  }

  lemma SamePlace(p: Player, q: Player)
    requires InCorridor(p) && p.x == q.x && p.y == q.y && p.direction == q.direction && p.due == q.due
    ensures InCorridor(q)
  {
  }

  /** The object behind the player. */
  class User {
    var x: int
    var y: int
    var direction: Direction
    var due: Direction
    var eaten: int
    var lives: int
    var score: int

    function State(): Player
      reads this
    {
      Player(x, y, direction, due, eaten, lives, score)
    }

    constructor ()
      ensures State() == NewPlayer(Player(0, 0, NoDirection, NoDirection, 0, 0, 5))
    {
      score, lives, eaten := 0, 3, 0;
      x, y, direction, due := 90, 120, Left, Left;
    }

    method GainScore(points: int)
      modifies this
      ensures State() == AddScore(old(State()), points)
    {
      score := score + points;
      if score >= 10000 && score - points < 10000 {
        lives := lives + 1;
      }
    }

    method PutAtStart()
      modifies this
      ensures State() == ResetPosition(old(State()))
    {
      x, y, direction, due := 90, 120, Left, Left;
    }

    method StartLevel()
      modifies this
      ensures State() == NewLevel(old(State()))
    {
      PutAtStart();
      eaten := 0;
    }

    method StartGame()
      modifies this
      ensures State() == NewPlayer(old(State()))
    {
      score := 0;
      lives := 3;
      StartLevel();
    }

    /** One frame of the player, up to the calls that tell the game what was eaten. */
    method MoveUser(m: Maze) returns (maze: Maze, ate: Option<int>)
      requires InCorridor(State())
      modifies this
      ensures Moved(State(), maze, ate) == Move(m, old(State()))
    {
      hide IsPath, Tile, WellPlaced, PelletsAbove;
      maze, ate := m, None;
      MoveOnly(m);
      if direction == NoDirection {
        return;
      }
      var (r, c) := (NextCoord(y, direction), NextCoord(x, direction));
      if WithinBounds(r, c) && IsPellet(m[r][c]) {
        ate := Some(m[r][c]);
        maze := SetBlock(m, r, c, EMPTY);
        GainScore(if m[r][c] == BISCUIT then 10 else 50);
        eaten := eaten + 1;
      }
    }

    method MoveOnly(m: Maze)
      modifies this
      ensures State() == Step(m, old(State()))
    {
      var heading := direction;
      if due != direction {
        if OnSamePlane(due, direction)
           || (OnGrid(x, y) && IsFloorSpace(m, LooksAtRow(State(), due), LooksAtColumn(State(), due))) {
          heading := due;
        }
      }
      var (nx, ny) := (StepTo(x, DeltaX(heading)), StepTo(y, DeltaY(heading)));
      if OnGrid(x, y) && IsWallSpace(m, NextCoord(ny, heading), NextCoord(nx, heading)) {
        heading := NoDirection;
      }
      direction := heading;
      if heading == NoDirection {
        return;
      }
      x, y := Tunnelled(nx, ny, heading), ny;
    }
  }
}
