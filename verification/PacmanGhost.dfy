/** Pacman.Ghost: how a ghost moves, and the corridors it never leaves. */
module PacmanGhost {
  import opened Wrappers
  import opened PacmanMap
  import opened PacmanMotion

  /**
   Keeps a ghost from skipping a whole square, which is where collisions with walls are detected.
   */
  function AddBounded(x1: int, x2: int): int {
    var rem := Rem10(x1);
    var result := rem + x2;
    if rem != 0 && result > 10 then x1 + (10 - rem)
    else if rem > 0 && result < 0 then x1 - rem
    else x1 + x2
  }

  /** A whole square lies strictly between the old and the new coordinate. */
  ghost predicate Skips(x1: int, x2: int) {
    exists k :: Between(x1, 10 * k, AddBounded(x1, x2))
  }

  predicate Between(a: int, b: int, c: int) {
    a < b < c || c < b < a
  }

  /**
   The purpose is missed exactly at negative coordinates off the grid, where JavaScript's remainder is negative,
   by steps that reach beyond the next whole square on either side.
   */
  lemma AddBoundedSkipsIff(x1: int, x2: int)
    requires -10 <= x2 <= 10
    ensures Skips(x1, x2) <==> Rem10(x1) < 0 && (Rem10(x1) + x2 > 0 || Rem10(x1) + x2 < -10)
  {
    var rem := Rem10(x1);
    var q := (x1 - rem) / 10;
    assert x1 == 10 * q + rem;
    if rem < 0 && rem + x2 > 0 && rem + x2 <= 10 {
      assert Between(x1, 10 * q, AddBounded(x1, x2));
    } else if rem < 0 && rem + x2 < -10 {
      assert Between(x1, 10 * (q - 1), AddBounded(x1, x2));
    }
    hide Rem10;
    if Skips(x1, x2) {
      var k :| Between(x1, 10 * k, AddBounded(x1, x2));
      SkippedFrom(x1, x2, q, k);
    }
  }

  lemma SkippedFrom(x1: int, x2: int, q: int, k: int)
    requires -10 <= x2 <= 10 && -10 < Rem10(x1) < 10 && x1 == 10 * q + Rem10(x1)
    requires Between(x1, 10 * k, AddBounded(x1, x2))
    ensures Rem10(x1) < 0 && (Rem10(x1) + x2 > 0 || Rem10(x1) + x2 < -10)
  {
    hide Rem10;
  }

  /** `eatable` and `eaten` hold the tick of the last pill or of the ghost's own end, as long as either lasts. */
  datatype Ghost = Ghost(x: int, y: int, direction: Direction, due: Direction, eatable: Option<nat>, eaten: Option<nat>)

  function Speed(g: Ghost): int {
    if g.eatable.Some? then 1 else if g.eaten.Some? then 4 else 2
  }

  function NewX(g: Ghost, d: Direction): int {
    AddBounded(g.x, Speed(g) * DeltaX(d))
  }

  function NewY(g: Ghost, d: Direction): int {
    AddBounded(g.y, Speed(g) * DeltaY(d))
  }

  /** `coin` decides between the two directions at right angles to `d`. */
  function RandomDirection(d: Direction, coin: bool): Direction {
    if Horizontal(d) then (if coin then Up else Down) else (if coin then Left else Right)
  }

  function Opposite(d: Direction): Direction {
    match d
    case Left => Right
    case Right => Left
    case Up => Down
    case _ => Up
  }

  function Reset(g: Ghost, coin1: bool, coin2: bool): Ghost {
    var d := RandomDirection(g.direction, coin1);
    Ghost(90, 80, d, RandomDirection(d, coin2), None, None)
  }

  function MakeEatable(g: Ghost, tick: nat): Ghost {
    g.(direction := Opposite(g.direction), eatable := Some(tick))
  }

  function Eat(g: Ghost, tick: nat): Ghost {
    g.(eatable := None, eaten := Some(tick))
  }

  /** The square that decides whether a ghost can go on in direction d. */
  function AheadRow(g: Ghost, d: Direction): int {
    NextCoord(NewY(g, d), d)
  }

  function AheadColumn(g: Ghost, d: Direction): int {
    NextCoord(NewX(g, d), d)
  }

  predicate Turns(m: Maze, g: Ghost) {
    g.due != g.direction && OnGrid(g.x, g.y) && IsFloorSpace(m, AheadRow(g, g.due), AheadColumn(g, g.due))
  }

  function Heading(m: Maze, g: Ghost): Direction {
    if Turns(m, g) then g.due else g.direction
  }

  predicate Blocked(m: Maze, g: Ghost) {
    OnGrid(g.x, g.y) && IsWallSpace(m, AheadRow(g, Heading(m, g)), AheadColumn(g, Heading(m, g)))
  }

  /** The column after pane: leaving the maze at one end of the tunnel is entering it at the other. */
  function PanedX(x: int, y: int, d: Direction): int {
    if y == 100 && x >= 190 && d == Right then -10
    else if y == 100 && x <= -10 && d == Left then 190
    else x
  }

  /** One unblocked step of a ghost. */
  function Advance(m: Maze, g: Ghost, coin: bool): Ghost {
    var d := Heading(m, g);
    var (x, y) := (NewX(g, d), NewY(g, d));
    g.(x := PanedX(x, y, d), y := y, direction := d, due := RandomDirection(d, coin))
  }

  /** move: a blocked ghost draws another direction and tries again, until it is out of coins. */
  function Move(m: Maze, g: Ghost, coins: seq<bool>): Option<Ghost>
    decreases |coins|
  {
    if coins == [] then None
    else if Blocked(m, g) then
      Move(m, g.(direction := Heading(m, g), due := RandomDirection(Heading(m, g), coins[0])), coins[1..])
    else Some(Advance(m, g, coins[0]))
  }

  /** What every ghost keeps: see WellPlaced; besides, it always waits to turn to a side. */
  predicate InCorridor(g: Ghost) {
    && WellPlaced(g.x, g.y, g.direction)
    && g.direction != NoDirection && g.due != NoDirection
    && (Horizontal(g.due) <==> Vertical(g.direction))
  }

  /** The neighbouring square a ghost on the grid is about to enter. */
  predicate EntersPath(g: Ghost, d: Direction) {
    IsPath(g.y / 10 + DeltaY(d), g.x / 10 + DeltaX(d))
  }

  lemma TunnelTurns(m: Maze, g: Ghost)
    requires IsEaten(m) && InCorridor(g) && OnGrid(g.x, g.y) && (g.x < 0 || g.x > 180)
    ensures !Turns(m, g) && Horizontal(g.direction) && g.y == 100
  {
    hide Tile;
    AheadOnGrid(g.x, g.y, g.due, Speed(g));
  }

  /** A ghost that sits above the pen turns away from it. */
  lemma TurnsAbovePen(m: Maze, g: Ghost)
    requires IsEaten(m) && InCorridor(g) && g.x == 90 && g.y == 80
    ensures Heading(m, g) != Down
  {
    EatenMazeSpaces(m, AheadRow(g, g.due), AheadColumn(g, g.due));
    AheadOnGrid(g.x, g.y, g.due, Speed(g));
  }

  /** On the grid, an unblocked ghost only enters squares on the path. */
  lemma EntersOnlyPath(m: Maze, g: Ghost)
    requires IsEaten(m) && InCorridor(g) && OnGrid(g.x, g.y) && !Blocked(m, g) && 0 <= g.x <= 180
    ensures EntersPath(g, Heading(m, g))
  {
    hide Tile, IsEaten, IsWallSpace, IsFloorSpace, IsPath, AheadRow, AheadColumn;
    var d := Heading(m, g);
    var (r, c) := (g.y / 10, g.x / 10);
    EdgeSquares(r, c);
    TunnelEnds();
    if d != Left || g.x >= 10 {
      LooksAhead(g, d);
      var (r', c') := (AheadRow(g, d), AheadColumn(g, d));
      if Turns(m, g) {
        FloorBesidePath(m, r, c, r', c');
      } else {
        AbovePen(m, g);
        PathWithinBounds(r, c);
        OpenBesidePath(m, r, c, r', c');
      }
    }
  }

  lemma PathWithinBounds(r: int, c: int)
    requires IsPath(r, c) && 0 <= c < WIDTH
    ensures WithinBounds(r, c)
  {
  }

  lemma AbovePen(m: Maze, g: Ghost)
    requires IsEaten(m) && InCorridor(g)
    ensures g.x == 90 && g.y == 80 ==> Heading(m, g) != Down
  {
    if g.x == 90 && g.y == 80 {
      TurnsAbovePen(m, g);
    }
  }

  /** A horizontal step from a well-placed position ends well placed, through the tunnel or not. */
  lemma StepLeft(x: int, y: int, v: int)
    requires WellPlaced(x, y, Left) && y % 10 == 0 && 1 <= v <= 4
    requires x % 10 == 0 && 0 <= x <= 180 ==> IsPath(y / 10, x / 10 - 1)
    ensures WellPlaced(PanedX(AddBounded(x, -v), y, Left), y, Left)
  {
    hide Tile;
    TunnelEnds();
    EdgeSquares(y / 10, x / 10);
    EdgeSquares((y + 9) / 10, (x + 9) / 10);
  }

  lemma StepRight(x: int, y: int, v: int)
    requires WellPlaced(x, y, Right) && y % 10 == 0 && 1 <= v <= 4
    requires x % 10 == 0 && 0 <= x <= 180 ==> IsPath(y / 10, x / 10 + 1)
    ensures WellPlaced(PanedX(AddBounded(x, v), y, Right), y, Right)
  {
    hide Tile;
    TunnelEnds();
    EdgeSquares(y / 10, x / 10);
    EdgeSquares((y + 9) / 10, (x + 9) / 10);
  }

  lemma StepX(x: int, y: int, d: Direction, v: int)
    requires WellPlaced(x, y, d) && Horizontal(d) && y % 10 == 0 && 1 <= v <= 4
    requires x % 10 == 0 && 0 <= x <= 180 ==> IsPath(y / 10, x / 10 + DeltaX(d))
    ensures WellPlaced(PanedX(AddBounded(x, v * DeltaX(d)), y, d), y, d)
  {
    hide WellPlaced, PanedX, AddBounded, IsPath;
    if d == Left {
      assert v * DeltaX(d) == -v;
      StepLeft(x, y, v);
    } else {
      assert v * DeltaX(d) == v;
      StepRight(x, y, v);
    }
  }

  lemma StepY(x: int, y: int, d: Direction, v: int)
    requires WellPlaced(x, y, d) && Vertical(d) && x % 10 == 0 && 0 <= x <= 180 && 1 <= v <= 4
    requires y % 10 == 0 ==> IsPath(y / 10 + DeltaY(d), x / 10)
    ensures WellPlaced(x, AddBounded(y, v * DeltaY(d)), d)
  {
    hide Tile;
    EdgeSquares(y / 10, x / 10);
    assert v * DeltaY(d) == if d == Up then -v else v;
  }

  /** One step keeps a ghost in the corridors, whatever its speed. */
  lemma AdvanceStaysInCorridor(m: Maze, g: Ghost, coin: bool)
    requires IsEaten(m) && InCorridor(g) && !Blocked(m, g)
    ensures InCorridor(Advance(m, g, coin))
  {
    hide IsPath, IsEaten, WellPlaced;
    var d := Heading(m, g);
    FacesHeading(m, g);
    if OnGrid(g.x, g.y) && 0 <= g.x <= 180 {
      EntersOnlyPath(m, g);
    }
    if Horizontal(d) {
      StepX(g.x, g.y, d, Speed(g));
    } else {
      StepY(g.x, g.y, d, Speed(g));
    }
    NoStepAside(g, d);
  }

  /** Turning keeps a ghost well placed: it turns on the grid and inside the maze only. */
  lemma FacesHeading(m: Maze, g: Ghost)
    requires IsEaten(m) && InCorridor(g)
    ensures var d := Heading(m, g);
      && WellPlaced(g.x, g.y, d) && d != NoDirection
      && (Horizontal(d) ==> g.y % 10 == 0)
      && (Vertical(d) ==> g.x % 10 == 0 && 0 <= g.x <= 180)
      && (OnGrid(g.x, g.y) <==> g.x % 10 == 0 && g.y % 10 == 0)
  {
    hide IsPath, IsEaten, OnPath, AheadRow, AheadColumn, IsFloorSpace, Rem10;
    WholeSquares(g.x);
    WholeSquares(g.y);
    if OnGrid(g.x, g.y) && (g.x < 0 || g.x > 180) {
      TunnelTurns(m, g);
    }
  }

  lemma WholeSquares(x: int)
    ensures OnWholeSquare(x) <==> x % 10 == 0
  {
  }

  lemma NoStepAside(g: Ghost, d: Direction)
    ensures Horizontal(d) ==> NewY(g, d) == g.y
    ensures Vertical(d) ==> NewX(g, d) == g.x && PanedX(g.x, NewY(g, d), d) == g.x
  {
  }

  /** However often a ghost draws again, a move that ends keeps it in the corridors. */
  lemma {:induction false} MoveStaysInCorridor(m: Maze, g: Ghost, coins: seq<bool>)
    requires IsEaten(m) && InCorridor(g) && Move(m, g, coins).Some?
    ensures InCorridor(Move(m, g, coins).value)
    decreases |coins|
  {
    hide IsEaten, WellPlaced;
    if Blocked(m, g) {
      FacesHeading(m, g);
      MoveStaysInCorridor(m, g.(direction := Heading(m, g), due := RandomDirection(Heading(m, g), coins[0])),
                          coins[1..]);
    } else {
      AdvanceStaysInCorridor(m, g, coins[0]);
    }
  }

  /** A blocked ghost is never stuck: one of the two outcomes of the next draw lets it move. */
  lemma SomeDrawMoves(m: Maze, g: Ghost) returns (coin: bool)
    requires IsEaten(m) && InCorridor(g)
    ensures forall coin2 :: Move(m, g, [coin, coin2]).Some?
  {
    coin := false;
    if Blocked(m, g) {
      coin := FreeSide(m, g);
    }
    forall coin2 ensures Move(m, g, [coin, coin2]).Some? {
      assert [coin, coin2][1..] == [coin2];
    }
  }

  /** A blocked ghost faces a wall; there are no dead ends, so a side is free. */
  lemma FreeSide(m: Maze, g: Ghost) returns (coin: bool)
    requires IsEaten(m) && InCorridor(g) && Blocked(m, g)
    ensures !Blocked(m, g.(direction := Heading(m, g), due := RandomDirection(Heading(m, g), coin)))
  {
    hide IsPath, IsEaten, WellPlaced, Rem10;
    var d := Heading(m, g);
    FacesHeading(m, g);
    FacesWall(m, g);
    var (r, c) := (g.y / 10, g.x / 10);
    NoDeadEnds(m, r, c);
    coin := if Horizontal(d) then IsFloorSpace(m, r - 1, c) else IsFloorSpace(m, r, c - 1);
    FreeTurn(m, g, d, coin);
  }

  /** Inside the maze the code looks at the neighbouring square, except leftwards at the edge. */
  lemma LooksAhead(g: Ghost, d: Direction)
    requires 0 <= g.x <= 190 && g.x % 10 == 0 && 0 <= g.y && g.y % 10 == 0 && d != NoDirection
    requires (d == Left ==> 10 <= g.x) && (d == Up ==> 10 <= g.y)
    ensures AheadRow(g, d) == g.y / 10 + DeltaY(d) && AheadColumn(g, d) == g.x / 10 + DeltaX(d)
  {
    AheadOnGrid(g.x, g.y, d, Speed(g));
  }

  lemma FacesWall(m: Maze, g: Ghost)
    requires IsEaten(m) && InCorridor(g) && Blocked(m, g)
    ensures 0 <= g.x <= 180 && g.x % 10 == 0 && g.y % 10 == 0 && 0 <= g.y
    ensures WithinBounds(g.y / 10, g.x / 10) && IsPath(g.y / 10, g.x / 10)
    ensures IsWallSpace(m, g.y / 10 + DeltaY(Heading(m, g)), g.x / 10 + DeltaX(Heading(m, g)))
  {
    hide IsEaten, IsWallSpace, IsFloorSpace, IsPath;
    var d := Heading(m, g);
    WholeSquares(g.x);
    WholeSquares(g.y);
    FacesHeading(m, g);
    EdgeSquares(g.y / 10, g.x / 10);
    if Horizontal(d) {
      TunnelIsOpen(m, g, d);
    }
    LooksAhead(g, d);
    PathWithinBounds(g.y / 10, g.x / 10);
  }

  /** At the ends of the tunnel and at its edge no wall is ahead. */
  lemma TunnelIsOpen(m: Maze, g: Ghost, d: Direction)
    requires IsEaten(m) && WellPlaced(g.x, g.y, d) && g.x % 10 == 0 && g.y % 10 == 0 && Horizontal(d)
    requires IsWallSpace(m, AheadRow(g, d), AheadColumn(g, d))
    ensures 0 <= g.x <= 180 && (d == Left ==> 10 <= g.x)
  {
    hide IsEaten, IsWallSpace, IsFloorSpace;
    AheadOnGrid(g.x, g.y, d, Speed(g));
    EdgeSquares(g.y / 10, g.x / 10);
    EatenMazeSpaces(m, AheadRow(g, d), AheadColumn(g, d));
  }

  lemma FreeTurn(m: Maze, g: Ghost, d: Direction, coin: bool)
    requires IsEaten(m) && d != NoDirection
    requires 0 <= g.x <= 180 && g.x % 10 == 0 && g.y % 10 == 0 && 0 <= g.y
    requires var side := RandomDirection(d, coin); IsFloorSpace(m, g.y / 10 + DeltaY(side), g.x / 10 + DeltaX(side))
    ensures !Blocked(m, g.(direction := d, due := RandomDirection(d, coin)))
  {
    hide IsEaten;
    var g' := g.(direction := d, due := RandomDirection(d, coin));
    WholeSquares(g.x);
    WholeSquares(g.y);
    LooksAhead(g', g'.due);
    assert Turns(m, g');
  }

  /**
   * What can happen to a ghost; the game chooses the moments, chance the coins, and the player the maze that is
   * left.
   */
  datatype GhostEvent =
    | PillEaten(tick: nat)
    | Caught(tick: nat)
    | EatableFades
    | EatenFades
    | Moves(maze: Maze, coins: seq<bool>)
    | Restarts(coin1: bool, coin2: bool)

  predicate Possible(e: GhostEvent) {
    e.Moves? ==> IsEaten(e.maze)
  }

  /** None is a move that is still drawing directions. */
  function React(g: Ghost, e: GhostEvent): Option<Ghost> {
    match e
    case PillEaten(tick) => Some(MakeEatable(g, tick))
    case Caught(tick) => Some(Eat(g, tick))
    case EatableFades => Some(g.(eatable := None))
    case EatenFades => Some(g.(eaten := None))
    case Moves(maze, coins) => Move(maze, g, coins)
    case Restarts(coin1, coin2) => Some(Reset(g, coin1, coin2))
  }

  lemma ReactStaysInCorridor(g: Ghost, e: GhostEvent)
    requires Possible(e) && React(g, e).Some? && (InCorridor(g) || e.Restarts?)
    ensures InCorridor(React(g, e).value)
  {
    hide IsEaten;
    if e.Moves? {
      MoveStaysInCorridor(e.maze, g, e.coins);
    } else if e.Restarts? {
      StartIsOnPath();
    }
  }

  lemma StartIsOnPath()
    ensures forall d :: WellPlaced(90, 80, d)
  {
  }

  function Life(g: Ghost, events: seq<GhostEvent>): Option<Ghost>
    decreases |events|
  {
    if events == [] then Some(g)
    else
      match React(g, events[0])
      case None => None
      case Some(g') => Life(g', events[1..])
  }

  /** Over every run, with any draws, reversals and speeds, a ghost stays in the corridors. */
  lemma {:induction false} LifeInCorridors(g: Ghost, events: seq<GhostEvent>)
    requires InCorridor(g) && forall i :: 0 <= i < |events| ==> Possible(events[i])
    ensures Life(g, events).Some? ==> InCorridor(Life(g, events).value)
    decreases |events|
  {
    if events != [] && React(g, events[0]).Some? {
      ReactStaysInCorridor(g, events[0]);
      LifeInCorridors(React(g, events[0]).value, events[1..]);
    }
  }

  /** One unit if it can be eaten, four if it was, two otherwise, but not beyond the next whole square. */
  function Pace(x: int, v: int, d: int): int {
    if d > 0 then if x + v < x / 10 * 10 + 10 then x + v else x / 10 * 10 + 10
    else if d < 0 then if x - v > (x + 9) / 10 * 10 - 10 then x - v else (x + 9) / 10 * 10 - 10
    else x
  }

  lemma BoundedIsPace(x: int, v: int, d: int)
    requires 10 <= x && 0 < v < 10 && -1 <= d <= 1
    ensures AddBounded(x, v * d) == Pace(x, v, d)
  {
    if d == 1 {
      assert v * d == v;
    } else if d == -1 {
      assert v * d == -v;
    }
  }

  /** A ghost that is not blocked keeps its pace in the direction that it then has. */
  lemma GhostKeepsPace(m: Maze, g: Ghost, coin: bool)
    requires 10 <= g.x < 180 && 10 <= g.y
    ensures var (r, v) := (Advance(m, g, coin), if g.eatable.Some? then 1 else if g.eaten.Some? then 4 else 2);
      r.x == Pace(g.x, v, DeltaX(r.direction)) && r.y == Pace(g.y, v, DeltaY(r.direction))
  {
    hide Turns, AddBounded;
    var d := Heading(m, g);
    BoundedIsPace(g.x, Speed(g), DeltaX(d));
    BoundedIsPace(g.y, Speed(g), DeltaY(d));
  }

  /** On a whole square it turns to where it wants to go if there is floor, and draws a new wish at right angles. */
  lemma GhostTurns(m: Maze, g: Ghost, coin: bool)
    requires 10 <= g.x <= 180 && 10 <= g.y && g.x % 10 == 0 && g.y % 10 == 0 && g.due != NoDirection
    requires g.due != g.direction && g.direction != NoDirection
    ensures var r := Advance(m, g, coin);
      && r.direction == (if IsFloorSpace(m, g.y / 10 + DeltaY(g.due), g.x / 10 + DeltaX(g.due)) then g.due
                         else g.direction)
      && (Horizontal(r.due) <==> Vertical(r.direction))
  {
    hide IsFloorSpace, AheadRow, AheadColumn, NewX, NewY;
    LooksAhead(g, g.due);
    assert OnGrid(g.x, g.y);
  }

  /** A hidden ghost that is in the tunnel on its way to the right, whatever it waits to do. */
  predicate HiddenInTunnel(g: Ghost, x: int) {
    g.x == x && g.y == 100 && g.direction == Right && Vertical(g.due) && g.eatable.None? && g.eaten.Some?
  }

  /** Nothing turns or stops it there. */
  lemma TunnelStep(m: Maze, g: Ghost, x: int, coin: bool)
    requires IsEaten(m) && HiddenInTunnel(g, x) && (x == 188 || x == -10 || x == -6 || x == -2)
    ensures Move(m, g, [coin]).Some?
    ensures HiddenInTunnel(Move(m, g, [coin]).value, if x == 188 then -10 else x + 4)
  {
    hide IsEaten, Tile;
    TunnelEnds();
    EatenMazeSpaces(m, 10, 1);
    EdgeSquares(10, 1);
    if x == -10 {
      TunnelTurns(m, g);
    }
  }

  /**
   The unwanted skip happens: a hidden ghost that leaves the maze on the right comes back at -10, -6 and -2, and
   jumps over 0 to 2.
   */
  lemma HiddenGhostSkips(m: Maze, g: Ghost, coins: seq<bool>)
    requires IsEaten(m) && HiddenInTunnel(g, 188) && |coins| == 4
    ensures InCorridor(g)
    ensures var events := seq(4, i requires 0 <= i < 4 => Moves(m, [coins[i]]));
      && Life(g, events[..3]).Some? && HiddenInTunnel(Life(g, events[..3]).value, -2)
      && Life(g, events).Some? && HiddenInTunnel(Life(g, events).value, 2)
    ensures Skips(-2, 4)
  {
    hide IsEaten, Move, HiddenInTunnel;
    AddBoundedSkipsIff(-2, 4);
    HiddenIsInCorridor(g);
    TunnelStep(m, g, 188, coins[0]);
    var g1 := Move(m, g, [coins[0]]).value;
    TunnelStep(m, g1, -10, coins[1]);
    var g2 := Move(m, g1, [coins[1]]).value;
    TunnelStep(m, g2, -6, coins[2]);
    var g3 := Move(m, g2, [coins[2]]).value;
    TunnelStep(m, g3, -2, coins[3]);
    var events := seq(4, i requires 0 <= i < 4 => Moves(m, [coins[i]]));
    assert events[..3] == [events[0]] + ([events[1]] + [events[2]]);
    assert events == [events[0]] + ([events[1]] + ([events[2]] + [events[3]]));
    OneMove(g, events[0], [events[1]] + [events[2]]);
    OneMove(g1, events[1], [events[2]]);
    OneMove(g2, events[2], []);
    OneMove(g, events[0], [events[1]] + ([events[2]] + [events[3]]));
    OneMove(g1, events[1], [events[2]] + [events[3]]);
    OneMove(g2, events[2], [events[3]]);
    OneMove(g3, events[3], []);
    assert [events[2]] + [] == [events[2]] && [events[3]] + [] == [events[3]];
  }

  lemma HiddenIsInCorridor(g: Ghost)
    requires HiddenInTunnel(g, 188)
    ensures InCorridor(g)
  {
    hide Tile;
    TunnelEnds();
    EdgeSquares(10, 18);
    EdgeSquares(10, 19);
  }

  lemma OneMove(g: Ghost, e: GhostEvent, more: seq<GhostEvent>)
    requires React(g, e).Some?
    ensures Life(g, [e] + more) == Life(React(g, e).value, more)
  {
    hide React;
    assert ([e] + more)[1..] == more;
  }

  /** The object behind each ghost of the game. */
  class GhostActor {
    var x: int
    var y: int
    var direction: Direction
    var due: Direction
    var eatable: Option<nat>
    var eaten: Option<nat>

    function State(): Ghost
      reads this
    {
      Ghost(x, y, direction, due, eatable, eaten)
    }

    constructor (coin1: bool, coin2: bool)
      ensures State() == Reset(Ghost(0, 0, NoDirection, NoDirection, None, None), coin1, coin2)
      ensures InCorridor(State())
    {
      x, y, direction := 90, 80, RandomDirection(NoDirection, coin1);
      due := RandomDirection(RandomDirection(NoDirection, coin1), coin2);
      eatable, eaten := None, None;
      StartIsOnPath();
    }

    method ResetGhost(coin1: bool, coin2: bool)
      modifies this
      ensures State() == Reset(old(State()), coin1, coin2) && InCorridor(State())
    {
      eaten := None;
      eatable := None;
      x, y := 90, 80;
      direction := RandomDirection(direction, coin1);
      due := RandomDirection(direction, coin2);
      StartIsOnPath();
    }

    method BecomeEatable(tick: nat)
      modifies this
      ensures State() == MakeEatable(old(State()), tick)
      ensures old(InCorridor(State())) ==> InCorridor(State())
    {
      direction := Opposite(direction);
      eatable := Some(tick);
    }

    method BeEaten(tick: nat)
      modifies this
      ensures State() == Eat(old(State()), tick)
      ensures old(InCorridor(State())) ==> InCorridor(State())
    {
      eatable := None;
      eaten := Some(tick);
    }

    /** One frame; `moved` is false while the ghost would still be drawing directions. */
    method MoveGhost(m: Maze, coins: seq<bool>) returns (moved: bool)
      modifies this
      ensures moved <==> Move(m, old(State()), coins).Some?
      ensures moved ==> State() == Move(m, old(State()), coins).value
      ensures moved && IsEaten(m) && old(InCorridor(State())) ==> InCorridor(State())
      decreases |coins|
    {
      hide IsEaten, WellPlaced, IsPath;
      if coins == [] {
        return false;
      }
      ghost var before := State();
      var (nx, ny) := (NewX(State(), direction), NewY(State(), direction));
      var heading := direction;
      var onGrid := OnGrid(x, y);
      if due != direction {
        if onGrid && IsFloorSpace(m, AheadRow(State(), due), AheadColumn(State(), due)) {
          nx, ny := NewX(State(), due), NewY(State(), due);
          heading := due;
        }
      }
      assert heading == Heading(m, before);
      if onGrid && IsWallSpace(m, AheadRow(State(), heading), AheadColumn(State(), heading)) {
        direction := heading;
        due := RandomDirection(direction, coins[0]);
        moved := MoveGhost(m, coins[1..]);
      } else {
        direction := heading;
        x, y := PanedX(nx, ny, direction), ny;
        due := RandomDirection(direction, coins[0]);
        moved := true;
      }
      if moved && IsEaten(m) && InCorridor(before) {
        MoveStaysInCorridor(m, before, coins);
      }
    }
  }

  /** A pill turns a ghost round where it is; being eaten hides it where it is. */
  lemma FrightTurnsRound(g: Ghost, tick: nat)
    requires g.direction != NoDirection
    ensures var (r, e) := (MakeEatable(g, tick), Eat(g, tick));
      && (r.x, r.y, r.due) == (e.x, e.y, e.due) == (g.x, g.y, g.due) && e.direction == g.direction
      && DeltaX(r.direction) == -DeltaX(g.direction) && DeltaY(r.direction) == -DeltaY(g.direction)
      && r.eatable == Some(tick) && r.eaten == g.eaten && e.eatable == None && e.eaten == Some(tick)
  {
  }

  /** A ghost starts above the pen, itself again, and waits to turn to a side. */
  lemma ResetStarts(g: Ghost, coin1: bool, coin2: bool)
    ensures var r := Reset(g, coin1, coin2);
      && r.x == 90 && r.y == 80 && r.eatable == None && r.eaten == None && InCorridor(r)
      && (Horizontal(r.direction) <==> !Horizontal(g.direction)) && (Horizontal(r.due) <==> !Horizontal(r.direction))
  {
    StartIsOnPath();
  }
}
