/** Accounts over whole runs of the game: lives, score, waiting times, and what keys, moves and speeds amount to. */
module PacmanLaws {
  import opened Wrappers
  import opened PacmanMap
  import opened PacmanMotion
  import opened PacmanPlayer
  import opened PacmanGame

  // ---- lives ---------------------------------------------------------------------------------

  /** A frame that ends the two seconds of dying. */
  predicate EndsDying(g: Game, e: Event) {
    e.Tick? && g.state == Dying && g.tick + 1 - g.timerStart > 60
  }

  function Deaths(g: Game, events: seq<Event>): nat
    decreases |events|
  {
    if events == [] then 0
    else (if EndsDying(g, events[0]) then 1 else 0) + Deaths(React(g, events[0]), events[1..])
  }

  predicate NoNewGame(events: seq<Event>) {
    forall i :: 0 <= i < |events| ==> events[i] != Press(KeyN)
  }

  /** The score passes ten thousand from a to b. */
  function Bonus(a: int, b: int): int {
    if a < 10000 <= b then 1 else 0
  }

  /** Lives change by the bonus alone. */
  predicate Gains(p: Player, q: Player) {
    p.score <= q.score && q.lives == p.lives + Bonus(p.score, q.score)
  }

  lemma GainsTwice(p: Player, q: Player, r: Player)
    requires Gains(p, q) && Gains(q, r)
    ensures Gains(p, r)
  {
  }

  lemma PlayerMovedGains(g: Game)
    requires g.eatenCount >= 0
    ensures Gains(g.player, PlayerMoved(g).player) && PlayerMoved(g).eatenCount >= 0
  {
    hide Facing;
  }

  lemma {:induction false} TouchesGain(g: Game, ghosts: seq<Touch>)
    requires g.eatenCount >= 0
    ensures Gains(g.player, AllTouched(g, ghosts).player) && AllTouched(g, ghosts).eatenCount >= 0
    decreases |ghosts|
  {
    if ghosts != [] {
      var g' := Touched(g, ghosts[0]);
      TouchesGain(g', ghosts[1..]);
      GainsTwice(g.player, g'.player, AllTouched(g', ghosts[1..]).player);
    }
  }

  /** One event: the bonus, and a life less exactly at the end of dying. */
  lemma EventLives(g: Game, e: Event)
    requires g.eatenCount >= 0 && e != Press(KeyN)
    ensures var r := React(g, e);
      && r.eatenCount >= 0 && g.player.score <= r.player.score
      && r.player.lives
           == g.player.lives + Bonus(g.player.score, r.player.score) - (if EndsDying(g, e) then 1 else 0)
  {
    hide PlayerMoved, AllTouched;
    if e.Tick? && g.state == Playing {
      var g' := g.(tick := g.tick + 1);
      PlayerMovedGains(g');
      TouchesGain(PlayerMoved(g'), e.ghosts);
      GainsTwice(g'.player, PlayerMoved(g').player, React(g, e).player);
    }
  }

  /** Between two new games lives are what they were, plus one if the score passes ten thousand, minus the deaths. */
  lemma {:induction false} LivesAreAccounted(g: Game, events: seq<Event>)
    requires g.eatenCount >= 0 && NoNewGame(events)
    ensures var r := Play(g, events);
      && r.eatenCount >= 0 && g.player.score <= r.player.score
      && r.player.lives == g.player.lives + Bonus(g.player.score, r.player.score) - Deaths(g, events)
    decreases |events|
  {
    hide React;
    if events != [] {
      EventLives(g, events[0]);
      assert forall i :: 0 <= i < |events| - 1 ==> events[1..][i] == events[i + 1];
      LivesAreAccounted(React(g, events[0]), events[1..]);
    }
  }

  /** From a new game on: three lives, one more from ten thousand points, one less for every death. */
  lemma NewGameLives(g: Game, events: seq<Event>)
    requires g.eatenCount >= 0 && NoNewGame(events)
    ensures var r := Play(KeyDown(g, KeyN), events);
      r.player.lives == 3 + (if r.player.score >= 10000 then 1 else 0) - Deaths(KeyDown(g, KeyN), events)
  {
    LivesAreAccounted(KeyDown(g, KeyN), events);
  }

  /** The last life ends the game; another one starts the level again with the same maze. */
  lemma DyingEnds(g: Game, ghosts: seq<Touch>)
    requires EndsDying(g, Tick(ghosts))
    ensures var r := React(g, Tick(ghosts));
      && r.player.lives == g.player.lives - 1 && r.maze == g.maze && r.level == g.level
      && r.player.score == g.player.score && r.player.eaten == g.player.eaten
      && (g.player.lives <= 1 ==> r.state == Waiting)
      && (g.player.lives > 1 ==> r.state == Countdown && r.timerStart == g.tick + 1
                                 && r.player.x == 90 && r.player.y == 120 && r.player.direction == Left)
  {
  }

  // ---- waiting -------------------------------------------------------------------------------

  /** How many frames a state lasts that ends by itself: four seconds, a third of a second, two seconds. */
  function Duration(s: State): nat {
    match s case Countdown => 121 case EatenPause => 11 case Dying => 61 case _ => 0
  }

  function Ticks(touches: seq<seq<Touch>>): (r: seq<Event>)
    ensures |r| == |touches| && forall i :: 0 <= i < |r| ==> r[i] == Tick(touches[i])
  {
    seq(|touches|, i requires 0 <= i < |touches| => Tick(touches[i]))
  }

  /** Until then only the clock runs, whatever the ghosts do; then the game goes on, or a life is lost. */
  lemma {:induction false} StateLasts(g: Game, since: nat, touches: seq<seq<Touch>>)
    requires g.tick == g.timerStart + since && Duration(g.state) > 0 && since + |touches| <= Duration(g.state)
    requires since < Duration(g.state)
    ensures var (r, n) := (Play(g, Ticks(touches)), |touches|);
      if since + n < Duration(g.state) then r == g.(tick := g.tick + n)
      else if g.state == Dying then r == LifeLost(g.(tick := g.tick + n))
      else r == g.(tick := g.tick + n, state := Playing)
    decreases |touches|
  {
    if touches != [] {
      var events := Ticks(touches);
      assert events[1..] == Ticks(touches[1..]);
      OneFrame(g, since, touches[0]);
      if since + 1 < Duration(g.state) {
        StateLasts(g.(tick := g.tick + 1), since + 1, touches[1..]);
      } else {
        assert touches[1..] == [];
      }
    }
  }

  lemma OneFrame(g: Game, since: nat, ghosts: seq<Touch>)
    requires g.tick == g.timerStart + since && since < Duration(g.state)
    ensures var (r, g') := (Frame(g, ghosts), g.(tick := g.tick + 1));
      if since + 1 < Duration(g.state) then r == g'
      else if g.state == Dying then r == LifeLost(g')
      else r == g'.(state := Playing)
  {
  }

  // ---- keys ----------------------------------------------------------------------------------

  predicate NeitherPauseNorNew(events: seq<Event>) {
    forall i :: 0 <= i < |events| ==> events[i] != Press(KeyP) && events[i] != Press(KeyN)
  }

  lemma {:induction false} PausedStays(g: Game, events: seq<Event>)
    requires g.state == Paused && NeitherPauseNorNew(events)
    ensures Play(g, events) == g
    decreases |events|
  {
    if events != [] {
      assert events[0] != Press(KeyP) && events[0] != Press(KeyN);
      assert forall i :: 0 <= i < |events| - 1 ==> events[1..][i] == events[i + 1];
      PausedStays(g, events[1..]);
    }
  }

  /** A paused game stands still, whatever else happens, and goes on as it was. */
  lemma PauseResumes(g: Game, events: seq<Event>)
    requires g.state != Paused && NeitherPauseNorNew(events)
    ensures KeyDown(Play(KeyDown(g, KeyP), events), KeyP) == g.(stored := g.state)
  {
    PausedStays(KeyDown(g, KeyP), events);
  }

  /** On a whole square, an arrow towards floor takes the player there: two units in the next frame. */
  lemma ArrowTurns(g: Game, d: Direction)
    requires Sound(g) && g.state != Paused && d != NoDirection
    requires var p := g.player;
      && p.x % 10 == 0 && p.y % 10 == 0 && 0 <= p.x && (d == Left ==> 10 <= p.x) && p.x <= 180
      && IsFloorSpace(g.maze, p.y / 10 + DeltaY(d), p.x / 10 + DeltaX(d))
    ensures var (p, r) := (g.player, Move(g.maze, KeyDown(g, Arrow(d)).player).player);
      r.direction == d && r.x == p.x + 2 * DeltaX(d) && r.y == p.y + 2 * DeltaY(d)
  {
    hide Pellets, Tile, Step, IsEaten, WellPlaced, Pellets, IsFloorSpace, OnPath;
    var p := g.player;
    PlacedOnPath(p);
    RowIsInside(p.x, p.y);
    StepTurns(g.maze, p.(due := d), d);
    MoveOnlySteps(g.maze, p.(due := d));
  }

  lemma PlacedOnPath(p: Player)
    requires InCorridor(p)
    ensures OnPath(p.x, p.y)
  {
  }

  lemma StepTurns(m: Maze, p: Player, d: Direction)
    requires p.due == d != NoDirection && p.x % 10 == 0 && p.y % 10 == 0 && 10 <= p.y
    requires 0 <= p.x <= 180 && (d == Left ==> 10 <= p.x)
    requires IsFloorSpace(m, p.y / 10 + DeltaY(d), p.x / 10 + DeltaX(d))
    ensures Step(m, p) == p.(direction := d, x := p.x + 2 * DeltaX(d), y := p.y + 2 * DeltaY(d))
  {
    hide LooksAtRow, LooksAtColumn;
    LooksAhead(p, d);
    assert OnGrid(p.x, p.y);
    assert Facing(m, p) == d;
  }

  lemma MoveOnlySteps(m: Maze, p: Player)
    ensures var (q, r) := (Step(m, p), Move(m, p).player); r.x == q.x && r.y == q.y && r.direction == q.direction
  {
    hide Step, IsPellet, SetBlock;
  }

  // ---- score ---------------------------------------------------------------------------------

  function Vulnerables(ghosts: seq<Touch>): nat {
    if ghosts == [] then 0 else (if ghosts[0] == Vulnerable then 1 else 0) + Vulnerables(ghosts[1..])
  }

  /** The last ghost that matters decides how the frame ends. */
  function Ending(ghosts: seq<Touch>, s: State): State {
    if ghosts == [] then s
    else Ending(ghosts[1..], match ghosts[0] case Vulnerable => EatenPause case Dangerous => Dying case _ => s)
  }

  /** The k-th ghost that is eaten after a pill is worth fifty times k. */
  lemma {:induction false} TouchesScore(g: Game, ghosts: seq<Touch>)
    ensures var (r, n, c) := (AllTouched(g, ghosts), Vulnerables(ghosts), g.eatenCount);
      && r.eatenCount == c + n && r.player.score == g.player.score + 25 * (n * (2 * c + n + 1))
      && r.state == Ending(ghosts, g.state)
      && r.maze == g.maze && r.level == g.level && r.player.eaten == g.player.eaten
    decreases |ghosts|
  {
    if ghosts != [] {
      TouchesScore(Touched(g, ghosts[0]), ghosts[1..]);
      if ghosts[0] == Vulnerable {
        OneMore(Vulnerables(ghosts[1..]), g.eatenCount);
      }
    }
  }

  lemma OneMore(n: nat, c: int)
    ensures 2 * (c + 1) + n * (2 * (c + 1) + n + 1) == (n + 1) * (2 * c + (n + 1) + 1)
  {
    assert (n + 1) * (2 * c + (n + 1) + 1) == n * (2 * c + n + 2) + (2 * c + n + 2);
    assert n * (2 * (c + 1) + n + 1) == n * (2 * c + n + 2) + n * 1;
  }

  /** The square (r, c) held the tile and touches the player. */
  predicate Took(m: Maze, p: Player, r: int, c: int, tile: int) {
    WithinBounds(r, c) && m[r][c] == tile && p.y - 10 < 10 * r < p.y + 10 && p.x - 10 < 10 * c < p.x + 10
  }

  /** Ten points for a biscuit, fifty for a pill, and nothing else: one square that touches the player is emptied. */
  lemma MoveScores(m: Maze, p: Player)
    requires IsEaten(m) && InCorridor(p)
    ensures var r := Move(m, p);
      || (r.ate == None && r.maze == m && r.player.score == p.score && r.player.eaten == p.eaten)
      || exists row, col, tile :: Took(m, r.player, row, col, tile) && r.ate == Some(tile)
           && r.maze == SetBlock(m, row, col, EMPTY) && r.player.eaten == p.eaten + 1
           && ((tile == BISCUIT && r.player.score == p.score + 10) || (tile == PILL && r.player.score == p.score + 50))
  {
    hide Facing, IsEaten, Tile, IsPath, InCorridor;
    StepStaysInCorridor(m, p);
    MoveOnlySteps(m, p);
    var q := Step(m, p);
    var (row, col) := (NextCoord(q.y, q.direction), NextCoord(q.x, q.direction));
    if Move(m, p).ate.Some? {
      Nearby(m, q);
      assert Took(m, Move(m, p).player, row, col, m[row][col]);
    }
  }

  /** What the player looks up touches it, except at the left end of the tunnel, where there is no pellet. */
  lemma Nearby(m: Maze, p: Player)
    requires IsEaten(m) && InCorridor(p) && p.direction != NoDirection
    requires WithinBounds(NextCoord(p.y, p.direction), NextCoord(p.x, p.direction))
    ensures var (r, c) := (NextCoord(p.y, p.direction), NextCoord(p.x, p.direction));
      IsPellet(m[r][c]) ==> p.y - 10 < 10 * r < p.y + 10 && p.x - 10 < 10 * c < p.x + 10
  {
    hide Tile, IsPath, IsEaten;
    RowIsInside(p.x, p.y);
    NextIsNear(p.y, p.direction);
    if p.x >= 0 {
      NextIsNear(p.x, p.direction);
    } else {
      LeftOfMaze(p);
      NoPelletInTunnel(m);
    }
  }

  lemma NextIsNear(x: int, d: Direction)
    requires x >= 0 && d != NoDirection
    ensures x - 10 < 10 * NextCoord(x, d) < x + 10
  {
  }

  lemma LeftOfMaze(p: Player)
    requires InCorridor(p) && p.x < 0 && WithinBounds(NextCoord(p.y, p.direction), NextCoord(p.x, p.direction))
    ensures NextCoord(p.y, p.direction) == 10 && 0 <= NextCoord(p.x, p.direction) <= 1
  {
    hide Tile;
    OverlapsNoWall(p.x, p.y, p.direction);
  }

  lemma NoPelletInTunnel(m: Maze)
    requires IsEaten(m)
    ensures !IsPellet(m[10][0]) && !IsPellet(m[10][1])
  {
    assert !IsPellet(Tile(10, 0)) && !IsPellet(Tile(10, 1));
  }

  /** Where a moving player is on a whole square, that square holds no pellet. */
  lemma NothingUnderPlayer(m: Maze, p: Player)
    requires IsEaten(m) && InCorridor(p)
    ensures var r := Move(m, p);
      var (x, y) := (r.player.x, r.player.y);
      r.player.direction != NoDirection && x % 10 == 0 && y % 10 == 0 && WithinBounds(y / 10, x / 10) ==>
        !IsPellet(r.maze[y / 10][x / 10])
  {
    hide Facing, IsEaten, Tile, IsPath, InCorridor, Step;
    MoveOnlySteps(m, p);
  }

  // ---- levels --------------------------------------------------------------------------------

  predicate AtStart(p: Player) {
    p.x == 90 && p.y == 120 && p.direction == Left && p.due == Left
  }

  /** A new game: the full maze, three lives, no points, the first level, and the countdown. */
  lemma NewGameBegins(g: Game)
    ensures var r := KeyDown(g, KeyN);
      && r.state == Countdown && r.timerStart == r.tick == g.tick && r.level == 1 && Pellets(r.maze) == 182
      && r.player.lives == 3 && r.player.score == 0 && r.player.eaten == 0 && AtStart(r.player)
  {
    hide Pellets, FullMaze;
    FullMazePellets();
  }

  /** The last pellet: the next level with the full maze, what was earned being kept; a pill restarts the clock. */
  lemma LevelEnds(g: Game)
    requires Sound(g) && g.player.lives > 0
    ensures var (r, moved) := (PlayerMoved(g), Move(g.maze, g.player));
      && (Pellets(moved.maze) == 0 ==>
            && r.state == Countdown && r.level == g.level + 1 && Pellets(r.maze) == 182 && r.player.eaten == 0
            && r.player.score == moved.player.score && r.player.lives == moved.player.lives && AtStart(r.player))
      && (Pellets(moved.maze) > 0 ==>
            && r.state == g.state && r.level == g.level && r.maze == moved.maze && r.player == moved.player)
      && (moved.ate == Some(PILL) ==> r.eatenCount == 0 && r.timerStart == g.tick)
      && (moved.ate != Some(PILL) ==> r.eatenCount == g.eatenCount)
  {
    hide Pellets, FullMaze, Move, InCorridor, IsEaten;
    FullMazePellets();
    PlayerMovedKeepsSound(g);
  }

  // ---- the tunnel ----------------------------------------------------------------------------

  /** Who leaves the maze at one end of the tunnel comes back at the other. */
  lemma TunnelWraps(m: Maze, p: Player)
    requires IsEaten(m) && InCorridor(p) && p.y == 100 && p.direction == p.due
    ensures p.x == 188 && p.direction == Right ==> Step(m, p) == p.(x := -10)
    ensures p.x == -10 && p.direction == Left ==> Step(m, p) == p.(x := 190)
  {
    hide Tile, IsEaten;
    if p.x == -10 {
      LooksAhead(p, p.direction);
    }
  }
}
