/**
 The game loop and the keys of pacman.js. Which ghosts touch the player in a frame, and what state those
 ghosts are in, is left open: the results hold for every possibility.
 */
module PacmanGame {
  import opened Wrappers
  import opened PacmanMap
  import opened PacmanMotion
  import opened PacmanPlayer

  const FPS := 30

  datatype State = Waiting | Paused | Playing | Countdown | EatenPause | Dying

  /** A ghost in one frame: whether it touches the player and what it is then. */
  datatype Touch = Apart | Vulnerable | Dangerous | Harmless

  datatype Key = KeyN | KeyS | KeyP | Arrow(d: Direction) | OtherKey

  datatype Game = Game(state: State, stored: State, level: int, tick: int, timerStart: int, eatenCount: int,
                       maze: Maze, player: Player)

  const NEW_PLAYER := NewPlayer(Player(0, 0, NoDirection, NoDirection, 0, 0, 5))

  function Initial(): Game {
    Game(Waiting, Waiting, 0, 0, 0, 0, FullMaze(), NEW_PLAYER)
  }

  /** startLevel */
  function LevelStarted(g: Game): Game {
    g.(player := ResetPosition(g.player), timerStart := g.tick, state := Countdown)
  }

  /** startNewGame */
  function NewGame(g: Game): Game {
    LevelStarted(g.(state := Waiting, level := 1, player := NewPlayer(g.player), maze := FullMaze()))
  }

  /** completedLevel */
  function LevelCompleted(g: Game): Game {
    LevelStarted(g.(state := Waiting, level := g.level + 1, maze := FullMaze(), player := NewLevel(g.player)))
  }

  /** loseLife */
  function LifeLost(g: Game): Game {
    var g' := g.(state := Waiting, player := g.player.(lives := g.player.lives - 1));
    if g'.player.lives > 0 then LevelStarted(g') else g'
  }

  function KeyDown(g: Game, key: Key): Game {
    match key
    case KeyN => NewGame(g)
    case KeyS => g
    case KeyP => if g.state == Paused then g.(state := g.stored) else g.(stored := g.state, state := Paused)
    case Arrow(d) => if g.state != Paused && d != NoDirection then g.(player := g.player.(due := d)) else g
    case OtherKey => g
  }

  /** The player's part of a frame, with what eating the last pellet or a pill sets off. */
  function PlayerMoved(g: Game): Game {
    var r := Move(g.maze, g.player);
    var g1 := g.(player := r.player, maze := r.maze);
    var g2 := if r.ate.Some? && r.player.eaten == ALL_PELLETS then LevelCompleted(g1) else g1;
    if r.ate == Some(PILL) then g2.(timerStart := g2.tick, eatenCount := 0) else g2
  }

  function Touched(g: Game, t: Touch): Game {
    match t
    case Vulnerable =>
      var count := g.eatenCount + 1;
      g.(eatenCount := count, player := AddScore(g.player, count * 50), state := EatenPause, timerStart := g.tick)
    case Dangerous => g.(state := Dying, timerStart := g.tick)
    case _ => g
  }

  function AllTouched(g: Game, ghosts: seq<Touch>): Game
    decreases |ghosts|
  {
    if ghosts == [] then g else AllTouched(Touched(g, ghosts[0]), ghosts[1..])
  }

  /** mainLoop */
  function Frame(g0: Game, ghosts: seq<Touch>): Game {
    var g := if g0.state != Paused then g0.(tick := g0.tick + 1) else g0;
    match g.state
    case Playing => AllTouched(PlayerMoved(g), ghosts)
    case EatenPause => if g.tick - g.timerStart > FPS / 3 then g.(state := Playing) else g
    case Dying => if g.tick - g.timerStart > FPS * 2 then LifeLost(g) else g
    case Countdown => if 5 + (g.timerStart - g.tick) / FPS == 0 then g.(state := Playing) else g
    case _ => g
  }

  datatype Event = Press(key: Key) | Tick(ghosts: seq<Touch>)

  function React(g: Game, e: Event): Game {
    match e
    case Press(key) => KeyDown(g, key)
    case Tick(ghosts) => Frame(g, ghosts)
  }

  function Play(g: Game, events: seq<Event>): Game
    decreases |events|
  {
    if events == [] then g else Play(React(g, events[0]), events[1..])
  }

  predicate Active(s: State) {
    s == Playing || s == Countdown || s == EatenPause || s == Dying
  }

  /** What holds in every reachable state. */
  predicate Sound(g: Game) {
    && IsEaten(g.maze) && InCorridor(g.player)
    && g.player.eaten + Pellets(g.maze) == ALL_PELLETS && 0 <= g.player.eaten < ALL_PELLETS
    && g.player.lives >= 0
    && (Active(g.state) ==> g.player.lives > 0)
    && (g.state == Paused ==> g.stored != Paused && (Active(g.stored) ==> g.player.lives > 0))
  }

  lemma StartInCorridor(p: Player)
    ensures InCorridor(ResetPosition(p))
  {
  }

  lemma LevelStartedIsSound(g: Game)
    requires IsEaten(g.maze) && g.player.eaten + Pellets(g.maze) == ALL_PELLETS && 0 <= g.player.eaten < ALL_PELLETS
    requires g.player.lives > 0
    ensures Sound(LevelStarted(g))
  {
    hide IsEaten, Pellets, InCorridor;
    StartInCorridor(g.player);
  }

  lemma InitialIsSound()
    ensures Sound(Initial())
  {
    hide IsEaten, Pellets, FullMaze, InCorridor;
    FullMazePellets();
    FullMazeIsEaten();
    StartInCorridor(Player(0, 0, NoDirection, NoDirection, 0, 3, 0));
  }

  lemma KeyDownKeepsSound(g: Game, key: Key)
    requires Sound(g)
    ensures Sound(KeyDown(g, key))
  {
    hide IsEaten, Pellets, FullMaze, WellPlaced;
    if key == KeyN {
      FullMazePellets();
      FullMazeIsEaten();
      LevelStartedIsSound(g.(state := Waiting, level := 1, player := NewPlayer(g.player), maze := FullMaze()));
    }
  }

  /**
   The level is completed exactly when the maze has become empty; until then the two counts go on adding
   up, and afterwards they do again.
   */
  lemma PlayerMovedKeepsSound(g: Game)
    requires Sound(g) && g.player.lives > 0
    ensures Sound(PlayerMoved(g)) && PlayerMoved(g).player.lives > 0
    ensures var r := Move(g.maze, g.player);
            (r.ate.Some? && r.player.eaten == ALL_PELLETS <==> Pellets(r.maze) == 0)
    ensures PlayerMoved(g).level == g.level + (if Pellets(Move(g.maze, g.player).maze) == 0 then 1 else 0)
  {
    hide IsEaten, Pellets, FullMaze, InCorridor, Move;
    MoveConservesPellets(g.maze, g.player);
    var r := Move(g.maze, g.player);
    if r.ate.Some? && r.player.eaten == ALL_PELLETS {
      FullMazePellets();
      FullMazeIsEaten();
      LevelStartedIsSound(g.(level := g.level + 1, maze := FullMaze(), player := NewLevel(r.player)));
    }
  }

  lemma {:induction false} TouchesKeepSound(g: Game, ghosts: seq<Touch>)
    requires Sound(g) && g.player.lives > 0
    ensures Sound(AllTouched(g, ghosts)) && AllTouched(g, ghosts).player.lives > 0
    decreases |ghosts|
  {
    hide IsEaten, Pellets, WellPlaced;
    if ghosts != [] {
      TouchesKeepSound(Touched(g, ghosts[0]), ghosts[1..]);
    }
  }

  lemma FrameKeepsSound(g: Game, ghosts: seq<Touch>)
    requires Sound(g)
    ensures Sound(Frame(g, ghosts))
  {
    hide IsEaten, Pellets, WellPlaced, PlayerMoved, AllTouched;
    var g' := g.(tick := g.tick + 1);
    if g.state == Playing {
      PlayerMovedKeepsSound(g');
      TouchesKeepSound(PlayerMoved(g'), ghosts);
    } else if g.state == Dying && g.player.lives > 1 {
      LevelStartedIsSound(g'.(state := Waiting, player := g.player.(lives := g.player.lives - 1)));
    }
  }

  /** From the start, whatever keys are pressed and whatever the ghosts do, the accounts add up. */
  lemma {:induction false} PlayKeepsSound(g: Game, events: seq<Event>)
    requires Sound(g)
    ensures Sound(Play(g, events))
    decreases |events|
  {
    hide Sound;
    if events != [] {
      match events[0] {
        case Press(key) => KeyDownKeepsSound(g, key);
        case Tick(ghosts) => FrameKeepsSound(g, ghosts);
      }
      PlayKeepsSound(React(g, events[0]), events[1..]);
    }
  }

  lemma EveryGameIsSound(events: seq<Event>)
    ensures Sound(Play(Initial(), events))
  {
    InitialIsSound();
    PlayKeepsSound(Initial(), events);
  }

  /** The closure PACMAN, with the player it owns. */
  class Pacman {
    const user: User
    var state: State
    var stored: State
    var level: int
    var tick: int
    var timerStart: int
    var eatenCount: int
    var maze: Maze

    function Value(): Game
      reads this, user
    {
      Game(state, stored, level, tick, timerStart, eatenCount, maze, user.State())
    }

    constructor ()
      ensures Value() == Initial() && fresh(user)
    {
      user := new User();
      state, stored, level, tick, timerStart, eatenCount := Waiting, Waiting, 0, 0, 0, 0;
      maze := FullMaze();
    }

    method StartLevel()
      modifies this, user
      ensures Value() == LevelStarted(old(Value()))
    {
      user.PutAtStart();
      timerStart := tick;
      state := Countdown;
    }

    method StartNewGame()
      modifies this, user
      ensures Value() == NewGame(old(Value()))
    {
      state := Waiting;
      level := 1;
      user.StartGame();
      maze := FullMaze();
      StartLevel();
    }

    method CompletedLevel()
      modifies this, user
      ensures Value() == LevelCompleted(old(Value()))
    {
      state := Waiting;
      level := level + 1;
      maze := FullMaze();
      user.StartLevel();
      StartLevel();
    }

    method LoseLife()
      modifies this, user
      ensures Value() == LifeLost(old(Value()))
    {
      state := Waiting;
      user.lives := user.lives - 1;
      if user.lives > 0 {
        StartLevel();
      }
    }

    method OnKey(key: Key)
      requires Sound(Value())
      modifies this, user
      ensures Value() == KeyDown(old(Value()), key) && Sound(Value())
    {
      hide Sound;
      ghost var before := Value();
      match key {
        case KeyN => StartNewGame();
        case KeyP =>
          if state == Paused {
            state := stored;
          } else {
            stored := state;
            state := Paused;
          }
        case Arrow(d) =>
          if state != Paused && d != NoDirection {
            user.due := d;
          }
        case _ =>
      }
      KeyDownKeepsSound(before, key);
    }

    method MoveUser()
      requires InCorridor(user.State())
      modifies this, user
      ensures Value() == PlayerMoved(old(Value()))
    {
      hide InCorridor;
      var maze', ate := user.MoveUser(maze);
      maze := maze';
      if ate.Some? {
        if user.eaten == ALL_PELLETS {
          CompletedLevel();
        }
        if ate.value == PILL {
          timerStart := tick;
          eatenCount := 0;
        }
      }
    }

    method MainDraw(ghosts: seq<Touch>)
      requires InCorridor(user.State())
      modifies this, user
      ensures Value() == AllTouched(PlayerMoved(old(Value())), ghosts)
    {
      hide InCorridor, PlayerMoved;
      MoveUser();
      ghost var moved := Value();
      var i := 0;
      while i < |ghosts|
        invariant 0 <= i <= |ghosts|
        invariant AllTouched(Value(), ghosts[i..]) == AllTouched(moved, ghosts)
      {
        assert ghosts[i..][0] == ghosts[i] && ghosts[i..][1..] == ghosts[i + 1..];
        match ghosts[i] {
          case Vulnerable =>
            eatenCount := eatenCount + 1;
            user.GainScore(eatenCount * 50);
            state := EatenPause;
            timerStart := tick;
          case Dangerous =>
            state := Dying;
            timerStart := tick;
          case _ =>
        }
        i := i + 1;
      }
    }

    method MainLoop(ghosts: seq<Touch>)
      requires Sound(Value())
      modifies this, user
      ensures Value() == Frame(old(Value()), ghosts) && Sound(Value())
    {
      hide IsEaten, Pellets, InCorridor, PlayerMoved, AllTouched;
      FrameKeepsSound(Value(), ghosts);
      if state != Paused {
        tick := tick + 1;
      }
      if state == Playing {
        MainDraw(ghosts);
      } else if state == EatenPause && tick - timerStart > FPS / 3 {
        state := Playing;
      } else if state == Dying {
        if tick - timerStart > FPS * 2 {
          LoseLife();
        }
      } else if state == Countdown {
        var diff := 5 + (timerStart - tick) / FPS;
        if diff == 0 {
          state := Playing;
        }
      }
    }
  }
}
