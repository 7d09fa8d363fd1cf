/**
 * The snake game session: the mutable engine state the component keeps (body, food, the two
 * directions, status, score, best score, tick interval) and the event handlers that change it.
 */
module Engine {
  import opened Types
  import opened Grid
  import opened Rules
  import opened Food

  /** The tuning constants the engine is built with. */
  datatype Config = Config(
    gridSize: nat,
    initialSnake: seq<Coord>,
    initialDirection: Direction,
    initialSpeed: int,
    minSpeed: int,
    speedDecrement: int)

  /**
   * What the model assumes of those constants: the starting body is a proper snake that leaves
   * a free cell, the floor does not exceed the starting interval, and eating never slows down.
   */
  predicate ConfigOk(cfg: Config) {
    && WellFormed(cfg.initialSnake, cfg.gridSize)
    && |cfg.initialSnake| < cfg.gridSize * cfg.gridSize
    && cfg.minSpeed <= cfg.initialSpeed
    && 0 <= cfg.speedDecrement
  }

  /** A key press after decoding: the space bar, an arrow (or its letter alias), or anything else. */
  datatype Key = Space | Arrow(dir: Direction) | OtherKey

  /** The food cell a session starts with before any reset. */
  const InitialFood := Coord(5, 5)

  /** Everything a frame renders and the handlers read. */
  datatype View = View(
    snake: seq<Coord>,
    food: Coord,
    pending: Direction,
    committed: Direction,
    status: Status,
    score: nat,
    highScore: nat,
    speed: int)

  /** The start/pause toggle: Playing pauses, Paused and Idle play, GameOver stays. */
  function Toggled(s: Status): (r: Status)
    ensures r == Paused <==> s == Playing
    ensures r == GameOver <==> s == GameOver
    ensures r != Idle
  {
    match s
    case Playing => Paused
    case Paused => Playing
    case Idle => Playing
    case GameOver => GameOver
  }

  /** Toggling twice undoes a pause or a resume. */
  lemma ToggleTable(s: Status)
    ensures s != Idle ==> Toggled(Toggled(s)) == s
  {
  }

  /** The best score after a session ending with `score`: raised only when beaten. */
  function Best(score: nat, highScore: nat): (r: nat)
    ensures r >= score && r >= highScore
    ensures r == highScore <==> score <= highScore
  {
    if score > highScore then score else highScore
  }

  /**
   * The pending direction after the input `d`: the input is taken unless it reverses the
   * committed direction; the pending direction itself is not consulted.
   */
  function Steer(pending: Direction, committed: Direction, d: Direction): (r: Direction)
    ensures r == d || r == pending
    ensures !Opposite(pending, committed) ==> !Opposite(r, committed)
    ensures r != d <==> Opposite(d, committed) && d != pending
  {
    if Opposite(d, committed) then pending else d
  }

  /**
   * The pending direction after the inputs `inputs` arrive between two ticks: the old pending
   * direction or one of the inputs, and the last input whenever that one does not reverse the
   * committed direction.
   */
  function SteerAll(pending: Direction, committed: Direction, inputs: seq<Direction>): (r: Direction)
    ensures r == pending || r in inputs
    ensures inputs != [] && !Opposite(inputs[|inputs| - 1], committed) ==> r == inputs[|inputs| - 1]
    decreases |inputs|
  {
    if inputs == [] then pending else SteerAll(Steer(pending, committed, inputs[0]), committed, inputs[1..])
  }

  /** However many inputs arrive before the next tick, that tick never reverses the last move. */
  lemma {:induction false} NoReversalBetweenTicks(pending: Direction, committed: Direction, inputs: seq<Direction>)
    requires !Opposite(pending, committed)
    ensures !Opposite(SteerAll(pending, committed, inputs), committed)
    decreases |inputs|
  {
    if inputs != [] {
      NoReversalBetweenTicks(Steer(pending, committed, inputs[0]), committed, inputs[1..]);
    }
  }

  /** Two quick turns cannot reverse within one tick: after moving up, LEFT then DOWN leaves LEFT. */
  lemma DoubleTurnRejected()
    ensures SteerAll(Up, Up, [Left, Down]) == Left
  {
  }

  class SnakeGame {
    /** The constants this session was built with. */
    const cfg: Config
    /** The body, head first. */
    var snake: seq<Coord>
    var food: Coord
    /** The latest accepted direction input, applied at the next tick. */
    var pending: Direction
    /** The direction the most recent tick applied. */
    var committed: Direction
    var status: Status
    var score: nat
    var highScore: nat
    /** The tick interval in milliseconds. */
    var speed: int

    /**
     * The engine invariant: a proper snake on the board, a pending direction that never reverses
     * the committed one, an interval between the floor and the start value, and a best score that
     * covers the score of an ended session.
     */
    ghost predicate Valid()
      reads this
    {
      && ConfigOk(cfg)
      && WellFormed(snake, cfg.gridSize)
      && !Opposite(pending, committed)
      && cfg.minSpeed <= speed <= cfg.initialSpeed
      && (status == GameOver ==> score <= highScore)
    }

    /** The food is not under the snake. */
    predicate FoodClear()
      reads this
    {
      food !in snake
    }

    function Snapshot(): View
      reads this
    {
      View(snake, food, pending, committed, status, score, highScore, speed)
    }

    /** The state a reset leaves: a new session with food at the first free draw. */
    ghost predicate FreshSession(draw: nat -> Coord, best: nat)
      reads this
    {
      && Snapshot() == View(cfg.initialSnake, food, cfg.initialDirection, cfg.initialDirection, Playing, 0, best, cfg.initialSpeed)
      && food !in snake && InGrid(food, cfg.gridSize)
      && exists k: nat :: draw(k) == food && forall j :: 0 <= j < k ==> draw(j) in snake
    }

    /** A new engine, idle, with the best score read from storage (zero when none is stored). */
    constructor (cfg: Config, storedBest: nat)
      requires ConfigOk(cfg)
      ensures Valid() && this.cfg == cfg
      ensures Snapshot() == View(cfg.initialSnake, InitialFood, cfg.initialDirection, cfg.initialDirection, Idle, 0, storedBest, cfg.initialSpeed)
    {
      this.cfg := cfg;
      snake := cfg.initialSnake;
      food := InitialFood;
      pending := cfg.initialDirection;
      committed := cfg.initialDirection;
      status := Idle;
      score := 0;
      highScore := storedBest;
      speed := cfg.initialSpeed;
    }

    /** Ends the session and keeps the best score. */
    method EndGame()
      requires Valid()
      modifies this
      ensures Valid()
      ensures Snapshot() == old(Snapshot()).(status := GameOver, highScore := Best(old(score), old(highScore)))
    {
      status := GameOver;
      if score > highScore {
        highScore := score;
      }
    }

    /**
     * One tick while playing. The pending direction is committed and gives the new head; a wall
     * or any current segment ends the session and leaves the body as it was; otherwise the body
     * grows onto the food (score, interval and food change) or moves, dropping its tail.
     */
    method Tick(draw: nat -> Coord)
      requires Valid() && status == Playing && Sampler(draw, cfg.gridSize)
      requires NextMove(snake, pending, food, cfg.gridSize).Grow? ==> |snake| + 1 < cfg.gridSize * cfg.gridSize
      modifies this
      ensures Valid()
      ensures
        var m, was := old(NextMove(snake, pending, food, cfg.gridSize)), old(Snapshot());
        if m.Fatal() then
          Snapshot() == was.(committed := was.pending, status := GameOver, highScore := Best(was.score, was.highScore))
        else if m.Slide? then
          Snapshot() == was.(committed := was.pending, snake := m.body)
        else
          && Snapshot() == was.(committed := was.pending, snake := m.body, food := food, score := was.score + 1,
                                speed := NextSpeed(was.speed, cfg.minSpeed, cfg.speedDecrement))
          && food !in m.body && InGrid(food, cfg.gridSize)
          && exists k: nat :: draw(k) == food && forall j :: 0 <= j < k ==> draw(j) in m.body
      ensures !Opposite(committed, old(committed))
      ensures speed <= old(speed) && highScore >= old(highScore)
      ensures |snake| == old(|snake|) || |snake| == old(|snake|) + 1
      ensures old(FoodClear()) ==> FoodClear()
      ensures old(Chain(snake)) ==> Chain(snake)
    {
      var head := snake[0];
      var dir := pending;
      committed := dir;
      var newHead := Step(head, dir);

      if !InGrid(newHead, cfg.gridSize) {
        EndGame();
        return;
      }
      if newHead in snake {
        EndGame();
        return;
      }

      ghost var was := snake;
      MoveShape(was, dir, food, cfg.gridSize);
      if Chain(was) {
        MoveKeepsChain(was, dir, food, cfg.gridSize);
      }
      if food !in was && newHead != food {
        SlideKeepsFoodClear(was, dir, food, cfg.gridSize);
      }
      Advance(newHead, draw);
    }

    /**
     * The non-fatal half of a tick: the new head goes in front of the body, which then grows onto
     * the food (score, interval and food change) or drops its tail.
     */
    method Advance(newHead: Coord, draw: nat -> Coord)
      requires Valid() && status == Playing && Sampler(draw, cfg.gridSize)
      requires InGrid(newHead, cfg.gridSize) && newHead !in snake
      requires newHead == food ==> |snake| + 1 < cfg.gridSize * cfg.gridSize
      modifies this
      ensures Valid()
      ensures newHead != old(food) ==> Snapshot() == old(Snapshot()).(snake := [newHead] + old(snake)[..|old(snake)| - 1])
      ensures newHead == old(food) ==>
        && Snapshot() == old(Snapshot()).(snake := [newHead] + old(snake), food := food, score := old(score) + 1,
                                          speed := NextSpeed(old(speed), cfg.minSpeed, cfg.speedDecrement))
        && food !in snake && InGrid(food, cfg.gridSize)
        && exists k: nat :: draw(k) == food && forall j :: 0 <= j < k ==> draw(j) in snake
    {
      NewHeadKeepsWellFormed(snake, newHead, cfg.gridSize);
      var grown := [newHead] + snake;
      if newHead == food {
        score := score + 1;
        speed := NextSpeed(speed, cfg.minSpeed, cfg.speedDecrement);
        SamplerFindsFree(draw, cfg.gridSize, grown);
        food := SpawnFood(grown, draw);
        snake := grown;
      } else {
        snake := grown[..|grown| - 1];
      }
    }

    /** A direction input: taken unless it reverses the committed direction. */
    method ChangeDirection(d: Direction)
      requires Valid()
      modifies this
      ensures Valid()
      ensures Snapshot() == old(Snapshot()).(pending := Steer(old(pending), old(committed), d))
    {
      if !Opposite(d, committed) {
        pending := d;
      }
    }

    /** The start/pause action. */
    method TogglePause()
      requires Valid()
      modifies this
      ensures Valid()
      ensures Snapshot() == old(Snapshot()).(status := Toggled(old(status)))
    {
      if status == Playing {
        status := Paused;
      } else if status == Paused || status == Idle {
        status := Playing;
      }
    }

    /** Starts a new session; the best score survives. */
    method Reset(draw: nat -> Coord)
      requires Valid() && Sampler(draw, cfg.gridSize)
      modifies this
      ensures Valid()
      ensures FreshSession(draw, old(highScore))
    {
      snake := cfg.initialSnake;
      pending := cfg.initialDirection;
      committed := cfg.initialDirection;
      score := 0;
      speed := cfg.initialSpeed;
      status := Playing;
      SamplerFindsFree(draw, cfg.gridSize, cfg.initialSnake);
      food := SpawnFood(cfg.initialSnake, draw);
    }

    /**
     * The keyboard handler. Space resets an ended session and toggles otherwise. An arrow starts
     * an idle session, and steers only a session that was already playing when the key arrived.
     */
    method KeyDown(key: Key, draw: nat -> Coord)
      requires Valid() && Sampler(draw, cfg.gridSize)
      modifies this
      ensures Valid()
      ensures
        var was := old(Snapshot());
        match key
        case Space =>
          if was.status == GameOver then FreshSession(draw, was.highScore)
          else Snapshot() == was.(status := Toggled(was.status))
        case Arrow(d) =>
          if was.status == Idle then Snapshot() == was.(status := Playing)
          else if was.status == Playing then Snapshot() == was.(pending := Steer(was.pending, was.committed, d))
          else Snapshot() == was
        case OtherKey => Snapshot() == was
    {
      match key
      case Space =>
        if status == GameOver {
          Reset(draw);
        } else {
          TogglePause();
        }
      case Arrow(d) =>
        var seen := status;
        if seen == Idle {
          status := Playing;
        }
        if seen == Playing {
          ChangeDirection(d);
        }
      case OtherKey =>
    }

    /** The on-screen direction pad: starts an idle session and steers in every status. */
    method DirectionPad(d: Direction)
      requires Valid()
      modifies this
      ensures Valid()
      ensures Snapshot() == old(Snapshot()).(
                status := if old(status) == Idle then Playing else old(status),
                pending := Steer(old(pending), old(committed), d))
    {
      if status == Idle {
        status := Playing;
      }
      ChangeDirection(d);
    }
  }
}
