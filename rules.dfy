/**
 * The pure rules of one tick: where the head goes, whether the move is fatal, how the body
 * changes, and how the tick interval shrinks when food is eaten.
 */
module Rules {
  import opened Types
  import opened Grid

  /** No cell is occupied by two segments. */
  predicate NoDup(body: seq<Coord>) {
    forall i, j :: 0 <= i < j < |body| ==> body[i] != body[j]
  }

  /** The invariant of a live snake: non-empty, on the board, no cell twice. */
  predicate WellFormed(body: seq<Coord>, size: int) {
    |body| > 0 && (forall i :: 0 <= i < |body| ==> InGrid(body[i], size)) && NoDup(body)
  }

  /** Consecutive segments share an edge. */
  predicate Chain(body: seq<Coord>) {
    forall i :: 0 <= i < |body| - 1 ==> Adjacent(body[i], body[i + 1])
  }

  /** What a tick does to the body; the two fatal outcomes end the session. */
  datatype Move = HitWall | HitSelf | Slide(body: seq<Coord>) | Grow(body: seq<Coord>) {
    predicate Fatal() {
      HitWall? || HitSelf?
    }
  }

  /**
   * The body-level effect of a tick moving `snake` (head first) along `dir` with food at `food`:
   * the wall test comes first, then the collision test against the whole body as it was before
   * the move (its tail included), then growth onto the food or a move that drops the tail.
   */
  function NextMove(snake: seq<Coord>, dir: Direction, food: Coord, size: int): (r: Move)
    requires |snake| > 0
    ensures !r.Fatal() ==> |r.body| > 0 && r.body[0] == Step(snake[0], dir) && r.body[1..] <= snake
    ensures r.Grow? ==> r.body[1..] == snake
    ensures r.Slide? ==> |r.body| == |snake|
  {
    var head := Step(snake[0], dir);
    if !InGrid(head, size) then HitWall
    else if head in snake then HitSelf
    else if head == food then Grow([head] + snake)
    else Slide([head] + snake[..|snake| - 1])
  }

  /** A tick is fatal exactly when the new head leaves the board or lands on any current segment. */
  lemma FatalIff(snake: seq<Coord>, dir: Direction, food: Coord, size: int)
    requires |snake| > 0
    ensures var head := Step(snake[0], dir);
      && (NextMove(snake, dir, food, size).HitWall? <==> !InGrid(head, size))
      && (NextMove(snake, dir, food, size).Fatal() <==> !InGrid(head, size) || head in snake)
  {
  }

  /**
   * The strict collision rule: landing on the cell the tail still occupies is fatal, although
   * that cell would be vacated by the same move.
   */
  lemma TailIsSolid(snake: seq<Coord>, dir: Direction, food: Coord, size: int)
    requires |snake| > 0
    requires InGrid(snake[|snake| - 1], size)
    requires Step(snake[0], dir) == snake[|snake| - 1]
    ensures NextMove(snake, dir, food, size) == HitSelf
  {
  }

  /**
   * A non-fatal tick puts the new head one step along `dir` in front of the old body, every
   * other segment taking the place of the one ahead of it; the length grows by one exactly when
   * the head reaches the food.
   */
  lemma MoveShape(snake: seq<Coord>, dir: Direction, food: Coord, size: int)
    requires |snake| > 0
    requires !NextMove(snake, dir, food, size).Fatal()
    ensures var b, head := NextMove(snake, dir, food, size).body, Step(snake[0], dir);
      && b[0] == head && InGrid(head, size) && head !in snake
      && (NextMove(snake, dir, food, size).Grow? <==> head == food)
      && |b| == (if head == food then |snake| + 1 else |snake|)
      && forall i :: 1 <= i < |b| ==> b[i] == snake[i - 1]
  {
  }

  /** Putting a free board cell in front of a well-formed body, with or without its tail, keeps it well-formed. */
  lemma NewHeadKeepsWellFormed(snake: seq<Coord>, head: Coord, size: int)
    requires WellFormed(snake, size) && InGrid(head, size) && head !in snake
    ensures WellFormed([head] + snake, size)
    ensures WellFormed([head] + snake[..|snake| - 1], size)
  {
  }

  /** A non-fatal tick keeps a well-formed body well-formed. */
  lemma MoveKeepsWellFormed(snake: seq<Coord>, dir: Direction, food: Coord, size: int)
    requires WellFormed(snake, size)
    requires !NextMove(snake, dir, food, size).Fatal()
    ensures WellFormed(NextMove(snake, dir, food, size).body, size)
  {
  }

  /** A non-fatal tick keeps a connected body connected. */
  lemma MoveKeepsChain(snake: seq<Coord>, dir: Direction, food: Coord, size: int)
    requires |snake| > 0 && Chain(snake)
    requires !NextMove(snake, dir, food, size).Fatal()
    ensures Chain(NextMove(snake, dir, food, size).body)
  {
  }

  /** A tick that does not eat never moves the body onto food that was clear of it. */
  lemma SlideKeepsFoodClear(snake: seq<Coord>, dir: Direction, food: Coord, size: int)
    requires |snake| > 0 && food !in snake
    requires NextMove(snake, dir, food, size).Slide?
    ensures food !in NextMove(snake, dir, food, size).body
  {
  }

  /** The tick interval after eating: lowered by `decrement`, never below `minSpeed`. */
  function NextSpeed(speed: int, minSpeed: int, decrement: int): (r: int)
    ensures r >= minSpeed
    ensures r == speed - decrement || r == minSpeed
    ensures minSpeed <= speed && 0 <= decrement ==> r <= speed
    ensures r >= speed - decrement
  {
    if minSpeed < speed - decrement then speed - decrement else minSpeed
  }

  /** The tick interval after `eaten` foods starting from `speed`. */
  function SpeedAfter(speed: int, eaten: nat, minSpeed: int, decrement: int): int
    decreases eaten
  {
    if eaten == 0 then speed else NextSpeed(SpeedAfter(speed, eaten - 1, minSpeed, decrement), minSpeed, decrement)
  }

  /** After `eaten` foods the interval is `speed - eaten * decrement`, floored at `minSpeed`. */
  lemma {:induction false} SpeedAfterClosedForm(speed: int, eaten: nat, minSpeed: int, decrement: int)
    requires minSpeed <= speed && 0 <= decrement
    ensures var floor := speed - eaten * decrement;
      SpeedAfter(speed, eaten, minSpeed, decrement) == if minSpeed < floor then floor else minSpeed
  {
    if eaten > 0 {
      SpeedAfterClosedForm(speed, eaten - 1, minSpeed, decrement);
      assert speed - eaten * decrement == speed - (eaten - 1) * decrement - decrement;
    }
  }

  /** A three-segment snake moving up on a 20 by 20 board. */
  lemma ScenarioSlideUp()
    ensures NextMove([Coord(10, 10), Coord(10, 11), Coord(10, 12)], Up, Coord(3, 3), 20)
         == Slide([Coord(10, 9), Coord(10, 10), Coord(10, 11)])
  {
  }

  /** A head on the left edge moving left hits the wall. */
  lemma ScenarioWall()
    ensures NextMove([Coord(0, 5), Coord(1, 5)], Left, Coord(3, 3), 20) == HitWall
  {
  }

  /** A three-segment snake eating grows to four segments. */
  lemma ScenarioEat()
    ensures NextMove([Coord(10, 10), Coord(10, 11), Coord(10, 12)], Up, Coord(10, 9), 20)
         == Grow([Coord(10, 9), Coord(10, 10), Coord(10, 11), Coord(10, 12)])
  {
  }
}
