/** Value types shared by the snake engine. */
module Types {

  /** A travel direction of the snake (the source's 'UP', 'DOWN', 'LEFT', 'RIGHT'). */
  datatype Direction = Up | Down | Left | Right

  /** The session lifecycle (the source's GameStatus enumeration). */
  datatype Status = Idle | Playing | Paused | GameOver

  /** A grid cell. Column x grows to the right, row y grows downwards. */
  datatype Coord = Coord(x: int, y: int)
}
