// The records of types.ts, the shape of the ship ref and the two callbacks
// of the canvas component.
module Types {

  datatype Option<T> = None | Some(value: T)

  /** The run state; the canvas only reads it. */
  datatype GameStatus = START | PLAYING | GAME_OVER

  /** A pipe pair: the solid column [x, x + width] minus the gap [gapTop, gapTop + PIPE_GAP]. */
  datatype Pipe = Pipe(x: real, y: real, width: real, height: real, passed: bool, gapTop: real)

  /** The ship ref: vertical position, vertical velocity and tilt. */
  datatype Ship = Ship(y: real, velocity: real, rotation: real)

  /** A call of onScoreUpdate or of onGameOver, with the score it was given. */
  datatype Event = ScoreUpdate(score: nat) | GameOver(score: nat)

  /** The drawing surface's current size. */
  datatype Surface = Surface(width: real, height: real)
}
