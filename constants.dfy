// Tuning constants of the game (constants.ts) and the literals that
// components/GameCanvas.tsx writes inline.
module Constants {

  /** Added to the ship's vertical velocity on every running tick. */
  const GRAVITY: real := 0.3
  /** The velocity a jump sets; negative is upwards on the canvas. */
  const JUMP_STRENGTH: real := -6.0
  const PIPE_WIDTH: real := 60.0
  /** Height of the passable gap of every pipe. */
  const PIPE_GAP: real := 180.0
  /** A new pipe is spawned once the last one is this far left of the right edge. */
  const PIPE_SPACING: real := 300.0
  /** Scroll speed at score 0. */
  const INITIAL_SPEED: real := 3.6
  const SHIP_WIDTH: real := 50.0
  const SHIP_HEIGHT: real := 35.0

  /** The ship's fixed horizontal position (the literal 100 of the tick). */
  const SHIP_X: real := 100.0
  /** Speed added per difficulty level. */
  const SPEED_STEP: real := 0.6
  /** Points per difficulty level. */
  const POINTS_PER_LEVEL: nat := 5
  /** Rotation per unit of velocity. */
  const TILT_GAIN: real := 0.08
  /** Math.PI / 4 as the double the game computes with. */
  const MAX_TILT: real := 0.7853981633974483
  /** Inward padding of the forgiving hit box. */
  const PADDING: real := 8.0
  /** Smallest distance of a freshly drawn gap from the top and the bottom. */
  const GAP_MARGIN: real := 150.0
  /** How far the ship may leave the canvas, above or below, before the game is over. */
  const BOUNDARY_SLACK: real := 50.0
  /** A front pipe is dropped once its x is below -PIPE_WIDTH - CULL_MARGIN. */
  const CULL_MARGIN: real := 100.0

  /** Math.min and Math.max on the game's numbers. */
  function Min(a: real, b: real): real { if a <= b then a else b }
  function Max(a: real, b: real): real { if a >= b then a else b }
}
