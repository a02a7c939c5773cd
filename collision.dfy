// The padded pipe hit test and the boundary test of the running tick
// (components/GameCanvas.tsx:181-191).
module Collision {
  import opened Constants
  import opened Types

  /**
   * The tick's hit test: the ship's padded box overlaps the pipe's column
   * horizontally, and its padded top is above the gap or its padded bottom
   * below it.
   */
  predicate Colliding(shipY: real, pipe: Pipe)
  {
    && SHIP_X + SHIP_WIDTH - PADDING > pipe.x
    && SHIP_X + PADDING < pipe.x + pipe.width
    && (shipY + PADDING < pipe.gapTop || shipY + SHIP_HEIGHT - PADDING > pipe.gapTop + PIPE_GAP)
  }

  /** The ship has left the canvas by more than BOUNDARY_SLACK, above or below. */
  predicate OutOfBounds(shipY: real, height: real)
  {
    shipY < -BOUNDARY_SLACK || shipY + SHIP_HEIGHT > height + BOUNDARY_SLACK
  }

  /** What makes the tick report a game-over for one pipe. */
  predicate Hit(shipY: real, height: real, pipe: Pipe)
  {
    Colliding(shipY, pipe) || OutOfBounds(shipY, height)
  }

  // A geometric reading of the same test, point by point.

  /** (px, py) lies strictly inside the ship's box shrunk by PADDING on every edge. */
  predicate InHitBox(px: real, py: real, shipY: real)
  {
    && SHIP_X + PADDING < px < SHIP_X + SHIP_WIDTH - PADDING
    && shipY + PADDING < py < shipY + SHIP_HEIGHT - PADDING
  }

  /** (px, py) lies strictly inside the solid part of the pipe: its column above or below the gap. */
  predicate InSolid(px: real, py: real, pipe: Pipe)
  {
    && pipe.x < px < pipe.x + pipe.width
    && (py < pipe.gapTop || py > pipe.gapTop + PIPE_GAP)
  }

  /**
   * The hit test is exactly rectangle overlap: it fires iff some point lies
   * both in the padded ship box and in the pipe's solid region.
   */
  lemma CollidingIffOverlap(shipY: real, pipe: Pipe)
    requires pipe.width > 0.0
    ensures Colliding(shipY, pipe)
        <==> exists px: real, py: real :: InHitBox(px, py, shipY) && InSolid(px, py, pipe)
  {
    if Colliding(shipY, pipe) {
      var lo := Max(SHIP_X + PADDING, pipe.x);
      var hi := Min(SHIP_X + SHIP_WIDTH - PADDING, pipe.x + pipe.width);
      var px := (lo + hi) / 2.0;
      var top := shipY + PADDING;
      var bottom := shipY + SHIP_HEIGHT - PADDING;
      var py := if top < pipe.gapTop
        then (top + Min(bottom, pipe.gapTop)) / 2.0
        else (Max(top, pipe.gapTop + PIPE_GAP) + bottom) / 2.0;
      assert InHitBox(px, py, shipY) && InSolid(px, py, pipe);
    }
  }

  /** A ship whose padded box fits inside the gap is never hit, wherever the column is. */
  lemma InsideGapIsSafe(shipY: real, pipe: Pipe)
    requires pipe.gapTop <= shipY + PADDING
    requires shipY + SHIP_HEIGHT - PADDING <= pipe.gapTop + PIPE_GAP
    ensures !Colliding(shipY, pipe)
  {
  }

  /** A pipe whose column is clear of the padded box horizontally is never hit. */
  lemma ClearColumnIsSafe(shipY: real, pipe: Pipe)
    requires pipe.x + pipe.width <= SHIP_X + PADDING || pipe.x >= SHIP_X + SHIP_WIDTH - PADDING
    ensures !Colliding(shipY, pipe)
  {
  }
}
