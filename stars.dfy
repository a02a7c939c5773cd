// The parallax stars' per-frame drift and wrap (components/GameCanvas.tsx:134-140).
module Stars {

  /** A background star; speed is its own scroll rate, independent of the score. */
  datatype Star = Star(x: real, y: real, size: real, speed: real, opacity: real)

  /**
   * One running frame of a star: it moves left by its speed; once left of 0 it
   * reappears at the right edge at the height drawn from the random value draw.
   */
  function Drift(star: Star, width: real, height: real, draw: real): (s: Star)
    ensures s.size == star.size && s.speed == star.speed && s.opacity == star.opacity
    ensures star.x - star.speed >= 0.0 ==> s.x == star.x - star.speed && s.y == star.y
    ensures star.x - star.speed < 0.0 ==> s.x == width
    ensures width >= 0.0 ==> s.x >= 0.0
  {
    var moved := star.(x := star.x - star.speed);
    if moved.x < 0.0 then moved.(x := width, y := draw * height) else moved
  }

  /** A wrapped star reappears on the canvas: at the right edge, at a height inside it. */
  lemma WrapStaysOnCanvas(star: Star, width: real, height: real, draw: real)
    requires 0.0 <= draw < 1.0 && height > 0.0
    requires star.x - star.speed < 0.0
    ensures Drift(star, width, height, draw).x == width
    ensures 0.0 <= Drift(star, width, height, draw).y < height
  {
    assert height - draw * height == (1.0 - draw) * height;
    assert (1.0 - draw) * height > 0.0;
  }
}
