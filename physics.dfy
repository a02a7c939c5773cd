// Difficulty speed, gravity and tilt of the running tick
// (components/GameCanvas.tsx:145-153) and the jump (:63-66).
module Physics {
  import opened Constants
  import opened Types

  /** Scroll speed for a score: one SPEED_STEP more per POINTS_PER_LEVEL points. */
  function Speed(score: nat): (s: real)
    ensures s >= INITIAL_SPEED
    ensures score < POINTS_PER_LEVEL ==> s == INITIAL_SPEED
  {
    INITIAL_SPEED + ((score / POINTS_PER_LEVEL) as real) * SPEED_STEP
  }

  /** The speed never decreases as the score grows. */
  lemma SpeedMonotone(a: nat, b: nat)
    requires a <= b
    ensures Speed(a) <= Speed(b)
  {
    assert a / POINTS_PER_LEVEL <= b / POINTS_PER_LEVEL;
  }

  /** Five more points give exactly one more step of speed. */
  lemma SpeedNextLevel(score: nat)
    ensures Speed(score + POINTS_PER_LEVEL) == Speed(score) + SPEED_STEP
  {
    assert (score + POINTS_PER_LEVEL) / POINTS_PER_LEVEL == score / POINTS_PER_LEVEL + 1;
  }

  /** Within one level the speed is constant. */
  lemma SpeedConstantOnLevel(score: nat)
    ensures Speed(score) == Speed(score - score % POINTS_PER_LEVEL)
  {
    assert (score - score % POINTS_PER_LEVEL) / POINTS_PER_LEVEL == score / POINTS_PER_LEVEL;
  }

  /** The concrete levels: 3.6 for scores 0..4, 4.2 for 5..9, 4.8 at 10. */
  lemma SpeedLevels(score: nat)
    ensures score <= 4 ==> Speed(score) == 3.6
    ensures 5 <= score <= 9 ==> Speed(score) == 4.2
    ensures score == 10 ==> Speed(score) == 4.8
  {
  }

  /** The ship's tilt: the velocity scaled by TILT_GAIN, clamped to [-MAX_TILT, MAX_TILT]. */
  function Tilt(velocity: real): (r: real)
    ensures -MAX_TILT <= r <= MAX_TILT
    ensures -MAX_TILT <= velocity * TILT_GAIN <= MAX_TILT ==> r == velocity * TILT_GAIN
    ensures velocity * TILT_GAIN > MAX_TILT ==> r == MAX_TILT
    ensures velocity * TILT_GAIN < -MAX_TILT ==> r == -MAX_TILT
  {
    Min(MAX_TILT, Max(-MAX_TILT, velocity * TILT_GAIN))
  }

  /** A faster fall never tilts the nose up more. */
  lemma TiltMonotone(v: real, w: real)
    requires v <= w
    ensures Tilt(v) <= Tilt(w)
  {
  }

  /** One running tick of the ship: gravity into velocity, velocity into y, then tilt. */
  function Fall(ship: Ship): Ship
  {
    var velocity := ship.velocity + GRAVITY;
    Ship(ship.y + velocity, velocity, Tilt(velocity))
  }

  /** n running ticks without a jump. */
  function FallN(ship: Ship, n: nat): Ship
  {
    if n == 0 then ship else Fall(FallN(ship, n - 1))
  }

  /** 1 + 2 + ... + n. */
  function Triangle(n: nat): nat
  {
    if n == 0 then 0 else Triangle(n - 1) + n
  }

  /** After n ticks without a jump the velocity has grown by n * GRAVITY. */
  lemma {:induction false} FallNVelocity(ship: Ship, n: nat)
    ensures FallN(ship, n).velocity == ship.velocity + GRAVITY * (n as real)
  {
    if n > 0 {
      FallNVelocity(ship, n - 1);
    }
  }

  /** n * v written as n repeated additions. */
  function Times(n: nat, v: real): real
  {
    if n == 0 then 0.0 else Times(n - 1, v) + v
  }

  lemma {:induction false} TimesIsProduct(n: nat, v: real)
    ensures Times(n, v) == (n as real) * v
  {
    if n > 0 {
      TimesIsProduct(n - 1, v);
      assert ((n - 1) as real + 1.0) * v == ((n - 1) as real) * v + v;
    }
  }

  /**
   * After n ticks without a jump the ship is n * v0 + GRAVITY * (1 + 2 + ... + n)
   * lower, and its tilt is that of its velocity.
   */
  lemma {:induction false} FallNClosedForm(ship: Ship, n: nat)
    ensures FallN(ship, n).y
         == ship.y + (n as real) * ship.velocity + GRAVITY * ((n * (n + 1)) as real) / 2.0
    ensures n > 0 ==> FallN(ship, n).rotation == Tilt(FallN(ship, n).velocity)
  {
    FallNDisplacement(ship, n);
    TimesIsProduct(n, ship.velocity);
    TriangleClosed(n);
    assert (Triangle(n) as real) == ((n * (n + 1)) as real) / 2.0;
  }

  /** Gauss: 1 + 2 + ... + n == n(n+1)/2. */
  lemma {:induction false} TriangleClosed(n: nat)
    ensures 2 * Triangle(n) == n * (n + 1)
  {
    if n > 0 {
      TriangleClosed(n - 1);
    }
  }

  lemma {:induction false} FallNDisplacement(ship: Ship, n: nat)
    ensures FallN(ship, n).y == ship.y + Times(n, ship.velocity) + GRAVITY * (Triangle(n) as real)
  {
    if n > 0 {
      FallNDisplacement(ship, n - 1);
      FallNVelocity(ship, n);
    }
  }

  /** Ten ticks from rest: velocity 3.0 and 16.5 pixels lower. */
  lemma TenTicksFromRest(y: real)
    ensures FallN(Ship(y, 0.0, 0.0), 10).velocity == 3.0
    ensures FallN(Ship(y, 0.0, 0.0), 10).y == y + 16.5
  {
    FallNVelocity(Ship(y, 0.0, 0.0), 10);
    FallNClosedForm(Ship(y, 0.0, 0.0), 10);
  }

  /** The jump: the velocity becomes exactly JUMP_STRENGTH, whatever it was. */
  function Impulse(ship: Ship): (s: Ship)
    ensures s.velocity == JUMP_STRENGTH && s.y == ship.y && s.rotation == ship.rotation
  {
    ship.(velocity := JUMP_STRENGTH)
  }
}
