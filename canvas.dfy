// The state the canvas component keeps in refs (components/GameCanvas.tsx:24-32)
// and the operations that change it in place: resetGame (:49-61), jump
// (:63-66), the star loop (:128-141) and the running tick of draw (:143-200).
module Canvas {
  import opened Constants
  import opened Types
  import opened Physics
  import opened Collision
  import opened Field
  import opened Stars
  import opened Simulation

  /** The first unprocessed element of `a + s[|a|..]` is that of `s`. */
  lemma NextOf<T>(a: seq<T>, s: seq<T>)
    requires |a| < |s|
    ensures (a + s[|a|..])[|a|] == s[|a|]
  {
  }

  /** Overwriting the first unprocessed element of `a + s[|a|..]` extends the processed prefix. */
  lemma ReplaceNext<T>(a: seq<T>, s: seq<T>, y: T)
    requires |a| < |s|
    ensures (a + s[|a|..])[|a| := y] == (a + [y]) + s[|a| + 1..]
  {
    var i := |a|;
    assert s[i..] == [s[i]] + s[i + 1..];
  }

  class GameCanvas {
    var ship: Ship
    var pipes: seq<Pipe>
    var score: nat
    const stars: array<Star>
    /** The number of pipes the tick has dropped since the last reset; all of them had been scored. */
    ghost var cleared: nat

    function State(): World
      reads this
    {
      World(ship, pipes, score)
    }

    /**
     * Between calls: the tick's invariant holds, and the score counts every
     * pipe ever passed, those still on the field and those already dropped.
     */
    ghost predicate Valid()
      reads this
    {
      Invariant(State()) && score == cleared + PassedCount(pipes)
    }

    /** The refs' initial values; the random star layout is given. */
    constructor (layout: seq<Star>)
      ensures Valid()
      ensures ship == Ship(0.0, 0.0, 0.0) && pipes == [] && score == 0
      ensures fresh(stars) && stars[..] == layout
    {
      ship := Ship(0.0, 0.0, 0.0);
      pipes := [];
      score := 0;
      stars := new Star[|layout|](i requires 0 <= i < |layout| => layout[i]);
      cleared := 0;
    }

    /**
     * resetGame: with a canvas, the ship is centred at rest, the field
     * emptied, the score zeroed and reported; without one, nothing happens.
     */
    method Reset(canvas: Option<Surface>) returns (events: seq<Event>)
      requires Valid()
      modifies this
      ensures Valid()
      ensures canvas.None? ==> State() == old(State()) && events == []
      ensures canvas.Some? ==>
        && ship == Ship(canvas.value.height / 2.0, 0.0, 0.0)
        && pipes == [] && score == 0
        && events == [ScoreUpdate(0)]
    {
      events := [];
      if canvas.None? {
        return;
      }
      ship := Ship(canvas.value.height / 2.0, 0.0, 0.0);
      pipes := [];
      score := 0;
      cleared := 0;
      events := [ScoreUpdate(score)];
    }

    /** jump: while playing the velocity becomes JUMP_STRENGTH; otherwise nothing changes. */
    method Jump(status: GameStatus)
      requires Valid()
      modifies this`ship
      ensures Valid()
      ensures status == PLAYING ==> ship == Impulse(old(ship))
      ensures status != PLAYING ==> ship == old(ship)
    {
      if status != PLAYING {
        return;
      }
      ship := ship.(velocity := JUMP_STRENGTH);
    }

    /** The star loop: while playing every star drifts, draws[k] being star k's random height. */
    method AdvanceStars(status: GameStatus, width: real, height: real, draws: seq<real>)
      requires |draws| == stars.Length
      modifies stars
      ensures status != PLAYING ==> stars[..] == old(stars[..])
      ensures status == PLAYING ==>
        forall k :: 0 <= k < stars.Length ==> stars[k] == Drift(old(stars[k]), width, height, draws[k])
    {
      if status != PLAYING {
        return;
      }
      for k := 0 to stars.Length
        invariant forall j :: 0 <= j < k ==> stars[j] == Drift(old(stars[j]), width, height, draws[j])
        invariant forall j :: k <= j < stars.Length ==> stars[j] == old(stars[j])
      {
        var star := stars[k];
        star := star.(x := star.x - star.speed);
        if star.x < 0.0 {
          star := star.(x := width, y := draws[k] * height);
        }
        stars[k] := star;
      }
    }

    /**
     * The running part of one frame: nothing unless playing; otherwise the
     * state and the callbacks are exactly those of Step.
     */
    method Tick(status: GameStatus, width: real, height: real, r: real) returns (events: seq<Event>)
      requires Valid()
      modifies this
      ensures Valid()
      ensures status != PLAYING ==> State() == old(State()) && events == []
      ensures status == PLAYING ==> Outcome(State(), events) == Step(old(State()), width, height, r)
    {
      events := [];
      if status != PLAYING {
        return;
      }
      ghost var before := State();
      ghost var cleared0 := cleared;
      var speed := Speed(score);

      ship := ship.(velocity := ship.velocity + GRAVITY);
      ship := ship.(y := ship.y + ship.velocity);
      ship := ship.(rotation := Tilt(ship.velocity));
      assert ship == Fall(before.ship);

      ghost var fallen := ship;
      SpawnPipe(width, height, r);
      ghost var spawned := pipes;
      assert spawned == Spawn(before.pipes, width, height, r) && score == before.score;

      events := ScrollPipes(speed, ship.y, height);
      ghost var swept := Sweep(spawned, speed, fallen.y, height, before.score);
      assert pipes == swept.pipes && score == swept.score && events == swept.events;
      assert cleared == cleared0 && ship == fallen;

      CullFront();
      assert pipes == Cull(swept.pipes) && cleared == cleared0 + (|swept.pipes| - |pipes|);
      assert State() == Step(before, width, height, r).world;
      StepKeepsInvariant(before, width, height, r);
      StepTallies(before, width, height, r, cleared0);
    }

    /** Append a fresh pipe at the right edge when the field needs one. */
    method SpawnPipe(width: real, height: real, r: real)
      modifies this`pipes
      ensures pipes == Spawn(old(pipes), width, height, r)
    {
      if NeedsPipe(pipes, width) {
        pipes := pipes + [NewPipe(width, height, r)];
      }
    }

    /** Drop the front pipe once it is past the cull line; the ghost tally counts it. */
    method CullFront()
      modifies this`pipes, this`cleared
      ensures pipes == Cull(old(pipes))
      ensures cleared == old(cleared) + (|old(pipes)| - |pipes|)
    {
      if |pipes| > 0 && pipes[0].x < -PIPE_WIDTH - CULL_MARGIN {
        pipes := pipes[1..];
        cleared := cleared + 1;
      }
    }

    /**
     * The forEach over the field: each pipe moves left by speed, is scored
     * once it is past the ship, and a hit or an out-of-bounds ship is
     * reported for it; the result is that of Sweep.
     */
    method ScrollPipes(speed: real, shipY: real, height: real) returns (events: seq<Event>)
      modifies this`pipes, this`score
      ensures SweepState(pipes, score, events) == Sweep(old(pipes), speed, shipY, height, old(score))
    {
      var field := pipes;
      var total := score;
      ghost var start, score0 := field, total;
      events := [];
      ghost var acc := SweepState([], total, []);
      var i := 0;
      while i < |field|
        modifies {}
        invariant 0 <= i <= |field| == |start|
        invariant acc == Sweep(start[..i], speed, shipY, height, score0)
        invariant |acc.pipes| == i
        invariant field == acc.pipes + start[i..]
        invariant total == acc.score && events == acc.events
      {
        NextOf(acc.pipes, start);
        SweepExtends(start, i, speed, shipY, height, score0);
        var pipe, updated, emitted := VisitPipe(field[i], total, shipY, speed, height, acc);
        ReplaceNext(acc.pipes, start, pipe);
        total := updated;
        events := events + emitted;
        field := field[i := pipe];
        acc := SweepState(acc.pipes + [pipe], updated, acc.events + emitted);
        i := i + 1;
      }
      assert start[..i] == start && field == acc.pipes + [];
      assert SweepState(field, total, events) == Sweep(start, speed, shipY, height, score0);
      assert start == old(pipes) && score0 == old(score);
      pipes, score := field, total;
    }

    /**
     * The forEach callback for one pipe: move it left by speed, score it once
     * its right edge is past the ship (one onScoreUpdate with the new score),
     * then report onGameOver for a hit or an out-of-bounds ship.
     */
    static method VisitPipe(pipe: Pipe, total: nat, shipY: real, speed: real, height: real,
                            ghost acc: SweepState)
      returns (moved: Pipe, updated: nat, emitted: seq<Event>)
      requires acc.score == total
      ensures Visit(acc, pipe, speed, shipY, height) == SweepState(acc.pipes + [moved], updated, acc.events + emitted)
    {
      moved := pipe.(x := pipe.x - speed);
      updated := total;
      var updates: seq<Event> := [];
      if !moved.passed && moved.x + PIPE_WIDTH < SHIP_X {
        moved := moved.(passed := true);
        updated := updated + 1;
        updates := [ScoreUpdate(updated)];
      }
      var overs: seq<Event> := [];
      if Colliding(shipY, moved) || OutOfBounds(shipY, height) {
        overs := [GameOver(updated)];
      }
      emitted := updates + overs;
      assert acc.events + updates + overs == acc.events + emitted;
    }

    /** One animation frame: the stars, then the running tick. */
    method Frame(status: GameStatus, width: real, height: real, r: real, draws: seq<real>)
      returns (events: seq<Event>)
      requires Valid()
      requires |draws| == stars.Length
      modifies this, stars
      ensures Valid()
      ensures status != PLAYING ==> State() == old(State()) && stars[..] == old(stars[..]) && events == []
      ensures status == PLAYING ==>
        && Outcome(State(), events) == Step(old(State()), width, height, r)
        && forall k :: 0 <= k < stars.Length ==> stars[k] == Drift(old(stars[k]), width, height, draws[k])
    {
      AdvanceStars(status, width, height, draws);
      events := Tick(status, width, height, r);
    }
  }
}
