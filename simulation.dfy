// The running tick of components/GameCanvas.tsx:143-200 as a function on
// values, and what holds of it over one tick and over a whole run.
module Simulation {
  import opened Constants
  import opened Types
  import opened Physics
  import opened Collision
  import opened Field

  /** The simulation state the tick changes: the ship ref, the pipe list and the score ref. */
  datatype World = World(ship: Ship, pipes: seq<Pipe>, score: nat)

  /** A tick's new state and the callbacks it made, in order. */
  datatype Outcome = Outcome(world: World, events: seq<Event>)

  /**
   * One running tick on a width x height canvas, r being the tick's random draw:
   * speed from the score, gravity, spawn, the pipe loop, then the cull.
   */
  function Step(w: World, width: real, height: real, r: real): Outcome
  {
    var speed := Speed(w.score);
    var ship := Fall(w.ship);
    var sweep := Sweep(Spawn(w.pipes, width, height, r), speed, ship.y, height, w.score);
    Outcome(World(ship, Cull(sweep.pipes), sweep.score), sweep.events)
  }

  /** What holds between ticks: the field invariant and a tilt within the clamp. */
  predicate Invariant(w: World)
  {
    FieldInvariant(w.pipes) && -MAX_TILT <= w.ship.rotation <= MAX_TILT
  }

  /** A tick keeps the invariant: pipes stay spaced and sorted, flags agree with positions. */
  lemma StepKeepsInvariant(w: World, width: real, height: real, r: real)
    requires Invariant(w)
    ensures Invariant(Step(w, width, height, r).world)
  {
    var ship := Fall(w.ship);
    TickKeepsField(w.pipes, width, height, r, Speed(w.score), ship.y, w.score);
  }

  /**
   * The ship after a tick: velocity up by GRAVITY, y moved by the new
   * velocity, tilt the clamped velocity.
   */
  lemma StepShip(w: World, width: real, height: real, r: real)
    ensures var s := Step(w, width, height, r).world.ship;
      && s.velocity == w.ship.velocity + GRAVITY
      && s.y == w.ship.y + s.velocity
      && s.rotation == Tilt(s.velocity)
      && -MAX_TILT <= s.rotation <= MAX_TILT
  {
  }

  /**
   * Game-over reporting in a tick: one onGameOver call per pipe (after its
   * move) that the padded box hits or, when the ship is out of bounds, per
   * pipe on the field; so a game-over is reported iff the ship is out of
   * bounds or some pipe is hit, and out of bounds it is reported once per pipe.
   * Every call carries the score accumulated so far; out of bounds, the last
   * one carries the tick's final score.
   */
  lemma StepGameOver(w: World, width: real, height: real, r: real)
    ensures var o := Step(w, width, height, r);
      var y := o.world.ship.y;
      var field := Spawn(w.pipes, width, height, r);
      var speed := Speed(w.score);
      && (GameOverCount(o.events) > 0
          <==> OutOfBounds(y, height)
               || exists k :: 0 <= k < |field| && Colliding(y, field[k].(x := field[k].x - speed)))
      && (OutOfBounds(y, height) ==> GameOverCount(o.events) == |field|)
      && GameOverCount(o.events) <= |field|
    ensures var o := Step(w, width, height, r);
      && (forall e | e in o.events && e.GameOver? :: w.score <= e.score <= o.world.score)
      && (OutOfBounds(o.world.ship.y, height) ==> o.events[|o.events| - 1] == GameOver(o.world.score))
  {
    SpawnAppendsAtMostOne(w.pipes, width, height, r);
    SweepGameOver(Spawn(w.pipes, width, height, r), Speed(w.score), Fall(w.ship).y, height, w.score);
  }

  // ------------------------------------------------------------------- runs

  /** What happens between two states: a frame while playing, or a jump. */
  datatype Input = Frame(width: real, height: real, r: real) | Press

  function Apply(w: World, input: Input): World
  {
    match input
    case Frame(width, height, r) => Step(w, width, height, r).world
    case Press => w.(ship := Impulse(w.ship))
  }

  /** The state after a run of inputs while playing. */
  function Run(w: World, inputs: seq<Input>): World
    decreases |inputs|
  {
    if inputs == [] then w else Apply(Run(w, inputs[..|inputs| - 1]), inputs[|inputs| - 1])
  }

  /** Every state of a run satisfies the invariant, jumps included. */
  lemma {:induction false} RunKeepsInvariant(w: World, inputs: seq<Input>)
    requires Invariant(w)
    ensures Invariant(Run(w, inputs))
    decreases |inputs|
  {
    if inputs != [] {
      var before := Run(w, inputs[..|inputs| - 1]);
      RunKeepsInvariant(w, inputs[..|inputs| - 1]);
      if inputs[|inputs| - 1].Frame? {
        var f := inputs[|inputs| - 1];
        StepKeepsInvariant(before, f.width, f.height, f.r);
      }
    }
  }

  /** Over a run the score never decreases: a later state never has a smaller score. */
  lemma RunScoreNeverDecreases(w: World, inputs: seq<Input>, i: nat, j: nat)
    requires i <= j <= |inputs|
    ensures Run(w, inputs[..i]).score <= Run(w, inputs[..j]).score
  {
    var scores := seq(|inputs| + 1, k requires 0 <= k <= |inputs| => Run(w, inputs[..k]).score);
    forall k | 0 < k < |scores| ensures scores[k - 1] <= scores[k] {
      NextInputKeepsScore(w, inputs, k);
    }
    Ascending(scores, i, j);
  }

  /** In a sequence that never steps down, a later entry is never smaller. */
  lemma {:induction false} Ascending(s: seq<nat>, i: nat, j: nat)
    requires forall k :: 0 < k < |s| ==> s[k - 1] <= s[k]
    requires i <= j < |s|
    ensures s[i] <= s[j]
    decreases j
  {
    if i < j {
      Ascending(s, i, j - 1);
    }
  }

  /** The j-th input of a run does not lower the score. */
  lemma NextInputKeepsScore(w: World, inputs: seq<Input>, j: nat)
    requires 0 < j <= |inputs|
    ensures Run(w, inputs[..j - 1]).score <= Run(w, inputs[..j]).score
  {
    assert inputs[..j][..j - 1] == inputs[..j - 1];
    ApplyKeepsScore(Run(w, inputs[..j - 1]), inputs[j - 1]);
  }

  /** No input lowers the score: a frame only adds to it and a jump leaves it alone. */
  lemma ApplyKeepsScore(w: World, input: Input)
    ensures Apply(w, input).score >= w.score
  {
    if input.Frame? {
      TickScores(w.pipes, input.width, input.height, input.r, Speed(w.score), Fall(w.ship).y, w.score);
    }
  }

  /**
   * The score counts every pipe passed so far: if it exceeds the passed pipes
   * on the field by `cleared`, after a tick it exceeds them by `cleared` plus
   * the number of pipes the tick dropped.
   */
  lemma StepTallies(w: World, width: real, height: real, r: real, cleared: nat)
    requires w.score == cleared + PassedCount(w.pipes)
    ensures var out := Step(w, width, height, r).world;
      var swept := Sweep(Spawn(w.pipes, width, height, r), Speed(w.score), Fall(w.ship).y, height, w.score);
      && |out.pipes| <= |swept.pipes|
      && out.score == cleared + (|swept.pipes| - |out.pipes|) + PassedCount(out.pipes)
  {
    var spawned := Spawn(w.pipes, width, height, r);
    SpawnAppendsAtMostOne(w.pipes, width, height, r);
    SweepMovesEachPipe(spawned, Speed(w.score), Fall(w.ship).y, height, w.score);
    TickScores(w.pipes, width, height, r, Speed(w.score), Fall(w.ship).y, w.score);
  }

  /** Without a jump, n frames move the ship exactly as n gravity steps. */
  lemma {:induction false} RunWithoutJumps(w: World, inputs: seq<Input>)
    requires forall k :: 0 <= k < |inputs| ==> inputs[k].Frame?
    ensures Run(w, inputs).ship == FallN(w.ship, |inputs|)
    decreases |inputs|
  {
    if inputs != [] {
      RunWithoutJumps(w, inputs[..|inputs| - 1]);
    }
  }

  /**
   * Ten frames from rest without a jump: the velocity is 3.0 and the ship is
   * 16.5 pixels lower (400 to 416.5 on an 800-pixel-high canvas).
   */
  lemma TenFramesFromRest(y: real, inputs: seq<Input>)
    requires |inputs| == 10
    requires forall k :: 0 <= k < |inputs| ==> inputs[k].Frame?
    ensures Run(World(Ship(y, 0.0, 0.0), [], 0), inputs).ship.velocity == 3.0
    ensures Run(World(Ship(y, 0.0, 0.0), [], 0), inputs).ship.y == y + 16.5
  {
    RunWithoutJumps(World(Ship(y, 0.0, 0.0), [], 0), inputs);
    TenTicksFromRest(y);
  }

  /** A jump overrides any velocity with JUMP_STRENGTH and touches nothing else. */
  lemma PressSetsJumpVelocity(w: World)
    ensures Apply(w, Press).ship.velocity == JUMP_STRENGTH
    ensures Apply(w, Press).ship.y == w.ship.y && Apply(w, Press).pipes == w.pipes
    ensures Apply(w, Press).score == w.score
  {
  }
}
