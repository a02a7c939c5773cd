// The pipe field of the running tick: spawning at the right edge
// (components/GameCanvas.tsx:156-167), the per-pipe scroll, score and hit
// loop (:170-194) and dropping the front pipe (:196-199).
module Field {
  import opened Constants
  import opened Types
  import opened Collision

  // ---------------------------------------------------------------- spawning

  /** A pipe is due when there is none, or the last one is PIPE_SPACING left of the right edge. */
  predicate NeedsPipe(pipes: seq<Pipe>, width: real)
  {
    |pipes| == 0 || pipes[|pipes| - 1].x < width - PIPE_SPACING
  }

  /** The gap's top edge for the random draw r in [0, 1). */
  function GapTop(height: real, r: real): real
  {
    GAP_MARGIN + r * (height - PIPE_GAP - GAP_MARGIN * 2.0)
  }

  /**
   * On a canvas tall enough for both margins the gap keeps GAP_MARGIN clear
   * above and below it (strictly below unless the canvas is exactly that
   * tall); on a shorter canvas the draw lands between height - 330 and 150,
   * so the gap can reach past the bottom margin.
   */
  lemma GapTopRange(height: real, r: real)
    requires 0.0 <= r < 1.0
    ensures height >= PIPE_GAP + 2.0 * GAP_MARGIN
        ==> GAP_MARGIN <= GapTop(height, r) <= height - PIPE_GAP - GAP_MARGIN
    ensures height > PIPE_GAP + 2.0 * GAP_MARGIN
        ==> GapTop(height, r) < height - PIPE_GAP - GAP_MARGIN
    ensures height < PIPE_GAP + 2.0 * GAP_MARGIN
        ==> height - PIPE_GAP - GAP_MARGIN < GapTop(height, r) <= GAP_MARGIN
  {
    var span := height - PIPE_GAP - GAP_MARGIN * 2.0;
    if span >= 0.0 {
      var t := Portion(r, span);
      assert GapTop(height, r) == GAP_MARGIN + t;
    } else {
      var t := Portion(r, -span);
      assert GapTop(height, r) == GAP_MARGIN - t;
    }
  }

  /** The share r of a non-negative span: between 0 and span, below span unless span is 0. */
  lemma Portion(r: real, span: real) returns (t: real)
    requires 0.0 <= r < 1.0 && span >= 0.0
    ensures t == r * span && 0.0 <= t <= span && (span > 0.0 ==> t < span)
  {
    t := r * span;
    assert span - t == (1.0 - r) * span;
    assert 0.0 <= r * span;
    assert 0.0 <= (1.0 - r) * span;
    if span > 0.0 {
      assert 0.0 < (1.0 - r) * span;
    }
  }

  /** The pipe pushed at the right edge. */
  function NewPipe(width: real, height: real, r: real): Pipe
  {
    Pipe(x := width, y := 0.0, width := PIPE_WIDTH, height := height, passed := false,
         gapTop := GapTop(height, r))
  }

  /** The field after the spawn step of a tick. */
  function Spawn(pipes: seq<Pipe>, width: real, height: real, r: real): seq<Pipe>
  {
    if NeedsPipe(pipes, width) then pipes + [NewPipe(width, height, r)] else pipes
  }

  /**
   * The spawn step appends at most one pipe, exactly when one is due; the new
   * pipe sits at the right edge, unscored, PIPE_WIDTH wide.
   */
  lemma SpawnAppendsAtMostOne(pipes: seq<Pipe>, width: real, height: real, r: real)
    ensures var ps := Spawn(pipes, width, height, r);
      && ps[..|pipes|] == pipes
      && |ps| == |pipes| + (if NeedsPipe(pipes, width) then 1 else 0)
      && (NeedsPipe(pipes, width) ==>
            ps[|pipes|].x == width && ps[|pipes|].width == PIPE_WIDTH
            && !ps[|pipes|].passed && ps[|pipes|].gapTop == GapTop(height, r))
      && |ps| > 0
  {
  }

  // ------------------------------------------------------------ the pipe loop

  /** One pipe's move: left by speed, and scored once its right edge is left of the ship. */
  function Scroll(pipe: Pipe, speed: real): Pipe
  {
    var moved := pipe.(x := pipe.x - speed);
    if !moved.passed && moved.x + PIPE_WIDTH < SHIP_X then moved.(passed := true) else moved
  }

  /** What the loop has produced so far: the visited pipes, the score and the callbacks made. */
  datatype SweepState = SweepState(pipes: seq<Pipe>, score: nat, events: seq<Event>)

  /** One iteration of the loop: scroll, maybe score (and report it), then maybe report a hit. */
  function Visit(acc: SweepState, pipe: Pipe, speed: real, shipY: real, height: real): SweepState
  {
    var p := Scroll(pipe, speed);
    var scored := p.passed && !pipe.passed;
    var score := if scored then acc.score + 1 else acc.score;
    var updates := if scored then [ScoreUpdate(score)] else [];
    var overs := if Hit(shipY, height, p) then [GameOver(score)] else [];
    SweepState(acc.pipes + [p], score, acc.events + updates + overs)
  }

  /** The loop over the whole field, left to right, starting from score. */
  function Sweep(pipes: seq<Pipe>, speed: real, shipY: real, height: real, score: nat): SweepState
    decreases |pipes|
  {
    if pipes == [] then SweepState([], score, [])
    else Visit(Sweep(pipes[..|pipes| - 1], speed, shipY, height, score), pipes[|pipes| - 1],
               speed, shipY, height)
  }

  /** Sweeping one more pipe is one more Visit. */
  lemma SweepExtends(pipes: seq<Pipe>, i: nat, speed: real, shipY: real, height: real, score: nat)
    requires i < |pipes|
    ensures Sweep(pipes[..i + 1], speed, shipY, height, score)
            == Visit(Sweep(pipes[..i], speed, shipY, height, score), pipes[i], speed, shipY, height)
  {
    assert pipes[..i + 1][..i] == pipes[..i];
  }

  // ------------------------------------------------------------------ culling

  /** The front pipe is far enough left to be dropped. */
  predicate Culls(pipes: seq<Pipe>)
  {
    |pipes| > 0 && pipes[0].x < -PIPE_WIDTH - CULL_MARGIN
  }

  /** The front pipe is dropped once it is far enough left; at most one per tick. */
  function Cull(pipes: seq<Pipe>): seq<Pipe>
  {
    if Culls(pipes) then pipes[1..] else pipes
  }

  // ----------------------------------------------------------------- counting

  /** The number of pipes marked passed. */
  function PassedCount(pipes: seq<Pipe>): nat
    decreases |pipes|
  {
    if pipes == [] then 0
    else PassedCount(pipes[..|pipes| - 1]) + (if pipes[|pipes| - 1].passed then 1 else 0)
  }

  /** The number of pipes for which the tick reports a game-over. */
  function HitCount(pipes: seq<Pipe>, shipY: real, height: real): nat
    decreases |pipes|
  {
    if pipes == [] then 0
    else HitCount(pipes[..|pipes| - 1], shipY, height)
         + (if Hit(shipY, height, pipes[|pipes| - 1]) then 1 else 0)
  }

  /** The scores passed to onScoreUpdate, in order. */
  function ScoreUpdates(events: seq<Event>): seq<nat>
    decreases |events|
  {
    if events == [] then []
    else ScoreUpdates(events[..|events| - 1])
         + (if events[|events| - 1].ScoreUpdate? then [events[|events| - 1].score] else [])
  }

  /** The number of onGameOver calls. */
  function GameOverCount(events: seq<Event>): nat
    decreases |events|
  {
    if events == [] then 0
    else GameOverCount(events[..|events| - 1]) + (if events[|events| - 1].GameOver? then 1 else 0)
  }

  /** from + 1, from + 2, ..., from + n. */
  function Counting(from: nat, n: nat): seq<nat>
  {
    if n == 0 then [] else Counting(from, n - 1) + [from + n]
  }

  lemma {:induction false} PassedCountAppend(a: seq<Pipe>, b: seq<Pipe>)
    ensures PassedCount(a + b) == PassedCount(a) + PassedCount(b)
    decreases |b|
  {
    if b == [] {
      assert a + b == a;
    } else {
      var ab := a + b;
      assert ab[..|ab| - 1] == a + b[..|b| - 1];
      assert ab[|ab| - 1] == b[|b| - 1];
      PassedCountAppend(a, b[..|b| - 1]);
    }
  }

  lemma {:induction false} EventsAppend(a: seq<Event>, b: seq<Event>)
    ensures ScoreUpdates(a + b) == ScoreUpdates(a) + ScoreUpdates(b)
    ensures GameOverCount(a + b) == GameOverCount(a) + GameOverCount(b)
    decreases |b|
  {
    if b == [] {
      assert a + b == a;
    } else {
      var ab := a + b;
      assert ab[..|ab| - 1] == a + b[..|b| - 1];
      assert ab[|ab| - 1] == b[|b| - 1];
      EventsAppend(a, b[..|b| - 1]);
    }
  }

  /**
   * The hit count is positive exactly when some pipe is hit, equals the
   * number of pipes when all are hit, and never exceeds the number of pipes.
   */
  lemma {:induction false} HitCountFacts(pipes: seq<Pipe>, shipY: real, height: real)
    ensures HitCount(pipes, shipY, height) > 0
        <==> exists k :: 0 <= k < |pipes| && Hit(shipY, height, pipes[k])
    ensures OutOfBounds(shipY, height) ==> HitCount(pipes, shipY, height) == |pipes|
    ensures HitCount(pipes, shipY, height) <= |pipes|
    decreases |pipes|
  {
    if pipes != [] {
      var init := pipes[..|pipes| - 1];
      HitCountFacts(init, shipY, height);
      if exists k :: 0 <= k < |init| && Hit(shipY, height, init[k]) {
        var k :| 0 <= k < |init| && Hit(shipY, height, init[k]);
        assert pipes[k] == init[k];
      }
      if exists k :: 0 <= k < |pipes| && Hit(shipY, height, pipes[k]) {
        var k :| 0 <= k < |pipes| && Hit(shipY, height, pipes[k]);
        if k < |init| { assert init[k] == pipes[k]; }
      }
    }
  }

  // ------------------------------------------------------ what the loop does

  /**
   * The loop visits every pipe once and keeps their order: each moves left by
   * exactly speed and keeps its shape; its flag is set iff it was set or the
   * moved pipe's right edge is left of the ship, so a flag never goes back to false.
   */
  lemma {:induction false} SweepMovesEachPipe(pipes: seq<Pipe>, speed: real, shipY: real, height: real, score: nat)
    ensures var out := Sweep(pipes, speed, shipY, height, score).pipes;
      && |out| == |pipes|
      && forall k :: 0 <= k < |pipes| ==>
           && out[k].x == pipes[k].x - speed
           && out[k].y == pipes[k].y && out[k].width == pipes[k].width
           && out[k].height == pipes[k].height && out[k].gapTop == pipes[k].gapTop
           && out[k].passed == (pipes[k].passed || out[k].x + PIPE_WIDTH < SHIP_X)
    decreases |pipes|
  {
    if pipes != [] {
      SweepMovesEachPipe(pipes[..|pipes| - 1], speed, shipY, height, score);
    }
  }

  /**
   * Each flag that goes from false to true raises the score by exactly one and
   * makes one onScoreUpdate call with the new score; nothing else changes the score.
   */
  lemma {:induction false} SweepScores(pipes: seq<Pipe>, speed: real, shipY: real, height: real, score: nat)
    ensures var s := Sweep(pipes, speed, shipY, height, score);
      && PassedCount(pipes) <= PassedCount(s.pipes)
      && s.score == score + PassedCount(s.pipes) - PassedCount(pipes)
      && ScoreUpdates(s.events) == Counting(score, s.score - score)
    decreases |pipes|
  {
    if pipes != [] {
      var init := pipes[..|pipes| - 1];
      var last := pipes[|pipes| - 1];
      var acc := Sweep(init, speed, shipY, height, score);
      SweepScores(init, speed, shipY, height, score);
      VisitScores(acc, last, speed, shipY, height);
      var s := Visit(acc, last, speed, shipY, height);
      assert Sweep(pipes, speed, shipY, height, score) == s;
      var flag := s.pipes[|s.pipes| - 1].passed;
      assert PassedCount(pipes) == PassedCount(init) + (if last.passed then 1 else 0);
      assert PassedCount(s.pipes) == PassedCount(acc.pipes) + (if flag then 1 else 0);
      if flag && !last.passed {
        assert Counting(score, s.score - score) == Counting(score, acc.score - score) + [s.score];
      }
    }
  }

  /** One iteration's share of SweepScores. */
  lemma VisitScores(acc: SweepState, pipe: Pipe, speed: real, shipY: real, height: real)
    ensures var s := Visit(acc, pipe, speed, shipY, height);
      var gained := if s.pipes[|s.pipes| - 1].passed && !pipe.passed then 1 else 0;
      && s.pipes[..|s.pipes| - 1] == acc.pipes
      && (pipe.passed ==> s.pipes[|s.pipes| - 1].passed)
      && s.score == acc.score + gained
      && ScoreUpdates(s.events)
         == ScoreUpdates(acc.events) + (if gained == 1 then [s.score] else [])
  {
    var s := Visit(acc, pipe, speed, shipY, height);
    var p := Scroll(pipe, speed);
    var scored := p.passed && !pipe.passed;
    var updates := if scored then [ScoreUpdate(s.score)] else [];
    var overs := if Hit(shipY, height, p) then [GameOver(s.score)] else [];
    EventsAppend(acc.events, updates);
    EventsAppend(acc.events + updates, overs);
    assert ScoreUpdates(updates) == (if scored then [s.score] else []) by {
      if scored { assert updates[..0] == []; }
    }
    assert ScoreUpdates(overs) == [] by {
      if overs != [] { assert overs[..0] == []; }
    }
  }

  /** The loop calls onGameOver once for every pipe it finds a hit on, and no more. */
  lemma {:induction false} SweepReportsHits(pipes: seq<Pipe>, speed: real, shipY: real, height: real, score: nat)
    ensures var s := Sweep(pipes, speed, shipY, height, score);
      GameOverCount(s.events) == HitCount(s.pipes, shipY, height)
    decreases |pipes|
  {
    if pipes != [] {
      var init := pipes[..|pipes| - 1];
      var last := pipes[|pipes| - 1];
      var acc := Sweep(init, speed, shipY, height, score);
      SweepReportsHits(init, speed, shipY, height, score);
      var s := Visit(acc, last, speed, shipY, height);
      var p := Scroll(last, speed);
      assert s.pipes[..|s.pipes| - 1] == acc.pipes;
      var scored := p.passed && !last.passed;
      var updates := if scored then [ScoreUpdate(s.score)] else [];
      var overs := if Hit(shipY, height, p) then [GameOver(s.score)] else [];
      EventsAppend(acc.events, updates);
      EventsAppend(acc.events + updates, overs);
      assert GameOverCount(updates) == 0 by {
        if updates != [] { assert updates[..0] == []; }
      }
      assert GameOverCount(overs) == (if Hit(shipY, height, p) then 1 else 0) by {
        if overs != [] { assert overs[..0] == []; }
      }
    }
  }

  /** The loop's hit test on a visited pipe is the hit test on the pipe moved by speed. */
  lemma SweptHits(pipes: seq<Pipe>, speed: real, shipY: real, height: real, score: nat)
    ensures var out := Sweep(pipes, speed, shipY, height, score).pipes;
      && |out| == |pipes|
      && forall k :: 0 <= k < |pipes| ==>
           (Hit(shipY, height, out[k])
            <==> OutOfBounds(shipY, height) || Colliding(shipY, pipes[k].(x := pipes[k].x - speed)))
  {
    SweepMovesEachPipe(pipes, speed, shipY, height, score);
  }

  /**
   * The loop reports a game-over iff the ship is out of bounds or some moved
   * pipe collides; out of bounds, once per pipe; never more than once per pipe.
   */
  lemma SweepGameOver(pipes: seq<Pipe>, speed: real, shipY: real, height: real, score: nat)
    requires |pipes| > 0
    ensures var n := GameOverCount(Sweep(pipes, speed, shipY, height, score).events);
      && (n > 0 <==> OutOfBounds(shipY, height)
                     || exists k :: 0 <= k < |pipes| && Colliding(shipY, pipes[k].(x := pipes[k].x - speed)))
      && (OutOfBounds(shipY, height) ==> n == |pipes|)
      && n <= |pipes|
    ensures var s := Sweep(pipes, speed, shipY, height, score);
      && (forall e | e in s.events && e.GameOver? :: score <= e.score <= s.score)
      && (OutOfBounds(shipY, height) ==> s.events[|s.events| - 1] == GameOver(s.score))
  {
    var swept := Sweep(pipes, speed, shipY, height, score).pipes;
    SweepGameOverScores(pipes, speed, shipY, height, score);
    SweepReportsHits(pipes, speed, shipY, height, score);
    HitCountFacts(swept, shipY, height);
    SweptHits(pipes, speed, shipY, height, score);
    if OutOfBounds(shipY, height) {
      assert Hit(shipY, height, swept[0]);
    } else if exists k :: 0 <= k < |pipes| && Colliding(shipY, pipes[k].(x := pipes[k].x - speed)) {
      var k :| 0 <= k < |pipes| && Colliding(shipY, pipes[k].(x := pipes[k].x - speed));
      assert Hit(shipY, height, swept[k]);
    }
  }

  /**
   * onGameOver carries the score accumulated so far: never less than the
   * score before the loop nor more than after it, and when the last pipe is
   * hit, the last call carries the final score, its own point included.
   */
  lemma {:induction false} SweepGameOverScores(pipes: seq<Pipe>, speed: real, shipY: real, height: real, score: nat)
    ensures var s := Sweep(pipes, speed, shipY, height, score);
      && score <= s.score
      && (forall e | e in s.events && e.GameOver? :: score <= e.score <= s.score)
      && (|pipes| > 0 && Hit(shipY, height, s.pipes[|s.pipes| - 1]) ==>
            |s.events| > 0 && s.events[|s.events| - 1] == GameOver(s.score))
    decreases |pipes|
  {
    if pipes != [] {
      var init := pipes[..|pipes| - 1];
      var acc := Sweep(init, speed, shipY, height, score);
      SweepGameOverScores(init, speed, shipY, height, score);
      var s := Visit(acc, pipes[|pipes| - 1], speed, shipY, height);
      assert Sweep(pipes, speed, shipY, height, score) == s;
      assert acc.score <= s.score;
      forall e | e in s.events && e.GameOver? ensures score <= e.score <= s.score {
        if e !in acc.events {
          assert e.score == s.score;
        }
      }
    }
  }

  // ---------------------------------------------------------- the invariant

  /** Pipes are ordered left to right, each more than PIPE_SPACING right of every earlier one. */
  predicate Spaced(pipes: seq<Pipe>)
  {
    forall i, j :: 0 <= i < j < |pipes| ==> pipes[i].x + PIPE_SPACING < pipes[j].x
  }

  /**
   * What holds of the field between ticks: it is spaced, every pipe is
   * PIPE_WIDTH wide, and a pipe is marked passed iff its right edge is left of the ship.
   */
  predicate FieldInvariant(pipes: seq<Pipe>)
  {
    && Spaced(pipes)
    && forall k :: 0 <= k < |pipes| ==>
         pipes[k].width == PIPE_WIDTH && (pipes[k].passed <==> pipes[k].x + PIPE_WIDTH < SHIP_X)
  }

  /** Spacing implies strictly ascending x. */
  lemma SpacedIsSorted(pipes: seq<Pipe>)
    requires Spaced(pipes)
    ensures forall i, j :: 0 <= i < j < |pipes| ==> pipes[i].x < pipes[j].x
  {
  }

  /**
   * What holds of the field between the spawn and the loop: it is spaced,
   * every pipe is PIPE_WIDTH wide, and a pipe marked passed is left of the ship.
   */
  predicate Staged(pipes: seq<Pipe>)
  {
    && Spaced(pipes)
    && forall k :: 0 <= k < |pipes| ==>
         pipes[k].width == PIPE_WIDTH && (pipes[k].passed ==> pipes[k].x + PIPE_WIDTH < SHIP_X)
  }

  /** The spawned pipe is more than PIPE_SPACING right of every pipe already on the field. */
  lemma SpawnKeepsSpacing(pipes: seq<Pipe>, width: real, height: real, r: real)
    requires FieldInvariant(pipes)
    ensures Staged(Spawn(pipes, width, height, r))
  {
    var spawned := Spawn(pipes, width, height, r);
    SpawnAppendsAtMostOne(pipes, width, height, r);
    if NeedsPipe(pipes, width) && |pipes| > 0 {
      forall i, j | 0 <= i < j < |spawned|
        ensures spawned[i].x + PIPE_SPACING < spawned[j].x
      {
        if j == |pipes| && i < |pipes| - 1 {
          assert pipes[i].x + PIPE_SPACING < pipes[|pipes| - 1].x;
        }
      }
    }
    forall k | 0 <= k < |spawned|
      ensures spawned[k].width == PIPE_WIDTH
      ensures spawned[k].passed ==> spawned[k].x + PIPE_WIDTH < SHIP_X
    {
      if k < |pipes| {
        assert spawned[k] == pipes[k];
      }
    }
  }

  /** Moving every pipe left by the same positive speed settles each flag to its position. */
  lemma SweepSettlesFlags(pipes: seq<Pipe>, speed: real, shipY: real, height: real, score: nat)
    requires Staged(pipes)
    requires speed > 0.0
    ensures FieldInvariant(Sweep(pipes, speed, shipY, height, score).pipes)
  {
    var swept := Sweep(pipes, speed, shipY, height, score).pipes;
    SweepMovesEachPipe(pipes, speed, shipY, height, score);
    forall i, j | 0 <= i < j < |swept|
      ensures swept[i].x + PIPE_SPACING < swept[j].x
    {
      assert pipes[i].x + PIPE_SPACING < pipes[j].x;
    }
  }

  /** Dropping the front pipe keeps the field invariant. */
  lemma CullKeepsField(pipes: seq<Pipe>)
    requires FieldInvariant(pipes)
    ensures FieldInvariant(Cull(pipes))
  {
  }

  /**
   * One tick's spawn, sweep and cull keep the field invariant, provided the
   * pipes move left (speed > 0).
   */
  lemma TickKeepsField(pipes: seq<Pipe>, width: real, height: real, r: real,
                       speed: real, shipY: real, score: nat)
    requires FieldInvariant(pipes)
    requires speed > 0.0
    ensures FieldInvariant(Cull(Sweep(Spawn(pipes, width, height, r), speed, shipY, height, score).pipes))
  {
    var spawned := Spawn(pipes, width, height, r);
    SpawnKeepsSpacing(pipes, width, height, r);
    SweepSettlesFlags(spawned, speed, shipY, height, score);
    CullKeepsField(Sweep(spawned, speed, shipY, height, score).pipes);
  }

  /**
   * `out` is the field `pipes` one tick on, when `added` pipes were spawned
   * at x = width with the given gap: at most one pipe is dropped, and only
   * once it is past the cull line; every other pipe moves left by speed and
   * keeps its gap; a pipe spawned this tick ends at width - speed.
   */
  predicate Shifted(pipes: seq<Pipe>, out: seq<Pipe>, added: nat, speed: real, width: real, gapTop: real)
  {
    var dropped := |pipes| + added - |out|;
    && 0 <= dropped <= 1
    && (forall k :: 0 <= k < |out| && k + dropped < |pipes| ==>
          out[k].x == pipes[k + dropped].x - speed
          && out[k].gapTop == pipes[k + dropped].gapTop)
    && (added == 1 && |out| > 0 ==>
          out[|out| - 1].x == width - speed && out[|out| - 1].gapTop == gapTop
          && out[|out| - 1].width == PIPE_WIDTH)
    && (dropped == 1 ==>
          (if |pipes| > 0 then pipes[0].x else width) - speed < -PIPE_WIDTH - CULL_MARGIN)
  }

  /** Where one tick (spawn, pipe loop, cull) puts the pipes. */
  lemma TickMovesPipes(pipes: seq<Pipe>, width: real, height: real, r: real,
                       speed: real, shipY: real, score: nat)
    ensures Shifted(pipes, Cull(Sweep(Spawn(pipes, width, height, r), speed, shipY, height, score).pipes),
                    if NeedsPipe(pipes, width) then 1 else 0, speed, width, GapTop(height, r))
  {
    var spawned := Spawn(pipes, width, height, r);
    var swept := Sweep(spawned, speed, shipY, height, score).pipes;
    SpawnAppendsAtMostOne(pipes, width, height, r);
    SweepThenCullMoves(spawned, speed, shipY, height, score);
    ShiftedAfterSpawn(pipes, spawned, Cull(swept), if NeedsPipe(pipes, width) then 1 else 0,
                      Culls(swept), speed, width, GapTop(height, r));
  }

  /** `after` is `before` moved left by speed, with its gap and width kept. */
  predicate Moved(before: Pipe, after: Pipe, speed: real)
  {
    after.x == before.x - speed && after.gapTop == before.gapTop && after.width == before.width
  }

  /**
   * The loop and the cull on any field: the front pipe is dropped iff the
   * moved front pipe is past the cull line; every other pipe moves left by
   * speed and keeps its gap and width.
   */
  lemma SweepThenCullMoves(pipes: seq<Pipe>, speed: real, shipY: real, height: real, score: nat)
    ensures var swept := Sweep(pipes, speed, shipY, height, score).pipes;
      var out := Cull(swept);
      && (Culls(swept) ==>
            && |out| + 1 == |pipes| && pipes[0].x - speed < -PIPE_WIDTH - CULL_MARGIN
            && forall k :: 0 <= k < |out| ==> Moved(pipes[k + 1], out[k], speed))
      && (!Culls(swept) ==>
            && |out| == |pipes|
            && forall k :: 0 <= k < |out| ==> Moved(pipes[k], out[k], speed))
  {
    SweepMovesEachPipe(pipes, speed, shipY, height, score);
    CullMoves(pipes, Sweep(pipes, speed, shipY, height, score).pipes, speed);
  }

  /** SweepThenCullMoves for any `swept` that moves each pipe of `pipes` by speed. */
  lemma CullMoves(pipes: seq<Pipe>, swept: seq<Pipe>, speed: real)
    requires |swept| == |pipes|
    requires forall k :: 0 <= k < |pipes| ==> Moved(pipes[k], swept[k], speed)
    ensures var out := Cull(swept);
      && (Culls(swept) ==>
            && |out| + 1 == |pipes| && pipes[0].x - speed < -PIPE_WIDTH - CULL_MARGIN
            && forall k :: 0 <= k < |out| ==> Moved(pipes[k + 1], out[k], speed))
      && (!Culls(swept) ==>
            && |out| == |pipes|
            && forall k :: 0 <= k < |out| ==> Moved(pipes[k], out[k], speed))
  {
    var out := Cull(swept);
    if Culls(swept) {
      assert out == swept[1..];
      forall k | 0 <= k < |out| ensures Moved(pipes[k + 1], out[k], speed) {
        assert out[k] == swept[k + 1];
      }
    }
  }

  /** `spawned` is `pipes` with `added` (at most one) fresh pipes at x = width appended. */
  predicate Appended(pipes: seq<Pipe>, spawned: seq<Pipe>, added: nat, width: real, gapTop: real)
  {
    && added <= 1 && |spawned| == |pipes| + added && spawned[..|pipes|] == pipes
    && (added == 1 ==> spawned[|pipes|].x == width && spawned[|pipes|].gapTop == gapTop
                       && spawned[|pipes|].width == PIPE_WIDTH)
    && (|pipes| == 0 ==> added == 1)
  }

  /**
   * TickMovesPipes on plain sequences: `spawned` is `pipes` after the spawn,
   * and `out` is `spawned` moved by speed, without its front pipe when `culled`.
   */
  lemma ShiftedAfterSpawn(pipes: seq<Pipe>, spawned: seq<Pipe>, out: seq<Pipe>,
                          added: nat, culled: bool, speed: real, width: real, gapTop: real)
    requires Appended(pipes, spawned, added, width, gapTop)
    requires culled ==>
      && |out| + 1 == |spawned| && spawned[0].x - speed < -PIPE_WIDTH - CULL_MARGIN
      && forall k :: 0 <= k < |out| ==> Moved(spawned[k + 1], out[k], speed)
    requires !culled ==>
      && |out| == |spawned|
      && forall k :: 0 <= k < |out| ==> Moved(spawned[k], out[k], speed)
    ensures Shifted(pipes, out, added, speed, width, gapTop)
  {
    if culled {
      ShiftedCulled(pipes, spawned, out, added, speed, width, gapTop);
    } else {
      ShiftedKept(pipes, spawned, out, added, speed, width, gapTop);
    }
  }

  /** ShiftedAfterSpawn when the front pipe was dropped. */
  lemma ShiftedCulled(pipes: seq<Pipe>, spawned: seq<Pipe>, out: seq<Pipe>,
                      added: nat, speed: real, width: real, gapTop: real)
    requires Appended(pipes, spawned, added, width, gapTop)
    requires |out| + 1 == |spawned| && spawned[0].x - speed < -PIPE_WIDTH - CULL_MARGIN
    requires forall k :: 0 <= k < |out| ==> Moved(spawned[k + 1], out[k], speed)
    ensures Shifted(pipes, out, added, speed, width, gapTop)
  {
    var n := |pipes|;
    assert |pipes| + added - |out| == 1;
    forall k | 0 <= k < |out| && k + 1 < n
      ensures out[k].x == pipes[k + 1].x - speed && out[k].gapTop == pipes[k + 1].gapTop
    {
      assert Moved(spawned[k + 1], out[k], speed);
      assert spawned[..n][k + 1] == pipes[k + 1];
    }
    if n > 0 {
      assert spawned[..n][0] == pipes[0];
    }
    if added == 1 && |out| > 0 {
      var last := |out| - 1;
      assert last + 1 == n;
      assert Moved(spawned[last + 1], out[last], speed);
    }
  }

  /** ShiftedAfterSpawn when no pipe was dropped. */
  lemma ShiftedKept(pipes: seq<Pipe>, spawned: seq<Pipe>, out: seq<Pipe>,
                    added: nat, speed: real, width: real, gapTop: real)
    requires Appended(pipes, spawned, added, width, gapTop)
    requires |out| == |spawned|
    requires forall k :: 0 <= k < |out| ==> Moved(spawned[k], out[k], speed)
    ensures Shifted(pipes, out, added, speed, width, gapTop)
  {
    var n := |pipes|;
    assert |pipes| + added - |out| == 0;
    forall k | 0 <= k < |out| && k < n
      ensures out[k].x == pipes[k].x - speed && out[k].gapTop == pipes[k].gapTop
    {
      assert Moved(spawned[k], out[k], speed);
      assert spawned[..n][k] == pipes[k];
    }
    if added == 1 && |out| > 0 {
      assert |out| - 1 == n;
      assert Moved(spawned[n], out[n], speed);
    }
  }

  // ------------------------------------------------------------ the score

  /** The spawned pipe is unscored, so spawning leaves the passed count alone. */
  lemma SpawnKeepsPassedCount(pipes: seq<Pipe>, width: real, height: real, r: real)
    ensures PassedCount(Spawn(pipes, width, height, r)) == PassedCount(pipes)
  {
    if NeedsPipe(pipes, width) {
      PassedCountAppend(pipes, [NewPipe(width, height, r)]);
      assert [NewPipe(width, height, r)][..0] == [];
    }
  }

  /** A dropped front pipe, if scored, takes exactly one off the passed count. */
  lemma CullPassedCount(pipes: seq<Pipe>)
    requires Culls(pipes) ==> pipes[0].passed
    ensures PassedCount(pipes) == PassedCount(Cull(pipes)) + (|pipes| - |Cull(pipes)|)
  {
    if Culls(pipes) {
      assert [pipes[0]] + pipes[1..] == pipes;
      PassedCountAppend([pipes[0]], pipes[1..]);
      assert [pipes[0]][..0] == [];
    }
  }

  /**
   * Scoring across a tick: the score never falls; it rises by one for each
   * pipe whose flag went from false to true, each rise made known by one
   * onScoreUpdate call with the new score; and the one pipe a tick can drop
   * had been scored, so score minus scored pipes on the field grows only by drops.
   */
  lemma TickScores(pipes: seq<Pipe>, width: real, height: real, r: real,
                   speed: real, shipY: real, score: nat)
    ensures var s := Sweep(Spawn(pipes, width, height, r), speed, shipY, height, score);
      var out := Cull(s.pipes);
      var added := if NeedsPipe(pipes, width) then 1 else 0;
      var dropped := |pipes| + added - |out|;
      && s.score >= score
      && s.score + PassedCount(pipes) == score + PassedCount(out) + dropped
      && ScoreUpdates(s.events) == Counting(score, s.score - score)
  {
    SpawnAppendsAtMostOne(pipes, width, height, r);
    SpawnKeepsPassedCount(pipes, width, height, r);
    SweepThenCullScores(Spawn(pipes, width, height, r), speed, shipY, height, score);
  }

  /**
   * The loop and the cull on any field: the score never falls, rises by the
   * flags newly set, is reported step by step, and every culled pipe had been scored.
   */
  lemma SweepThenCullScores(pipes: seq<Pipe>, speed: real, shipY: real, height: real, score: nat)
    ensures var s := Sweep(pipes, speed, shipY, height, score);
      var out := Cull(s.pipes);
      && s.score >= score
      && s.score + PassedCount(pipes) == score + PassedCount(out) + (|pipes| - |out|)
      && ScoreUpdates(s.events) == Counting(score, s.score - score)
  {
    var s := Sweep(pipes, speed, shipY, height, score);
    SweepMovesEachPipe(pipes, speed, shipY, height, score);
    SweepScores(pipes, speed, shipY, height, score);
    if Culls(s.pipes) {
      assert s.pipes[0].passed;
    }
    CullPassedCount(s.pipes);
  }
}
