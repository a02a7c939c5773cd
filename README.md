# Space-bird game simulation in Dafny

This project models the game logic of Space-bird, a browser game in the style of
Flappy Bird. A ship falls under gravity and jumps on a key press. It flies
through gaps in pipes that scroll in from the right. Each pipe it passes scores
a point, every five points the pipes scroll faster, and hitting a pipe or
leaving the screen ends the game.

All of that logic lives in the `draw` loop and two callbacks of
`components/GameCanvas.tsx`. The model covers:

- the running tick: difficulty speed, gravity and tilt, pipe spawning, the
  per-pipe scroll, score and collision loop, and culling of the front pipe;
- `resetGame` and `jump`;
- the parallax stars' drift and wrap.

Constants and entity shapes come from `constants.ts` and `types.ts`.

The modules follow the source's structure:

- `Constants`, `Types`: the numbers of `constants.ts` and the literals written
  inline in the tick (ship x 100, padding 8, gap margin 150, boundary slack 50,
  cull margin 100, tilt gain 0.08, speed step 0.6, five points per level), and
  the records of `types.ts`.
- `Physics`: scroll speed, gravity, tilt and the jump impulse.
- `Collision`: the padded hit test and the boundary test, with a point-set
  reading of the hit test.
- `Field`: spawning, the pipe loop (`Sweep`, one `Visit` per pipe), culling,
  and what they keep invariant.
- `Stars`: one star's drift and wrap.
- `Simulation`: the whole tick as a function `Step` on a `World`. It also has
  runs of frames and jumps, and what holds across them.
- `Canvas`: the component's mutable state as a class `GameCanvas`. Its fields
  are the ship, pipe and score refs and the star array. Its methods perform
  the tick, reset, jump and star update in place. Each method is proved to
  produce the state that the functional model prescribes. The constructor
  establishes `Valid()` and `Reset`, `Jump`, `Tick` and `Frame` keep it;
  `AdvanceStars` touches only the star array, and the tick's inner steps
  (`SpawnPipe`, `ScrollPipes`, `CullFront`) do not promise it on their own.
  `Valid()` is the field invariant, the tilt within its clamp, and "the score
  equals the pipes scored so far, both on the field and already culled".

The callbacks `onScoreUpdate` and `onGameOver` are modelled as an ordered list
of `Event`s returned by each operation. `Math.random()` draws become
parameters: `r` for a new pipe's gap and `draws[k]` for a wrapped star `k`.
The component's `status` prop is a parameter too. Canvas sizes are parameters
of type `real`.

## Model

| member | source | states |
|---|---|---|
| Physics.Speed | components/GameCanvas.tsx:145-147 | the scroll speed is never below INITIAL_SPEED and equals it for scores below five |
| Physics.SpeedMonotone | components/GameCanvas.tsx:145-147 | a higher score never gives a slower scroll |
| Physics.SpeedNextLevel | components/GameCanvas.tsx:145-147 | five more points add exactly 0.6 to the speed |
| Physics.SpeedConstantOnLevel | components/GameCanvas.tsx:145-147 | the speed depends only on floor(score / 5) |
| Physics.SpeedLevels | components/GameCanvas.tsx:145-147 | concrete levels: 3.6 for scores 0-4, 4.2 for 5-9, 4.8 at 10 |
| Physics.Tilt | components/GameCanvas.tsx:153 | the rotation stays within plus or minus pi/4; it is velocity * 0.08 inside the clamp and the matching bound outside it |
| Physics.TiltMonotone | components/GameCanvas.tsx:153 | a faster fall never tilts the nose up more |
| Physics.Fall | components/GameCanvas.tsx:150-153 | definition: one tick of the ship, velocity + GRAVITY first, then y + the new velocity, then the clamped tilt of the new velocity |
| Physics.FallN | components/GameCanvas.tsx:150-153 | definition: n ticks of Fall, no jump in between |
| Physics.FallNVelocity | components/GameCanvas.tsx:150 | after n ticks without a jump the velocity has grown by exactly n * GRAVITY |
| Physics.TimesIsProduct | components/GameCanvas.tsx:150-151 | helper step of FallNClosedForm: adding the same amount n times adds n times that amount (the initial velocity's share of the drop) |
| Physics.FallNDisplacement | components/GameCanvas.tsx:150-151 | after n ticks the ship has moved by n * v0 plus GRAVITY * (1 + ... + n), as repeated additions |
| Physics.FallNClosedForm | components/GameCanvas.tsx:150-153 | closed form of the fall: after n ticks y is y0 + n * v0 + GRAVITY * n(n+1)/2, and the tilt follows the final velocity |
| Physics.TriangleClosed | components/GameCanvas.tsx:150-151 | helper step of FallNClosedForm: twice 1 + 2 + ... + n is n(n+1), the gravity share of the drop |
| Physics.TenTicksFromRest | components/GameCanvas.tsx:150-151 | ten ticks from rest give velocity 3.0 and a drop of 16.5 |
| Physics.Impulse | components/GameCanvas.tsx:65 | a jump sets the velocity to JUMP_STRENGTH and leaves position and tilt alone |
| Collision.Colliding | components/GameCanvas.tsx:181-189 | definition: the padded box (x 100, padding 8) overlaps the pipe horizontally and reaches above the gap top or below the gap bottom |
| Collision.OutOfBounds | components/GameCanvas.tsx:191 | definition: the ship is more than 50 above the top or its bottom more than 50 below the canvas |
| Collision.Hit | components/GameCanvas.tsx:191 | definition: the condition under which one iteration calls onGameOver, a collision or out of bounds |
| Collision.CollidingIffOverlap | components/GameCanvas.tsx:181-189 | the hit test fires iff some point is inside both the padded ship box and the pipe's solid part, above or below the gap |
| Collision.InsideGapIsSafe | components/GameCanvas.tsx:185-189 | a padded box that fits inside the gap never collides |
| Collision.ClearColumnIsSafe | components/GameCanvas.tsx:185-189 | a pipe column clear of the padded box horizontally never collides |
| Field.NeedsPipe | components/GameCanvas.tsx:156 | definition: a pipe is due when the field is empty or its last pipe is more than PIPE_SPACING left of the right edge |
| Field.GapTop | components/GameCanvas.tsx:157-158 | definition: the gap top 150 + r * (height - PIPE_GAP - 300) for the draw r |
| Field.NewPipe | components/GameCanvas.tsx:159-166 | definition: the pushed pipe, at x = width, y 0, PIPE_WIDTH wide, canvas high, unscored, with the drawn gap top |
| Field.Spawn | components/GameCanvas.tsx:156-167 | definition: the field with NewPipe appended when NeedsPipe, otherwise unchanged |
| Field.GapTopRange | components/GameCanvas.tsx:157-158 | on a canvas at least 480 high the gap keeps 150 clear above and below; on a shorter one the gap's top lies in (height - 330, 150] |
| Field.SpawnAppendsAtMostOne | components/GameCanvas.tsx:156-167 | spawning keeps the field as a prefix and appends one unscored pipe, PIPE_WIDTH wide at the right edge, exactly when the field is empty or the last pipe is more than 300 left of the edge |
| Field.Scroll | components/GameCanvas.tsx:171-175 | definition: the pipe moved left by speed, with its flag set when it was set or its right edge is now left of x = 100 |
| Field.Visit | components/GameCanvas.tsx:170-193 | definition: one forEach iteration: Scroll the pipe, add one to the score and report it when the flag was just set, then report onGameOver with the current score on a Hit |
| Field.Sweep | components/GameCanvas.tsx:170-194 | definition: the forEach over the field, Visit on each pipe from first to last, starting from the current score and no events |
| Field.Culls | components/GameCanvas.tsx:197 | definition: the field is non-empty and its front pipe is left of -PIPE_WIDTH - 100 |
| Field.Cull | components/GameCanvas.tsx:197-199 | definition: the field without its front pipe when Culls, otherwise unchanged |
| Field.FieldInvariant | components/GameCanvas.tsx:156-178 | definition: pipes more than PIPE_SPACING apart in order, all PIPE_WIDTH wide, each flagged iff its right edge is left of the ship |
| Field.PassedCountAppend | components/GameCanvas.tsx:174-176 | the number of scored pipes of two joined fields is the sum of theirs |
| Field.EventsAppend | components/GameCanvas.tsx:177 | the score reports and game-over reports of joined event lists are those of the parts, joined |
| Field.HitCountFacts | components/GameCanvas.tsx:191-193 | the number of game-over reports is positive iff some pipe is hit, equals the field size when the ship is out of bounds, and never exceeds the field size |
| Field.SweepMovesEachPipe | components/GameCanvas.tsx:170-178 | the loop keeps the length and order of the field; each pipe moves left by exactly speed and keeps its shape; its flag is set iff it was set or its right edge is now left of x = 100 |
| Field.SweepScores | components/GameCanvas.tsx:174-178 | the score grows by the number of flags that went from false to true; the onScoreUpdate payloads are exactly score+1, score+2, ... up to the new score |
| Field.VisitScores | components/GameCanvas.tsx:171-178 | one iteration adds one point iff it sets the pipe's flag, and then reports the new score |
| Field.SweepReportsHits | components/GameCanvas.tsx:180-193 | the loop calls onGameOver once per moved pipe that is hit, and at no other time |
| Field.SweptHits | components/GameCanvas.tsx:171-191 | each pipe's hit test uses the pipe after its move |
| Field.SpacedIsSorted | components/GameCanvas.tsx:156 | a field spaced more than PIPE_SPACING apart is sorted by x |
| Field.SpawnKeepsSpacing | components/GameCanvas.tsx:156-167 | a pipe spawned at the right edge is more than PIPE_SPACING right of every pipe already on the field |
| Field.SweepSettlesFlags | components/GameCanvas.tsx:170-178 | after the loop at a positive speed, a flag is set iff the pipe's right edge is left of the ship |
| Field.CullKeepsField | components/GameCanvas.tsx:197-199 | dropping the front pipe keeps the field invariant |
| Field.TickKeepsField | components/GameCanvas.tsx:156-199 | spawn, loop and cull keep the field spaced and PIPE_WIDTH wide, with flags that match the positions |
| Field.TickMovesPipes | components/GameCanvas.tsx:156-199 | the field is a queue: at most one pipe is dropped, from the front and only past the cull line; every other pipe moves left by speed and keeps its gap; a new pipe ends the tick at width - speed |
| Field.SweepExtends | components/GameCanvas.tsx:170-171 | the loop over one more pipe is the loop so far followed by one more iteration |
| Field.SweepGameOver | components/GameCanvas.tsx:170-194 | on a non-empty field the loop reports game-over iff the ship is out of bounds or some moved pipe collides; out of bounds once per pipe; never more than once per pipe; every call carries a score between the score before and after the loop, and out of bounds the last call carries the final score |
| Field.SweepGameOverScores | components/GameCanvas.tsx:174-193 | onGameOver carries the score accumulated so far: never below the score before the loop nor above the score after it; when the last pipe is hit, the last call is onGameOver with the final score, that pipe's own point included |
| Field.SweepThenCullMoves | components/GameCanvas.tsx:170-199 | after the loop and the cull, the front pipe is gone iff it was past the cull line after its move; every other pipe moved left by speed keeping gap and width |
| Field.CullMoves | components/GameCanvas.tsx:197-199 | culling any field whose pipes were each moved by speed drops at most the front pipe, and only past the cull line |
| Field.ShiftedAfterSpawn | components/GameCanvas.tsx:156-199 | a field with at most one fresh pipe appended at the right edge, then moved and possibly culled, satisfies `Shifted`: at most one pipe dropped, the rest moved left by speed, the new one at width - speed |
| Field.ShiftedCulled | components/GameCanvas.tsx:197-199 | the dropped-front case of ShiftedAfterSpawn: the remaining pipes are the old ones from index 1, each moved by speed |
| Field.ShiftedKept | components/GameCanvas.tsx:170-171 | the no-drop case of ShiftedAfterSpawn: every pipe stays at its index, moved by speed |
| Field.SpawnKeepsPassedCount | components/GameCanvas.tsx:165 | the spawned pipe is unscored, so the number of scored pipes is unchanged |
| Field.CullPassedCount | components/GameCanvas.tsx:197-199 | a culled front pipe that was scored takes exactly one off the count of scored pipes |
| Field.TickScores | components/GameCanvas.tsx:156-199 | over a tick the score never falls; score minus scored pipes on the field grows exactly by the number of pipes dropped; the score reports are the consecutive new scores |
| Field.SweepThenCullScores | components/GameCanvas.tsx:170-199 | on any field, the loop and the cull never lower the score; the score gained equals the scored pipes on the field after, plus those dropped, minus those before; the reports are the consecutive new scores |
| Stars.Drift | components/GameCanvas.tsx:134-140 | a star keeps its size, speed and opacity and moves left by its speed; once left of 0 it is put at x = width; on a canvas of non-negative width it is never left of 0 after the update |
| Stars.WrapStaysOnCanvas | components/GameCanvas.tsx:136-139 | a wrapped star reappears at the right edge, at a height inside the canvas |
| Simulation.Step | components/GameCanvas.tsx:143-200 | definition: one running tick: speed from the old score, Fall, Spawn, Sweep, then Cull; the new world and the callbacks in order |
| Simulation.Invariant | components/GameCanvas.tsx:143-200 | definition: what holds between ticks, FieldInvariant and a tilt within plus or minus pi/4 |
| Simulation.StepKeepsInvariant | components/GameCanvas.tsx:143-200 | a tick keeps the field invariant and keeps the tilt within the clamp |
| Simulation.StepShip | components/GameCanvas.tsx:150-153 | a tick raises the velocity by GRAVITY, moves y by the new velocity and sets the tilt from it |
| Simulation.StepGameOver | components/GameCanvas.tsx:170-194 | a tick reports game-over iff the ship is out of bounds or some moved pipe collides; out of bounds it reports once per pipe; never more than once per pipe; every report carries a score between the old and the new score, and out of bounds the last report carries the new score |
| Simulation.StepTallies | components/GameCanvas.tsx:156-199 | if the score exceeds the scored pipes on the field by `cleared`, after a tick it exceeds them by `cleared` plus the pipes the tick dropped |
| Simulation.Run | components/GameCanvas.tsx:143-200 | definition: the world after a sequence of frames (each a Step) and jumps (each an Impulse), in order |
| Simulation.RunKeepsInvariant | components/GameCanvas.tsx:143-200 | every state of a run of frames and jumps satisfies the invariant |
| Simulation.RunScoreNeverDecreases | components/GameCanvas.tsx:174-178 | over a run, a later state never has a lower score than an earlier one |
| Simulation.Ascending | components/GameCanvas.tsx:176 | in a list of scores that never steps down, a later entry is never smaller |
| Simulation.NextInputKeepsScore | components/GameCanvas.tsx:176 | each input of a run leaves the score at least where it was |
| Simulation.ApplyKeepsScore | components/GameCanvas.tsx:63-66 | neither a frame nor a jump lowers the score |
| Simulation.RunWithoutJumps | components/GameCanvas.tsx:150-153 | without jumps, n frames move the ship exactly as n gravity steps, whatever the pipes |
| Simulation.TenFramesFromRest | components/GameCanvas.tsx:150-151 | ten frames from rest give velocity 3.0 and a drop of 16.5 pixels |
| Simulation.PressSetsJumpVelocity | components/GameCanvas.tsx:63-66 | a jump sets the velocity to JUMP_STRENGTH and leaves the position, pipes and score alone |
| Canvas.ReplaceNext | components/GameCanvas.tsx:170-171 | updating the next unvisited pipe in place extends the visited prefix by one |
| Canvas.GameCanvas.constructor | components/GameCanvas.tsx:24-31 | the refs start with the ship at 0 and at rest, no pipes and score 0, holding the given star layout, and `Valid()` holds |
| Canvas.GameCanvas.Reset | components/GameCanvas.tsx:49-61 | without a canvas nothing changes and nothing is reported; with one the ship is centred at rest, the field emptied, the score zeroed and 0 reported |
| Canvas.GameCanvas.Jump | components/GameCanvas.tsx:63-66 | while playing the ship becomes Impulse of the old ship; otherwise nothing changes |
| Canvas.GameCanvas.AdvanceStars | components/GameCanvas.tsx:128-141 | while playing each star k becomes Drift of its old value with draw k; otherwise the array is unchanged |
| Canvas.GameCanvas.Tick | components/GameCanvas.tsx:143-200 | while playing, the new state and the callbacks equal those of Step; otherwise nothing changes; `Valid()` is kept |
| Canvas.GameCanvas.ScrollPipes | components/GameCanvas.tsx:170-194 | the in-place loop leaves the field, score and callbacks that Sweep prescribes |
| Canvas.GameCanvas.VisitPipe | components/GameCanvas.tsx:170-193 | the forEach callback for one pipe produces exactly the moved pipe, score and callbacks of one Visit |
| Canvas.GameCanvas.SpawnPipe | components/GameCanvas.tsx:156-167 | the field becomes Spawn of the old field |
| Canvas.GameCanvas.CullFront | components/GameCanvas.tsx:197-199 | the field becomes Cull of the old field, and the ghost tally of dropped pipes grows by the number dropped |
| Canvas.GameCanvas.Frame | components/GameCanvas.tsx:128-200 | one frame advances the stars, then runs the tick |

## Left out

- Drawing (components/GameCanvas.tsx:120-132 and 202-299): gradients, glow, the ship's shape, the stars' circles. None of it affects the state.
- The animation and effect lifecycle (components/GameCanvas.tsx:68-72, 101-105, 301-309): requestAnimationFrame scheduling and cancellation. The effect that calls `resetGame` when `status` becomes PLAYING is left to the caller, which calls `Reset` and then `Frame` with the current status.
- The input listeners (components/GameCanvas.tsx:74-99). Key, mouse and touch handling all reduce to calling `Jump`.
- The resize handler (components/GameCanvas.tsx:107-115), including recentring the ship while at START. Width and height are parameters of every frame instead.
- The star layout set up by the first effect (components/GameCanvas.tsx:35-47) is drawn at random. The constructor takes it as a given sequence.
- The `!ctx || !canvas` guard of `draw` (components/GameCanvas.tsx:118). The model assumes a canvas during a frame.
- App.tsx and the game-status transitions it makes on the callbacks are not part of this model.
- `SPEED_INCREMENT_FACTOR` (constants.ts:10) is declared but never used by the tick.
- Floating point: numbers are exact `real`s, so IEEE rounding is not modelled. `Math.PI / 4` is the decimal 0.7853981633974483.
- Random draws are per star index (`draws[k]`). In the source they are consumed in iteration order, only for the stars that wrap.
- A pipe's `y` and `height` fields are set at spawn but never read by the logic. The model carries them but proves nothing about them.

Where the code's behaviour may be unexpected, the model follows the code:

- `onGameOver` is called once per offending pipe on every tick, and once per pipe on the field while the ship is out of bounds. It is not called once per run. The game stops only through the status change made by the caller.
- The gap margins of 150 pixels hold only on canvases at least 480 pixels high (`Field.GapTopRange`).
- Consecutive pipes are more than PIPE_SPACING apart, not exactly that far apart.
- The score is updated before the collision test for the same pipe, so a game-over's payload includes the point of the pipe just passed (`Field.SweepGameOverScores`).
