# Espresso Escape: a Dafny model of the game core

Espresso Escape is a browser arcade game. The character stands near the left
edge while groups of obstacles scroll towards it. The player jumps over them,
and holding the jump key makes the jump higher. Each group that scrolls fully
past the character is worth 2 points. The game speeds up a little with every
cleared group and by a larger step at every multiple of 20 points. The best
score is kept across sessions.

All of the game logic lives in one React component, `JumpGame`
(`vite-project/src/Espresso.jsx`). This project models that logic as a
sequential state machine and proves properties of it:

- `obstacles.dfy`, module `Obstacles`: the obstacle record, the five sprites,
  and `spawnObstacles`. It is a nested-loop method proved against the pure
  layout function `Spawn`. Its random draws and `Date.now()` come in as a
  `SpawnPlan`.
- `world.dfy`, module `World`: the 30 ms world tick. It has pure functions
  (shift, mark, prune, rightmost, refill), the in-order marking loop
  `MarkPassedInOrder`, and the whole updater `UpdateObstacles`. The lemmas
  cover group scoring, pruning order, refill and how the passed flags
  behave over a run of ticks.
- `physics.dfy`, module `Physics`: the per-frame jump step, the frame
  method `Frame` proved against it, and the arc the steps trace.
- `collision.dfy`, module `Collision`: the strict-bounds hit test and the
  game-over high-score record.
- `session.dfy`, module `JumpGame`: class `Session` holds the component's
  state (`useState` fields, `lastMilestoneRef`, `isHoldingJump`), the
  persisted high score, and the locals of the running animation. Each callback the browser or React runs is
  one step method:
  - `Tick`: the interval.
  - `JumpFrame`: an animation frame.
  - `MilestoneCheck` and `CheckCollision`: the two effects.
  - `KeyDown` and `KeyUp`: the key handlers.
  - `Jump` and `ResetGame`: the component's own functions.

Speeds, positions and velocities are Dafny `real`s. These are exact, so they
idealise the JavaScript doubles.

Some findings of the model, stated as the code behaves:

- The key handlers are re-installed only when `isJumping`, `isGameOver` or
  `hasStarted` changes (line 228). So the `jump` they call sees the
  `obstacleSpeed` of that moment, and the animation computes its gravity from
  that captured value on every frame (line 111). The model keeps it as the
  field `handlerSpeed`, refreshed at exactly those changes. A jump's gravity
  is fixed for the whole jump.
- `resetGame` does not clear `lastMilestoneRef`. In a new game, every due
  milestone records itself, so only the new game's first checked multiple of
  20 can be affected. It earns no speed-up exactly when it equals the kept
  value, typically when both are 20
  (`JumpGame.RestartSkipsRepeatedMilestone`).
- The stored high score is taken as the code reads it, `Number(value) || 0`.
  A negative stored number is kept as it is. It is not clamped to zero.
- The animation loop has no cancellation. A jump in flight at game over goes
  on to land, and after a restart it keeps publishing its position.
  `ResetGame` sets `characterBottom` to 0 but leaves the jump running, as the
  code does.

## Model

| member | source | states |
|---|---|---|
| `Obstacles.Placed` | vite-project/src/Espresso.jsx:46-68 | one pushed obstacle: its height lies in [70, 129], and it has the given position and group and is not passed; `SpawnedObstacle` pins the sprite |
| `Obstacles.Spawn` | vite-project/src/Espresso.jsx:50-73 | the batch is the groups' obstacles concatenated in push order; its properties are the lemmas below |
| `Obstacles.SpawnObstacles` | vite-project/src/Espresso.jsx:50-73 | the nested push loops return exactly the layout `Spawn(p, offset)` |
| `Obstacles.SpawnGroups` | vite-project/src/Espresso.jsx:57-71 | group `g` occupies one contiguous block of the batch, the groups appear in order, and the batch length is the sum of the group sizes |
| `Obstacles.SpawnedObstacle` | vite-project/src/Espresso.jsx:46-71 | obstacle `i` of group `g` has `left = 1100 + offset + 500 g + 60 i`, height `70 + k` for its draw `k`, the drawn sprite, `groupId = now + g` and `passed = false` |
| `Obstacles.SpawnSpacing` | vite-project/src/Espresso.jsx:52-70 | neighbours in a group are 60 apart; the first obstacles of consecutive groups are 500 apart |
| `Obstacles.SpawnFacts` | vite-project/src/Espresso.jsx:46-68 | every spawned obstacle has height in [70, 129], is not passed, is at or right of `1100 + offset`, and has a group id in `[now, now + groups)` |
| `Obstacles.SpawnSize` | vite-project/src/Espresso.jsx:51-58 | 1 to 3 groups of 1 to 3 obstacles give a batch of 1 to 9 obstacles |
| `World.Mark` | vite-project/src/Espresso.jsx:145-147 | marking sets `passed` iff it was already set or the trailing edge is left of the character, and changes no other field |
| `World.MarkAll` | vite-project/src/Espresso.jsx:145-147 | the list after the marking loop; `MarkPassedInOrder` is proved equal to it and `TickMovesObstacle` states its effect on each obstacle |
| `World.MarkPassedInOrder` | vite-project/src/Espresso.jsx:145-159 | the in-place `forEach` leaves every obstacle behind the character marked, and it counts exactly one clear per group that the tick completes |
| `World.UpdateObstacles` | vite-project/src/Espresso.jsx:138-169 | the updater the timer hands to the obstacle state returns exactly `TickObstacles` of the old list, and its clear count is the number of groups that the tick completes |
| `World.ClearsAtLast` | vite-project/src/Espresso.jsx:146-154 | the loop awards a clear at an index iff that obstacle is marked now, its whole group is passed after marking, and no later member of the group is marked in the same tick |
| `World.ClearEventsDistinct` | vite-project/src/Espresso.jsx:149-158 | no two clears of one tick belong to the same group |
| `World.ScoresOncePerGroup` | vite-project/src/Espresso.jsx:149-158 | the clears of a tick equal the number of groups that this tick completes (some member newly passed, all members passed after) |
| `World.UnfinishedGroupNotScored` | vite-project/src/Espresso.jsx:149-154 | a group with a member still in front of the character scores nothing |
| `World.Prune` | vite-project/src/Espresso.jsx:161 | an obstacle is kept iff its `left > -60`, and nothing is added |
| `World.PruneConcat` | vite-project/src/Espresso.jsx:161 | pruning keeps relative order: it distributes over concatenation |
| `World.Rightmost` | vite-project/src/Espresso.jsx:163 | the result is at least 0 and at least every `left`, and it is 0 or one of the `left` values |
| `World.TickMovesObstacle` | vite-project/src/Espresso.jsx:140-161 | a tick moves each obstacle left by the speed and keeps height, sprite and group; `passed` only goes false to true, exactly when `left + 60 < 50`; the obstacle survives iff its new `left > -60` |
| `World.SurvivorOrigin` | vite-project/src/Espresso.jsx:140-161 | every surviving obstacle is one old obstacle, moved and marked, with `left > -60` |
| `World.SurvivorsConcat` | vite-project/src/Espresso.jsx:140-161 | the survivors keep the old relative order |
| `World.TickObstacles` | vite-project/src/Espresso.jsx:140-166 | the list after one tick; its properties are stated by `TickMovesObstacle`, `SurvivorOrigin`, `TickRefill`, `TickFillsField` and `TickWellPlaced` |
| `World.TickRefill` | vite-project/src/Espresso.jsx:163-166 | the survivors come first, unchanged; a batch follows iff the rightmost survivor (or 0) is below 400, and what follows is then exactly one fresh batch `Spawn(p, 0)`, so an empty field gets exactly that batch |
| `World.TickFillsField` | vite-project/src/Espresso.jsx:163-166 | after a tick the field is non-empty and its rightmost obstacle is at or beyond 400 |
| `World.ClearSpeed` | vite-project/src/Espresso.jsx:156 | one queued clear update raises a speed of at most 20, by exactly 0.05 unless it reaches the cap of 20, and never by more than 0.05 |
| `World.Bump` | vite-project/src/Espresso.jsx:156 | `k` queued clear updates never lower a speed of at most 20 and never take it above 20 |
| `World.BumpClosedForm` | vite-project/src/Espresso.jsx:156 | `k` queued clear updates turn a speed of at most 20 into `min(speed + 0.05 k, 20)` |
| `World.ScoredGroupIsDone` | vite-project/src/Espresso.jsx:145-166 | a group completed in a tick is all passed afterwards, provided the refill's clock reading is past its id |
| `World.DoneGroupStaysDone` | vite-project/src/Espresso.jsx:145-166 | a fully passed group scores nothing in the next tick and stays fully passed |
| `World.DoneGroupStaysDoneInRun` | vite-project/src/Espresso.jsx:138-170 | a fully passed group stays fully passed through any run of ticks whose refills read a later clock |
| `World.DoneGroupNeverScores` | vite-project/src/Espresso.jsx:138-170 | no later tick of such a run scores a fully passed group |
| `World.ScoredExactlyOnce` | vite-project/src/Espresso.jsx:149-158 | a group scored in one tick is not scored by any later tick (group ids come from `Date.now()`, line 55) |
| `World.TickWellPlaced` | vite-project/src/Espresso.jsx:140-166 | at a non-negative speed, a tick keeps every height in [70, 129] and keeps `passed` equal to "behind the character" |
| `Physics.Gravity` | vite-project/src/Espresso.jsx:111 | the gravity scales with the captured speed; `DefaultJumpLandsAtFrame89` states its value 0.2 at speed 11 |
| `Physics.Step` | vite-project/src/Espresso.jsx:113-119 | one frame of the arc; `VelocityBounds`, `HoldNeverLower` and `ReleasedClosedForm` state its effect over a jump |
| `Physics.Frame` | vite-project/src/Espresso.jsx:111-126 | one frame's velocity and position are those of `Step`; it reports a landing iff the new position is at or below the ground, and a landing clamps the position to the ground |
| `Physics.ReleasedClosedForm` | vite-project/src/Espresso.jsx:107-128 | with the key released and gravity `g`, after `n` frames the velocity is `9 - g n` and the position is `9 n - g n (n+1) / 2` |
| `Physics.DefaultJumpLandsAtFrame89` | vite-project/src/Espresso.jsx:111-126 | at speed 11 (gravity 0.2) with the key released, the character is airborne for frames 1 to 88 and reaches the ground on frame 89 |
| `Physics.VelocityBounds` | vite-project/src/Espresso.jsx:111-117 | each frame lowers the velocity by between `0.4 g` and `g`, so after `n` frames it lies in `[9 - g n, 9 - 0.4 g n]` |
| `Physics.HoldNeverLower` | vite-project/src/Espresso.jsx:113-119 | holding the key in any pattern gives a velocity and position at least those of the released jump |
| `Collision.Collides` | vite-project/src/Espresso.jsx:177-179 | the hit test; `BandIsOpen`, `HitByHeight` and `CollisionMonotone` state its properties |
| `Collision.AnyCollision` | vite-project/src/Espresso.jsx:182 | some obstacle of the field passes the hit test; `CheckCollision` ends the game exactly when it holds while playing |
| `Collision.BandIsOpen` | vite-project/src/Espresso.jsx:177-179 | an obstacle at `left = 20` or `left = 80` never collides |
| `Collision.HitByHeight` | vite-project/src/Espresso.jsx:177-179 | for spawnable heights, a grounded character is hit by any obstacle strictly inside (20, 80), and a character at 179 or above is never hit |
| `Collision.CollisionMonotone` | vite-project/src/Espresso.jsx:178 | a lower character collides wherever a higher one does |
| `Collision.GameOverRecord` | vite-project/src/Espresso.jsx:189-195 | the new high score is `max(score, highScore)`, so it never decreases, and the new-high-score flag is set iff `score > highScore` |
| `JumpGame.InitialHighScore` | vite-project/src/Espresso.jsx:25-27 | an absent or non-numeric stored value reads as 0; a number is taken as it is; `Session.Valid` keeps the store reading back as the current high score |
| `JumpGame.Milestone` | vite-project/src/Espresso.jsx:84-95 | the speed never decreases and stays at most 20; it rises iff `score > 0`, `score % 20 == 0`, `score != lastMilestone` and `speed < 20`, and only then is `lastMilestone` set to the score; a due rise is exactly +2 when that stays within 20 and otherwise lands on 20, and no rise exceeds 2 |
| `JumpGame.MilestoneIdempotent` | vite-project/src/Espresso.jsx:86-93 | a second check at the same score changes nothing |
| `JumpGame.RestartSkipsRepeatedMilestone` | vite-project/src/Espresso.jsx:75-93 | for every positive multiple `m` of 20 and speed below 20, a check at score `m` with `lastMilestone == m` (the value a restart keeps) changes nothing, whereas with a cleared reference it raises the speed |
| `JumpGame.Session.constructor` | vite-project/src/Espresso.jsx:20-40 | a new session is not started, has score 0, speed 11, an empty field, the character on the ground, and the high score read from the store it is given |
| `JumpGame.Session.Tick` | vite-project/src/Espresso.jsx:136-174 | the new field is `TickObstacles` of the old one; the score rises by 2 per completed group; the speed is the queued clear updates applied in turn, so it never decreases and stays at most 20; nothing else changes |
| `JumpGame.Session.MilestoneCheck` | vite-project/src/Espresso.jsx:84-95 | the new speed and `lastMilestone` are `Milestone` of the old ones at the current score |
| `JumpGame.Session.CheckCollision` | vite-project/src/Espresso.jsx:176-197 | the first hit while playing sets `isGameOver` and applies `GameOverRecord`, and a new high score is written to the store; the high score never decreases; otherwise nothing changes |
| `JumpGame.Session.Jump` | vite-project/src/Espresso.jsx:97-108 | a jump starts only when not jumping, not game over, grounded and started; it starts from the ground with velocity 9 and the handler's captured speed; otherwise nothing changes |
| `JumpGame.Session.JumpFrame` | vite-project/src/Espresso.jsx:110-130 | the frame applies `Step` to the jump's position and velocity; at or below the ground it clamps to 0 and ends the jump, otherwise it publishes the position; while jumping, the position and velocity equal `Fly` of the hold flags read so far |
| `JumpGame.Session.ResetGame` | vite-project/src/Espresso.jsx:75-82 | the character goes to the ground, the field gets a fresh batch, `isGameOver` is cleared, the score goes to 0 and the speed to 11; `lastMilestone` and the high score are untouched |
| `JumpGame.Session.KeyDown` | vite-project/src/Espresso.jsx:200-205 | Space sets the hold flag and starts a jump exactly when `Jump`'s guard holds; other keys change nothing |
| `JumpGame.Session.KeyUp` | vite-project/src/Espresso.jsx:207-219 | Space clears the hold flag; Enter starts a not-yet-started game with a fresh batch, resets a game that is over, and does nothing while playing; other keys change nothing |

## Left out

- Rendering and styling (`Espresso.jsx:230-325`) and the route that mounts
  the component (`App.jsx`): presentation only.
- Audio playback (`Espresso.jsx:105, 186`): fire-and-forget browser media,
  left out.
- Persistent storage: the store is the `Session.store` field, seeded by the
  constructor's `Stored` parameter (line 26) and written on a new high score
  (line 190). Other pages or tabs writing the same key are not modelled. A
  fractional stored number is not modelled, because `Stored.Number` holds an
  integer.
- Scheduling: `setInterval`/`clearInterval`, `requestAnimationFrame`,
  effect re-subscription and the window listeners become explicit step
  methods. The host decides their order. The model does not force the
  effects (`MilestoneCheck`, `CheckCollision`) to run after every render.
  `Tick` requires the state in which the interval exists (`Playing()`).
  `JumpFrame` requires the state in which a frame is pending (`isJumping`).
- `Math.random()` and `Date.now()`: the `SpawnPlan` parameter. Its subset
  types bound the draws, and `WellFormed` states the 1 to 3 ranges.
- Group-id freshness: the code relies on `Date.now()` having advanced past
  the previous batch's ids. The cross-tick scoring lemmas take this as a
  hypothesis (`g < p.now`). It is not a precondition of `Tick`.
- IEEE-754 rounding of the 0.05 speed steps and of the gravity/velocity
  arithmetic: the model uses exact `real`s.
- The key handlers' other captured values (`isJumping`, `isGameOver`,
  `hasStarted`, `characterBottom`) are read live. The first three are
  effect dependencies, so they are always current. `characterBottom` equals
  0 whenever no jump runs, which `Session.Valid` states. So the captured
  and live values agree.
- Key events are reduced to the three cases the handlers distinguish
  (`Space`, `Enter`, any other key).
