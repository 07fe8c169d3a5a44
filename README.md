# Echo Shadows — a verified model of the gameplay core

Echo Shadows is a small browser arcade game. The player moves a square around a
1280 × 720 arena. Every move the player makes is recorded as a per-frame step
`[dx, dy]`. Every five seconds, if the player has moved, the recorded path becomes
a "shadow clone". The clone starts where the recording started and replays the
path one step per frame. The replay is sped up by a multiplier that grows with
the level, truncated toward zero, and clamped to the arena. Touching a clone
ends the run. Each clone spawned scores a point, and every fifth point raises
the level, the player's speed and the clones' multiplier.

This project models that core of `game.js`: arena clamping, the box test, the
path recorder, the clone engine, one frame of `update`, `resetGame` and the
pause and restart keys. Four modules:

- `Geometry` (geometry.dfy): arena constants, `Clamp` (`clampRect`) and
  `Intersects` (`rectsIntersect`).
- `Clones` (clones.dfy): recorded steps, clones, truncation toward zero, one
  replay step (`StepClone`), a replay tick for all clones (`StepAll`), and
  `Follow`, the position reached by replaying a path at a constant multiplier.
- `Rules` (rules.dfy): the whole game state as a value (`State`) and each
  operation as a function — `Spawn`, `Tick`, `Reset`, `OnPauseKey`,
  `OnEnterKey` — with the invariant `Inv` and the lemmas about them.
- `Engine` (engine.dfy): the class `Game`, whose fields are the game's
  module-level variables. Its methods update them in place, statement by
  statement as the source does. Each method is proved to yield exactly the
  state the matching `Rules` function gives.

Representation choices:

- All positions are integers. The player starts at (626, 346) and every step is
  a whole multiple of `playerSpeed`.
- `cloneSpeed` is only ever `1.0 + 0.25·k`, so it is kept exactly as a number of
  quarters, `cloneQuarters == 4 + k`. A replayed step is `TruncQuarter(d · q)`,
  which is `Math.trunc(d · cloneSpeed)`. Dafny's `/` rounds negative numbers
  down, so `TruncQuarter` rounds toward zero explicitly.
- The clock is a parameter. `Tick`, `Spawn`, `Reset` and the Enter key take
  the current reading `now`, in milliseconds. The state keeps `lastSpawn`,
  so the spawn test is `now - lastSpawn >= CLONE_INTERVAL`. The source reads
  the clock twice in a spawning frame (game.js:220 and 174); the model takes
  both readings to be the same `now`.
- Input is a per-frame snapshot: four direction flags (keyboard or on-screen
  button, already or-ed) and a drag flag.

The main invariant (`Rules.Inv`) says that the player always stands exactly
where replaying the current path from `startPos` at multiplier 1.0 leads. It
holds even when clamping occurred, because the recorder stores the step taken
before clamping and the replay clamps in the same way. From it follows the
"echo" property: a clone replaying its full path at 1.0 ends exactly where the
player stood when it was spawned (`SpawnedCloneRetracesPlayer`).

Three points of `game.js` and how the model treats them:

- An empty-path spawn attempt does not reset the spawn timer: the early
  return at game.js:155 comes before `lastSpawn` is set at line 174, and
  `update` never calls `spawnClone` with an empty path anyway (game.js:220).
  In the model an empty-path `Spawn` changes nothing, the timer included.
- A clone freezes when its cursor reaches its path length (game.js:179), so
  the cursor never passes the length. `StepCloneSpec` proves this.
- `update` tests a variable `dragging` (game.js:200) that `game.js` never
  declares; the touch handlers set `isTouching` (game.js:67). As written, line
  200 throws a ReferenceError unless the page defines a global `dragging`. The
  model treats dragging as an input flag. A drag frame records a `[0, 0]` step
  and does not move the player (game.js:210-213).

## Model

| member | source | states |
|---|---|---|
| Geometry.Clamp | game.js:105-110 | for a box no larger than the arena, the clamped corner lies in `[0, VWIDTH-w] × [0, VHEIGHT-h]` |
| Geometry.ClampNearest | game.js:105-110 | each coordinate is kept if in range, raised to 0 if negative, lowered to `VWIDTH-w` / `VHEIGHT-h` if past the far edge |
| Geometry.ClampFixesExactlyInside | game.js:105-110 | clamping leaves a position unchanged if and only if it is already inside the arena |
| Geometry.ClampIdempotent | game.js:105-110 | clamping twice gives the same result as clamping once |
| Geometry.IntersectsIffSharedCell | game.js:113-120 | non-empty boxes intersect if and only if some pixel cell lies in both, i.e. they overlap by at least 1 on both axes |
| Geometry.IntersectsSymmetric | game.js:113-120 | the box test gives the same answer with its arguments swapped |
| Geometry.TouchingEdgesDoNotIntersect | game.js:113-120 | boxes that only share an edge (`a.x + a.w == b.x`, or the same on another side) do not intersect |
| Clones.TruncQuarter | game.js:181-182 | the result has the sign of the input, and its magnitude is the input's magnitude divided by 4, rounded down (truncation toward zero) |
| Clones.TruncQuarterOdd | game.js:181-182 | truncation commutes with negation |
| Clones.TruncDiffersFromFloor | game.js:181-182 | one example: -5 quarters truncate to -1, where Euclidean division gives -2 |
| Clones.ScaleUnit | game.js:39 | at multiplier 1.0 a replayed step equals the recorded step |
| Clones.ScaleBounded | game.js:181-182 | a scaled step keeps the recorded step's sign and is at most `d · cloneSpeed` in magnitude |
| Clones.Move | game.js:180-184 | a replay step (add the scaled step, then clamp) always ends inside the arena |
| Clones.FollowSnoc | game.js:209 | replaying a path with one recorded step appended is one more replay step |
| Clones.StepCloneSpec | game.js:178-186 | the path never changes; the cursor stays within the path; a clone whose cursor equals its path length is unchanged; any other clone advances its cursor by one and moves by the scaled step at the cursor, then is clamped |
| Clones.StepAllKeepsClones | game.js:177-187 | a replay tick keeps every clone's cursor within its path and its position in the arena, and keeps every path |
| Clones.ReplayFollowsPath | game.js:156-187 | a freshly spawned clone replayed n times at a constant multiplier stands where the first n steps of its path lead from its start, and stays frozen there after its last step |
| Rules.ResetClears | game.js:301-314 | after a reset: score, level, clones, path and trail are zero or empty; speeds are 5 and 1.0; the player is at (626, 346) with `startPos` on it; not paused, not over; the best score is kept; the invariant holds |
| Rules.SpawnSpec | game.js:154-175 | empty path: nothing changes. Otherwise: exactly one clone is appended (old path, old start position, cursor 0) and earlier clones are unchanged; score +1; path emptied; `startPos` set to the player; timer set to now; level, player speed and multiplier each rise by exactly one if and only if the new score is a multiple of 5, and are otherwise unchanged |
| Rules.LevelStep | game.js:163-164 | adding one point raises score div 5 by one exactly when the new score is a multiple of 5 |
| Rules.SpawnKeepsInv | game.js:154-175 | spawning during a running game keeps the invariant, including level = score div 5, speed = 5 + level, multiplier = 1 + level/4, and clone count = score |
| Rules.SpawnedCloneRetracesPlayer | game.js:154-175 | a clone that replays its whole path at multiplier 1.0 ends where the player stood when it was spawned |
| Rules.TickFrozen | game.js:197 | a frame while paused or after game over changes nothing |
| Rules.MovePlayerKeepsInv | game.js:199-213 | moving and recording keep the player in bounds, and keep the player where replaying the current path from `startPos` leads |
| Rules.PushTrailSpec | game.js:216-217 | the trail stays at most 15 long, ends with the pushed position, and keeps the most recent positions in order |
| Rules.CollideKeepsInv | game.js:227-239 | the collision phase keeps the invariant (a finished game never has a best below its score) |
| Rules.TickKeepsInv | game.js:196-242 | every frame keeps the invariant: the player, every clone and the trail stay in bounds, every cursor stays within its path, and the score, level and speeds stay tied |
| Rules.TickMovesPlayer | game.js:199-213 | a running non-drag frame moves the player by the additive keyboard step and clamps it into bounds; a drag frame leaves the player in place |
| Rules.TickRecordsPath | game.js:199-222 | a running frame appends one step exactly when the step is non-zero or the player is dragging. If the interval has elapsed, the extended path becomes the newest clone, already advanced one step (cursor 1, at the position one replay step of the first recorded step leads from the recorded start), and recording restarts empty; otherwise the extended path is kept and the clone count is unchanged |
| Rules.TickTrail | game.js:215-217 | after a running frame the trail is at most 15 long and its last entry is the player's position |
| Rules.TickGameOver | game.js:226-239 | a running frame ends the run if and only if, after replay, the player's box intersects some clone's box; the best score then becomes max(best, score), and is otherwise unchanged |
| Rules.HighscoreNeverDecreases | game.js:232-236 | no frame and no key lowers the best score |
| Rules.PauseKeySpec | game.js:57 | "p" toggles `paused` and nothing else, except after game over, when it does nothing; pressing it twice restores the state |
| Rules.EnterKeySpec | game.js:58 | Enter does nothing unless the game is over; then the result is exactly `Reset` of the state: score, level, clones, path and trail zero or empty, speeds 5 and 1.0, player and `startPos` at the centre, timer at now, running, best score kept, invariant established |
| Rules.PauseKeyKeepsInv | game.js:57 | the pause key keeps the invariant (a finished game is never paused) |
| Rules.RunKeepsInv | game.js:287-291 | across any sequence of frames and key presses, resets included, the invariant holds and the best score never decreases |
| Rules.ReachableStates | game.js:37-49 | in every state reachable from boot: level = score div 5, player speed = 5 + level, multiplier = 1.0 + level/4, player and clones in bounds, cursors within their paths, best ≥ stored best |
| Rules.OneStepEcho | game.js:196-242 | from boot: one frame moving right records `[5, 0]`; after the interval and a still frame, exactly one clone exists with that path, replayed onto the player; the run ends with score and best both 1 |
| Engine.HitsAnyClone | game.js:227-239 | the collision scan answers true if and only if some clone's box intersects the player's |
| Engine.Game.constructor | game.js:37-51 | the fields take their boot values (player at the centre, speeds 5 and 1.0, everything empty, not paused, not over), and the invariant holds |
| Engine.Game.SpawnClone | game.js:154-175 | the new state is exactly `Rules.Spawn` of the old one |
| Engine.Game.UpdateClones | game.js:177-187 | the loop replaces each clone, in place, by its one-step replay, and changes nothing else |
| Engine.Game.MoveAndRecord | game.js:199-213 | the movement phase yields exactly `Rules.MovePlayer` of the old state |
| Engine.Game.PushToTrail | game.js:216-217 | the trail phase yields exactly `PushTrail` of the old trail and the player's position |
| Engine.Game.CheckCollisions | game.js:227-239 | the collision phase yields exactly `Rules.Collide` of the old state |
| Engine.Game.Update | game.js:196-242 | one frame yields exactly `Rules.Tick` of the old state, and keeps the invariant |
| Engine.Game.ResetGame | game.js:301-314 | the new state is exactly `Rules.Reset` of the old one |
| Engine.Game.KeyPause | game.js:57 | the new state is exactly `Rules.OnPauseKey` of the old one, and the invariant is kept |
| Engine.Game.KeyEnter | game.js:58 | the new state is exactly `Rules.OnEnterKey` of the old one, and the invariant is kept |

## Left out

- Particles (`addParticles`, `updateParticles`, and the bursts at game.js:168 and 231): they use `Math.random` and floating-point velocities with 0.94 damping, and are purely cosmetic. `resetGame` clearing them is not modelled.
- Rendering and HUD (`draw`, `drawClones`, `drawParticles`, `updateHUD`, the letterbox scaling): canvas output only.
- Touch-drag handlers (game.js:67-88): they place the player from floating-point touch coordinates using `player.width`/`player.height`, which do not exist (so the result is NaN). Dragging is an input flag, and a drag frame neither moves nor clamps the player. The part of `Rules.Inv` that puts the player at the end of the replayed path, and `Rules.SpawnedCloneRetracesPlayer`, depend on this: in the source the touch handlers move the player during a drag (to NaN as written, or to the touch point if fixed) while `update` records `[0, 0]`, so the player would no longer stand where the replayed path leads.
- The ReferenceError at game.js:200: `dragging` is never declared, so as written every `update` call throws there and `loop` (game.js:287-291) stops before scheduling the next frame. The model runs every frame as if `dragging` were a declared boolean, supplied as `Input.dragging`.
- Input plumbing (the `keys` map and the DOM listeners, game.js:55-61, 92-102): replaced by the per-frame `Input` snapshot and the two key methods. Keys other than "p" and Enter are read only through the snapshot.
- Clock and frame loop (`performance.now()`, `requestAnimationFrame`): the clock reading is a parameter. The loop is `Rules.Run` over a sequence of events.
- Persistence: the stored best score is a constructor parameter. The `localStorage` write on a new record (game.js:234) is not modelled. A stored value that `parseInt` would turn into NaN is not modelled; the parameter is always an integer.
- Floating point: positions and steps are integers, and the multiplier is counted exactly in quarters. This matches the source as long as `d · cloneSpeed` is exact in a double, which it is for every reachable level.
- Object identity: `clampRect` mutates its argument, and `updateClones` mutates each clone object. The model returns a new position and replaces the clone in the sequence. No clone object is aliased anywhere else, so nothing observable is lost. The constant `w`/`h` fields of the player and clones (always `PLAYER_SIZE`) are not stored.
- Boot, asset loading, `resize`, the install prompt (game.js:22-29, 316-353) and the service worker `sw.js`: browser I/O with no gameplay logic.
