# arcgame, modelled in Dafny

arcgame is a DDNet-style 2D platformer written in Python. This project models its game logic in Dafny and proves properties of that model. The modelled parts are:

- the tee's physics: the `CharacterPhysics` tick, the deferred pair pass and move, the grappling hook and jump bits, and the second, `dt`-based physics used by the client and server;
- the tile grid and its collision sweeps, and the vector helpers beneath them;
- the gameplay bookkeeping: health, armour, weapons and projectiles, the deathmatch and team-deathmatch modes, votes and the anticheat counters;
- the map and demo byte formats and the map validator;
- the map and server browsers;
- the key bindings and the server settings.

Each Python module becomes one Dafny module. Code that changes objects in place becomes classes with `modifies` and `reads` clauses, and loops become methods with invariants. Each method is proved against a function that states its result. Pure helpers become functions and lemmas.

Python floats are modelled as `real`. `sqrt` and `pow` become function parameters, constrained only as far as the proofs need. Time (`time.time()`) becomes a `now` argument, and file contents become byte sequences.

A few places where the code does something other than what its own comments say are listed under "## Findings". The model proves the behaviour as written for each of them, and uses the intended behaviour elsewhere. One more such place is the server browser's sort. Its key `(ping, -ratio)` puts fuller servers first, while the comment beside it says full servers come last. The model keeps the key as written, and `ServerBrowser.FullerFirst` states the order it really gives.

Two server-browser behaviours are also modelled as written:

- Moving DOWN on an empty server list leaves the selection at -1, so RETURN later joins the last server (`ServerBrowser.DownOnEmptyThenJoin`).
- A search that shortens the list below the selection makes RETURN raise an index error (`ServerBrowser.StaleIndexRaises`).

## Model

| member | source | states |
|---|---|---|
| Vec2.LengthSq | arcgame/base/vec2.py:43-45 | the squared length is never negative |
| Vec2.LengthSqPositive | arcgame/base/vec2.py:43-45 | the squared length is zero exactly for the zero vector |
| Vec2.DistanceSq | arcgame/base/vec2.py:53-57 | the squared distance is never negative |
| Vec2.LengthFacts | arcgame/base/vec2.py:39-41 | the length is non-negative, zero exactly for the zero vector, and squares to `length_sq` |
| Vec2.LengthZero | arcgame/base/vec2.py:39-41 | the length is non-negative and zero exactly for the zero vector |
| Vec2.LengthCompare | arcgame/base/vec2.py:39-45 | comparing a length with a non-negative bound is comparing `length_sq` with the bound's square |
| Vec2.DistanceCompare | arcgame/base/vec2.py:47-57 | comparing `distance` with a non-negative bound is comparing `distance_sq` with the bound's square |
| Vec2.ScaleLengthSq | arcgame/base/vec2.py:19-21 | scaling by `s` multiplies the squared length by `s * s` |
| Vec2.ScaleToLength | arcgame/base/vec2.py:89-91 | scaling a non-zero vector by `m / length` gives squared length `m * m` |
| Vec2.Normalize | arcgame/base/vec2.py:59-64 | a vector of length 0 maps to (0, 0) with no division; any other is divided by its length |
| Vec2.NormalizeUnit | arcgame/base/vec2.py:59-64 | the zero vector normalises to (0, 0); any other vector to one of unit length in the same direction |
| Vec2.ClampLength | arcgame/base/vec2.py:86-92 | a vector no longer than `m` (or zero) comes back unchanged; a longer one is scaled by `m / length` |
| Vec2.ClampLengthBound | arcgame/base/vec2.py:86-92 | for `m >= 0` the result is no longer than `m`, and exactly `m` long when the clamp applied |
| Vec2.ApproxEqReflexive | arcgame/base/vec2.py:35-37 | tolerance equality is reflexive |
| Vec2.ApproxEqSymmetric | arcgame/base/vec2.py:35-37 | tolerance equality is symmetric |
| Vec2.ApproxEqNotTransitive | arcgame/base/vec2.py:35-37 | tolerance equality is not transitive: three points exhibit it |
| Vec2.DotSymmetric | arcgame/base/vec2.py:66-68 | `dot` is symmetric |
| Vec2.CrossAntisymmetric | arcgame/base/vec2.py:70-72 | `cross` is antisymmetric and zero for a vector with itself |
| Vec2.Clamp01 | arcgame/base/vec2.py:114 | `max(0.0, min(1.0, t))` lies in [0, 1], is `t` inside it and the nearer end outside it |
| Vec2.ClosestPointOnLine | arcgame/base/vec2.py:105-115 | a segment with squared length below 1e-8 yields its start; otherwise `start + t (end - start)` with `t` in [0, 1] |
| Vec2.ProjectionGap | arcgame/base/vec2.py:114 | the clamped projection parameter minimises the distance quadratic over [0, 1] |
| Vec2.ClosestPointOnLineIsClosest | arcgame/base/vec2.py:105-115 | no point of a non-degenerate segment is nearer to `point` than the returned one |
| Vec2.ClosestPointOnRectangle | arcgame/base/vec2.py:118-122 | the result lies in a rectangle of non-negative size and is the point itself when the point is inside |
| Vec2.Lerp | arcgame/base/vec2.py:125-127 | `t <= 0` gives `a`, `t >= 1` gives `b`, and between them the clamped interpolation |
| Collision.TileCoord | arcgame/base/collision.py:16-17 | `int(x // ts)` is the floor of `x / ts`: `t <= x / ts < t + 1` |
| Collision.TileCoordUnique | arcgame/base/collision.py:16-17 | the tile coordinate is the only integer whose cell contains the coordinate |
| Collision.TileMap.constructor | arcgame/base/collision.py:8-12 | a new map has the given size and every tile empty (0) |
| Collision.TileMap.TileIndex | arcgame/base/collision.py:14-22 | -1 exactly when the floored cell is outside the grid, otherwise that cell's id |
| Collision.TileMap.SetTile | arcgame/base/collision.py:24-30 | an in-bounds position overwrites exactly its own cell; an out-of-bounds one changes nothing |
| Collision.TileMap.ClosestTilePos | arcgame/base/collision.py:36-40 | the top-left corner of the tile holding `pos`, a whole number of tiles from the origin |
| Collision.TileMap.IsSolid | arcgame/base/collision.py:32-34 | exactly when the cell holding the position is in the grid and has id 1 |
| Collision.OutOfBoundsNotSolid | arcgame/base/collision.py:32-34 | a position outside the grid (id -1) is not solid |
| Collision.ClampToMapBounds | arcgame/base/collision.py:179-189 | the result lies in `[0, w*ts] x [0, h*ts]`, is the point itself when inside, and the nearest point of the extent per axis |
| Collision.ClampToMapBoundsIdempotent | arcgame/base/collision.py:179-189 | clamping twice is clamping once |
| Collision.CollisionWorld.constructor | arcgame/base/collision.py:45-47 | the world starts with the given map, possibly none |
| Collision.CollisionWorld.SetMap | arcgame/base/collision.py:49-51 | the world uses the given map afterwards |
| Collision.CollisionWorld.CollidePoint | arcgame/base/collision.py:53-57 | never with no map; otherwise exactly when the cell holding the point is in the grid and has id 1 |
| Collision.CollisionWorld.CollideRect | arcgame/base/collision.py:59-73 | never with no map; a box of size zero collides exactly when its point does |
| Collision.CollisionWorld.CollideRectCorners | arcgame/base/collision.py:59-73 | `collide_rect` holds exactly when `collide_point` holds at one of the four corners |
| Collision.CollisionWorld.NoSolidMeansFree | arcgame/base/collision.py:59-73 | in a map without solid cells no rectangle collides |
| Collision.CollisionWorld.MovePoint | arcgame/base/collision.py:91-111 | no map: `pos + delta`; otherwise the full move when free, else the X-only move when free, else the Y-only move when free, else `pos`; a result other than `pos` is always free |
| Collision.CollisionWorld.SweepEndsFree | arcgame/base/collision.py:129-144 | every position the stepping loop accepts is the start or a box that does not collide |
| Collision.CollisionWorld.SweepCounts | arcgame/base/collision.py:129-144 | at most `steps` X sub-steps; Y sub-steps equal them or are one fewer; all X steps means all Y steps |
| Collision.CollisionWorld.SweepPosition | arcgame/base/collision.py:129-144 | the box moves by whole sub-steps: `xSteps` of `fraction_x` and `ySteps` of `fraction_y` |
| Collision.CollisionWorld.SweepUnobstructed | arcgame/base/collision.py:129-144 | in a map with no solid cell the loop completes every sub-step on both axes |
| Collision.CollisionWorld.SweepThroughFree | arcgame/base/collision.py:129-144 | when no box of the given size collides anywhere, the loop takes every one of its sub-steps on both axes |
| Collision.CollisionWorld.SweepBox | arcgame/base/collision.py:129-144 | the stepping loop ends where the sweep specification says |
| Collision.CollisionWorld.StepCount | arcgame/base/collision.py:122-123 | `steps = max(1, int(max(abs(vx), abs(vy))))` is at least 1 and at most that maximum |
| Collision.CollisionWorld.RemainingVelocity | arcgame/base/collision.py:146-155 | each returned component is the input component or 0 (the intended rule: zeroed when its axis fell short of the full move) |
| Collision.CollisionWorld.RemainingVelocityAsWritten | arcgame/base/collision.py:151-155 | the rule as written, comparing with `abs(v * steps)`: each component is the input or 0 |
| Collision.CollisionWorld.PartialCoverage | arcgame/base/collision.py:150-155 | `k` of `n` sub-steps of `v / n` fall short of `v` exactly when `k < n` and `v != 0` |
| Collision.CollisionWorld.AxisRule | arcgame/base/collision.py:150-155 | one axis of the intended rule: zeroed exactly when non-zero and not every sub-step was taken |
| Collision.CollisionWorld.VelocityRule | arcgame/base/collision.py:146-155 | the intended rule applied to a sweep of `kx` and `ky` sub-steps out of `n` |
| Collision.CollisionWorld.MoveBoxFacts | arcgame/base/collision.py:113-157 | no map: `(pos + velocity, velocity)`; otherwise a free box or the start, each velocity component kept or zeroed by the rule |
| Collision.CollisionWorld.ScaledExceeds | arcgame/base/collision.py:151 | `abs(v) < abs(v * steps)` for non-zero `v` and `steps >= 2` |
| Collision.CollisionWorld.FullSweepRules | arcgame/base/collision.py:151-155 | a complete sweep lands on `pos + velocity`; the rule as written zeroes its X speed, the intended rule keeps it |
| Collision.CollisionWorld.AsWrittenStopsUnblockedBox | arcgame/base/collision.py:151-155 | in a map with no solid tile, an X speed of 2 or more is reported as stopped by the rule as written |
| Collision.CollisionWorld.MoveBox | arcgame/base/collision.py:113-157 | `move_box` returns the position and velocity of its specification |
| World.FillRow | arcgame/game/world.py:37-52 | one platform loop: the given cells of one row become 1 and every other cell is kept |
| World.BuildLayout | arcgame/game/world.py:33-52 | the nested loops build the 50 x 30 test layout cell by cell |
| World.TileCoordOfCorner | arcgame/game/world.py:56-58 | `x * tile_size` lands on tile `x`, so the copy loop writes each cell to its own tile |
| World.GameWorld.constructor | arcgame/game/world.py:9-18 | a world without a map: empty grid, tile size 32, no tile map |
| World.GameWorld.LoadDdnetMap | arcgame/game/world.py:20-61 | a missing path fails and changes nothing; otherwise the 50 x 30 layout, a tile map equal to it cell by cell, used by the collision world |
| World.GameWorld.GetTile | arcgame/game/world.py:63-71 | the tile under the truncated cell, -1 exactly when that cell is outside the grid |
| World.GameWorld.GetTileNegativeStrip | arcgame/game/world.py:63-71 | coordinates in (-tile_size, 0) read column or row 0 rather than -1 |
| World.GameWorld.GetTileAgreesWithTileMap | arcgame/game/world.py:63-71 | at non-negative coordinates `get_tile` and the tile map's `get_tile_index` agree |
| World.GameWorld.MoveBox | arcgame/game/world.py:77-79 | `move_box` is the collision world's `move_box` |
| World.GameWorld.CheckCollision | arcgame/game/world.py:73-75 | never without a tile map; a box of size zero collides exactly when its point does |
| World.ClampVel | arcgame/game/world.py:86-105 | bit 1 zeroes only negative x, 2 only positive x, 4 only negative y, 8 only positive y; all else passes unchanged |
| World.ClampVelNoRestrictions | arcgame/game/world.py:90-105 | with no restriction bits the clamp is the identity |
| World.ClampVelIdempotent | arcgame/game/world.py:90-105 | clamping twice with the same bits is clamping once |
| Character.SaturatedAdd | arcgame/game/character.py:489-504 | a negative modifier never takes the value below the lower bound and a non-negative one never above the upper bound; a value already outside the band on that side is left alone |
| Character.SaturatedAddBounds | arcgame/game/character.py:489-504 | the value moves in the modifier's direction, a value inside the band stays inside it, and a value outside is never pushed further out |
| Character.VelocityRamp | arcgame/game/character.py:506-511 | the ramp is 1 below the start, always positive, and at most 1 for a curvature of at least 1 |
| Character.JumpInput | arcgame/game/character.py:210-227 | holding jump after a jump on the same press does nothing; a grounded tee with jumps left makes a ground jump, an airborne one an air jump while its air jumps are not spent; releasing clears only the held bit; the jump flags stay within two bits |
| Character.Landed | arcgame/game/character.py:246-248 | landing clears only the spent-air-jumps bit |
| Character.Steer | arcgame/game/character.py:250-256 | with input the horizontal speed is a saturated add towards the wanted side within the control speed; without input friction scales it |
| Character.SteerStaysInBand | arcgame/game/character.py:250-254 | steering never takes the horizontal speed out of the control-speed band and moves it towards the wanted side |
| Character.CapSpeedBound | arcgame/game/character.py:405-407 | after the cap the speed is at most 6000 |
| Character.BodyIgnoresLink | arcgame/game/character.py:168-181 | the hook link is separate from the rest of the character's state |
| Character.RelinkEffect | arcgame/game/character.py:168-181 | `set_hooked_player(h)` changes only hook links: the caller hooks `h`, and its id leaves the old target's attached set and joins the new one's when it has an id and `h` is new |
| Character.RelinkAttached | arcgame/game/character.py:170-179 | every attached set after `set_hooked_player` is the old set with the caller's id removed from the old target and added to the new |
| Character.RelinkKeepsLinks | arcgame/game/character.py:168-181 | `set_hooked_player` keeps the roster well formed and keeps consistent hook links consistent |
| Character.RelinkUnmoved | arcgame/game/character.py:168-181 | `set_hooked_player` changes no other character and nothing of the caller but its link |
| Character.ReplaceKeepsLinks | arcgame/game/character.py:183-348 | writing back a character with the same id and links keeps the roster well formed and consistent and moves nobody else |
| Character.ResetCore | arcgame/game/character.py:125-166 | `reset` puts the tee at rest at the origin, hook idle and detached, no jumps used, two jumps, no events, the flags cleared and the aim straight up |
| Character.ResetListFacts | arcgame/game/character.py:125-166 | after `reset` the roster is still well formed and the reset character's link is cut as by `set_hooked_player(-1)` |
| Character.ResetLinks | arcgame/game/character.py:125-166 | after `reset` the hook links are consistent exactly when no other character with an id hooked the reset one (its attached set is cleared while they still hook it) |
| Character.Visited | arcgame/game/character.py:284-286 | the loops visit the first 64 slots, or all of them when there are fewer |
| Character.InputBody | arcgame/game/character.py:198-241 | the input sets the walking direction and applies the jump input; hook pressed while idle throws the hook 42 units out along the aim with the launch event; released hook goes idle at the tee |
| Character.LandAndSteer | arcgame/game/character.py:243-256 | a grounded tee gets its air jumps back; the horizontal speed is steered; nothing else changes |
| Character.HookTimer | arcgame/game/character.py:258-266 | an idle hook stays at the tee, the retract states count up to the end state which becomes retracted with the retract event, and a retracted hook stays as it is |
| Character.RetractTakesThreeTicks | arcgame/game/character.py:262-266 | a retraction passes through the end state to retracted in three ticks, raising the retract event once, and then stays |
| Character.Fly | arcgame/game/character.py:267-276 | a flying hook advances by the fire speed; one beyond the hook length turns to retraction and is pulled back onto the reach circle |
| Character.FlyStaysInReach | arcgame/game/character.py:272-276 | the hook point never leaves the reach circle, and a pulled-back point lies on it in the direction of the advanced point |
| Character.GrabScanNearest | arcgame/game/character.py:281-297 | the grabbed player is a candidate at least as near as every candidate seen; without a previous hook a player is grabbed exactly when some candidate exists |
| Character.FlyingBody | arcgame/game/character.py:293-306 | a player grab wins with its event; a retracting hook keeps its point; a still-flying hook grabs solid ground with its event or moves on |
| Character.Drag | arcgame/game/character.py:318-336 | the world-grab pull is taken only while the new speed stays under the drag speed or slows the tee, so the speed never exceeds the larger of the two |
| Character.WorldPull | arcgame/game/character.py:318-319 | with a hooked player there is no world pull |
| Character.GrabbedOutcome | arcgame/game/character.py:307-345 | a world grab keeps its hook; a player grab whose slot emptied, held by a tee without an id, or held over 60 ticks is released to the tee; a kept one follows the hooked player |
| Character.GrabReleaseKeepsVelocity | arcgame/game/character.py:308-319 | a player grab released because the slot emptied or the tee has no id does not pull the tee in the same tick |
| Character.NoPullAtTee | arcgame/game/character.py:318-319 | with the hook at the tee there is no pull |
| Character.PairStep | arcgame/game/character.py:353-400 | one pair-loop iteration changes only the tee's velocity and, when the tee hooks this slot, that character's velocity; every other slot is unchanged |
| Character.PairPassTouches | arcgame/game/character.py:353-400 | the pair loop keeps everything of the tee but its velocity and changes no other slot except the hooked one's velocity |
| Character.DeferredFacts | arcgame/game/character.py:350-407 | `tick_deferred` keeps all ids and hook links, so the roster stays well formed and consistent |
| Character.DeferredSpeedCap | arcgame/game/character.py:350-407 | after `tick_deferred` the tee's speed is at most 6000 |
| Character.MoveRamp | arcgame/game/character.py:411-413 | the ramp of `move` is positive |
| Character.FirstBlocker | arcgame/game/character.py:466-478 | the blocker found is -1 or an occupied slot of the range other than the tee |
| Character.StepPosOnSegment | arcgame/game/character.py:455-487 | the player check ends between the tee's position and the swept one |
| Character.StepPosUnblocked | arcgame/game/character.py:455-487 | with no blocking character the player check reaches the swept position |
| Character.PlayerCheckFacts | arcgame/game/character.py:455-487 | the player check ends on the segment, and at the swept position when nobody blocks |
| Character.Colliding | arcgame/game/character.py:442-450 | the colliding flag is 1 or 2 exactly when the swept x speed is near zero and the ramped one was to the right or left, and 0 otherwise |
| Character.AfterSweep | arcgame/game/character.py:429-453 | a tee that finds ground after the sweep gets its air jumps back; the id is kept |
| Character.RampUndone | arcgame/game/character.py:415-453 | the ramp is taken off again exactly, so a sweep that keeps the ramped velocity leaves the velocity unchanged |
| Character.Roster.constructor | arcgame/game/character.py:116-123 | the roster holds the given characters and collision map |
| Character.Roster.SetHookedPlayer | arcgame/game/character.py:168-181 | the new roster is `Relink`'s; hook links stay consistent; nothing but links changes |
| Character.Roster.Reset | arcgame/game/character.py:125-166 | the new roster is `ResetList`'s and stays well formed |
| Character.Roster.WriteBody | arcgame/game/character.py:183-348 | the tee gets the new state but keeps its links; nobody else changes; links stay consistent |
| Character.Roster.ApplyInput | arcgame/game/character.py:198-241 | the tee gets `InputBody`'s state, its link cut when the input throws or releases the hook; links stay consistent |
| Character.Roster.GrabPlayers | arcgame/game/character.py:281-297 | the player loop's outcome is `GrabScan`'s; links stay consistent and nobody moves |
| Character.Roster.GrabSlot | arcgame/game/character.py:285-297 | one iteration of the player loop, keeping the links consistent |
| Character.Roster.FlyingStep | arcgame/game/character.py:267-306 | the flying-hook step has `FlyingResult`'s outcome; links stay consistent |
| Character.Roster.FollowHooked | arcgame/game/character.py:307-316 | a grab whose slot emptied or whose tee has no id is released; links stay consistent |
| Character.Roster.GrabbedStep | arcgame/game/character.py:307-345 | the grabbed-hook step has `GrabbedBody`'s outcome; links stay consistent |
| Character.Roster.HookStep | arcgame/game/character.py:258-345 | the hook step has `HookResult`'s outcome; links stay consistent |
| Character.Roster.TickDeferred | arcgame/game/character.py:350-407 | the new roster is `DeferredList`'s; links stay consistent |
| Character.ControlledFacts | arcgame/game/character.py:185-256 | the movement part of a tick keeps the tee's id and position, resets the jump count on the ground, without input only adds gravity to the vertical speed and keeps the hook, and with input takes the input's direction and idles a released hook at the tee |
| Character.Roster.FallAndInput | arcgame/game/character.py:185-240 | the tee's body becomes `InputBody` of its body after gravity (or just the latter without input); a thrown or released hook cuts its link; other slots untouched |
| Character.Roster.TickControl | arcgame/game/character.py:185-256 | the tee's body becomes `Controlled`'s (gravity, input, landing and steering), its hook link is cut exactly when the input throws or releases the hook, and no other slot changes; links stay consistent |
| Character.Roster.Tick | arcgame/game/character.py:183-348 | the roster stays well formed with consistent links; without the deferred tick only the tee changes |
| Character.Roster.WalkToward | arcgame/game/character.py:455-487 | the player check's result is `PlayerCheck`'s |
| Character.Roster.FindBlocker | arcgame/game/character.py:466-483 | the scan finds `FirstBlocker`'s slot |
| Character.Roster.Move | arcgame/game/character.py:409-487 | the tee's new state is `MoveResult`'s; nothing else changes and links stay consistent |
| Physics.Push | arcgame/game/physics.py:83-87 | no push without a horizontal key; otherwise toward the pressed side (left wins) at 200 per second on the ground and the air control in the air |
| Physics.JumpOf | arcgame/game/physics.py:89-101 | no jump without the key; a ground jump from the ground; the second air jump only after the first; an airborne jump happens while an air jump is left |
| Physics.Override | arcgame/game/physics.py:51-53 | a flag named in the changes takes the new value, any other keeps its own |
| Physics.HookLaunchStart | arcgame/game/physics.py:152-154 | a hook fired at a target away from the body starts 24 units from it |
| Physics.HookLaunchSpeed | arcgame/game/physics.py:152-155 | a hook fired at a target away from the body flies at the fire speed |
| Physics.HookLaunchAtBody | arcgame/game/physics.py:152-155 | a hook fired at the body itself starts on it and does not move |
| Physics.ZeroingShrinks | arcgame/game/physics.py:118-132 | zeroing velocity components never makes the velocity longer |
| Physics.SlideFacts | arcgame/game/physics.py:103-135 | each velocity component is kept or zeroed, so the speed never grows; with a collision world the body ends where it was or in free space and a blocked vertical move lands it; without one it moves freely |
| Physics.HookFlown | arcgame/game/physics.py:159-176 | a hook left active was within reach after advancing; it ends grabbed exactly when it stays active and either was grabbed or the advanced point is solid; nothing but the hook state and point changes |
| Physics.HookDragged | arcgame/game/physics.py:178-195 | only the velocity changes, and within reach nothing changes |
| Physics.HookStepped | arcgame/game/physics.py:57-61 | an idle hook changes nothing, a grabbed one stays grabbed, and the position, jump flags and ground flag are kept |
| Physics.Forced | arcgame/game/physics.py:81-101 | the push is added to the horizontal speed, a jump sets the vertical speed to the impulse, only velocity, jump flags and ground flag change, and the second jump flag still implies the first |
| Physics.Accelerated | arcgame/game/physics.py:63-76 | gravity, input forces, friction and the clamp leave the speed at most the maximum, changing only velocity, jump flags and ground flag |
| Physics.Updated | arcgame/game/physics.py:55-79 | the hook ends as the hook step leaves it and the double-jump mark is kept |
| Physics.UpdatedSpeed | arcgame/game/physics.py:55-79 | an update never ends above the maximum speed |
| Physics.CharacterPhysics.constructor | arcgame/game/physics.py:8-49 | a new character is at rest at the origin with no input, hook idle, jumps fresh, not on the ground |
| Physics.Overridden | arcgame/game/physics.py:51-53 | each of the six flags named in the changes takes the given value and the others keep theirs; no changes, no difference |
| Physics.CharacterPhysics.UpdateInput | arcgame/game/physics.py:51-53 | each flag named in the changes takes the given value and the others keep theirs (the input becomes `Overridden`'s); nothing else changes |
| Physics.CharacterPhysics.ApplyInputForces | arcgame/game/physics.py:81-101 | the push is added to the horizontal speed and the jump rule applied; the new state is `Forced`'s; the second jump flag is only ever set on top of the first |
| Physics.CharacterPhysics.MoveWithCollision | arcgame/game/physics.py:103-135 | the new position, velocity and ground flag are `Slide`'s |
| Physics.CharacterPhysics.IsOnGround | arcgame/game/physics.py:137-145 | never on the ground without a collision world holding a tile map |
| Physics.CharacterPhysics.FireHook | arcgame/game/physics.py:147-157 | refused, changing nothing, unless the hook is idle; otherwise the hook starts out from the body toward the target and flies |
| Physics.CharacterPhysics.UpdateHookFlying | arcgame/game/physics.py:159-176 | the hook advances; too far away it goes idle; on a solid point it grabs and stays where it was; a hook that moved and stays active is within reach; a flying hook's new state is `HookFlown`'s |
| Physics.CharacterPhysics.UpdateHookGrabbed | arcgame/game/physics.py:178-195 | beyond the maximum distance the velocity gains the drag toward the hook; nothing else changes; the new state is `HookDragged`'s |
| Physics.CharacterPhysics.ReleaseHook | arcgame/game/physics.py:197-199 | the hook goes idle and nothing else changes |
| Physics.CharacterPhysics.ResetJumps | arcgame/game/physics.py:201-205 | on the ground both jump flags and the double-jump mark clear; in the air nothing changes |
| Physics.CharacterPhysics.DragMagnitude | arcgame/game/physics.py:178-195 | the drag added beyond reach has exactly the length of its scale factor, since it runs along a unit vector toward the hook |
| Physics.CharacterPhysics.UpdateHook | arcgame/game/physics.py:57-61 | an idle hook stays idle without changing the velocity; a grabbed hook stays grabbed; the new state is `HookStepped`'s, so a flying hook's outcome is `HookFlown`'s and a grabbed one's `HookDragged`'s |
| Physics.CharacterPhysics.Accelerate | arcgame/game/physics.py:63-76 | gravity, input forces, friction and the clamp in the source's order; the new state is `Accelerated`'s |
| Physics.CharacterPhysics.HookAndAccelerate | arcgame/game/physics.py:57-76 | the part of an update before the move: the new state is `Accelerated` of `HookStepped` |
| Physics.CharacterPhysics.Update | arcgame/game/physics.py:55-79 | the new position, velocity, jump flags, ground flag and hook are `Updated`'s; the speed ends at most the maximum speed; an idle hook stays idle and a grabbed one grabbed |
| Physics.PhysicsWorld.constructor | arcgame/game/physics.py:210-214 | a new world has no characters, time 0 and a fresh collision world without a map |
| Physics.PhysicsWorld.AddCharacter | arcgame/game/physics.py:216-220 | the character is appended and gets the shared collision world only when it had none |
| Physics.PhysicsWorld.AddCollisionMap | arcgame/game/physics.py:222-224 | the shared collision world takes the map |
| Physics.PhysicsWorld.Update | arcgame/game/physics.py:226-232 | the clock advances by `dt` and every character ends at most the maximum speed (each character's step is `CharacterPhysics.Update`) |
| EntityCharacter.FireDelay | arcgame/game/entities/character.py:295-309 | the six weapons take their tuned delay and any other id takes 10 |
| EntityCharacter.SetBit | arcgame/game/entities/character.py:221-242 | setting one jump bit sets it and leaves the other bit as it was |
| EntityCharacter.ClearBit | arcgame/game/entities/character.py:221-236 | clearing one jump bit clears it and leaves the other bit as it was |
| EntityCharacter.Steer | arcgame/game/entities/character.py:156-174 | with a direction the speed is capped at the control speed on that side; without one friction applies and a speed under 0.1 stops, so friction in [0, 1] never speeds the character up |
| EntityCharacter.FrictionSlows | arcgame/game/entities/character.py:168-170 | a friction factor in [0, 1] never makes a speed larger |
| EntityCharacter.Character.constructor | arcgame/game/entities/character.py:19-108 | a new character is alive with 10 health, no armor, at rest, the hammer in hand and ready to shoot |
| EntityCharacter.Character.Jump | arcgame/game/entities/character.py:228-254 | the character jumps exactly when on the ground or with fewer than `jumps - 1` air jumps made; a ground jump clears the air-jump bit and count, an air jump counts one more and sets the bit; no jump changes nothing |
| EntityCharacter.Character.TakeDamage | arcgame/game/entities/character.py:323-339 | a dead character is unaffected; otherwise armor absorbs what it can, the rest lowers health, and health at or below 0 kills; armor plus health drop by the damage while the character survives |
| EntityCharacter.Character.Die | arcgame/game/entities/character.py:341-351 | the character is dead with 0 health, at the origin and at rest with its jump counters cleared |
| EntityCharacter.Character.Respawn | arcgame/game/entities/character.py:353-359 | the character is alive with 10 health and no armor, spawned at the given time |
| EntityCharacter.Character.FireWeapon | arcgame/game/entities/character.py:274-293 | without a ready, owned and loaded weapon nothing changes; otherwise shooting is disabled for the weapon's delay and exactly one round of finite ammunition is used |
| EntityCharacter.Character.CanFire | arcgame/game/entities/character.py:274-285 | the checks `fire_weapon` makes before firing: only when shooting is enabled and the active weapon is owned and not at 0 rounds |
| EntityCharacter.Character.SetWeapon | arcgame/game/entities/character.py:311-314 | the character switches only to an owned weapon of its inventory |
| EntityCharacter.Character.GiveWeapon | arcgame/game/entities/character.py:316-321 | an inventory weapon becomes owned and gains the ammunition unless it is infinite; unknown ids change nothing |
| EntityCharacter.Character.UpdateCooldowns | arcgame/game/entities/character.py:388-393 | while shooting is disabled the cooldown counts down and shooting comes back once it reaches 0 |
| EntityCharacter.Character.ApplyControl | arcgame/game/entities/character.py:134-174 | gravity, the direction from the held keys (left wins) and the horizontal rule; the character is moving exactly when a direction is held |
| EntityCharacter.Character.Land | arcgame/game/entities/character.py:210-226 | the character takes the moved state; on the ground the air-jump bit and count clear, in the air the jump bit is set |
| EntityCharacter.Character.HandlePhysics | arcgame/game/entities/character.py:132-226 | control, the physics move and the jump bookkeeping; a grounded character has no air jumps counted |
| EntityCharacter.Character.Update | arcgame/game/entities/character.py:122-130 | a dead character changes nothing; for a live one the new position, velocity and ground flag are the collision move's result for the old position and the velocity after gravity and steering (left wins), a landing resets the jump count, health, weapons and the active weapon are kept, and the shot cooldown counts down once |
| Player.Topped | arcgame/game/entities/player.py:208-213 | the new count is at most 10: a count that stays under the cap grows by the amount, and infinite ammunition becomes 10 |
| Player.Spent | arcgame/game/entities/player.py:84-87 | a finite count loses one round; infinite ammunition stays infinite |
| Player.Countdown | arcgame/game/entities/player.py:59-70 | a running timer counts down by `dt` and stops at 0 once it runs out, never rising; a stopped timer is left alone |
| Player.Whitelisted | arcgame/game/entities/player.py:130-135 | the input keeps exactly the seven known keys; each takes the given value when present and keeps its own otherwise |
| Player.IgnoresOtherKeys | arcgame/game/entities/player.py:130-135 | keys outside the seven known ones change nothing |
| Player.Player.constructor | arcgame/game/entities/player.py:8-55 | a new player at the given position has 10 of 10 health, is alive and unfrozen, holds the hammer with the starting ammunition, and no input is held |
| Player.Player.Tick | arcgame/game/entities/player.py:59-70 | the freeze and emote timers count down; an emote whose timer runs out is cleared to -1 |
| Player.Player.ConsumeAmmo | arcgame/game/entities/player.py:84-87 | with fire held, an ammunition weapon that has rounds loses one; no count goes below 0 |
| Player.Player.Update | arcgame/game/entities/player.py:57-87 | the timers run; a frozen or dead player's body and physics input do not change; otherwise the physics input takes the player's input and the body's new state is `Physics.Updated`'s, at most the maximum speed, and the player faces the way it moves faster than 0.1; then the ammunition is as `ConsumeAmmo` leaves it |
| Player.Player.Step | arcgame/game/entities/player.py:72-82 | unless frozen or dead, the body's new state is `Physics.Updated`'s for the overridden input, and the facing follows the horizontal speed beyond 0.1; timers, health and ammunition untouched |
| Player.Player.Drive | arcgame/game/entities/player.py:74-76 | the physics input takes the player's input, the body's new state is `Physics.Updated`'s, and the speed is at most the maximum |
| Player.Player.TakeDamage | arcgame/game/entities/player.py:89-98 | a dead or frozen player is unaffected; otherwise health drops by the amount and the result says whether that killed the player, crediting the source |
| Player.Player.Heal | arcgame/game/entities/player.py:100-102 | health rises by the amount but never above the maximum |
| Player.Player.Die | arcgame/game/entities/player.py:104-116 | the player is dead with no health, the body at rest with the hook idle, and a killer scores one point |
| Player.Player.Respawn | arcgame/game/entities/player.py:118-128 | the player is alive at full health, unfrozen, at rest at the spawn point with the jumps cleared; score and weapons are kept |
| Player.Player.ResetBody | arcgame/game/entities/player.py:123-128 | the body is at rest at the spawn point with both jumps available |
| Player.Player.SetInput | arcgame/game/entities/player.py:130-135 | the input becomes `Whitelisted`'s |
| Player.Player.SwitchWeapon | arcgame/game/entities/player.py:201-206 | the player switches exactly when the weapon is one of the five, and the result says so |
| Player.Player.AddAmmo | arcgame/game/entities/player.py:208-213 | a known weapon's count becomes `Topped`'s; unknown names change nothing |
| Player.Player.Freeze | arcgame/game/entities/player.py:215-217 | the freeze timer is set to the duration |
| Player.Player.Unfreeze | arcgame/game/entities/player.py:219-221 | the freeze timer is cleared |
| Player.Player.AddScore | arcgame/game/entities/player.py:227-229 | the score rises by the points |
| Player.Player.ResetScore | arcgame/game/entities/player.py:223-225 | the score is 0 |
| Player.EntityManager.constructor | arcgame/game/entities/player.py:234-239 | a new manager has no players and no entities |
| Player.EntityManager.AddPlayer | arcgame/game/entities/player.py:241-244 | the player is registered under its id and appended to the entities, and every registered player stays in the entities |
| Player.EntityManager.RemovePlayer | arcgame/game/entities/player.py:246-251 | an unknown id changes nothing; otherwise the id is unregistered and exactly one entry of its player leaves the entities |
| Player.EntityManager.GetPlayer | arcgame/game/entities/player.py:253-255 | a player is returned exactly when the id is registered, and it is the one under that id |
| Weapons.KindNamed | arcgame/game/weapons.py:264-280 | a weapon is found exactly for the five table names |
| Weapons.NamesRoundTrip | arcgame/game/weapons.py:264-280 | each weapon is found under its own name, and a found name is that weapon's |
| Weapons.PelletAngle | arcgame/game/weapons.py:104-121 | the eight pellets spread within [-0.2, 0.2) |
| Weapons.GrenadeMovesOrStays | arcgame/game/weapons.py:227-253 | a grenade step either moves on with the fallen velocity or stays where it was |
| Weapons.GrenadeBounceSlows | arcgame/game/weapons.py:227-253 | a step never leaves a grenade faster than its fall made it |
| Weapons.BounceSlows | arcgame/game/weapons.py:236-247 | a bounce never speeds a grenade up |
| Weapons.BulletStep | arcgame/game/weapons.py:175-192 | a removed projectile is left alone; otherwise it ages by `dt` and keeps its velocity; at the end of its lifetime it is marked without moving; otherwise it moves by `velocity * dt` and is collided and marked exactly when the new position is solid |
| Weapons.GrenadeStep | arcgame/game/weapons.py:227-259 | a removed grenade is left alone; otherwise its position and velocity are `GrenadeMove`'s, it ages by `dt`, and it is marked and exploded exactly when its age reaches the delay; the collision flag is kept |
| Weapons.Advanced | arcgame/game/weapons.py:175-253 | a removed projectile is unchanged; otherwise it ages by `dt` and is marked once its age reaches its lifetime; a bullet follows `BulletStep`, a grenade `GrenadeStep` |
| Weapons.Projectile.Bullet | arcgame/game/weapons.py:201-206 | a new bullet has the given position, velocity, damage, lifetime and owner and is not yet aged or removed |
| Weapons.Projectile.Thrown | arcgame/game/weapons.py:218-225 | a new grenade lives for the explosion delay |
| Weapons.Projectile.Radius | arcgame/game/weapons.py:203-206 | a rifle bullet has radius 1, any other bullet 2 |
| Weapons.Projectile.Update | arcgame/game/weapons.py:175-253 | the new state is `Advanced` of the old one: a projectile marked for removal is left alone, a bullet follows `BulletStep` and a grenade `GrenadeStep` |
| Weapons.Projectile.UpdateBullet | arcgame/game/weapons.py:175-198 | the new position, velocity, age and flags are `BulletStep` of the old ones |
| Weapons.Projectile.Hits | arcgame/game/weapons.py:208-215 | only a bullet hits (the base class answers nothing), and a bullet always hits an entity at its own position |
| Weapons.Projectile.UpdateGrenade | arcgame/game/weapons.py:227-253 | the new position, velocity, age and flags are `GrenadeStep` of the old ones |
| Weapons.Projectile.Explode | arcgame/game/weapons.py:255-259 | the grenade has exploded and is marked for removal; its position, velocity, age and collision flag are kept |
| Weapons.AttackAreaReach | arcgame/game/weapons.py:70-74 | for an actual aim, the swing's centre is exactly its radius away from the player |
| Weapons.Weapon.constructor | arcgame/game/weapons.py:7-17 | a new weapon has its table values, full ammunition, is not reloading and last fired at time 0 |
| Weapons.Weapon.Fire | arcgame/game/weapons.py:27-36 | a weapon that cannot fire makes no projectile and changes nothing; otherwise it uses one round of finite ammunition, records the shot time and makes new projectiles as `Created` describes: per kind the shape, lifetime and speed along the aim (each shotgun pellet turned by its angle), all live at the shooter's position with the weapon's damage and the shooter as owner; the reload state is kept |
| Weapons.Weapon.CanFire | arcgame/game/weapons.py:19-25 | only when not reloading, at least `fire_rate` after the last shot, and with ammunition left unless the ammunition or its maximum is unlimited |
| Weapons.Weapon.CreateProjectiles | arcgame/game/weapons.py:64-160 | new projectiles as `Created` describes: none for the hammer; one bullet for the gun (speed 700, lifetime 2) and rifle (1200, 3) and one grenade (500, delay 2, radius 100); eight shotgun pellets (600, 1.5), pellet i turned by `PelletAngle(i)`; all live at the given position with the weapon's damage and the shooter as owner |
| Weapons.Weapon.Reload | arcgame/game/weapons.py:42-49 | a reload starts exactly when not reloading and not full, from the given time; the ammunition and last shot time are kept |
| Weapons.Weapon.Update | arcgame/game/weapons.py:51-55 | a reload that has run for the reload time refills the ammunition and ends; otherwise the ammunition and reloading flag are kept; the reload start and last shot time are always kept |
| Weapons.Survivors | arcgame/game/weapons.py:282-289 | the survivors are exactly the projectiles not marked for removal |
| Weapons.SurvivorsAreUnflagged | arcgame/game/weapons.py:282-289 | with the flags read off the projectiles, the survivors are the unflagged ones in order |
| Weapons.AllVisited | arcgame/game/weapons.py:282-289 | once every projectile is visited, the list holds exactly the survivors of the copy |
| Weapons.WeaponManager.constructor | arcgame/game/weapons.py:264-272 | a new manager has no projectiles |
| Weapons.WeaponManager.GetWeapon | arcgame/game/weapons.py:274-280 | a table name gives a new weapon of that kind and any other name none |
| Weapons.WeaponManager.AddProjectile | arcgame/game/weapons.py:291-293 | the projectile is appended |
| Weapons.WeaponManager.UpdateProjectiles | arcgame/game/weapons.py:282-289 | for a list holding each projectile once, every projectile of it is updated once (its new state is `Advanced` of its old one) and exactly the unmarked ones stay, in order; in any case no projectile is ever added |
| Weapons.WeaponManager.Sweep | arcgame/game/weapons.py:284-289 | the loop removes only projectiles of the copy; for a copy without duplicates it updates each projectile once as `Advanced` says and leaves the unmarked ones in order |
| Weapons.WeaponManager.Visit | arcgame/game/weapons.py:285-289 | one pass keeps the loop's invariant: the visited projectiles are updated once and the unmarked ones among them stay in order, the rest are untouched |
| Weapons.WeaponManager.Drop | arcgame/game/weapons.py:288-289 | removing a marked projectile keeps the list between the rest of the copy and the copy, and for a copy without duplicates keeps it as the unmarked visited ones followed by the rest |
| Weapons.WeaponManager.Step | arcgame/game/weapons.py:286-287 | the projectile is updated once as `Advanced` says and the step reports exactly whether it is marked; earlier marks and updates are kept and later projectiles are untouched |
| Weapons.WeaponManager.InRadius | arcgame/game/weapons.py:295-301 | the result holds exactly the projectiles at most the radius away |
| Weapons.Near | arcgame/game/weapons.py:295-301 | the result holds exactly the projectiles of the list at most the radius away |
| GameModes.AnyReaches | arcgame/game/gamemodes/deathmatch.py:84-86 | the loop finds a score at the limit exactly when some score reaches it |
| GameModes.Zeroes | arcgame/game/gamemodes/deathmatch.py:36-40 | the table holds exactly the given ids, each at 0 |
| GameModes.Deathmatch.constructor | arcgame/game/gamemodes/deathmatch.py:7-22 | a new deathmatch is detached with empty tables, a score limit of 20 and a time limit of 600 |
| GameModes.Deathmatch.Initialize | arcgame/game/gamemodes/deathmatch.py:24-27 | the mode is attached and every player of the server starts from zero |
| GameModes.Deathmatch.ResetScores | arcgame/game/gamemodes/deathmatch.py:29-40 | the tables hold a zero row for each player of an attached server and nothing otherwise |
| GameModes.Deathmatch.PlayerJoined | arcgame/game/gamemodes/deathmatch.py:42-46 | the player starts (or starts again) from zero in all three tables |
| GameModes.Deathmatch.PlayerLeft | arcgame/game/gamemodes/deathmatch.py:48-55 | the player's rows leave all three tables |
| GameModes.Deathmatch.PlayerKilled | arcgame/game/gamemodes/deathmatch.py:57-66 | a tracked victim gains a death; a killer gains a frag and a point exactly when its id is given, non-zero and tracked |
| GameModes.Deathmatch.CheckGameEnd | arcgame/game/gamemodes/deathmatch.py:81-92 | the round is over (`RoundOver`) exactly when some score reached the limit or a set time limit is reached |
| GameModes.Deathmatch.EndGame | arcgame/game/gamemodes/deathmatch.py:94-107 | with a server attached a new round starts from zero; without one nothing changes |
| GameModes.Deathmatch.Update | arcgame/game/gamemodes/deathmatch.py:73-79 | the round clock advances by `dt`; when the round is then over (`RoundOver` of the new time and the old scores) and a server is attached, the clock and all three tables restart from zero for the given players, and otherwise the tables are kept |
| GameModes.Deathmatch.PlayerScore | arcgame/game/gamemodes/deathmatch.py:109-111 | the player's score, 0 for an unknown id; a score never goes below 0 and equals the frags |
| GameModes.Deathmatch.PlayerStats | arcgame/game/gamemodes/deathmatch.py:113-120 | unknown ids read as zero, and the ratio times the larger of 1 and the deaths is the frags |
| GameModes.AddMember | arcgame/game/gamemodes/deathmatch.py:179-185 | adding a new player to a team grows that team by one and leaves the other teams alone |
| GameModes.JoinTeam | arcgame/game/gamemodes/deathmatch.py:176-185 | the chosen team is one of the two and is not the larger one |
| GameModes.JoinKeepsBalance | arcgame/game/gamemodes/deathmatch.py:176-185 | a newcomer keeps two balanced teams balanced |
| GameModes.KillCredit | arcgame/game/gamemodes/deathmatch.py:192-201 | a team is credited exactly when both teams are known and differ, and it is the killer's |
| GameModes.FriendlyFireEnabled | arcgame/game/gamemodes/deathmatch.py:203-206 | friendly fire is always off in team deathmatch |
| GameModes.DealTeams | arcgame/game/gamemodes/deathmatch.py:169-174 | the teams are `Dealt`: the i-th player on team i mod 2 and nobody else, so the two teams are balanced |
| GameModes.TeamDeathmatch.constructor | arcgame/game/gamemodes/deathmatch.py:143-157 | a new team deathmatch is detached with both team scores at 0, no players, a score limit of 30 and a time limit of 900 |
| GameModes.TeamDeathmatch.Initialize | arcgame/game/gamemodes/deathmatch.py:159-162 | the mode is attached, both team scores are 0 and the server's players are `Dealt` into two balanced teams |
| GameModes.TeamDeathmatch.ResetScores | arcgame/game/gamemodes/deathmatch.py:164-174 | both team scores are 0; the players of an attached server are `Dealt` (team i mod 2, nobody else) and a detached mode has no players |
| GameModes.TeamDeathmatch.PlayerJoined | arcgame/game/gamemodes/deathmatch.py:176-185 | the player goes to `JoinTeam`'s team |
| GameModes.TeamDeathmatch.PlayerLeft | arcgame/game/gamemodes/deathmatch.py:187-190 | the player's team entry is dropped |
| GameModes.TeamDeathmatch.PlayerKilled | arcgame/game/gamemodes/deathmatch.py:192-206 | the team `KillCredit` names scores a point; a kill within one team scores nothing |
| GameModes.TeamDeathmatch.CheckGameEnd | arcgame/game/gamemodes/deathmatch.py:220-231 | the round is over (`RoundOver`) exactly when some team reached the limit or a set time limit is reached |
| GameModes.TeamDeathmatch.EndGame | arcgame/game/gamemodes/deathmatch.py:233-244 | with a server attached the clock restarts, both team scores are 0 and the players are `Dealt` into balanced teams; without one nothing changes |
| GameModes.TeamDeathmatch.Update | arcgame/game/gamemodes/deathmatch.py:212-218 | the round clock advances by `dt`; when the round is then over and a server is attached, the clock restarts, both team scores are 0 and the players are `Dealt` into balanced teams; otherwise scores and teams are kept |
| GameModes.TeamDeathmatch.TeamScore | arcgame/game/gamemodes/deathmatch.py:246-248 | the team's score, 0 for an unknown team |
| GameModes.TeamDeathmatch.PlayerTeam | arcgame/game/gamemodes/deathmatch.py:250-252 | the player's team, which is 0 or 1, and -1 exactly for an unknown player |
| GameModes.ModeNamed | arcgame/game/gamemodes/deathmatch.py:283-288 | a mode is found exactly for "DM" and "TDM" |
| GameModes.GameModeManager.constructor | arcgame/game/gamemodes/deathmatch.py:283-288 | a new manager has both modes and none active |
| GameModes.GameModeManager.SetGameMode | arcgame/game/gamemodes/deathmatch.py:290-297 | a known name becomes the active mode, initialised with the server when one is given: deathmatch restarts all three tables from zero for the server's players, team deathmatch zeroes both team scores and deals the players into balanced teams, the other mode untouched; an unknown name is refused and changes nothing |
| GameModes.GameModeManager.Update | arcgame/game/gamemodes/deathmatch.py:303-306 | the active mode advances exactly as its own `update` says (clock, and the end-of-round reset when `RoundOver`); the inactive mode is untouched and with none nothing changes |
| Votes.VotedAfterVote | arcgame/server/vote_manager.py:94-108 | recording a ballot takes the player off the side they were on and puts them on the side of the new ballot |
| Votes.BallotsAfterVote | arcgame/server/vote_manager.py:94-108 | recording a ballot moves one count from the old side, if any, to the new one |
| Votes.BallotsCoverVoters | arcgame/server/vote_manager.py:94-108 | every voter is on exactly one side, so the two tallies add up to the number of distinct voters |
| Votes.NoBallots | arcgame/server/vote_manager.py:11-21 | nobody has voted in a fresh ballot box |
| Votes.Passes | arcgame/server/vote_manager.py:44-51 | no votes fail; otherwise a vote passes exactly with strictly more yes than no |
| Votes.Vote.constructor | arcgame/server/vote_manager.py:11-21 | a new vote starts now with a 30-second limit, no ballots, active and not executed |
| Votes.Vote.TimeRemaining | arcgame/server/vote_manager.py:23-26 | the whole seconds left, truncated toward zero and never negative, reading 0 once less than a second is left |
| Votes.Vote.IsExpired | arcgame/server/vote_manager.py:28-30 | a vote is expired exactly when less than one second of its limit is left |
| Votes.Vote.GetResult | arcgame/server/vote_manager.py:32-42 | a result exists exactly for an active, expired vote, and it passes exactly with some votes and more yes than no |
| Votes.Vote.CalculateResult | arcgame/server/vote_manager.py:44-51 | with the counters kept as tallies, the vote passes exactly with more yes than no |
| Votes.ActionFor | arcgame/server/vote_manager.py:119-157 | a passed map, kick or option vote carries out its one action on the subject; any other kind none |
| Votes.VoteManager.constructor | arcgame/server/vote_manager.py:57-64 | a new manager has no vote, a 10-second cooldown, a threshold of one half and at least 2 voters |
| Votes.VoteManager.StartVote | arcgame/server/vote_manager.py:66-87 | a vote starts exactly when `can_start_vote` allows it and the kind is map, kick or option; the start time is recorded; a refusal changes nothing |
| Votes.VoteManager.CanStartVote | arcgame/server/vote_manager.py:194-207 | only when voting is on, the cooldown has passed since the last vote and no vote is active; and always then when no vote exists at all |
| Votes.VoteManager.CastVote | arcgame/server/vote_manager.py:89-117 | refused without an active vote; otherwise the ballot is recorded (replacing an earlier one) with the tallies kept in step, and an expired vote is closed and executed |
| Votes.VoteManager.ExecuteVote | arcgame/server/vote_manager.py:119-139 | only an executed vote counts, and exactly a passed one carries out its action |
| Votes.VoteManager.VotesNeeded | arcgame/server/vote_manager.py:177-184 | 0 without a vote, otherwise at least the minimum and more than half the votes cast |
| Votes.VoteManager.Update | arcgame/server/vote_manager.py:186-192 | an expired vote is closed as failed, so expiry never carries out an action; the ballots are kept |
| Votes.VoteManager.GetVoteStatus | arcgame/server/vote_manager.py:159-175 | the tallies, their total (the number of voters), the time left and the votes needed, which the total stays under twice |
| Votes.VoteManager.GetPlayerVoteStatus | arcgame/server/vote_manager.py:209-221 | a player may vote exactly while the vote is active and they have not voted; a recorded ballot is reported |
| Votes.VoteManager.CancelVote | arcgame/server/vote_manager.py:223-232 | the vote is deactivated and dropped |
| Anticheat.Recent | arcgame/server/anticheat.py:186-192 | the kept events are exactly the ones less than an hour old |
| Anticheat.RecentAppend | arcgame/server/anticheat.py:175-192 | filtering a log with one more event keeps that event exactly when it is recent |
| Anticheat.RecentIdempotent | arcgame/server/anticheat.py:186-192 | filtering twice at the same time changes nothing |
| Anticheat.SpeedExceeds | arcgame/server/anticheat.py:57-73 | the speed exceeds a limit exactly when the squared distance exceeds the squared allowance |
| Anticheat.RecentConnectionTimes | arcgame/server/anticheat.py:137-162 | the window holds exactly the connection times less than a minute old |
| Anticheat.RecentConnections | arcgame/server/anticheat.py:164-168 | with no history kept, no address ever floods |
| Anticheat.AnticheatSystem.StatsOf | arcgame/server/anticheat.py:24-36 | an unknown player reads as fresh counters |
| Anticheat.AnticheatSystem.constructor | arcgame/server/anticheat.py:12-22 | a new system tracks no players and no events |
| Anticheat.AnticheatSystem.RegisterPlayer | arcgame/server/anticheat.py:24-36 | the player gets fresh counters, replacing any it had; nothing else changes |
| Anticheat.AnticheatSystem.UnregisterPlayer | arcgame/server/anticheat.py:38-45 | the player is forgotten by all three tables |
| Anticheat.AnticheatSystem.ResetPlayerStats | arcgame/server/anticheat.py:207-220 | a known player gets fresh counters; an unknown one stays unknown |
| Anticheat.AnticheatSystem.LogSuspiciousEvent | arcgame/server/anticheat.py:175-192 | the event is appended with the current time and only events less than an hour old stay |
| Anticheat.AnticheatSystem.CheckMovement | arcgame/server/anticheat.py:47-87 | a move faster than 150 per second from the last accepted position counts a violation and is refused without being accepted; the new log is the recent events followed by the speed-hack event with the measured speed, the limit and the position; an accepted move records the position and time and leaves the log alone; violations only grow and no other player changes |
| Anticheat.AnticheatSystem.MeasureMove | arcgame/server/anticheat.py:56-74 | a move is flagged exactly when a last position and time exist and the speed exceeds 1.5 times 100 |
| Anticheat.AnticheatSystem.CheckKill | arcgame/server/anticheat.py:89-117 | the kill is counted and extends a streak within 5 seconds; a streak reaching the warning level is logged and reset; always accepted |
| Anticheat.AnticheatSystem.CheckInput | arcgame/server/anticheat.py:119-135 | an input is refused exactly when left and right are pressed together |
| Anticheat.AnticheatSystem.CheckConnectionFlood | arcgame/server/anticheat.py:137-162 | the address is accepted exactly when its last minute's connections are under the limit, which with no history kept is always |
| Anticheat.AnticheatSystem.GetPlayerViolations | arcgame/server/anticheat.py:194-199 | the speed plus teleport violations, none for an unknown player |
| Anticheat.AnticheatSystem.ShouldKickPlayer | arcgame/server/anticheat.py:201-205 | a player is kicked exactly with five violations or more |
| Bytes.DecodeU32 | arcgame/utils/demo_recorder.py:112-113 | four little-endian bytes give a value below 2^32 |
| Bytes.EncodeU32 | arcgame/utils/demo_recorder.py:84-90 | a value below 2^32 packs into four bytes |
| Bytes.DecodeEncodeU32 | arcgame/utils/demo_recorder.py:84-113 | packing and then unpacking gives back the value |
| Bytes.EncodeDecodeU32 | arcgame/utils/demo_recorder.py:84-113 | unpacking and then packing gives back the bytes |
| Bytes.DecodeI32 | arcgame/map/map_parser.py:79-85 | the signed reading is in [-2^31, 2^31), negative exactly when the top bit is set, and the unsigned reading or that less 2^32 |
| Bytes.NulFrom | arcgame/map/map_parser.py:95-104 | the index found holds the first NUL at or after the start, or is the length when there is none |
| MapParser.Row | arcgame/map/map_parser.py:270-274 | a row holds `w` integers |
| MapParser.Grid | arcgame/map/map_parser.py:268-275 | a grid holds `h` rows |
| MapParser.RowAt | arcgame/map/map_parser.py:270-274 | entry `x` of a row is the integer stored at `start + 4x` |
| MapParser.GridAt | arcgame/map/map_parser.py:268-275 | every row has `w` entries and cell `(y, x)` is the integer stored `w*y + x` places after the start |
| MapParser.SkipAsWritten | arcgame/map/map_parser.py:106-110 | as written, the cursor moves by the count and is capped at the end only, so it never passes the end |
| MapParser.NegativeSizeRepeatsItemAsWritten | arcgame/map/map_parser.py:119-141 | on the file with an item of size -8 the cursor returns to where the item began, so the loop never ends |
| MapParser.TileLayerExtra | arcgame/map/map_parser.py:259-265 | a tile layer carries 4 bytes of flags from version 2, 4 of level from version 3 and 16 of colour from version 4 |
| MapParser.RangeLen | arcgame/map/map_parser.py:269-271 | `range(n)` runs `n` times, and not at all for a negative `n` |
| MapParser.TileLayerBase | arcgame/map/map_parser.py:253-265 | the tiles start after the version, width, height and extras, within the data |
| MapParser.InfoStrings | arcgame/map/map_parser.py:145-159 | the strings of an info item leave the cursor within the data and not before where they start |
| MapParser.InfoStringsKeep | arcgame/map/map_parser.py:150-157 | an author or a name once found is never replaced, and a name is only found after an author |
| MapParser.InfoFirstAuthor | arcgame/map/map_parser.py:150-154 | with no author yet, a non-empty first string inside the item becomes the author |
| MapParser.InfoNextName | arcgame/map/map_parser.py:150-156 | with an author and no name yet, a non-empty first string inside the item becomes the name |
| MapParser.ImageStep | arcgame/map/map_parser.py:161-177 | an image item leaves the cursor within the data and not before its start |
| MapParser.EnvelopeStep | arcgame/map/map_parser.py:179-194 | an envelope item leaves the cursor within the data and not before its start |
| MapParser.GroupRead | arcgame/map/map_parser.py:196-231 | a group item leaves the cursor within the data and not before its start |
| MapParser.GroupFrom | arcgame/map/map_parser.py:200-229 | the rest of a group item after its version leaves the cursor within the data |
| MapParser.GroupFromBody | arcgame/map/map_parser.py:200-213 | from version 1 on the group body follows the version directly before version 2 and the name's NUL from version 2 on |
| MapParser.GroupBodyRead | arcgame/map/map_parser.py:203-229 | a group body leaves the cursor within the data |
| MapParser.GroupStep | arcgame/map/map_parser.py:196-231 | a group item leaves the cursor within the data and not before its start |
| MapParser.TileLayerStep | arcgame/map/map_parser.py:250-284 | a tile layer leaves the cursor within the data and not before its start |
| MapParser.LayerStep | arcgame/map/map_parser.py:233-248 | a layer item leaves the cursor within the data and not before its start |
| MapParser.ItemStep | arcgame/map/map_parser.py:112-141 | a parsed item moves the cursor past its 8-byte header and stays within the data |
| MapParser.Parsed | arcgame/map/map_parser.py:35-69 | a file has no record exactly when it is shorter than the version integer |
| MapParser.ItemStepEvolves | arcgame/map/map_parser.py:112-141 | one item changes a record only as `Evolves` allows: version and entities kept, lists only grow, author and name and the first grid once set stay |
| MapParser.ItemsFromEvolves | arcgame/map/map_parser.py:112-143 | the whole item loop changes a record only as `Evolves` allows |
| MapParser.ParsedFacts | arcgame/map/map_parser.py:35-69 | a parsed file keeps its first integer as version, has no entities, and has a name only if it has an author |
| MapParser.Parser.ReadTileLayer | arcgame/map/map_parser.py:250-285 | a tile layer is read exactly when the data holds it; its width, height and `Grid` rows, with the cursor just past the last tile |
| MapParser.Parser.ReadGroup | arcgame/map/map_parser.py:196-229 | a group item is read exactly as `GroupRead` gives: the cursor after it and its group, if its version records one |
| MapParser.MapData.constructor | arcgame/map/map_parser.py:49-61 | the record holds the version and everything else empty or zero |
| MapParser.Parser.constructor | arcgame/map/map_parser.py:31-33 | a new parser has no data and its cursor at 0 |
| MapParser.Parser.ReadByte | arcgame/map/map_parser.py:71-77 | the byte at the cursor and the cursor moves on by one; end of file past the last byte, with the cursor kept |
| MapParser.Parser.ReadInt | arcgame/map/map_parser.py:79-85 | with four bytes left, the signed integer they hold and the cursor moves on by four; end of file otherwise |
| MapParser.Parser.ReadFloat | arcgame/map/map_parser.py:87-93 | with four bytes left, those bytes and the cursor moves on by four; end of file otherwise |
| MapParser.Parser.ReadString | arcgame/map/map_parser.py:95-104 | the bytes up to the next NUL with the cursor just past it; without a NUL, end of file with the cursor at the end |
| MapParser.Parser.SkipBytes | arcgame/map/map_parser.py:106-110 | the cursor moves forward by the count but never back and never past the end |
| MapParser.Parser.ReadTiles | arcgame/map/map_parser.py:267-275 | the rows are read exactly when the data holds them all, and they are `Grid`'s |
| MapParser.Parser.ReadRow | arcgame/map/map_parser.py:270-274 | a row is read exactly when the data holds it, and it is `Row`'s |
| MapParser.Parser.ParseTileLayer | arcgame/map/map_parser.py:250-284 | the layer parses exactly when the data holds it, leaving the cursor and record `TileLayerStep` gives: only the first layer with a non-zero size becomes the map's width, height and tiles, and a failed or later layer changes nothing |
| MapParser.Parser.SkipExtras | arcgame/map/map_parser.py:259-265 | the cursor skips the version's extras, stopping at the end |
| MapParser.Parser.ParseLayerItem | arcgame/map/map_parser.py:233-248 | the cursor and record are `LayerStep`'s: before version 2 only the version is read, a tile layer (type 0) is parsed, any other type is skipped by its size; a failure changes nothing |
| MapParser.Parser.ParseGroupItem | arcgame/map/map_parser.py:196-231 | the cursor and record are `GroupStep`'s: only the group list can change, a group with all its fields is recorded from version 1 on, named from version 2 on |
| MapParser.Parser.ReadGroupBody | arcgame/map/map_parser.py:203-229 | the group body is read exactly when 44 bytes are left; the group holds the version, the name, the two position floats and the nine integers in file order (`GroupAt`) |
| MapParser.Parser.ParseImageItem | arcgame/map/map_parser.py:161-177 | the cursor and record are `ImageStep`'s: only the image list can change, the name and size of an image are recorded and its pixels skipped |
| MapParser.Parser.ParseEnvelopeItem | arcgame/map/map_parser.py:179-194 | the cursor and record are `EnvelopeStep`'s: only the envelope list can change, the envelope's five header integers are recorded |
| MapParser.Parser.ParseInfoItem | arcgame/map/map_parser.py:145-159 | only the author and name can change, and the cursor, author and name are `InfoStrings`'s: the first non-empty string becomes the author and the next the name |
| MapParser.Parser.ParseItem | arcgame/map/map_parser.py:112-141 | one item leaves the cursor and record `ItemStep` gives (dispatch on types 1 to 5, any other skipped by its size); a failed item changes nothing |
| MapParser.Parser.ParseItems | arcgame/map/map_parser.py:112-143 | the record after the loop is `ItemsFrom`'s: items are parsed until the data is used up or one runs out of data |
| MapParser.Parser.Parse | arcgame/map/map_parser.py:35-69 | a file is rejected exactly when it has no version integer; otherwise the record is `Parsed(content)`, which holds that version and no entities, and a name is only ever set after an author |
| MapValidator.RowSpawns | arcgame/map/map_validator.py:110-120 | a row holds at most as many spawn tiles as cells |
| MapValidator.RowSpawnsZero | arcgame/map/map_validator.py:110-120 | a row has no spawn tile exactly when none of its cells is one |
| MapValidator.SpawnCountZero | arcgame/map/map_validator.py:110-120 | the map has no spawn tile exactly when no cell of any row is one |
| MapValidator.MismatchesExact | arcgame/map/map_validator.py:122-136 | the integrity errors name exactly the rows whose length differs from the first row's, each once and in order |
| MapValidator.StructureFacts | arcgame/map/map_validator.py:53-70 | non-positive dimensions are an error and never also a warning; dimensions over 1000 are a warning; an empty file is an error and one over 50 MB a warning |
| MapValidator.SpawnEntities | arcgame/map/map_validator.py:80-108 | there are no spawn entities exactly when no entity is a spawn |
| MapValidator.CompatibilityIssues | arcgame/map/map_validator.py:138-155 | Deathmatch has an issue exactly under 2 spawn tiles, CTF under 4, Race and DDRace always call for entity checks, and other types have none |
| MapValidator.CountRowSpawns | arcgame/map/map_validator.py:114-119 | the loop counts `RowSpawns`' number |
| MapValidator.FindSpawnTiles | arcgame/map/map_validator.py:110-120 | the loop counts the map's spawn tiles |
| MapValidator.ValidateCompatibilityWithSettings | arcgame/map/map_validator.py:138-155 | the issues are `CompatibilityIssues`' for the map's spawn tiles |
| MapValidator.Validator.constructor | arcgame/map/map_validator.py:15-17 | a new validator has no errors and no warnings |
| MapValidator.Validator.ValidateBasicStructure | arcgame/map/map_validator.py:53-70 | the structure errors and warnings are appended |
| MapValidator.Validator.ValidateRequiredLayers | arcgame/map/map_validator.py:72-78 | an error is added exactly when there is no non-empty first row |
| MapValidator.Validator.ValidateSpawnPoints | arcgame/map/map_validator.py:80-108 | an error is added exactly when no entity and no tile is a spawn |
| MapValidator.Validator.ValidateTileIntegrity | arcgame/map/map_validator.py:122-136 | one error is added per row whose length differs from the first row's, in row order |
| MapValidator.Validator.ValidateMap | arcgame/map/map_validator.py:19-51 | the map is valid exactly without errors; a missing file, a name not ending in `.map` or bytes the parser rejects give exactly one error; otherwise the errors and warnings are the four checks applied to `Parsed(content)` |
| MapValidator.Validator.ParseAndCheck | arcgame/map/map_validator.py:36-51 | rejected bytes give one error; otherwise the errors and warnings are the four checks applied to `Parsed(content)` |
| MapValidator.Validator.RunChecks | arcgame/map/map_validator.py:44-48 | the four checks' errors and warnings are appended in order |
| Demo.FramesOf | arcgame/utils/demo_recorder.py:89-94 | the frames among the entries, never more than the entries |
| Demo.FrameBytes | arcgame/utils/demo_recorder.py:95-101 | a frame takes eight bytes of tick and length plus its payload |
| Demo.Chunk | arcgame/utils/demo_recorder.py:108-132 | `f.read(n)` gives the next bytes of the file, `n` of them unless the file ends first |
| Demo.AsLoaded | arcgame/utils/demo_recorder.py:134-138 | each frame read back has its tick and game state and no timestamp |
| Demo.FramesBytesAppend | arcgame/utils/demo_recorder.py:93-101 | the bytes of two runs of frames are the first run's bytes followed by the second's |
| Demo.ReadFramesBytes | arcgame/utils/demo_recorder.py:128-138 | reading the bytes written for some frames, followed by anything, gives back those frames |
| Demo.ReadOneFrame | arcgame/utils/demo_recorder.py:130-132 | the tick, length and payload of one frame are read back from its bytes |
| Demo.LoadWritten | arcgame/utils/demo_recorder.py:79-138 | reading the bytes written for a map name without NUL bytes gives back the tick rate, the map name and the frames in order, each without its timestamp |
| Demo.ReadLayout | arcgame/utils/demo_recorder.py:108-138 | a file laid out as the writer lays it out reads back its tick rate, name and frames whatever the field values |
| Demo.MaxTickIsMax | arcgame/utils/demo_recorder.py:182 | the largest tick is some frame's tick and no frame's tick exceeds it; it is absent exactly without frames |
| Demo.DemoRecorder.constructor | arcgame/utils/demo_recorder.py:12-24 | a new recorder has nothing recorded, version 3, game type DM and 50 ticks per second |
| Demo.DemoRecorder.StartRecording | arcgame/utils/demo_recorder.py:26-45 | the data restarts with one header entry at tick 0, so its ticks are in order |
| Demo.DemoRecorder.RecordFrame | arcgame/utils/demo_recorder.py:54-64 | while recording the tick advances by one and a frame with that tick and the elapsed time is appended, keeping the ticks increasing; otherwise nothing happens |
| Demo.DemoRecorder.RecordEvent | arcgame/utils/demo_recorder.py:66-77 | while recording the tick advances by one and an event with that tick is appended; otherwise nothing happens |
| Demo.DemoRecorder.StopRecording | arcgame/utils/demo_recorder.py:47-52 | while recording, recording stops and the file is written as `WriteDemo` says; otherwise nothing is saved |
| Demo.DemoRecorder.WriteDemoFile | arcgame/utils/demo_recorder.py:79-101 | the file is `WriteDemo`'s: the header, the frame count and each frame in order, or a failure for a value too large for its 32-bit field |
| Demo.DemoRecorder.WriteFrames | arcgame/utils/demo_recorder.py:92-101 | the frame bytes are written exactly when every frame fits its fields, and they are the frames' bytes in order |
| Demo.DemoRecorder.LoadDemo | arcgame/utils/demo_recorder.py:103-150 | a file that cannot be opened or is rejected before its frames changes nothing; frames cut short are refused after the data was replaced; a whole file sets the frames, map name and tick rate and rewinds |
| Demo.DemoRecorder.StartPlayback | arcgame/utils/demo_recorder.py:152-157 | with data, playing starts from the first entry; without data nothing changes |
| Demo.DemoRecorder.StopPlayback | arcgame/utils/demo_recorder.py:159-162 | playing stops and nothing else changes |
| Demo.DemoRecorder.GetNextFrame | arcgame/utils/demo_recorder.py:164-170 | while playing and not past the end, the entry at the cursor, which moves on by one; otherwise nothing |
| Demo.DemoRecorder.SeekToTick | arcgame/utils/demo_recorder.py:172-177 | the cursor moves to the first frame at or after the tick; without one it stays |
| Demo.DemoRecorder.GetDemoInfo | arcgame/utils/demo_recorder.py:179-194 | nothing without data; otherwise the largest frame tick, the number of frames, and a duration that times the tick rate gives the ticks (0 for a non-positive rate), with the recorder's file name, map name, game type and tick rate |
| Demo.WriteDemo | arcgame/utils/demo_recorder.py:79-101 | the file is written exactly when the tick rate, the frame count and every frame fit their 32-bit fields |
| Demo.LoadRecorded | arcgame/utils/demo_recorder.py:79-138 | the file written for a recording whose map name has no NUL reads back as its tick rate, map name and frames in order, without timestamps |
| Demo.ParseDemo | arcgame/utils/demo_recorder.py:103-138 | reading step by step gives `ReadDemo`'s result |
| Demo.ReadName | arcgame/utils/demo_recorder.py:115-122 | the name is the bytes up to the first NUL, which is consumed, or to the end of the file |
| Demo.ReadFramesLoop | arcgame/utils/demo_recorder.py:128-138 | the loop reads `ReadFrames`' frames and says whether all were whole |
| Demo.AppendKeepsOrder | arcgame/utils/demo_recorder.py:54-77 | appending an entry one tick after the current one keeps the ticks increasing |
| Demo.FrameIsStored | arcgame/utils/demo_recorder.py:93-101 | every frame entry is among the stored frames |
| MapBrowser.Select | arcgame/map/map_browser.py:32-47 | the kept maps are exactly those matching the search (in name or author, ignoring case) and the game type, each as often as in the list |
| MapBrowser.SourceRank | arcgame/map/map_browser.py:50-54 | official maps rank 0, community 1, downloaded 2 and anything else 3 |
| MapBrowser.KeyLeTotalPreorder | arcgame/map/map_browser.py:50-56 | the sort key order is total and transitive, so the sort is well defined |
| MapBrowser.DownOnEmptyAsWritten | arcgame/map/map_browser.py:67-68 | as written, DOWN on an empty list leaves the selection at -1, which the filter keeps when maps appear again |
| MapBrowser.MoveDown | arcgame/map/map_browser.py:67-72 | moving down stays within the list, stops at its last entry, and stays at 0 on an empty list |
| MapBrowser.MoveUp | arcgame/map/map_browser.py:65-70 | moving up never goes below 0 |
| MapBrowser.Browser.constructor | arcgame/map/map_browser.py:10-28 | a new browser holds the maps with no filters, its filtered list sorted and a permutation of them |
| MapBrowser.Browser.ApplyFilters | arcgame/map/map_browser.py:30-60 | the filtered list holds exactly the maps passing both filters, sorted by source and name; a selection past its end moves to the last entry |
| MapBrowser.Browser.HandleKey | arcgame/map/map_browser.py:62-84 | a name is answered exactly for RETURN on a non-empty list, and it is the selected map's; the keys move the selection or edit the search |
| MapBrowser.Browser.SetFilterGametype | arcgame/map/map_browser.py:86-89 | the filter is stored and the list filtered again |
| MapBrowser.Browser.SetSearchText | arcgame/map/map_browser.py:91-94 | the search is stored and the list filtered again |
| MapBrowser.Browser.GetSelectedMap | arcgame/map/map_browser.py:96-100 | the selected entry exactly when the selection is inside the list |
| MapBrowser.Browser.HandleMouseClick | arcgame/map/map_browser.py:207-234 | a click on a filter button sets that game type and answers nothing; otherwise a click on visible row k of the selection's page selects that map and answers its name, and a click on no button and no row answers nothing and changes nothing |
| MapBrowser.Browser.RowAt | arcgame/map/map_browser.py:218-232 | the list position of the visible row under the point, on the page holding the selection; a point on visible row k always gives that row, and a point on no visible row gives nothing |
| MapBrowser.Browser.FilterButtonAt | arcgame/map/map_browser.py:210-215 | the first filter button under the point, if any |
| ServerBrowser.PlayerRatio | arcgame/ui/server_browser.py:27-31 | 0 without slots, otherwise the ratio times the slots is the players |
| ServerBrowser.FullerFirst | arcgame/ui/server_browser.py:142-143 | of two servers with the same ping and slots, the one with more players sorts first, so full servers come first, not last as the comment beside the sort says |
| ServerBrowser.Select | arcgame/ui/server_browser.py:125-140 | the kept servers are exactly those matching the search (in name or map, ignoring case) and the game type, each as often as in the list |
| ServerBrowser.KeyLeTotalPreorder | arcgame/ui/server_browser.py:142-143 | the sort key order is total and transitive |
| ServerBrowser.MoveDown | arcgame/ui/server_browser.py:160-165 | moving down gives the smaller of the last position and the moved index, so -1 on an empty list |
| ServerBrowser.MoveUp | arcgame/ui/server_browser.py:158-163 | moving up gives the larger of 0 and the moved index |
| ServerBrowser.Join | arcgame/ui/server_browser.py:166-168 | nothing on an empty list; otherwise the selected endpoint with Python's indexing, and an error exactly for an index out of range |
| ServerBrowser.DownOnEmptyThenJoin | arcgame/ui/server_browser.py:160-168 | DOWN on an empty list gives -1, and once servers arrive RETURN joins the last one |
| ServerBrowser.StaleIndexRaises | arcgame/ui/server_browser.py:123-168 | after a search narrows the list below the selection, RETURN raises |
| ServerBrowser.Browser.constructor | arcgame/ui/server_browser.py:37-57 | a new browser has no servers, no search and the game type "all" |
| ServerBrowser.Browser.ApplyFilters | arcgame/ui/server_browser.py:123-143 | the filtered list holds exactly the servers passing both filters, sorted by ping and then fullness; the selection is kept |
| ServerBrowser.Browser.RefreshServers | arcgame/ui/server_browser.py:68-95 | the fetched servers are appended and the list filtered again |
| ServerBrowser.Browser.SetSearchText | arcgame/ui/server_browser.py:145-148 | the search is stored and the list filtered again |
| ServerBrowser.Browser.SetGametypeFilter | arcgame/ui/server_browser.py:150-153 | the filter is stored and the list filtered again |
| ServerBrowser.Browser.HandleKey | arcgame/ui/server_browser.py:155-180 | RETURN answers `Join`'s result; other keys answer nothing and move the selection, refresh or edit the search |
| ServerBrowser.Browser.HandleMouseClick | arcgame/ui/server_browser.py:182-202 | a click on a visible row selects it and answers its endpoint; elsewhere nothing changes |
| ListView.Trunc | arcgame/server/vote_manager.py:26 | Python's `int()` on a float truncates toward zero |
| ListView.PyIndex | arcgame/ui/server_browser.py:166-168 | Python's indexing: negative indices count from the end and anything else out of range raises |
| ListView.PageStart | arcgame/map/map_browser.py:222-223 | the first position of the page holding the index, at or below it and less than a page before it |
| ListView.PageStartAligned | arcgame/map/map_browser.py:222-223 | a page starts at a multiple of the page size |
| ListView.PageStartIsFloor | arcgame/map/map_browser.py:222-223 | the page start is `index // visible * visible` |
| ListView.Keep | arcgame/map/map_browser.py:37-47 | a comprehension keeps each element as often as it occurs, exactly when it passes |
| ListView.RemoveFirstCounts | arcgame/game/entities/player.py:246-251 | `list.remove` takes out exactly one occurrence |
| Text.Lower | arcgame/map/map_browser.py:36-39 | `str.lower` restricted to ASCII letters: the result has the same length (true of this ASCII mapping, not of Python's full Unicode one), no ASCII upper-case letter, and a string without one is kept |
| Text.LexTotal | arcgame/map/map_browser.py:50-56 | any two strings are ordered one way or the other |
| Text.LexTrans | arcgame/map/map_browser.py:50-56 | the string order is transitive |
| Sorting.Insert | arcgame/map/map_browser.py:50-56 | inserting into a sorted list keeps it sorted and adds exactly the element |
| Sorting.SortBy | arcgame/map/map_browser.py:50-56 | the sort is ordered and a permutation of its input |
| Bindings.Upper | arcgame/config/bindings.py:73-79 | `str.upper` restricted to ASCII letters: the result has the same length (true of this ASCII mapping, not of Python's, where `"ß".upper()` is `"SS"`), no ASCII lower-case letter, and a string without one is kept |
| Bindings.UpperIdempotent | arcgame/config/bindings.py:73-79 | upper-casing twice is upper-casing once, so a stored key is found again by its own name |
| Bindings.Lookup | arcgame/config/bindings.py:73-75 | a key finds an action exactly when an entry holds that key, and then the action of such an entry |
| Bindings.LookupAt | arcgame/config/bindings.py:73-75 | with unique keys, each entry's key finds that entry's action |
| Bindings.AssignFacts | arcgame/config/bindings.py:77-79 | after `d[k] = a`, `k` finds `a`, every other key finds what it found before, and keys stay unique |
| Bindings.RemoveAfterDrop | arcgame/config/bindings.py:99-100 | deleting one more key from the list of keys to delete is deleting it after the others |
| Bindings.RemoveKeySplit | arcgame/config/bindings.py:99-100 | deleting a key from a joined dictionary deletes it from each part |
| Bindings.BoundKeysExact | arcgame/config/bindings.py:94-97 | with unique keys, a key is collected exactly when its entry is bound to the action |
| Bindings.BoundKeysAbsent | arcgame/config/bindings.py:94-97 | a key held by no entry is never collected |
| Bindings.DropIsUnbind | arcgame/config/bindings.py:92-100 | deleting the collected keys is removing exactly the entries bound to the action |
| Bindings.UnbindFacts | arcgame/config/bindings.py:92-100 | unbinding keeps keys unique and makes exactly the keys that were bound to the action unbound |
| Bindings.Zip | arcgame/config/bindings.py:17-51 | the default dictionary pairs each key with its action, position by position |
| Bindings.MovementFirst | arcgame/config/bindings.py:19-51 | only the first four defaults are movement actions |
| Bindings.MovementUnreachableAsWritten | arcgame/config/bindings.py:19-75 | as written, no key name typed in any case reaches a movement action, because the lookup upper-cases the key and the defaults store it in lower case |
| Bindings.DefaultsDistinct | arcgame/config/bindings.py:19-51 | the corrected defaults have unique keys |
| Bindings.MovementReachable | arcgame/config/bindings.py:19-75 | with the corrected, upper-case defaults each movement key finds its action, typed in either case |
| Bindings.KeyBindings.constructor | arcgame/config/bindings.py:12-15 | a new object holds the defaults with the movement keys corrected to upper case (see "## Findings"): here the key for "+left" is "A", where the source's `get_key_for_action("+left")` gives "a" |
| Bindings.KeyBindings.GetBinding | arcgame/config/bindings.py:73-75 | the action stored under the upper-cased key, or "" exactly when there is none |
| Bindings.KeyBindings.SetBinding | arcgame/config/bindings.py:77-79 | afterwards the key finds the action in any case, and every key with a different upper-case form keeps its action |
| Bindings.KeyBindings.AllBindings | arcgame/config/bindings.py:81-83 | the copy holds exactly the bound keys, each with its action |
| Bindings.KeyBindings.GetKeyForAction | arcgame/config/bindings.py:85-90 | the first key in dictionary order bound to the action, or "" exactly when none is |
| Bindings.KeyBindings.ClearBindingsForAction | arcgame/config/bindings.py:92-100 | afterwards no key finds the action, every other key finds what it found before, and keys stay unique |
| Bindings.DropNone | arcgame/config/bindings.py:99-100 | deleting no keys changes nothing |
| ServerConfig.Config.constructor | arcgame/config/server_config.py:12-70 | a new configuration holds the defaults |
| ServerConfig.Config.Get | arcgame/config/server_config.py:92-94 | the stored value for a set key, the default otherwise |
| ServerConfig.Config.Set | arcgame/config/server_config.py:96-98 | a later get of the key answers the value; every other key answers what it did |
| ServerConfig.Config.AddMapToRotation | arcgame/config/server_config.py:104-107 | fails, changing nothing, exactly when there is no rotation list; otherwise the name is in the rotation, appended only when it was missing, no duplicate is created and no other setting changes |
| ServerConfig.Config.RemoveMapFromRotation | arcgame/config/server_config.py:109-112 | fails exactly when there is no rotation list; otherwise the first occurrence of the name is removed, a rotation without it is unchanged, a rotation without duplicates loses the name entirely, and no other setting changes |
| ServerConfig.Config.SetMapRotation | arcgame/config/server_config.py:114-116 | the rotation becomes the given list, duplicates included; nothing else changes |

## Left out

- Drawing and layout: the browsers' `draw` methods, the demo player's UI, and all rendering and asset loading.
- Networking, threads and sleeps: the master-server query and `_ping_server`. `ServerBrowser.Browser.RefreshServers` receives the servers they would find, and joining a server is modelled as the endpoint it returns.
- pygame events: each event is modelled as a key datatype. Mouse positions are integer points.
- Loading and saving the bindings and server settings files: the objects start from the defaults.
- File and directory access in the map, demo and validator code: whether a file exists and its bytes are parameters, and written files are results.
- Wall-clock time: it is a `now` parameter. Printing is dropped everywhere, including the vote and end-of-game messages.
- Text.Lower, Bindings.Upper: case mapping covers ASCII letters only. Python's `str.lower` and `str.upper` use the full Unicode tables, so the browsers' searches, filters and sort keys and every bindings lookup differ from the source on non-ASCII text (a search for "é" keeps a map named "École" in the source but not in the model, and `"ß".upper()` is `"SS"`).
- Floating point: IEEE rounding is not modelled, and reals stand in for floats.
- Trigonometry and roots: `Vec2.rotate`, `Vec2.angle`, `collide_circle` and `distance_to_line_segment` depend on trigonometry or square roots beyond what the proofs use, and are not modelled.
- The character's aim angle: it comes from `atan2` and is not modelled.
- `velocity_ramp`'s `pow` is a parameter with its defining property.
- `closest_point_on_line_segment` in the collision module is the same computation as `Vec2.closest_point_on_line` and is modelled once, as `Vec2.ClosestPointOnLine`.
- Tuning values: they are an immutable parameter. The module-level default tuning table is not reachable from the modelled code, because a `config` package shadows the module that defines it.
- Character.Roster.Tick: promises well-formedness of the roster, consistency of hook links, and that absent slots are unchanged. It does not state one function for the whole tick result, because that is the composition of `TickControl`, `HookStep` and `TickDeferred`, whose own contracts state it.
- Sorting.SortBy: states that the result is ordered and a permutation of the input. Python's `list.sort` is also stable (elements with equal keys keep their order); the insertion it performs keeps that order, but no contract states it.
- Physics.CharacterPhysics.MoveWithCollision: positions are values here. In the source, `pos` may be a `Vec2` shared with another object and the blocked-axis branch writes `self.pos.x` and `self.pos.y` in place (physics.py:122, 129), so a shared vector moves as well; the model does not capture that aliasing.
- Player.Player.constructor, Player.Player.Respawn: the source stores the caller's `Vec2` as the body's position without copying (player.py:17, 123). The default `pos=Vec2(0, 0)` is one object shared by every player built without a position (player.py:8), and the server passes its spawn point objects the same way (server.py:59-62), so a later in-place move of one body moves the default or the spawn point and every body sharing it. The model keeps positions as values and does not capture this.
- ServerConfig.Config.SetMapRotation, ServerConfig.Config.AddMapToRotation: `set_map_rotation` stores the caller's list itself (server_config.py:114-116), so later changes through either reference show in the other; the model copies the value. When the rotation setting holds a string, `add_map_to_rotation` tests a substring with `in`, so a name contained in it returns normally without change, and any other name raises; the model reports failure without change for every non-list value.
- Physics.PhysicsWorld.Update: states the clock and each character's speed bound, not each character's new state. Each character's step is `CharacterPhysics.Update`, whose contract gives that state; carrying it across the loop (the list may hold a character twice, and each step's collision frame must be carried along) is beyond what the proof budget allows.
- The dt-based physics world's projectile list: `physics.py` does not define the projectile type it updates. The tuning fields `air_jump_impulse` and `hook_drag_speed` are never read.
- EntityCharacter.Character.HandlePhysics: the grabbed-hook drag of entities/character.py:176-201 is not modelled; the hook is never set by the modelled code (`use_hook` is left out), so the step applies gravity, input and the collision move only.
- The entity `Character`'s visuals, `held_keys` and mouse reading, `use_hook`, and the foot animation.
- `Player`'s position, velocity and direction getters: these only forward to the body. The `use_*` calls are modelled as the `FireWeapon` predicate.
- `EntityManager.update_all` and `get_players_in_radius`.
- GameModes.Deathmatch.EndGame, GameModes.Deathmatch.Update: the source's `end_game` raises `AttributeError` when the leading player's id is non-zero and either no server is attached or that player is not registered with the entity manager (deathmatch.py:99-101), so `update` raises too when it ends such a round. The model has no winner lookup and states only the reset with a server and no change without one; the crash is not modelled.
- Game modes: the winner lookup and printing in `end_game`, `get_leaderboard`, `get_team_members` and the empty `player_respawned` hooks.
- Anticheat: the text of each event's details, the unused `connections` map, the unused character argument of `check_movement`, and the stub `get_recent_connections`/`set_recent_connections`.
- MapParser.Parser.Parse, MapValidator.Validator.ValidateMap, MapValidator.Validator.ParseAndCheck, MapParser.Parsed: the source decodes every string it reads as UTF-8 (map_parser.py:101), and an invalid sequence ends the parse in `None` through the catch-all handler (map_parser.py:67-69); the validator then reports the file as unparseable. The model keeps strings as bytes, so it returns a map where the source returns `None`, for example for the bytes `01 00 00 00 01 00 00 00 02 00 00 00 FF 00`. Its `None` is exactly the case of fewer than 4 bytes.
- The map parser: strings are kept as their bytes, with no UTF-8 decoding. Floats are kept as their raw bytes. The group's layer list, which the parser never fills, and the unused size arguments are not modelled, and neither is the version warning.
- The map validator's messages: they are constructors, not formatted text. `os.path` results are parameters.
- Demo files: frame payloads are opaque bytes. The `eval`/`str` round trip of game states and UTF-8 decoding errors are not modelled.

## Findings

| source | as written | input that shows it | evidently intended | confidence | as-written member | corrected member |
|---|---|---|---|---|---|---|
| arcgame/base/collision.py:151-155 | `move_box` zeroes a velocity component when the distance covered is below `abs(v * steps)` | in an empty tile map, a box moving at velocity (3, 0) takes 3 free sub-steps and covers 3, which is less than 9, so its X velocity is reported as 0 | zero a component only when the box covered less than `abs(v)`, that is, when something blocked it | not executed | Collision.CollisionWorld.AsWrittenStopsUnblockedBox | Collision.CollisionWorld.MoveBox |
| arcgame/config/bindings.py:19-75 | the movement defaults are stored under "a", "d", "w", "s", but `get_binding` looks up `key.upper()` | `get_binding("a")` answers "" although "a" is bound to "+left" | the default keys in upper case, like every other default | not executed | Bindings.MovementUnreachableAsWritten | Bindings.MovementReachable |
| arcgame/map/map_browser.py:67-68 | DOWN sets the selection to `min(len - 1, index + 1)` | DOWN on an empty list gives -1; once maps appear, RETURN answers the last map | a selection kept at 0 or above | not executed | MapBrowser.DownOnEmptyAsWritten | MapBrowser.MoveDown |
| arcgame/map/map_parser.py:106-141 | an item whose size field is negative moves the cursor backwards | the bytes 03 00 00 00 00 00 00 00 F8 FF FF FF, an item with size -8, send the parser back to the same item forever | a cursor that never moves backwards | not executed | MapParser.NegativeSizeRepeatsItemAsWritten | MapParser.Parser.SkipBytes |
