# Tower defence: the simulation rules, modelled in Dafny

A browser tower-defence game drawn with three.js. Enemies spawn on the
edge of a 40 × 40 square and walk toward the centre. An enemy that comes
within 2 units of the core (a box at (0, 2, 0)) is removed, and the player
loses one hit point. The player places towers on a 2-unit grid. Every
frame, each tower picks the nearest enemy strictly within range 10. It
fires a homing bullet when its cooldown (600 ms, or 200 ms for the
`rapid` type) has passed. A bullet that gets within 0.5 of its target
"kills" it by moving it to y = -999. The enemy stays in the list, but from
that depth no tower can target it and it can never reach the core.

This project models that simulation with the rendering stripped away:

- `common.dfy` defines `Option`, distinctness of a list, and
  order-preserving subsequences.
- `geometry.dfy` defines `Vec3` and the few `THREE.Vector3` operations the
  rules use.
- `enemies.dfy` models `EnemyManager` (enemies.js).
- `towers.dfy` models `Tower` and its bullets (towers.js).
- `game.dfy` models the globals and handlers of main.js: placement, the
  tower-type toggle, health, the health bar, and the frame loop.

Enemies, bullets, towers, the enemy manager and the game are classes,
because the source updates them in place. A bullet's target is the very
`Enemy` object in the manager's list. So a hit, which sets that enemy's y,
is seen by the list, by the other bullets and by the other towers, just as
in the source.

Each method is proved against a specification function:

- `Remaining` and `CountColliding` for the collision check.
- `Target` (a recursive scan `NearestIn`) for targeting.
- For the bullet pass, `Resolve`, `Kept` and `Landing`. They give the
  enemy positions after the pass, the bullets kept, and where each bullet
  ends up. Each is computed over the list of flights `(position, target,
  speed)` as `updateBullets` finds them.

Lemmas state what those functions mean, for example that exactly the
colliding enemies are dropped, in order, once each. They also state
"dead" enemies are never targeted and never collide.

The frame loop is stated on values as well. `Walked` tells how the enemy
list changes when the enemies walk and one may spawn. `Struck` tells what
one tower's update did, from the bullets it held and their flights. It
records whether the tower fired, the bullets of its pass and their
flights, the bullets it keeps, and where the enemies stand after it.
`Volleys` is that record for every tower of the loop, one enemy view per
tower. It holds the bullets each tower held before the loop and their
flights, so a bullet a tower held is tied to its own target and its own
position.

Each bullet carries a ghost `shooter`, the tower that fired it. It exists
only for the proofs. A tower holds only bullets it fired
(`Towers.Tower.Valid`), so no bullet belongs to two towers
(`Game.TowersUnshared`). One tower's update then moves none of the other
towers' bullets.

Distances are compared by their squares. The square root inside
`Vector3.normalize()` is an abstract parameter `len`. The lemmas about
step lengths (`NormalizeIsUnit`, `AdvanceCoversStep`, `StrideCoversStep`,
`FlownCoversStep`) assume that `len` is a true length (`IsLength`).
`NormalizeIsParallel` and `StrideIsTowardGoal` assume only that it is not
negative, and only for their "same direction" half. Everything else holds
for any `len`. The two `Math.random()` draws of a spawn, the clock reading
`now` and the clicked ground point are parameters.

Where the code behaves differently from what a reader of its comments
might expect, the model follows the code:

- The core collision and tower targeting use the 3-D distance between
  mesh centres, not a planar one. An enemy centre is at y = 0.7, the core
  centre at y = 2 and a tower centre at half the tower's height.
- Health is not clamped at 0. `handleCoreHit` just decrements it, and the
  health bar clamps only the percentage it displays.
- The spawn timer resets to `now` at each spawn and never catches up. So
  `floor(elapsed / interval)` is an upper bound on the number of spawns
  (`SpawnsAreSpaced`), not an exact count.
- The placement distance test is applied after snapping. A click at
  distance 3 on an axis snaps to distance 4 and is accepted.
- Placement measures the distance to the origin, while the core stands at
  (0, 2, 0). On the ground (y = 0) this is the horizontal distance to the
  core's axis.
- A killed enemy stays in the list and keeps walking. `update` moves every
  enemy (enemies.js:62-70). Only x and z change, so it stays at y = -999
  and never comes within reach of the core.
- A bullet whose target the core has removed keeps homing on it.
  `updateBullets` tests only that the bullet has a target (towers.js:79).
  The bullet can still "kill" that enemy, which is no longer in the list.
- After game over, nothing freezes. Enemies keep walking, towers keep
  firing and health can keep falling. Only the spawn interval becomes
  999999 ms.

## Model

| member | source | states |
|---|---|---|
| Geometry.Normalize | enemies.js:68 | `normalize()` divides by `length() \|\| 1`: the zero vector stays zero, and a vector with no y component keeps none |
| Geometry.NormalizeIsParallel | towers.js:94 | the normalised vector is parallel to the original, and points the same way when the length is non-negative |
| Geometry.NormalizeIsUnit | enemies.js:68 | with a true length, normalising a vector of non-zero length gives a unit vector |
| Geometry.Advance | towers.js:94-95 | `addScaledVector(dir.normalize(), step)` toward a point: a zero step or an arrival leaves the position unchanged; a move between points at equal height keeps the height |
| Geometry.AdvanceCoversStep | towers.js:94-95 | with a true length, a step toward a point apart from the start covers exactly the step length |
| Enemies.SpawnSide | enemies.js:22 | `Math.floor(Math.random() * 4)` is a side 0..3 with side ≤ 4r < side + 1 |
| Enemies.SpawnPoint | enemies.js:21-46 | a spawn point lies on the perimeter of the ±20 square at height 0.7, with the running coordinate in [-20, 20) |
| Enemies.PerimeterIsReachable | enemies.js:21-46 | conversely, every such perimeter point is the spawn point of some pair of draws in [0, 1) |
| Enemies.Stride | enemies.js:63-69 | one walking step keeps y (a dead enemy stays at -999); a zero step, or an enemy already above the goal, does not move |
| Enemies.StrideIsTowardGoal | enemies.js:63-69 | the step stays on the line to the goal in the x/z plane and, for a non-negative step and length, heads toward the goal |
| Enemies.StrideCoversStep | enemies.js:63-69 | with a true length, an enemy not already above the goal moves exactly the step length (`deltaTime * 3`) |
| Enemies.RemainingIsSubsequence | enemies.js:77-90 | the enemies kept by the collision check are an in-order subsequence of the old list |
| Enemies.RemainingMembers | enemies.js:77-90 | an enemy is kept exactly when it was in the list and its distance to the core is not below 2 |
| Enemies.RemainingCount | enemies.js:80-88 | the number of `onHit` calls plus the new length is the old length |
| Enemies.RemainingIdempotent | enemies.js:77-90 | a second check with no movement in between removes nothing and calls `onHit` zero times |
| Enemies.RemainingOnPositions | enemies.js:77-90 | the collision check decides on positions alone: the enemies kept and the number of hits are `OutOfReach` and `CountInReach` of the enemies' positions, and the kept enemies stand at the positions out of reach |
| Enemies.SpawnsAreSpaced | enemies.js:56-59 | over any sequence of `update` calls, n spawns need more than n × interval of clock, and the timer only ever holds a clock reading it was given |
| Enemies.EnemyManager.constructor | enemies.js:5-11 | no enemies, a 1000 ms interval, last spawn at 0, the given target |
| Enemies.EnemyManager.SpawnEnemy | enemies.js:14-49 | exactly one new enemy is appended, at the spawn point of the two draws; the existing enemies and their order are untouched |
| Enemies.EnemyManager.Update | enemies.js:52-71 | a spawn happens exactly when `now - lastSpawn > spawnInterval`, then `lastSpawn = now`; otherwise the timer and the count are unchanged; every enemy, the new one included, takes one `Stride` toward the target |
| Enemies.EnemyManager.Walk | enemies.js:62-70 | each enemy of the list moves by one `Stride`, in place |
| Enemies.EnemyManager.CheckCollisions | enemies.js:74-91 | the new list is `Remaining` of the old one, the returned count of `onHit` calls is `CountColliding`, and count plus new length is the old length |
| Towers.NearestInIsFirstMinimum | towers.js:33-41 | the scan finds nothing exactly when no distance is below the range; otherwise it finds an entry below the range, no larger than any, and strictly smaller than every entry before it |
| Towers.Target | towers.js:33-41 | the target chosen, if any, is one of the enemies scanned |
| Towers.TargetIsFirstNearest | towers.js:37-40 | on a tie the first enemy in list order wins: the target is strictly nearer than every enemy before it and no farther than any after it |
| Towers.DeadIsOutOfRange | towers.js:89 | an enemy at y = -999 is at least the range 10 away from any point on or above the ground |
| Towers.TargetIsAlive | towers.js:33-41 | the scan of a tower on or above the ground never selects an enemy at y = -999 |
| Towers.TargetOnPositions | towers.js:33-41 | the scan decides on positions alone: the target is the enemy at the index `TargetIndex` finds among the enemies' positions, or null when it finds none |
| Towers.AfterFlight | towers.js:86-90 | one flight changes at most its own target's position |
| Towers.KeptIsSubsequence | towers.js:75-100 | the bullets kept are an in-order subsequence of the old list |
| Towers.KeptShooters | towers.js:96-100 | a tower keeps only bullets it fired: every bullet kept from its list has that tower as its shooter |
| Towers.KeptIsDistinct | towers.js:96-100 | no bullet is kept twice |
| Towers.KeptMembers | towers.js:77-96 | a bullet is kept exactly when it has a target and did not hit it |
| Towers.ResolveOnlyKills | towers.js:89 | the pass changes an enemy only by setting its y to -999; x and z are kept |
| Towers.ResolveUntargeted | towers.js:86-90 | an enemy no bullet aims at is untouched |
| Towers.StrikeKills | towers.js:86-90 | a hit puts its target at y = -999 and it stays there for the rest of the pass |
| Towers.FlownCoversStep | towers.js:93-95 | with a true length, a bullet not yet at its target's position moves exactly `speed * delta` |
| Towers.Tower.constructor | towers.js:5-26 | fire rate 200 ms for `rapid` and 600 ms otherwise, range 10, type `basic` by default, no bullets, last shot 0, mesh at the placement point raised to half the tower's height (`Built`) |
| Towers.Tower.SelectTarget | towers.js:32-41 | the loop computes `Target`: null exactly when no enemy is strictly within range, otherwise an enemy within range at distance ≤ every enemy's |
| Towers.Tower.Shoot | towers.js:54-71 | exactly one fresh bullet is appended, at the tower's mesh position, with the given target and speed 20 |
| Towers.Tower.Fly | towers.js:77-97 | one bullet: no target, dropped; within 0.5 of its target, dropped and the target put at y = -999; otherwise advanced and kept; no other bullet moves |
| Towers.Tower.FlyAll | towers.js:75-98 | the loop keeps exactly `Kept`, leaves the targets where `Resolve` says and each bullet where `Landing` says |
| Towers.Tower.UpdateBullets | towers.js:74-101 | the bullet list becomes `Kept` of the old one; targets and bullets end up where `Resolve` and `Landing` say; a bullet is kept exactly when `Stays` holds; the cooldown timer is untouched |
| Towers.Tower.Fire | towers.js:43-47 | a bullet is fired exactly when there is a target and `now - lastShot > fireRate`, then `lastShot = now`; otherwise neither the timer nor the bullets change |
| Towers.Tower.Update | towers.js:29-51 | the scan, the gated shot and the bullet pass in that order: a bullet is fired exactly when `Target` finds an enemy and the cooldown has passed, and then it joins the pass last; the bullets kept are `Kept`, the targets end where `Resolve` says; an enemy no bullet aims at is untouched, and the others are only ever killed |
| Game.SnapCoord | main.js:173-174 | `Math.round(c / 2) * 2` is a multiple of the cell size within one unit of `c` (rounding halves up) |
| Game.Snap | main.js:169-174 | the snapped point is on the grid at ground level, within one unit of the click in x and in z |
| Game.GridLinesApart | main.js:184-188 | two grid lines closer than 0.01 are the same line |
| Game.SameCellOnGrid | main.js:184-188 | on the grid the occupancy test is exact: the same cell means the same x and z |
| Game.LayoutDistinct | main.js:184-188 | towers in different cells, by the occupancy test, are different towers |
| Game.Toggle | main.js:219-227 | clicking the selected type deselects it; clicking any other type selects that one |
| Game.ToggleTwice | main.js:219-227 | clicking the same button twice restores an empty selection or the same selection |
| Game.HealthPercent | main.js:24 | the bar width is never negative, at most 100 while health ≤ 20, 0 exactly when health ≤ 0, and 5 × health otherwise |
| Game.HealthBand | main.js:29-35 | green exactly above 10 hit points, yellow exactly from 6 to 10, red exactly at 5 or below |
| Game.DeadIsClearOfCore | enemies.js:78-80 | an enemy at y = -999 is never within 2 units of the core at (0, 2, 0) |
| Game.StepTower | main.js:116-118 | one tower's update seen from the loop: it fires exactly when its scan over where the enemies stand finds one and its cooldown has passed, and then `lastShot = now`; the bullets before the pass are the old ones plus the fresh one aimed at that enemy; the bullets kept are `Kept` and the targets end where `Resolve` says; an enemy no bullet aims at is untouched; the other towers are untouched and so are their bullets' flights; all of which is `Struck` of the tower's old bullets, their flights and its timer, its new bullets and the enemies' positions before and after |
| Game.StruckOnlyKills | main.js:116-118 | a tower's update, as `Struck` tells it, moves an enemy only by setting its y to -999 |
| Game.TowersUnshared | towers.js:54-71 | each tower's list holds only bullets its own `shoot` created, so no bullet belongs to two towers |
| Game.VolleysOnlyKill | main.js:116-118 | along the whole tower loop, each tower's update only kills enemies |
| Game.VolleysGrow | main.js:116-118 | one more tower update, as `Struck` tells it, extends the record of the loop so far (`VolleysSoFar`), and its earlier entries stay |
| Game.PassStep | main.js:116-118 | one step of the tower loop moves the loop state `TowerPass` from tower `k` to tower `k + 1`: the record of the loop so far grows by what tower `k` saw, fired, kept and killed, from the bullets it held before the loop and their flights; its earlier entries stay, and the towers not yet updated still hold those bullets at those flights |
| Game.RunTowers | main.js:116-118 | every tower updates in placement order, as `Volleys` tells: tower `j` fires exactly when its scan over where the enemies then stand finds one and its cooldown has passed, and then `lastShot = now`; the bullet fired is aimed at that enemy and joins the pass after the bullets held; each bullet held flies from where it stood before the loop toward its own target; the tower keeps `Kept` of its pass; the enemies its bullets aim at end where `Resolve` puts them and the others stay; the first view is where the enemies stood before the loop and the last where they stand after it; enemies are only ever killed |
| Game.EnemyPhase | main.js:111-112 | the manager's update then its collision check: a spawn happens exactly when the timer is due, and then `lastSpawn = now`; the walked list is the old one, each enemy one `Stride` on, plus the fresh spawned enemy (`Walked`); the list left is the walked enemies out of reach and the hits are those within reach; no enemy left is within reach of the core |
| Game.Animate | main.js:109-118 | the enemy phase, as `EnemyPhase` states it, then the tower loop over the enemies left, as `RunTowers` states it (`Volleys`: what each tower fired, kept and killed, starting from the bullets it held and their flights before the frame); the towers can only kill enemies, so no enemy is within reach of the core at the end |
| Game.Game.constructor | main.js:39-97 | full health (20), no towers, nothing selected, a fresh enemy manager walking to the origin, `lastTime = now` |
| Game.Game.HandleCoreHit | main.js:131-135 | health drops by exactly 1, with no lower clamp |
| Game.Game.ShowGameOver | main.js:138-151 | the spawn interval becomes 999999; the enemies and the spawn timer are untouched |
| Game.Game.CheckGameOver | main.js:125-127 | the spawn interval becomes 999999 exactly when health is 0 or below, and is unchanged otherwise; the enemies and the spawn timer are untouched |
| Game.Game.EndFrame | main.js:102-127 | the rest of a frame: health drops by exactly the hits, `lastTime = now`, and the game-over test; enemies, towers and the spawn timer are untouched |
| Game.Game.SelectTowerType | main.js:210-230 | the selection becomes `Toggle` of the old one; nothing else changes |
| Game.Game.PlaceTower | main.js:154-207 | a tower is placed exactly when a type is selected, the click met the ground, and the snapped cell is neither within 4 of the origin nor occupied; then exactly one tower of that type is appended there, with its fire rate, range 10 and mesh position, and the selection is cleared; otherwise towers and selection are unchanged; the towers always stay on the grid, outside the core circle, one per cell |
| Game.Game.HandleCoreHits | main.js:112 | `handleCoreHit` once per collision: health drops by exactly the number of hits |
| Game.Game.Frame | main.js:100-128 | one frame: a spawn happens exactly when the timer is due; the walked list is the old one, each enemy one `Stride` of `(now - lastTime) / 1000 * 3` on, plus the spawned enemy; the enemies left are the walked ones out of the core's reach and health drops by the number within reach; every tower then updates as `Volleys` tells: it fires exactly when its scan over where the enemies stand finds one and its cooldown has passed, keeps `Kept` of its bullets, each held bullet flying from where it stood at the start of the frame toward its own target, and kills the enemies `Resolve` says; no enemy left is within reach of the core; `lastTime = now`; the spawn interval is 999999 exactly when health has reached 0 |

## Left out

- The three.js scene, meshes, materials, lights and the whole of world.js,
  except the core position (0, 2, 0) at world.js:44.
- `scene.add`/`scene.remove` of bullets and enemies: rendering only.
- DOM and UI writes are left out. These are the health bar's width, colour
  and text, the "GAME OVER" banner, button highlighting, `initStartUI` and
  `onWindowResize`. The pure decisions behind them are modelled
  (`HealthPercent`, `HealthBand`, `Toggle`).
- The camera, OrbitControls, rendering and raycasting. A click is given as
  the ground point the ray meets first, or `None` when it meets no ground.
- The core's rotation: it is cosmetic.
- `requestAnimationFrame` and `performance.now()` are left out; the clock
  reading is the parameter `now`.
- Towers.Tower.Update and Enemies.EnemyManager.Update use the one clock
  reading `now` of the frame. The source reads `performance.now()` again
  inside each tower's `update` (towers.js:30) and inside the manager's
  `update` (enemies.js:53).
- Geometry.Normalize leaves the square root of `length()` abstract. The
  exact floating-point values of `normalize()` and `addScaledVector` are
  not modelled, and real arithmetic stands in for IEEE doubles.
- Enemies.EnemyManager.SpawnEnemy takes its two `Math.random()` draws as
  parameters in [0, 1).
- Enemies.EnemyManager.CheckCollisions returns the number of `onHit` calls
  instead of invoking a callback. `Game.Game.EndFrame` then makes that
  many `handleCoreHit` calls, after the tower loop rather than during the
  check; nothing in between reads `health`.
- Game.Game.EndFrame sets `lastTime = now` at the end of the frame rather
  than at its start; nothing in between reads `lastTime`.
- Game.Game.Frame assumes the guard `enemies && world.core` of `animate()`
  holds. It always does once `initGame` has run.
- Game.RunTowers, Game.Animate and Game.Game.Frame do not state that the
  bullet a tower fires is a new object; `Towers.Tower.Shoot` and
  `Game.StepTower` do.
- Game.RunTowers, Game.Animate and Game.Game.Frame do not state where each
  kept bullet ends up; `Towers.Tower.UpdateBullets` does (`Landing`).
- Game.RunTowers, Game.Animate and Game.Game.Frame state where the enemies
  of the list end. A bullet may still aim at an enemy the core has removed
  (see above). That enemy's kill is not carried up the loop. Nor is whether
  such a bullet is kept, because the loop does not record where that enemy
  stood.
- Game.Game.ShowGameOver models only the change of spawn interval. The
  banner is added again on every frame while health ≤ 0, and that is UI.
- Game.Game.PlaceTower does not model the intersection loop's skipping of
  objects other than the ground plane: the first ground hit is the click
  parameter.
- The console messages are left out.
