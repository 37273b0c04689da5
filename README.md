# Raycaster maze game: the game logic of game.js in Dafny

This project models the game-logic and rendering-decision layer of a small
browser raycaster (`game.js`): a tile grid, a player who moves and turns,
enemies that chase and hit the player, weapons to pick up, a melee attack,
the per-column ray march with its texture-tier ladder and depth buffer, and
the sprite pass that picks, orders and depth-tests enemies and weapons.
The mutable globals of the script (`player`, `enemies`, `weapons`,
`playerWeapon`, `score`, `isAttacking`, `attackFrame`) are the fields of one
class, `Game.World`, whose methods are the script's update functions. Each
method is proved against pure functions in the modules below it, and the
properties the game relies on are proved about those functions.

Modules (one file each):

- `Util` (util.dfy): `Option`, `Abs`, `SquaredDistance`, and `Math.PI` as a decimal.
- `Grid` (grid.dfy): `map`, the cell tests, `isWalkable`, and the placement acceptance test.
- `Raycast` (raycast.dfy): the ray march of `castRays`, the texture tier, and the column loop that fills `zBuffer`.
- `Actors` (actors.dfy): player movement and turning, the enemy step and damage of `Enemy.update`, and the weapon pickup test.
- `Combat` (combat.dfy): the attack probe, the damage it deals, and the attack-animation timer.
- `Sprites` (sprites.dfy): the candidate filter, angle normalisation, the farthest-first sort, compositing, and the health-bar clamp.
- `Game` (game.dfy): the `World` class and the per-call steps of its methods.

Cosines, sines, square roots and `Math.atan2` are parameters. The enemy
updates (`Game.World.UpdateEnemy`, `Game.World.UpdateEnemies`,
`Game.World.Chase`) receive the distance `dist` to the player together with
the fact `dist >= 0 && dist*dist == dx*dx + dy*dy` (`Actors.DistanceTo`).
The sprite pass takes each target's distance, bearing and sine as a
`Sprites.Sight` with no constraint: its properties (which targets become
sprites, the farthest-first order, the depth test) hold for any supplied
values. Distance comparisons such as `sqrt(q) < 0.5` are modelled exactly as
`q < 0.25`.

Two behaviours of the code are modelled as written, although a cleaner
design would differ:

- The direction wrap keeps `dir == 2*PI` (game.js:550-555).
- The defeat handling of `Enemy.update` runs on every tick in which an
  enemy hits a player whose health is already 0. The
  `cancelAnimationFrame(gameLoopId)` at game.js:171 cancels the request of
  the frame that is already running, and `gameLoop` requests the next frame
  at game.js:764. `Game.World.defeats` counts these runs, and
  `Actors.EngagedFromTenths` states how often the handling fires.

A JavaScript row index outside `map` throws. The model makes it a
precondition, and the `World` invariant discharges it: the grid is walled
in, the player's square is walkable, and every enemy stands on an open cell.
A column index outside a row reads `undefined`, which is neither 0 nor 1,
and the model says exactly that (`Grid.IsOpen`, `Grid.IsWall`).

## Model

| member | source | states |
|---|---|---|
| Grid.LevelWellFormed | game.js:4-16 | The level is rectangular, every cell is 0 or 1, the border is all walls, and it is 16 wide and 9 high. |
| Grid.IsOpen | game.js:154-159 | `map[row][col] === 0`: the column exists in the row and its cell is 0. An absent column reads `undefined`, which is not 0; the row must exist, since JavaScript throws on a missing one. |
| Grid.IsWall | game.js:638-640 | `map[row][col] === 1`: the column exists in the row and its cell is 1, with the same reading of an absent column. |
| Grid.IsWalkable | game.js:558-578 | `isWalkable`: the cells under the four corners `(x ± margin, y ± margin)` are all 0; the two rows it indexes must exist. |
| Grid.WalkableIffSquareOpen | game.js:558-578 | For a margin of at most half a cell, the four-corner test holds exactly when every point of the player's bounding square lies on an open cell. |
| Grid.WalkableCentreOpen | game.js:558-578 | A walkable position stands on an open cell itself. |
| Grid.OpenIsInterior | game.js:4-16 | In a walled-in grid an open cell is never in the border rows or columns. |
| Grid.NearOpenInGrid | game.js:154-159 | A point within one cell of a point on an open cell still lies over the grid, so the row lookups of a step cannot throw. |
| Grid.PlacementOnOpenCell | game.js:190-191 | A cell accepted by the placement test puts the object, at the cell centre `(x + 0.5, y + 0.5)`, on an open cell. |
| Grid.PlacementAccepted | game.js:186-191 | The acceptance test of `placeEnemies` (and, the same, of `placeWeapons` at game.js:220-224) for a drawn cell: the cell is 0, and it lies more than 2 from the player in column or in row. |
| Raycast.Clear | game.js:256-264 | A march step goes on: its point lies over the grid and its cell is not 1. |
| Raycast.March | game.js:250-277 | The march from step `k`: a step off the grid is a hit at 16, a step on a wall cell is a hit at `k * 0.05` with its texture coordinate, otherwise the next step, and after step 320 a miss at 16. |
| Raycast.Ray | game.js:243-277 | One column's ray is the march from step 1, the first value of `distanceToWall` + 0.05. |
| Raycast.Rem1 | game.js:266-267 | JavaScript `v % 1` lies in (-1, 1), keeps the sign of `v`, and for `v >= 0` is the fractional part. |
| Raycast.FaceCoordinate | game.js:266-274 | The texture coordinate of a hit at non-negative coordinates lies in [0, 1). |
| Raycast.MarchStops | game.js:250-277 | The march passes every step before its last, and reports a hit exactly when the last step is not clear. Off the grid it is a hit at distance exactly 16 with texture 0. On a wall cell it is a hit at the step's distance with texture in [0, 1). Without a hit, all 320 steps were taken and the distance is 16. |
| Raycast.CastRay | game.js:243-277 | The `while` loop for one column returns exactly the ray `March` describes, so it ends within 320 steps. |
| Raycast.RayDepthBounds | game.js:250-261 | Every ray takes between 1 and 320 steps, and its distance lies in [0.05, 16]. |
| Raycast.RingHitsNearby | game.js:250-275 | From the centre of a 3x3 walled cell, a ray in any unit direction hits a wall within distance 0.75, with texture in [0, 1). |
| Raycast.TextureTier | game.js:290-301 | The tier is one of 256, 128, 64, 32 and 16. |
| Raycast.TierNonIncreasing | game.js:290-301 | The tier never grows as the corrected distance grows. |
| Raycast.TierHalvesPerBand | game.js:290-301 | The tier is 256 halved once for each of the limits 2, 4, 8 and 12 that the distance has reached. So each limit is exclusive on its near side. |
| Raycast.CorrectedDepth | game.js:280-281 | `correctedDistance`: the ray's distance times the supplied `Math.cos(rayAngle - player.dir)`. |
| Raycast.SliceFor | game.js:290-316 | The slice drawn for a column: the texture of the tier of the corrected distance at the hit's `textureX`, or Flat when textures are not loaded. |
| Raycast.CastColumn | game.js:247-316 | One column's corrected distance is the ray's distance times the supplied cosine, and its slice is the tier texture at the hit's coordinate. Whether textures are loaded is an input; the flat grey slice for unloaded textures cannot happen when called from `gameLoop`, which returns before `castRays` until textures are loaded (game.js:709-712). |
| Raycast.CastColumns | game.js:241-319 | `zBuffer` gets exactly one entry per column, the column's corrected distance, and each column gets its slice. |
| Actors.MoveStep | game.js:522-528 | `moveStep`: 0.05 forward, -0.05 back, 0 with neither key; the back key is read last. |
| Actors.Turned | game.js:542-547 | The direction after the turn keys: left subtracts 0.03, then right adds it. |
| Actors.Wrapped | game.js:550-555 | The one-shot wrap: 2*PI added once if negative, then subtracted once if above 2*PI. |
| Actors.Steer | game.js:542-555 | The direction `movePlayer` leaves: turn, then wrap. |
| Actors.SteerKeepsRange | game.js:542-555 | From [0, 2*PI], with a turn step of at most 2*PI, the direction stays in [0, 2*PI]. The wrap moves the turned angle by -2*PI, 0 or 2*PI. Holding both turn keys, or neither, leaves the direction unchanged. |
| Actors.MoveStepKeys | game.js:522-528 | The back key wins over the forward key, and with neither key held the step is 0. |
| Actors.Offset | game.js:531-532 | The displacement along an axis with a unit heading component is at most the player speed, and it is 0 with neither movement key held. |
| Actors.OffsetIsScaled | game.js:531-532 | The displacement along an axis is the heading component times `moveStep`. |
| Actors.Slide | game.js:531-540 | `x` becomes `newX` exactly when the square is walkable at `(newX, y)`. Then `y` becomes `newY` exactly when walkable at the current `x`. A blocked axis keeps its coordinate, and the player stays walkable. |
| Actors.Stride | game.js:521-556 | After `movePlayer` the player is still on a walkable square, keeps its health, and faces the turned and wrapped direction. |
| Actors.NewEnemy | game.js:129-135 | `new Enemy(x, y)`: at (x, y), health 100, alive. |
| Actors.Walkable | game.js:558-578 | `isWalkable(x, y)` with the margin `player.radius` (0.2), with the rows it indexes inside the grid. |
| Actors.Share | game.js:145-148 | One axis of the enemy's step: the axis difference over the distance, times the speed 0.02. |
| Actors.ShareBounded | game.js:147-148 | Each axis of the enemy step `(d / distance) * speed` is at most the enemy speed. |
| Actors.Stepped | game.js:150-161 | The enemy takes the x step only onto an open cell, then the y step only onto an open cell from the updated x. It stays on an open cell and keeps health and aliveness. |
| Actors.Pursue | game.js:141-161 | Each axis either takes its share of the step toward the player or stays, and the enemy stays on an open cell. |
| Actors.PursueCloses | game.js:141-161 | With neither axis blocked, an enemy farther away than its speed ends exactly `0.02` closer: its new squared distance is `(dist - 0.02)^2`. |
| Actors.PursueNeverRecedes | game.js:141-161 | Whatever the walls block, an enemy farther away than its speed never ends farther from the player. |
| Actors.StepNoFurther | game.js:150-161 | Any combination of taken and refused axis steps leaves the squared distance at most `dist^2`. |
| Actors.Wounded | game.js:164-167 | The attacking branch leaves health at 0.1 less, or at exactly 0 once that would be 0 or below, so it is never negative. |
| Actors.Fatal | game.js:163-166 | The attacking branch takes the defeat path when health minus 0.1 is at most 0. |
| Actors.Engages | game.js:137-145 | The enemy takes the attacking branch exactly when it is alive and its distance is not above 0.5. |
| Actors.EngagedFromTenths | game.js:162-171 | From `m` tenths of health, the player loses one tenth per attacking tick. Defeat first fires on tick `m`, at health exactly 0, and again on every later tick. |
| Actors.Advance | game.js:137-180 | A dead or engaging enemy stays where it is, an enemy always stays on an open cell, and its health and aliveness are kept. |
| Actors.Collectable | game.js:583-587 | A weapon is picked up when not yet picked up and strictly within 0.5 of the player. |
| Actors.Within | game.js:583-587 | `Math.sqrt(dx * dx + dy * dy) < range`, written as the squared distance below the squared range, the same test for a non-negative range. It is also the reach test of game.js:628-631. |
| Actors.Gathered | game.js:583-589 | A weapon after the pickup test: marked picked up if collectable, otherwise unchanged. |
| Actors.NewWeapon | game.js:206-210 | `new Weapon(x, y)`: at (x, y), not picked up. |
| Actors.EngagedDefeatsAtMost | game.js:164-171 | Each attacking tick raises at most one defeat signal. |
| Actors.LastCollected | game.js:582-594 | The weapon `playerWeapon` ends up naming is the last collectable one. If there is none, no weapon was collectable. |
| Combat.InReach | game.js:627-631 | The probe's test of one enemy: alive and strictly within 0.5 of the probe point. |
| Combat.LastInReach | game.js:626-635 | At one probe point, the selected enemy is alive and in reach, and no later enemy in array order is; with no selection, no enemy is in reach. |
| Combat.StepHit | game.js:626-635 | The enemy the inner `forEach` leaves in `hitEnemy` at probe step `k`: the last alive enemy in reach of that step's point. |
| Combat.Probe | game.js:619-641 | An enemy the probe selects is a valid index of an alive enemy. |
| Combat.ProbeStep | game.js:619-641 | One probe step: its row exists. An enemy in reach is the result. A wall ends the probe with no hit. Otherwise the point is on an open cell and the probe goes on, or ends after step 20. |
| Combat.ProbeStops | game.js:619-641 | The probe settles at some step `j` in [k, 20]. Every step before `j` had no enemy in reach and no wall. At `j` either the result is the enemy selected there, or there is no enemy in reach and the loop stops (a wall, or step 20). |
| Combat.Aim | game.js:612-641 | The whole probe from the player's position selects, if anyone, an alive enemy. |
| Combat.Strike | game.js:645-648 | A hit keeps the enemy's position and takes 50 health. The enemy dies exactly when that leaves 0 or less. |
| Combat.Kills | game.js:644-649 | The hit defeats the enemy, and the score rises, exactly when its health minus 50 is at most 0. |
| Combat.ScoredOnce | game.js:643-651 | However often an enemy is hit, it scores at most 1. It scores exactly when the hits took it from alive to dead, and a dead enemy is never changed. |
| Combat.HitsToKill | game.js:643-651 | An enemy with health in (50(m-1), 50m] survives m-1 hits unscored and dies on hit m, scoring 1. At 100 health that is two hits. |
| Combat.Tick | game.js:726-731 | One animation tick: while attacking, the frame advances by one, and `isAttacking` clears when it reaches 10. |
| Combat.SwingLasts | game.js:726-731 | An attack started at frame 0 stays active for nine ticks. The tenth tick clears it at frame 10, where it stays. |
| Sprites.Normalized | game.js:340-341 | The normalised angle lies in [-PI, PI]. It differs from the input by whole turns, and an angle already in [-PI, PI] is kept. |
| Sprites.InView | game.js:344 | The strict field-of-view test, `-fov/2 < angle < fov/2`; the same test is at game.js:371. |
| Sprites.NormalizeAngle | game.js:340-341 | The two `while` loops compute `Normalized`. |
| Sprites.SpottedExactly | game.js:330-381 | A sprite is collected exactly when it comes from an alive enemy or a weapon not yet picked up whose angle is strictly inside (-fov/2, fov/2). |
| Sprites.Spotted | game.js:327-381 | The `sprites` array after the first `n` targets: a sprite is appended, in target order, for each target that shows and is in view. That covers the enemies first, then the weapons. |
| Sprites.Spot | game.js:331-352 | One target pushes its sprite exactly when it shows and its normalised angle is strictly in view. |
| Sprites.CollectSprites | game.js:327-381 | The two `forEach` loops build the candidate list: enemies first, then weapons, in array order. |
| Sprites.SinkFarthest | game.js:384 | One insertion pass leaves the first `i + 1` sprites farthest first and keeps the same sprites. |
| Sprites.SortFarthestFirst | game.js:384 | After the sort, distances never increase along the array, and the array holds the same sprites. |
| Sprites.ScreenX | game.js:388 | `spriteScreenX`: half the canvas width times `1 + sin(angle) / tan(fov / 2)`. |
| Sprites.OffScreen | game.js:389-400 | The screen-bounds reject on the sprite's square of side `height / distance`. |
| Sprites.Drawn | game.js:398-405 | A sprite is drawn when it is not rejected, its centre column is on screen, and it is nearer than the wall in that column. |
| Sprites.LookOf | game.js:411-430 | The enemy image with the health bar of the first alive enemy at exactly its position, the weapon image, or the red or yellow fallback while the image is loading. |
| Sprites.HealthPercent | game.js:445 | The health fraction lies in [0, 1]. It equals health/100 for health in [0, 100], is 0 below and 1 above. |
| Sprites.FindEnemy | game.js:442 | `enemies.find` returns the first alive enemy at exactly the sprite's position, and none when no enemy matches. |
| Sprites.Matches | game.js:442 | The `enemies.find` test: the enemy is at exactly the sprite's position and alive. |
| Sprites.CompositeExactly | game.js:386-433 | A sprite is drawn exactly when it passes the screen-bounds reject and its centre column is on screen and nearer than the wall there. It is drawn with the look its kind and the loaded images give it. |
| Sprites.Composite | game.js:386-433 | The draws of the final `forEach` over the first `n` sorted sprites: a draw is appended, in sorted order, for each sprite passing the bounds and depth tests, with its look. |
| Sprites.CompositeKeepsOrder | game.js:384-433 | The draws keep the farthest-first order, so nearer sprites are painted over farther ones. |
| Sprites.RenderSprites | game.js:326-434 | `renderSprites` composites a farthest-first permutation of the candidates, with the draws `Composite` describes. |
| Game.LevelStart | game.js:110-119 | The hard-coded level is well formed and the start position (1.5, 1.5) is walkable, so the world invariant holds at the start; cell (5, 5) passes the placement test. |
| Game.SweepDefeatsBounded | game.js:720 | In one sweep of the enemies the defeat handling runs at most once per engaging enemy, so at most once per enemy. |
| Game.SweepFromTenths | game.js:162-171 | From `m` tenths of health, each engaging enemy in the sweep takes one tenth until health reaches 0. From then on the defeat handling has run once for the enemy that reached 0 and once for every later engaging enemy. |
| Game.SweepFiresFrom | game.js:162-171 | Enemy `i` runs the defeat handling exactly when it engages and at least `m - 1` engaging enemies come before it: the one that brings health to 0 and every engaging enemy after it. |
| Game.GatherWeapons | game.js:581-595 | Every collectable weapon is marked picked up and all others are kept. The weapon held afterwards is the last one collected. |
| Game.ChaseStep | game.js:145-161 | The seeking branch computes exactly `Pursue`. |
| Game.Damage | game.js:643-651 | The damage block leaves exactly `Strike` of the enemy, and reports a kill exactly when `Kills` holds. |
| Game.World.constructor | game.js:110-135 | The world starts with the player at (1.5, 1.5) facing 0 with 100 health. There is an enemy and a weapon at the centre of each accepted cell, no weapon held, score 0, and no attack running. |
| Game.World.MovePlayer | game.js:521-556 | The player becomes `Stride` of the old player, nothing else changes, and the world invariant is kept. |
| Game.World.SlidePlayer | game.js:531-540 | The position update is `Slide` of the old player, and nothing else changes. |
| Game.World.TurnPlayer | game.js:542-555 | Only the direction changes, to `Steer` of the old direction. |
| Game.World.UpdateEnemy | game.js:137-180 | The enemy becomes `Advance` of itself. An engaging enemy wounds the player by 0.1, clamped at 0, and adds a defeat when that reaches 0. Otherwise the player is unchanged. |
| Game.World.Chase | game.js:145-161 | Only enemy `i` changes, to `Pursue` of itself, and the invariant is kept. |
| Game.World.UpdateEnemies | game.js:720 | Every enemy advances on its own. The player's health and the defeat count are those of one 0.1 hit per engaging enemy, in array order. |
| Game.World.CheckWeaponPickup | game.js:581-595 | Each weapon becomes `Gathered`. The held weapon becomes the last one collected, or stays as it was if none was collected. |
| Game.World.Attack | game.js:598-658 | With no weapon, or while an attack runs, nothing changes. Otherwise the attack starts at frame 0, hit or miss. The enemy `Aim` selects, if any, takes 50 damage, and `score` rises by exactly 1 when that kills it. |
| Game.World.ProbeAhead | game.js:612-641 | The probe loop returns exactly `Aim`: the first step with an enemy in reach, the last such enemy in array order, stopped by a wall or after 20 steps. |
| Game.World.ScanAt | game.js:626-635 | The inner `forEach` leaves `hitEnemy` as the last enemy in reach at that point. |
| Game.World.TickAttackTimer | game.js:726-731 | The timer advances by `Tick`: one frame while attacking, clearing `isAttacking` at frame 10. Nothing else changes. |

## Left out

- Drawing: canvas setup, every `drawImage`/`fillRect` call, `drawSword`, `drawMiniMap` and the HUD text. Only the decision of what to draw is modelled, not pixels.
- The wall-slice geometry (`lineHeight`, `drawStart`, `drawEnd`, game.js:284-287) and the sprite size in pixels. These are only used for drawing; `Sprites.OffScreen` keeps the bounds reject that uses them.
- Image and texture loading, and the `onload` counter: asynchronous browser callbacks. Whether textures and sprite images are loaded is an input.
- `SoundManager`: Web Audio output. `console.log` calls are also not modelled.
- The keyboard listeners: the keys are a `Keys` value passed to `MovePlayer`, and `Attack` is called directly.
- `placeEnemies` and `placeWeapons`: their `Math.random` loops may never end. The model takes the accepted cells as input (`Game.Accepted`, `Grid.PlacementAccepted`) and places each object at the cell centre.
- Frame scheduling (`requestAnimationFrame`/`cancelAnimationFrame`) and the order of the calls inside `gameLoop` are not composed into one tick. Each call is its own method.
- Floating-point rounding. Coordinates are exact reals, so the accumulated `distanceToWall += 0.05` and `distanceToEnemy += 0.1` are exactly `k * 0.05` and `k * 0.1`. `Math.PI` is the decimal 3.141592653589793, taken as exact.
- `Math.cos`, `Math.sin`, `Math.tan`, `Math.sqrt` and `Math.atan2` are inputs. No trigonometric fact is proved, such as the fisheye projection or `spriteScreenX`.
- Sprites.SortFarthestFirst: `Array.prototype.sort` is modelled as an insertion sort. Its result is farthest first and a permutation, but which order ties come out in is not claimed.
- Sprites.RenderSprites: requires `Math.tan(fov / 2) > 0`. This holds for the fixed fov of PI/3, and it keeps `spriteScreenX` finite.
- Game.World.MovePlayer, Game.World.UpdateEnemy and Game.World.Attack do their work through smaller methods (`SlidePlayer`/`TurnPlayer`, `Chase`/`ChaseStep`, `ProbeAhead`/`ScanAt`/`Damage`). These follow the same steps as the source.
- Game.World.CheckWeaponPickup runs the pickup loop on the weapons list (`Game.GatherWeapons`) and stores the result once. JavaScript sets `pickedUp` on each weapon object in the loop; no other code reads the list during the loop, so the final state is the same.
- Game.World fields hold values, not object references: `playerWeapon` is an index into `weapons`, and an updated enemy or weapon replaces its list entry.
- Game.World.UpdateEnemies: requires each enemy's distance to the player as input (the `Math.sqrt` value). No enemy update moves the player, so the distances stay valid through the sweep.
- Grid.IsOpen and Grid.IsWall require an in-range row: JavaScript throws on a row outside `map`, which the model does not represent.
