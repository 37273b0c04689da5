/** The actors of game.js: the player (its constants, movement keys and
    turning), the enemies (`Enemy` and the movement and damage of
    `Enemy.update`) and the weapons (`Weapon` and the pickup test of
    `checkWeaponPickup`). The updates of the shared state are methods of
    `Game.World`; this module holds the pure steps they are specified by. */
module Actors {

  import opened Util
  import opened Grid

  // ---------------------------------------------------------------- player

  /** `player.fov`, `player.speed`, `player.turnSpeed`, `player.radius` */
  const Fov: real := Pi / 3.0
  const PlayerSpeed: real := 0.05
  const TurnSpeed: real := 0.03
  const PlayerRadius: real := 0.2

  datatype Player = Player(x: real, y: real, dir: real, health: real)

  /** The player as game.js creates it. */
  const StartPlayer: Player := Player(1.5, 1.5, 0.0, 100.0)

  /** The keys `movePlayer` reads: ArrowUp or KeyW, ArrowDown or KeyS,
      ArrowLeft or KeyA, ArrowRight or KeyD. */
  datatype Keys = Keys(forward: bool, back: bool, left: bool, right: bool)

  /** `moveStep`: the backward key is read last, so it wins. */
  function MoveStep(keys: Keys): real
  {
    if keys.back then -PlayerSpeed else if keys.forward then PlayerSpeed else 0.0
  }

  /** The direction after the turn keys: left subtracts the turn step, then
      right adds it. */
  function Turned(dir: real, left: bool, right: bool, turn: real): real
  {
    var d := if left then dir - turn else dir;
    if right then d + turn else d
  }

  /** The one-shot wrap: add 2*PI once if negative, then subtract 2*PI once
      if above 2*PI. */
  function Wrapped(d: real): real
  {
    var d1 := if d < 0.0 then d + TwoPi else d;
    if d1 > TwoPi then d1 - TwoPi else d1
  }

  /** The direction `movePlayer` leaves. */
  function Steer(dir: real, left: bool, right: bool, turn: real): real
  {
    Wrapped(Turned(dir, left, right, turn))
  }

  /** A direction in [0, 2*PI] stays there for any turn step up to 2*PI
      (2*PI itself is kept, not wrapped to 0); the wrap moves the turned
      angle by at most one whole turn; and holding both turn keys leaves
      the direction as it was. */
  lemma SteerKeepsRange(dir: real, left: bool, right: bool, turn: real)
    requires 0.0 <= dir <= TwoPi && 0.0 <= turn <= TwoPi
    ensures 0.0 <= Steer(dir, left, right, turn) <= TwoPi
    ensures Steer(dir, left, right, turn) - Turned(dir, left, right, turn) in {-TwoPi, 0.0, TwoPi}
    ensures left && right ==> Steer(dir, left, right, turn) == dir
    ensures !left && !right ==> Steer(dir, left, right, turn) == dir
  {
  }

  /** The walkability of the player's square at (x, y). */
  predicate Walkable(g: Grid, x: real, y: real)
  {
    RowsInRange(g, y, PlayerRadius) && IsWalkable(g, x, y, PlayerRadius)
  }

  /** Moving the player's square by at most one cell vertically from a
      walkable position keeps both rows it tests inside the grid. */
  lemma NearWalkableRows(g: Grid, x: real, y: real, y': real)
    requires WellFormed(g) && Walkable(g, x, y)
    requires -1.0 <= y' - y <= 1.0
    ensures RowsInRange(g, y', PlayerRadius)
  {
    NearOpenInGrid(g, x - PlayerRadius, y - PlayerRadius, x - PlayerRadius, y' - PlayerRadius);
    NearOpenInGrid(g, x + PlayerRadius, y + PlayerRadius, x + PlayerRadius, y' + PlayerRadius);
  }

  /** The position update of `movePlayer` for the displacement (dx, dy):
      the x step is taken exactly when the player's square is walkable
      there, then the y step exactly when it is walkable from the possibly
      updated x; a blocked axis keeps its coordinate, and the player always
      ends on a walkable square. A y step of at most one cell keeps the
      rows the second test indexes inside the grid. */
  function Slide(g: Grid, p: Player, dx: real, dy: real): (q: Player)
    requires WellFormed(g) && Walkable(g, p.x, p.y) && -1.0 <= dy <= 1.0
    ensures Walkable(g, q.x, q.y)
    ensures IsWalkable(g, p.x + dx, p.y, PlayerRadius) ==> q.x == p.x + dx
    ensures !IsWalkable(g, p.x + dx, p.y, PlayerRadius) ==> q.x == p.x
    ensures RowsInRange(g, p.y + dy, PlayerRadius)
    ensures IsWalkable(g, q.x, p.y + dy, PlayerRadius) ==> q.y == p.y + dy
    ensures !IsWalkable(g, q.x, p.y + dy, PlayerRadius) ==> q.y == p.y
    ensures q.dir == p.dir && q.health == p.health
  {
    var newX := p.x + dx;
    var newY := p.y + dy;
    var x := if IsWalkable(g, newX, p.y, PlayerRadius) then newX else p.x;
    NearWalkableRows(g, x, p.y, newY);
    var y := if IsWalkable(g, x, newY, PlayerRadius) then newY else p.y;
    p.(x := x, y := y)
  }

  /** The player after `movePlayer`, given `Math.cos(player.dir)` and
      `Math.sin(player.dir)`: it slides by the signed step along its
      heading, then turns and wraps. It stays on a walkable square. */
  function Stride(g: Grid, p: Player, keys: Keys, cosDir: real, sinDir: real): (q: Player)
    requires WellFormed(g) && Walkable(g, p.x, p.y) && -1.0 <= sinDir <= 1.0
    ensures Walkable(g, q.x, q.y) && q.health == p.health
    ensures q.dir == Steer(p.dir, keys.left, keys.right, TurnSpeed)
  {
    Slide(g, p, Offset(keys, cosDir), Offset(keys, sinDir)).(dir := Steer(p.dir, keys.left, keys.right, TurnSpeed))
  }

  /** `u * moveStep`: the displacement along an axis whose heading
      component is `u` (a cosine or a sine), by cases on the keys so that
      each case scales `u` by a constant. A unit component moves at most
      `PlayerSpeed`, and with neither movement key nothing moves. */
  function Offset(keys: Keys, u: real): (d: real)
    ensures -1.0 <= u <= 1.0 ==> -PlayerSpeed <= d <= PlayerSpeed
    ensures !keys.forward && !keys.back ==> d == 0.0
  {
    if keys.back then -(u * PlayerSpeed) else if keys.forward then u * PlayerSpeed else 0.0
  }

  /** `Offset` is the heading component scaled by `moveStep`. */
  lemma OffsetIsScaled(keys: Keys, u: real, step: real)
    requires step == MoveStep(keys)
    ensures Offset(keys, u) == u * step
  {
  }

  /** Holding both movement keys moves the player backward, and with
      neither the position is kept. */
  lemma MoveStepKeys(keys: Keys)
    ensures keys.back ==> MoveStep(keys) == -PlayerSpeed
    ensures !keys.back && keys.forward ==> MoveStep(keys) == PlayerSpeed
    ensures !keys.back && !keys.forward ==> MoveStep(keys) == 0.0
  {
  }

  // ---------------------------------------------------------------- enemies

  /** `this.speed`, the engagement distance and the damage per tick of
      `Enemy.update`. */
  const EnemySpeed: real := 0.02
  const EngageRange: real := 0.5
  const EnemyDamage: real := 0.1

  datatype Enemy = Enemy(x: real, y: real, health: real, alive: bool)

  /** `new Enemy(x, y)` */
  function NewEnemy(x: real, y: real): Enemy
  {
    Enemy(x, y, 100.0, true)
  }

  /** A coordinate difference over a distance at least as long is a
      fraction in [-1, 1]. */
  lemma ShareOfDistance(d: real, dist: real)
    requires dist > 0.0 && d * d <= dist * dist
    ensures -1.0 <= d / dist <= 1.0
  {
    WithinDistance(d, dist);
    assert d / dist * dist == d;
  }

  lemma WithinDistance(d: real, dist: real)
    requires dist > 0.0 && d * d <= dist * dist
    ensures -dist <= d <= dist
  {
    assert (dist - d) * (dist + d) >= 0.0;
  }

  /** The step an enemy at distance `dist` takes along one axis:
      `(d / distance) * this.speed`. */
  function Share(d: real, dist: real): real
    requires dist > 0.0
  {
    d / dist * EnemySpeed
  }

  lemma ShareBounded(d: real, other: real, dist: real)
    requires dist > 0.0 && dist * dist == d * d + other * other
    ensures -EnemySpeed <= Share(d, dist) <= EnemySpeed
  {
    ShareOfDistance(d, dist);
    var u := d / dist;
    assert Share(d, dist) == u * EnemySpeed;
  }

  /** The cell tests of the seeking branch of `Enemy.update` for the
      proposed point (newX, newY): the x step is taken only if the cell
      under (newX, y) is open, then the y step only if the cell under
      (x, newY) is open, from the possibly updated x. The enemy stays on an
      open cell and keeps its health and aliveness. */
  function Stepped(g: Grid, e: Enemy, newX: real, newY: real): (e': Enemy)
    requires WellFormed(g) && OnOpenCell(g, e.x, e.y) && 0 <= newY.Floor < |g|
    ensures OnOpenCell(g, e'.x, e'.y)
    ensures IsOpen(g, e.y.Floor, newX.Floor) ==> e'.x == newX
    ensures !IsOpen(g, e.y.Floor, newX.Floor) ==> e'.x == e.x
    ensures IsOpen(g, newY.Floor, e'.x.Floor) ==> e'.y == newY
    ensures !IsOpen(g, newY.Floor, e'.x.Floor) ==> e'.y == e.y
    ensures e'.health == e.health && e'.alive == e.alive
  {
    var x' := if IsOpen(g, e.y.Floor, newX.Floor) then newX else e.x;
    var y' := if IsOpen(g, newY.Floor, x'.Floor) then newY else e.y;
    e.(x := x', y := y')
  }

  /** The seeking branch of `Enemy.update`: the step of `EnemySpeed`
      toward the player, through the cell tests of `Stepped`. Each axis
      either takes its share of the step or stays. */
  function Pursue(g: Grid, e: Enemy, px: real, py: real, dist: real): (e': Enemy)
    requires WellFormed(g) && OnOpenCell(g, e.x, e.y)
    requires dist > 0.0 && DistanceTo(e, px, py, dist)
    ensures OnOpenCell(g, e'.x, e'.y)
    ensures e'.x == e.x + Share(px - e.x, dist) || e'.x == e.x
    ensures e'.y == e.y + Share(py - e.y, dist) || e'.y == e.y
    ensures e'.health == e.health && e'.alive == e.alive
  {
    PursuedRowInGrid(g, e, px, py, dist);
    Stepped(g, e, e.x + Share(px - e.x, dist), e.y + Share(py - e.y, dist))
  }

  /** The row the y step would move the enemy to exists, so the second
      test of the seeking branch indexes the grid. */
  lemma PursuedRowInGrid(g: Grid, e: Enemy, px: real, py: real, dist: real)
    requires WellFormed(g) && OnOpenCell(g, e.x, e.y)
    requires dist > 0.0 && DistanceTo(e, px, py, dist)
    ensures 0 <= (e.y + Share(py - e.y, dist)).Floor < |g|
  {
    ShareBounded(py - e.y, px - e.x, dist);
    NearOpenInGrid(g, e.x, e.y, e.x, e.y + Share(py - e.y, dist));
  }

  /** With neither axis blocked, an enemy further away than its speed ends
      exactly `EnemySpeed` closer to the player: its new distance is
      `dist - 0.02`. */
  lemma PursueCloses(g: Grid, e: Enemy, px: real, py: real, dist: real)
    requires WellFormed(g) && OnOpenCell(g, e.x, e.y)
    requires dist > EnemySpeed && DistanceTo(e, px, py, dist)
    requires Pursue(g, e, px, py, dist).x == e.x + Share(px - e.x, dist)
    requires Pursue(g, e, px, py, dist).y == e.y + Share(py - e.y, dist)
    ensures var e' := Pursue(g, e, px, py, dist);
      SquaredDistance(px, py, e'.x, e'.y) == (dist - EnemySpeed) * (dist - EnemySpeed)
  {
    StepCloses(px, py, e.x, e.y, dist);
  }

  /** The arithmetic of `PursueCloses`: both coordinate differences shrink
      by the factor 1 - EnemySpeed / dist. */
  lemma StepCloses(px: real, py: real, x: real, y: real, dist: real)
    requires dist > EnemySpeed && dist * dist == SquaredDistance(px, py, x, y)
    ensures SquaredDistance(px, py, x + Share(px - x, dist), y + Share(py - y, dist)) == (dist - EnemySpeed) * (dist - EnemySpeed)
  {
    var dx, dy := px - x, py - y;
    var f := 1.0 - EnemySpeed / dist;
    assert px - (x + Share(dx, dist)) == dx * f;
    assert py - (y + Share(dy, dist)) == dy * f;
    assert (dx * f) * (dx * f) + (dy * f) * (dy * f) == (dx * dx + dy * dy) * (f * f);
    assert dist * f == dist - EnemySpeed;
    assert (dist * dist) * (f * f) == (dist * f) * (dist * f);
  }

  /** Along one axis, taking the step toward the player or staying put
      never lengthens the coordinate difference of an enemy further away
      than its speed. */
  lemma AxisNoFurther(p: real, x: real, other: real, dist: real, x': real)
    requires dist > EnemySpeed && dist * dist == (p - x) * (p - x) + other * other
    requires x' == x + Share(p - x, dist) || x' == x
    ensures (p - x') * (p - x') <= (p - x) * (p - x)
  {
    var d := p - x;
    var f := 1.0 - EnemySpeed / dist;
    assert 0.0 <= f <= 1.0;
    if x' != x {
      assert Share(d, dist) == d * (EnemySpeed / dist);
      assert p - x' == d * f;
      assert (d * f) * (d * f) == (d * d) * (f * f);
      assert f * f <= f;
    }
  }

  /** Whatever the walls block, an enemy further away than its speed never
      ends further from the player than it was. */
  lemma PursueNeverRecedes(g: Grid, e: Enemy, px: real, py: real, dist: real)
    requires WellFormed(g) && OnOpenCell(g, e.x, e.y)
    requires dist > EnemySpeed && DistanceTo(e, px, py, dist)
    ensures var e' := Pursue(g, e, px, py, dist);
      SquaredDistance(px, py, e'.x, e'.y) <= dist * dist
  {
    var e' := Pursue(g, e, px, py, dist);
    StepNoFurther(px, py, e.x, e.y, dist, e'.x, e'.y);
  }

  /** Both axes together: the squared distance after any combination of
      accepted and refused axis steps. */
  lemma StepNoFurther(px: real, py: real, x: real, y: real, dist: real, x': real, y': real)
    requires dist > EnemySpeed && dist * dist == SquaredDistance(px, py, x, y)
    requires x' == x + Share(px - x, dist) || x' == x
    requires y' == y + Share(py - y, dist) || y' == y
    ensures SquaredDistance(px, py, x', y') <= dist * dist
  {
    AxisNoFurther(px, x, py - y, dist, x');
    AxisNoFurther(py, y, px - x, dist, y');
  }

  /** The attacking branch of `Enemy.update` leaves this health: 0.1 less,
      or exactly 0 once that would be 0 or below. */
  function Wounded(health: real): (h: real)
    ensures h >= 0.0
    ensures h == health - EnemyDamage || (h == 0.0 && health - EnemyDamage <= 0.0)
  {
    if health - EnemyDamage <= 0.0 then 0.0 else health - EnemyDamage
  }

  /** The attacking branch runs its defeat handling (sound, message, game
      over text). */
  predicate Fatal(health: real)
  {
    health - EnemyDamage <= 0.0
  }

  /** Health and number of defeat signals after `n` attacking ticks. */
  function Engaged(health: real, n: nat): (real, nat)
  {
    if n == 0 then (health, 0)
    else
      var (h, d) := Engaged(health, n - 1);
      (Wounded(h), d + if Fatal(h) then 1 else 0)
  }

  /** Starting from `m` tenths of health (m >= 1), the player loses one
      tenth per attacking tick; the defeat handling first runs on tick `m`,
      when health is clamped to 0, and then again on every later tick. */
  lemma {:induction false} EngagedFromTenths(m: nat, n: nat)
    requires m >= 1
    ensures Engaged(m as real * EnemyDamage, n) ==
      if n < m then ((m - n) as real * EnemyDamage, 0) else (0.0, n - m + 1)
  {
    if n > 0 {
      EngagedFromTenths(m, n - 1);
      if n - 1 < m {
        assert (m - (n - 1)) as real * EnemyDamage - EnemyDamage == (m - n) as real * EnemyDamage;
      }
    }
  }

  /** Each attacking tick raises at most one defeat signal. */
  lemma {:induction false} EngagedDefeatsAtMost(health: real, n: nat)
    ensures Engaged(health, n).1 <= n
  {
    if n > 0 {
      EngagedDefeatsAtMost(health, n - 1);
    }
  }

  /** The enemy does its attacking branch this tick. */
  predicate Engages(e: Enemy, dist: real)
  {
    e.alive && dist <= EngageRange
  }

  /** `dist` is `Math.sqrt` of the squared distance from the enemy to
      (px, py). */
  predicate DistanceTo(e: Enemy, px: real, py: real, dist: real)
  {
    dist >= 0.0 && dist * dist == SquaredDistance(px, py, e.x, e.y)
  }

  /** The enemy after its `update`: a dead or engaging enemy stays where it
      is; otherwise it pursues. */
  function Advance(g: Grid, e: Enemy, px: real, py: real, dist: real): (e': Enemy)
    requires WellFormed(g) && OnOpenCell(g, e.x, e.y)
    requires DistanceTo(e, px, py, dist)
    ensures OnOpenCell(g, e'.x, e'.y) && e'.health == e.health && e'.alive == e.alive
    ensures !e.alive || dist <= EngageRange ==> e' == e
  {
    if !e.alive || dist <= EngageRange then e else Pursue(g, e, px, py, dist)
  }

  /** How many of the first `n` enemies engage. */
  function Engagers(es: seq<Enemy>, dists: seq<real>, n: nat): (c: nat)
    requires n <= |es| && n <= |dists|
    ensures c <= n
  {
    if n == 0 then 0 else Engagers(es, dists, n - 1) + if Engages(es[n - 1], dists[n - 1]) then 1 else 0
  }

  // ---------------------------------------------------------------- weapons

  const PickupRange: real := 0.5

  datatype Weapon = Weapon(x: real, y: real, pickedUp: bool)

  /** `new Weapon(x, y)` */
  function NewWeapon(x: real, y: real): Weapon
  {
    Weapon(x, y, false)
  }

  /** `Math.sqrt(dx * dx + dy * dy) < range`, compared on squares, which is
      the same test for a non-negative range. */
  predicate Within(ax: real, ay: real, bx: real, bY: real, range: real)
  {
    SquaredDistance(ax, ay, bx, bY) < range * range
  }

  /** The test `checkWeaponPickup` applies to one weapon. */
  predicate Collectable(w: Weapon, px: real, py: real)
  {
    !w.pickedUp && Within(px, py, w.x, w.y, PickupRange)
  }

  /** One weapon after `checkWeaponPickup`. */
  function Gathered(w: Weapon, px: real, py: real): Weapon
  {
    if Collectable(w, px, py) then w.(pickedUp := true) else w
  }

  /** The weapon `playerWeapon` ends up naming among the first `n`: the
      last collectable one, as the loop overwrites it for each pickup. */
  function LastCollected(ws: seq<Weapon>, px: real, py: real, n: nat): (r: Option<nat>)
    requires n <= |ws|
    ensures r.Some? ==> r.value < n && Collectable(ws[r.value], px, py)
    ensures r.Some? ==> forall j :: r.value < j < n ==> !Collectable(ws[j], px, py)
    ensures r.None? ==> forall j :: 0 <= j < n ==> !Collectable(ws[j], px, py)
  {
    if n == 0 then None
    else if Collectable(ws[n - 1], px, py) then Some(n - 1)
    else LastCollected(ws, px, py, n - 1)
  }
}
