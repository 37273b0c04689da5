/** The mutable game state of game.js (the globals `player`, `enemies`,
    `weapons`, `playerWeapon`, `score`, `isAttacking` and `attackFrame` on
    the one `map`) and the operations that update it in place. */
module Game {

  import opened Util
  import opened Grid
  import opened Raycast
  import opened Actors
  import opened Combat
  import opened Sprites

  /** A cell drawn by `placeEnemies` or `placeWeapons`: column, then row. */
  datatype Cell = Cell(col: int, row: int)

  /** A placement draw the acceptance test lets through, for a player at
      the start position. */
  predicate Accepted(g: Grid, c: Cell)
  {
    0 <= c.row < |g| && PlacementAccepted(g, StartPlayer.x, StartPlayer.y, c.col, c.row)
  }

  function EnemiesAt(cells: seq<Cell>): seq<Enemy>
  {
    seq(|cells|, i requires 0 <= i < |cells| => NewEnemy(cells[i].col as real + 0.5, cells[i].row as real + 0.5))
  }

  function WeaponsAt(cells: seq<Cell>): seq<Weapon>
  {
    seq(|cells|, i requires 0 <= i < |cells| => NewWeapon(cells[i].col as real + 0.5, cells[i].row as real + 0.5))
  }

  /** The loop of `checkWeaponPickup` over the weapons: each collectable
      weapon is marked picked up, and the last one marked is the one the
      player ends up holding. */
  method GatherWeapons(ws: seq<Weapon>, px: real, py: real) returns (gathered: seq<Weapon>, last: Option<nat>)
    ensures |gathered| == |ws|
    ensures forall i :: 0 <= i < |ws| ==> gathered[i] == Gathered(ws[i], px, py)
    ensures last == LastCollected(ws, px, py, |ws|)
  {
    gathered, last := ws, None;
    for i := 0 to |ws|
      invariant |gathered| == |ws|
      invariant forall j :: 0 <= j < i ==> gathered[j] == Gathered(ws[j], px, py)
      invariant forall j :: i <= j < |ws| ==> gathered[j] == ws[j]
      invariant last == LastCollected(ws, px, py, i)
    {
      var w := gathered[i];
      if !w.pickedUp {
        if Within(px, py, w.x, w.y, PickupRange) {
          gathered := gathered[i := w.(pickedUp := true)];
          last := Some(i);
        }
      }
    }
  }

  /** The movement branch of `Enemy.update`: a step of `EnemySpeed`
      toward the player, each axis taken only onto an open cell, the x
      axis first. */
  method ChaseStep(g: Grid, e: Enemy, px: real, py: real, dist: real) returns (moved: Enemy)
    requires WellFormed(g) && OnOpenCell(g, e.x, e.y)
    requires dist > 0.0 && DistanceTo(e, px, py, dist)
    ensures moved == Pursue(g, e, px, py, dist)
  {
    var moveX := Share(px - e.x, dist);
    var moveY := Share(py - e.y, dist);
    var newX := e.x + moveX;
    var newY := e.y + moveY;
    PursuedRowInGrid(g, e, px, py, dist);
    moved := e;
    if IsOpen(g, e.y.Floor, newX.Floor) {
      moved := moved.(x := newX);
    }
    if IsOpen(g, newY.Floor, moved.x.Floor) {
      moved := moved.(y := newY);
    }
  }

  /** The damage block of `attack` for the enemy hit: 50 health off, and
      dead when that leaves 0 or less, which is when the score goes up. */
  method Damage(e: Enemy) returns (struck: Enemy, killed: bool)
    ensures struck == Strike(e) && (killed <==> Kills(e))
  {
    struck := e.(health := e.health - AttackDamage);
    killed := false;
    if struck.health <= 0.0 {
      struck := struck.(alive := false);
      killed := true;
    }
  }

  /** The health, and the defeat signals raised, after the first `n`
      enemies' updates in one tick: one 0.1 hit per engaging enemy. */
  function SweepHealth(health: real, es: seq<Enemy>, dists: seq<real>, n: nat): (real, nat)
    requires n <= |es| && n <= |dists|
  {
    Engaged(health, Engagers(es, dists, n))
  }

  /** One more enemy in the sweep: an engaging one deals its hit to the
      health left by the earlier ones. */
  lemma SweepStep(health: real, es: seq<Enemy>, dists: seq<real>, i: nat)
    requires i < |es| && i < |dists|
    ensures var (h, d) := SweepHealth(health, es, dists, i);
      SweepHealth(health, es, dists, i + 1) ==
        if Engages(es[i], dists[i]) then (Wounded(h), d + if Fatal(h) then 1 else 0) else (h, d)
  {
  }

  /** The defeat handling runs at most once per engaging enemy in a tick,
      so at most once per enemy. */
  lemma SweepDefeatsBounded(health: real, es: seq<Enemy>, dists: seq<real>, n: nat)
    requires n <= |es| && n <= |dists|
    ensures SweepHealth(health, es, dists, n).1 <= Engagers(es, dists, n) <= n
  {
    EngagedDefeatsAtMost(health, Engagers(es, dists, n));
  }

  /** From `m` tenths of health (m >= 1), the first `n` enemies' updates
      leave one tenth less per engaging enemy until health reaches 0, and
      then the defeat handling has run once for the enemy that reached it
      and once for every later engaging enemy. */
  lemma SweepFromTenths(m: nat, es: seq<Enemy>, dists: seq<real>, n: nat)
    requires m >= 1 && n <= |es| && n <= |dists|
    ensures var c := Engagers(es, dists, n);
      SweepHealth(m as real * EnemyDamage, es, dists, n) ==
        if c < m then ((m - c) as real * EnemyDamage, 0) else (0.0, c - m + 1)
  {
    EngagedFromTenths(m, Engagers(es, dists, n));
  }

  /** Enemy `i` runs the defeat handling exactly when it engages and at
      least m - 1 engaging enemies came before it in the sweep: the one that
      brings health to 0 and every engaging enemy after it. */
  lemma SweepFiresFrom(m: nat, es: seq<Enemy>, dists: seq<real>, i: nat)
    requires m >= 1 && i < |es| && i < |dists|
    ensures var d := SweepHealth(m as real * EnemyDamage, es, dists, i).1;
      var d' := SweepHealth(m as real * EnemyDamage, es, dists, i + 1).1;
      d' == d + (if Engages(es[i], dists[i]) && Engagers(es, dists, i) + 1 >= m then 1 else 0)
  {
    SweepFromTenths(m, es, dists, i);
    SweepFromTenths(m, es, dists, i + 1);
  }

  /** The level and start position of game.js meet the world invariant's
      demands on the grid and the player, and the cell (5, 5) passes the
      placement test, so the constructor can be called on them. */
  lemma LevelStart()
    ensures WellFormed(Level) && Walkable(Level, StartPlayer.x, StartPlayer.y)
    ensures Accepted(Level, Cell(5, 5))
  {
    LevelWellFormed();
    assert (1.5 - PlayerRadius).Floor == 1 && (1.5 + PlayerRadius).Floor == 1;
  }

  class World {
    const grid: Grid
    var player: Player
    var enemies: seq<Enemy>
    var weapons: seq<Weapon>
    /** The index in `weapons` of `playerWeapon`, or None for `null`. */
    var playerWeapon: Option<nat>
    var score: nat
    var isAttacking: bool
    var attackFrame: int
    /** How many times the defeat handling (sound, message, "Game Over"
        text) has run. */
    var defeats: nat

    /** The grid is a walled-in 0/1 rectangle, the player's square is
        walkable and its heading in [0, 2*PI], its health is not negative,
        every enemy stands on an open cell, and the held weapon is one that
        was picked up. */
    ghost predicate Valid()
      reads this
    {
      && WellFormed(grid)
      && Walkable(grid, player.x, player.y)
      && 0.0 <= player.dir <= TwoPi
      && player.health >= 0.0
      && (forall i :: 0 <= i < |enemies| ==> OnOpenCell(grid, enemies[i].x, enemies[i].y))
      && (playerWeapon.Some? ==> playerWeapon.value < |weapons| && weapons[playerWeapon.value].pickedUp)
    }

    /** The start of the game: the player at (1.5, 1.5) facing along x with
        full health, an enemy and a weapon at the centre of each accepted
        cell, no weapon held, score 0 and no attack running. */
    constructor(g: Grid, enemyCells: seq<Cell>, weaponCells: seq<Cell>)
      requires WellFormed(g) && Walkable(g, StartPlayer.x, StartPlayer.y)
      requires forall i :: 0 <= i < |enemyCells| ==> Accepted(g, enemyCells[i])
      requires forall i :: 0 <= i < |weaponCells| ==> Accepted(g, weaponCells[i])
      ensures Valid()
      ensures grid == g && player == StartPlayer
      ensures enemies == EnemiesAt(enemyCells) && weapons == WeaponsAt(weaponCells)
      ensures playerWeapon.None? && score == 0 && !isAttacking && attackFrame == 0 && defeats == 0
    {
      grid := g;
      player := StartPlayer;
      enemies := EnemiesAt(enemyCells);
      weapons := WeaponsAt(weaponCells);
      playerWeapon := None;
      score := 0;
      isAttacking := false;
      attackFrame := 0;
      defeats := 0;
      new;
      forall i | 0 <= i < |enemyCells|
        ensures OnOpenCell(grid, enemies[i].x, enemies[i].y)
      {
        PlacementOnOpenCell(g, StartPlayer.x, StartPlayer.y, enemyCells[i].col, enemyCells[i].row);
      }
    }

    /** `movePlayer`, given the cosine and sine of the heading. */
    method MovePlayer(keys: Keys, cosDir: real, sinDir: real)
      requires Valid() && -1.0 <= sinDir <= 1.0
      modifies this
      ensures Valid()
      ensures player == Stride(grid, old(player), keys, cosDir, sinDir)
      ensures enemies == old(enemies) && weapons == old(weapons) && playerWeapon == old(playerWeapon)
      ensures score == old(score) && isAttacking == old(isAttacking) && attackFrame == old(attackFrame)
      ensures defeats == old(defeats)
    {
      var moveStep := 0.0;
      if keys.forward {
        moveStep := PlayerSpeed;
      }
      if keys.back {
        moveStep := -PlayerSpeed;
      }
      OffsetIsScaled(keys, cosDir, moveStep);
      OffsetIsScaled(keys, sinDir, moveStep);
      SlidePlayer(cosDir * moveStep, sinDir * moveStep);
      TurnPlayer(keys);
    }

    /** The position part of `movePlayer`, one axis at a time. */
    method SlidePlayer(dx: real, dy: real)
      requires Valid() && -1.0 <= dy <= 1.0
      modifies this
      ensures Valid()
      ensures player == Slide(grid, old(player), dx, dy)
      ensures enemies == old(enemies) && weapons == old(weapons) && playerWeapon == old(playerWeapon)
      ensures score == old(score) && isAttacking == old(isAttacking) && attackFrame == old(attackFrame)
      ensures defeats == old(defeats)
    {
      ghost var slid := Slide(grid, player, dx, dy);
      var newX := player.x + dx;
      var newY := player.y + dy;
      if IsWalkable(grid, newX, player.y, PlayerRadius) {
        player := player.(x := newX);
      }
      if IsWalkable(grid, player.x, newY, PlayerRadius) {
        player := player.(y := newY);
      }
      assert player == slid;
    }

    /** The turning part of `movePlayer` and the one-shot wrap. */
    method TurnPlayer(keys: Keys)
      requires Valid()
      modifies this
      ensures Valid()
      ensures player == old(player).(dir := Steer(old(player).dir, keys.left, keys.right, TurnSpeed))
      ensures enemies == old(enemies) && weapons == old(weapons) && playerWeapon == old(playerWeapon)
      ensures score == old(score) && isAttacking == old(isAttacking) && attackFrame == old(attackFrame)
      ensures defeats == old(defeats)
    {
      var dir := player.dir;
      if keys.left {
        dir := dir - TurnSpeed;
      }
      if keys.right {
        dir := dir + TurnSpeed;
      }
      if dir < 0.0 {
        dir := dir + 2.0 * Pi;
      }
      if dir > 2.0 * Pi {
        dir := dir - 2.0 * Pi;
      }
      SteerKeepsRange(player.dir, keys.left, keys.right, TurnSpeed);
      player := player.(dir := dir);
    }

    /** `enemies[i].update()`, given `Math.sqrt` of the squared distance to
        the player: a dead enemy changes nothing; beyond 0.5 it pursues the
        player; otherwise it hits the player for 0.1, clamping health at 0
        and running the defeat handling when health reaches 0 or less. */
    method UpdateEnemy(i: nat, dist: real)
      requires Valid() && i < |enemies|
      requires DistanceTo(enemies[i], player.x, player.y, dist)
      modifies this
      ensures Valid()
      ensures enemies == old(enemies)[i := Advance(grid, old(enemies[i]), old(player).x, old(player).y, dist)]
      ensures Engages(old(enemies[i]), dist) ==>
        player == old(player).(health := Wounded(old(player).health)) &&
        defeats == old(defeats) + if Fatal(old(player).health) then 1 else 0
      ensures !Engages(old(enemies[i]), dist) ==> player == old(player) && defeats == old(defeats)
      ensures weapons == old(weapons) && playerWeapon == old(playerWeapon)
      ensures score == old(score) && isAttacking == old(isAttacking) && attackFrame == old(attackFrame)
    {
      var e := enemies[i];
      if !e.alive {
        return;
      }
      if dist > EngageRange {
        Chase(i, dist);
      } else {
        player := player.(health := player.health - EnemyDamage);
        if player.health <= 0.0 {
          player := player.(health := 0.0);
          defeats := defeats + 1;
        }
      }
    }

    /** The seeking branch of `enemies[i].update()`: the step toward the
        player, each axis taken only onto an open cell. */
    method Chase(i: nat, dist: real)
      requires Valid() && i < |enemies| && dist > EngageRange
      requires DistanceTo(enemies[i], player.x, player.y, dist)
      modifies this
      ensures Valid()
      ensures enemies == old(enemies)[i := Pursue(grid, old(enemies[i]), old(player).x, old(player).y, dist)]
      ensures player == old(player) && weapons == old(weapons) && playerWeapon == old(playerWeapon)
      ensures score == old(score) && isAttacking == old(isAttacking) && attackFrame == old(attackFrame)
      ensures defeats == old(defeats)
    {
      var moved := ChaseStep(grid, enemies[i], player.x, player.y, dist);
      enemies := enemies[i := moved];
    }

    /** `enemies.forEach(enemy => enemy.update())`, given each enemy's
        distance to the player (which no update moves). Every enemy
        advances on its own, and the player takes one 0.1 hit per engaging
        enemy, in array order, so the defeat handling runs again for each
        later engaging enemy once health is 0. */
    method UpdateEnemies(dists: seq<real>)
      requires Valid() && |dists| == |enemies|
      requires forall i :: 0 <= i < |enemies| ==> DistanceTo(enemies[i], player.x, player.y, dists[i])
      modifies this
      ensures Valid()
      ensures |enemies| == |old(enemies)|
      ensures forall i :: 0 <= i < |enemies| ==>
        enemies[i] == Advance(grid, old(enemies)[i], old(player).x, old(player).y, dists[i])
      ensures var (h, d) := SweepHealth(old(player).health, old(enemies), dists, |dists|);
        player == old(player).(health := h) && defeats == old(defeats) + d
      ensures weapons == old(weapons) && playerWeapon == old(playerWeapon)
      ensures score == old(score) && isAttacking == old(isAttacking) && attackFrame == old(attackFrame)
    {
      for i := 0 to |enemies|
        invariant Valid() && |enemies| == |old(enemies)|
        invariant forall j :: 0 <= j < i ==>
          enemies[j] == Advance(grid, old(enemies)[j], old(player).x, old(player).y, dists[j])
        invariant forall j :: i <= j < |enemies| ==> enemies[j] == old(enemies)[j]
        invariant var (h, d) := SweepHealth(old(player).health, old(enemies), dists, i);
          player == old(player).(health := h) && defeats == old(defeats) + d
        invariant weapons == old(weapons) && playerWeapon == old(playerWeapon)
        invariant score == old(score) && isAttacking == old(isAttacking) && attackFrame == old(attackFrame)
      {
        ghost var before := enemies;
        ghost var p := player;
        ghost var d := defeats;
        SweepStep(old(player).health, old(enemies), dists, i);
        UpdateEnemy(i, dists[i]);
        assert enemies == before[i := Advance(grid, old(enemies)[i], old(player).x, old(player).y, dists[i])];
        assert Engages(old(enemies)[i], dists[i]) ==>
          player == p.(health := Wounded(p.health)) && defeats == d + if Fatal(p.health) then 1 else 0;
      }
    }

    /** `checkWeaponPickup`: every weapon not yet picked up within 0.5 of
        the player is picked up, and the held weapon becomes the last of
        them, or stays as it was if there is none. */
    method CheckWeaponPickup()
      requires Valid()
      modifies this
      ensures Valid()
      ensures |weapons| == |old(weapons)|
      ensures forall i :: 0 <= i < |weapons| ==> weapons[i] == Gathered(old(weapons)[i], player.x, player.y)
      ensures playerWeapon ==
        match LastCollected(old(weapons), player.x, player.y, |weapons|)
        case Some(i) => Some(i)
        case None => old(playerWeapon)
      ensures player == old(player) && enemies == old(enemies)
      ensures score == old(score) && isAttacking == old(isAttacking) && attackFrame == old(attackFrame)
      ensures defeats == old(defeats)
    {
      var gathered, last := GatherWeapons(weapons, player.x, player.y);
      weapons := gathered;
      if last.Some? {
        playerWeapon := last;
      }
    }

    /** `attack`, given the cosine and sine of the heading. Without a
        weapon, or while an attack runs, nothing changes. Otherwise the
        attack starts (frame 0) whether or not it hits; the enemy the probe
        selects, if any, loses 50 health, and dies and scores 1 when that
        leaves 0 or less. */
    method Attack(cosDir: real, sinDir: real)
      requires Valid() && -1.0 <= cosDir <= 1.0 && -1.0 <= sinDir <= 1.0
      modifies this
      ensures Valid()
      ensures playerWeapon.None? || old(isAttacking) ==> unchanged(this)
      ensures playerWeapon.Some? && !old(isAttacking) ==>
        isAttacking && attackFrame == 0 &&
        var hit := Aim(grid, old(enemies), player.x, player.y, cosDir, sinDir);
        && enemies == (if hit.Some? then old(enemies)[hit.value := Strike(old(enemies)[hit.value])] else old(enemies))
        && score == old(score) + (if hit.Some? && Kills(old(enemies)[hit.value]) then 1 else 0)
      ensures player == old(player) && weapons == old(weapons) && playerWeapon == old(playerWeapon)
      ensures defeats == old(defeats)
    {
      if playerWeapon.None? {
        return;
      }
      if isAttacking {
        return;
      }
      isAttacking := true;
      attackFrame := 0;
      var hitEnemy := ProbeAhead(cosDir, sinDir);
      if hitEnemy.Some? {
        var struck, killed := Damage(enemies[hitEnemy.value]);
        if killed {
          score := score + 1;
        }
        enemies := enemies[hitEnemy.value := struck];
      }
    }

    /** The probe loop of `attack`: up to 20 points 0.1 apart along the
        heading, each checked against every enemy before the wall test. */
    method ProbeAhead(cosDir: real, sinDir: real) returns (hitEnemy: Option<nat>)
      requires Valid() && -1.0 <= cosDir <= 1.0 && -1.0 <= sinDir <= 1.0
      ensures hitEnemy == Aim(grid, enemies, player.x, player.y, cosDir, sinDir)
    {
      var px, py := player.x, player.y;
      WalkableCentreOpen(grid, px, py, PlayerRadius);
      ProbeOrigin(px, cosDir);
      ProbeOrigin(py, sinDir);
      ghost var found := Probe(grid, enemies, px, py, cosDir, sinDir, 1);
      var k: nat := 0;
      hitEnemy := None;
      while hitEnemy.None? && k < AttackSteps
        invariant k <= AttackSteps
        invariant hitEnemy.None? ==> OnOpenCell(grid, ProbeCoord(px, cosDir, k), ProbeCoord(py, sinDir, k))
        invariant hitEnemy.None? && k < AttackSteps ==> found == Probe(grid, enemies, px, py, cosDir, sinDir, k + 1)
        invariant hitEnemy.None? && k == AttackSteps ==> found.None?
        invariant hitEnemy.Some? ==> found == hitEnemy
      {
        var next := k + 1;
        ProbeStep(grid, enemies, px, py, cosDir, sinDir, next);
        var testX := ProbeCoord(px, cosDir, next);
        var testY := ProbeCoord(py, sinDir, next);
        hitEnemy := ScanAt(testX, testY);
        k := next;
        if IsWall(grid, testY.Floor, testX.Floor) {
          break;
        }
      }
    }

    /** The `enemies.forEach` at one probe point: the last alive enemy, in
        array order, within 0.5 of (testX, testY). */
    method ScanAt(testX: real, testY: real) returns (hitEnemy: Option<nat>)
      ensures hitEnemy == LastInReach(enemies, testX, testY, |enemies|)
    {
      hitEnemy := None;
      for j := 0 to |enemies|
        invariant hitEnemy == LastInReach(enemies, testX, testY, j)
      {
        var e := enemies[j];
        if e.alive {
          if Within(e.x, e.y, testX, testY, HitRange) {
            hitEnemy := Some(j);
          }
        }
      }
    }

    /** The attack-animation tick of `gameLoop`. */
    method TickAttackTimer()
      requires Valid()
      modifies this
      ensures Valid()
      ensures Timer(isAttacking, attackFrame) == Tick(Timer(old(isAttacking), old(attackFrame)))
      ensures player == old(player) && enemies == old(enemies) && weapons == old(weapons)
      ensures playerWeapon == old(playerWeapon) && score == old(score) && defeats == old(defeats)
    {
      if isAttacking {
        attackFrame := attackFrame + 1;
        if attackFrame >= MaxAttackFrames {
          isAttacking := false;
        }
      }
    }
  }
}
