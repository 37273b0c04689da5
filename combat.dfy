/** The melee attack of game.js: the forward probe of `attack`, the damage
    it deals, and the animation timer `gameLoop` advances. The update of the
    shared state is `Game.World.Attack`; this module holds the pure steps
    it is specified by. */
module Combat {

  import opened Util
  import opened Grid
  import opened Actors

  /** The probe advances 0.1 per step while its distance is below 2, so it
      visits at most 20 points. */
  const AttackStep: real := 0.1
  const AttackSteps: nat := 20
  const HitRange: real := 0.5
  const AttackDamage: real := 50.0
  const MaxAttackFrames: int := 10

  /** `player.x + eyeX * distanceToEnemy` at step `k`. */
  function ProbeCoord(origin: real, eye: real, k: nat): real
  {
    origin + eye * (k as real * AttackStep)
  }

  lemma ProbeAdvance(origin: real, eye: real, k: nat)
    requires k >= 1
    ensures ProbeCoord(origin, eye, k) - ProbeCoord(origin, eye, k - 1) == eye * AttackStep
  {
  }

  /** The test the probe applies to one enemy at the point (tx, ty). */
  predicate InReach(e: Enemy, tx: real, ty: real)
  {
    e.alive && Within(e.x, e.y, tx, ty, HitRange)
  }

  /** `hitEnemy` after the `forEach` over the first `n` enemies at one
      probe point: the last enemy in array order that is in reach. */
  function LastInReach(es: seq<Enemy>, tx: real, ty: real, n: nat): (r: Option<nat>)
    requires n <= |es|
    ensures r.Some? ==> r.value < n && InReach(es[r.value], tx, ty)
    ensures r.Some? ==> forall j :: r.value < j < n ==> !InReach(es[j], tx, ty)
    ensures r.None? ==> forall j :: 0 <= j < n ==> !InReach(es[j], tx, ty)
  {
    if n == 0 then None
    else if InReach(es[n - 1], tx, ty) then Some(n - 1)
    else LastInReach(es, tx, ty, n - 1)
  }

  /** The enemy the probe selects at step `k`, if any. */
  function StepHit(es: seq<Enemy>, px: real, py: real, ex: real, ey: real, k: nat): Option<nat>
  {
    LastInReach(es, ProbeCoord(px, ex, k), ProbeCoord(py, ey, k), |es|)
  }

  /** The probe point lies inside the grid and not on a wall, so the loop
      goes on past it. */
  predicate Passable(g: Grid, px: real, py: real, ex: real, ey: real, k: nat)
  {
    var tx, ty := ProbeCoord(px, ex, k), ProbeCoord(py, ey, k);
    0 <= ty.Floor < |g| && !IsWall(g, ty.Floor, tx.Floor)
  }

  /** The probe loop of `attack` from step `k` on: at each step, first the
      enemies, then the wall test that breaks the loop. The previous point
      lies on an open cell, which keeps every row the loop indexes inside
      the grid. */
  function Probe(g: Grid, es: seq<Enemy>, px: real, py: real, ex: real, ey: real, k: nat): (r: Option<nat>)
    requires WellFormed(g) && 1 <= k <= AttackSteps
    requires -1.0 <= ex <= 1.0 && -1.0 <= ey <= 1.0
    requires OnOpenCell(g, ProbeCoord(px, ex, k - 1), ProbeCoord(py, ey, k - 1))
    ensures r.Some? ==> r.value < |es| && es[r.value].alive
    decreases AttackSteps - k
  {
    var tx, ty := ProbeCoord(px, ex, k), ProbeCoord(py, ey, k);
    ProbeAdvance(px, ex, k);
    ProbeAdvance(py, ey, k);
    NearOpenInGrid(g, ProbeCoord(px, ex, k - 1), ProbeCoord(py, ey, k - 1), tx, ty);
    var hit := StepHit(es, px, py, ex, ey, k);
    if hit.Some? then hit
    else if IsWall(g, ty.Floor, tx.Floor) then None
    else if k < AttackSteps then Probe(g, es, px, py, ex, ey, k + 1)
    else None
  }

  /** The probe starts from the player's own point, step 0. */
  lemma ProbeOrigin(origin: real, eye: real)
    ensures ProbeCoord(origin, eye, 0) == origin
  {
  }

  /** One step of `Probe`: the row it tests exists; an enemy in reach is
      the result; otherwise a wall ends the probe with no hit, and an open
      cell lets it go on from the next step, or ends it after step 20. */
  lemma ProbeStep(g: Grid, es: seq<Enemy>, px: real, py: real, ex: real, ey: real, k: nat)
    requires WellFormed(g) && 1 <= k <= AttackSteps
    requires -1.0 <= ex <= 1.0 && -1.0 <= ey <= 1.0
    requires OnOpenCell(g, ProbeCoord(px, ex, k - 1), ProbeCoord(py, ey, k - 1))
    ensures 0 <= ProbeCoord(py, ey, k).Floor < |g|
    ensures var r, hit := Probe(g, es, px, py, ex, ey, k), StepHit(es, px, py, ex, ey, k);
      var tx, ty := ProbeCoord(px, ex, k), ProbeCoord(py, ey, k);
      && (hit.Some? ==> r == hit)
      && (hit.None? && IsWall(g, ty.Floor, tx.Floor) ==> r.None?)
      && (hit.None? && !IsWall(g, ty.Floor, tx.Floor) ==>
            OnOpenCell(g, tx, ty) && (k < AttackSteps ==> r == Probe(g, es, px, py, ex, ey, k + 1)) && (k == AttackSteps ==> r.None?))
  {
    ProbeAdvance(px, ex, k);
    ProbeAdvance(py, ey, k);
    NearOpenInGrid(g, ProbeCoord(px, ex, k - 1), ProbeCoord(py, ey, k - 1), ProbeCoord(px, ex, k), ProbeCoord(py, ey, k));
  }

  /** The whole probe of an attack by a player standing at (px, py). */
  function Aim(g: Grid, es: seq<Enemy>, px: real, py: real, ex: real, ey: real): (r: Option<nat>)
    requires WellFormed(g) && Walkable(g, px, py)
    requires -1.0 <= ex <= 1.0 && -1.0 <= ey <= 1.0
    ensures r.Some? ==> r.value < |es| && es[r.value].alive
  {
    WalkableCentreOpen(g, px, py, PlayerRadius);
    ProbeOrigin(px, ex);
    ProbeOrigin(py, ey);
    Probe(g, es, px, py, ex, ey, 1)
  }

  /** Every step from `k` up to, but not including, `j` found no enemy in
      reach and hit no wall. */
  predicate ClearBetween(g: Grid, es: seq<Enemy>, px: real, py: real, ex: real, ey: real, k: nat, j: nat)
  {
    forall s: nat :: k <= s < j ==> StepHit(es, px, py, ex, ey, s).None? && Passable(g, px, py, ex, ey, s)
  }

  lemma ClearExtends(g: Grid, es: seq<Enemy>, px: real, py: real, ex: real, ey: real, k: nat, j: nat)
    requires ClearBetween(g, es, px, py, ex, ey, k + 1, j)
    requires StepHit(es, px, py, ex, ey, k).None? && Passable(g, px, py, ex, ey, k)
    ensures ClearBetween(g, es, px, py, ex, ey, k, j)
  {
  }

  /** The probe, started at step `k`, ends at step `j` with result `r`:
      every step from `k` up to `j` was free of enemies and walls, and at
      step `j` either the enemy `r` is the one selected in reach, or no
      enemy is in reach and the loop stops there (a wall, or step 20). */
  predicate SettlesAt(g: Grid, es: seq<Enemy>, px: real, py: real, ex: real, ey: real, k: nat, j: nat, r: Option<nat>)
  {
    && k <= j <= AttackSteps
    && ClearBetween(g, es, px, py, ex, ey, k, j)
    && (r.Some? ==> StepHit(es, px, py, ex, ey, j) == r)
    && (r.None? ==> StepHit(es, px, py, ex, ey, j).None? && (j == AttackSteps || !Passable(g, px, py, ex, ey, j)))
  }

  lemma SettlesEarlier(g: Grid, es: seq<Enemy>, px: real, py: real, ex: real, ey: real, k: nat, j: nat, r: Option<nat>)
    requires SettlesAt(g, es, px, py, ex, ey, k + 1, j, r)
    requires StepHit(es, px, py, ex, ey, k).None? && Passable(g, px, py, ex, ey, k)
    ensures SettlesAt(g, es, px, py, ex, ey, k, j, r)
  {
    ClearExtends(g, es, px, py, ex, ey, k, j);
  }

  /** What the probe finds: an enemy is selected at the first step where
      any is in reach, provided every step before it was free of enemies
      and walls; no enemy is selected exactly when no step up to the one
      that stops the loop (a wall, or step 20) has one in reach. */
  lemma {:induction false} ProbeStops(g: Grid, es: seq<Enemy>, px: real, py: real, ex: real, ey: real, k: nat)
    requires WellFormed(g) && 1 <= k <= AttackSteps
    requires -1.0 <= ex <= 1.0 && -1.0 <= ey <= 1.0
    requires OnOpenCell(g, ProbeCoord(px, ex, k - 1), ProbeCoord(py, ey, k - 1))
    ensures exists j: nat :: SettlesAt(g, es, px, py, ex, ey, k, j, Probe(g, es, px, py, ex, ey, k))
    decreases AttackSteps - k
  {
    var tx, ty := ProbeCoord(px, ex, k), ProbeCoord(py, ey, k);
    ProbeStep(g, es, px, py, ex, ey, k);
    var r, hit := Probe(g, es, px, py, ex, ey, k), StepHit(es, px, py, ex, ey, k);
    if hit.None? && !IsWall(g, ty.Floor, tx.Floor) && k < AttackSteps {
      assert Passable(g, px, py, ex, ey, k);
      ProbeStops(g, es, px, py, ex, ey, k + 1);
      var j: nat :| SettlesAt(g, es, px, py, ex, ey, k + 1, j, r);
      SettlesEarlier(g, es, px, py, ex, ey, k, j, r);
    } else {
      assert ClearBetween(g, es, px, py, ex, ey, k, k);
      assert hit.None? ==> k == AttackSteps || !Passable(g, px, py, ex, ey, k);
      assert SettlesAt(g, es, px, py, ex, ey, k, k, r);
    }
  }

  /** `hitEnemy.health -= 50`, and `alive = false` when that leaves 0 or
      less. */
  function Strike(e: Enemy): (e': Enemy)
    ensures e'.x == e.x && e'.y == e.y && e'.health == e.health - AttackDamage
    ensures e'.alive <==> e.alive && !(e.health - AttackDamage <= 0.0)
  {
    e.(health := e.health - AttackDamage, alive := if e.health - AttackDamage <= 0.0 then false else e.alive)
  }

  /** The hit defeats the enemy and adds 1 to `score`. */
  predicate Kills(e: Enemy)
  {
    e.health - AttackDamage <= 0.0
  }

  /** The enemy and the score gained after `n` attacks aimed at it; once it
      is dead the probe no longer selects it. */
  function Hits(e: Enemy, n: nat): (Enemy, nat)
    decreases n
  {
    if n == 0 || !e.alive then (e, 0)
    else
      var (e', s) := Hits(Strike(e), n - 1);
      (e', s + if Kills(e) then 1 else 0)
  }

  /** However often an enemy is hit it is scored at most once, and it is
      scored exactly when the hits took it from alive to dead. */
  lemma {:induction false} ScoredOnce(e: Enemy, n: nat)
    ensures Hits(e, n).1 <= 1
    ensures Hits(e, n).1 == 1 <==> e.alive && !Hits(e, n).0.alive
    ensures !e.alive ==> Hits(e, n) == (e, 0)
    decreases n
  {
    if n > 0 && e.alive {
      ScoredOnce(Strike(e), n - 1);
    }
  }

  /** An alive enemy whose health lies in (50(m-1), 50m] survives m-1 hits
      and dies on hit m, which scores 1: at 100 health, two hits. */
  lemma {:induction false} HitsToKill(e: Enemy, m: nat)
    requires m >= 1 && e.alive
    requires (m - 1) as real * AttackDamage < e.health <= m as real * AttackDamage
    ensures Hits(e, m - 1).0.alive && Hits(e, m - 1).1 == 0
    ensures !Hits(e, m).0.alive && Hits(e, m).1 == 1
    ensures Hits(e, m).0.health == e.health - m as real * AttackDamage
    decreases m
  {
    if m > 1 {
      HitsToKill(Strike(e), m - 1);
    }
  }

  /** `isAttacking` and `attackFrame`. */
  datatype Timer = Timer(attacking: bool, frame: int)

  /** The animation tick of `gameLoop`. */
  function Tick(t: Timer): Timer
  {
    if t.attacking then Timer(t.frame + 1 < MaxAttackFrames, t.frame + 1) else t
  }

  function Ticks(t: Timer, n: nat): Timer
  {
    if n == 0 then t else Tick(Ticks(t, n - 1))
  }

  /** An attack starts the timer at frame 0: it stays locked for nine
      ticks, and the tenth tick clears it at frame 10, where it then
      stays. */
  lemma {:induction false} SwingLasts(n: nat)
    ensures Ticks(Timer(true, 0), n) ==
      if n < MaxAttackFrames then Timer(true, n) else Timer(false, MaxAttackFrames)
  {
    if n > 0 {
      SwingLasts(n - 1);
    }
  }
}
