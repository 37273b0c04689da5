/** The sprite pass of game.js (`renderSprites` and the health bar of
    `drawEnemyHealth`): which enemies and weapons become sprites, the
    farthest-first order they are composited in, and which of them are
    drawn, with which image. Square roots, `Math.atan2` and `Math.sin` are
    inputs; pixels are not modelled, only the decision of what to draw. */
module Sprites {

  import opened Util
  import opened Actors

  // ------------------------------------------------------------ angles

  /** `n` whole turns. */
  function Turns(n: int): real
  {
    n as real * TwoPi
  }

  /** The smallest integer not below `x`. */
  function Ceil(x: real): (c: int)
    ensures x <= c as real < x + 1.0
  {
    -((-x).Floor)
  }

  /** The angle the two normalising loops of `renderSprites` leave: below
      -PI, add as few whole turns as reach [-PI, PI); above PI, subtract as
      few as reach (-PI, PI]; otherwise unchanged. */
  function Normalized(a: real): (b: real)
    ensures -Pi <= b <= Pi
    ensures exists n: int :: b == a + Turns(n)
    ensures -Pi <= a <= Pi ==> b == a
  {
    if a < -Pi then a + Turns(Ceil((-Pi - a) / TwoPi))
    else if a > Pi then a + Turns(-Ceil((a - Pi) / TwoPi))
    else assert a == a + Turns(0); a
  }

  /** The two `while` loops of `renderSprites` that bring an angle into
      [-PI, PI]. */
  method NormalizeAngle(a: real) returns (b: real)
    ensures b == Normalized(a)
  {
    b := a;
    ghost var i: int := 0;
    while b < -Pi
      invariant b == a + Turns(i)
      invariant a < -Pi ==> 0 <= i <= Ceil((-Pi - a) / TwoPi)
      invariant a >= -Pi ==> i == 0
      decreases (-Pi - b).Floor
    {
      b := b + TwoPi;
      i := i + 1;
    }
    ghost var j: int := 0;
    while b > Pi
      invariant a < -Pi ==> b == Normalized(a)
      invariant a >= -Pi ==> b == a - Turns(j) && 0 <= j
      invariant Pi < a ==> j <= Ceil((a - Pi) / TwoPi)
      invariant -Pi <= a <= Pi ==> j == 0
      decreases (b - Pi).Floor
    {
      b := b - TwoPi;
      j := j + 1;
    }
  }

  // ------------------------------------------------------------ candidates

  datatype Kind = EnemySprite | WeaponSprite

  /** An enemy or a weapon as the sprite pass sees it: where it stands and
      whether it still shows (alive, not yet picked up). */
  datatype Target = Target(kind: Kind, x: real, y: real, present: bool)

  function EnemyTargets(es: seq<Enemy>): seq<Target>
  {
    seq(|es|, i requires 0 <= i < |es| => Target(EnemySprite, es[i].x, es[i].y, es[i].alive))
  }

  function WeaponTargets(ws: seq<Weapon>): seq<Target>
  {
    seq(|ws|, i requires 0 <= i < |ws| => Target(WeaponSprite, ws[i].x, ws[i].y, !ws[i].pickedUp))
  }

  /** The enemies, then the weapons, in array order. */
  function Targets(es: seq<Enemy>, ws: seq<Weapon>): seq<Target>
  {
    EnemyTargets(es) + WeaponTargets(ws)
  }

  /** What the caller supplies for one target: its distance
      `Math.sqrt(dx * dx + dy * dy)`, its bearing `Math.atan2(dy, dx)` and
      the sine of its normalized angle. */
  datatype Sight = Sight(distance: real, bearing: real, sinAngle: real)

  /** An entry of the `sprites` array (with the sine of its angle). */
  datatype Sprite = Sprite(kind: Kind, x: real, y: real, distance: real, angle: real, sinAngle: real)

  /** The strict field-of-view test. */
  predicate InView(angle: real)
  {
    -Fov / 2.0 < angle < Fov / 2.0
  }

  function SpriteOf(t: Target, s: Sight, dir: real): Sprite
  {
    Sprite(t.kind, t.x, t.y, s.distance, Normalized(s.bearing - dir), s.sinAngle)
  }

  /** The target shows and its angle relative to `dir` is in view. */
  predicate Seen(t: Target, s: Sight, dir: real)
  {
    t.present && InView(Normalized(s.bearing - dir))
  }

  /** The `sprites` array after the first `n` targets. */
  function Spotted(ts: seq<Target>, ss: seq<Sight>, dir: real, n: nat): seq<Sprite>
    requires |ts| == |ss| && n <= |ts|
  {
    if n == 0 then []
    else
      var rest := Spotted(ts, ss, dir, n - 1);
      if Seen(ts[n - 1], ss[n - 1], dir) then rest + [SpriteOf(ts[n - 1], ss[n - 1], dir)] else rest
  }

  /** A sprite is collected exactly when it comes from a target that shows
      and lies strictly inside the field of view. */
  lemma {:induction false} SpottedExactly(ts: seq<Target>, ss: seq<Sight>, dir: real, n: nat)
    requires |ts| == |ss| && n <= |ts|
    ensures forall sp :: sp in Spotted(ts, ss, dir, n) <==>
      exists i :: 0 <= i < n && Seen(ts[i], ss[i], dir) && sp == SpriteOf(ts[i], ss[i], dir)
  {
    if n > 0 {
      SpottedExactly(ts, ss, dir, n - 1);
    }
  }

  /** The body of either `forEach` loop for one target: the sprite it
      pushes, if any. */
  method Spot(t: Target, s: Sight, dir: real) returns (pushed: seq<Sprite>)
    ensures pushed == if Seen(t, s, dir) then [SpriteOf(t, s, dir)] else []
  {
    pushed := [];
    if t.present {
      var angle := NormalizeAngle(s.bearing - dir);
      if angle > -Fov / 2.0 && angle < Fov / 2.0 {
        pushed := [Sprite(t.kind, t.x, t.y, s.distance, angle, s.sinAngle)];
      }
    }
  }

  /** The two `forEach` loops of `renderSprites` that fill `sprites`. */
  method CollectSprites(enemies: seq<Enemy>, weapons: seq<Weapon>, enemySights: seq<Sight>, weaponSights: seq<Sight>, dir: real)
    returns (sprites: seq<Sprite>)
    requires |enemySights| == |enemies| && |weaponSights| == |weapons|
    ensures sprites == Spotted(Targets(enemies, weapons), enemySights + weaponSights, dir, |enemies| + |weapons|)
  {
    ghost var ts, ss := Targets(enemies, weapons), enemySights + weaponSights;
    sprites := [];
    for i := 0 to |enemies|
      invariant sprites == Spotted(ts, ss, dir, i)
    {
      var e := enemies[i];
      var t := Target(EnemySprite, e.x, e.y, e.alive);
      assert ts[i] == t && ss[i] == enemySights[i];
      var pushed := Spot(t, enemySights[i], dir);
      sprites := sprites + pushed;
    }
    for j := 0 to |weapons|
      invariant sprites == Spotted(ts, ss, dir, |enemies| + j)
    {
      var w := weapons[j];
      var t := Target(WeaponSprite, w.x, w.y, !w.pickedUp);
      assert ts[|enemies| + j] == t && ss[|enemies| + j] == weaponSights[j];
      var pushed := Spot(t, weaponSights[j], dir);
      sprites := sprites + pushed;
    }
  }

  // ------------------------------------------------------------ order

  /** Distances never increase along the sequence. */
  predicate FarthestFirst(s: seq<Sprite>)
  {
    forall p, q :: 0 <= p < q < |s| ==> s[p].distance >= s[q].distance
  }

  /** Exchanging two neighbours keeps the same sprites. */
  lemma SwapKeepsSprites(s: seq<Sprite>, j: nat)
    requires 0 < j < |s|
    ensures multiset(s[j - 1 := s[j]][j := s[j - 1]]) == multiset(s)
  {
  }

  /** Midway through a pass of the insertion sort on the first `i + 1`
      entries: apart from the moving sprite at `j` they are farthest first,
      and the moving sprite is farther than everything after it. */
  predicate Sinking(s: seq<Sprite>, i: nat, j: nat)
  {
    && j <= i < |s|
    && (forall p, q :: 0 <= p < q <= i && p != j && q != j ==> s[p].distance >= s[q].distance)
    && (forall q :: j < q <= i ==> s[j].distance > s[q].distance)
  }

  /** Swapping the moving sprite with a nearer left neighbour keeps the
      pass going one place further left. */
  lemma SinkingSwap(s: seq<Sprite>, i: nat, j: nat)
    requires Sinking(s, i, j) && 0 < j && s[j - 1].distance < s[j].distance
    ensures Sinking(s[j - 1 := s[j]][j := s[j - 1]], i, j - 1)
  {
  }

  /** The pass stops at the left end or at a neighbour at least as far:
      the first `i + 1` entries are then farthest first. */
  lemma SinkingDone(s: seq<Sprite>, i: nat, j: nat)
    requires Sinking(s, i, j) && (j == 0 || s[j - 1].distance >= s[j].distance)
    ensures FarthestFirst(s[..i + 1])
  {
  }

  /** One pass of the insertion sort: the sprite at `i` moves left past
      every nearer one, so the first `i + 1` entries are farthest first. */
  method SinkFarthest(a: array<Sprite>, i: nat)
    requires i < a.Length && FarthestFirst(a[..i])
    modifies a
    ensures FarthestFirst(a[..i + 1])
    ensures multiset(a[..]) == multiset(old(a[..]))
  {
    var j: nat := i;
    assert Sinking(a[..], i, j);
    while j > 0 && a[j - 1].distance < a[j].distance
      invariant Sinking(a[..], i, j)
      invariant multiset(a[..]) == multiset(old(a[..]))
    {
      ghost var before := a[..];
      a[j - 1], a[j] := a[j], a[j - 1];
      assert a[..] == before[j - 1 := before[j]][j := before[j - 1]];
      SwapKeepsSprites(before, j);
      SinkingSwap(before, i, j);
      j := j - 1;
    }
    SinkingDone(a[..], i, j);
  }

  /** `sprites.sort((a, b) => b.distance - a.distance)`, as an insertion
      sort by adjacent swaps. */
  method SortFarthestFirst(a: array<Sprite>)
    modifies a
    ensures FarthestFirst(a[..])
    ensures multiset(a[..]) == multiset(old(a[..]))
  {
    var i := 0;
    while i < a.Length
      invariant 0 <= i <= a.Length
      invariant FarthestFirst(a[..i])
      invariant multiset(a[..]) == multiset(old(a[..]))
    {
      SinkFarthest(a, i);
      i := i + 1;
    }
    assert a[..] == a[..a.Length];
  }

  // ------------------------------------------------------------ compositing

  /** What the sprite pass reads besides the sprites: the depth of each
      screen column (so the canvas is `|zBuffer|` columns wide), the canvas
      height, `Math.tan(player.fov / 2)` and whether the enemy and weapon
      images have finished loading. */
  datatype View = View(zBuffer: seq<real>, height: nat, tanHalfFov: real, enemyImageReady: bool, weaponImageReady: bool)

  /** `spriteScreenX`, the column of the sprite's centre. */
  function ScreenX(v: View, sp: Sprite): real
    requires v.tanHalfFov > 0.0
  {
    (|v.zBuffer| as real / 2.0) * (1.0 + sp.sinAngle / v.tanHalfFov)
  }

  /** The screen-bounds reject. A sprite at distance 0 has an infinite
      size in JavaScript; its bounds are then infinite or NaN, and none of
      the four comparisons holds, so it is never rejected here. */
  predicate OffScreen(v: View, sp: Sprite, screenX: real)
  {
    sp.distance != 0.0 &&
    var size := v.height as real / sp.distance;
    var startY := (v.height as real / 2.0 - size / 2.0).Floor;
    var endY := startY as real + size;
    var startX := (screenX - size / 2.0).Floor;
    var endX := (screenX + size / 2.0).Floor;
    endX < 0 || startX >= |v.zBuffer| || endY < 0.0 || startY >= v.height
  }

  /** The sprite survives the bounds reject, its centre column is on
      screen, and it is nearer than the wall in that column. */
  predicate Drawn(v: View, sp: Sprite)
    requires v.tanHalfFov > 0.0
  {
    var sx := ScreenX(v, sp);
    !OffScreen(v, sp, sx) && 0 <= sx.Floor < |v.zBuffer| && sp.distance < v.zBuffer[sx.Floor]
  }

  /** `Math.max(0, Math.min(1, enemy.health / 100))` */
  function HealthPercent(health: real): (p: real)
    ensures 0.0 <= p <= 1.0
    ensures 0.0 <= health <= 100.0 ==> p == health / 100.0
    ensures health < 0.0 ==> p == 0.0
    ensures health > 100.0 ==> p == 1.0
  {
    var r := health / 100.0;
    var low := if r < 1.0 then r else 1.0;
    if low > 0.0 then low else 0.0
  }

  /** The test of `enemies.find` in `drawEnemyHealth`. */
  predicate Matches(e: Enemy, x: real, y: real)
  {
    e.x == x && e.y == y && e.alive
  }

  /** `enemies.find(...)` from index `from`: the first match. */
  function FindEnemy(es: seq<Enemy>, x: real, y: real, from: nat): (r: Option<nat>)
    requires from <= |es|
    ensures r.Some? ==> from <= r.value < |es| && Matches(es[r.value], x, y)
    ensures r.Some? ==> forall j :: from <= j < r.value ==> !Matches(es[j], x, y)
    ensures r.None? ==> forall j :: from <= j < |es| ==> !Matches(es[j], x, y)
    decreases |es| - from
  {
    if from == |es| then None
    else if Matches(es[from], x, y) then Some(from)
    else FindEnemy(es, x, y, from + 1)
  }

  /** How a drawn sprite looks: the enemy image with its health bar (if an
      alive enemy stands exactly there) or without, the weapon image, or the
      red or yellow rectangle while the image is still loading. */
  datatype Look = EnemyImage(healthBar: Option<real>) | WeaponImage | Fallback(kind: Kind)

  datatype Draw = Draw(sprite: Sprite, look: Look)

  function LookOf(v: View, es: seq<Enemy>, sp: Sprite): Look
  {
    if sp.kind == EnemySprite && v.enemyImageReady then
      match FindEnemy(es, sp.x, sp.y, 0)
      case Some(i) => EnemyImage(Some(HealthPercent(es[i].health)))
      case None => EnemyImage(None)
    else if sp.kind == WeaponSprite && v.weaponImageReady then WeaponImage
    else Fallback(sp.kind)
  }

  /** The draws of the final `forEach` over the first `n` sorted sprites. */
  function Composite(order: seq<Sprite>, v: View, es: seq<Enemy>, n: nat): seq<Draw>
    requires n <= |order| && v.tanHalfFov > 0.0
  {
    if n == 0 then []
    else
      var rest := Composite(order, v, es, n - 1);
      if Drawn(v, order[n - 1]) then rest + [Draw(order[n - 1], LookOf(v, es, order[n - 1]))] else rest
  }

  /** A sprite is drawn exactly when it passes the bounds and depth
      tests, with the look its kind and the loaded images give it. */
  lemma {:induction false} CompositeExactly(order: seq<Sprite>, v: View, es: seq<Enemy>, n: nat)
    requires n <= |order| && v.tanHalfFov > 0.0
    ensures forall d :: d in Composite(order, v, es, n) <==>
      exists i :: 0 <= i < n && Drawn(v, order[i]) && d == Draw(order[i], LookOf(v, es, order[i]))
  {
    if n > 0 {
      CompositeExactly(order, v, es, n - 1);
    }
  }

  /** Every draw comes from one of the first `n` sprites. */
  lemma {:induction false} CompositeFrom(order: seq<Sprite>, v: View, es: seq<Enemy>, n: nat)
    requires n <= |order| && v.tanHalfFov > 0.0
    ensures forall d :: d in Composite(order, v, es, n) ==> exists i :: 0 <= i < n && d.sprite == order[i]
  {
    if n > 0 {
      CompositeFrom(order, v, es, n - 1);
    }
  }

  /** Each sprite adds at most its own draw at the end. */
  lemma CompositeStep(order: seq<Sprite>, v: View, es: seq<Enemy>, n: nat)
    requires 0 < n <= |order| && v.tanHalfFov > 0.0
    ensures var rest := Composite(order, v, es, n - 1);
      Composite(order, v, es, n) == rest ||
      Composite(order, v, es, n) == rest + [Draw(order[n - 1], LookOf(v, es, order[n - 1]))]
  {
  }

  /** The draws keep the farthest-first order, so nearer sprites are
      painted over farther ones. */
  lemma {:induction false} CompositeKeepsOrder(order: seq<Sprite>, v: View, es: seq<Enemy>, n: nat)
    requires n <= |order| && v.tanHalfFov > 0.0 && FarthestFirst(order)
    ensures var ds := Composite(order, v, es, n);
      forall p, q :: 0 <= p < q < |ds| ==> ds[p].sprite.distance >= ds[q].sprite.distance
  {
    if n > 0 {
      CompositeKeepsOrder(order, v, es, n - 1);
      CompositeFrom(order, v, es, n - 1);
      CompositeStep(order, v, es, n);
      var rest := Composite(order, v, es, n - 1);
      var ds := Composite(order, v, es, n);
      forall p, q | 0 <= p < q < |ds|
        ensures ds[p].sprite.distance >= ds[q].sprite.distance
      {
        assert ds[p] == rest[p];
        if q < |rest| {
          assert ds[q] == rest[q];
        } else {
          assert ds[q].sprite == order[n - 1];
          assert rest[p] in rest;
        }
      }
    }
  }

  /** `renderSprites`: collect the candidates, sort them farthest first,
      and decide each one's draw. */
  method RenderSprites(enemies: seq<Enemy>, weapons: seq<Weapon>, enemySights: seq<Sight>, weaponSights: seq<Sight>,
                       dir: real, v: View)
    returns (order: seq<Sprite>, draws: seq<Draw>)
    requires |enemySights| == |enemies| && |weaponSights| == |weapons|
    requires v.tanHalfFov > 0.0
    ensures multiset(order) ==
      multiset(Spotted(Targets(enemies, weapons), enemySights + weaponSights, dir, |enemies| + |weapons|))
    ensures FarthestFirst(order)
    ensures draws == Composite(order, v, enemies, |order|)
  {
    var sprites := CollectSprites(enemies, weapons, enemySights, weaponSights, dir);
    var a := new Sprite[|sprites|](i requires 0 <= i < |sprites| => sprites[i]);
    assert a[..] == sprites;
    SortFarthestFirst(a);
    order := a[..];
    draws := [];
    for k := 0 to |order|
      invariant draws == Composite(order, v, enemies, k)
    {
      var sp := order[k];
      if Drawn(v, sp) {
        draws := draws + [Draw(sp, LookOf(v, enemies, sp))];
      }
    }
  }
}
