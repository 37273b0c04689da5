/** The wall pass of `castRays` in game.js: one ray march per screen column,
    fisheye correction by a supplied cosine, the texture-tier ladder and the
    column depth buffer. */
module Raycast {

  import opened Util
  import opened Grid

  /** The march advances 0.05 per step up to a range of 16, that is at most
      320 steps. */
  const RayStep: real := 0.05
  const MaxDepth: real := 16.0
  const MaxSteps: nat := 320

  /** What one ray reports: the number of steps taken, `distanceToWall`,
      `hitWall` and `textureX`. */
  datatype RayHit = RayHit(steps: nat, distance: real, hitWall: bool, textureX: real)

  /** `distanceToWall` after `k` steps. */
  function Travelled(k: nat): real
  {
    k as real * RayStep
  }

  lemma TravelledNext(k: nat)
    ensures Travelled(k + 1) == Travelled(k) + RayStep
  {
  }

  /** One coordinate of the point `k` steps along the ray: `player.x + eyeX * distanceToWall`. */
  function RayCoord(origin: real, eye: real, k: nat): real
  {
    origin + eye * Travelled(k)
  }

  /** JavaScript `v % 1`: the remainder keeps the sign of `v`. */
  function Rem1(v: real): (r: real)
    ensures -1.0 < r < 1.0
    ensures v >= 0.0 ==> 0.0 <= r < 1.0 && (v - r).Floor as real == v - r
    ensures v < 0.0 ==> -1.0 < r <= 0.0
  {
    if v >= 0.0 then v - v.Floor as real else v + (-v).Floor as real
  }

  /** The point (tx, ty) lies over a cell of the grid. */
  predicate InGrid(g: Grid, tx: real, ty: real)
    requires Rectangular(g)
  {
    0 <= tx.Floor < Width(g) && 0 <= ty.Floor < Height(g)
  }

  /** The texture coordinate of a hit at (tx, ty): the fraction of y when
      the fraction of x is within 0.0001 of a cell edge, else the fraction
      of x, reduced once more modulo 1. */
  function FaceCoordinate(tx: real, ty: real): (t: real)
    requires tx >= 0.0 && ty >= 0.0
    ensures 0.0 <= t < 1.0
  {
    var blockX, blockY := Rem1(tx), Rem1(ty);
    var t := if Abs(blockX - 1.0) < 0.0001 || blockX < 0.0001 then blockY else blockX;
    Rem1(t)
  }

  /** The march passes step `k`: its point is over the grid and not a wall. */
  predicate Clear(g: Grid, px: real, py: real, ex: real, ey: real, k: nat)
    requires Rectangular(g)
  {
    var tx, ty := RayCoord(px, ex, k), RayCoord(py, ey, k);
    InGrid(g, tx, ty) && g[ty.Floor][tx.Floor] != 1
  }

  /** The march from step `k` on, assuming the steps before `k` were clear:
      `MarchStops` states where and how it stops. */
  function March(g: Grid, px: real, py: real, ex: real, ey: real, k: nat): (h: RayHit)
    requires Rectangular(g) && 1 <= k <= MaxSteps
    decreases MaxSteps - k
  {
    var tx, ty := RayCoord(px, ex, k), RayCoord(py, ey, k);
    if !InGrid(g, tx, ty) then
      RayHit(k, MaxDepth, true, 0.0)
    else if g[ty.Floor][tx.Floor] == 1 then
      RayHit(k, Travelled(k), true, FaceCoordinate(tx, ty))
    else if k < MaxSteps then
      March(g, px, py, ex, ey, k + 1)
    else
      RayHit(k, Travelled(k), false, 0.0)
  }

  /** How the ray stops: it passes every step before its last one; it
      reports a hit exactly when that last step is not clear; a step off the
      grid is a hit at the range limit 16; a step on the grid is a hit on a
      wall cell at that step's distance with a texture coordinate in
      [0, 1); and without a hit the march has taken all 320 steps and the
      distance is 16. */
  lemma {:induction false} MarchStops(g: Grid, px: real, py: real, ex: real, ey: real, k: nat)
    requires Rectangular(g) && 1 <= k <= MaxSteps
    decreases MaxSteps - k
    ensures var h := March(g, px, py, ex, ey, k);
      && k <= h.steps <= MaxSteps
      && (forall j :: k <= j < h.steps ==> Clear(g, px, py, ex, ey, j))
      && (h.hitWall <==> !Clear(g, px, py, ex, ey, h.steps))
      && (!InGrid(g, RayCoord(px, ex, h.steps), RayCoord(py, ey, h.steps)) ==>
            h.hitWall && h.distance == MaxDepth && h.textureX == 0.0)
      && (InGrid(g, RayCoord(px, ex, h.steps), RayCoord(py, ey, h.steps)) && h.hitWall ==>
            g[RayCoord(py, ey, h.steps).Floor][RayCoord(px, ex, h.steps).Floor] == 1 &&
            h.distance == Travelled(h.steps) && 0.0 <= h.textureX < 1.0)
      && (!h.hitWall ==> h.steps == MaxSteps && h.distance == MaxDepth && h.textureX == 0.0)
  {
    var tx, ty := RayCoord(px, ex, k), RayCoord(py, ey, k);
    if InGrid(g, tx, ty) && g[ty.Floor][tx.Floor] != 1 && k < MaxSteps {
      MarchStops(g, px, py, ex, ey, k + 1);
    }
  }

  /** The ray of direction (ex, ey) from (px, py), as the march sees it from
      the first step. */
  function Ray(g: Grid, px: real, py: real, ex: real, ey: real): RayHit
    requires Rectangular(g)
  {
    March(g, px, py, ex, ey, 1)
  }

  /** The `while` loop of `castRays` for one column. `eyeX` and `eyeY` are
      the cosine and sine of the ray angle. */
  method CastRay(g: Grid, px: real, py: real, eyeX: real, eyeY: real) returns (h: RayHit)
    requires Rectangular(g)
    ensures h == Ray(g, px, py, eyeX, eyeY)
  {
    var k: nat := 0;
    var distanceToWall := 0.0;
    var hitWall := false;
    var textureX := 0.0;
    while !hitWall && distanceToWall < MaxDepth
      invariant k <= MaxSteps
      invariant !hitWall ==> distanceToWall == Travelled(k) && textureX == 0.0
      invariant !hitWall && k < MaxSteps ==> Ray(g, px, py, eyeX, eyeY) == March(g, px, py, eyeX, eyeY, k + 1)
      invariant !hitWall && k == MaxSteps ==> Ray(g, px, py, eyeX, eyeY) == RayHit(k, distanceToWall, false, 0.0)
      invariant hitWall ==> Ray(g, px, py, eyeX, eyeY) == RayHit(k, distanceToWall, true, textureX)
      decreases MaxSteps - k
    {
      ghost var ray := Ray(g, px, py, eyeX, eyeY);
      TravelledNext(k);
      k := k + 1;
      distanceToWall := distanceToWall + RayStep;
      var testX := RayCoord(px, eyeX, k);
      var testY := RayCoord(py, eyeY, k);
      assert ray == March(g, px, py, eyeX, eyeY, k);
      var mapX, mapY := testX.Floor, testY.Floor;
      if mapX < 0 || mapX >= Width(g) || mapY < 0 || mapY >= Height(g) {
        hitWall := true;
        distanceToWall := MaxDepth;
      } else if g[mapY][mapX] == 1 {
        hitWall := true;
        var blockX, blockY := Rem1(testX), Rem1(testY);
        if Abs(blockX - 1.0) < 0.0001 || blockX < 0.0001 {
          textureX := blockY;
        } else {
          textureX := blockX;
        }
        textureX := Rem1(textureX);
      }
    }
    h := RayHit(k, distanceToWall, hitWall, textureX);
  }

  /** Every ray stops within the range: between one step and 16. */
  lemma RayDepthBounds(g: Grid, px: real, py: real, ex: real, ey: real)
    requires Rectangular(g)
    ensures var h := Ray(g, px, py, ex, ey);
      1 <= h.steps <= MaxSteps && RayStep <= h.distance <= MaxDepth
  {
    MarchStops(g, px, py, ex, ey, 1);
  }

  /** The texture tier chosen for a corrected distance (game.js:290-301). */
  function TextureTier(d: real): (size: nat)
    ensures size in {256, 128, 64, 32, 16}
  {
    if d < 2.0 then 256
    else if d < 4.0 then 128
    else if d < 8.0 then 64
    else if d < 12.0 then 32
    else 16
  }

  /** The tier never grows with distance. */
  lemma TierNonIncreasing(d1: real, d2: real)
    requires d1 <= d2
    ensures TextureTier(d2) <= TextureTier(d1)
  {
  }

  /** The band limits, each one exclusive on its near side. */
  const TierThresholds: seq<real> := [2.0, 4.0, 8.0, 12.0]

  /** How many of the limits in `ts` the distance `d` has reached. */
  function Reached(ts: seq<real>, d: real): nat
  {
    if ts == [] then 0 else (if ts[0] <= d then 1 else 0) + Reached(ts[1..], d)
  }

  function Pow2(n: nat): nat
  {
    if n == 0 then 1 else 2 * Pow2(n - 1)
  }

  /** The ladder halves the texture size at each limit reached: it is
      256 / 2^(number of limits in {2, 4, 8, 12} at or below d). */
  lemma {:induction false} TierHalvesPerBand(d: real)
    ensures TextureTier(d) * Pow2(Reached(TierThresholds, d)) == 256
  {
    var ts := TierThresholds;
    assert ts[1..] == [4.0, 8.0, 12.0];
    assert ts[1..][1..] == [8.0, 12.0];
    assert ts[1..][1..][1..] == [12.0];
    assert ts[1..][1..][1..][1..] == [];
    var n3 := (if 12.0 <= d then 1 else 0);
    assert Reached(ts[1..][1..][1..], d) == n3;
    var n2 := (if 8.0 <= d then 1 else 0) + n3;
    assert Reached(ts[1..][1..], d) == n2;
    var n1 := (if 4.0 <= d then 1 else 0) + n2;
    assert Reached(ts[1..], d) == n1;
    assert Reached(ts, d) == (if 2.0 <= d then 1 else 0) + n1;
    assert Pow2(1) == 2 && Pow2(2) == 4 && Pow2(3) == 8 && Pow2(4) == 16;
  }

  /** Inputs for one screen column: the ray's unit direction and the cosine
      of its angle from the view direction. */
  datatype Column = Column(eyeX: real, eyeY: real, cosOffset: real)

  /** The wall slice drawn for a column: a one-pixel strip of the texture of
      the chosen tier at the hit's texture coordinate, or a flat grey strip
      while textures are not loaded. */
  datatype WallSlice = Textured(size: nat, textureX: real) | Flat

  /** `correctedDistance = distanceToWall * cos(rayAngle - player.dir)` */
  function CorrectedDepth(g: Grid, px: real, py: real, c: Column): real
    requires Rectangular(g)
  {
    Ray(g, px, py, c.eyeX, c.eyeY).distance * c.cosOffset
  }

  function SliceFor(g: Grid, px: real, py: real, c: Column, texturesLoaded: bool): WallSlice
    requires Rectangular(g)
  {
    if texturesLoaded then
      Textured(TextureTier(CorrectedDepth(g, px, py, c)), Ray(g, px, py, c.eyeX, c.eyeY).textureX)
    else
      Flat
  }

  /** The body of the column loop of `castRays` for one column: the
      corrected distance and the wall slice drawn there. */
  method CastColumn(g: Grid, px: real, py: real, c: Column, texturesLoaded: bool)
    returns (correctedDistance: real, slice: WallSlice)
    requires Rectangular(g)
    ensures correctedDistance == CorrectedDepth(g, px, py, c)
    ensures slice == SliceFor(g, px, py, c, texturesLoaded)
  {
    var hit := CastRay(g, px, py, c.eyeX, c.eyeY);
    correctedDistance := hit.distance * c.cosOffset;
    var textureSize := TextureTier(correctedDistance);
    if texturesLoaded {
      slice := Textured(textureSize, hit.textureX);
    } else {
      slice := Flat;
    }
  }

  /** The column loop of `castRays`: one ray per column, each column's
      corrected distance stored in the depth buffer at that column. */
  method CastColumns(g: Grid, px: real, py: real, columns: seq<Column>, texturesLoaded: bool)
    returns (zBuffer: array<real>, slices: seq<WallSlice>)
    requires Rectangular(g)
    ensures fresh(zBuffer)
    ensures zBuffer.Length == |columns| && |slices| == |columns|
    ensures forall i :: 0 <= i < |columns| ==>
              zBuffer[i] == CorrectedDepth(g, px, py, columns[i]) &&
              slices[i] == SliceFor(g, px, py, columns[i], texturesLoaded)
  {
    zBuffer := new real[|columns|];
    slices := [];
    for i := 0 to |columns|
      invariant |slices| == i
      invariant forall j :: 0 <= j < i ==>
                  zBuffer[j] == CorrectedDepth(g, px, py, columns[j]) &&
                  slices[j] == SliceFor(g, px, py, columns[j], texturesLoaded)
    {
      var correctedDistance, slice := CastColumn(g, px, py, columns[i], texturesLoaded);
      slices := slices + [slice];
      zBuffer[i] := correctedDistance;
    }
  }

  /** A 3x3 ring of walls around one open cell. */
  const Ring: Grid := [[1, 1, 1], [1, 0, 1], [1, 1, 1]]

  lemma SquareLess(a: real, b: real)
    requires 0.0 <= b && -b < a < b
    ensures a * a < b * b
  {
    if a >= 0.0 {
      assert a * a <= a * b;
      assert a * b < b * b;
    } else {
      assert a * a < -a * b;
      assert -a * b <= b * b;
    }
  }

  lemma UnitComponents(ex: real, ey: real)
    requires ex * ex + ey * ey == 1.0
    ensures -1.0 <= ex <= 1.0 && -1.0 <= ey <= 1.0
    ensures ex <= -0.7 || ex >= 0.7 || ey <= -0.7 || ey >= 0.7
  {
    if -0.7 < ex < 0.7 && -0.7 < ey < 0.7 {
      SquareLess(ex, 0.7);
      SquareLess(ey, 0.7);
    }
  }

  /** From the centre of the ring, a ray in any direction hits a wall
      within 15 steps (distance 0.75), with a texture coordinate in
      [0, 1). */
  lemma RingHitsNearby(ex: real, ey: real)
    requires ex * ex + ey * ey == 1.0
    ensures var h := Ray(Ring, 1.5, 1.5, ex, ey);
      h.hitWall && h.distance <= 0.75 && 0.0 <= h.textureX < 1.0
  {
    UnitComponents(ex, ey);
    assert Width(Ring) == 3 && Height(Ring) == 3;
    RingStepLeavesCentre(ex, ey);
    MarchStops(Ring, 1.5, 1.5, ex, ey, 1);
    var h := Ray(Ring, 1.5, 1.5, ex, ey);
    assert h.steps <= 15;
    RingStepInGrid(ex, ey, h.steps);
  }

  /** Step 15 (distance 0.75) is off the centre cell. */
  lemma RingStepLeavesCentre(ex: real, ey: real)
    requires -1.0 <= ex <= 1.0 && -1.0 <= ey <= 1.0
    requires ex <= -0.7 || ex >= 0.7 || ey <= -0.7 || ey >= 0.7
    ensures !Clear(Ring, 1.5, 1.5, ex, ey, 15)
  {
    var x15, y15 := RayCoord(1.5, ex, 15), RayCoord(1.5, ey, 15);
    assert x15 == 1.5 + ex * 0.75 && y15 == 1.5 + ey * 0.75;
    assert 0.75 <= x15 <= 2.25 && 0.75 <= y15 <= 2.25;
    assert x15 >= 2.0 || x15 < 1.0 || y15 >= 2.0 || y15 < 1.0;
    assert x15.Floor != 1 || y15.Floor != 1;
    assert 0 <= x15.Floor <= 2 && 0 <= y15.Floor <= 2;
  }

  /** The first 15 steps stay over the ring. */
  lemma RingStepInGrid(ex: real, ey: real, k: nat)
    requires -1.0 <= ex <= 1.0 && -1.0 <= ey <= 1.0 && k <= 15
    ensures InGrid(Ring, RayCoord(1.5, ex, k), RayCoord(1.5, ey, k))
  {
    var s := k as real * RayStep;
    assert 0.0 <= s <= 0.75;
    assert -0.75 <= ex * s <= 0.75 by {
      if ex >= 0.0 { assert ex * s <= 1.0 * s; } else { assert ex * s >= -1.0 * s; }
    }
    assert -0.75 <= ey * s <= 0.75 by {
      if ey >= 0.0 { assert ey * s <= 1.0 * s; } else { assert ey * s >= -1.0 * s; }
    }
    assert Width(Ring) == 3 && Height(Ring) == 3;
  }
}
