/** The tile grid (`map`, `mapWidth`, `mapHeight`) and the collision test
    `isWalkable` of game.js. */
module Grid {

  import opened Util

  /** Rows of cells; a cell is 0 (open) or 1 (wall). `g[row][col]`. */
  type Grid = seq<seq<int>>

  /** The level hard-coded in game.js: 16 columns by 9 rows. */
  const Level: Grid := [
    [1,1,1,1,1,1,1,1,1,1,1,1,1,1,1,1],
    [1,0,0,0,0,0,0,0,0,0,0,0,0,0,0,1],
    [1,0,1,1,1,0,1,1,1,1,1,1,1,1,0,1],
    [1,0,1,0,1,0,0,0,0,0,0,0,0,1,0,1],
    [1,0,1,0,1,0,1,1,1,1,1,1,0,1,0,1],
    [1,0,1,0,0,0,1,0,0,0,0,1,0,1,0,1],
    [1,0,1,1,1,1,1,0,1,1,1,1,0,1,0,1],
    [1,0,0,0,0,0,0,0,1,0,0,0,0,1,0,1],
    [1,1,1,1,1,1,1,1,1,1,1,1,1,1,1,1]
  ]

  /** Every row is as long as the first, and there is at least one cell. */
  predicate Rectangular(g: Grid)
  {
    |g| > 0 && |g[0]| > 0 && forall r :: 0 <= r < |g| ==> |g[r]| == |g[0]|
  }

  /** `mapWidth = map[0].length` */
  function Width(g: Grid): nat
    requires Rectangular(g)
  {
    |g[0]|
  }

  /** `mapHeight = map.length` */
  function Height(g: Grid): nat
  {
    |g|
  }

  /** Every cell is 0 or 1. */
  predicate Binary(g: Grid)
  {
    forall r, c :: 0 <= r < |g| && 0 <= c < |g[r]| ==> g[r][c] == 0 || g[r][c] == 1
  }

  /** The outermost rows and columns are walls. */
  predicate Bordered(g: Grid)
    requires Rectangular(g)
  {
    && (forall c :: 0 <= c < Width(g) ==> g[0][c] == 1 && g[|g| - 1][c] == 1)
    && (forall r :: 0 <= r < |g| ==> g[r][0] == 1 && g[r][Width(g) - 1] == 1)
  }

  predicate WellFormed(g: Grid)
  {
    Rectangular(g) && Binary(g) && Bordered(g)
  }

  /** `map[row][col] === 0`. A row index outside the grid makes the
      JavaScript throw, so it is required; a column outside the row reads
      `undefined`, which is not 0. */
  predicate IsOpen(g: Grid, row: int, col: int)
    requires 0 <= row < |g|
  {
    0 <= col < |g[row]| && g[row][col] == 0
  }

  /** `map[row][col] === 1`, with the same reading of an absent column. */
  predicate IsWall(g: Grid, row: int, col: int)
    requires 0 <= row < |g|
  {
    0 <= col < |g[row]| && g[row][col] == 1
  }

  /** The point (x, y) lies on an open cell. */
  predicate OnOpenCell(g: Grid, x: real, y: real)
  {
    0 <= y.Floor < |g| && IsOpen(g, y.Floor, x.Floor)
  }

  /** The two rows `isWalkable` indexes exist. */
  predicate RowsInRange(g: Grid, y: real, margin: real)
  {
    0 <= (y - margin).Floor < |g| && 0 <= (y + margin).Floor < |g|
  }

  /** `isWalkable(x, y)`: the cells under the four corners of the square of
      half-side `margin` centred on (x, y) are all open. */
  predicate IsWalkable(g: Grid, x: real, y: real, margin: real)
    requires RowsInRange(g, y, margin)
  {
    var minX, maxX := (x - margin).Floor, (x + margin).Floor;
    var minY, maxY := (y - margin).Floor, (y + margin).Floor;
    IsOpen(g, minY, minX) && IsOpen(g, minY, maxX) && IsOpen(g, maxY, minX) && IsOpen(g, maxY, maxX)
  }

  /** Every point of the closed square of half-side `margin` around (x, y)
      lies on an open cell. */
  ghost predicate SquareOpen(g: Grid, x: real, y: real, margin: real)
    requires RowsInRange(g, y, margin)
  {
    forall px: real, py: real ::
      x - margin <= px <= x + margin && y - margin <= py <= y + margin ==>
        0 <= py.Floor < |g| && IsOpen(g, py.Floor, px.Floor)
  }

  /** A real interval no longer than one cell meets at most two cells, the
      ones under its two ends. */
  lemma FloorBetween(lo: real, hi: real, p: real)
    requires lo <= p <= hi <= lo + 1.0
    ensures p.Floor == lo.Floor || p.Floor == hi.Floor
  {
  }

  /** The four-corner test is exact for a margin of at most half a cell:
      the position is walkable exactly when the whole bounding square lies
      on open cells. */
  lemma WalkableIffSquareOpen(g: Grid, x: real, y: real, margin: real)
    requires RowsInRange(g, y, margin)
    requires 0.0 <= margin <= 0.5
    ensures IsWalkable(g, x, y, margin) <==> SquareOpen(g, x, y, margin)
  {
    if IsWalkable(g, x, y, margin) {
      forall px: real, py: real |
        x - margin <= px <= x + margin && y - margin <= py <= y + margin
        ensures 0 <= py.Floor < |g| && IsOpen(g, py.Floor, px.Floor)
      {
        FloorBetween(x - margin, x + margin, px);
        FloorBetween(y - margin, y + margin, py);
      }
    }
    if SquareOpen(g, x, y, margin) {
      var lo, hi := x - margin, x + margin;
      assert IsOpen(g, (y - margin).Floor, lo.Floor);
      assert IsOpen(g, (y - margin).Floor, hi.Floor);
      assert IsOpen(g, (y + margin).Floor, lo.Floor);
      assert IsOpen(g, (y + margin).Floor, hi.Floor);
    }
  }

  /** A walkable position stands on an open cell itself. */
  lemma WalkableCentreOpen(g: Grid, x: real, y: real, margin: real)
    requires RowsInRange(g, y, margin)
    requires 0.0 <= margin <= 0.5
    requires IsWalkable(g, x, y, margin)
    ensures OnOpenCell(g, x, y)
  {
    WalkableIffSquareOpen(g, x, y, margin);
    assert 0 <= y.Floor < |g| && IsOpen(g, y.Floor, x.Floor);
  }

  /** In a bordered grid an open cell is never on the border. */
  lemma OpenIsInterior(g: Grid, row: int, col: int)
    requires WellFormed(g) && 0 <= row < |g|
    requires IsOpen(g, row, col)
    ensures 1 <= row <= |g| - 2 && 1 <= col <= Width(g) - 2
  {
    assert |g[row]| == Width(g);
    assert g[0][col] == 1 && g[|g| - 1][col] == 1;
    assert g[row][0] == 1 && g[row][Width(g) - 1] == 1;
  }

  /** The point (x', y') within one cell of a point on an open cell (in
      both coordinates) still lies inside the grid. */
  lemma NearOpenInGrid(g: Grid, x: real, y: real, x': real, y': real)
    requires WellFormed(g) && OnOpenCell(g, x, y)
    requires -1.0 <= x' - x <= 1.0 && -1.0 <= y' - y <= 1.0
    ensures 0 <= y'.Floor < |g| && 0 <= x'.Floor < Width(g)
  {
    OpenIsInterior(g, y.Floor, x.Floor);
  }

  /** The level of game.js is rectangular, binary and walled in, and its
      dimensions are 16 by 9. */
  lemma LevelWellFormed()
    ensures WellFormed(Level) && Width(Level) == 16 && Height(Level) == 9
  {
  }

  /** The acceptance test of `placeEnemies` and `placeWeapons` for the
      drawn cell (col, row): open, and more than two cells from the player
      along some axis. */
  predicate PlacementAccepted(g: Grid, px: real, py: real, col: int, row: int)
    requires 0 <= row < |g|
  {
    IsOpen(g, row, col) && (Abs(col as real - px) > 2.0 || Abs(row as real - py) > 2.0)
  }

  /** An accepted cell puts the object, at the cell's centre
      `(col + 0.5, row + 0.5)`, on an open cell. */
  lemma PlacementOnOpenCell(g: Grid, px: real, py: real, col: int, row: int)
    requires 0 <= row < |g|
    requires PlacementAccepted(g, px, py, col, row)
    ensures OnOpenCell(g, col as real + 0.5, row as real + 0.5)
  {
  }
}
