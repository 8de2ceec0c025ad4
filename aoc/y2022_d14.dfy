/** 2022 day 14: sand pours from a hole at (500, 0) into a cave whose rock
    is drawn from paths of straight segments. The cave is a dense grid of
    rows that the dripping loops change cell by cell. */
module Day2022_14 {
  import opened Common

  datatype Material = Air | Rock | Sand | Hole
  type Grid = seq<seq<Material>>

  datatype Coordinate = Coordinate(x: int, y: int)
  type Path = seq<Coordinate>

  /** `HOLE`, and the grid is twice its x wide. */
  const HoleX: int := 500
  const Width: int := HoleX * 2

  // ----- drawing the rock -----

  function PathYs(path: Path): (ys: seq<int>)
    ensures |ys| == |path| && forall k :: 0 <= k < |path| ==> ys[k] == path[k].y
  {
    seq(|path|, k requires 0 <= k < |path| => path[k].y)
  }

  /** Every y of every path, flattened. */
  function Ys(paths: seq<Path>): seq<int>
  {
    if paths == [] then [] else PathYs(paths[0]) + Ys(paths[1..])
  }

  lemma {:induction false} YsMembers(paths: seq<Path>)
    ensures forall i, k :: 0 <= i < |paths| && 0 <= k < |paths[i]| ==> paths[i][k].y in Ys(paths)
    ensures forall v :: v in Ys(paths) ==> exists i, k :: 0 <= i < |paths| && 0 <= k < |paths[i]| && paths[i][k].y == v
  {
    if paths != [] {
      YsMembers(paths[1..]);
      forall i, k | 0 <= i < |paths| && 0 <= k < |paths[i]|
        ensures paths[i][k].y in Ys(paths)
      {
        if i == 0 {
          assert PathYs(paths[0])[k] == paths[i][k].y;
        } else {
          assert paths[1..][i - 1] == paths[i];
        }
      }
      forall v | v in Ys(paths)
        ensures exists i, k :: 0 <= i < |paths| && 0 <= k < |paths[i]| && paths[i][k].y == v
      {
        if v in PathYs(paths[0]) {
          var k :| 0 <= k < |paths[0]| && PathYs(paths[0])[k] == v;
          assert paths[0][k].y == v;
        } else {
          assert v in Ys(paths[1..]);
          var i, k :| 0 <= i < |paths[1..]| && 0 <= k < |paths[1..][i]| && paths[1..][i][k].y == v;
          assert paths[i + 1][k].y == v;
        }
      }
    }
  }

  /** The cells a segment covers, both ends included: a vertical segment
      when the x values agree, otherwise a horizontal one when the y
      values do. */
  predicate Covers(from: Coordinate, to: Coordinate, x: int, y: int)
  {
    if from.x == to.x then
      x == from.x && (from.y <= y <= to.y || to.y <= y <= from.y)
    else
      y == from.y && from.y == to.y && (from.x <= x <= to.x || to.x <= x <= from.x)
  }

  /** A segment drawn within the grid: straight (a diagonal throws), its
      ends at a y that indexes a row (another row is `undefined` and the
      write throws) and at an x within the 1000 cells of a row. */
  predicate Drawable(from: Coordinate, to: Coordinate)
  {
    && (from.x == to.x || from.y == to.y)
    && 0 <= from.x < Width && 0 <= to.x < Width
    && 0 <= from.y && 0 <= to.y
  }

  ghost predicate AllDrawable(paths: seq<Path>)
  {
    forall i, c :: 0 <= i < |paths| && 1 <= c < |paths[i]| ==> Drawable(paths[i][c - 1], paths[i][c])
  }

  /** Some segment before segment `c` of path `i` covers (x, y). */
  ghost predicate CoveredBefore(paths: seq<Path>, i: nat, c: nat, x: int, y: int)
  {
    exists j, k :: 0 <= j < |paths| && 1 <= k < |paths[j]| && (j < i || (j == i && k < c))
      && Covers(paths[j][k - 1], paths[j][k], x, y)
  }

  /** The cells of a fresh grid and of the rock drawn so far. */
  ghost predicate DrawnUpTo(grid: Grid, height: nat, paths: seq<Path>, i: nat, c: nat)
  {
    && |grid| == height
    && (forall y :: 0 <= y < height ==> |grid[y]| == Width)
    && forall y, x :: 0 <= y < height && 0 <= x < Width ==>
        grid[y][x] == if CoveredBefore(paths, i, c, x, y) then Rock
                      else if y == 0 && x == HoleX then Hole
                      else Air
  }

  /** The same as `max(ys)` being truthy: some coordinate exists and the
      largest y is not zero. */
  predicate HasDepth(paths: seq<Path>)
  {
    Ys(paths) != [] && Max(Ys(paths)) != 0
  }

  /** The rows of `range(0, maxY + 1)`: lodash `range` counts down to a
      negative end, so there are |maxY + 1| rows, and only the first is row
      0, the one that can hold the hole. */
  function Height(paths: seq<Path>): (h: nat)
    requires Ys(paths) != []
    ensures h > 0 <==> Max(Ys(paths)) != -1
    ensures Max(Ys(paths)) >= 0 ==> h == Max(Ys(paths)) + 1
  {
    if Max(Ys(paths)) + 1 < 0 then -(Max(Ys(paths)) + 1) else Max(Ys(paths)) + 1
  }

  /** `range(0, maxY + 1)`: the y of each row `createGrid` builds. */
  function RowYs(paths: seq<Path>): seq<int>
    requires Ys(paths) != []
  {
    LodashRange(0, Max(Ys(paths)) + 1)
  }

  /** The height is the number of rows `range(0, maxY + 1)` gives, and
      the first of them is the only row 0. */
  lemma HeightIsRange(paths: seq<Path>)
    requires Ys(paths) != []
    ensures Height(paths) == |RowYs(paths)|
    ensures forall k :: 0 <= k < Height(paths) ==> (RowYs(paths)[k] == 0 <==> k == 0)
  {
    LodashRangeEntries(0, Max(Ys(paths)) + 1);
  }

  /** A single point at y = -3: `range(0, -2)` is [0, -1], so the grid is
      created with two rows. */
  lemma CountDownRows()
    ensures var paths := [[Coordinate(5, -3)]];
      HasDepth(paths) && AllDrawable(paths) && Height(paths) == 2
  {
    var paths := [[Coordinate(5, -3)]];
    assert Ys(paths) == [-3] by {
      assert Ys(paths[1..]) == [];
    }
  }

  /** The grid that `createGrid` returns: every cell a segment covers is
      rock, the hole is at (500, 0) unless rock covers it, and the rest is
      air. */
  ghost function Drawn(paths: seq<Path>): Grid
    requires Ys(paths) != []
  {
    DrawnRows(paths, Height(paths))
  }

  /** The first `h` rows of the drawn cave. */
  ghost function DrawnRows(paths: seq<Path>, h: nat): Grid
  {
    seq(h, y => DrawnRow(paths, y))
  }

  ghost function DrawnRow(paths: seq<Path>, y: int): seq<Material>
  {
    seq(Width, x => if CoveredBefore(paths, |paths|, 0, x, y) then Rock
                    else if y == 0 && x == HoleX then Hole
                    else Air)
  }

  /** The cells drawn after every path determine the grid. */
  lemma DrawnUnique(grid: Grid, h: nat, paths: seq<Path>)
    requires DrawnUpTo(grid, h, paths, |paths|, 0)
    ensures grid == DrawnRows(paths, h)
  {
    var d := DrawnRows(paths, h);
    assert |d| == |grid|;
    forall y | 0 <= y < |grid|
      ensures grid[y] == d[y]
    {
      var row := DrawnRow(paths, y);
      assert |grid[y]| == Width == |row|;
      assert forall x :: 0 <= x < Width ==> grid[y][x] == row[x];
    }
  }

  /** `createGrid`: a grid of the rows of `range(0, maxY + 1)`, 1000 wide,
      with the hole at (500, 0) and every cell of every segment rock. It
      fails when there is no y or the largest is 0 (`assert(maxY)`), and
      when a segment is diagonal or leaves the grid. */
  method CreateGrid(paths: seq<Path>) returns (r: Result<Grid>)
    ensures r.Success? <==> HasDepth(paths) && AllDrawable(paths)
    ensures r.Success? ==> DrawnUpTo(r.value, Height(paths), paths, |paths|, 0)
  {
    var ys := Ys(paths);
    if ys == [] || Max(ys) == 0 {
      return Failure("no rock below the hole");
    }
    var maxY := Max(ys);
    var rows := RowYs(paths);
    HeightIsRange(paths);
    var height := |rows|;
    var grid: Grid := seq(height, k requires 0 <= k < height =>
      seq(Width, x => if rows[k] == 0 && x == HoleX then Hole else Air));
    var i := 0;
    while i < |paths|
      invariant 0 <= i <= |paths|
      invariant DrawnUpTo(grid, height, paths, i, 0)
      invariant forall j, c :: 0 <= j < i && 1 <= c < |paths[j]| ==> Drawable(paths[j][c - 1], paths[j][c])
    {
      PathYsBelow(paths, i);
      var drawn := DrawPath(grid, height, paths, i);
      if drawn.Failure? {
        return drawn;
      }
      grid := drawn.value;
      i := i + 1;
    }
    r := Success(grid);
  }

  /** The inner loop of `createGrid`: draw the segments of path `i`. */
  method DrawPath(grid: Grid, height: nat, paths: seq<Path>, i: nat) returns (r: Result<Grid>)
    requires i < |paths| && DrawnUpTo(grid, height, paths, i, 0)
    requires forall k :: 0 <= k < |paths[i]| && 0 <= paths[i][k].y ==> paths[i][k].y < height
    ensures r.Success? <==> forall c :: 1 <= c < |paths[i]| ==> Drawable(paths[i][c - 1], paths[i][c])
    ensures r.Success? ==> DrawnUpTo(r.value, height, paths, i + 1, 0)
  {
    var g := grid;
    var c := 1;
    CoveredNextPath(paths, i);
    while c < |paths[i]|
      invariant 1 <= c
      invariant c <= |paths[i]| || |paths[i]| == 0
      invariant DrawnUpTo(g, height, paths, i, c)
      invariant forall k :: 1 <= k < c && k < |paths[i]| ==> Drawable(paths[i][k - 1], paths[i][k])
    {
      var from, to := paths[i][c - 1], paths[i][c];
      if !Drawable(from, to) {
        return Failure(if from.x != to.x && from.y != to.y then "Diagonal path" else "outside the grid");
      }
      g := DrawSegment(g, height, from, to);
      forall y, x | 0 <= y < height && 0 <= x < Width
        ensures CoveredBefore(paths, i, c + 1, x, y) == (CoveredBefore(paths, i, c, x, y) || Covers(from, to, x, y))
      {
        CoveredStep(paths, i, c, x, y);
      }
      c := c + 1;
    }
    forall y, x | 0 <= y < height && 0 <= x < Width
      ensures CoveredBefore(paths, i + 1, 0, x, y) == CoveredBefore(paths, i, c, x, y)
    {
      CoveredPathDone(paths, i, x, y);
    }
    r := Success(g);
  }

  /** No y of a path lies below the largest. */
  lemma PathYsBelow(paths: seq<Path>, i: nat)
    requires i < |paths| && Ys(paths) != []
    ensures forall k :: 0 <= k < |paths[i]| ==> paths[i][k].y <= Max(Ys(paths))
  {
    YsMembers(paths);
  }

  /** The segments before the first of path `i` are those before its
      second. */
  lemma CoveredNextPath(paths: seq<Path>, i: nat)
    ensures forall x, y :: CoveredBefore(paths, i, 0, x, y) == CoveredBefore(paths, i, 1, x, y)
  {
  }

  lemma CoveredStep(paths: seq<Path>, i: nat, c: nat, x: int, y: int)
    requires i < |paths| && 1 <= c < |paths[i]|
    ensures CoveredBefore(paths, i, c + 1, x, y) == (CoveredBefore(paths, i, c, x, y) || Covers(paths[i][c - 1], paths[i][c], x, y))
  {
    if Covers(paths[i][c - 1], paths[i][c], x, y) {
      assert CoveredBefore(paths, i, c + 1, x, y) by {
        assert 0 <= i < |paths| && 1 <= c < |paths[i]| && (i < i || (i == i && c < c + 1));
      }
    }
  }

  lemma CoveredPathDone(paths: seq<Path>, i: nat, x: int, y: int)
    requires i < |paths|
    ensures CoveredBefore(paths, i + 1, 0, x, y) == CoveredBefore(paths, i, if |paths[i]| == 0 then 0 else |paths[i]|, x, y)
  {
  }

  /** Draw one straight segment as rock, both ends included. */
  method DrawSegment(grid: Grid, height: nat, from: Coordinate, to: Coordinate) returns (r: Grid)
    requires Drawable(from, to) && from.y < height && to.y < height
    requires |grid| == height && forall y :: 0 <= y < height ==> |grid[y]| == Width
    ensures |r| == height && forall y :: 0 <= y < height ==> |r[y]| == Width
    ensures forall y, x :: 0 <= y < height && 0 <= x < Width ==>
      r[y][x] == if Covers(from, to, x, y) then Rock else grid[y][x]
  {
    r := grid;
    if from.x == to.x {
      var x := from.x;
      var fromY := if from.y < to.y then from.y else to.y;
      var toY := if from.y < to.y then to.y else from.y;
      var y := fromY;
      while y <= toY
        invariant fromY <= y <= toY + 1
        invariant |r| == height && forall yy :: 0 <= yy < height ==> |r[yy]| == Width
        invariant forall yy, xx :: 0 <= yy < height && 0 <= xx < Width ==>
          r[yy][xx] == if xx == x && fromY <= yy < y then Rock else grid[yy][xx]
      {
        r := r[y := r[y][x := Rock]];
        y := y + 1;
      }
    } else {
      var y := from.y;
      var fromX := if from.x < to.x then from.x else to.x;
      var toX := if from.x < to.x then to.x else from.x;
      var x := fromX;
      while x <= toX
        invariant fromX <= x <= toX + 1
        invariant |r| == height && forall yy :: 0 <= yy < height ==> |r[yy]| == Width
        invariant forall yy, xx :: 0 <= yy < height && 0 <= xx < Width ==>
          r[yy][xx] == if yy == y && fromX <= xx < x then Rock else grid[yy][xx]
      {
        r := r[y := r[y][x := Rock]];
        x := x + 1;
      }
    }
  }

  // ----- cells -----

  /** The cell holds air; a read off the grid is `undefined`, not air. */
  predicate IsAir(grid: Grid, x: int, y: int)
  {
    0 <= y < |grid| && 0 <= x < |grid[y]| && grid[y][x] == Air
  }

  predicate IsRockCell(grid: Grid, x: int, y: int)
  {
    0 <= y < |grid| && 0 <= x < |grid[y]| && grid[y][x] == Rock
  }

  /** Write one cell. A write off the grid sets no element of the rows. */
  function Put(grid: Grid, x: int, y: int, m: Material): (r: Grid)
    ensures |r| == |grid| && forall l :: 0 <= l < |grid| ==> |r[l]| == |grid[l]|
  {
    if 0 <= y < |grid| && 0 <= x < |grid[y]| then grid[y := grid[y][x := m]] else grid
  }

  /** The number of cells holding `m`. */
  function CountCells(grid: Grid, m: Material): nat
  {
    if grid == [] then 0 else Count(grid[0], m) + CountCells(grid[1..], m)
  }

  /** `countSand`. */
  function CountSand(grid: Grid): nat
  {
    CountCells(grid, Sand)
  }

  lemma {:induction false} CountUpdate(row: seq<Material>, x: nat, v: Material, m: Material)
    requires x < |row|
    ensures Count(row[x := v], m) + (if row[x] == m then 1 else 0) == Count(row, m) + (if v == m then 1 else 0)
  {
    var n := |row| - 1;
    if x < n {
      CountUpdate(row[..n], x, v, m);
      assert row[x := v][..n] == row[..n][x := v];
    } else {
      assert row[x := v][..n] == row[..n];
    }
  }

  /** Writing `v` over one cell adds it to the count of `v` and takes the
      old material off its count. */
  lemma {:induction false} PutCount(grid: Grid, x: int, y: int, v: Material, m: Material)
    requires 0 <= y < |grid| && 0 <= x < |grid[y]|
    ensures CountCells(Put(grid, x, y, v), m) + (if grid[y][x] == m then 1 else 0)
         == CountCells(grid, m) + (if v == m then 1 else 0)
  {
    var g' := Put(grid, x, y, v);
    if y == 0 {
      CountUpdate(grid[0], x, v, m);
      assert g'[1..] == grid[1..];
    } else {
      PutCount(grid[1..], x, y - 1, v, m);
      assert g'[1..] == Put(grid[1..], x, y - 1, v);
    }
  }

  // ----- the floor -----

  /** The grid ends in a row without air, so no grain reaches it. */
  ghost predicate Floored(grid: Grid)
  {
    |grid| >= 2 && Air !in grid[|grid| - 1]
  }

  /** `addFloor`'s grid: one row of air and one row of rock, as wide as
      the top row, below the rest. */
  function WithFloor(grid: Grid): (r: Grid)
    requires grid != []
    ensures Floored(r) && |r| == |grid| + 2 && r[..|grid|] == grid
    ensures r[|grid|] == seq(|grid[0]|, _ => Air) && r[|grid| + 1] == seq(|grid[0]|, _ => Rock)
  {
    grid + [seq(|grid[0]|, _ => Air), seq(|grid[0]|, _ => Rock)]
  }

  /** Air lies above the floor row. */
  lemma AirAboveFloor(grid: Grid, x: int, y: int)
    requires Floored(grid) && IsAir(grid, x, y)
    ensures y + 1 < |grid|
  {
    assert grid[y][x] in grid[y];
  }

  /** A grain written above the floor row keeps the floor. */
  lemma PutKeepsFloor(grid: Grid, x: int, y: int, m: Material)
    requires Floored(grid) && y + 1 < |grid|
    ensures Floored(Put(grid, x, y, m))
  {
    assert Put(grid, x, y, m)[|grid| - 1] == grid[|grid| - 1];
  }

  /** Where the first '+' of the top row is, or -1. */
  function HoleOf(grid: Grid): (r: int)
    requires grid != []
    ensures r == -1 || (0 <= r < |grid[0]| && grid[0][r] == Hole)
  {
    FirstHole(grid[0], 0)
  }

  function FirstHole(row: seq<Material>, from: nat): (r: int)
    ensures r == -1 || (from <= r < |row| && row[r] == Hole)
    decreases |row| - from
  {
    if from >= |row| then -1 else if row[from] == Hole then from else FirstHole(row, from + 1)
  }

  // ----- one grain -----

  datatype Fall = Moved(x: int, y: nat) | Rests | Escapes

  /** One step of a grain that can fall into the abyss: down, then down
      left, then down right; off the bottom or the side it escapes. */
  function AbyssStep(grid: Grid, x: int, y: nat): (f: Fall)
    ensures f.Moved? ==> f.y == y + 1 < |grid| && IsAir(grid, f.x, f.y)
  {
    if y + 1 >= |grid| then Escapes
    else if IsAir(grid, x, y + 1) then Moved(x, y + 1)
    else if x - 1 < 0 || x + 1 >= |grid[0]| then Escapes
    else if IsAir(grid, x - 1, y + 1) then Moved(x - 1, y + 1)
    else if IsAir(grid, x + 1, y + 1) then Moved(x + 1, y + 1)
    else Rests
  }

  /** Where a grain at (x, y) comes to rest, or none when it escapes. */
  function SettleAbyss(grid: Grid, x: int, y: nat): Option<(int, nat)>
    decreases |grid| - y
  {
    match AbyssStep(grid, x, y)
    case Escapes => None
    case Rests => Some((x, y))
    case Moved(x', y') => SettleAbyss(grid, x', y')
  }

  /** A grain rests where it started or in a cell of air it fell into,
      and only where it cannot go down, down left or down right. */
  lemma {:induction false} SettleAbyssRest(grid: Grid, x: int, y: nat)
    requires SettleAbyss(grid, x, y).Some?
    ensures var (x', y') := SettleAbyss(grid, x, y).value;
      && (y' == y ==> x' == x) && y' >= y
      && (y' > y ==> IsAir(grid, x', y'))
      && y' + 1 < |grid| && !IsAir(grid, x', y' + 1)
      && !IsAir(grid, x' - 1, y' + 1) && !IsAir(grid, x' + 1, y' + 1)
    decreases |grid| - y
  {
    match AbyssStep(grid, x, y)
    case Rests =>
    case Moved(x1, y1) =>
      SettleAbyssRest(grid, x1, y1);
  }

  /** One step of a grain above the floor: down, then down left, then down
      right, else it rests. */
  function PlugStep(grid: Grid, x: int, y: nat): (f: Fall)
    requires y + 1 < |grid|
    ensures !f.Escapes? && (f.Moved? ==> f.y == y + 1 && IsAir(grid, f.x, f.y))
  {
    if IsAir(grid, x, y + 1) then Moved(x, y + 1)
    else if x - 1 >= 0 && IsAir(grid, x - 1, y + 1) then Moved(x - 1, y + 1)
    else if x + 1 < |grid[0]| && IsAir(grid, x + 1, y + 1) then Moved(x + 1, y + 1)
    else Rests
  }

  /** Where a grain at (x, y) comes to rest above the floor: where it
      started, or a cell of air it fell into. */
  function SettlePlug(grid: Grid, x: int, y: nat): (r: (int, nat))
    requires Floored(grid) && y + 1 < |grid|
    ensures r.1 >= y && r.1 + 1 < |grid|
    ensures r.1 == y ==> r.0 == x
    ensures r.1 > y ==> IsAir(grid, r.0, r.1)
    decreases |grid| - y
  {
    match PlugStep(grid, x, y)
    case Rests => (x, y)
    case Moved(x', y') =>
      AirAboveFloor(grid, x', y');
      SettlePlug(grid, x', y')
  }

  lemma {:induction false} SettlePlugRest(grid: Grid, x: int, y: nat)
    requires Floored(grid) && y + 1 < |grid|
    ensures var (x', y') := SettlePlug(grid, x, y);
      && !IsAir(grid, x', y' + 1)
      && !(x' - 1 >= 0 && IsAir(grid, x' - 1, y' + 1))
      && !(x' + 1 < |grid[0]| && IsAir(grid, x' + 1, y' + 1))
    decreases |grid| - y
  {
    match PlugStep(grid, x, y)
    case Rests =>
    case Moved(x1, y1) =>
      AirAboveFloor(grid, x1, y1);
      SettlePlugRest(grid, x1, y1);
  }

  // ----- pouring -----

  /** At most `fuel` grains poured into the cave that has an abyss: the
      final grid and whether a grain escaped. */
  function PourAbyss(grid: Grid, hole: int, fuel: nat): (Grid, bool)
    decreases fuel
  {
    if fuel == 0 then (grid, false)
    else match SettleAbyss(grid, hole, 0)
      case None => (grid, true)
      case Some((x, y)) => PourAbyss(Put(grid, x, y, Sand), hole, fuel - 1)
  }

  /** Grains poured onto the floor until one rests in the hole. */
  function PourPlug(grid: Grid, hole: int): (r: Grid)
    requires Floored(grid)
    ensures Floored(r)
    decreases CountCells(grid, Air)
  {
    var (x, y) := SettlePlug(grid, hole, 0);
    var grid' := Put(grid, x, y, Sand);
    PutKeepsFloor(grid, x, y, Sand);
    if y == 0 then grid'
    else
      PutCount(grid, x, y, Sand, Air);
      PourPlug(grid', hole)
  }

  /** The hole cell is never rock: a grain resting there cannot overwrite
      rock. */
  ghost predicate HoleOpen(grid: Grid, hole: int)
  {
    !IsRockCell(grid, hole, 0)
  }

  /** The cells kept by pouring: rock stays rock, sand stays sand, and the
      shape of the grid does not change. */
  ghost predicate Keeps(before: Grid, after: Grid)
  {
    && |after| == |before|
    && (forall y :: 0 <= y < |before| ==> |after[y]| == |before[y]|)
    && (forall y, x :: 0 <= y < |before| && 0 <= x < |before[y]| && before[y][x] == Rock ==> after[y][x] == Rock)
    && (forall y, x :: 0 <= y < |before| && 0 <= x < |before[y]| && before[y][x] == Sand ==> after[y][x] == Sand)
  }

  lemma KeepsTrans(a: Grid, b: Grid, c: Grid)
    requires Keeps(a, b) && Keeps(b, c)
    ensures Keeps(a, c)
  {
  }

  /** One grain written where it rests keeps rock and sand. */
  lemma RestKeeps(grid: Grid, hole: int, x: int, y: int)
    requires HoleOpen(grid, hole)
    requires (y == 0 && x == hole) || IsAir(grid, x, y)
    ensures Keeps(grid, Put(grid, x, y, Sand)) && HoleOpen(Put(grid, x, y, Sand), hole)
    ensures CountSand(Put(grid, x, y, Sand)) >= CountSand(grid)
  {
    if 0 <= y < |grid| && 0 <= x < |grid[y]| {
      PutCount(grid, x, y, Sand, Sand);
    }
  }

  /** Pouring into the abyss cave never overwrites rock or sand, so the
      number of grains never drops; when it stops, the next grain would
      escape. */
  lemma {:induction false} PourAbyssKeeps(grid: Grid, hole: int, fuel: nat)
    requires HoleOpen(grid, hole)
    ensures var (g, fell) := PourAbyss(grid, hole, fuel);
      && Keeps(grid, g) && CountSand(g) >= CountSand(grid)
      && (fell ==> SettleAbyss(g, hole, 0).None?)
    decreases fuel
  {
    if fuel > 0 {
      match SettleAbyss(grid, hole, 0)
      case None =>
      case Some((x, y)) =>
        SettleAbyssRest(grid, hole, 0);
        RestKeeps(grid, hole, x, y);
        PourAbyssKeeps(Put(grid, x, y, Sand), hole, fuel - 1);
        KeepsTrans(grid, Put(grid, x, y, Sand), PourAbyss(Put(grid, x, y, Sand), hole, fuel - 1).0);
    }
  }

  /** Pouring onto the floor never overwrites rock or sand, and it ends
      with a grain in the hole. */
  lemma {:induction false} PourPlugKeeps(grid: Grid, hole: int)
    requires Floored(grid) && HoleOpen(grid, hole)
    ensures var g := PourPlug(grid, hole);
      && Keeps(grid, g) && CountSand(g) >= CountSand(grid)
      && (0 <= hole < |grid[0]| ==> g[0][hole] == Sand)
    decreases CountCells(grid, Air)
  {
    var (x, y) := SettlePlug(grid, hole, 0);
    RestKeeps(grid, hole, x, y);
    var grid' := Put(grid, x, y, Sand);
    if y != 0 {
      PutCount(grid, x, y, Sand, Air);
      PutKeepsFloor(grid, x, y, Sand);
      PourPlugKeeps(grid', hole);
      KeepsTrans(grid, grid', PourPlug(grid', hole));
    }
  }

  // ----- the cave -----

  class Cave {
    var grid: Grid

    constructor(grid: Grid)
      ensures this.grid == grid
    {
      this.grid := grid;
    }

    /** `addFloor`: one row of air and one row of rock, as wide as the top
        row. */
    method AddFloor()
      requires grid != []
      modifies this
      ensures grid == WithFloor(old(grid))
    {
      var width := |grid[0]|;
      grid := grid + [seq(width, _ => Air)];
      grid := grid + [seq(width, _ => Rock)];
    }

    /** `dripSandUntilAbyss`, for at most `fuel` grains: the source stops
        only when a grain escapes, and pours forever once the hole is
        plugged. */
    method DripSandUntilAbyss(fuel: nat) returns (fell: bool)
      requires grid != []
      modifies this
      ensures (grid, fell) == PourAbyss(old(grid), HoleOf(old(grid)), fuel)
    {
      var hole := HoleOf(grid);
      var grains := 0;
      while grains < fuel
        invariant 0 <= grains <= fuel
        invariant PourAbyss(grid, hole, fuel - grains) == PourAbyss(old(grid), hole, fuel)
      {
        var x: int, y: nat := hole, 0;
        ghost var start := grid;
        while true
          invariant grid == start
          invariant SettleAbyss(grid, x, y) == SettleAbyss(grid, hole, 0)
          decreases |grid| - y
        {
          if y + 1 >= |grid| {
            return true;
          } else if IsAir(grid, x, y + 1) {
            y := y + 1;
          } else if x - 1 < 0 || x + 1 >= |grid[0]| {
            return true;
          } else if IsAir(grid, x - 1, y + 1) {
            x, y := x - 1, y + 1;
          } else if IsAir(grid, x + 1, y + 1) {
            x, y := x + 1, y + 1;
          } else {
            grid := Put(grid, x, y, Sand);
            break;
          }
        }
        grains := grains + 1;
      }
      return false;
    }

    /** `dripSandUntilPlugHole`: grains pour until one rests at the top. */
    method DripSandUntilPlugHole()
      requires Floored(grid)
      modifies this
      ensures grid == PourPlug(old(grid), HoleOf(old(grid)))
    {
      var hole := HoleOf(grid);
      while true
        invariant Floored(grid)
        invariant PourPlug(grid, hole) == PourPlug(old(grid), hole)
        decreases CountCells(grid, Air)
      {
        var x, y := RestingPlace(hole);
        var before := grid;
        PutKeepsFloor(grid, x, y, Sand);
        grid := Put(grid, x, y, Sand);
        if y == 0 {
          return;
        }
        PutCount(before, x, y, Sand, Air);
      }
    }

    /** The inner loop of `dripSandUntilPlugHole`: where the next grain
        from the hole comes to rest. */
    method RestingPlace(hole: int) returns (x: int, y: nat)
      requires Floored(grid)
      ensures y + 1 < |grid| && (x, y) == SettlePlug(grid, hole, 0)
    {
      x, y := hole, 0;
      while true
        invariant y + 1 < |grid|
        invariant SettlePlug(grid, x, y) == SettlePlug(grid, hole, 0)
        decreases |grid| - y
      {
        if IsAir(grid, x, y + 1) {
          y := y + 1;
        } else if x - 1 >= 0 && IsAir(grid, x - 1, y + 1) {
          x, y := x - 1, y + 1;
        } else if x + 1 < |grid[0]| && IsAir(grid, x + 1, y + 1) {
          x, y := x + 1, y + 1;
        } else {
          break;
        }
        AirAboveFloor(grid, x, y);
      }
    }
  }

  /** `part1`: the grains at rest once one escapes (when that happens
      within `fuel` grains). */
  method Part1(paths: seq<Path>, fuel: nat) returns (r: Result<nat>)
    ensures r.Success? <==>
      && HasDepth(paths) && AllDrawable(paths) && Max(Ys(paths)) != -1
      && PourAbyss(Drawn(paths), HoleOf(Drawn(paths)), fuel).1
    ensures r.Success? ==> r.value == CountSand(PourAbyss(Drawn(paths), HoleOf(Drawn(paths)), fuel).0)
  {
    var created := CreateGrid(paths);
    if created.Failure? {
      return Failure(created.message);
    }
    DrawnUnique(created.value, Height(paths), paths);
    if created.value == [] {
      return Failure("the grid has no top row");
    }
    var cave := new Cave(created.value);
    var fell := cave.DripSandUntilAbyss(fuel);
    if !fell {
      return Failure("no grain escaped within the fuel");
    }
    return Success(CountSand(cave.grid));
  }

  /** `part2`: the grains at rest once the hole is plugged, over a floor
      two rows below the lowest rock. */
  method Part2(paths: seq<Path>) returns (r: Result<nat>)
    ensures r.Success? <==> HasDepth(paths) && AllDrawable(paths) && Max(Ys(paths)) != -1
    ensures r.Success? ==>
      var floored := WithFloor(Drawn(paths));
      r.value == CountSand(PourPlug(floored, HoleOf(floored)))
  {
    var created := CreateGrid(paths);
    if created.Failure? {
      return Failure(created.message);
    }
    DrawnUnique(created.value, Height(paths), paths);
    if created.value == [] {
      return Failure("the grid has no top row");
    }
    var cave := new Cave(created.value);
    cave.AddFloor();
    cave.DripSandUntilPlugHole();
    return Success(CountSand(cave.grid));
  }
}
