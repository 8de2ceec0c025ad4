/** 2023 day 22: bricks of cubes fall until they rest on the ground or on
    other bricks. Part 1 counts the bricks that can be taken away without
    another falling; part 2 sums, over every brick, how many others fall
    when it is taken away. */
module Day2023_22 {
  import opened Common

  datatype Axis = X | Y | Z

  /** (x, y, z). */
  type Coordinate = (int, int, int)

  /** A brick: its name, its lowest-numbered cube, the axis it extends
    * along and how many cubes it has. */
  datatype Brick = Brick(name: string, start: Coordinate, direction: Axis, length: int)

  /** `drop`: the same brick one lower. */
  function Drop(brick: Brick): (r: Brick)
    ensures r.start == (brick.start.0, brick.start.1, brick.start.2 - 1)
    ensures r.(start := brick.start) == brick
  {
    Brick(brick.name, (brick.start.0, brick.start.1, brick.start.2 - 1), brick.direction, brick.length)
  }

  /** A coordinate moved `l` along an axis. */
  function Shift(c: Coordinate, axis: Axis, l: int): Coordinate
  {
    match axis
    case X => (c.0 + l, c.1, c.2)
    case Y => (c.0, c.1 + l, c.2)
    case Z => (c.0, c.1, c.2 + l)
  }

  /** `tiles`: the cubes of the brick; `times` of a negative length gives
    * none. */
  function Tiles(brick: Brick): seq<Coordinate>
  {
    Cubes(brick.start, brick.direction, brick.length)
  }

  /** The first `n` cubes from `start` along `axis`. */
  function Cubes(start: Coordinate, axis: Axis, n: int): seq<Coordinate>
    decreases if n > 0 then n else 0
  {
    if n <= 0 then [] else Cubes(start, axis, n - 1) + [Shift(start, axis, n - 1)]
  }

  /** Cube `l` is the start moved `l` along the axis. */
  lemma {:induction false} CubesMeaning(start: Coordinate, axis: Axis, n: int)
    ensures |Cubes(start, axis, n)| == if n > 0 then n else 0
    ensures forall l :: 0 <= l < |Cubes(start, axis, n)| ==> Cubes(start, axis, n)[l] == Shift(start, axis, l)
    decreases if n > 0 then n else 0
  {
    if n > 0 {
      CubesMeaning(start, axis, n - 1);
    }
  }

  /** `bottomTiles`: the start alone for an upright brick, else all its
    * cubes. */
  function BottomTiles(brick: Brick): seq<Coordinate>
  {
    if brick.direction == Z then [brick.start] else Tiles(brick)
  }

  /** A brick has `length` distinct cubes along its direction, none lower
    * than its bottom cubes, and every bottom cube is one of them. */
  lemma TilesMeaning(brick: Brick)
    requires brick.length >= 1
    ensures |Tiles(brick)| == brick.length
    ensures forall i, j :: 0 <= i < j < |Tiles(brick)| ==> Tiles(brick)[i] != Tiles(brick)[j]
    ensures forall t :: t in BottomTiles(brick) ==> t in Tiles(brick)
    ensures forall t, b :: t in Tiles(brick) && b in BottomTiles(brick) ==> t.2 >= b.2
  {
    CubesMeaning(brick.start, brick.direction, brick.length);
    var tiles := Tiles(brick);
    assert tiles[0] == brick.start;
    forall t, b | t in tiles && b in BottomTiles(brick)
      ensures t.2 >= b.2
    {
      var i :| 0 <= i < |tiles| && tiles[i] == t;
      if brick.direction != Z {
        var j :| 0 <= j < |tiles| && tiles[j] == b;
      }
    }
  }

  // ---------------------------------------------------------------------------
  // getBrickName
  // ---------------------------------------------------------------------------

  /** A base-26 digit, 'A' to 'Z'. */
  function Digit(d: int): char
    requires 0 <= d < 26
  {
    (65 + d) as char
  }

  /** The name of the brick at index `idx`: its base-26 digits, most
    * significant first. */
  function BrickName(idx: nat): (name: string)
    ensures |name| >= 1 && forall k :: 0 <= k < |name| ==> 'A' <= name[k] <= 'Z'
  {
    if idx < 26 then [Digit(idx)] else BrickName(idx / 26) + [Digit(idx % 26)]
  }

  /** `getBrickName`: the `while (true)` loop putting digits in front
    * until the index is used up. */
  method GetBrickName(idx: nat) returns (name: string)
    ensures name == BrickName(idx)
  {
    name := "";
    var rest := idx;
    while true
      invariant BrickName(idx) == BrickName(rest) + name
      decreases rest
    {
      var modulo := rest % 26;
      name := [Digit(modulo)] + name;
      rest := (rest - modulo) / 26;
      if rest == 0 {
        return;
      }
    }
  }

  /** The index a name spells in base 26. */
  function Decode(name: string): int
  {
    if name == [] then 0 else 26 * Decode(name[..|name| - 1]) + (name[|name| - 1] as int - 65)
  }

  /** Reading the digits back gives the index. */
  lemma {:induction false} NameRoundTrip(idx: nat)
    ensures Decode(BrickName(idx)) == idx
  {
    var name := BrickName(idx);
    if idx < 26 {
      assert name[..0] == [];
    } else {
      NameRoundTrip(idx / 26);
      assert name[..|name| - 1] == BrickName(idx / 26);
    }
  }

  /** Distinct indices give distinct names. */
  lemma NamesDistinct(i: nat, j: nat)
    requires i != j
    ensures BrickName(i) != BrickName(j)
  {
    NameRoundTrip(i);
    NameRoundTrip(j);
  }

  // ---------------------------------------------------------------------------
  // loadInput
  // ---------------------------------------------------------------------------

  /** The brick from line `idx` with its two ends: upright when x and y
    * agree, along y when x and z agree, else along x. */
  function MakeBrick(idx: nat, start: Coordinate, end: Coordinate): (brick: Brick)
    ensures brick.name == BrickName(idx) && brick.start == start
    ensures brick.direction == Z ==> end.0 == start.0 && end.1 == start.1
    ensures brick.direction == Y ==> end.0 == start.0 && end.2 == start.2
    ensures brick.length > 0 ==> |Tiles(brick)| == brick.length
    ensures brick.length > 0 ==> Tiles(brick)[brick.length - 1] == (if brick.direction == X then (end.0, start.1, start.2) else end)
  {
    var diff := (end.0 - start.0, end.1 - start.1, end.2 - start.2);
    var brick :=
      if diff.0 == 0 && diff.1 == 0 then Brick(BrickName(idx), start, Z, diff.2 + 1)
      else if diff.0 == 0 && diff.2 == 0 then Brick(BrickName(idx), start, Y, diff.1 + 1)
      else Brick(BrickName(idx), start, X, diff.0 + 1);
    CubesMeaning(brick.start, brick.direction, brick.length);
    brick
  }

  // ---------------------------------------------------------------------------
  // gravity
  // ---------------------------------------------------------------------------

  /** The names of the bricks a brick rests on and of those resting on
    * it. */
  datatype Info = Info(supporting: set<string>, supportedBy: set<string>)

  type Infos = map<string, Info>

  /** The occupied cells and the brick in each. */
  type Grid = map<Coordinate, string>

  /** Every name mentioned is a brick's. */
  ghost predicate Closed(infos: Infos)
  {
    forall a :: a in infos ==> infos[a].supporting <= infos.Keys && infos[a].supportedBy <= infos.Keys
  }

  /** Support is recorded in both directions. */
  ghost predicate Symmetric(infos: Infos)
  {
    forall a, b :: a in infos && b in infos ==> (b in infos[a].supporting <==> a in infos[b].supportedBy)
  }

  /** Every occupied cell holds a brick's name. */
  ghost predicate Named(grid: Grid, infos: Infos)
  {
    forall c :: c in grid ==> grid[c] in infos
  }

  ghost predicate Inv(grid: Grid, infos: Infos)
  {
    Named(grid, infos) && Closed(infos) && Symmetric(infos)
  }

  /** The two `add`s for a contact: `contact` supports `name`. */
  function AddSupport(infos: Infos, name: string, contact: string): (r: Infos)
    requires name in infos && contact in infos
    ensures r.Keys == infos.Keys
    ensures contact in r[name].supportedBy && name in r[contact].supporting
  {
    var infos' := infos[name := infos[name].(supportedBy := infos[name].supportedBy + {contact})];
    infos'[contact := infos'[contact].(supporting := infos'[contact].supporting + {name})]
  }

  /** Recording a contact both ways keeps support symmetric and names only
    * bricks. */
  lemma AddSupportInv(infos: Infos, name: string, contact: string)
    requires name in infos && contact in infos && Closed(infos) && Symmetric(infos)
    ensures Closed(AddSupport(infos, name, contact)) && Symmetric(AddSupport(infos, name, contact))
  {
    var r := AddSupport(infos, name, contact);
    forall a, b | a in r && b in r
      ensures b in r[a].supporting <==> a in r[b].supportedBy
    {
      assert b in infos[a].supporting <==> a in infos[b].supportedBy;
    }
  }

  /** The scan of the bottom cubes one lower: a cube at z = 0 lands the
    * brick and ends the scan; a cube in an occupied cell lands it and
    * records the contact. */
  function Scan(grid: Grid, infos: Infos, name: string, tiles: seq<Coordinate>): (r: (bool, Infos))
    requires name in infos && Named(grid, infos)
    ensures r.1.Keys == infos.Keys
    decreases |tiles|
  {
    if tiles == [] then (false, infos)
    else if tiles[0].2 == 0 then (true, infos)
    else
      var contact := tiles[0] in grid;
      var infos' := if contact then AddSupport(infos, name, grid[tiles[0]]) else infos;
      var scan := Scan(grid, infos', name, tiles[1..]);
      (contact || scan.0, scan.1)
  }

  lemma {:induction false} ScanInv(grid: Grid, infos: Infos, name: string, tiles: seq<Coordinate>)
    requires name in infos && Named(grid, infos) && Closed(infos) && Symmetric(infos)
    ensures Closed(Scan(grid, infos, name, tiles).1) && Symmetric(Scan(grid, infos, name, tiles).1)
    decreases |tiles|
  {
    if tiles != [] && tiles[0].2 != 0 {
      if tiles[0] in grid {
        AddSupportInv(infos, name, grid[tiles[0]]);
      }
      var infos' := if tiles[0] in grid then AddSupport(infos, name, grid[tiles[0]]) else infos;
      ScanInv(grid, infos', name, tiles[1..]);
    }
  }

  /** The brick lands exactly when one of the cubes scanned is at z = 0 or
    * in an occupied cell. */
  lemma {:induction false} ScanLanded(grid: Grid, infos: Infos, name: string, tiles: seq<Coordinate>)
    requires name in infos && Named(grid, infos)
    ensures Scan(grid, infos, name, tiles).0 <==> exists k :: 0 <= k < |tiles| && (tiles[k].2 == 0 || tiles[k] in grid)
    decreases |tiles|
  {
    if tiles != [] && tiles[0].2 != 0 {
      var infos' := if tiles[0] in grid then AddSupport(infos, name, grid[tiles[0]]) else infos;
      ScanLanded(grid, infos', name, tiles[1..]);
      if exists k :: 0 <= k < |tiles| && (tiles[k].2 == 0 || tiles[k] in grid) {
        var k :| 0 <= k < |tiles| && (tiles[k].2 == 0 || tiles[k] in grid);
        if k > 0 {
          assert tiles[1..][k - 1] == tiles[k];
        }
      }
    }
  }

  /** The scan keeps every support already recorded. */
  lemma {:induction false} ScanGrows(grid: Grid, infos: Infos, name: string, tiles: seq<Coordinate>)
    requires name in infos && Named(grid, infos)
    ensures forall a :: a in infos ==>
      infos[a].supporting <= Scan(grid, infos, name, tiles).1[a].supporting
      && infos[a].supportedBy <= Scan(grid, infos, name, tiles).1[a].supportedBy
    decreases |tiles|
  {
    if tiles != [] && tiles[0].2 != 0 {
      var infos' := if tiles[0] in grid then AddSupport(infos, name, grid[tiles[0]]) else infos;
      ScanGrows(grid, infos', name, tiles[1..]);
    }
  }

  /** Every occupied cell met before a cube at z = 0 becomes a support of
    * the brick, recorded both ways. */
  lemma {:induction false} ScanSupports(grid: Grid, infos: Infos, name: string, tiles: seq<Coordinate>, k: nat)
    requires name in infos && Named(grid, infos)
    requires k < |tiles| && tiles[k] in grid && forall j :: 0 <= j <= k ==> tiles[j].2 != 0
    ensures var infos' := Scan(grid, infos, name, tiles).1;
      grid[tiles[k]] in infos'[name].supportedBy && name in infos'[grid[tiles[k]]].supporting
    decreases |tiles|
  {
    var infos' := if tiles[0] in grid then AddSupport(infos, name, grid[tiles[0]]) else infos;
    if k == 0 {
      ScanGrows(grid, infos', name, tiles[1..]);
    } else {
      ScanSupports(grid, infos', name, tiles[1..], k - 1);
    }
  }

  /** The `for ... break` loop over the bottom cubes. */
  method ScanTiles(grid: Grid, infos: Infos, name: string, tiles: seq<Coordinate>) returns (landed: bool, infos': Infos)
    requires name in infos && Named(grid, infos)
    ensures (landed, infos') == Scan(grid, infos, name, tiles)
  {
    landed := false;
    infos' := infos;
    for i := 0 to |tiles|
      invariant name in infos' && infos'.Keys == infos.Keys
      invariant Scan(grid, infos, name, tiles) == (landed || Scan(grid, infos', name, tiles[i..]).0, Scan(grid, infos', name, tiles[i..]).1)
    {
      var tile := tiles[i];
      assert tiles[i..][1..] == tiles[i + 1..];
      if tile.2 == 0 {
        landed := true;
        break;
      } else if tile in grid {
        var contact := grid[tile];
        landed := true;
        infos' := AddSupport(infos', name, contact);
      }
    }
  }

  /** The brick's name written into its cubes. */
  function Place(grid: Grid, tiles: seq<Coordinate>, name: string): Grid
  {
    if tiles == [] then grid
    else Place(grid, tiles[..|tiles| - 1], name)[tiles[|tiles| - 1] := name]
  }

  /** Placing adds exactly the brick's cubes, holding its name, and leaves
    * every other cell as it was. */
  lemma {:induction false} PlaceMeaning(grid: Grid, tiles: seq<Coordinate>, name: string)
    ensures Place(grid, tiles, name).Keys == grid.Keys + set t | t in tiles
    ensures forall c :: c in Place(grid, tiles, name) ==>
      Place(grid, tiles, name)[c] == if c in tiles then name else grid[c]
  {
    if tiles != [] {
      var n := |tiles| - 1;
      PlaceMeaning(grid, tiles[..n], name);
      assert forall c :: c in tiles <==> c in tiles[..n] || c == tiles[n];
    }
  }

  /** The loop setting the brick's cubes in the grid. */
  method PlaceTiles(grid: Grid, tiles: seq<Coordinate>, name: string) returns (grid': Grid)
    ensures grid' == Place(grid, tiles, name)
  {
    grid' := grid;
    for i := 0 to |tiles|
      invariant grid' == Place(grid, tiles[..i], name)
    {
      assert tiles[..i + 1][..i] == tiles[..i];
      grid' := grid'[tiles[i] := name];
    }
    assert tiles[..|tiles|] == tiles;
  }

  /** One brick of a round: it lands where it is and is placed, or moves
    * on one lower. */
  function Step(grid: Grid, infos: Infos, still: seq<Brick>, brick: Brick): (r: (Grid, Infos, seq<Brick>))
    requires brick.name in infos && Named(grid, infos)
    ensures r.1.Keys == infos.Keys && Named(r.0, r.1)
    ensures r.2 == still || r.2 == still + [Drop(brick)]
  {
    var scan := Scan(grid, infos, brick.name, BottomTiles(Drop(brick)));
    if scan.0 then
      PlaceMeaning(grid, Tiles(brick), brick.name);
      (Place(grid, Tiles(brick), brick.name), scan.1, still)
    else (grid, scan.1, still + [Drop(brick)])
  }

  lemma StepInv(grid: Grid, infos: Infos, still: seq<Brick>, brick: Brick)
    requires brick.name in infos && Inv(grid, infos)
    ensures var r := Step(grid, infos, still, brick); Inv(r.0, r.1)
  {
    ScanInv(grid, infos, brick.name, BottomTiles(Drop(brick)));
  }

  /** The names of the bricks. */
  function Names(bricks: seq<Brick>): set<string>
  {
    set k | 0 <= k < |bricks| :: bricks[k].name
  }

  /** Every brick of `bricks` has an entry in `infos`. */
  ghost predicate Known(bricks: seq<Brick>, infos: Infos)
  {
    forall k :: 0 <= k < |bricks| ==> bricks[k].name in infos
  }

  /** One round over the falling bricks, in order: what lands is placed,
    * the rest moves one lower. */
  function Fall(grid: Grid, infos: Infos, falling: seq<Brick>): (r: (Grid, Infos, seq<Brick>))
    requires Known(falling, infos) && Named(grid, infos)
    ensures r.1.Keys == infos.Keys && Named(r.0, r.1) && Known(r.2, r.1)
  {
    if falling == [] then (grid, infos, [])
    else
      var n := |falling| - 1;
      assert Known(falling[..n], infos) by {
        forall k | 0 <= k < n
          ensures falling[..n][k].name in infos
        {
          assert falling[..n][k] == falling[k];
        }
      }
      var round := Fall(grid, infos, falling[..n]);
      Step(round.0, round.1, round.2, falling[n])
  }

  /** A round keeps support symmetric and names only bricks. */
  lemma {:induction false} FallInv(grid: Grid, infos: Infos, falling: seq<Brick>)
    requires Known(falling, infos) && Inv(grid, infos)
    ensures var r := Fall(grid, infos, falling); Inv(r.0, r.1)
  {
    if falling != [] {
      var n := |falling| - 1;
      assert Known(falling[..n], infos) by {
        forall k | 0 <= k < n
          ensures falling[..n][k].name in infos
        {
          assert falling[..n][k] == falling[k];
        }
      }
      FallInv(grid, infos, falling[..n]);
      var round := Fall(grid, infos, falling[..n]);
      StepInv(round.0, round.1, round.2, falling[n]);
    }
  }

  /** The `for` loop of a round. */
  method FallRound(grid: Grid, infos: Infos, falling: seq<Brick>) returns (grid': Grid, infos': Infos, still: seq<Brick>)
    requires Known(falling, infos) && Named(grid, infos)
    ensures (grid', infos', still) == Fall(grid, infos, falling)
  {
    grid', infos', still := grid, infos, [];
    for i := 0 to |falling|
      invariant (grid', infos', still) == Fall(grid, infos, falling[..i])
    {
      var brick := falling[i];
      ghost var prefix := falling[..i + 1];
      assert prefix[..i] == falling[..i];
      assert Known(prefix, infos) by {
        forall k | 0 <= k < |prefix|
          ensures prefix[k].name in infos
        {
          assert prefix[k] == falling[k];
        }
      }
      var nextPosition := Drop(brick);
      var landed, scanned := ScanTiles(grid', infos', brick.name, BottomTiles(nextPosition));
      infos' := scanned;
      if landed {
        grid' := PlaceTiles(grid', Tiles(brick), brick.name);
      } else {
        still := still + [nextPosition];
      }
    }
    assert falling[..|falling|] == falling;
  }

  /** Rounds until nothing falls, at most `fuel` of them: a brick below
    * z = 1 that meets nothing falls for ever. */
  function Settle(grid: Grid, infos: Infos, falling: seq<Brick>, fuel: nat): (r: Result<Infos>)
    requires Known(falling, infos) && Named(grid, infos)
    decreases fuel
  {
    if falling == [] then Success(infos)
    else if fuel == 0 then Failure("still falling")
    else
      var round := Fall(grid, infos, falling);
      Settle(round.0, round.1, round.2, fuel - 1)
  }

  /** A round of settling, unfolded. */
  lemma SettleRound(grid: Grid, infos: Infos, falling: seq<Brick>, fuel: nat)
    requires Known(falling, infos) && Named(grid, infos) && falling != [] && fuel > 0
    ensures var round := Fall(grid, infos, falling);
      Settle(grid, infos, falling, fuel) == Settle(round.0, round.1, round.2, fuel - 1)
  {
  }

  /** Settling keeps the bricks' names. */
  lemma {:induction false} SettleKeys(grid: Grid, infos: Infos, falling: seq<Brick>, fuel: nat)
    requires Known(falling, infos) && Named(grid, infos)
    ensures Settle(grid, infos, falling, fuel).Success? ==> Settle(grid, infos, falling, fuel).value.Keys == infos.Keys
    decreases fuel
  {
    if falling != [] && fuel > 0 {
      var round := Fall(grid, infos, falling);
      SettleRound(grid, infos, falling, fuel);
      SettleKeys(round.0, round.1, round.2, fuel - 1);
    }
  }

  /** From a consistent start, settling records support both ways and
    * names only bricks. */
  lemma {:induction false} SettleInv(grid: Grid, infos: Infos, falling: seq<Brick>, fuel: nat)
    requires Known(falling, infos) && Inv(grid, infos)
    ensures var r := Settle(grid, infos, falling, fuel); r.Success? ==> Closed(r.value) && Symmetric(r.value)
    decreases fuel
  {
    if falling != [] && fuel > 0 {
      FallInv(grid, infos, falling);
      var round := Fall(grid, infos, falling);
      SettleRound(grid, infos, falling, fuel);
      SettleInv(round.0, round.1, round.2, fuel - 1);
    }
  }

  /** Every brick named, with no supports yet. */
  function Initial(bricks: seq<Brick>): (infos: Infos)
    ensures infos.Keys == Names(bricks) && Known(bricks, infos) && Closed(infos) && Symmetric(infos)
  {
    assert forall k :: 0 <= k < |bricks| ==> bricks[k].name in Names(bricks);
    map name | name in Names(bricks) :: Info({}, {})
  }

  /** `gravity` with at most `fuel` rounds: the support relation of the
    * settled bricks, recorded both ways, naming only bricks. */
  function Gravity(bricks: seq<Brick>, fuel: nat): (r: Result<Infos>)
    ensures r.Success? ==> r.value.Keys == Names(bricks) && Closed(r.value) && Symmetric(r.value)
  {
    SettleKeys(map[], Initial(bricks), bricks, fuel);
    SettleInv(map[], Initial(bricks), bricks, fuel);
    Settle(map[], Initial(bricks), bricks, fuel)
  }

  /** `gravity`: the `while` loop of rounds. */
  method GravityLoop(bricks: seq<Brick>, fuel: nat) returns (r: Result<Infos>)
    ensures r == Gravity(bricks, fuel)
  {
    var grid: Grid := map[];
    var infos := Initial(bricks);
    var fallingBricks := bricks;
    var left := fuel;
    ghost var settled := Settle(grid, infos, fallingBricks, left);
    assert Gravity(bricks, fuel) == settled;
    while fallingBricks != []
      invariant Known(fallingBricks, infos) && Named(grid, infos)
      invariant settled == Settle(grid, infos, fallingBricks, left)
      decreases left
    {
      if left == 0 {
        return Failure("still falling");
      }
      SettleRound(grid, infos, fallingBricks, left);
      var stillFallingBricks;
      grid, infos, stillFallingBricks := FallRound(grid, infos, fallingBricks);
      fallingBricks := stillFallingBricks;
      left := left - 1;
    }
    return Success(infos);
  }

  // ---------------------------------------------------------------------------
  // isRemovable and getChainLength
  // ---------------------------------------------------------------------------

  /** `isRemovable`: no brick it supports has it as its only support. */
  predicate IsRemovable(name: string, infos: Infos)
    requires name in infos && Closed(infos)
  {
    !exists other :: other in infos[name].supporting && |infos[other].supportedBy| == 1
  }

  /** A brick can go exactly when every brick resting on it rests on some
    * other brick too. */
  lemma RemovableMeaning(name: string, infos: Infos)
    requires name in infos && Closed(infos) && Symmetric(infos)
    ensures IsRemovable(name, infos) <==>
      forall other :: other in infos[name].supporting ==> exists s :: s in infos[other].supportedBy && s != name
  {
    forall other | other in infos[name].supporting
      ensures |infos[other].supportedBy| == 1 <==> !exists s :: s in infos[other].supportedBy && s != name
    {
      var supporters := infos[other].supportedBy;
      assert name in supporters;
      if |supporters| == 1 {
        forall s | s in supporters
          ensures s == name
        {
          if s != name {
            assert {name, s} <= supporters;
            assert |{name, s}| == 2;
            SubsetCard({name, s}, supporters);
          }
        }
      } else {
        var others := supporters - {name};
        assert |others| == |supporters| - 1;
        var s :| s in others;
      }
    }
  }

  lemma SubsetCard(a: set<string>, b: set<string>)
    requires a <= b
    ensures |a| <= |b|
  {
    assert b == a + (b - a);
  }

  /** The removed set of `getChainLength`: the brick itself; every other
    * member rests on a removed brick and has all its supports removed; and
    * any brick resting on removed bricks only is removed too. */
  ghost predicate IsChain(brick: string, infos: Infos, removed: set<string>)
  {
    && brick in removed && removed <= infos.Keys
    && (forall x :: x in removed && x != brick ==>
          infos[x].supportedBy <= removed && exists y :: y in removed && x in infos[y].supporting)
    && (forall x, next :: x in removed && next in infos[x].supporting && next in infos && infos[next].supportedBy <= removed ==> next in removed)
  }

  /** The inner loop of `getChainLength`: every brick resting on `current`
    * whose supports are all removed is pushed, in the set's order. */
  method PushReady(infos: Infos, current: string, removed: set<string>, stack: seq<string>) returns (stack': seq<string>)
    requires current in infos && Closed(infos)
    ensures Pushed(infos, current, removed, stack, stack')
  {
    stack' := stack;
    var todo := infos[current].supporting;
    while todo != {}
      invariant todo <= infos[current].supporting
      invariant |stack'| >= |stack| && stack'[..|stack|] == stack
      invariant forall k :: |stack| <= k < |stack'| ==>
        stack'[k] in infos[current].supporting && infos[stack'[k]].supportedBy <= removed
      invariant forall next :: next in infos[current].supporting - todo && infos[next].supportedBy <= removed ==> next in stack'
      decreases todo
    {
      var next :| next in todo;
      todo := todo - {next};
      var supportedBy := infos[next].supportedBy;
      if supportedBy <= removed {
        stack' := stack' + [next];
      }
    }
  }

  /** A brick may be taken away: it is the brick itself, or it rests on a
    * removed brick and all its supports are removed. */
  ghost predicate Justified(brick: string, infos: Infos, x: string, removed: set<string>)
  {
    x == brick || (x in infos && infos[x].supportedBy <= removed && exists y :: y in removed && y in infos && x in infos[y].supporting)
  }

  /** The loop's invariant: the removed and stacked bricks are justified,
    * and a brick whose supports are all removed and that rests on a
    * removed brick is removed or waiting on the stack. */
  ghost predicate Progress(brick: string, infos: Infos, removed: set<string>, stack: seq<string>)
  {
    && removed <= infos.Keys && (forall k :: 0 <= k < |stack| ==> stack[k] in infos)
    && (brick in removed || stack == [brick])
    && (forall x :: x in removed ==> Justified(brick, infos, x, removed))
    && (forall k :: 0 <= k < |stack| ==> Justified(brick, infos, stack[k], removed))
    && (forall x, next :: x in removed && next in infos[x].supporting && next in infos && infos[next].supportedBy <= removed ==>
          next in removed || next in stack)
  }

  lemma JustifiedGrows(brick: string, infos: Infos, x: string, removed: set<string>, more: set<string>)
    requires Justified(brick, infos, x, removed) && removed <= more
    ensures Justified(brick, infos, x, more)
  {
    if x != brick {
      var y :| y in removed && y in infos && x in infos[y].supporting;
      assert y in more;
    }
  }

  /** What pushing the bricks resting on `current` that are ready gives:
    * `rest` followed by ready bricks, and every ready brick among them. */
  ghost predicate Pushed(infos: Infos, current: string, removed: set<string>, rest: seq<string>, stack: seq<string>)
    requires current in infos && Closed(infos)
  {
    && |stack| >= |rest| && stack[..|rest|] == rest
    && (forall k :: |rest| <= k < |stack| ==> stack[k] in infos[current].supporting && infos[stack[k]].supportedBy <= removed)
    && (forall next :: next in infos[current].supporting && infos[next].supportedBy <= removed ==> next in stack)
  }

  /** One round keeps every removed and stacked brick justified. */
  lemma ChainStepJustified(brick: string, infos: Infos, removed: set<string>, stack: seq<string>, stack': seq<string>)
    requires Closed(infos) && Progress(brick, infos, removed, stack) && stack != []
    requires Pushed(infos, stack[0], removed + {stack[0]}, stack[1..], stack')
    ensures forall x :: x in removed + {stack[0]} ==> Justified(brick, infos, x, removed + {stack[0]})
    ensures forall k :: 0 <= k < |stack'| ==> stack'[k] in infos && Justified(brick, infos, stack'[k], removed + {stack[0]})
  {
    var current, removed', rest := stack[0], removed + {stack[0]}, stack[1..];
    forall x | x in removed'
      ensures Justified(brick, infos, x, removed')
    {
      JustifiedGrows(brick, infos, x, removed, removed');
    }
    forall k | 0 <= k < |stack'|
      ensures stack'[k] in infos && Justified(brick, infos, stack'[k], removed')
    {
      if k < |rest| {
        assert stack'[k] == stack[k + 1];
        JustifiedGrows(brick, infos, stack'[k], removed, removed');
      } else {
        assert current in removed';
      }
    }
  }

  /** One round keeps every ready brick resting on a removed one removed or
    * stacked. */
  lemma ChainStepReady(brick: string, infos: Infos, removed: set<string>, stack: seq<string>, stack': seq<string>)
    requires Closed(infos) && Symmetric(infos) && Progress(brick, infos, removed, stack) && stack != []
    requires Pushed(infos, stack[0], removed + {stack[0]}, stack[1..], stack')
    ensures forall x, next :: x in removed + {stack[0]} && next in infos[x].supporting && next in infos && infos[next].supportedBy <= removed + {stack[0]} ==>
      next in removed + {stack[0]} || next in stack'
  {
    var current, removed', rest := stack[0], removed + {stack[0]}, stack[1..];
    forall x, next | x in removed' && next in infos[x].supporting && next in infos && infos[next].supportedBy <= removed'
      ensures next in removed' || next in stack'
    {
      if x == current || current in infos[next].supportedBy {
        assert next in infos[current].supporting;
      } else {
        assert x in removed && infos[next].supportedBy <= removed;
        assert next in removed || next in stack;
        if next !in removed && next != current {
          var k :| 0 <= k < |stack| && stack[k] == next;
          assert stack'[k - 1] == rest[k - 1];
        }
      }
    }
  }

  /** One round of the loop keeps its invariant. */
  lemma ChainStep(brick: string, infos: Infos, removed: set<string>, stack: seq<string>, stack': seq<string>)
    requires Closed(infos) && Symmetric(infos) && Progress(brick, infos, removed, stack) && stack != []
    requires Pushed(infos, stack[0], removed + {stack[0]}, stack[1..], stack')
    ensures Progress(brick, infos, removed + {stack[0]}, stack')
  {
    ChainStepJustified(brick, infos, removed, stack, stack');
    ChainStepReady(brick, infos, removed, stack, stack');
  }

  /** With the stack empty the removed set is a chain. */
  lemma ChainDone(brick: string, infos: Infos, removed: set<string>)
    requires Progress(brick, infos, removed, [])
    ensures IsChain(brick, infos, removed)
  {
    forall x | x in removed && x != brick
      ensures infos[x].supportedBy <= removed && exists y :: y in removed && x in infos[y].supporting
    {
      assert Justified(brick, infos, x, removed);
    }
  }

  /** `getChainLength`: the worklist loop, taking at most `fuel` bricks off
    * the stack; on success the count is the size of a removed set that is
    * a chain as `IsChain` says. */
  method GetChainLength(brick: string, infos: Infos, fuel: nat) returns (r: Result<nat>)
    requires brick in infos && Closed(infos) && Symmetric(infos)
    ensures r.Success? ==> exists removed :: r.value == |removed| && IsChain(brick, infos, removed)
  {
    var removed: set<string> := {};
    var stack := [brick];
    var left := fuel;
    while stack != []
      invariant Progress(brick, infos, removed, stack)
      decreases left
    {
      if left == 0 {
        return Failure("out of fuel");
      }
      left := left - 1;
      var current := stack[0];
      var rest := stack[1..];
      var pushed := PushReady(infos, current, removed + {current}, rest);
      ChainStep(brick, infos, removed, stack, pushed);
      removed := removed + {current};
      stack := pushed;
    }
    ChainDone(brick, infos, removed);
    return Success(|removed|);
  }

  // ---------------------------------------------------------------------------
  // Parts 1 and 2
  // ---------------------------------------------------------------------------

  /** The bricks, in order, that `isRemovable` keeps, counted. */
  function RemovableCount(bricks: seq<Brick>, infos: Infos): (count: nat)
    requires Closed(infos) && forall k :: 0 <= k < |bricks| ==> bricks[k].name in infos
    ensures count <= |bricks|
  {
    if bricks == [] then 0
    else
      var last := bricks[|bricks| - 1];
      RemovableCount(bricks[..|bricks| - 1], infos) + if IsRemovable(last.name, infos) then 1 else 0
  }

  /** Part 1: the bricks that can be taken away once settled. */
  method Part1(bricks: seq<Brick>, fuel: nat) returns (r: Result<nat>)
    ensures r.Failure? <==> Gravity(bricks, fuel).Failure?
    ensures r.Success? ==> r.value == RemovableCount(bricks, Gravity(bricks, fuel).value)
  {
    var settled := GravityLoop(bricks, fuel);
    if settled.Failure? {
      return Failure(settled.message);
    }
    var infos := settled.value;
    assert forall k :: 0 <= k < |bricks| ==> bricks[k].name in Names(bricks);
    return Success(RemovableCount(bricks, infos));
  }

  /** `chains[k]` is a chain of brick `k`, for the first bricks. */
  ghost predicate Chains(bricks: seq<Brick>, infos: Infos, chains: seq<set<string>>)
  {
    |chains| <= |bricks| && forall k :: 0 <= k < |chains| ==> IsChain(bricks[k].name, infos, chains[k])
  }

  lemma ChainsStep(bricks: seq<Brick>, infos: Infos, chains: seq<set<string>>, removed: set<string>)
    requires Chains(bricks, infos, chains) && |chains| < |bricks| && IsChain(bricks[|chains|].name, infos, removed)
    ensures Chains(bricks, infos, chains + [removed])
  {
  }

  /** The loop of part 2 over settled bricks: each chain size is that of a
    * removed set that is a chain. */
  method SumChains(bricks: seq<Brick>, infos: Infos, fuel: nat) returns (r: Result<int>)
    requires Known(bricks, infos) && Closed(infos) && Symmetric(infos)
    ensures r.Success? ==> exists chains: seq<set<string>> ::
      && |chains| == |bricks| && Chains(bricks, infos, chains)
      && r.value == Sum(seq(|bricks|, k requires 0 <= k < |bricks| => |chains[k]| - 1))
  {
    var values: seq<int> := [];
    ghost var chains: seq<set<string>> := [];
    for i := 0 to |bricks|
      invariant |chains| == |values| == i
      invariant Chains(bricks, infos, chains)
      invariant forall k :: 0 <= k < i ==> values[k] == |chains[k]| - 1
    {
      var length := GetChainLength(bricks[i].name, infos, fuel);
      if length.Failure? {
        return Failure(length.message);
      }
      ghost var removed :| length.value == |removed| && IsChain(bricks[i].name, infos, removed);
      ChainsStep(bricks, infos, chains, removed);
      chains := chains + [removed];
      values := values + [length.value - 1];
    }
    assert values == seq(|bricks|, k requires 0 <= k < |bricks| => |chains[k]| - 1);
    return Success(Sum(values));
  }

  /** Part 2: for every brick, the others its chain takes away, summed. */
  method Part2(bricks: seq<Brick>, fuel: nat) returns (r: Result<int>)
    ensures Gravity(bricks, fuel).Failure? ==> r.Failure?
    ensures r.Success? ==> Gravity(bricks, fuel).Success? && exists chains: seq<set<string>> ::
      && |chains| == |bricks| && Chains(bricks, Gravity(bricks, fuel).value, chains)
      && r.value == Sum(seq(|bricks|, k requires 0 <= k < |bricks| => |chains[k]| - 1))
  {
    var settled := GravityLoop(bricks, fuel);
    if settled.Failure? {
      return Failure(settled.message);
    }
    assert Known(bricks, settled.value) by {
      forall k | 0 <= k < |bricks|
        ensures bricks[k].name in settled.value
      {
        assert bricks[k].name in Names(bricks);
      }
    }
    r := SumChains(bricks, settled.value, fuel);
  }

  /** Every chain holds its own brick, so no term of part 2 is negative. */
  lemma ChainCounts(brick: string, infos: Infos, removed: set<string>)
    requires IsChain(brick, infos, removed)
    ensures |removed| - 1 >= 0
  {
    assert brick in removed;
  }
}
