/** 2022 day 18: a droplet of lava is a set of unit cubes. Part 1 counts
    the cube faces that touch no other cube; part 2 floods the air around
    the droplet, inside its bounding box grown by one, and counts the cube
    faces that air reaches. The `Grid3D` of booleans only ever stores
    `true`, so it is modelled as the set of cells it holds. */
module Day2022_18 {
  import opened Common

  datatype Cube = Cube(x: int, y: int, z: int)

  /** A face: a cell and the index of one of the six `OFFSETS`. */
  type Face = (Cube, int)

  function Add(a: Cube, b: Cube): Cube
  {
    Cube(a.x + b.x, a.y + b.y, a.z + b.z)
  }

  /** `OFFSETS`: the six unit steps, each followed by its opposite. */
  const Offsets: seq<Cube> := [
    Cube(1, 0, 0), Cube(-1, 0, 0),
    Cube(0, 1, 0), Cube(0, -1, 0),
    Cube(0, 0, 1), Cube(0, 0, -1)
  ]

  function Neighbour(c: Cube, i: int): Cube
    requires 0 <= i < 6
  {
    Add(c, Offsets[i])
  }

  /** The offset pointing back. */
  function Opposite(i: int): (j: int)
    requires 0 <= i < 6
    ensures 0 <= j < 6 && j != i
  {
    if i % 2 == 0 then i + 1 else i - 1
  }

  /** Stepping back undoes a step. */
  lemma NeighbourBack(c: Cube, i: int)
    requires 0 <= i < 6
    ensures Opposite(Opposite(i)) == i
    ensures Neighbour(Neighbour(c, i), Opposite(i)) == c
  {
  }

  /** The cells of the input, as the grid holds them. */
  ghost function CubeSet(coords: seq<Cube>): set<Cube>
  {
    set c | c in coords
  }

  // ----- part 1 -----

  /** Among the first `k` offsets, those whose neighbour of `c` is free. */
  function OpenSides(cubes: set<Cube>, c: Cube, k: int): (n: nat)
    requires 0 <= k <= 6
    ensures n <= k
  {
    if k == 0 then 0 else OpenSides(cubes, c, k - 1) + (if Neighbour(c, k - 1) in cubes then 0 else 1)
  }

  /** The free faces of the listed cubes, one input line after another. */
  function FreeFaceCount(cubes: set<Cube>, coords: seq<Cube>): (n: nat)
    ensures n <= 6 * |coords|
  {
    if coords == [] then 0
    else FreeFaceCount(cubes, coords[..|coords| - 1]) + OpenSides(cubes, coords[|coords| - 1], 6)
  }

  /** Stores every cube in the grid. */
  method BuildGrid(coords: seq<Cube>) returns (cubes: set<Cube>)
    ensures cubes == CubeSet(coords)
  {
    cubes := {};
    for i := 0 to |coords|
      invariant cubes == CubeSet(coords[..i])
    {
      assert coords[..i + 1] == coords[..i] + [coords[i]];
      cubes := cubes + {coords[i]};
    }
    assert coords[..|coords|] == coords;
  }

  /** `part1`: every input line, every offset, one for each neighbour that
      the grid does not hold. */
  method Part1(coords: seq<Cube>) returns (count: int)
    ensures count == FreeFaceCount(CubeSet(coords), coords)
    ensures 0 <= count <= 6 * |coords|
  {
    var cubes := BuildGrid(coords);
    count := 0;
    for i := 0 to |coords|
      invariant count == FreeFaceCount(cubes, coords[..i])
    {
      for k := 0 to 6
        invariant count == FreeFaceCount(cubes, coords[..i]) + OpenSides(cubes, coords[i], k)
      {
        if Neighbour(coords[i], k) !in cubes {
          count := count + 1;
        }
      }
      assert coords[..i + 1][..i] == coords[..i];
    }
    assert coords[..|coords|] == coords;
  }

  /** The puzzle's small example, anywhere: two cubes side by side show
      10 faces. */
  lemma TwoCubes(a: Cube, b: Cube)
    requires b == Neighbour(a, 0)
    ensures FreeFaceCount({a, b}, [a, b]) == 10
  {
    var cubes := {a, b};
    assert [a, b][..1] == [a];
    assert OpenSides(cubes, a, 1) == 0 && OpenSides(cubes, b, 1) == 1;
    assert OpenSides(cubes, a, 2) == 1 && OpenSides(cubes, b, 2) == 1;
    assert OpenSides(cubes, a, 3) == 2 && OpenSides(cubes, b, 3) == 2;
    assert OpenSides(cubes, a, 4) == 3 && OpenSides(cubes, b, 4) == 3;
    assert OpenSides(cubes, a, 5) == 4 && OpenSides(cubes, b, 5) == 4;
  }

  // ----- part 2 -----

  /** The bounding box of the cubes grown by one in every direction. */
  datatype Box = Box(lo: Cube, hi: Cube)

  predicate InBox(b: Box, c: Cube)
  {
    b.lo.x <= c.x <= b.hi.x && b.lo.y <= c.y <= b.hi.y && b.lo.z <= c.z <= b.hi.z
  }

  ghost function BoxCells(b: Box): set<Cube>
  {
    set x, y, z | b.lo.x <= x <= b.hi.x && b.lo.y <= y <= b.hi.y && b.lo.z <= z <= b.hi.z :: Cube(x, y, z)
  }

  lemma BoxCellsMeaning(b: Box, c: Cube)
    ensures c in BoxCells(b) <==> InBox(b, c)
  {
    if InBox(b, c) {
      assert c == Cube(c.x, c.y, c.z);
    }
  }

  function Xs(coords: seq<Cube>): (r: seq<int>)
    ensures |r| == |coords| && forall i :: 0 <= i < |coords| ==> r[i] == coords[i].x
  {
    seq(|coords|, i requires 0 <= i < |coords| => coords[i].x)
  }

  function Ys(coords: seq<Cube>): (r: seq<int>)
    ensures |r| == |coords| && forall i :: 0 <= i < |coords| ==> r[i] == coords[i].y
  {
    seq(|coords|, i requires 0 <= i < |coords| => coords[i].y)
  }

  function Zs(coords: seq<Cube>): (r: seq<int>)
    ensures |r| == |coords| && forall i :: 0 <= i < |coords| ==> r[i] == coords[i].z
  {
    seq(|coords|, i requires 0 <= i < |coords| => coords[i].z)
  }

  /** `minCoord` and `maxCoord`: one below the least and one above the
      greatest coordinate on each axis. Every cube lies strictly inside,
      so the start corner is air. */
  function Bounds(coords: seq<Cube>): (b: Box)
    requires coords != []
    ensures forall c :: c in coords ==>
      && b.lo.x < c.x < b.hi.x && b.lo.y < c.y < b.hi.y && b.lo.z < c.z < b.hi.z
    ensures b.lo !in CubeSet(coords) && InBox(b, b.lo)
  {
    var xs, ys, zs := Xs(coords), Ys(coords), Zs(coords);
    var b := Box(Cube(Min(xs) - 1, Min(ys) - 1, Min(zs) - 1), Cube(Max(xs) + 1, Max(ys) + 1, Max(zs) + 1));
    assert forall i :: 0 <= i < |coords| ==> InBox(b, coords[i]) && coords[i] != b.lo;
    b
  }

  /** Among the first `k` offsets, those whose neighbour of `c` is a cube
      inside the box: the faces the air cell `c` touches. */
  function Touches(cubes: set<Cube>, b: Box, c: Cube, k: int): (n: nat)
    requires 0 <= k <= 6
    ensures n <= k
  {
    if k == 0 then 0
    else Touches(cubes, b, c, k - 1) + (if InBox(b, Neighbour(c, k - 1)) && Neighbour(c, k - 1) in cubes then 1 else 0)
  }

  /** What the flood has counted after expanding the cells of `s`. */
  function TouchCount(cubes: set<Cube>, b: Box, s: seq<Cube>): nat
  {
    if s == [] then 0 else TouchCount(cubes, b, s[..|s| - 1]) + Touches(cubes, b, s[|s| - 1], 6)
  }

  predicate Distinct(s: seq<Cube>)
  {
    forall i, j :: 0 <= i < j < |s| ==> s[i] != s[j]
  }

  /** Every in-box free neighbour of an air cell is air or still queued. */
  ghost predicate ClosedUpTo(cubes: set<Cube>, b: Box, outside: set<Cube>, queue: seq<Cube>)
  {
    forall c, i :: c in outside && 0 <= i < 6 && InBox(b, Neighbour(c, i)) && Neighbour(c, i) !in cubes
      ==> Neighbour(c, i) in outside || Neighbour(c, i) in queue
  }

  /** `c` is one of the six neighbours of `a`. */
  ghost predicate Adjacent(a: Cube, c: Cube)
  {
    exists i :: 0 <= i < 6 && c == Neighbour(a, i)
  }

  /** A walk through in-box cells that are no cube, each step to one of the
      six neighbours. */
  ghost predicate IsWalk(cubes: set<Cube>, b: Box, walk: seq<Cube>)
  {
    && walk != []
    && (forall k :: 0 <= k < |walk| ==> InBox(b, walk[k]) && walk[k] !in cubes)
    && forall k :: 0 <= k < |walk| - 1 ==> Adjacent(walk[k], walk[k + 1])
  }

  /** `c` is reached from `root` by a walk through free in-box cells. */
  ghost predicate Reachable(cubes: set<Cube>, b: Box, root: Cube, c: Cube)
  {
    exists walk :: IsWalk(cubes, b, walk) && walk[0] == root && walk[|walk| - 1] == c
  }

  lemma ReachRoot(cubes: set<Cube>, b: Box, root: Cube)
    requires InBox(b, root) && root !in cubes
    ensures Reachable(cubes, b, root, root)
  {
    assert IsWalk(cubes, b, [root]);
  }

  /** A free in-box neighbour of a reachable cell is reachable. */
  lemma ReachStep(cubes: set<Cube>, b: Box, root: Cube, c: Cube, i: int)
    requires Reachable(cubes, b, root, c) && 0 <= i < 6
    requires InBox(b, Neighbour(c, i)) && Neighbour(c, i) !in cubes
    ensures Reachable(cubes, b, root, Neighbour(c, i))
  {
    var walk :| IsWalk(cubes, b, walk) && walk[0] == root && walk[|walk| - 1] == c;
    var longer := walk + [Neighbour(c, i)];
    assert longer[..|walk|] == walk;
    assert Adjacent(longer[|walk| - 1], longer[|walk|]);
    assert IsWalk(cubes, b, longer);
  }

  /** Cells queued from a reachable cell are reachable. */
  lemma ReachQueue(cubes: set<Cube>, b: Box, coord: Cube, queue0: seq<Cube>, queue: seq<Cube>)
    requires Reachable(cubes, b, b.lo, coord)
    requires forall c :: c in queue0 ==> Reachable(cubes, b, b.lo, c)
    requires forall c :: c in queue ==> InBox(b, c) && c !in cubes
    requires forall c :: c in queue ==> c in queue0 || Adjacent(coord, c)
    ensures forall c :: c in queue ==> Reachable(cubes, b, b.lo, c)
  {
    forall c | c in queue
      ensures Reachable(cubes, b, b.lo, c)
    {
      if c !in queue0 {
        var i :| 0 <= i < 6 && c == Neighbour(coord, i);
        ReachStep(cubes, b, b.lo, coord, i);
      }
    }
  }

  /** A set closed under free in-box steps holds every cell of a walk from
      one of its cells. */
  lemma {:induction false} WalkInClosed(cubes: set<Cube>, b: Box, s: set<Cube>, walk: seq<Cube>)
    requires IsWalk(cubes, b, walk) && walk[0] in s && ClosedUpTo(cubes, b, s, [])
    ensures walk[|walk| - 1] in s
    decreases |walk|
  {
    if |walk| > 1 {
      var shorter := walk[..|walk| - 1];
      assert IsWalk(cubes, b, shorter);
      WalkInClosed(cubes, b, s, shorter);
      assert Adjacent(walk[|walk| - 2], walk[|walk| - 1]);
    }
  }

  /** The air of the flood is the least closed set holding the corner: any
      set that holds the corner and is closed under free in-box steps holds
      every cell reachable from the corner. */
  lemma ReachableInClosed(cubes: set<Cube>, b: Box, s: set<Cube>, c: Cube)
    requires b.lo in s && ClosedUpTo(cubes, b, s, [])
    requires Reachable(cubes, b, b.lo, c)
    ensures c in s
  {
    var walk :| IsWalk(cubes, b, walk) && walk[0] == b.lo && walk[|walk| - 1] == c;
    WalkInClosed(cubes, b, s, walk);
  }

  /** The flood fill of `part2` from `lo`: returns the count of cube faces
      the air touches, with the air it found (`outside`) and the order in
      which its cells were expanded. Every air cell lies in the box and is
      no cube, the start corner is air, every in-box free neighbour of air
      is air, every air cell is reachable from the corner, every air cell
      is expanded exactly once, and the count is that of the (air cell,
      offset) pairs that point at a cube. */
  method Flood(cubes: set<Cube>, b: Box) returns (count: int, ghost outside: set<Cube>, ghost expanded: seq<Cube>)
    requires InBox(b, b.lo) && b.lo !in cubes
    ensures outside <= BoxCells(b) && outside !! cubes && b.lo in outside
    ensures ClosedUpTo(cubes, b, outside, [])
    ensures forall c :: c in outside ==> Reachable(cubes, b, b.lo, c)
    ensures Distinct(expanded) && CubeSet(expanded) == outside
    ensures count == TouchCount(cubes, b, expanded)
  {
    BoxCellsMeaning(b, b.lo);
    ReachRoot(cubes, b, b.lo);
    var air: set<Cube> := {};
    var queue: seq<Cube> := [b.lo];
    count := 0;
    expanded := [];
    while |queue| > 0
      invariant air <= BoxCells(b) && air !! cubes
      invariant forall c :: c in queue ==> InBox(b, c) && c !in cubes
      invariant b.lo in air || b.lo in queue
      invariant ClosedUpTo(cubes, b, air, queue)
      invariant Distinct(expanded) && CubeSet(expanded) == air
      invariant count == TouchCount(cubes, b, expanded)
      invariant forall c :: c in air ==> Reachable(cubes, b, b.lo, c)
      invariant forall c :: c in queue ==> Reachable(cubes, b, b.lo, c)
      decreases BoxCells(b) - air, |queue|
    {
      var coord := queue[0];
      ghost var rest := queue[1..];
      assert queue == [coord] + rest;
      queue := queue[1..];
      if coord in air {
        continue;
      }
      BoxCellsMeaning(b, coord);
      ghost var before := expanded;
      ghost var air0 := air;
      air := air + {coord};
      expanded := expanded + [coord];
      assert expanded[..|expanded| - 1] == before;
      ghost var queue0 := queue;
      queue, count := Expand(cubes, b, coord, queue, count);
      ReachQueue(cubes, b, coord, queue0, queue);
      ClosedAfterExpand(cubes, b, air0, coord, rest, queue);
    }
    outside := air;
  }

  /** Expanding the head of the queue keeps the air closed up to the queue. */
  lemma ClosedAfterExpand(cubes: set<Cube>, b: Box, air: set<Cube>, coord: Cube, rest: seq<Cube>, queue: seq<Cube>)
    requires ClosedUpTo(cubes, b, air, [coord] + rest)
    requires rest <= queue
    requires forall i :: (0 <= i < 6 && InBox(b, Neighbour(coord, i)) && Neighbour(coord, i) !in cubes
      ==> Neighbour(coord, i) in queue)
    ensures ClosedUpTo(cubes, b, air + {coord}, queue)
  {
    forall c, i | c in air + {coord} && 0 <= i < 6 && InBox(b, Neighbour(c, i)) && Neighbour(c, i) !in cubes
      ensures Neighbour(c, i) in air + {coord} || Neighbour(c, i) in queue
    {
      if c != coord {
        var n := Neighbour(c, i);
        assert n in air || n in [coord] + rest;
        if n !in air && n != coord {
          assert n in rest;
        }
      }
    }
  }

  /** The flood's inner loop for one air cell: each in-box neighbour that
      is a cube adds one to the count, each other in-box neighbour joins
      the queue. */
  method Expand(cubes: set<Cube>, b: Box, coord: Cube, queue: seq<Cube>, count: int)
    returns (queue': seq<Cube>, count': int)
    requires forall c :: c in queue ==> InBox(b, c) && c !in cubes
    ensures forall c :: c in queue' ==> InBox(b, c) && c !in cubes
    ensures queue <= queue'
    ensures forall c :: c in queue' ==> c in queue || Adjacent(coord, c)
    ensures count' == count + Touches(cubes, b, coord, 6)
    ensures forall i :: (0 <= i < 6 && InBox(b, Neighbour(coord, i)) && Neighbour(coord, i) !in cubes
      ==> Neighbour(coord, i) in queue')
  {
    queue', count' := queue, count;
    for k := 0 to 6
      invariant forall c :: c in queue' ==> InBox(b, c) && c !in cubes
      invariant queue <= queue'
      invariant forall c :: c in queue' ==> c in queue || exists i :: 0 <= i < k && c == Neighbour(coord, i)
      invariant count' == count + Touches(cubes, b, coord, k)
      invariant forall i :: (0 <= i < k && InBox(b, Neighbour(coord, i)) && Neighbour(coord, i) !in cubes
        ==> Neighbour(coord, i) in queue')
    {
      var n := Neighbour(coord, k);
      if InBox(b, n) {
        if n in cubes {
          count' := count' + 1;
        } else {
          queue' := queue' + [n];
        }
      }
    }
  }

  /** `part2`: the flood's count. With no cubes the source's corner is
      `NaN` on every axis, and the flood counts nothing. */
  method Part2(coords: seq<Cube>) returns (count: int)
    ensures coords == [] ==> count == 0
    ensures coords != [] ==> exists outside :: ExteriorCount(CubeSet(coords), Bounds(coords), outside, count)
    ensures 0 <= count <= FreeFaceCount(CubeSet(coords), coords)
  {
    if coords == [] {
      return 0;
    }
    var cubes := BuildGrid(coords);
    var b := Bounds(coords);
    ghost var outside, expanded;
    count, outside, expanded := Flood(cubes, b);
    ExteriorBound(cubes, b, outside, expanded);
    FreeSetCount(cubes, coords);
    assert ExteriorCount(cubes, b, outside, count);
  }

  /** `outside` is the air found by the flood from the box's corner (closed
      under free in-box steps, and each cell reached from the corner) and
      `count` the faces it touches. */
  ghost predicate ExteriorCount(cubes: set<Cube>, b: Box, outside: set<Cube>, count: int)
  {
    && outside <= BoxCells(b) && outside !! cubes && b.lo in outside
    && ClosedUpTo(cubes, b, outside, [])
    && (forall c :: c in outside ==> Reachable(cubes, b, b.lo, c))
    && count == |TouchSet(cubes, b, outside)|
  }

  /** The exterior is the least set holding the corner and closed under free
      in-box steps. */
  lemma ExteriorLeast(cubes: set<Cube>, b: Box, outside: set<Cube>, count: int, s: set<Cube>)
    requires ExteriorCount(cubes, b, outside, count)
    requires b.lo in s && ClosedUpTo(cubes, b, s, [])
    ensures outside <= s
  {
    forall c | c in outside
      ensures c in s
    {
      ReachableInClosed(cubes, b, s, c);
    }
  }

  /** So the exterior, and with it the answer, is determined by the cubes. */
  lemma ExteriorUnique(cubes: set<Cube>, b: Box, o1: set<Cube>, n1: int, o2: set<Cube>, n2: int)
    requires ExteriorCount(cubes, b, o1, n1) && ExteriorCount(cubes, b, o2, n2)
    ensures o1 == o2 && n1 == n2
  {
    ExteriorLeast(cubes, b, o1, n1, o2);
    ExteriorLeast(cubes, b, o2, n2, o1);
  }

  // ----- part 2 counts a subset of part 1's faces -----

  /** The (air cell, offset) pairs pointing at a cube in the box. */
  ghost function TouchSet(cubes: set<Cube>, b: Box, air: set<Cube>): set<Face>
  {
    set c, i | c in air && 0 <= i < 6 && InBox(b, Neighbour(c, i)) && Neighbour(c, i) in cubes :: (c, i)
  }

  /** The (cube, offset) pairs whose neighbour is no cube. */
  ghost function FreeSet(cubes: set<Cube>, of: set<Cube>): set<Face>
  {
    set c, i | c in of && 0 <= i < 6 && Neighbour(c, i) !in cubes :: (c, i)
  }

  ghost function TouchesOf(cubes: set<Cube>, b: Box, c: Cube, k: int): set<Face>
  {
    set i | 0 <= i < k && i < 6 && InBox(b, Neighbour(c, i)) && Neighbour(c, i) in cubes :: (c, i)
  }

  ghost function OpenOf(cubes: set<Cube>, c: Cube, k: int): set<Face>
  {
    set i | 0 <= i < k && i < 6 && Neighbour(c, i) !in cubes :: (c, i)
  }

  lemma {:induction false} TouchesOfSize(cubes: set<Cube>, b: Box, c: Cube, k: int)
    requires 0 <= k <= 6
    ensures |TouchesOf(cubes, b, c, k)| == Touches(cubes, b, c, k)
  {
    if k > 0 {
      TouchesOfSize(cubes, b, c, k - 1);
      var n := Neighbour(c, k - 1);
      if InBox(b, n) && n in cubes {
        assert TouchesOf(cubes, b, c, k) == TouchesOf(cubes, b, c, k - 1) + {(c, k - 1)};
      } else {
        assert TouchesOf(cubes, b, c, k) == TouchesOf(cubes, b, c, k - 1);
      }
    }
  }

  lemma {:induction false} OpenOfSize(cubes: set<Cube>, c: Cube, k: int)
    requires 0 <= k <= 6
    ensures |OpenOf(cubes, c, k)| == OpenSides(cubes, c, k)
  {
    if k > 0 {
      OpenOfSize(cubes, c, k - 1);
      if Neighbour(c, k - 1) !in cubes {
        assert OpenOf(cubes, c, k) == OpenOf(cubes, c, k - 1) + {(c, k - 1)};
      } else {
        assert OpenOf(cubes, c, k) == OpenOf(cubes, c, k - 1);
      }
    }
  }

  /** With each cell expanded once, the flood's count is the number of
      touching pairs of the air it found. */
  lemma {:induction false} TouchCountSet(cubes: set<Cube>, b: Box, s: seq<Cube>)
    requires Distinct(s)
    ensures TouchCount(cubes, b, s) == |TouchSet(cubes, b, CubeSet(s))|
  {
    if s != [] {
      var s', c := s[..|s| - 1], s[|s| - 1];
      TouchCountSet(cubes, b, s');
      TouchesOfSize(cubes, b, c, 6);
      assert CubeSet(s) == CubeSet(s') + {c} by {
        assert s == s' + [c];
      }
      assert c !in CubeSet(s');
      assert TouchSet(cubes, b, CubeSet(s)) == TouchSet(cubes, b, CubeSet(s')) + TouchesOf(cubes, b, c, 6);
      assert TouchSet(cubes, b, CubeSet(s')) !! TouchesOf(cubes, b, c, 6);
    }
  }

  /** The free faces of the distinct cubes are at most those part 1 counts
      line by line. */
  lemma {:induction false} FreeSetCount(cubes: set<Cube>, coords: seq<Cube>)
    ensures |FreeSet(cubes, CubeSet(coords))| <= FreeFaceCount(cubes, coords)
  {
    if coords != [] {
      var s', c := coords[..|coords| - 1], coords[|coords| - 1];
      FreeSetCount(cubes, s');
      OpenOfSize(cubes, c, 6);
      assert CubeSet(coords) == CubeSet(s') + {c} by {
        assert coords == s' + [c];
      }
      assert FreeSet(cubes, CubeSet(coords)) == FreeSet(cubes, CubeSet(s')) + OpenOf(cubes, c, 6);
      SubadditiveCard(FreeSet(cubes, CubeSet(s')), OpenOf(cubes, c, 6));
    }
  }

  lemma SubadditiveCard(a: set<Face>, b: set<Face>)
    ensures |a + b| <= |a| + |b|
  {
    assert |a + b| + |a * b| == |a| + |b|;
  }

  /** A face seen from the other side: the neighbour, looking back. */
  function Mirror(f: Face): Face
    requires 0 <= f.1 < 6
  {
    (Neighbour(f.0, f.1), Opposite(f.1))
  }

  ghost function Mirrored(s: set<Face>): set<Face>
    requires forall f :: f in s ==> 0 <= f.1 < 6
  {
    set f | f in s :: Mirror(f)
  }

  /** Mirroring is its own inverse, so it keeps the size of a set. */
  lemma {:induction false} MirroredSize(s: set<Face>)
    requires forall f :: f in s ==> 0 <= f.1 < 6
    ensures |Mirrored(s)| == |s|
    decreases |s|
  {
    if s != {} {
      var f :| f in s;
      var s' := s - {f};
      MirroredSize(s');
      assert Mirrored(s) == Mirrored(s') + {Mirror(f)};
      forall g | g in s'
        ensures Mirror(g) != Mirror(f)
      {
        NeighbourBack(g.0, g.1);
        NeighbourBack(f.0, f.1);
      }
    }
  }

  /** Each face the air touches, seen from its cube, is a free face of
      that cube, and no two share one: so the air touches at most as many
      faces as are free. */
  lemma ExteriorBound(cubes: set<Cube>, b: Box, outside: set<Cube>, expanded: seq<Cube>)
    requires outside !! cubes
    requires Distinct(expanded) && CubeSet(expanded) == outside
    ensures TouchCount(cubes, b, expanded) == |TouchSet(cubes, b, outside)|
    ensures |TouchSet(cubes, b, outside)| <= |FreeSet(cubes, cubes)|
  {
    TouchCountSet(cubes, b, expanded);
    var t := TouchSet(cubes, b, outside);
    MirroredSize(t);
    forall f | f in Mirrored(t)
      ensures f in FreeSet(cubes, cubes)
    {
      var g :| g in t && Mirror(g) == f;
      var c, i :| c in outside && 0 <= i < 6 && InBox(b, Neighbour(c, i)) && Neighbour(c, i) in cubes && g == (c, i);
      NeighbourBack(c, i);
      assert f == (Neighbour(c, i), Opposite(i));
    }
    SubsetCard(Mirrored(t), FreeSet(cubes, cubes));
  }

  lemma SubsetCard(a: set<Face>, b: set<Face>)
    requires a <= b
    ensures |a| <= |b|
  {
    assert b == a + (b - a);
  }
}
