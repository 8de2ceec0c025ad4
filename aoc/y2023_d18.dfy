/** Day 18 of 2023, "Lavaduct Lagoon": a digger follows the dig plan and
    marks a trench, then every empty cell of the trench's bounding box is
    flood-filled and the regions that cannot leave the box are dug out. */
module Day2023_18 {
  import opened Common
  import opened Grid2023

  datatype Direction = R | L | U | D

  /** One line of the dig plan. */
  datatype Dig = Dig(direction: Direction, count: int, color: string)

  type Coordinate = (int, int)

  /** The cell contents: '#' dug, '.' level ground, '?' being filled. */
  datatype Content = Dug | Level | Pending

  /** The cells set so far; a missing cell is undefined. */
  type Cells = map<Coordinate, Content>

  /** The `moves` table. */
  function Move(d: Direction): Coordinate
  {
    match d
    case R => (1, 0)
    case L => (-1, 0)
    case U => (0, -1)
    case D => (0, 1)
  }

  function Neighbour(p: Coordinate, d: Direction): Coordinate
  {
    (p.0 + Move(d).0, p.1 + Move(d).1)
  }

  function Opposite(d: Direction): Direction
  {
    match d
    case R => L
    case L => R
    case U => D
    case D => U
  }

  /** Neighbourhood is symmetric. */
  lemma NeighbourBack(p: Coordinate, d: Direction)
    ensures Neighbour(Neighbour(p, d), Opposite(d)) == p
  {
  }

  // ---------------------------------------------------------------------------
  // Digging the trench (part1)
  // ---------------------------------------------------------------------------

  /** `location` moved `k` steps in direction `d`. */
  function Shift(location: Coordinate, d: Direction, k: int): Coordinate
  {
    (location.0 + k * Move(d).0, location.1 + k * Move(d).1)
  }

  /** The cells one instruction digs from `location`, in order. */
  function Run(location: Coordinate, d: Direction, count: int): seq<Coordinate>
    decreases if count > 0 then count else 0
  {
    if count <= 0 then [] else Run(location, d, count - 1) + [Shift(location, d, count)]
  }

  /** An instruction digs exactly `count` distinct cells (none for a
    * count below 1), the k-th of them k steps along its direction. */
  lemma {:induction false} RunMeaning(location: Coordinate, d: Direction, count: int)
    ensures |Run(location, d, count)| == if count > 0 then count else 0
    ensures forall k :: 0 <= k < |Run(location, d, count)| ==>
      Run(location, d, count)[k] == Shift(location, d, k + 1)
    ensures forall i, j :: 0 <= i < j < |Run(location, d, count)| ==>
      Run(location, d, count)[i] != Run(location, d, count)[j]
    decreases if count > 0 then count else 0
  {
    if count > 0 {
      RunMeaning(location, d, count - 1);
    }
  }

  /** Where the digger stands after an instruction. */
  function After(location: Coordinate, dig: Dig): Coordinate
  {
    if dig.count > 0 then Shift(location, dig.direction, dig.count) else location
  }

  /** Where the digger stands after the instructions. */
  function End(location: Coordinate, digs: seq<Dig>): Coordinate
  {
    if digs == [] then location else After(End(location, digs[..|digs| - 1]), digs[|digs| - 1])
  }

  /** Every cell dug, in order. */
  function Path(location: Coordinate, digs: seq<Dig>): seq<Coordinate>
  {
    if digs == [] then []
    else
      var n := |digs| - 1;
      Path(location, digs[..n]) + Run(End(location, digs[..n]), digs[n].direction, digs[n].count)
  }

  function Elements(s: seq<Coordinate>): set<Coordinate>
  {
    set p | p in s
  }

  /** The trench the plan digs from the origin. */
  function Trench(digs: seq<Dig>): set<Coordinate>
  {
    Elements(Path((0, 0), digs))
  }

  lemma ElementsAppend(s: seq<Coordinate>, t: seq<Coordinate>)
    ensures Elements(s + t) == Elements(s) + Elements(t)
  {
    assert forall p :: p in s + t <==> p in s || p in t;
  }

  /** The inner `for` loop of part 1: one instruction. */
  method DigRun(cells: Cells, location: Coordinate, dig: Dig) returns (cells': Cells, location': Coordinate)
    ensures cells'.Keys == cells.Keys + Elements(Run(location, dig.direction, dig.count))
    ensures forall p :: p in cells' ==> cells'[p] == if p in cells && p !in Run(location, dig.direction, dig.count) then cells[p] else Dug
    ensures location' == After(location, dig)
  {
    cells', location' := cells, location;
    var m := 1;
    while m <= dig.count
      invariant 1 <= m && (m - 1 <= dig.count || m == 1)
      invariant location' == Shift(location, dig.direction, m - 1)
      invariant cells'.Keys == cells.Keys + Elements(Run(location, dig.direction, m - 1))
      invariant forall p :: p in cells' ==> cells'[p] == if p in cells && p !in Run(location, dig.direction, m - 1) then cells[p] else Dug
    {
      ElementsAppend(Run(location, dig.direction, m - 1), [Shift(location, dig.direction, m)]);
      location' := Neighbour(location', dig.direction);
      cells' := cells'[location' := Dug];
      m := m + 1;
    }
  }

  /** The digging loop of part 1: the trench, every cell of it dug. */
  method DigTrench(digs: seq<Dig>) returns (cells: Cells)
    ensures cells.Keys == Trench(digs)
    ensures forall p :: p in cells ==> cells[p] == Dug
  {
    cells := map[];
    var location := (0, 0);
    for i := 0 to |digs|
      invariant location == End((0, 0), digs[..i])
      invariant cells.Keys == Elements(Path((0, 0), digs[..i]))
      invariant forall p :: p in cells ==> cells[p] == Dug
    {
      assert digs[..i + 1][..i] == digs[..i];
      ElementsAppend(Path((0, 0), digs[..i]), Run(location, digs[i].direction, digs[i].count));
      cells, location := DigRun(cells, location, digs[i]);
    }
    assert digs[..|digs|] == digs;
  }

  // ---------------------------------------------------------------------------
  // Filling one region (fillInterior's while loop)
  // ---------------------------------------------------------------------------

  /** The cells of the box not set yet. */
  ghost function Unset(cells: Cells, box: Box): set<Coordinate>
  {
    set x, y | box.xmin <= x <= box.xmax && box.ymin <= y <= box.ymax && (x, y) !in cells :: (x, y)
  }

  lemma UnsetShrinks(cells: Cells, box: Box, p: Coordinate, v: Content)
    requires InBox(box, p) && p !in cells
    ensures Unset(cells[p := v], box) < Unset(cells, box)
  {
    assert p in Unset(cells, box);
    assert p !in Unset(cells[p := v], box);
  }

  /** Each filled cell after the first neighbours an earlier one. */
  ghost predicate Linked(filled: seq<Coordinate>)
  {
    forall i :: 0 < i < |filled| ==> exists j, d :: 0 <= j < i && Neighbour(filled[j], d) == filled[i]
  }

  /** Some filled cell has a neighbour outside the box. */
  ghost predicate Escapes(filled: seq<Coordinate>, box: Box)
  {
    exists i, d :: 0 <= i < |filled| && !InBox(box, Neighbour(filled[i], d))
  }

  /** Every neighbour of a filled cell is set or outside the box. */
  ghost predicate Sealed(filled: seq<Coordinate>, cells: Cells, box: Box)
  {
    forall i, d :: 0 <= i < |filled| ==> Neighbour(filled[i], d) in cells || !InBox(box, Neighbour(filled[i], d))
  }

  ghost predicate Distinct(filled: seq<Coordinate>)
  {
    forall i, j :: 0 <= i < j < |filled| ==> filled[i] != filled[j]
  }

  /** The cells after marking: the old ones kept, each filled one `value`. */
  ghost predicate Marked(cells: Cells, filled: seq<Coordinate>, value: Content, cells': Cells)
  {
    && cells'.Keys == cells.Keys + Elements(filled)
    && forall p :: p in cells' ==> cells'[p] == if p in filled then value else cells[p]
  }

  /** The filled cells so far: unset cells of the box, each once, the first
    * the start and each later one next to an earlier one, marked '?'. */
  ghost predicate Region(cells: Cells, box: Box, start: Coordinate, cells': Cells, filled: seq<Coordinate>)
  {
    && Marked(cells, filled, Pending, cells')
    && (filled != [] ==> filled[0] == start)
    && (forall i :: 0 <= i < |filled| ==> InBox(box, filled[i]) && filled[i] !in cells)
    && Distinct(filled) && Linked(filled)
  }

  /** `q` neighbours a filled cell. */
  ghost predicate Near(filled: seq<Coordinate>, q: Coordinate)
  {
    exists i, d :: 0 <= i < |filled| && Neighbour(filled[i], d) == q
  }

  /** Every queued cell neighbours a filled one (or is the start, before
    * anything is filled). */
  ghost predicate Queued(start: Coordinate, filled: seq<Coordinate>, queue: seq<Coordinate>)
  {
    && (filled == [] ==> queue == [start])
    && (filled != [] ==> forall k :: 0 <= k < |queue| ==> Near(filled, queue[k]))
  }

  /** Every neighbour of a filled cell is still queued, set, or outside the
    * box with the escape recorded. */
  ghost predicate Covered(filled: seq<Coordinate>, cells': Cells, box: Box, outside: bool, queue: seq<Coordinate>)
  {
    forall i, d :: 0 <= i < |filled| ==>
      Neighbour(filled[i], d) in queue || Neighbour(filled[i], d) in cells' || (!InBox(box, Neighbour(filled[i], d)) && outside)
  }

  /** The state of the filling loop. */
  ghost predicate Filling(cells: Cells, box: Box, start: Coordinate, cells': Cells,
                          filled: seq<Coordinate>, outside: bool, queue: seq<Coordinate>)
  {
    && Region(cells, box, start, cells', filled)
    && Queued(start, filled, queue)
    && Covered(filled, cells', box, outside, queue)
    && (outside ==> Escapes(filled, box))
  }

  lemma QueuedTail(start: Coordinate, filled: seq<Coordinate>, queue: seq<Coordinate>)
    requires Queued(start, filled, queue) && queue != [] && filled != []
    ensures Queued(start, filled, queue[1..])
  {
    forall k | 0 <= k < |queue[1..]|
      ensures Near(filled, queue[1..][k])
    {
      assert queue[1..][k] == queue[k + 1];
    }
  }

  /** Popping a cell that is set, or outside the box with the escape
    * recorded, keeps every neighbour covered. */
  lemma CoveredTail(filled: seq<Coordinate>, cells': Cells, box: Box, outside: bool, queue: seq<Coordinate>, outside': bool)
    requires Covered(filled, cells', box, outside, queue) && queue != []
    requires outside ==> outside'
    requires queue[0] in cells' || (!InBox(box, queue[0]) && outside')
    ensures Covered(filled, cells', box, outside', queue[1..])
  {
    forall i, d | 0 <= i < |filled| && Neighbour(filled[i], d) in queue
      ensures Neighbour(filled[i], d) in queue[1..] || Neighbour(filled[i], d) == queue[0]
    {
      assert queue == [queue[0]] + queue[1..];
    }
  }

  /** A popped cell outside the box only records the escape. */
  lemma PopOutside(cells: Cells, box: Box, start: Coordinate, cells': Cells,
                   filled: seq<Coordinate>, outside: bool, queue: seq<Coordinate>)
    requires Filling(cells, box, start, cells', filled, outside, queue) && queue != [] && !InBox(box, queue[0])
    requires InBox(box, start)
    ensures Filling(cells, box, start, cells', filled, true, queue[1..])
  {
    assert filled != [];
    assert Near(filled, queue[0]);
    QueuedTail(start, filled, queue);
    CoveredTail(filled, cells', box, outside, queue, true);
  }

  /** A popped cell already set changes nothing. */
  lemma PopSet(cells: Cells, box: Box, start: Coordinate, cells': Cells,
               filled: seq<Coordinate>, outside: bool, queue: seq<Coordinate>)
    requires Filling(cells, box, start, cells', filled, outside, queue) && queue != [] && queue[0] in cells'
    requires start !in cells
    ensures Filling(cells, box, start, cells', filled, outside, queue[1..])
  {
    assert filled != [] by {
      assert Elements([]) == {};
    }
    QueuedTail(start, filled, queue);
    CoveredTail(filled, cells', box, outside, queue, outside);
  }

  function Neighbours(p: Coordinate): seq<Coordinate>
  {
    [Neighbour(p, R), Neighbour(p, L), Neighbour(p, U), Neighbour(p, D)]
  }

  lemma MarkedGrows(cells: Cells, filled: seq<Coordinate>, value: Content, cells': Cells, p: Coordinate)
    requires Marked(cells, filled, value, cells')
    ensures Marked(cells, filled + [p], value, cells'[p := value])
  {
    ElementsAppend(filled, [p]);
  }

  lemma LinkedGrows(start: Coordinate, filled: seq<Coordinate>, queue: seq<Coordinate>)
    requires Linked(filled) && Queued(start, filled, queue) && queue != []
    ensures Linked(filled + [queue[0]])
  {
    var p := queue[0];
    var filled' := filled + [p];
    if filled != [] {
      assert Near(filled, queue[0]);
      var i, d :| 0 <= i < |filled| && Neighbour(filled[i], d) == p;
      assert Neighbour(filled'[i], d) == filled'[|filled|];
      forall m | 0 < m < |filled'|
        ensures exists j, d :: 0 <= j < m && Neighbour(filled'[j], d) == filled'[m]
      {
        if m < |filled| {
          var j, d :| 0 <= j < m && Neighbour(filled[j], d) == filled[m];
          assert Neighbour(filled'[j], d) == filled'[m];
        }
      }
    }
  }

  lemma DistinctGrows(filled: seq<Coordinate>, cells': Cells, p: Coordinate)
    requires Distinct(filled) && p !in cells' && forall i :: 0 <= i < |filled| ==> filled[i] in cells'
    ensures Distinct(filled + [p])
  {
    var filled' := filled + [p];
    forall i, j | 0 <= i < j < |filled'|
      ensures filled'[i] != filled'[j]
    {
      assert filled'[i] == filled[i];
      if j < |filled| {
        assert filled'[j] == filled[j];
      }
    }
  }

  lemma RegionGrows(cells: Cells, box: Box, start: Coordinate, cells': Cells,
                    filled: seq<Coordinate>, queue: seq<Coordinate>)
    requires Region(cells, box, start, cells', filled) && Queued(start, filled, queue) && queue != []
    requires InBox(box, queue[0]) && queue[0] !in cells'
    ensures Region(cells, box, start, cells'[queue[0] := Pending], filled + [queue[0]])
  {
    var p := queue[0];
    var filled' := filled + [p];
    assert Marked(cells, filled', Pending, cells'[p := Pending]) by {
      MarkedGrows(cells, filled, Pending, cells', p);
    }
    assert Linked(filled') by {
      LinkedGrows(start, filled, queue);
    }
    assert Distinct(filled') by {
      assert forall i :: 0 <= i < |filled| ==> filled[i] in Elements(filled);
      DistinctGrows(filled, cells', p);
    }
    assert forall i :: 0 <= i < |filled'| ==> InBox(box, filled'[i]) && filled'[i] !in cells by {
      assert forall i :: 0 <= i < |filled| ==> filled'[i] == filled[i];
    }
  }

  lemma QueuedGrows(start: Coordinate, filled: seq<Coordinate>, queue: seq<Coordinate>)
    requires Queued(start, filled, queue) && queue != []
    ensures Queued(start, filled + [queue[0]], queue[1..] + Neighbours(queue[0]))
  {
    var p := queue[0];
    var filled' := filled + [p];
    var queue' := queue[1..] + Neighbours(p);
    forall k | 0 <= k < |queue'|
      ensures Near(filled', queue'[k])
    {
      if k < |queue| - 1 {
        assert queue'[k] == queue[k + 1];
        assert Near(filled, queue[k + 1]);
        var i, d :| 0 <= i < |filled| && Neighbour(filled[i], d) == queue[k + 1];
        assert Neighbour(filled'[i], d) == queue'[k];
      } else {
        var m := k - (|queue| - 1);
        assert queue'[k] == Neighbours(p)[m];
        var d := [R, L, U, D][m];
        assert Neighbour(filled'[|filled|], d) == queue'[k];
      }
    }
  }

  lemma CoveredGrows(filled: seq<Coordinate>, cells': Cells, box: Box, outside: bool, queue: seq<Coordinate>)
    requires Covered(filled, cells', box, outside, queue) && queue != []
    ensures Covered(filled + [queue[0]], cells'[queue[0] := Pending], box, outside, queue[1..] + Neighbours(queue[0]))
  {
    var p := queue[0];
    var filled' := filled + [p];
    var queue' := queue[1..] + Neighbours(p);
    forall i, d | 0 <= i < |filled'|
      ensures Neighbour(filled'[i], d) in queue' || Neighbour(filled'[i], d) in cells'[p := Pending]
        || (!InBox(box, Neighbour(filled'[i], d)) && outside)
    {
      var q := Neighbour(filled'[i], d);
      if i == |filled| {
        assert q in Neighbours(p);
      } else {
        assert filled'[i] == filled[i];
        if q in queue {
          assert queue == [queue[0]] + queue[1..];
        }
      }
    }
  }

  /** A popped cell inside the box and unset is marked, filled, and its
    * neighbours queued. */
  lemma PopFill(cells: Cells, box: Box, start: Coordinate, cells': Cells,
                filled: seq<Coordinate>, outside: bool, queue: seq<Coordinate>)
    requires Filling(cells, box, start, cells', filled, outside, queue) && queue != []
    requires InBox(box, queue[0]) && queue[0] !in cells'
    ensures var p := queue[0];
      Filling(cells, box, start, cells'[p := Pending], filled + [p], outside, queue[1..] + Neighbours(p))
  {
    RegionGrows(cells, box, start, cells', filled, queue);
    QueuedGrows(start, filled, queue);
    CoveredGrows(filled, cells', box, outside, queue);
    assert Escapes(filled, box) ==> Escapes(filled + [queue[0]], box) by {
      if Escapes(filled, box) {
        var i, d :| 0 <= i < |filled| && !InBox(box, Neighbour(filled[i], d));
        assert (filled + [queue[0]])[i] == filled[i];
      }
    }
  }

  /** The `while (fillQueue.length > 0)` loop of `fillInterior` from an
    * unset cell of the box: the filled cells are the unset cells reached
    * from it, each once, marked '?', and `outside` tells whether the region
    * reaches past the box. */
  method Flood(cells: Cells, box: Box, start: Coordinate) returns (cells': Cells, filled: seq<Coordinate>, outside: bool)
    requires InBox(box, start) && start !in cells
    requires forall p :: p in cells ==> InBox(box, p)
    ensures Region(cells, box, start, cells', filled) && filled != []
    ensures Sealed(filled, cells', box)
    ensures outside <==> Escapes(filled, box)
  {
    cells' := cells;
    filled := [];
    outside := false;
    var queue := [start];
    assert Marked(cells, filled, Pending, cells');
    while queue != []
      invariant Filling(cells, box, start, cells', filled, outside, queue)
      decreases Unset(cells', box), |queue|
    {
      var point := queue[0];
      if !InBox(box, point) {
        PopOutside(cells, box, start, cells', filled, outside, queue);
        queue := queue[1..];
        outside := true;
        continue;
      }
      if point !in cells' {
        PopFill(cells, box, start, cells', filled, outside, queue);
        UnsetShrinks(cells', box, point, Pending);
        cells' := cells'[point := Pending];
        filled := filled + [point];
        queue := queue[1..] + Neighbours(point);
      } else {
        PopSet(cells, box, start, cells', filled, outside, queue);
        queue := queue[1..];
      }
    }
    FloodDone(cells, box, start, cells', filled, outside);
  }

  /** With the queue empty the filled cells are sealed, and the region
    * escaped exactly when a popped cell lay outside the box. */
  lemma FloodDone(cells: Cells, box: Box, start: Coordinate, cells': Cells, filled: seq<Coordinate>, outside: bool)
    requires Filling(cells, box, start, cells', filled, outside, [])
    requires forall p :: p in cells ==> InBox(box, p)
    ensures filled != [] && Sealed(filled, cells', box)
    ensures outside <==> Escapes(filled, box)
  {
    if Escapes(filled, box) {
      var i, d :| 0 <= i < |filled| && !InBox(box, Neighbour(filled[i], d));
      var q := Neighbour(filled[i], d);
      if q in cells' {
        assert q in cells || q in filled;
      }
    }
  }

  /** The `for (const point of filled)` loop: every filled cell gets
    * `value`, nothing else changes. */
  method Label(cells: Cells, filled: seq<Coordinate>, value: Content) returns (cells': Cells)
    ensures Marked(cells, filled, value, cells')
  {
    cells' := cells;
    for i := 0 to |filled|
      invariant Marked(cells, filled[..i], value, cells')
    {
      ElementsAppend(filled[..i], [filled[i]]);
      assert filled[..i + 1] == filled[..i] + [filled[i]];
      cells' := cells'[filled[i] := value];
    }
    assert filled[..|filled|] == filled;
  }

  // ---------------------------------------------------------------------------
  // What a region's label means
  // ---------------------------------------------------------------------------

  /** A set of cells of the box, none in the trench, each of whose
    * neighbours is in the set or in the trench: a pocket the trench walls
    * off inside the box. */
  ghost predicate Pocket(trench: Cells, box: Box, region: set<Coordinate>)
  {
    forall q :: q in region ==> InBox(box, q) && q !in trench && Walled(trench, region, q)
  }

  /** Each neighbour of q is in the region or in the trench. */
  ghost predicate Walled(trench: Cells, region: set<Coordinate>, q: Coordinate)
  {
    forall d :: Neighbour(q, d) in region || Neighbour(q, d) in trench
  }

  /** The cell lies in a pocket: it is inside the lagoon. */
  ghost predicate Enclosed(trench: Cells, box: Box, p: Coordinate)
  {
    exists region :: p in region && Pocket(trench, box, region)
  }

  /** The cells the trench and the interior make up in the box: trench cells
    * holding '#', and the cells walled off. */
  ghost function Lagoon(trench: Cells, box: Box): set<Coordinate>
  {
    set x, y | box.xmin <= x <= box.xmax && box.ymin <= y <= box.ymax
      && (if (x, y) in trench then trench[(x, y)] == Dug else Enclosed(trench, box, (x, y))) :: (x, y)
  }

  /** Every neighbour of a filled cell outside the trench is set or lies
    * outside the box. */
  ghost predicate Fenced(trench: Cells, cells: Cells, box: Box)
  {
    forall p, d :: p in cells && p !in trench ==> Neighbour(p, d) in cells || !InBox(box, Neighbour(p, d))
  }

  /** The grid between two fills: the trench as it was, every cell in the
    * box, every other cell fenced and labelled '#' exactly when enclosed. */
  ghost predicate Settled(trench: Cells, box: Box, cells: Cells)
  {
    && (forall p :: p in trench ==> p in cells && cells[p] == trench[p])
    && (forall p :: p in cells ==> InBox(box, p))
    && Fenced(trench, cells, box)
    && (forall p :: p in cells && p !in trench ==>
          (cells[p] == Dug || cells[p] == Level) && (cells[p] == Dug <==> Enclosed(trench, box, p)))
  }

  /** A pocket holding a filled cell holds the first one. */
  lemma {:induction false} ReachFirst(trench: Cells, box: Box, region: set<Coordinate>, filled: seq<Coordinate>, i: nat)
    requires Linked(filled) && Pocket(trench, box, region)
    requires forall m :: 0 <= m < |filled| ==> filled[m] !in trench
    requires i < |filled| && filled[i] in region
    ensures filled[0] in region
  {
    if i > 0 {
      var j, d :| 0 <= j < i && Neighbour(filled[j], d) == filled[i];
      NeighbourBack(filled[j], d);
      assert Neighbour(filled[i], Opposite(d)) == filled[j];
      ReachFirst(trench, box, region, filled, j);
    }
  }

  /** A pocket holding the first filled cell holds them all. */
  lemma {:induction false} ReachAll(trench: Cells, box: Box, region: set<Coordinate>, filled: seq<Coordinate>, m: nat)
    requires Linked(filled) && Pocket(trench, box, region)
    requires forall k :: 0 <= k < |filled| ==> filled[k] !in trench
    requires m < |filled| && filled[0] in region
    ensures filled[m] in region
  {
    if m > 0 {
      var j, d :| 0 <= j < m && Neighbour(filled[j], d) == filled[m];
      ReachAll(trench, box, region, filled, j);
    }
  }

  /** A region that reaches past the box is not enclosed anywhere. */
  lemma EscapedNotEnclosed(trench: Cells, box: Box, cells: Cells, start: Coordinate, cells': Cells, filled: seq<Coordinate>, i: nat)
    requires Region(cells, box, start, cells', filled) && Escapes(filled, box)
    requires forall p :: p in trench ==> p in cells && InBox(box, p)
    requires i < |filled|
    ensures !Enclosed(trench, box, filled[i])
  {
    if Enclosed(trench, box, filled[i]) {
      var region :| filled[i] in region && Pocket(trench, box, region);
      ReachFirst(trench, box, region, filled, i);
      var k, d :| 0 <= k < |filled| && !InBox(box, Neighbour(filled[k], d));
      ReachAll(trench, box, region, filled, k);
    }
  }

  /** A region that stays inside the box is a pocket. */
  lemma KeptIsPocket(trench: Cells, box: Box, cells: Cells, start: Coordinate, cells': Cells, filled: seq<Coordinate>)
    requires Region(cells, box, start, cells', filled) && Sealed(filled, cells', box) && !Escapes(filled, box)
    requires Settled(trench, box, cells)
    ensures Pocket(trench, box, Elements(filled))
  {
    forall q, d | q in Elements(filled)
      ensures Neighbour(q, d) in Elements(filled) || Neighbour(q, d) in trench
    {
      var i :| 0 <= i < |filled| && filled[i] == q;
      var n := Neighbour(q, d);
      assert n in cells';
      if n !in Elements(filled) && n !in trench {
        assert n in cells;
        NeighbourBack(q, d);
      }
    }
  }

  /** Labelling a filled region '.' when it escaped and '#' otherwise
    * keeps the grid settled. */
  lemma FillStep(trench: Cells, box: Box, cells: Cells, start: Coordinate, cells': Cells,
                 filled: seq<Coordinate>, outside: bool, cells'': Cells)
    requires Settled(trench, box, cells)
    requires Region(cells, box, start, cells', filled) && Sealed(filled, cells', box)
    requires outside <==> Escapes(filled, box)
    requires Marked(cells', filled, if outside then Level else Dug, cells'')
    ensures Settled(trench, box, cells'')
  {
    forall p | p in cells'' && p !in trench
      ensures (cells''[p] == Dug || cells''[p] == Level) && (cells''[p] == Dug <==> Enclosed(trench, box, p))
    {
      if p in filled {
        var i :| 0 <= i < |filled| && filled[i] == p;
        if outside {
          EscapedNotEnclosed(trench, box, cells, start, cells', filled, i);
        } else {
          KeptIsPocket(trench, box, cells, start, cells', filled);
        }
      }
    }
    forall p, d | p in cells'' && p !in trench
      ensures Neighbour(p, d) in cells'' || !InBox(box, Neighbour(p, d))
    {
      if p in filled {
        var i :| 0 <= i < |filled| && filled[i] == p;
      }
    }
  }

  // ---------------------------------------------------------------------------
  // fillInterior
  // ---------------------------------------------------------------------------

  /** The two `for` loops of `fillInterior` over the box: every cell of the
    * box ends up set, and the grid stays settled. */
  method FillRegions(trench: Cells, box: Box) returns (cells: Cells)
    requires box.xmin <= box.xmax && box.ymin <= box.ymax
    requires forall p :: p in trench ==> InBox(box, p)
    ensures Settled(trench, box, cells)
    ensures forall x, y :: box.xmin <= x <= box.xmax && box.ymin <= y <= box.ymax ==> (x, y) in cells
  {
    cells := trench;
    for x := box.xmin to box.xmax + 1
      invariant Settled(trench, box, cells)
      invariant forall a, b :: box.xmin <= a < x && box.ymin <= b <= box.ymax ==> (a, b) in cells
    {
      for y := box.ymin to box.ymax + 1
        invariant Settled(trench, box, cells)
        invariant forall a, b :: box.xmin <= a < x && box.ymin <= b <= box.ymax ==> (a, b) in cells
        invariant forall b :: box.ymin <= b < y ==> (x, b) in cells
      {
        if (x, y) in cells {
          continue;
        }
        var marked, filled, outside := Flood(cells, box, (x, y));
        var labelled := Label(marked, filled, if outside then Level else Dug);
        FillStep(trench, box, cells, (x, y), marked, filled, outside, labelled);
        assert filled[0] in Elements(filled);
        cells := labelled;
      }
    }
  }

  /** The cells of the box before (x, y) in the scan order holding '#'. */
  ghost function DugBefore(cells: Cells, box: Box, x: int, y: int): set<Coordinate>
  {
    set a, b | box.xmin <= a <= box.xmax && box.ymin <= b <= box.ymax && (a < x || (a == x && b < y))
      && (a, b) in cells && cells[(a, b)] == Dug :: (a, b)
  }

  lemma DugBeforeStep(cells: Cells, box: Box, x: int, y: int)
    requires box.xmin <= x <= box.xmax && box.ymin <= y <= box.ymax
    ensures (x, y) !in DugBefore(cells, box, x, y)
    ensures DugBefore(cells, box, x, y + 1) ==
      DugBefore(cells, box, x, y) + if (x, y) in cells && cells[(x, y)] == Dug then {(x, y)} else {}
  {
  }

  lemma DugBeforeRow(cells: Cells, box: Box, x: int)
    ensures DugBefore(cells, box, x, box.ymax + 1) == DugBefore(cells, box, x + 1, box.ymin)
  {
  }

  /** The counting loops of `fillInterior`: the number of '#' cells in the
    * box. */
  method CountDug(cells: Cells, box: Box) returns (digged: nat)
    requires box.xmin <= box.xmax && box.ymin <= box.ymax
    ensures digged == |DugBefore(cells, box, box.xmax + 1, box.ymin)|
  {
    digged := 0;
    for x := box.xmin to box.xmax + 1
      invariant digged == |DugBefore(cells, box, x, box.ymin)|
    {
      for y := box.ymin to box.ymax + 1
        invariant digged == |DugBefore(cells, box, x, y)|
      {
        DugBeforeStep(cells, box, x, y);
        if (x, y) in cells && cells[(x, y)] == Dug {
          digged := digged + 1;
        }
      }
      DugBeforeRow(cells, box, x);
    }
  }

  /** Once every cell of the box is set and the grid settled, the '#' cells
    * are the lagoon. */
  lemma DugIsLagoon(trench: Cells, box: Box, cells: Cells)
    requires Settled(trench, box, cells)
    requires forall x, y :: box.xmin <= x <= box.xmax && box.ymin <= y <= box.ymax ==> (x, y) in cells
    ensures DugBefore(cells, box, box.xmax + 1, box.ymin) == Lagoon(trench, box)
  {
  }

  /** `fillInterior`: fails on a grid with no cell (the assertion on the
    * ranges), else the number of cells of the bounding box that are trench
    * cells holding '#' or walled off by the trench. */
  method FillInterior(trench: Cells) returns (r: Result<nat>)
    ensures r.Failure? <==> trench.Keys == {}
    ensures r.Success? ==> exists box :: Bounding(box, trench.Keys) && r.value == |Lagoon(trench, box)|
  {
    var bounds := Extents(trench);
    if bounds.None? {
      return Failure("the grid has no range");
    }
    var box := bounds.value;
    var cells := FillRegions(trench, box);
    var digged := CountDug(cells, box);
    DugIsLagoon(trench, box, cells);
    return Success(digged);
  }

  /** The trench as cells, each dug. */
  function TrenchCells(digs: seq<Dig>): Cells
  {
    map p | p in Trench(digs) :: Dug
  }

  /** Part 1: dig the trench from the origin, then fill its interior. */
  method Part1(digs: seq<Dig>) returns (r: Result<nat>)
    ensures r.Failure? <==> Trench(digs) == {}
    ensures r.Success? ==> exists box :: Bounding(box, Trench(digs)) && r.value == |Lagoon(TrenchCells(digs), box)|
  {
    var cells := DigTrench(digs);
    assert cells == TrenchCells(digs);
    r := FillInterior(cells);
  }
}
