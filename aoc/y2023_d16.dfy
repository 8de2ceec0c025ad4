/** 2023 day 16: a beam of light enters a contraption of mirrors and
    splitters at its top-left cell heading east; `energise` follows every
    beam and counts the cells a beam passes through. */
module Day2023_16 {
  import opened Common

  type Cell = (int, int)

  datatype Direction = N | S | E | W

  function Offset(d: Direction): Cell
  {
    match d
    case N => (0, -1)
    case S => (0, 1)
    case E => (1, 0)
    case W => (-1, 0)
  }

  function Move(c: Cell, d: Direction): Cell
  {
    (c.0 + Offset(d).0, c.1 + Offset(d).1)
  }

  /** The `interactions` table: the directions a beam heading `d` leaves a
    * cell holding `node` in; none for a character the table lacks. */
  function Interactions(node: char, d: Direction): Option<seq<Direction>>
  {
    match node
    case '/' => Some(match d case N => [E] case S => [W] case E => [N] case W => [S])
    case '\\' => Some(match d case N => [W] case S => [E] case E => [S] case W => [N])
    case '-' => Some(match d case N => [E, W] case S => [E, W] case E => [E] case W => [W])
    case '|' => Some(match d case N => [N] case S => [S] case E => [N, S] case W => [N, S])
    case '.' => Some([d])
    case _ => None
  }

  predicate Horizontal(d: Direction)
  {
    d == E || d == W
  }

  /** Empty space passes a beam on; a splitter met side-on passes it on too
    * and met face-on splits it in the two perpendicular directions; a
    * mirror turns it a quarter, and turns the result back. */
  lemma InteractionsMeaning(d: Direction)
    ensures Interactions('.', d) == Some([d])
    ensures Interactions('-', d) == if Horizontal(d) then Some([d]) else Some([E, W])
    ensures Interactions('|', d) == if Horizontal(d) then Some([N, S]) else Some([d])
    ensures forall m :: m in "/\\" ==> (var out := Interactions(m, d).value;
      |out| == 1 && Horizontal(out[0]) != Horizontal(d) && Interactions(m, out[0]) == Some([d]))
  {
  }

  // ---------------------------------------------------------------------------
  // Beam states and reachability
  // ---------------------------------------------------------------------------

  /** A beam in a cell, heading in a direction. */
  type State = (Cell, Direction)

  /** The beam enters at (-1, 0) heading east: its first state. */
  const Start: State := ((0, 0), E)

  /** `t` follows `s`: the cell of `s` sends the beam on in `t`'s direction,
    * into `t`'s cell, which is in the grid. */
  predicate Next(layout: map<Cell, char>, s: State, t: State)
  {
    && s.0 in layout && t.0 in layout
    && Interactions(layout[s.0], s.1).Some?
    && t.1 in Interactions(layout[s.0], s.1).value
    && t.0 == Move(s.0, t.1)
  }

  /** A run of states from the start, each following the one before. */
  predicate IsPath(layout: map<Cell, char>, path: seq<State>)
  {
    && |path| > 0 && path[0] == Start && Start.0 in layout
    && forall i :: 0 <= i < |path| - 1 ==> Next(layout, path[i], path[i + 1])
  }

  ghost predicate Reachable(layout: map<Cell, char>, s: State)
  {
    exists path :: IsPath(layout, path) && path[|path| - 1] == s
  }

  lemma ReachableNext(layout: map<Cell, char>, s: State, t: State)
    requires Reachable(layout, s) && Next(layout, s, t)
    ensures Reachable(layout, t)
  {
    var path :| IsPath(layout, path) && path[|path| - 1] == s;
    assert IsPath(layout, path + [t]);
  }

  lemma StartReachable(layout: map<Cell, char>)
    requires Start.0 in layout
    ensures Reachable(layout, Start)
  {
    assert IsPath(layout, [Start]);
  }

  /** The cells some beam passes through. */
  ghost function EnergisedCells(layout: map<Cell, char>): set<Cell>
  {
    set c | c in layout && exists d: Direction :: Reachable(layout, (c, d))
  }

  /** A set of states that holds the start and everything following its
    * states holds every reachable state. */
  lemma {:induction false} ClosedHoldsReachable(layout: map<Cell, char>, seen: set<State>, path: seq<State>)
    requires Start.0 in layout ==> Start in seen
    requires forall s, t :: s in seen && Next(layout, s, t) ==> t in seen
    requires IsPath(layout, path)
    ensures path[|path| - 1] in seen
  {
    if |path| > 1 {
      var init := path[..|path| - 1];
      assert IsPath(layout, init);
      ClosedHoldsReachable(layout, seen, init);
      assert Next(layout, path[|path| - 2], path[|path| - 1]);
    }
  }

  // ---------------------------------------------------------------------------
  // energise
  // ---------------------------------------------------------------------------

  /** A queue entry: a beam at `location` about to move in `direction`. */
  datatype Entry = Entry(location: Cell, direction: Direction)

  /** The state an entry moves the beam into. */
  function Target(e: Entry): State
  {
    (Move(e.location, e.direction), e.direction)
  }

  /** Every state in the grid, for the termination measure. */
  function AllStates(layout: map<Cell, char>): set<State>
  {
    (set c | c in layout.Keys :: (c, N)) + (set c | c in layout.Keys :: (c, S))
      + (set c | c in layout.Keys :: (c, E)) + (set c | c in layout.Keys :: (c, W))
  }

  predicate Distinct(ds: seq<Direction>)
  {
    forall i, j :: 0 <= i < j < |ds| ==> ds[i] != ds[j]
  }

  /** The energy grid records exactly the states processed, each direction
    * once per cell. */
  ghost predicate Records(energyGrid: map<Cell, seq<Direction>>, seen: set<State>)
  {
    && (forall s :: s in seen <==> s.0 in energyGrid && s.1 in energyGrid[s.0])
    && (forall c :: c in energyGrid ==> |energyGrid[c]| > 0 && Distinct(energyGrid[c]))
  }

  /** Every successor of a processed state is processed or waiting in the
    * queue. */
  ghost predicate Pending(layout: map<Cell, char>, seen: set<State>, queue: seq<Entry>)
  {
    forall s, t :: s in seen && Next(layout, s, t) ==> t in seen || Entry(s.0, t.1) in queue
  }

  /** What the loop of `energise` keeps. */
  ghost predicate Inv(layout: map<Cell, char>, energyGrid: map<Cell, seq<Direction>>, queue: seq<Entry>, energised: nat, seen: set<State>)
  {
    && Records(energyGrid, seen) && seen <= AllStates(layout)
    && energyGrid.Keys <= layout.Keys && energised == |energyGrid.Keys|
    && (forall s :: s in seen ==> Reachable(layout, s))
    && (forall e :: e in queue && Target(e).0 in layout ==> Reachable(layout, Target(e)))
    && (Start.0 in layout ==> Start in seen || Entry((-1, 0), E) in queue)
    && Pending(layout, seen, queue)
  }

  lemma InAllStates(layout: map<Cell, char>, s: State)
    requires s.0 in layout
    ensures s in AllStates(layout)
  {
    match s.1
    case N => assert s in (set c | c in layout.Keys :: (c, N));
    case S => assert s in (set c | c in layout.Keys :: (c, S));
    case E => assert s in (set c | c in layout.Keys :: (c, E));
    case W => assert s in (set c | c in layout.Keys :: (c, W));
  }

  /** Taking the head off the queue: an entry other than the head is still
    * there. */
  lemma Shifted(queue: seq<Entry>, e: Entry)
    requires |queue| > 0 && e in queue && e != queue[0]
    ensures e in queue[1..]
  {
    var i :| 0 <= i < |queue| && queue[i] == e;
    assert queue[1..][i - 1] == e;
  }

  /** One pass of the loop of `energise`: take the head of the queue, and
    * when its beam enters a cell of the grid in a new direction record it
    * and queue the beams leaving that cell. A failure when the cell holds a
    * character the table lacks. */
  method Process(layout: map<Cell, char>, energyGrid: map<Cell, seq<Direction>>, queue: seq<Entry>, energised: nat, ghost seen: set<State>)
    returns (energyGrid': map<Cell, seq<Direction>>, queue': seq<Entry>, energised': nat, ghost seen': set<State>, failed: bool)
    requires Inv(layout, energyGrid, queue, energised, seen) && |queue| > 0
    ensures failed ==> exists s: State :: s.0 in layout && Reachable(layout, s) && Interactions(layout[s.0], s.1).None?
    ensures !failed ==> Inv(layout, energyGrid', queue', energised', seen')
    ensures !failed ==> (seen' == seen && |queue'| < |queue|) || (seen < seen' && seen' <= AllStates(layout))
  {
    var entry := queue[0];
    queue' := queue[1..];
    energyGrid', energised', seen', failed := energyGrid, energised, seen, false;
    var newLocation := Move(entry.location, entry.direction);
    var direction := entry.direction;
    ghost var t := Target(entry);
    if newLocation !in layout {
      // Outside the grid.
      forall s, u | s in seen && Next(layout, s, u) && u !in seen
        ensures Entry(s.0, u.1) in queue'
      {
        Shifted(queue, Entry(s.0, u.1));
      }
      return;
    }
    var node := layout[newLocation];
    if newLocation in energyGrid && direction in energyGrid[newLocation] {
      // Already energised.
      forall s, u | s in seen && Next(layout, s, u) && u !in seen
        ensures Entry(s.0, u.1) in queue'
      {
        Shifted(queue, Entry(s.0, u.1));
      }
      return;
    }
    if newLocation in energyGrid {
      energyGrid' := energyGrid[newLocation := energyGrid[newLocation] + [direction]];
    } else {
      energyGrid' := energyGrid[newLocation := [direction]];
      energised' := energised + 1;
    }
    seen' := seen + {t};
    InAllStates(layout, t);
    var newDirections := Interactions(node, direction);
    if newDirections.None? {
      return energyGrid', queue', energised', seen', true;
    }
    var pushed := seq(|newDirections.value|, i requires 0 <= i < |newDirections.value| => Entry(newLocation, newDirections.value[i]));
    queue' := queue[1..] + pushed;
    PushedMeaning(newLocation, newDirections.value, pushed);
    RecordsKeep(energyGrid, energised, seen, t, energyGrid', energised');
    QueueReachableKeep(layout, queue, t, queue', pushed);
    PendingKeep(layout, seen, queue, t, queue', pushed);
    if Start.0 in layout && Start !in seen' {
      assert Entry((-1, 0), E) != queue[0];
      Shifted(queue, Entry((-1, 0), E));
    }
  }

  /** The entries queued from cell `c` are those for the directions `ds`. */
  lemma PushedMeaning(c: Cell, ds: seq<Direction>, pushed: seq<Entry>)
    requires pushed == seq(|ds|, i requires 0 <= i < |ds| => Entry(c, ds[i]))
    ensures forall e :: e in pushed ==> e.location == c && e.direction in ds
    ensures forall d :: d in ds ==> Entry(c, d) in pushed
  {
    forall d | d in ds
      ensures Entry(c, d) in pushed
    {
      var i :| 0 <= i < |ds| && ds[i] == d;
      assert pushed[i] == Entry(c, d);
    }
  }

  /** Recording a new state in the energy grid. */
  lemma RecordsKeep(energyGrid: map<Cell, seq<Direction>>, energised: nat, seen: set<State>,
                    t: State, energyGrid': map<Cell, seq<Direction>>, energised': nat)
    requires Records(energyGrid, seen) && energised == |energyGrid.Keys| && t !in seen
    requires energyGrid' == energyGrid[t.0 := if t.0 in energyGrid then energyGrid[t.0] + [t.1] else [t.1]]
    requires energised' == if t.0 in energyGrid then energised else energised + 1
    ensures Records(energyGrid', seen + {t}) && energised' == |energyGrid'.Keys|
    ensures energyGrid'.Keys == energyGrid.Keys + {t.0}
  {
    if t.0 in energyGrid {
      assert t.1 !in energyGrid[t.0];
      assert energyGrid'.Keys == energyGrid.Keys;
    } else {
      assert energyGrid'.Keys == energyGrid.Keys + {t.0};
    }
  }

  /** The queued entries still lead to reachable states. */
  lemma QueueReachableKeep(layout: map<Cell, char>, queue: seq<Entry>, t: State, queue': seq<Entry>, pushed: seq<Entry>)
    requires |queue| > 0 && t == Target(queue[0]) && t.0 in layout
    requires forall e :: e in queue && Target(e).0 in layout ==> Reachable(layout, Target(e))
    requires Interactions(layout[t.0], t.1).Some?
    requires forall e :: e in pushed ==> e.location == t.0 && e.direction in Interactions(layout[t.0], t.1).value
    requires queue' == queue[1..] + pushed
    ensures forall e :: e in queue' && Target(e).0 in layout ==> Reachable(layout, Target(e))
  {
    assert Reachable(layout, t);
    forall e | e in queue' && Target(e).0 in layout
      ensures Reachable(layout, Target(e))
    {
      if e in pushed {
        assert Next(layout, t, Target(e));
        ReachableNext(layout, t, Target(e));
      } else {
        assert e in queue[1..];
      }
    }
  }

  /** Every successor of the processed states, `t` included, is processed
    * or queued. */
  lemma PendingKeep(layout: map<Cell, char>, seen: set<State>, queue: seq<Entry>, t: State, queue': seq<Entry>, pushed: seq<Entry>)
    requires |queue| > 0 && t == Target(queue[0]) && Pending(layout, seen, queue)
    requires t.0 in layout && Interactions(layout[t.0], t.1).Some?
    requires forall d :: d in Interactions(layout[t.0], t.1).value ==> Entry(t.0, d) in pushed
    requires queue' == queue[1..] + pushed
    ensures Pending(layout, seen + {t}, queue')
  {
    forall s, u | s in seen + {t} && Next(layout, s, u) && u !in seen + {t}
      ensures Entry(s.0, u.1) in queue'
    {
      if s == t {
        assert Entry(s.0, u.1) in pushed;
      } else {
        Shifted(queue, Entry(s.0, u.1));
      }
    }
  }

  /** `energise`: the number of cells a beam passes through, or a failure
    * when a beam meets a character the table lacks. */
  method Energise(layout: map<Cell, char>) returns (r: Result<nat>)
    ensures r.Success? ==> r.value == |EnergisedCells(layout)|
    ensures r.Failure? ==> exists s: State :: s.0 in layout && Reachable(layout, s) && Interactions(layout[s.0], s.1).None?
  {
    var energyGrid: map<Cell, seq<Direction>> := map[];
    var queue := [Entry((-1, 0), E)];
    var energised: nat := 0;
    ghost var seen: set<State> := {};
    if Start.0 in layout {
      StartReachable(layout);
    }
    assert Target(queue[0]) == Start;
    while |queue| > 0
      invariant Inv(layout, energyGrid, queue, energised, seen)
      decreases AllStates(layout) - seen, |queue|
    {
      ghost var before := seen;
      var failed;
      energyGrid, queue, energised, seen, failed := Process(layout, energyGrid, queue, energised, seen);
      if failed {
        return Failure("a character the table lacks");
      }
      if before < seen {
        var u :| u in seen && u !in before;
        assert u in AllStates(layout) - before && u !in AllStates(layout) - seen;
      }
    }
    assert queue == [];
    ClosedEnergised(layout, energyGrid, seen);
    return Success(energised);
  }

  /** Once the queue is empty the processed states are the reachable ones,
    * and the energy grid's cells are the energised cells. */
  lemma ClosedEnergised(layout: map<Cell, char>, energyGrid: map<Cell, seq<Direction>>, seen: set<State>)
    requires Records(energyGrid, seen) && energyGrid.Keys <= layout.Keys
    requires forall s :: s in seen ==> Reachable(layout, s)
    requires Start.0 in layout ==> Start in seen
    requires Pending(layout, seen, [])
    ensures energyGrid.Keys == EnergisedCells(layout)
  {
    forall c | c in EnergisedCells(layout)
      ensures c in energyGrid
    {
      var d: Direction :| Reachable(layout, (c, d));
      var path :| IsPath(layout, path) && path[|path| - 1] == (c, d);
      ClosedHoldsReachable(layout, seen, path);
    }
    forall c | c in energyGrid
      ensures c in EnergisedCells(layout)
    {
      var d := energyGrid[c][0];
      assert (c, d) in seen;
    }
  }

  /** Part 1: the cells the beam from the top-left corner energises, on
    * the grid of the input's non-empty lines. */
  method Part1(lines: seq<string>) returns (r: Result<nat>)
    ensures r.Success? ==> r.value == |EnergisedCells(CellsOf(NonEmpty(lines)))|
    ensures r.Failure? ==> exists s: State ::
      (s.0 in CellsOf(NonEmpty(lines)) && Reachable(CellsOf(NonEmpty(lines)), s) && Interactions(CellsOf(NonEmpty(lines))[s.0], s.1).None?)
  {
    r := Energise(CellsOf(NonEmpty(lines)));
  }

  /** The grid `loadInput` fills: character `x` of line `y` at (x, y). */
  function CellsOf(lines: seq<string>): map<Cell, char>
  {
    map p | p in (set y, x | 0 <= y < |lines| && 0 <= x < |lines[y]| :: (x, y)) :: lines[p.1][p.0]
  }
}
