/** 2023 day 21: a gardener steps north, south, east or west onto garden
    plots ('.'); rocks ('#') and the world beyond the map are closed. Part 1
    counts the plots the gardener can stand on after exactly 64 steps. */
module Day2023_21 {
  import opened Common

  /** An (x, y) position: column, then row. */
  type Coordinate = (int, int)

  // ---------------------------------------------------------------------------
  // loadInput
  // ---------------------------------------------------------------------------

  /** The map `loadInput` sets: character `x` of line `y` at (x, y), with
    * the start 'S' shown as a plot. */
  function CellsOf(lines: seq<string>): map<Coordinate, char>
  {
    map p | p in (set y, x | 0 <= y < |lines| && 0 <= x < |lines[y]| :: (x, y)) ::
      if lines[p.1][p.0] == 'S' then '.' else lines[p.1][p.0]
  }

  /** (x, y) comes after (x', y') in reading order. */
  predicate After(p: Coordinate, q: Coordinate)
  {
    p.1 > q.1 || (p.1 == q.1 && p.0 > q.0)
  }

  /** The start: the last 'S' in reading order. */
  ghost predicate IsLastStart(lines: seq<string>, start: Coordinate)
  {
    && 0 <= start.1 < |lines| && 0 <= start.0 < |lines[start.1]| && lines[start.1][start.0] == 'S'
    && forall y, x :: 0 <= y < |lines| && 0 <= x < |lines[y]| && After((x, y), start) ==> lines[y][x] != 'S'
  }

  /** The start of `lines`, when they have one. */
  function StartOf(lines: seq<string>): (r: Option<Coordinate>)
    ensures r.Some? ==> IsLastStart(lines, r.value)
    ensures r.None? <==> forall y, x :: 0 <= y < |lines| && 0 <= x < |lines[y]| ==> lines[y][x] != 'S'
  {
    if lines == [] then None
    else
      var n := |lines| - 1;
      var k := LastIndex(lines[n]);
      if k >= 0 then Some((k, n))
      else
        var r := StartOf(lines[..n]);
        assert forall x :: 0 <= x < |lines[n]| ==> lines[n][x] != 'S';
        r
  }

  /** The last index of 'S' in `line`, or -1. */
  function LastIndex(line: string): (k: int)
    ensures -1 <= k < |line|
    ensures k >= 0 ==> line[k] == 'S'
    ensures forall x :: k < x < |line| ==> line[x] != 'S'
  {
    if line == [] then -1
    else if line[|line| - 1] == 'S' then |line| - 1
    else LastIndex(line[..|line| - 1])
  }

  /** `loadInput` on the non-empty lines: the map, and the start the last
    * 'S' set; the `assert` fails when there is none. */
  function LoadInput(lines: seq<string>): (r: Result<(map<Coordinate, char>, Coordinate)>)
    ensures r.Success? ==> r.value.0 == CellsOf(lines) && IsLastStart(lines, r.value.1)
    ensures r.Failure? <==> forall y, x :: 0 <= y < |lines| && 0 <= x < |lines[y]| ==> lines[y][x] != 'S'
  {
    match StartOf(lines)
    case None => Failure("no start")
    case Some(start) => Success((CellsOf(lines), start))
  }

  /** The start is a plot of the map. */
  lemma StartIsPlot(lines: seq<string>)
    requires LoadInput(lines).Success?
    ensures var (grid, start) := LoadInput(lines).value; start in grid && grid[start] == '.'
  {
    var start := LoadInput(lines).value.1;
    assert start in (set y, x | 0 <= y < |lines| && 0 <= x < |lines[y]| :: (x, y));
  }

  // ---------------------------------------------------------------------------
  // getDestinations
  // ---------------------------------------------------------------------------

  /** The `moves`: east, west, south, north. */
  const Moves: seq<Coordinate> := [(1, 0), (-1, 0), (0, 1), (0, -1)]

  function Add(p: Coordinate, move: Coordinate): Coordinate
  {
    (p.0 + move.0, p.1 + move.1)
  }

  /** A plot: set in the map, to '.'. */
  predicate Open(grid: map<Coordinate, char>, p: Coordinate)
  {
    p in grid && grid[p] == '.'
  }

  /** The plots one step from some of `ds`. */
  ghost function StepFrom(grid: map<Coordinate, char>, ds: seq<Coordinate>): set<Coordinate>
  {
    set k, j | 0 <= k < |ds| && 0 <= j < |Moves| && Open(grid, Add(ds[k], Moves[j])) :: Add(ds[k], Moves[j])
  }

  /** The positions after exactly `n` steps from `start`. */
  ghost function Reach(grid: map<Coordinate, char>, start: Coordinate, n: nat): set<Coordinate>
  {
    if n == 0 then {start}
    else set d, j | d in Reach(grid, start, n - 1) && 0 <= j < |Moves| && Open(grid, Add(d, Moves[j])) :: Add(d, Moves[j])
  }

  ghost predicate Distinct(s: seq<Coordinate>)
  {
    forall a, b :: 0 <= a < b < |s| ==> s[a] != s[b]
  }

  /** The loop over one destination's moves. */
  method AddMoves(grid: map<Coordinate, char>, ghost done: seq<Coordinate>, destination: Coordinate,
                  updated: seq<Coordinate>, targets: set<Coordinate>)
      returns (updated': seq<Coordinate>, targets': set<Coordinate>)
    requires Distinct(updated) && targets == set p | p in updated
    requires targets == StepFrom(grid, done)
    ensures Distinct(updated') && targets' == set p | p in updated'
    ensures targets' == StepFrom(grid, done + [destination])
  {
    updated', targets' := updated, targets;
    for j := 0 to |Moves|
      invariant Distinct(updated') && targets' == set p | p in updated'
      invariant targets' == targets + set j' | 0 <= j' < j && Open(grid, Add(destination, Moves[j'])) :: Add(destination, Moves[j'])
    {
      var potentialDestination := (destination.0 + Moves[j].0, destination.1 + Moves[j].1);
      if potentialDestination in grid && grid[potentialDestination] == '.' && potentialDestination !in targets' {
        updated' := updated' + [potentialDestination];
        targets' := targets' + {potentialDestination};
      }
    }
    StepFromAppend(grid, done, destination);
  }

  lemma StepFromAppend(grid: map<Coordinate, char>, done: seq<Coordinate>, d: Coordinate)
    ensures StepFrom(grid, done + [d]) ==
      StepFrom(grid, done) + set j | 0 <= j < |Moves| && Open(grid, Add(d, Moves[j])) :: Add(d, Moves[j])
  {
    var all := done + [d];
    forall p | p in StepFrom(grid, all)
      ensures p in StepFrom(grid, done) || p in set j | 0 <= j < |Moves| && Open(grid, Add(d, Moves[j])) :: Add(d, Moves[j])
    {
      var k, j :| 0 <= k < |all| && 0 <= j < |Moves| && Open(grid, Add(all[k], Moves[j])) && p == Add(all[k], Moves[j]);
      if k < |done| {
        assert all[k] == done[k];
      }
    }
    forall p | p in StepFrom(grid, done)
      ensures p in StepFrom(grid, all)
    {
      var k, j :| 0 <= k < |done| && 0 <= j < |Moves| && Open(grid, Add(done[k], Moves[j])) && p == Add(done[k], Moves[j]);
      assert all[k] == done[k];
    }
    forall j | 0 <= j < |Moves| && Open(grid, Add(d, Moves[j]))
      ensures Add(d, Moves[j]) in StepFrom(grid, all)
    {
      assert all[|done|] == d;
    }
  }

  /** One step from the whole list is one step from its set. */
  lemma StepFromSet(grid: map<Coordinate, char>, ds: seq<Coordinate>, from: set<Coordinate>)
    requires from == set p | p in ds
    ensures StepFrom(grid, ds) == set d, j | d in from && 0 <= j < |Moves| && Open(grid, Add(d, Moves[j])) :: Add(d, Moves[j])
  {
    forall p | p in set d, j | d in from && 0 <= j < |Moves| && Open(grid, Add(d, Moves[j])) :: Add(d, Moves[j])
      ensures p in StepFrom(grid, ds)
    {
      var d, j :| d in from && 0 <= j < |Moves| && Open(grid, Add(d, Moves[j])) && p == Add(d, Moves[j]);
      var k :| 0 <= k < |ds| && ds[k] == d;
    }
    forall p | p in StepFrom(grid, ds)
      ensures p in set d, j | d in from && 0 <= j < |Moves| && Open(grid, Add(d, Moves[j])) :: Add(d, Moves[j])
    {
      var k, j :| 0 <= k < |ds| && 0 <= j < |Moves| && Open(grid, Add(ds[k], Moves[j])) && p == Add(ds[k], Moves[j]);
      assert ds[k] in from;
    }
  }

  /** `getDestinations`: the positions after exactly `steps` steps, each
    * once. `uniq` compares the fresh coordinate objects by reference and
    * removes nothing; the target grid has already kept each position
    * once. */
  method GetDestinations(grid: map<Coordinate, char>, start: Coordinate, steps: nat) returns (destinations: seq<Coordinate>)
    ensures Distinct(destinations)
    ensures (set p | p in destinations) == Reach(grid, start, steps)
    ensures steps == 0 ==> destinations == [start]
  {
    destinations := [start];
    for i := 0 to steps
      invariant Distinct(destinations)
      invariant (set p | p in destinations) == Reach(grid, start, i)
      invariant i == 0 ==> destinations == [start]
    {
      var updatedDestinations: seq<Coordinate> := [];
      var targetGrid: set<Coordinate> := {};
      for k := 0 to |destinations|
        invariant Distinct(updatedDestinations) && targetGrid == set p | p in updatedDestinations
        invariant targetGrid == StepFrom(grid, destinations[..k])
      {
        assert destinations[..k + 1] == destinations[..k] + [destinations[k]];
        updatedDestinations, targetGrid := AddMoves(grid, destinations[..k], destinations[k], updatedDestinations, targetGrid);
      }
      assert destinations[..|destinations|] == destinations;
      StepFromSet(grid, destinations, Reach(grid, start, i));
      destinations := updatedDestinations;
    }
  }

  /** The elements of a list without repeats are as many as its entries. */
  lemma {:induction false} DistinctCard(s: seq<Coordinate>)
    requires Distinct(s)
    ensures |set p | p in s| == |s|
  {
    if s != [] {
      var init := s[..|s| - 1];
      DistinctCard(init);
      assert (set p | p in s) == (set p | p in init) + {s[|s| - 1]};
    }
  }

  /** Part 1: the number of positions after exactly 64 steps. */
  method Part1(lines: seq<string>) returns (r: Result<nat>)
    ensures LoadInput(NonEmpty(lines)).Failure? <==> r.Failure?
    ensures r.Success? ==> var (grid, start) := LoadInput(NonEmpty(lines)).value; r.value == |Reach(grid, start, 64)|
  {
    match LoadInput(NonEmpty(lines))
    case Failure(message) =>
      return Failure(message);
    case Success((grid, start)) =>
      var destinations := GetDestinations(grid, start, 64);
      DistinctCard(destinations);
      return Success(|destinations|);
  }

  // ---------------------------------------------------------------------------
  // Properties of the steps
  // ---------------------------------------------------------------------------

  /** Neighbours: one of the four moves apart. */
  predicate Adjacent(p: Coordinate, q: Coordinate)
  {
    exists j :: 0 <= j < |Moves| && q == Add(p, Moves[j])
  }

  /** A walk of `|w| - 1` steps from `start`: neighbour to neighbour, every
    * position after the first a plot. */
  ghost predicate IsWalk(grid: map<Coordinate, char>, start: Coordinate, w: seq<Coordinate>)
  {
    && |w| > 0 && w[0] == start
    && (forall k :: 0 < k < |w| ==> Adjacent(w[k - 1], w[k]) && Open(grid, w[k]))
  }

  /** A position is reached after exactly `n` steps when a walk of `n`
    * steps ends there: the step relation is the only way to move. */
  lemma {:induction false} ReachSound(grid: map<Coordinate, char>, start: Coordinate, n: nat, p: Coordinate)
      returns (w: seq<Coordinate>)
    requires p in Reach(grid, start, n)
    ensures IsWalk(grid, start, w) && |w| == n + 1 && w[n] == p
  {
    if n == 0 {
      w := [start];
    } else {
      var d, j :| d in Reach(grid, start, n - 1) && 0 <= j < |Moves| && Open(grid, Add(d, Moves[j])) && p == Add(d, Moves[j]);
      var w' := ReachSound(grid, start, n - 1, d);
      w := w' + [p];
      forall k | 0 < k < |w|
        ensures Adjacent(w[k - 1], w[k]) && Open(grid, w[k])
      {
        if k < n {
          assert w[k - 1] == w'[k - 1] && w[k] == w'[k];
        } else {
          assert w[k - 1] == d && w[k] == Add(d, Moves[j]);
        }
      }
    }
  }

  /** Conversely, the end of every walk of `n` steps is reached after `n`
    * steps. */
  lemma {:induction false} ReachComplete(grid: map<Coordinate, char>, start: Coordinate, w: seq<Coordinate>)
    requires IsWalk(grid, start, w)
    ensures w[|w| - 1] in Reach(grid, start, |w| - 1)
  {
    var n := |w| - 1;
    if n > 0 {
      var w' := w[..n];
      forall k | 0 < k < |w'|
        ensures Adjacent(w'[k - 1], w'[k]) && Open(grid, w'[k])
      {
        assert w'[k - 1] == w[k - 1] && w'[k] == w[k];
      }
      ReachComplete(grid, start, w');
      var j :| 0 <= j < |Moves| && w[n] == Add(w[n - 1], Moves[j]);
      assert w'[n - 1] == w[n - 1];
    }
  }

  /** Every position reached after at least one step is a plot. */
  lemma ReachOpen(grid: map<Coordinate, char>, start: Coordinate, n: nat, p: Coordinate)
    requires n > 0 && p in Reach(grid, start, n)
    ensures Open(grid, p)
  {
  }

  /** Each step changes x + y by one, so after `n` steps x + y has the
    * start's parity plus `n`: a checkerboard colouring. */
  lemma {:induction false} ReachParity(grid: map<Coordinate, char>, start: Coordinate, n: nat, p: Coordinate)
    requires p in Reach(grid, start, n)
    ensures (p.0 + p.1 - start.0 - start.1 - n) % 2 == 0
  {
    if n > 0 {
      var d, j :| d in Reach(grid, start, n - 1) && 0 <= j < |Moves| && Open(grid, Add(d, Moves[j])) && p == Add(d, Moves[j]);
      ReachParity(grid, start, n - 1, d);
    }
  }
}
